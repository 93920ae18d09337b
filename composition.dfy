/** Whole-sequence composition statistics: `base_counts`, `gc_content`,
    `at_content`, `cpg_oe` and `compute_tm`. Python's float division is
    modelled by exact `real` division. */
module Composition {
  import opened Nucleotides

  /** The record `base_counts` returns. */
  datatype BaseCounts = BaseCounts(a: nat, t: nat, g: nat, c: nat, n: nat, total: nat)

  /** `base_counts(seq)`: tallies of the five symbols. It does not
      upper-case, so lower-case letters are not counted: `total` is at most
      the length, and exactly the length for a cleaned sequence. */
  function CountBases(s: string): (r: BaseCounts)
    ensures r.total == r.a + r.t + r.g + r.c + r.n
    ensures r.total <= |s|
    ensures Canonical(s) ==> r.total == |s|
  {
    SymbolCounts(s);
    var a, t, g, c, n := Count(s, 'A'), Count(s, 'T'), Count(s, 'G'), Count(s, 'C'), Count(s, 'N');
    BaseCounts(a, t, g, c, n, a + t + g + c + n)
  }

  /** The denominator of GC% and AT%: A + T + G + C, N excluded. */
  function AtgcTotal(r: BaseCounts): nat {
    r.a + r.t + r.g + r.c
  }

  /** `part / whole * 100`, guarded: 0.0 when `whole` is 0. */
  function Percent(part: nat, whole: nat): (p: real)
    requires part <= whole
    ensures whole == 0 ==> p == 0.0
    ensures 0.0 <= p <= 100.0
  {
    if whole == 0 then 0.0
    else
      DivBounds(part as real, whole as real);
      part as real / whole as real * 100.0
  }

  /** `gc_content(seq)`: percentage of G and C among A, T, G, C. */
  function GcContent(s: string): (gc: real)
    ensures AtgcTotal(CountBases(s)) == 0 ==> gc == 0.0
    ensures 0.0 <= gc <= 100.0
  {
    var r := CountBases(s);
    Percent(r.g + r.c, AtgcTotal(r))
  }

  /** `at_content(seq)`: percentage of A and T among A, T, G, C. */
  function AtContent(s: string): (at: real)
    ensures AtgcTotal(CountBases(s)) == 0 ==> at == 0.0
    ensures 0.0 <= at <= 100.0
  {
    var r := CountBases(s);
    Percent(r.a + r.t, AtgcTotal(r))
  }

  /** N is outside both denominators, so GC% and AT% are complementary
      whenever there is at least one of A, T, G, C. */
  lemma GcAtComplementary(s: string)
    requires AtgcTotal(CountBases(s)) > 0
    ensures GcContent(s) + AtContent(s) == 100.0
  {
    var r := CountBases(s);
    DivSum((r.g + r.c) as real, (r.a + r.t) as real, AtgcTotal(r) as real);
  }

  /** GC% is 100 exactly when there is no A or T, and 0 exactly when there
      is no G or C. */
  lemma GcContentExtremes(s: string)
    requires AtgcTotal(CountBases(s)) > 0
    ensures GcContent(s) == 100.0 <==> Count(s, 'A') + Count(s, 'T') == 0
    ensures GcContent(s) == 0.0 <==> Count(s, 'G') + Count(s, 'C') == 0
  {
    var r := CountBases(s);
    DivExtremes((r.g + r.c) as real, AtgcTotal(r) as real);
  }

  /** The expected number of CpG pairs, `G * C / (A + T + G + C)`. */
  function CpgExpected(r: BaseCounts): (e: real)
    requires AtgcTotal(r) > 0
    ensures e >= 0.0
    ensures e == 0.0 <==> r.g == 0 || r.c == 0
  {
    ProductZero(r.g, r.c, AtgcTotal(r));
    (r.g * r.c) as real / AtgcTotal(r) as real
  }

  /** The arithmetic of `cpg_oe` once the counts are known: None when
      `A + T + G + C` is 0 or when the expected count is 0, else observed
      over expected. */
  function ObservedOverExpected(cg: nat, r: BaseCounts): (oe: Option<real>)
    ensures oe.None? <==> AtgcTotal(r) == 0 || r.g == 0 || r.c == 0
    ensures oe.Some? ==> oe.value >= 0.0
  {
    if AtgcTotal(r) == 0 then None
    else
      var expected := CpgExpected(r);
      if expected == 0.0 then None
      else
        RatioTimesDivisor(cg as real, expected);
        Some(cg as real / expected)
  }

  /** `cpg_oe(seq)`: observed `CG` pairs over the expected count, or None
      when there is no A, T, G, C or when there is no G or no C. */
  function CpgOe(s: string): (oe: Option<real>)
    ensures var r := CountBases(Upper(s));
      oe.None? <==> AtgcTotal(r) == 0 || r.g == 0 || r.c == 0
    ensures oe.Some? ==> oe.value >= 0.0
  {
    var u := Upper(s);
    ObservedOverExpected(PairCount(u, 'C', 'G'), CountBases(u))
  }

  /** The ratio `oe` is at most `(A+T+G+C) / max(G, C)` for the counts `r`. */
  predicate WithinCpgBound(oe: real, r: BaseCounts) {
    oe * Max(r.g, r.c) as real <= AtgcTotal(r) as real
  }

  /** Observed over expected is at most `(A+T+G+C) / max(G, C)` when the
      observed count is at most `min(G, C)`. */
  lemma ObservedOverExpectedBounded(cg: nat, r: BaseCounts)
    requires ObservedOverExpected(cg, r).Some?
    requires cg <= r.g && cg <= r.c
    ensures WithinCpgBound(ObservedOverExpected(cg, r).value, r)
  {
  }

  /** The observed CG count of the upper-cased sequence is at most its
      number of C and at most its number of G, so `cpg_oe` never exceeds
      `(A+T+G+C) / max(G, C)`. */
  lemma CpgObservedBounded(s: string)
    ensures CpgOe(s).Some? ==> WithinCpgBound(CpgOe(s).value, CountBases(Upper(s)))
    ensures PairCount(Upper(s), 'C', 'G') <= Count(Upper(s), 'C')
    ensures PairCount(Upper(s), 'C', 'G') <= Count(Upper(s), 'G')
  {
    var u := Upper(s);
    var r, cg := CountBases(u), PairCount(u, 'C', 'G');
    PairCountBounded(u, 'C', 'G');
    assert cg <= r.g && cg <= r.c;
    var oe := CpgOe(s);
    assert oe == ObservedOverExpected(cg, r);
    if oe.Some? {
      ObservedOverExpectedBounded(cg, r);
    }
  }

  /** The arithmetic of `compute_tm` once the counts are known: the
      Wallace rule `2 * (A + T) + 4 * (G + C)`, or None when there is no
      A, T, G, C. */
  function Wallace(r: BaseCounts): (tm: Option<int>)
    ensures tm.None? <==> AtgcTotal(r) == 0
    ensures tm.Some? ==> 2 * AtgcTotal(r) <= tm.value <= 4 * AtgcTotal(r)
  {
    var at := r.a + r.t;
    var gc := r.g + r.c;
    if at + gc == 0 then None else Some(2 * at + 4 * gc)
  }

  /** `compute_tm(seq)`: the Wallace rule at every length. */
  function ComputeTm(s: string): (tm: Option<int>)
    ensures tm.None? <==> AtgcTotal(CountBases(s)) == 0
    ensures tm.Some? ==> 2 * AtgcTotal(CountBases(s)) <= tm.value <= 4 * AtgcTotal(CountBases(s))
  {
    Wallace(CountBases(s))
  }

  /** The melting temperature is a function of length and GC% alone:
      `Tm = L * (2 + GC% / 50)` with `L = A + T + G + C` and GC% the value
      `gc_content` computes from the same counts. */
  lemma TmFromGcContent(r: BaseCounts)
    requires Wallace(r).Some?
    ensures Wallace(r).value as real == AtgcTotal(r) as real * (2.0 + Percent(r.g + r.c, AtgcTotal(r)) / 50.0)
  {
  }
}
