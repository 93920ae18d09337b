/** `shannon_entropy` (k = 1): the mononucleotide entropy of the A, T, G,
    C composition. The base-2 logarithm is a parameter: only the facts
    about it that a lemma states are assumed of it. */
module Entropy {
  import opened Nucleotides
  import opened Composition

  /** The loop order of `for b in 'ATGC'`. */
  const Order: string := "ATGC"

  /** `count / total` */
  function Fraction(count: nat, total: nat): real
    requires total > 0
  {
    count as real / total as real
  }

  /** The share `p = counts[b] / total` of one base. */
  function Share(u: string, b: char): real
    requires AtgcTotal(CountBases(u)) > 0
  {
    Fraction(Count(u, b), AtgcTotal(CountBases(u)))
  }

  /** `p * log2(p)` when `p > 0`, else nothing. */
  function Contribution(p: real, log2: real -> real): real {
    if p > 0.0 then p * log2(p) else 0.0
  }

  /** The contribution of one base. */
  function Term(u: string, b: char, log2: real -> real): real
    requires AtgcTotal(CountBases(u)) > 0
  {
    Contribution(Share(u, b), log2)
  }

  /** The sum of the terms of the bases `bs`, in order. */
  function TermSum(u: string, bs: string, log2: real -> real): real
    requires AtgcTotal(CountBases(u)) > 0
  {
    if bs == [] then 0.0 else TermSum(u, bs[..|bs| - 1], log2) + Term(u, bs[|bs| - 1], log2)
  }

  /** The value `shannon_entropy` computes for the upper-cased `u`:
      `-(sum of p * log2(p))`, or 0.0 when `u` is empty or holds no A, T,
      G, C. */
  function EntropyOf(u: string, log2: real -> real): real {
    if |u| == 0 || AtgcTotal(CountBases(u)) == 0 then 0.0 else -TermSum(u, Order, log2)
  }

  /** `shannon_entropy(seq)` */
  method ShannonEntropy(s: string, log2: real -> real) returns (h: real)
    ensures h == EntropyOf(Upper(s), log2)
    ensures |s| == 0 || AtgcTotal(CountBases(Upper(s))) == 0 ==> h == 0.0
  {
    var u := Upper(s);
    var n := |u|;
    if n == 0 {
      return 0.0;
    }
    var total := AtgcTotal(CountBases(u));
    if total == 0 {
      return 0.0;
    }
    h := 0.0;
    for j := 0 to |Order|
      invariant h == -TermSum(u, Order[..j], log2)
    {
      var b := Order[j];
      var p := Fraction(Count(u, b), total);
      if p > 0.0 {
        h := h - p * log2(p);
      }
      assert h == -TermSum(u, Order[..j], log2) - Contribution(p, log2);
      assert Order[..j + 1][..j] == Order[..j];
    }
    assert Order[..|Order|] == Order;
  }

  // ---------------------------------------------------------------------
  // Properties.

  /** A sequence made of a single base (N and other symbols aside) has
      entropy 0, given `log2(1) == 0`. */
  lemma SingleBaseHasNoEntropy(u: string, b: char, log2: real -> real)
    requires log2(1.0) == 0.0
    requires IsBase(b) && Count(u, b) > 0
    requires forall x :: IsBase(x) && x != b ==> Count(u, x) == 0
    ensures EntropyOf(u, log2) == 0.0
  {
    assert AtgcTotal(CountBases(u)) == Count(u, b);
    TermZero(u, 'A', log2);
    TermZero(u, 'T', log2);
    TermZero(u, 'G', log2);
    TermZero(u, 'C', log2);
    TermSumOrder(u, log2);
  }

  /** A base that is absent, or that is the only one present, contributes
      nothing. */
  lemma TermZero(u: string, x: char, log2: real -> real)
    requires AtgcTotal(CountBases(u)) > 0
    requires Count(u, x) == 0 || (Count(u, x) == AtgcTotal(CountBases(u)) && log2(1.0) == 0.0)
    ensures Term(u, x, log2) == 0.0
  {
    if Count(u, x) != 0 {
      SelfRatio(AtgcTotal(CountBases(u)) as real);
    }
  }

  /** The four terms of the loop, written out. */
  lemma TermSumOrder(u: string, log2: real -> real)
    requires AtgcTotal(CountBases(u)) > 0
    ensures TermSum(u, Order, log2)
      == Term(u, 'A', log2) + Term(u, 'T', log2) + Term(u, 'G', log2) + Term(u, 'C', log2)
  {
    var a, at, atg: string := "A", "AT", "ATG";
    assert Order[..3] == atg && atg[..2] == at && at[..1] == a && a[..0] == [];
    assert TermSum(u, a, log2) == Term(u, 'A', log2);
    assert TermSum(u, at, log2) == TermSum(u, a, log2) + Term(u, 'T', log2);
    assert TermSum(u, atg, log2) == TermSum(u, at, log2) + Term(u, 'G', log2);
    assert TermSum(u, Order, log2) == TermSum(u, atg, log2) + Term(u, 'C', log2);
  }

  /** Entropy is never negative, given that `log2(p) <= 0` for every
      share `0 < p <= 1`. */
  lemma EntropyNonNegative(u: string, log2: real -> real)
    requires forall p :: 0.0 < p <= 1.0 ==> log2(p) <= 0.0
    ensures EntropyOf(u, log2) >= 0.0
  {
    if |u| > 0 && AtgcTotal(CountBases(u)) > 0 {
      TermSumOrder(u, log2);
      TermNonPositive(u, 'A', log2);
      TermNonPositive(u, 'T', log2);
      TermNonPositive(u, 'G', log2);
      TermNonPositive(u, 'C', log2);
    }
  }

  lemma TermNonPositive(u: string, b: char, log2: real -> real)
    requires AtgcTotal(CountBases(u)) > 0 && IsBase(b)
    requires forall p :: 0.0 < p <= 1.0 ==> log2(p) <= 0.0
    ensures Term(u, b, log2) <= 0.0
  {
    var p := Share(u, b);
    if p > 0.0 {
      DivBounds(Count(u, b) as real, AtgcTotal(CountBases(u)) as real);
      NonPositiveProduct(p, log2(p));
    }
  }

  lemma NonPositiveProduct(p: real, l: real)
    requires p > 0.0 && l <= 0.0
    ensures p * l <= 0.0
  {
  }
}
