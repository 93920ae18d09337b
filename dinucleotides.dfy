/** `dinucleotide_freq`: counts of the overlapping adjacent pairs drawn
    from A, T, G, C, and each pair's share of all such pairs. */
module Dinucleotides {
  import opened Nucleotides

  /** `re.fullmatch(r'[ATGC]{2}', d)` */
  predicate IsPair(d: string) {
    |d| == 2 && IsBase(d[0]) && IsBase(d[1])
  }

  /** The sixteen strings `IsPair` accepts, each once. */
  const AllPairs: seq<string> := [
    "AA", "AT", "AG", "AC", "TA", "TT", "TG", "TC",
    "GA", "GT", "GG", "GC", "CA", "CT", "CG", "CC"]

  lemma AllPairsAreThePairs(d: string)
    ensures d in AllPairs <==> IsPair(d)
  {
    if IsPair(d) {
      assert d == [d[0], d[1]];
    }
  }

  lemma AllPairsDistinct()
    ensures forall i, j :: 0 <= i < j < |AllPairs| ==> AllPairs[i] != AllPairs[j]
  {
  }

  /** Occurrences of the pair `d` in `s`, overlapping ones included. */
  function Occurrences(s: string, d: string): nat
    requires |d| == 2
  {
    PairCount(s, d[0], d[1])
  }

  /** Number of indices `i` with both `s[i]` and `s[i + 1]` in [ATGC]:
      the `total` of `dinucleotide_freq`. */
  function ValidPairs(s: string): (k: nat)
    ensures k <= if |s| == 0 then 0 else |s| - 1
  {
    if |s| < 2 then 0
    else ValidPairs(s[..|s| - 1]) + (if IsBase(s[|s| - 2]) && IsBase(s[|s| - 1]) then 1 else 0)
  }

  /** The counter `di` after the scan: each pair that occurs, with its count. */
  function Observed(s: string): map<string, nat> {
    map d | d in AllPairs && Occurrences(s, d) > 0 :: Occurrences(s, d)
  }

  /** `counter.get(d, 0)` */
  function Get(t: map<string, nat>, d: string): nat {
    if d in t then t[d] else 0
  }

  /** The sum of the values of `t` at the keys `ds`. */
  function KeySum(t: map<string, nat>, ds: seq<string>): nat {
    if ds == [] then 0 else Get(t, ds[0]) + KeySum(t, ds[1..])
  }

  /** `sum(di.values())`: every key of the counter is one of `AllPairs`. */
  function TableSum(t: map<string, nat>): nat {
    KeySum(t, AllPairs)
  }

  /** The sum of the frequencies of `freqs` at the keys `ds`, 0 for an
      absent key. */
  function FreqSum(freqs: map<string, (nat, real)>, ds: seq<string>): real {
    if ds == [] then 0.0
    else (if ds[0] in freqs then freqs[ds[0]].1 else 0.0) + FreqSum(freqs, ds[1..])
  }

  /** `{k: (v, v/total if total>0 else 0) for k,v in di.items()}` */
  function Frequencies(t: map<string, nat>, total: nat): map<string, (nat, real)> {
    map d | d in t :: (t[d], if total > 0 then t[d] as real / total as real else 0.0)
  }

  /** `dinucleotide_freq(seq)`: for each pair of [ATGC] that occurs, its
      count and its frequency `count / total`, and `total`. */
  method DinucleotideFreq(s: string) returns (freqs: map<string, (nat, real)>, total: nat)
    ensures total == ValidPairs(Upper(s))
    ensures total <= if |s| == 0 then 0 else |s| - 1
    ensures forall d :: d in freqs <==> IsPair(d) && Occurrences(Upper(s), d) > 0
    ensures forall d :: d in freqs ==> && IsPair(d) && total > 0
                                       && freqs[d].0 == Occurrences(Upper(s), d)
                                       && freqs[d].1 == freqs[d].0 as real / total as real
    ensures total > 0 ==> FreqSum(freqs, AllPairs) == 1.0
    ensures total == 0 ==> freqs == map[]
  {
    var u := Upper(s);
    var di := CountPairs(u);
    total := TableSum(di);
    freqs := Frequencies(di, total);
    FrequencyTable(u, di, total, freqs);
  }

  /** What the final comprehension yields from the completed counter. */
  lemma FrequencyTable(u: string, di: map<string, nat>, total: nat, freqs: map<string, (nat, real)>)
    requires di == Observed(u) && total == TableSum(di)
    requires freqs == Frequencies(di, total)
    ensures total == ValidPairs(u)
    ensures forall d :: d in freqs <==> IsPair(d) && Occurrences(u, d) > 0
    ensures forall d :: d in freqs ==> && IsPair(d) && total > 0
                                       && freqs[d].0 == Occurrences(u, d)
                                       && freqs[d].1 == freqs[d].0 as real / total as real
    ensures total > 0 ==> FreqSum(freqs, AllPairs) == 1.0
    ensures total == 0 ==> freqs == map[]
  {
    ObservedTotal(u);
    ObservedKeys(u);
    if total > 0 {
      FrequenciesSumToOne(freqs, di, AllPairs, total);
      SelfRatio(total as real);
    } else {
      NoTotalNoPairs(di, AllPairs);
      forall d | d in di ensures false {
        AllPairsAreThePairs(d);
      }
    }
  }

  /** The counting loop of `dinucleotide_freq`: `di[d] += 1` for every
      valid pair `d = seq[i:i+2]`, `i` in `range(len(seq) - 1)`. */
  method CountPairs(u: string) returns (di: map<string, nat>)
    ensures di == Observed(u)
  {
    di := map[];
    var m := if |u| == 0 then 0 else |u| - 1;
    for i := 0 to m
      invariant |u| == 0 ==> di == map[]
      invariant |u| > 0 ==> di == Observed(u[..i + 1])
    {
      var d := u[i..i + 2];
      PrefixStep(u, i);
      if IsPair(d) {
        di := di[d := Get(di, d) + 1];
      }
    }
    if |u| > 0 {
      assert u[..m + 1] == u;
    } else {
      assert Observed(u) == map[];
    }
  }

  /** The keys of the counter are exactly the valid pairs that occur. */
  lemma ObservedKeys(s: string)
    ensures forall d :: d in Observed(s) <==> IsPair(d) && Occurrences(s, d) > 0
  {
    forall d {
      AllPairsAreThePairs(d);
    }
  }

  // ---------------------------------------------------------------------
  // The counter grows by one pair per step.

  /** The counter after `di[d] += 1` when `d` is a valid pair. */
  function Bump(t: map<string, nat>, d: string): map<string, nat> {
    if IsPair(d) then t[d := Get(t, d) + 1] else t
  }

  lemma OccurrencesStep(p: string, e: string)
    requires |p| >= 2 && |e| == 2
    ensures Occurrences(p, e) == Occurrences(p[..|p| - 1], e) + (if e == p[|p| - 2..] then 1 else 0)
  {
  }

  /** Extending a text by one character adds its last pair, if valid. */
  lemma ObservedStep(p: string)
    requires |p| >= 2
    ensures Observed(p) == Bump(Observed(p[..|p| - 1]), p[|p| - 2..])
  {
    var d := p[|p| - 2..];
    var b := Bump(Observed(p[..|p| - 1]), d);
    forall e | e in Observed(p)
      ensures e in b && b[e] == Observed(p)[e]
    {
      AllPairsAreThePairs(e);
      OccurrencesStep(p, e);
    }
    forall e | e in b
      ensures e in Observed(p)
    {
      AllPairsAreThePairs(e);
      OccurrencesStep(p, e);
    }
    assert Observed(p) == b;
  }

  /** The same step for the prefixes `u[..i + 1]` and `u[..i + 2]`. */
  lemma PrefixStep(u: string, i: nat)
    requires i + 2 <= |u|
    ensures Observed(u[..i + 2]) == Bump(Observed(u[..i + 1]), u[i..i + 2])
  {
    ObservedStep(u[..i + 2]);
    assert u[..i + 2][..i + 1] == u[..i + 1];
    assert u[..i + 2][i..] == u[i..i + 2];
  }

  // ---------------------------------------------------------------------
  // Summing the counter.

  function PairSum(s: string, ds: seq<string>): nat
    requires forall i :: 0 <= i < |ds| ==> |ds[i]| == 2
  {
    if ds == [] then 0 else Occurrences(s, ds[0]) + PairSum(s, ds[1..])
  }

  function Matches(ds: seq<string>, e: string): nat {
    if ds == [] then 0 else (if ds[0] == e then 1 else 0) + Matches(ds[1..], e)
  }

  lemma {:induction false} MatchesDistinct(ds: seq<string>, e: string)
    requires forall i, j :: 0 <= i < j < |ds| ==> ds[i] != ds[j]
    ensures Matches(ds, e) == if e in ds then 1 else 0
  {
    if ds != [] {
      MatchesDistinct(ds[1..], e);
      if ds[0] == e {
        assert e !in ds[1..];
      }
    }
  }

  lemma {:induction false} PairSumStep(p: string, ds: seq<string>)
    requires |p| >= 2
    requires forall i :: 0 <= i < |ds| ==> |ds[i]| == 2
    ensures PairSum(p, ds) == PairSum(p[..|p| - 1], ds) + Matches(ds, p[|p| - 2..])
  {
    if ds != [] {
      PairSumStep(p, ds[1..]);
      assert ds[0] == p[|p| - 2..] <==> ds[0][0] == p[|p| - 2] && ds[0][1] == p[|p| - 1];
    }
  }

  /** Summing every pair's count over the sixteen keys gives the number of
      valid pairs. */
  lemma {:induction false} PairSumIsValidPairs(s: string)
    ensures PairSum(s, AllPairs) == ValidPairs(s)
    decreases |s|
  {
    if |s| < 2 {
      assert PairSum(s, AllPairs) == 0 by { ZeroPairSum(s, AllPairs); }
    } else {
      PairSumIsValidPairs(s[..|s| - 1]);
      PairSumStep(s, AllPairs);
      AllPairsDistinct();
      MatchesDistinct(AllPairs, s[|s| - 2..]);
      AllPairsAreThePairs(s[|s| - 2..]);
    }
  }

  lemma {:induction false} ZeroPairSum(s: string, ds: seq<string>)
    requires |s| < 2
    requires forall i :: 0 <= i < |ds| ==> |ds[i]| == 2
    ensures PairSum(s, ds) == 0
  {
    if ds != [] {
      ZeroPairSum(s, ds[1..]);
    }
  }

  lemma {:induction false} KeySumObserved(s: string, ds: seq<string>)
    requires forall i :: 0 <= i < |ds| ==> ds[i] in AllPairs
    ensures forall i :: 0 <= i < |ds| ==> |ds[i]| == 2
    ensures KeySum(Observed(s), ds) == PairSum(s, ds)
  {
    forall i | 0 <= i < |ds| ensures |ds[i]| == 2 {
      AllPairsAreThePairs(ds[i]);
    }
    if ds != [] {
      KeySumObserved(s, ds[1..]);
    }
  }

  /** `sum(di.values())` after the scan is the number of valid pairs. */
  lemma ObservedTotal(s: string)
    ensures TableSum(Observed(s)) == ValidPairs(s)
  {
    KeySumObserved(s, AllPairs);
    PairSumIsValidPairs(s);
  }

  // ---------------------------------------------------------------------
  // Frequencies.

  lemma {:induction false} FrequenciesSumToOne(freqs: map<string, (nat, real)>, t: map<string, nat>,
                                               ds: seq<string>, total: nat)
    requires total > 0
    requires freqs.Keys == t.Keys
    requires forall d :: d in t ==> freqs[d].1 == t[d] as real / total as real
    ensures FreqSum(freqs, ds) == KeySum(t, ds) as real / total as real
  {
    if ds != [] {
      FrequenciesSumToOne(freqs, t, ds[1..], total);
      var head := (if ds[0] in freqs then freqs[ds[0]].1 else 0.0);
      assert head == Get(t, ds[0]) as real / total as real;
      AddFractions(Get(t, ds[0]) as real, KeySum(t, ds[1..]) as real, total as real);
    }
  }

  lemma AddFractions(a: real, b: real, y: real)
    requires y > 0.0
    ensures a / y + b / y == (a + b) / y
  {
  }

  lemma {:induction false} NoTotalNoPairs(t: map<string, nat>, ds: seq<string>)
    requires KeySum(t, ds) == 0
    ensures forall d :: d in ds ==> Get(t, d) == 0
  {
    if ds != [] {
      NoTotalNoPairs(t, ds[1..]);
    }
  }
}
