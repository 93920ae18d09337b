/** `longest_run`: the length of the longest block of consecutive copies
    of one base, found with `re.findall(f'({base}+)', seq.upper())`. */
module Runs {
  import opened Nucleotides

  /** Characters with a meaning in a regular expression; any of them as
      `base` would make `({base}+)` something other than a run of `base`. */
  predicate IsRegexMeta(c: char) {
    c in ".^$*+?{}[]\\|()"
  }

  /** The positions `i .. i + len - 1` of `s` all hold `b`. */
  predicate IsRunAt(s: string, b: char, i: int, len: int) {
    0 <= i && 0 <= len && i + len <= |s| && forall j :: i <= j < i + len ==> s[j] == b
  }

  /** Length of the block of `b` that `s` starts with. */
  function LeadingRun(s: string, b: char): (k: nat)
    ensures IsRunAt(s, b, 0, k)
    ensures k < |s| ==> s[k] != b
  {
    if s == [] || s[0] != b then 0 else 1 + LeadingRun(s[1..], b)
  }

  /** `re.findall(f'({b}+)', s)`, as the lengths of the matches: the
      maximal blocks of `b`, left to right. */
  function Runs(s: string, b: char): (rs: seq<nat>)
    ensures forall k :: 0 <= k < |rs| ==> 1 <= rs[k] <= |s|
    decreases |s|
  {
    if s == [] then []
    else if s[0] != b then Runs(s[1..], b)
    else
      var k := LeadingRun(s, b);
      [k] + Runs(s[k..], b)
  }

  /** `max(xs)` on a non-empty list; 0 on the empty one. */
  function MaxOf(xs: seq<nat>): (m: nat)
    ensures xs != [] ==> m in xs
    ensures forall k :: 0 <= k < |xs| ==> xs[k] <= m
  {
    if xs == [] then 0 else Max(xs[0], MaxOf(xs[1..]))
  }

  /** `longest_run(seq, base)` for a one-character `base`: 0 exactly when
      the base does not occur in the upper-cased sequence, and never more
      than the length. */
  function LongestRun(s: string, b: char): (r: nat)
    requires !IsRegexMeta(b)
    ensures r == 0 <==> b !in Upper(s)
    ensures r <= |s|
  {
    RunsEmpty(Upper(s), b);
    var rs := Runs(Upper(s), b);
    if rs == [] then 0 else MaxOf(rs)
  }

  // ---------------------------------------------------------------------
  // What the regex scan finds.

  lemma RunShift(s: string, b: char, d: nat, i: int, len: int)
    requires d <= |s| && IsRunAt(s[d..], b, i, len)
    ensures IsRunAt(s, b, i + d, len)
  {
  }

  /** Every match is a block of `b` inside `s`: the returned `i` is where
      the `k`-th match starts. */
  lemma {:induction false} RunWitness(s: string, b: char, k: nat) returns (i: int)
    requires k < |Runs(s, b)|
    ensures IsRunAt(s, b, i, Runs(s, b)[k])
    decreases |s|
  {
    if s[0] != b {
      var i' := RunWitness(s[1..], b, k);
      RunShift(s, b, 1, i', Runs(s[1..], b)[k]);
      i := i' + 1;
    } else if k == 0 {
      i := 0;
    } else {
      var l := LeadingRun(s, b);
      var i' := RunWitness(s[l..], b, k - 1);
      RunShift(s, b, l, i', Runs(s[l..], b)[k - 1]);
      i := i' + l;
    }
  }

  /** Every non-empty block of `b` inside `s` lies within one match, so it
      is no longer than the longest match. */
  lemma {:induction false} RunsComplete(s: string, b: char, i: int, len: int)
    requires IsRunAt(s, b, i, len) && len > 0
    ensures len <= MaxOf(Runs(s, b))
    decreases |s|
  {
    assert s[i] == b;
    if s[0] != b {
      assert IsRunAt(s[1..], b, i - 1, len);
      RunsComplete(s[1..], b, i - 1, len);
    } else {
      var l := LeadingRun(s, b);
      if i < l {
        assert i + len <= l;
      } else {
        assert i != l;
        assert IsRunAt(s[l..], b, i - l, len);
        RunsComplete(s[l..], b, i - l, len);
      }
    }
  }

  /** The scan finds no match exactly when `b` does not occur. */
  lemma {:induction false} RunsEmpty(s: string, b: char)
    ensures Runs(s, b) == [] <==> b !in s
    decreases |s|
  {
    if s != [] && s[0] != b {
      RunsEmpty(s[1..], b);
      assert s == [s[0]] + s[1..];
    }
  }

  /** `longest_run` is 0 exactly when the base does not occur in the
      upper-cased sequence; otherwise it is the length of a block of the
      base that occurs there, between 1 and the sequence length, and no
      block of the base is longer. */
  lemma LongestRunIsLongestBlock(s: string, b: char)
    requires !IsRegexMeta(b)
    ensures LongestRun(s, b) == 0 <==> b !in Upper(s)
    ensures LongestRun(s, b) > 0 ==> 1 <= LongestRun(s, b) <= |s|
    ensures exists i :: IsRunAt(Upper(s), b, i, LongestRun(s, b))
    ensures forall i, len :: IsRunAt(Upper(s), b, i, len) ==> len <= LongestRun(s, b)
  {
    var u := Upper(s);
    var rs := Runs(u, b);
    RunsEmpty(u, b);
    if rs == [] {
      assert IsRunAt(u, b, 0, 0);
    } else {
      var k :| 0 <= k < |rs| && rs[k] == MaxOf(rs);
      var i := RunWitness(u, b, k);
    }
    forall i, len | IsRunAt(u, b, i, len)
      ensures len <= LongestRun(s, b)
    {
      if len > 0 {
        RunsComplete(u, b, i, len);
      }
    }
  }
}
