/** `gc_skew`: the per-position GC skew over a centred window that is
    clipped at both ends of the sequence. */
module Skew {
  import opened Nucleotides

  /** Python's `s[start:stop]` (step 1): a negative bound counts from the
      end, and both bounds are clamped to `[0, |s|]`. */
  function PySlice(s: string, start: int, stop: int): (r: string)
    ensures |r| <= |s|
    ensures 0 <= start <= stop <= |s| ==> r == s[start..stop]
    ensures -|s| <= start < 0 && 0 <= stop <= |s| && start + |s| <= stop ==> r == s[start + |s|..stop]
    ensures stop <= start && (start < 0 <==> stop < 0) ==> r == []
  {
    var lo := if start < 0 then Clamp(start + |s|, |s|) else Clamp(start, |s|);
    var hi := if stop < 0 then Clamp(stop + |s|, |s|) else Clamp(stop, |s|);
    if lo < hi then s[lo..hi] else []
  }

  function Clamp(x: int, n: nat): (r: nat)
    ensures r <= n
  {
    if x < 0 then 0 else if x > n then n else x
  }

  /** The window around the 0-based position `i`: `seq[start:end]` with
      `start = max(0, i - half)` and `end = min(n, i + half + 1)`, where
      `half = window // 2`. */
  function Window(u: string, window: int, i: int): string {
    var half := window / 2;
    var start := if 0 < i - half then i - half else 0;
    var end := if |u| < i + half + 1 then |u| else i + half + 1;
    PySlice(u, start, end)
  }

  /** `(g - c) / (g + c) if (g + c) != 0 else 0.0`: a value in [-1, 1]
      that is 0 exactly when there are as many G as C (in particular when
      there are neither), and positive exactly when G is in the majority. */
  function Ratio(g: nat, c: nat): (r: real)
    ensures -1.0 <= r <= 1.0
    ensures r == 0.0 <==> g == c
    ensures r > 0.0 <==> g > c
  {
    if g + c != 0 then
      UnitRatio((g - c) as real, (g + c) as real);
      (g - c) as real / (g + c) as real
    else 0.0
  }

  /** The skew of one window, from its numbers of G and C. */
  function SkewOf(w: string): real {
    Ratio(Count(w, 'G'), Count(w, 'C'))
  }

  /** The skew reported at the 0-based position `i`. */
  function SkewAt(u: string, window: int, i: int): real {
    SkewOf(Window(u, window, i))
  }

  /** `gc_skew(seq, window)`: the 1-based positions and the skew at each. */
  method GcSkew(s: string, window: int) returns (positions: seq<int>, skews: seq<real>)
    ensures |positions| == |s| && |skews| == |s|
    ensures forall i :: 0 <= i < |s| ==> positions[i] == i + 1
    ensures forall i :: 0 <= i < |s| ==> skews[i] == SkewAt(Upper(s), window, i)
    ensures forall i :: 0 <= i < |s| ==> -1.0 <= skews[i] <= 1.0
  {
    var u := Upper(s);
    var n := |u|;
    positions, skews := [], [];
    if n == 0 {
      return;
    }
    var half := window / 2;
    for i := 0 to n
      invariant |positions| == i && |skews| == i
      invariant forall k :: 0 <= k < i ==> positions[k] == k + 1
      invariant forall k :: 0 <= k < i ==> skews[k] == SkewAt(u, window, k)
    {
      var start := if 0 < i - half then i - half else 0;
      var end := if n < i + half + 1 then n else i + half + 1;
      var w := PySlice(u, start, end);
      SliceIsWindow(u, window, i, start, end);
      var g := Count(w, 'G');
      var c := Count(w, 'C');
      var skew := Ratio(g, c);
      positions := positions + [i + 1];
      skews := skews + [skew];
    }
  }

  /** The slice the loop takes is the window `Window` describes. */
  lemma SliceIsWindow(u: string, window: int, i: int, start: int, end: int)
    requires start == (if 0 < i - window / 2 then i - window / 2 else 0)
    requires end == (if |u| < i + window / 2 + 1 then |u| else i + window / 2 + 1)
    ensures PySlice(u, start, end) == Window(u, window, i)
  {
  }

  // ---------------------------------------------------------------------
  // Properties of the profile.

  /** For a non-negative window the slice is the plain range
      `[max(0, i - half), min(n, i + half + 1))`, it contains position `i`,
      and it is at most `2 * half + 1` long. */
  lemma WindowContainsPosition(u: string, window: int, i: int)
    requires window >= 0 && 0 <= i < |u|
    ensures var half := window / 2;
      var lo := if 0 < i - half then i - half else 0;
      var hi := if |u| < i + half + 1 then |u| else i + half + 1;
      && lo <= i < hi <= |u|
      && Window(u, window, i) == u[lo..hi]
      && Window(u, window, i)[i - lo] == u[i]
      && hi - lo <= 2 * half + 1
  {
  }

  /** A window at least twice as wide as the sequence covers all of it, so
      every position reports the whole-sequence skew. */
  lemma WideWindowIsWholeSequence(u: string, window: int, i: int)
    requires window / 2 >= |u| && 0 <= i < |u|
    ensures Window(u, window, i) == u
    ensures SkewAt(u, window, i) == SkewOf(u)
  {
    assert u[0..|u|] == u;
  }
}
