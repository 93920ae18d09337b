/** Shared vocabulary of the sequence-statistics helpers: the symbol
    alphabet, Python's ASCII `str.upper()`, and the counting primitives
    (`Counter(seq)[x]`, `str.count`, adjacent-pair counts) that every
    statistic is built from. */
module Nucleotides {

  datatype Option<+T> = None | Some(value: T)

  /** The four unambiguous bases, the character class `[ATGC]`. */
  predicate IsBase(c: char) {
    c == 'A' || c == 'T' || c == 'G' || c == 'C'
  }

  /** The canonical alphabet of a cleaned sequence, `[ATGCN]`. */
  predicate IsSymbol(c: char) {
    IsBase(c) || c == 'N'
  }

  /** Every character is one of A, T, G, C, N. */
  predicate Canonical(s: string) {
    forall i :: 0 <= i < |s| ==> IsSymbol(s[i])
  }

  /** Python's `str.upper()` on one ASCII character. */
  function ToUpper(c: char): (u: char)
    ensures 'a' <= c <= 'z' ==> 'A' <= u <= 'Z' && u as int == c as int - 32
    ensures !('a' <= c <= 'z') ==> u == c
  {
    if 'a' <= c <= 'z' then (c as int - 32) as char else c
  }

  /** `s.upper()`, character by character. */
  function Upper(s: string): (u: string)
    ensures |u| == |s|
  {
    seq(|s|, i requires 0 <= i < |s| => ToUpper(s[i]))
  }

  lemma UpperConcat(a: string, b: string)
    ensures Upper(a + b) == Upper(a) + Upper(b)
  {
  }

  /** Upper-casing leaves a canonical sequence as it is. */
  lemma UpperCanonical(s: string)
    requires Canonical(s)
    ensures Upper(s) == s
  {
  }

  /** Number of occurrences of `x` in `s` (`Counter(s).get(x, 0)`, `s.count(x)`). */
  function Count(s: string, x: char): (k: nat)
    ensures k <= |s|
  {
    if s == [] then 0 else Count(s[..|s| - 1], x) + (if s[|s| - 1] == x then 1 else 0)
  }

  lemma {:induction false} CountConcat(a: string, b: string, x: char)
    ensures Count(a + b, x) == Count(a, x) + Count(b, x)
    decreases |b|
  {
    if b == [] {
      assert a + b == a;
    } else {
      var b' := b[..|b| - 1];
      assert (a + b)[..|a + b| - 1] == a + b';
      CountConcat(a, b', x);
    }
  }

  /** The five symbols are distinct, so their counts add up to at most the
      length, and to exactly the length when every character is a symbol. */
  lemma {:induction false} SymbolCounts(s: string)
    ensures Count(s, 'A') + Count(s, 'T') + Count(s, 'G') + Count(s, 'C') + Count(s, 'N') <= |s|
    ensures Canonical(s) ==>
      Count(s, 'A') + Count(s, 'T') + Count(s, 'G') + Count(s, 'C') + Count(s, 'N') == |s|
    decreases |s|
  {
    if s != [] {
      SymbolCounts(s[..|s| - 1]);
    }
  }

  /** Number of indices `i` with `s[i] == x && s[i + 1] == y`, that is the
      overlapping occurrences of the two-character string `[x, y]`. */
  function PairCount(s: string, x: char, y: char): (k: nat)
    ensures k <= if |s| == 0 then 0 else |s| - 1
  {
    if |s| < 2 then 0
    else PairCount(s[..|s| - 1], x, y) + (if s[|s| - 2] == x && s[|s| - 1] == y then 1 else 0)
  }

  /** Each overlapping `xy` pair uses its own occurrence of `y`; when the
      text ends in `x`, that last `x` has not been used by a pair. */
  lemma {:induction false} PairCountBounded(s: string, x: char, y: char)
    requires x != y
    ensures PairCount(s, x, y) + (if |s| > 0 && s[|s| - 1] == x then 1 else 0) <= Count(s, x)
    ensures PairCount(s, x, y) <= Count(s, y)
    decreases |s|
  {
    if |s| >= 2 {
      PairCountBounded(s[..|s| - 1], x, y);
    }
  }

  /** `max(x, y)` */
  function Max(x: nat, y: nat): (m: nat)
    ensures m == x || m == y
    ensures x <= m && y <= m
  {
    if x < y then y else x
  }

  // ---------------------------------------------------------------------
  // Facts about real division shared by the statistics.

  lemma DivBounds(x: real, y: real)
    requires 0.0 <= x <= y && 0.0 < y
    ensures 0.0 <= x / y <= 1.0
  {
  }

  lemma SelfRatio(y: real)
    requires y > 0.0
    ensures y / y == 1.0
  {
  }

  lemma DivSum(x: real, z: real, y: real)
    requires 0.0 < y && x + z == y
    ensures x / y * 100.0 + z / y * 100.0 == 100.0
  {
  }

  lemma DivExtremes(x: real, y: real)
    requires 0.0 < y
    ensures x / y * 100.0 == 0.0 <==> x == 0.0
    ensures x / y * 100.0 == 100.0 <==> x == y
  {
  }

  lemma UnitRatio(x: real, d: real)
    requires d > 0.0 && -d <= x <= d
    ensures -1.0 <= x / d <= 1.0
    ensures x / d == 0.0 <==> x == 0.0
    ensures x / d > 0.0 <==> x > 0.0
  {
  }

  lemma ProductZero(g: nat, c: nat, y: nat)
    requires y > 0
    ensures (g * c) as real / y as real == 0.0 <==> g == 0 || c == 0
  {
  }

  lemma RatioTimesDivisor(x: real, e: real)
    requires e > 0.0 && x >= 0.0
    ensures x / e >= 0.0 && x / e * e == x
  {
  }
}
