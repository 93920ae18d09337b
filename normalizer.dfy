/** `clean_sequence`: turns raw text, plain or FASTA, into an upper-case
    sequence over A, T, G, C, N. */
module Normalizer {
  import opened Nucleotides

  /** Python's `str.isspace()`: the characters `str.strip()` removes. */
  predicate IsSpace(c: char) {
    ('\t' <= c <= '\r') || ('\U{1c}' <= c <= '\U{1f}') || c == ' ' || c == '\U{85}'
    || c == '\U{a0}' || c == '\U{1680}' || ('\U{2000}' <= c <= '\U{200a}')
    || c == '\U{2028}' || c == '\U{2029}' || c == '\U{202f}' || c == '\U{205f}' || c == '\U{3000}'
  }

  /** The line boundaries `str.splitlines()` splits at (`\r\n` counts as one). */
  predicate IsLineBreak(c: char) {
    c == '\n' || c == '\r' || c == '\U{b}' || c == '\U{c}' || c == '\U{1c}'
    || c == '\U{1d}' || c == '\U{1e}' || c == '\U{85}' || c == '\U{2028}' || c == '\U{2029}'
  }

  /** Every character is white space. */
  predicate Blank(w: string) {
    forall i :: 0 <= i < |w| ==> IsSpace(w[i])
  }

  /** `s.lstrip()`: the suffix left after the leading white space. */
  function StripLeft(s: string): (r: string)
    ensures |r| <= |s| && r == s[|s| - |r|..]
    ensures Blank(s[..|s| - |r|])
    ensures r != [] ==> !IsSpace(r[0])
  {
    if s != [] && IsSpace(s[0]) then StripLeft(s[1..]) else s
  }

  /** `s.rstrip()`: the prefix left before the trailing white space. */
  function StripRight(s: string): (r: string)
    ensures |r| <= |s| && r == s[..|r|]
    ensures Blank(s[|r|..])
    ensures r != [] ==> !IsSpace(r[|r| - 1])
  {
    if s != [] && IsSpace(s[|s| - 1]) then
      var r := StripRight(s[..|s| - 1]);
      assert s[|r|..] == s[..|s| - 1][|r|..] + [s[|s| - 1]];
      r
    else s
  }

  /** `text.strip()`: neither end of the result is white space. */
  function Strip(s: string): (r: string)
    ensures |r| <= |s|
    ensures r != [] ==> !IsSpace(r[0]) && !IsSpace(r[|r| - 1])
  {
    StripRight(StripLeft(s))
  }

  /** Index of the first line boundary, or `|s|` when there is none. */
  function FirstBreak(s: string): (k: nat)
    ensures k <= |s|
    ensures k < |s| ==> IsLineBreak(s[k])
    ensures forall j :: 0 <= j < k ==> !IsLineBreak(s[j])
  {
    if s == [] || IsLineBreak(s[0]) then 0 else 1 + FirstBreak(s[1..])
  }

  /** A line holds no line boundary. */
  predicate NoBreak(line: string) {
    forall j :: 0 <= j < |line| ==> !IsLineBreak(line[j])
  }

  /** `text.splitlines()`: the lines without their boundaries; a final
      boundary does not open an empty last line. */
  function SplitLines(s: string): (lines: seq<string>)
    ensures lines == [] <==> s == []
    ensures forall i :: 0 <= i < |lines| ==> NoBreak(lines[i])
    decreases |s|
  {
    if s == [] then []
    else
      var k := FirstBreak(s);
      if k == |s| then [s]
      else
        var width := if s[k] == '\r' && k + 1 < |s| && s[k + 1] == '\n' then 2 else 1;
        [s[..k]] + SplitLines(s[k + width..])
  }

  predicate IsHeader(line: string) {
    line != [] && line[0] == '>'
  }

  /** `[ln for ln in lines if not ln.startswith(">")]`: exactly the lines
      that are not headers are kept (in order, by `DropHeadersConcat`). */
  function DropHeaders(lines: seq<string>): (r: seq<string>)
    ensures forall i :: 0 <= i < |r| ==> !IsHeader(r[i])
    ensures forall l :: l in r <==> l in lines && !IsHeader(l)
  {
    if lines == [] then []
    else (if IsHeader(lines[0]) then [] else [lines[0]]) + DropHeaders(lines[1..])
  }

  /** `"".join(lines)` */
  function Join(lines: seq<string>): string {
    if lines == [] then [] else lines[0] + Join(lines[1..])
  }

  /** `text.replace("\n", "").replace(" ", "")` */
  function RemoveNewlinesAndSpaces(s: string): (r: string)
    ensures |r| <= |s|
  {
    if s == [] then []
    else (if s[0] == '\n' || s[0] == ' ' then [] else [s[0]]) + RemoveNewlinesAndSpaces(s[1..])
  }

  /** `re.sub(r'[^ATGCN]', '', s)` */
  function KeepSymbols(s: string): (r: string)
    ensures Canonical(r)
    ensures |r| <= |s|
  {
    if s == [] then []
    else (if IsSymbol(s[0]) then [s[0]] else []) + KeepSymbols(s[1..])
  }

  /** The last two steps of the normaliser: upper-case, then keep only A, T, G, C, N. */
  function Sanitize(s: string): string {
    KeepSymbols(Upper(s))
  }

  /** `clean_sequence(text)` */
  function CleanSequence(text: string): (r: string)
    ensures text == [] ==> r == []
    ensures Canonical(r)
  {
    if text == [] then []
    else
      var t := Strip(text);
      var joined := if IsHeader(t) then Join(DropHeaders(SplitLines(t))) else RemoveNewlinesAndSpaces(t);
      Sanitize(joined)
  }

  // ---------------------------------------------------------------------
  // Sanitizing distributes over concatenation and ignores white space.

  lemma {:induction false} KeepSymbolsConcat(a: string, b: string)
    ensures KeepSymbols(a + b) == KeepSymbols(a) + KeepSymbols(b)
    decreases |a|
  {
    if a == [] {
      assert a + b == b;
    } else {
      var ab := a + b;
      assert ab[0] == a[0];
      assert ab[1..] == a[1..] + b;
      KeepSymbolsConcat(a[1..], b);
      assert KeepSymbols(ab) == (if IsSymbol(a[0]) then [a[0]] else []) + KeepSymbols(ab[1..]);
    }
  }

  lemma SanitizeConcat(a: string, b: string)
    ensures Sanitize(a + b) == Sanitize(a) + Sanitize(b)
  {
    UpperConcat(a, b);
    KeepSymbolsConcat(Upper(a), Upper(b));
  }

  lemma {:induction false} KeepSymbolsCanonical(s: string)
    requires Canonical(s)
    ensures KeepSymbols(s) == s
    decreases |s|
  {
    if s != [] {
      KeepSymbolsCanonical(s[1..]);
    }
  }

  lemma SanitizeSpace(c: char)
    requires IsSpace(c)
    ensures Sanitize([c]) == []
  {
  }

  lemma {:induction false} SanitizeStripLeft(s: string)
    ensures Sanitize(StripLeft(s)) == Sanitize(s)
    decreases |s|
  {
    if s != [] && IsSpace(s[0]) {
      SanitizeStripLeft(s[1..]);
      assert s == [s[0]] + s[1..];
      SanitizeConcat([s[0]], s[1..]);
      SanitizeSpace(s[0]);
    }
  }

  lemma {:induction false} SanitizeStripRight(s: string)
    ensures Sanitize(StripRight(s)) == Sanitize(s)
    decreases |s|
  {
    if s != [] && IsSpace(s[|s| - 1]) {
      SanitizeStripRight(s[..|s| - 1]);
      assert s == s[..|s| - 1] + [s[|s| - 1]];
      SanitizeConcat(s[..|s| - 1], [s[|s| - 1]]);
      SanitizeSpace(s[|s| - 1]);
    }
  }

  lemma {:induction false} SanitizeRemoveNewlinesAndSpaces(s: string)
    ensures Sanitize(RemoveNewlinesAndSpaces(s)) == Sanitize(s)
    decreases |s|
  {
    if s != [] {
      SanitizeRemoveNewlinesAndSpaces(s[1..]);
      assert s == [s[0]] + s[1..];
      SanitizeConcat([s[0]], s[1..]);
      var head := if s[0] == '\n' || s[0] == ' ' then [] else [s[0]];
      SanitizeConcat(head, RemoveNewlinesAndSpaces(s[1..]));
      if s[0] == '\n' || s[0] == ' ' {
        SanitizeSpace(s[0]);
      }
    }
  }

  /** `Sanitize` applied to each line, the results concatenated. */
  function SanitizeEach(lines: seq<string>): string {
    if lines == [] then [] else Sanitize(lines[0]) + SanitizeEach(lines[1..])
  }

  lemma {:induction false} SanitizeJoin(lines: seq<string>)
    ensures Sanitize(Join(lines)) == SanitizeEach(lines)
    decreases |lines|
  {
    if lines == [] {
      assert Upper([]) == [];
    } else {
      SanitizeJoin(lines[1..]);
      SanitizeConcat(lines[0], Join(lines[1..]));
    }
  }

  /** Splitting into lines and cleaning each line gives the cleaning of
      the whole text: no line boundary survives the cleaning. */
  lemma {:induction false} SanitizeSplitLines(s: string)
    ensures SanitizeEach(SplitLines(s)) == Sanitize(s)
    decreases |s|
  {
    if s == [] {
      assert Upper(s) == [];
    } else {
      var k := FirstBreak(s);
      if k == |s| {
        assert SplitLines(s) == [s];
        assert [s][1..] == [];
      } else {
        var width := if s[k] == '\r' && k + 1 < |s| && s[k + 1] == '\n' then 2 else 1;
        var rest := s[k + width..];
        SanitizeSplitLines(rest);
        assert SplitLines(s) == [s[..k]] + SplitLines(rest);
        assert ([s[..k]] + SplitLines(rest))[1..] == SplitLines(rest);
        SanitizeBreak(s, k, width);
      }
    }
  }

  /** The boundary `SplitLines` skips, one character or `\r\n`, cleans to
      nothing, so cleaning `s` cleans the text on either side of it. */
  lemma SanitizeBreak(s: string, k: nat, width: nat)
    requires k < |s| && IsLineBreak(s[k])
    requires width == if s[k] == '\r' && k + 1 < |s| && s[k + 1] == '\n' then 2 else 1
    ensures Sanitize(s) == Sanitize(s[..k]) + Sanitize(s[k + width..])
  {
    var rest := s[k + width..];
    assert s[k..] == s[k..k + width] + rest;
    assert s == s[..k] + s[k..];
    SanitizeConcat(s[k..k + width], rest);
    SanitizeConcat(s[..k], s[k..k + width] + rest);
    SanitizeSpace(s[k]);
    if width == 2 {
      assert s[k..k + width] == [s[k]] + [s[k + 1]];
      SanitizeSpace(s[k + 1]);
      SanitizeConcat([s[k]], [s[k + 1]]);
    } else {
      assert s[k..k + width] == [s[k]];
    }
  }

  /** Header lines are dropped independently of their neighbours, and the
      kept lines stay in order. */
  lemma {:induction false} DropHeadersConcat(a: seq<string>, b: seq<string>)
    ensures DropHeaders(a + b) == DropHeaders(a) + DropHeaders(b)
    decreases |a|
  {
    if a == [] {
      assert a + b == b;
    } else {
      assert (a + b)[0] == a[0];
      assert (a + b)[1..] == a[1..] + b;
      DropHeadersConcat(a[1..], b);
    }
  }

  /** Lines none of which is a header are all kept. */
  lemma {:induction false} DropHeadersNone(lines: seq<string>)
    requires forall i :: 0 <= i < |lines| ==> !IsHeader(lines[i])
    ensures DropHeaders(lines) == lines
    decreases |lines|
  {
    if lines != [] {
      DropHeadersNone(lines[1..]);
    }
  }

  // ---------------------------------------------------------------------
  // What `clean_sequence` promises.

  /** Plain input: every A, T, G, C, N of the text, in either case, is
      kept in order, and nothing else; the stripping of the ends and the
      removal of newlines and spaces make no difference to the result. */
  lemma PlainTextKeepsEverySymbol(text: string)
    requires !IsHeader(Strip(text))
    ensures CleanSequence(text) == KeepSymbols(Upper(text))
  {
    if text != [] {
      var t := Strip(text);
      SanitizeRemoveNewlinesAndSpaces(t);
      SanitizeStripRight(StripLeft(text));
      SanitizeStripLeft(text);
    }
  }

  /** FASTA input: every line that starts with `>` is dropped, and the
      result is the concatenation of the sanitized remaining lines. */
  lemma FastaDropsHeaderLines(text: string)
    requires IsHeader(Strip(text))
    ensures CleanSequence(text) == SanitizeEach(DropHeaders(SplitLines(Strip(text))))
  {
    SanitizeJoin(DropHeaders(SplitLines(Strip(text))));
  }

  /** The first line of `header + "\n" + body` is `header`, and the
      remaining lines are the lines of `body`. */
  lemma SplitAfterHeader(header: string, body: string)
    requires NoBreak(header)
    ensures SplitLines(header + "\n" + body) == [header] + SplitLines(body)
  {
    var t := header + "\n" + body;
    var k := FirstBreak(t);
    assert t[|header|] == '\n';
    assert k == |header|;
    assert t[..k] == header && t[k + 1..] == body;
  }

  /** A single FASTA record: the header line is dropped, and the result is
      the cleaning of the text after it, as if it had been plain text. */
  lemma FastaRecordIsItsBody(text: string, header: string, body: string)
    requires Strip(text) == header + "\n" + body
    requires IsHeader(header) && NoBreak(header)
    requires forall l :: l in SplitLines(body) ==> !IsHeader(l)
    ensures CleanSequence(text) == Sanitize(body)
  {
    var t := header + "\n" + body;
    var lines := SplitLines(body);
    SplitAfterHeader(header, body);
    assert DropHeaders([header]) == [];
    DropHeadersConcat([header], lines);
    DropHeadersNone(lines);
    assert DropHeaders(SplitLines(t)) == lines;
    FastaDropsHeaderLines(text);
    SanitizeSplitLines(body);
  }

  lemma {:induction false} StripLeftNoSpace(s: string)
    requires s != [] ==> !IsSpace(s[0])
    ensures StripLeft(s) == s
  {
  }

  lemma {:induction false} StripRightNoSpace(s: string)
    requires s != [] ==> !IsSpace(s[|s| - 1])
    ensures StripRight(s) == s
  {
  }

  lemma {:induction false} RemoveNewlinesAndSpacesCanonical(s: string)
    requires Canonical(s)
    ensures RemoveNewlinesAndSpaces(s) == s
    decreases |s|
  {
    if s != [] {
      RemoveNewlinesAndSpacesCanonical(s[1..]);
    }
  }

  /** A canonical sequence is its own cleaning. */
  lemma CleanCanonical(r: string)
    requires Canonical(r)
    ensures CleanSequence(r) == r
  {
    if r != [] {
      StripLeftNoSpace(r);
      StripRightNoSpace(r);
      assert Strip(r) == r;
      RemoveNewlinesAndSpacesCanonical(r);
      UpperCanonical(r);
      KeepSymbolsCanonical(r);
    }
  }

  /** A cleaned sequence is its own cleaning: `clean_sequence` is idempotent. */
  lemma CleanSequenceIdempotent(text: string)
    ensures CleanSequence(CleanSequence(text)) == CleanSequence(text)
  {
    CleanCanonical(CleanSequence(text));
  }
}
