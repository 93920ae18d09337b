# Sequence statistics helpers of the GC-content app, in Dafny

This project models the helper block of `app.py` of a small Streamlit app. The app reports the composition of a DNA sequence pasted by the user. The block has these helpers:

- `clean_sequence`: normalises raw or FASTA text to an upper-case string over A, T, G, C, N.
- `base_counts`, `gc_content`, `at_content`: per-symbol tallies and the GC and AT percentages.
- `gc_skew`: the per-position GC skew over a clipped, centred window.
- `dinucleotide_freq`: the counts and frequencies of the overlapping [ATGC] pairs.
- `cpg_oe`: the CpG observed-over-expected ratio.
- `longest_run`: the longest run of one base.
- `compute_tm`: the Wallace melting temperature.
- `shannon_entropy`: the mononucleotide entropy. Only its loop structure and its simplest facts are modelled.

Modules follow the helpers:

- `Nucleotides`: the alphabet, ASCII `str.upper()`, the counting primitives `Count` and `PairCount`, `max`, and the facts about real division that the statistics share.
- `Normalizer`: `clean_sequence`, with Python's `strip`, `splitlines`, `replace` and the `re.sub` filter written out.
- `Composition`: `base_counts`, `gc_content`, `at_content`, `cpg_oe`, `compute_tm`.
- `Skew`: `gc_skew`, with Python slice semantics.
- `Dinucleotides`: `dinucleotide_freq`.
- `Runs`: `longest_run`.
- `Entropy`: `shannon_entropy`.

Python floats are modelled as exact `real` numbers, and Python `int`s as unbounded integers.

The functions that only compute values are Dafny functions. The helpers that work by updating variables in a loop are methods whose `for` loops carry the invariants of the proof: `gc_skew`, the counter loop of `dinucleotide_freq`, and the accumulation loop of `shannon_entropy`. Each method is proved against a specification function, and the properties of that function are proved as lemmas.

A few facts about the code that the model keeps:

- `compute_tm` applies the Wallace rule `2(A+T) + 4(G+C)` at every length. Its own comment (app.py:194) says "for short sequences", but no length cut-off is coded.
- `cpg_oe` computes the expected count as `G * C / (A + T + G + C)` (app.py:155, 161). N does not count towards the denominator.
- `dinucleotide_freq` builds its table from the counter's keys (app.py:143-149), so only the pairs that occur appear in it.
- `gc_content` and `at_content` share the denominator A+T+G+C, so they add up to 100 in exact arithmetic whenever that denominator is positive (float rounding aside, see below).

## Model

| member | source | states |
|---|---|---|
| Nucleotides.ToUpper | app.py:86 | lower-case ASCII letters map to the upper-case letter 32 code points below; every other character is unchanged |
| Nucleotides.IsBase | app.py:146 | the class `[ATGC]`; `AllPairsAreThePairs` and `ValidPairs` use it for the pair test |
| Nucleotides.IsSymbol | app.py:88 | the class `[ATGCN]` the filter keeps; `KeepSymbols` guarantees its output is over it |
| Nucleotides.Canonical | app.py:74-88 | the output alphabet of `clean_sequence`; `CleanSequence` ensures it and `CleanCanonical` shows such a sequence is its own cleaning |
| Nucleotides.Upper | app.py:86 | upper-casing keeps the length |
| Nucleotides.UpperConcat | app.py:86 | upper-casing distributes over concatenation |
| Nucleotides.UpperCanonical | app.py:86 | upper-casing leaves a sequence over A, T, G, C, N unchanged |
| Nucleotides.Count | app.py:92-97 | an occurrence count never exceeds the length |
| Nucleotides.CountConcat | app.py:92-97 | occurrence counts add up over concatenation |
| Nucleotides.SymbolCounts | app.py:92-98 | the five symbol counts add up to at most the length, and to exactly the length when every character is one of A, T, G, C, N |
| Nucleotides.PairCount | app.py:158 | the number of overlapping `xy` pairs is at most length minus one |
| Nucleotides.PairCountBounded | app.py:158-160 | each `CG` pair uses its own C and its own G, so CG ≤ C (one less when the text ends in C) and CG ≤ G |
| Nucleotides.Max | app.py:191 | `max` of two numbers is one of them and at least both |
| Nucleotides.ProductZero | app.py:161-162 | `G * C / L` is 0 exactly when G or C is 0 |
| Nucleotides.UnitRatio | app.py:136 | a quotient `x / d` with `|x| <= d` lies in [-1, 1], has the sign of `x`, and is 0 exactly when `x` is |
| Normalizer.IsSpace | app.py:78 | the characters `str.strip()` removes; every line boundary is one of them, so `SanitizeSpace` and `SanitizeBreak` make them vanish from the output |
| Normalizer.IsLineBreak | app.py:81 | the boundaries `str.splitlines()` splits at; `FirstBreak` finds the first one and `SplitLines` keeps none of them in a line |
| Normalizer.StripLeft | app.py:78 | the result is the suffix left after a prefix made only of white space, and does not start with white space |
| Normalizer.StripRight | app.py:78 | the result is the prefix left before a suffix made only of white space, and does not end with white space |
| Normalizer.Strip | app.py:78 | the stripped text is no longer than the input and neither starts nor ends with white space |
| Normalizer.FirstBreak | app.py:81 | the index found is a line boundary (or the end), and no earlier character is one |
| Normalizer.SplitLines | app.py:81 | there are no lines exactly when the text is empty, and no line contains a line boundary; `SanitizeSplitLines` shows no character that survives cleaning is lost |
| Normalizer.IsHeader | app.py:80-82 | the `startswith(">")` test; `DropHeaders` keeps exactly the lines that fail it, and `CleanSequence` takes the FASTA branch exactly when the stripped text passes it |
| Normalizer.DropHeaders | app.py:82 | a line is kept exactly when it is one of the input lines and does not start with `>`; no kept line starts with `>` |
| Normalizer.Join | app.py:83 | concatenation of the lines; `SanitizeJoin` states what the cleaning makes of it |
| Normalizer.RemoveNewlinesAndSpaces | app.py:85 | removing `\n` and spaces never lengthens the text |
| Normalizer.KeepSymbols | app.py:88 | the filter's output is over A, T, G, C, N and no longer than its input |
| Normalizer.Sanitize | app.py:86-88 | upper-case then keep A, T, G, C, N; `SanitizeConcat`, `SanitizeSpace` and `SanitizeBreak` give its properties |
| Normalizer.KeepSymbolsConcat | app.py:88 | the filter distributes over concatenation |
| Normalizer.SanitizeConcat | app.py:86-88 | upper-case-then-filter distributes over concatenation |
| Normalizer.KeepSymbolsCanonical | app.py:88 | the filter leaves a canonical sequence unchanged |
| Normalizer.SanitizeSpace | app.py:86-88 | a white-space character does not survive upper-case-then-filter |
| Normalizer.SanitizeBreak | app.py:81-88 | a line boundary (`\r\n` taken together) cleans to nothing, so cleaning a text cleans the parts on either side of a boundary |
| Normalizer.SanitizeStripLeft | app.py:78-88 | stripping leading white space does not change the cleaned result |
| Normalizer.SanitizeStripRight | app.py:78-88 | stripping trailing white space does not change the cleaned result |
| Normalizer.SanitizeRemoveNewlinesAndSpaces | app.py:85-88 | removing newlines and spaces does not change the cleaned result |
| Normalizer.SanitizeJoin | app.py:83-88 | cleaning the joined lines equals concatenating the cleaned lines |
| Normalizer.SanitizeSplitLines | app.py:81-88 | cleaning each line of `splitlines` and concatenating gives the cleaning of the whole text |
| Normalizer.DropHeadersConcat | app.py:82 | header lines are dropped independently of their neighbours and the kept lines stay in order |
| Normalizer.DropHeadersNone | app.py:82 | when no line starts with `>`, every line is kept |
| Normalizer.SplitAfterHeader | app.py:81 | the first line of `header + "\n" + body` is the header and the other lines are the lines of the body |
| Normalizer.CleanSequence | app.py:72-89 | empty text gives the empty sequence; every output character is one of A, T, G, C, N |
| Normalizer.PlainTextKeepsEverySymbol | app.py:76-89 | for text that does not start with `>` after stripping, the output is exactly the A, T, G, C, N of the upper-cased text, in order |
| Normalizer.FastaDropsHeaderLines | app.py:78-89 | for FASTA text, every line that starts with `>` is dropped and the other lines are cleaned and concatenated in order |
| Normalizer.FastaRecordIsItsBody | app.py:76-89 | for a single FASTA record (one header line, then a body with no header line) the output is the cleaning of the body, the same as for plain text |
| Normalizer.StripLeftNoSpace | app.py:78 | stripping text that does not start with white space changes nothing |
| Normalizer.StripRightNoSpace | app.py:78 | stripping text that does not end with white space changes nothing |
| Normalizer.RemoveNewlinesAndSpacesCanonical | app.py:85 | a canonical sequence has no newline or space to remove |
| Normalizer.CleanCanonical | app.py:72-89 | a sequence over A, T, G, C, N is its own cleaning |
| Normalizer.CleanSequenceIdempotent | app.py:72-89 | cleaning a cleaned sequence returns it unchanged |
| Composition.CountBases | app.py:91-99 | the record of the five tallies (`BaseCounts`, the dict of app.py:99): `total` is at most the length, and equals the length for a cleaned sequence, because the five counts are of distinct symbols (`SymbolCounts`); lower-case letters are not counted |
| Composition.AtgcTotal | app.py:103 | `total_bases` = A + T + G + C (also app.py:111, 155, 175); `GcAtComplementary`, `ObservedOverExpected` and `Wallace` state what depends on it being 0 or positive |
| Composition.Percent | app.py:104-106 | a guarded percentage is 0 for a zero denominator and lies in [0, 100] |
| Composition.GcContent | app.py:101-107 | GC% is 0 when there is no A, T, G, C and lies in [0, 100] |
| Composition.AtContent | app.py:109-115 | AT% is 0 when there is no A, T, G, C and lies in [0, 100] |
| Composition.GcAtComplementary | app.py:101-115 | GC% + AT% = 100 whenever A+T+G+C > 0 |
| Composition.GcContentExtremes | app.py:101-107 | GC% is 100 exactly when there is no A or T, and 0 exactly when there is no G or C |
| Composition.CpgExpected | app.py:161 | the expected CpG count is non-negative and is 0 exactly when G or C is absent |
| Composition.ObservedOverExpected | app.py:155-165 | given the counts, the ratio is None exactly when A+T+G+C, G or C is 0, and otherwise non-negative |
| Composition.CpgOe | app.py:152-165 | None exactly when the upper-cased sequence has no A, T, G, C, or no G, or no C; otherwise a non-negative ratio |
| Composition.WithinCpgBound | app.py:158-164 | a ratio times max(G, C) is at most A+T+G+C; `ObservedOverExpectedBounded` and `CpgObservedBounded` prove it of `cpg_oe` |
| Composition.ObservedOverExpectedBounded | app.py:158-164 | when the observed count is at most min(G, C), the ratio times max(G, C) is at most A+T+G+C |
| Composition.CpgObservedBounded | app.py:152-165 | the observed CG count of the upper-cased sequence is at most its C and its G counts, so `cpg_oe` times max(G, C) is at most A+T+G+C |
| Composition.Wallace | app.py:195-200 | None exactly when A+T+G+C is 0; otherwise the value lies between 2(A+T+G+C) and 4(A+T+G+C) |
| Composition.ComputeTm | app.py:193-201 | None exactly when there is no A, T, G, C; otherwise the value lies between 2 and 4 times A+T+G+C |
| Composition.TmFromGcContent | app.py:193-201 | for counts with A+T+G+C = L > 0, Tm = L · (2 + GC%/50), with GC% as `gc_content` computes it (app.py:101-107) |
| Skew.PySlice | app.py:132 | a slice is no longer than the text; for bounds within the text it is the plain range, a negative start counts from the end, and bounds in the wrong order give the empty slice |
| Skew.Clamp | app.py:132 | a slice bound is clamped into [0, n] |
| Skew.Window | app.py:128-132 | the clipped window around a position; `WindowContainsPosition` gives its range and `WideWindowIsWholeSequence` its limit |
| Skew.Ratio | app.py:135-136 | the skew lies in [-1, 1]; it is 0 exactly when G = C (so also when the window holds neither), and positive exactly when G > C |
| Skew.SkewOf | app.py:133-136 | the skew of one window from its G and C counts; by `Ratio` it lies in [-1, 1], is 0 exactly when G = C and positive exactly when G > C |
| Skew.SkewAt | app.py:129-136 | the skew reported at 0-based position i: that of the clipped window `Window` around i; `GcSkew` ensures each entry equals it, and `WideWindowIsWholeSequence` gives it for wide windows |
| Skew.GcSkew | app.py:117-139 | one entry per position; positions are 1-based; each skew is the skew of the clipped window around that position and lies in [-1, 1] |
| Skew.WindowContainsPosition | app.py:128-132 | for a non-negative window the slice is a plain range that contains position i and is at most 2·half+1 long |
| Skew.WideWindowIsWholeSequence | app.py:128-132 | a window with half ≥ n covers the whole sequence at every position |
| Dinucleotides.IsPair | app.py:146 | the pair test; `AllPairsAreThePairs` shows it accepts exactly the sixteen pairs over A, T, G, C |
| Dinucleotides.AllPairsAreThePairs | app.py:146 | the sixteen keys are exactly the strings `[ATGC]{2}` matches |
| Dinucleotides.AllPairsDistinct | app.py:146 | no key is listed twice |
| Dinucleotides.ValidPairs | app.py:144-148 | at most length minus one pairs are counted |
| Dinucleotides.Observed | app.py:143-147 | the counter after the scan; `ObservedKeys` gives its keys and `CountPairs` shows the loop builds it |
| Dinucleotides.Get | app.py:147 | `Counter` lookup, 0 for an absent key; `KeySumObserved` and `ObservedStep` use it |
| Dinucleotides.Bump | app.py:145-147 | `di[d] += 1` guarded by the pair test; `ObservedStep` shows one step of it turns the counter of a prefix into the counter of the next prefix |
| Dinucleotides.CountPairs | app.py:143-147 | the counting loop ends with the counter that holds each occurring valid pair and its overlapping count |
| Dinucleotides.ObservedKeys | app.py:143-147 | the counter's keys are exactly the valid pairs that occur |
| Dinucleotides.OccurrencesStep | app.py:144-147 | one more character adds one occurrence to the last pair only |
| Dinucleotides.ObservedStep | app.py:144-147 | one more character increments the counter at the last pair, if that pair is valid, and changes nothing else |
| Dinucleotides.PrefixStep | app.py:144-147 | the same step for the prefixes the loop visits |
| Dinucleotides.MatchesDistinct | app.py:148 | a key occurs once in a list without repeats |
| Dinucleotides.PairSumStep | app.py:144-148 | summing the per-pair counts grows by one exactly at the last pair |
| Dinucleotides.PairSumIsValidPairs | app.py:144-148 | the per-pair counts add up to the number of positions whose two characters are both in [ATGC] |
| Dinucleotides.ZeroPairSum | app.py:144 | a text shorter than two characters has no pairs |
| Dinucleotides.KeySumObserved | app.py:148 | summing the counter over keys is summing the per-pair counts |
| Dinucleotides.TableSum | app.py:148 | `sum(di.values())`; `ObservedTotal` shows it is the number of valid pairs |
| Dinucleotides.ObservedTotal | app.py:148 | `sum(di.values())` is the number of valid pairs |
| Dinucleotides.Frequencies | app.py:149 | the frequency table; `FrequencyTable` gives its keys, counts and frequencies and `FrequenciesSumToOne` its sum |
| Dinucleotides.FrequencyTable | app.py:148-150 | the table's keys, counts and `count / total` frequencies; the frequencies sum to 1 when total > 0; the table is empty when total = 0 |
| Dinucleotides.FrequenciesSumToOne | app.py:149 | the frequencies sum to the counts' sum over `total` |
| Dinucleotides.NoTotalNoPairs | app.py:148-149 | a zero total leaves every counter entry at 0 |
| Dinucleotides.DinucleotideFreq | app.py:141-150 | `total` counts the valid overlapping pairs of the upper-cased sequence; the keys are exactly the valid pairs that occur, each with its count and count/total; the frequencies sum to 1 when total > 0; the table is empty when total = 0 |
| Runs.LeadingRun | app.py:188 | the prefix block of the base is a run and is maximal |
| Runs.Runs | app.py:188 | every match of `(b+)` has length between 1 and the length of the text |
| Runs.MaxOf | app.py:191 | `max` of a non-empty list is one of its elements and no element is larger |
| Runs.LongestRun | app.py:185-191 | 0 exactly when the base does not occur in the upper-cased sequence, and never more than the length; `LongestRunIsLongestBlock` shows it is the longest block |
| Runs.RunShift | app.py:188 | a run found in a suffix is a run of the whole text |
| Runs.RunWitness | app.py:188 | every match is a block of the base in the text, at the returned position |
| Runs.RunsComplete | app.py:188-191 | every non-empty block of the base is no longer than the longest match |
| Runs.RunsEmpty | app.py:188-190 | there are no matches exactly when the base does not occur |
| Runs.LongestRunIsLongestBlock | app.py:185-191 | 0 exactly when the base is absent from the upper-cased sequence; otherwise between 1 and the length, the length of a block of the base that occurs, and no block is longer |
| Entropy.ShannonEntropy | app.py:167-183 | the loop computes minus the sum of `p · log2(p)` over A, T, G, C with p > 0; the result is 0.0 for an empty sequence or one without A, T, G, C |
| Entropy.EntropyOf | app.py:167-183 | the value `shannon_entropy` computes; `EntropyNonNegative` and `SingleBaseHasNoEntropy` give its properties |
| Entropy.Share | app.py:180 | `p = counts[b] / total`; `TermNonPositive` uses that it lies in [0, 1] for a base |
| Entropy.Contribution | app.py:181-182 | `p * log2(p)` when p > 0, else nothing; `TermZero` and `TermNonPositive` state when it is 0 and that it is at most 0 |
| Entropy.Term | app.py:179-182 | the contribution of one base; `TermZero` and `TermNonPositive` give its properties |
| Entropy.TermSum | app.py:178-182 | the running sum of the loop over the bases in order; `ShannonEntropy`'s invariant is stated with it and `TermSumOrder` writes out the four terms |
| Entropy.TermSumOrder | app.py:178-182 | the accumulated sum is the four terms taken in the loop order `Order` = "ATGC" |
| Entropy.TermZero | app.py:178-182 | an absent base, or the only base present (given log2(1) = 0), adds nothing |
| Entropy.SingleBaseHasNoEntropy | app.py:167-183 | a sequence with a single kind of base has entropy 0, given log2(1) = 0 |
| Entropy.TermNonPositive | app.py:179-182 | each term `p · log2(p)` is at most 0, given log2 ≤ 0 on (0, 1] |
| Entropy.EntropyNonNegative | app.py:167-183 | the entropy is never negative, given log2 ≤ 0 on (0, 1] |

## Left out

- The Streamlit page setup and the injection of the PWA script and manifest (app.py:15-67) are left out. They are UI and browser plumbing.
- The UI layout, the charts and the CSV download (app.py:206-340) are left out. They are I/O.
- `service-worker.js` is left out. It holds asynchronous browser cache handlers.
- Number formatting for display (`f"{gc:.2f}"` and similar) is left out.
- Floating point is left out. Every division is exact `real` division, so float rounding is not modelled. Several facts hold only up to rounding in Python: GC% + AT% = 100, frequencies that sum to 1, and the Wallace/GC% identity.
- Nucleotides.Upper: only ASCII letters are mapped. Python's `str.upper()` also maps non-ASCII characters, and a few of them map to strings containing A, T, G, C or N (U+0149 becomes "ʼN"). The model does not capture those characters or the length changes they cause.
- Normalizer.CleanSequence: the `not text` test is modelled for the empty string only. A `None` argument is out of scope.
- Skew.GcSkew: the default `window=100` is not modelled; callers pass the window explicitly. The model returns two lists, as the code does.
- Runs.LongestRun: `base` is a single character that is not a regular-expression metacharacter. A longer or special `base` makes `({base}+)` a different pattern, and the model does not cover that.
- Runs.LongestRunIsLongestBlock: the same restriction on `base` as for Runs.LongestRun.
- Dinucleotides.DinucleotideFreq: the integer `0` of the `else` branch is modelled as `0.0`. That branch is never taken, because a counter entry exists only when `total > 0`. `sum(di.values())` is modelled as a sum over the sixteen possible keys, where an absent key counts 0.
- Dinucleotides.DinucleotideFreq: the dict the code returns lists the pairs in first-occurrence order; the model returns a `map`, which has no order. Nothing in the helpers depends on that order, and the callers sort the table (app.py:290, 314).
- Dinucleotides.CountPairs: the counting loop is a method of its own. It runs the same loop as `dinucleotide_freq`; the separate method keeps the proof small.
- Entropy.ShannonEntropy: `math.log2` is a parameter of the model. The facts the lemmas need about it are preconditions of those lemmas. The upper bound of 2 bits is not proved, because it needs the concavity of the logarithm. The unused parameter `k` is not modelled.
