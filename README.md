# Order-number extractor, modelled in Dafny

This project models `extract_order_number`, the function that pulls an order
number out of the text of an insertion order. The Python function exists in two
identical copies, `python/extract_order_number.py` and
`scripts/extract_order_number.py`. The model follows its five stages, one
module per stage:

1. **Windowing** (`Candidates`). The text is split on `'\n'`. Every line that
   matches `\border\s*(?:number|#|num)` after lower-casing opens a context. A
   context is that line and at most the next two lines, joined by single spaces.
2. **Recognition** (`Patterns`, `Candidates`). Four recognisers run over each
   context, always in this order:
   - the labeled pattern, via `re.search`, giving at most one value;
   - tubi_format, via `re.finditer`;
   - numeric, via `re.finditer`, dropping values that start with "20";
   - alphanumeric, via `re.finditer`.

   Each regular expression is an ASCII scanner. Greedy runs are taken at their
   longest. That is the first length the backtracking matcher tries. In these
   patterns, whenever any length leads to a match, the longest one does too,
   so the matcher's first success uses it. Shorter lengths can match as well
   in the labeled pattern's capture and gap, but the matcher never gets to
   them. `(?:number|#|num)` is tried in that order, as the backtracking
   matcher does. The numeric pattern's optional fraction `(?:\.\d+)?` is
   tried first, and the match falls back to no fraction when that fails.
3. **Dedup and filter** (`Filtering`). Values are stripped. Empty values,
   values already seen, stop words, alphabetic values and values shorter than
   three characters are dropped. The first occurrence of a value wins.
   `unique_candidates` is an insertion-ordered sequence of entries.
4. **Scoring** (`Scoring`). The score is:
   - a pattern bonus;
   - plus `min(10·len, 100)`;
   - plus 20 per digit;
   - plus 100 per hyphen;
   - minus 100 when the letters outnumber twice the digits.
5. **Selection** (`Ranking`, `Extractor`). The scored list is sorted by
   descending score. Python's sort is stable, and the sort is modelled by a
   stable insertion sort. The result record is built from the head of the
   sorted list, or the "not found" record is returned.

The loops of the source are methods proved equal to specification functions:
- `CollectCandidates`, `ContextWindow`, `RecogniseContext`, `AppendMatches` and `AppendUndated`;
- `Deduplicate`;
- `CountClass`, `ScoreCandidate` and `ScoreAll`;
- `ExtractOrderNumber`.

The properties the source promises are lemmas about those functions.

## Model

| member | source | states |
|---|---|---|
| Chars.Count | python/extract_order_number.py:124-131 | the count never exceeds the length; it is zero exactly when no character is in the class, and the full length exactly when all are |
| Chars.Lower | python/extract_order_number.py:34 | lower-casing keeps letters letters and digits digits, and never yields an upper-case letter |
| Chars.LowerStringAt | python/extract_order_number.py:90 | `s.lower()` lower-cases each character in place |
| Chars.LowerString | python/extract_order_number.py:34 | `s.lower()` keeps the length |
| Chars.IsAlpha | python/extract_order_number.py:91 | `s.isalpha()`: non-empty and letters only |
| Chars.Join | python/extract_order_number.py:45 | `sep.join(parts)`: the parts in order with one separator between neighbours |
| Chars.Strip | python/extract_order_number.py:87 | `strip()` never lengthens, leaves no whitespace at either end, and changes nothing in a string without whitespace |
| Chars.StripTrimsEnds | python/extract_order_number.py:87 | `strip()` returns a slice of the value with only whitespace before and after it, so no inner character is removed |
| Chars.SplitLines | python/extract_order_number.py:31 | `split('\n')` yields one more piece than there are newlines, and no piece contains a newline |
| Chars.SplitJoin | python/extract_order_number.py:31 | joining the pieces of `split('\n')` with newlines gives the text back |
| Chars.DecimalString | python/extract_order_number.py:151 | `str(n)` is a non-empty string of digits without a leading zero unless `n` is 0 |
| Chars.IntString | python/extract_order_number.py:151 | `str(score)` for any integer score: a minus sign before the decimal digits of a negative score, the plain digits otherwise |
| Chars.DecimalRoundTrip | python/extract_order_number.py:151 | reading back `str(n)` as a decimal number gives `n` |
| Patterns.RunEnd | python/extract_order_number.py:37 | a greedy repetition stops at the first character outside its class, and every character it consumed is inside the class |
| Patterns.IsBoundary | python/extract_order_number.py:58 | `\b` at a position: a word character on exactly one side of it (the same test in the patterns at :37, :66 and :77) |
| Patterns.HasKeywordFrom | python/extract_order_number.py:37 | the keyword search succeeds exactly when the keyword pattern matches at some position |
| Patterns.KeywordAt | python/extract_order_number.py:37 | `\border\s*(?:number|#|num)` at one position of the lower-cased line: a word boundary, "order", spaces, then one of the three words |
| Patterns.MentionsOrderNumber | python/extract_order_number.py:34-37 | a line opens a context when `\border\s*(?:number|#|num)` matches somewhere in its lower-cased text |
| Patterns.ShapedIsWellFormed | python/extract_order_number.py:47-82 | every captured value has at least 3 characters, all from `[A-Za-z0-9.-]`; tubi_format, numeric and alphanumeric values are never alphabetic |
| Patterns.TubiShape | python/extract_order_number.py:58 | the text `[A-Z]-[A-Z0-9]{4,}-[A-Z0-9]{1,2}` matches: a letter, a hyphen, at least four alphanumerics, a second hyphen, then one or two alphanumerics |
| Patterns.NumericShape | python/extract_order_number.py:66 | the text `\d{4,}(?:\.\d+)?` matches: at least four digits, optionally a dot followed by at least one digit |
| Patterns.AlphanumericShape | python/extract_order_number.py:77 | the text `[A-Z]{2,}[0-9][A-Z0-9]{2,}` matches: at least two letters, a digit, then at least two alphanumerics |
| Patterns.Shaped | python/extract_order_number.py:47-82 | what a value captured by each of the four patterns looks like; the labeled shape is `[A-Z0-9][A-Z0-9.-]{2,}` from :48 |
| Patterns.LabelValueAfter | python/extract_order_number.py:48 | a capture has the labeled shape and is the longest run of `[A-Z0-9.-]` where `\s*:?\s*` ends; nothing is captured only when no labeled-shape text starts there |
| Patterns.LabelAlternatives | python/extract_order_number.py:48 | whatever the alternation `number`, `#`, `num` captures has the labeled shape |
| Patterns.LabelAlternativesFirstWins | python/extract_order_number.py:48 | the alternation captures nothing exactly when no alternative leads to a capture, and otherwise captures what the first alternative that leads to one captures |
| Patterns.FirstSomeFirstWins | python/extract_order_number.py:48 | an ordered choice fails exactly when every attempt fails, and otherwise yields the first successful attempt, with every earlier one failing |
| Patterns.LabelAlternativesIsFirstSome | python/extract_order_number.py:48 | trying `number`, `#`, `num` one after the other is the ordered choice over their attempts |
| Patterns.AlternativeCapture | python/extract_order_number.py:48 | one alternative captures only where its word occurs (ignoring case), and what it captures has the labeled shape |
| Patterns.LabelGapEnd | python/extract_order_number.py:48 | `\s*:?\s*` consumes only whitespace and at most one colon, takes the colon when it follows the spaces, and stops at a character that is not whitespace |
| Patterns.LabeledAt | python/extract_order_number.py:48 | the labeled pattern matches at `p` only where "order" occurs there, ignoring case, and then captures a labeled-shape value |
| Patterns.LabeledPosition | python/extract_order_number.py:48 | the search finds the leftmost position at or after `p` where the labeled pattern matches, or reports that there is none |
| Patterns.FirstLabeled | python/extract_order_number.py:48-54 | `re.search` captures nothing exactly when the pattern matches at no position; otherwise it captures what the pattern captures at the leftmost matching position, and that capture has the labeled shape |
| Patterns.TubiAt | python/extract_order_number.py:58 | a tubi_format match lies between word boundaries and has the shape `[A-Z]-[A-Z0-9]{4,}-[A-Z0-9]{1,2}` |
| Patterns.TubiAtFindsEveryMatch | python/extract_order_number.py:58 | every tubi_format occurrence between word boundaries is exactly the match the scanner reports at its start |
| Patterns.NumericAt | python/extract_order_number.py:66 | a numeric match lies between word boundaries and has the shape `\d{4,}(\.\d+)?` |
| Patterns.NumericAtFindsEveryMatch | python/extract_order_number.py:66 | wherever a numeric occurrence lies between word boundaries the scanner matches, ending there or further right when a fraction follows |
| Patterns.AlphanumericAt | python/extract_order_number.py:77 | an alphanumeric match lies between word boundaries and has the shape `[A-Z]{2,}[0-9][A-Z0-9]{2,}` |
| Patterns.AlphanumericAtFindsEveryMatch | python/extract_order_number.py:77 | every alphanumeric occurrence between word boundaries is exactly the match the scanner reports at its start |
| Patterns.FindAll | python/extract_order_number.py:58-82 | every value `re.finditer` yields has the shape of its pattern |
| Candidates.Clip | python/extract_order_number.py:52 | `context[:100]` is a prefix of the context, at most 100 characters long, and the whole context when it is that short |
| Candidates.Window | python/extract_order_number.py:39-45 | the context of line `i`: that line and at most the two after it, joined by single spaces |
| Candidates.Tag | python/extract_order_number.py:58-63 | each matched value becomes one candidate, in order, with the clipped context and the recogniser's tag |
| Candidates.Undated | python/extract_order_number.py:66-74 | a numeric match is kept exactly when it does not start with "20" with 4 or more characters; everything kept is a match |
| Candidates.LooksLikeDate | python/extract_order_number.py:69 | a numeric value is taken for a date or year when it starts with "20" and has at least 4 characters |
| Candidates.LabeledFinds | python/extract_order_number.py:48-54 | the labeled recogniser adds at most one candidate, tagged labeled, with the clipped context |
| Candidates.TubiFinds | python/extract_order_number.py:58-63 | the tubi_format recogniser's candidates are tagged tubi_format and carry the clipped context |
| Candidates.NumericFinds | python/extract_order_number.py:66-74 | the numeric recogniser's candidates are tagged numeric and carry the clipped context |
| Candidates.AlphanumericFinds | python/extract_order_number.py:77-82 | the alphanumeric recogniser's candidates are tagged alphanumeric and carry the clipped context |
| Candidates.ContextCandidates | python/extract_order_number.py:47-82 | one context contributes the labeled, tubi_format, numeric and alphanumeric findings, in that order |
| Candidates.CandidatesOfLines | python/extract_order_number.py:33-82 | the candidate list after the first `n` lines: each keyword line adds its window's findings |
| Candidates.CandidatesOf | python/extract_order_number.py:25-82 | the candidate list of the whole text, over the lines of `split('\n')` |
| Candidates.AppendMatches | python/extract_order_number.py:58-63 | the finditer loop appends exactly the tagged matches, in order, to the candidate list |
| Candidates.AppendUndated | python/extract_order_number.py:66-74 | the numeric loop appends exactly the tagged matches that do not look like dates |
| Candidates.RecogniseContext | python/extract_order_number.py:47-82 | the four recognisers run on one context append exactly that context's candidates |
| Candidates.CollectCandidates | python/extract_order_number.py:25-82 | the line loop builds exactly the candidate list of the text |
| Candidates.ContextWindow | python/extract_order_number.py:39-45 | the context of a keyword line is that line followed by the next one or two lines (as many as exist), separated by single spaces |
| Candidates.ContextEmissionOrder | python/extract_order_number.py:47-82 | within a context the candidates come out labeled, then tubi_format, then numeric, then alphanumeric, all with that context clipped to 100 characters |
| Candidates.ContextCandidatesWellFormed | python/extract_order_number.py:47-82 | every candidate of a context has its pattern's shape, and no numeric one looks like a date |
| Candidates.CandidatesWellFormed | scripts/extract_order_number.py:33-82 | every candidate of the text has its pattern's shape, and no numeric one starts with "20" |
| Candidates.CandidatesComeFromKeywordWindows | python/extract_order_number.py:33-45 | every candidate comes from the window of a line that mentions an order number: that line and up to two more, joined by spaces |
| Filtering.Unique | python/extract_order_number.py:85-94 | the dictionary never holds more entries than there were candidates |
| Filtering.Admissible | python/extract_order_number.py:89-92 | a stripped value survives the filter when it is not a stop word in lower case, not alphabetic and at least 3 characters long |
| Filtering.StopWords | python/extract_order_number.py:90 | the nine stop words compared against the lower-cased value, in the order written |
| Filtering.UniqueEntriesAreKept | python/extract_order_number.py:86-94 | every key is admissible (at least 3 characters, not alphabetic, not a stop word) and is the stripped value of the candidate stored under it, which is one of the candidates |
| Filtering.UniqueKeysAreDistinct | python/extract_order_number.py:88 | no two entries of `unique_candidates` share a key |
| Filtering.Deduplicate | python/extract_order_number.py:85-94 | the dedup loop, with its `continue`, builds exactly `unique_candidates` |
| Filtering.UniqueIsComplete | python/extract_order_number.py:85-94 | every admissible stripped value of a candidate becomes a key |
| Filtering.UniqueEntriesFirstSeen | scripts/extract_order_number.py:85-94 | each key holds the candidate at which its stripped value first occurs |
| Filtering.UniqueKeysInFirstSeenOrder | python/extract_order_number.py:85-94 | the keys stand in the order in which their values first occur among the candidates |
| Filtering.StopWordsAreAlphabetic | python/extract_order_number.py:90-91 | every stop word is alphabetic, so the stop list drops nothing the alphabetic test keeps |
| Filtering.AdmissibleIffLongAndNotAlphabetic | python/extract_order_number.py:90-92 | a stripped value is kept exactly when it has at least 3 characters and is not alphabetic |
| Filtering.RecognisedValueIsAdmissible | python/extract_order_number.py:86-92 | a tubi_format, numeric or alphanumeric value is unchanged by `strip()` and always passes the filter |
| Scoring.LengthBonus | python/extract_order_number.py:121 | the length bonus lies in [0, 100], is 10 per character below 10 characters, and is 100 exactly from 10 characters on |
| Scoring.PatternBonus | python/extract_order_number.py:110-118 | the bonus is 1000 for labeled, 800 for tubi_format, 600 for alphanumeric and 400 for numeric |
| Scoring.LetterPenalty | python/extract_order_number.py:130-133 | the 100-point penalty applies when letters outnumber twice the digits |
| Scoring.Score | python/extract_order_number.py:108-133 | the score is the pattern bonus plus the length bonus plus 20 per digit plus 100 per hyphen, minus 100 when letters outnumber twice the digits |
| Scoring.CountClass | python/extract_order_number.py:124 | the counting loop returns the number of characters in the class |
| Scoring.ScoreCandidate | python/extract_order_number.py:108-133 | the score accumulated by `+=` and `-=` is the pattern bonus, plus the length bonus, plus 20 per digit, plus 100 per hyphen, minus 100 when letters exceed twice the digits |
| Scoring.ScoreBounds | python/extract_order_number.py:110-133 | a score lies between the pattern bonus minus 100 and the pattern bonus plus 100 plus 100 per character |
| Scoring.DigitsAndHyphensDisjoint | python/extract_order_number.py:124-128 | digits and hyphens together never outnumber the characters |
| Scoring.ScorePatternOrder | scripts/extract_order_number.py:111-118 | for the same value, labeled scores 200 above tubi_format, which scores 200 above alphanumeric, which scores 200 above numeric |
| Scoring.ScoreGrowsWithDigit | python/extract_order_number.py:123-133 | appending a digit raises the score by at least 20 |
| Scoring.ScoreGrowsWithHyphen | python/extract_order_number.py:127-128 | appending a hyphen raises the score by at least 100 |
| Ranking.InsertPosition | python/extract_order_number.py:143 | an item goes after every leading item with at least its score and before the first with less |
| Ranking.Insert | python/extract_order_number.py:143 | inserting adds exactly one item and keeps all the others |
| Ranking.SortByScore | python/extract_order_number.py:143 | the sorted list is a permutation of the input with non-increasing scores |
| Ranking.InsertKeepsOrder | python/extract_order_number.py:143 | inserting into a non-increasing list keeps it non-increasing |
| Ranking.SortKeepsTies | python/extract_order_number.py:143 | any two items of equal score stand in the sorted list in the order they had in the input |
| Ranking.InsertKeepsTies | python/extract_order_number.py:143 | inserting a new last item into a non-increasing list keeps equal-score items in input order |
| Ranking.SortIsStable | scripts/extract_order_number.py:143 | for every score, the sorted list's items with that score are the input's, in the input's order |
| Ranking.SortedIsRearrangement | python/extract_order_number.py:143 | the sorted list holds exactly the input's items |
| Ranking.StableOrderIsUnique | python/extract_order_number.py:143 | any two non-increasing lists with the same items in each score class are equal, so every stable descending sort gives the same list |
| Ranking.HeadScoresMost | python/extract_order_number.py:146 | the head of a non-increasing list has the greatest score |
| Ranking.ScoreMap | python/extract_order_number.py:153 | the dictionary's keys are exactly the values of the items |
| Ranking.Values | python/extract_order_number.py:152 | `all_candidates`: the values of the sorted items, one per item, in order |
| Ranking.ScoreMapLookup | python/extract_order_number.py:153 | with distinct values, the dictionary maps each value to its own item's score |
| Ranking.SortKeepsValuesDistinct | python/extract_order_number.py:143 | sorting items with distinct values gives a list with distinct values |
| Ranking.SortedValuesDistinct | python/extract_order_number.py:152 | after sorting, each value appears once in the list of values |
| Ranking.SortedValuesSame | python/extract_order_number.py:152 | the sorted list of values holds the same values as the unsorted one |
| Ranking.SortedScoreLookup | python/extract_order_number.py:153 | the dictionary built from the sorted items maps each value to its own item's score |
| Ranking.SortedTiesByValue | python/extract_order_number.py:143-152 | values of equal score keep their input order in the sorted list of values |
| Extractor.ScoreAll | python/extract_order_number.py:106-140 | the scoring loop produces one scored item per dictionary entry, in insertion order |
| Extractor.Rank | python/extract_order_number.py:106-140 | `scored_candidates` before sorting has one item per dictionary entry, in insertion order, each the entry's scored item |
| Extractor.Scored | python/extract_order_number.py:108-140 | the item appended for one entry: its key, its `Score`, its pattern and its context |
| Extractor.Provenance | python/extract_order_number.py:151 | the provenance string `FOUND_<value>_pattern_<pattern>_score_<score>` |
| Extractor.PatternName | python/extract_order_number.py:47-82 | the pattern tags `labeled`, `tubi_format`, `numeric` and `alphanumeric` that the candidates carry and the provenance string repeats |
| Extractor.NotFound | python/extract_order_number.py:96-103 | the record with `ok` false, "UNKNOWN", "NO_ORDER_NUMBER_FOUND", no candidates and no scores |
| Extractor.ExtractionError | python/extract_order_number.py:156-163 | the record with `ok` false, "ERROR", "EXTRACTION_ERROR: " followed by the message, no candidates and no scores |
| Extractor.Outcome | python/extract_order_number.py:96-154 | the "not found" record for an empty dictionary, otherwise the record built from the head of the sorted scored list |
| Extractor.Select | python/extract_order_number.py:85-154 | dedup and filter, then score, sort and build the record |
| Extractor.Extract | python/extract_order_number.py:14-163 | the "ERROR" record when the file cannot be read, otherwise the pipeline on its text |
| Extractor.ExtractOrderNumber | python/extract_order_number.py:14-163 | the result is `Extract(source)`: the record that windowing, recognition, dedup, scoring and selection give for the text, or the "ERROR" record carrying the exception message when the file cannot be read |
| Extractor.OutcomeListsKeys | python/extract_order_number.py:148-152 | with survivors, `ok` is set and `all_candidates` lists every surviving key exactly once and nothing else |
| Extractor.OutcomeScoresKeys | python/extract_order_number.py:153 | `scores` maps exactly the surviving keys, each to its computed score |
| Extractor.OutcomeOrdersByScore | python/extract_order_number.py:143-152 | `all_candidates` is in non-increasing order of score |
| Extractor.OutcomeKeepsTies | python/extract_order_number.py:143-152 | keys of equal score appear in `all_candidates` in the dictionary's insertion order |
| Extractor.OutcomeNamesBest | python/extract_order_number.py:146-151 | `order_number` is the head of `all_candidates`, and the provenance is "FOUND_", the value, "_pattern_", its pattern, "_score_" and its score |
| Extractor.OutcomePicksHighest | python/extract_order_number.py:143-150 | no surviving key scores more than `order_number` |
| Extractor.OutcomeBestSeenFirst | python/extract_order_number.py:143-150 | when keys were inserted in first-seen order, `order_number` was seen before every other key with the same score |
| Extractor.OutcomeTiesInFirstSeenOrder | python/extract_order_number.py:143-152 | when keys were first seen in insertion order, equal-score values appear in first-seen order |
| Extractor.SelectNotFound | python/extract_order_number.py:85-103 | the result is the "UNKNOWN" / "NO_ORDER_NUMBER_FOUND" record with empty lists exactly when no candidate's stripped value passes the filter |
| Extractor.SelectPicksBest | scripts/extract_order_number.py:143-152 | the order number has the maximal score, and every other value with that score was first seen after it |
| Extractor.SelectKeepsTiesInFirstSeenOrder | scripts/extract_order_number.py:143-152 | values with equal scores appear in `all_candidates` in the order they were first seen |
| Extractor.SentinelsAreInadmissible | python/extract_order_number.py:90-99 | the sentinel order numbers "UNKNOWN" and "ERROR" would never pass the filter |
| Extractor.SelectFindsAdmissibleValue | python/extract_order_number.py:86-151 | a found order number passes the filter, so it is never "UNKNOWN" or "ERROR" |
| Extractor.SelectValueComesFromCandidate | python/extract_order_number.py:86-150 | a found order number is the stripped value of one of the candidates |
| Extractor.NoKeywordNoOrderNumber | python/extract_order_number.py:33-103 | a text in which no line mentions an order number yields the "not found" record |
| Extractor.NoKeywordNoCandidates | python/extract_order_number.py:33-37 | lines that do not mention an order number contribute no candidates |
| Extractor.RecognisedValueMeansFound | python/extract_order_number.py:58-103 | one tubi_format, numeric or alphanumeric candidate is enough for `ok` to be set |

## Left out

- Opening and reading the file (`open(..., encoding='utf-8')`) is not modelled. `Extractor.Source` stands for its outcome: the text, or the message of the exception raised.
- The exception handler is modelled only for that read failure. For any text, the rest of the function raises nothing.
- `main` is not modelled: argument checking, `sys.exit` and printing the record as JSON are I/O.
- Unicode is not modelled. The model works on ASCII classes for these operations:
  - `\s`, `\d`, `\w`, `\b`;
  - IGNORECASE folding;
  - `str.lower`, `str.isalpha`, `str.isdigit` and `str.strip`.

  A non-ASCII character counts as neither a letter, a digit, a word character nor whitespace. Python would class some of them otherwise, for example `'é'.isalpha()` is true and IGNORECASE lets `[A-Z]` match the Kelvin sign.
- Timsort is not modelled. The sort is a library call, so it is modelled by the list it returns rather than by its in-place steps. A stable insertion sort computes that list. `Ranking.StableOrderIsUnique` shows that every stable descending sort yields that same list.
- `scores` is a `map`, so the model does not keep the key order of the Python dictionary. That order equals `all_candidates`, which the model does keep.
- Patterns.FindAll: its contract states only that every value found has its pattern's shape. It does not state that the scan finds every non-overlapping match. For the finditer patterns, completeness is stated per start position by `TubiAtFindsEveryMatch`, `NumericAtFindsEveryMatch` and `AlphanumericAtFindsEveryMatch`.
- Patterns.LabeledAt: its contract does not state the converse, that any labeled-shape text after the keyword is captured. The scanner's own definition follows the alternation order and the greedy runs.
