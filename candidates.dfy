/**
 * Stages 1 and 2 of the extractor: cut the text into lines, open a context
 * at every line that mentions an order number, and run the four recognisers
 * over each context, collecting what they find into one candidate list.
 */
module Candidates {
  import opened Chars
  import opened Patterns

  /** One entry of the `candidates` list: the raw value, the clipped context and the recogniser's tag. */
  datatype Candidate = Candidate(value: string, context: string, pattern: Pattern)

  /** The number of context characters a candidate carries: `context[:100]`. */
  const ContextWidth: nat := 100

  function Clip(context: string): (c: string)
    ensures |c| <= ContextWidth && |c| <= |context|
    ensures c == context[..|c|]
    ensures |context| <= ContextWidth ==> c == context
  {
    if |context| <= ContextWidth then context else context[..ContextWidth]
  }

  /** The context opened at line `i`: that line and at most the two after it, joined by single spaces. */
  function Window(lines: seq<string>, i: nat): string
    requires i < |lines|
  {
    Join(lines[i..Min(i + 3, |lines|)], ' ')
  }

  /** The recognisers' position in the emission order within one context. */
  function EmissionRank(pat: Pattern): nat
  {
    match pat
    case Labeled => 0
    case TubiFormat => 1
    case Numeric => 2
    case Alphanumeric => 3
  }

  /** Candidates made from `values`, all tagged `pat` and carrying the clipped context. */
  function Tag(values: seq<string>, context: string, pat: Pattern): (cs: seq<Candidate>)
    ensures |cs| == |values|
    ensures forall k :: 0 <= k < |cs| ==> cs[k] == Candidate(values[k], Clip(context), pat)
  {
    if values == [] then []
    else Tag(values[..|values| - 1], context, pat) + [Candidate(values[|values| - 1], Clip(context), pat)]
  }

  /** A numeric match that the loop discards as a date or year. */
  predicate LooksLikeDate(value: string) {
    StartsWith(value, "20") && |value| >= 4
  }

  /** The numeric matches the loop keeps, in order. */
  function Undated(values: seq<string>): (kept: seq<string>)
    ensures forall k :: 0 <= k < |kept| ==> kept[k] in values && !LooksLikeDate(kept[k])
    ensures forall v :: v in kept <==> v in values && !LooksLikeDate(v)
  {
    if values == [] then []
    else
      var v := values[|values| - 1];
      assert values == values[..|values| - 1] + [v];
      Undated(values[..|values| - 1]) + (if LooksLikeDate(v) then [] else [v])
  }

  /** The labeled recogniser's contribution: at most one candidate. */
  function LabeledFinds(context: string): (cs: seq<Candidate>)
    ensures |cs| <= 1
    ensures forall c :: c in cs ==> c.pattern == Labeled && c.context == Clip(context)
  {
    match FirstLabeled(context)
    case Some(v) => [Candidate(v, Clip(context), Labeled)]
    case None => []
  }

  function TubiFinds(context: string): (cs: seq<Candidate>)
    ensures forall c :: c in cs ==> c.pattern == TubiFormat && c.context == Clip(context)
  {
    Tag(FindAll(TubiFormat, context, 0), context, TubiFormat)
  }

  function NumericFinds(context: string): (cs: seq<Candidate>)
    ensures forall c :: c in cs ==> c.pattern == Numeric && c.context == Clip(context)
  {
    Tag(Undated(FindAll(Numeric, context, 0)), context, Numeric)
  }

  function AlphanumericFinds(context: string): (cs: seq<Candidate>)
    ensures forall c :: c in cs ==> c.pattern == Alphanumeric && c.context == Clip(context)
  {
    Tag(FindAll(Alphanumeric, context, 0), context, Alphanumeric)
  }

  /** What one context contributes: labeled, then tubi_format, then numeric, then alphanumeric. */
  function ContextCandidates(context: string): seq<Candidate>
  {
    LabeledFinds(context) + TubiFinds(context) + NumericFinds(context) + AlphanumericFinds(context)
  }

  /** The candidate list after the first `n` lines have been visited. */
  function CandidatesOfLines(lines: seq<string>, n: nat): seq<Candidate>
    requires n <= |lines|
  {
    if n == 0 then []
    else
      CandidatesOfLines(lines, n - 1) +
      (if MentionsOrderNumber(lines[n - 1]) then ContextCandidates(Window(lines, n - 1)) else [])
  }

  /** The whole candidate list for a text. */
  function CandidatesOf(text: string): seq<Candidate>
  {
    CandidatesOfLines(SplitLines(text), |SplitLines(text)|)
  }

  lemma TagSnoc(values: seq<string>, v: string, context: string, pat: Pattern)
    ensures Tag(values + [v], context, pat) == Tag(values, context, pat) + [Candidate(v, Clip(context), pat)]
  {
    assert (values + [v])[..|values|] == values;
  }

  lemma UndatedSnoc(values: seq<string>, v: string)
    ensures Undated(values + [v]) == Undated(values) + (if LooksLikeDate(v) then [] else [v])
  {
    assert (values + [v])[..|values|] == values;
  }

  lemma AppendUndatedStep(found: seq<Candidate>, matches: seq<string>, k: nat, context: string)
    requires k < |matches|
    ensures LooksLikeDate(matches[k]) ==>
              found + Tag(Undated(matches[..k + 1]), context, Numeric) == found + Tag(Undated(matches[..k]), context, Numeric)
    ensures !LooksLikeDate(matches[k]) ==>
              found + Tag(Undated(matches[..k + 1]), context, Numeric) ==
              found + Tag(Undated(matches[..k]), context, Numeric) + [Candidate(matches[k], Clip(context), Numeric)]
  {
    assert matches[..k + 1] == matches[..k] + [matches[k]];
    UndatedSnoc(matches[..k], matches[k]);
    if !LooksLikeDate(matches[k]) {
      TagSnoc(Undated(matches[..k]), matches[k], context, Numeric);
    }
  }

  /** A `for match in re.finditer(...)` loop that appends every match to `found`. */
  method AppendMatches(found: seq<Candidate>, matches: seq<string>, context: string, pat: Pattern)
    returns (result: seq<Candidate>)
    ensures result == found + Tag(matches, context, pat)
  {
    result := found;
    for k := 0 to |matches|
      invariant result == found + Tag(matches[..k], context, pat)
    {
      assert matches[..k + 1] == matches[..k] + [matches[k]];
      TagSnoc(matches[..k], matches[k], context, pat);
      result := result + [Candidate(matches[k], Clip(context), pat)];
    }
    assert matches[..|matches|] == matches;
  }

  /** The numeric loop, which appends only the matches that do not look like dates. */
  method AppendUndated(found: seq<Candidate>, matches: seq<string>, context: string)
    returns (result: seq<Candidate>)
    ensures result == found + Tag(Undated(matches), context, Numeric)
  {
    result := found;
    for k := 0 to |matches|
      invariant result == found + Tag(Undated(matches[..k]), context, Numeric)
    {
      var value := matches[k];
      AppendUndatedStep(found, matches, k, context);
      if !(StartsWith(value, "20") && |value| >= 4) {
        result := result + [Candidate(value, Clip(context), Numeric)];
      }
    }
    assert matches[..|matches|] == matches;
  }

  /** The body of the line loop for one context: the four recognisers, appended in turn. */
  method RecogniseContext(context: string) returns (found: seq<Candidate>)
    ensures found == ContextCandidates(context)
  {
    found := [];
    var labeled := FirstLabeled(context);
    if labeled.Some? {
      found := found + [Candidate(labeled.value, Clip(context), Labeled)];
    }
    assert found == LabeledFinds(context);
    found := AppendMatches(found, FindAll(TubiFormat, context, 0), context, TubiFormat);
    found := AppendUndated(found, FindAll(Numeric, context, 0), context);
    found := AppendMatches(found, FindAll(Alphanumeric, context, 0), context, Alphanumeric);
  }

  lemma CandidatesOfLinesStep(lines: seq<string>, i: nat)
    requires i < |lines|
    ensures !MentionsOrderNumber(lines[i]) ==> CandidatesOfLines(lines, i + 1) == CandidatesOfLines(lines, i)
    ensures MentionsOrderNumber(lines[i]) ==>
              CandidatesOfLines(lines, i + 1) == CandidatesOfLines(lines, i) + ContextCandidates(Window(lines, i))
  {
  }

  /** The context of line `i`: that line and up to two following lines, joined by spaces. */
  method ContextWindow(lines: seq<string>, i: nat) returns (context: string)
    requires i < |lines|
    ensures context == Window(lines, i)
    ensures i + 1 == |lines| ==> context == lines[i]
    ensures i + 2 == |lines| ==> context == lines[i] + " " + lines[i + 1]
    ensures i + 2 < |lines| ==> context == lines[i] + " " + lines[i + 1] + " " + lines[i + 2]
  {
    var contextLines := [lines[i]];
    if i + 1 < |lines| {
      contextLines := contextLines + [lines[i + 1]];
    }
    if i + 2 < |lines| {
      contextLines := contextLines + [lines[i + 2]];
    }
    assert contextLines == lines[i..Min(i + 3, |lines|)];
    context := Join(contextLines, ' ');
    if i + 2 == |lines| {
      assert contextLines[1..] == [lines[i + 1]];
    } else if i + 2 < |lines| {
      assert contextLines[1..] == [lines[i + 1], lines[i + 2]];
      assert contextLines[1..][1..] == [lines[i + 2]];
      assert Join(contextLines[1..], ' ') == lines[i + 1] + " " + lines[i + 2];
    }
  }

  /** The line loop of the extractor, appending each keyword line's findings to `candidates`. */
  method CollectCandidates(text: string) returns (candidates: seq<Candidate>)
    ensures candidates == CandidatesOf(text)
  {
    candidates := [];
    var lines := SplitLines(text);
    for i := 0 to |lines|
      invariant candidates == CandidatesOfLines(lines, i)
    {
      var line := lines[i];
      CandidatesOfLinesStep(lines, i);
      if MentionsOrderNumber(line) {
        var context := ContextWindow(lines, i);
        var found := RecogniseContext(context);
        candidates := candidates + found;
      }
    }
  }

  /**
   * Within one context the recognisers' findings come out in the order
   * labeled, tubi_format, numeric, alphanumeric, and every candidate carries
   * the first 100 characters of that context.
   */
  lemma ContextEmissionOrder(context: string)
    ensures InEmissionOrder(ContextCandidates(context))
    ensures forall c :: c in ContextCandidates(context) ==> c.context == Clip(context)
  {
    FourPatternsInEmissionOrder(LabeledFinds(context), TubiFinds(context), NumericFinds(context), AlphanumericFinds(context));
  }

  /** Four lists, each found by one recogniser, concatenated in the order the recognisers run. */
  lemma FourPatternsInEmissionOrder(head: seq<Candidate>, a: seq<Candidate>, b: seq<Candidate>, c: seq<Candidate>)
    requires forall x :: x in head ==> x.pattern == Labeled
    requires forall x :: x in a ==> x.pattern == TubiFormat
    requires forall x :: x in b ==> x.pattern == Numeric
    requires forall x :: x in c ==> x.pattern == Alphanumeric
    ensures InEmissionOrder(head + a + b + c)
  {
    ConcatInEmissionOrder(head, a);
    ConcatInEmissionOrder(head + a, b);
    ConcatInEmissionOrder(head + a + b, c);
  }

  /** Patterns never go back to an earlier recogniser along `cs`. */
  predicate InEmissionOrder(cs: seq<Candidate>) {
    forall i, j :: 0 <= i < j < |cs| ==> EmissionRank(cs[i].pattern) <= EmissionRank(cs[j].pattern)
  }

  lemma ConcatInEmissionOrder(xs: seq<Candidate>, ys: seq<Candidate>)
    requires InEmissionOrder(xs) && InEmissionOrder(ys)
    requires forall x, y :: x in xs && y in ys ==> EmissionRank(x.pattern) <= EmissionRank(y.pattern)
    ensures InEmissionOrder(xs + ys)
  {
    var zs := xs + ys;
    forall i, j | 0 <= i < j < |zs| ensures EmissionRank(zs[i].pattern) <= EmissionRank(zs[j].pattern) {
      if j < |xs| {
        assert zs[i] == xs[i] && zs[j] == xs[j];
      } else if i >= |xs| {
        assert zs[i] == ys[i - |xs|] && zs[j] == ys[j - |xs|];
      } else {
        assert zs[i] in xs && zs[j] in ys;
      }
    }
  }

  /** What every candidate of one context satisfies. */
  ghost predicate WellFormedCandidate(c: Candidate) {
    Shaped(c.pattern, c.value) && !(c.pattern == Numeric && LooksLikeDate(c.value))
  }

  lemma ContextCandidatesWellFormed(context: string)
    ensures forall c :: c in ContextCandidates(context) ==> WellFormedCandidate(c)
  {
    var numeric := FindAll(Numeric, context, 0);
    forall c | c in ContextCandidates(context) ensures WellFormedCandidate(c) {
      if c in NumericFinds(context) {
        var k :| 0 <= k < |NumericFinds(context)| && NumericFinds(context)[k] == c;
        assert Undated(numeric)[k] in numeric;
      } else if c in TubiFinds(context) {
        var k :| 0 <= k < |TubiFinds(context)| && TubiFinds(context)[k] == c;
      } else if c in AlphanumericFinds(context) {
        var k :| 0 <= k < |AlphanumericFinds(context)| && AlphanumericFinds(context)[k] == c;
      }
    }
  }

  /**
   * Every candidate has the shape of the pattern that found it, and none is
   * a numeric value starting with "20".
   */
  lemma {:induction false} CandidatesWellFormed(lines: seq<string>, n: nat)
    requires n <= |lines|
    ensures forall c :: c in CandidatesOfLines(lines, n) ==> WellFormedCandidate(c)
  {
    if n > 0 {
      CandidatesWellFormed(lines, n - 1);
      if MentionsOrderNumber(lines[n - 1]) {
        ContextCandidatesWellFormed(Window(lines, n - 1));
      }
    }
  }

  /**
   * Every candidate was found in the window of a line that mentions an order
   * number and carries that window clipped to 100 characters.
   */
  lemma {:induction false} CandidatesComeFromKeywordWindows(lines: seq<string>, n: nat)
    requires n <= |lines|
    ensures forall c :: c in CandidatesOfLines(lines, n) ==>
              exists i :: 0 <= i < n && MentionsOrderNumber(lines[i]) && c.context == Clip(Window(lines, i))
  {
    if n > 0 {
      CandidatesComeFromKeywordWindows(lines, n - 1);
      if MentionsOrderNumber(lines[n - 1]) {
        ContextEmissionOrder(Window(lines, n - 1));
      }
    }
  }
}
