/**
 * The five regular expressions of the extractor, as scanners over ASCII text.
 *
 * Each scanner follows the backtracking matcher's preference order.  A greedy
 * repetition first tries its longest run, and in these patterns, whenever
 * some run length leads to a match at a position, the longest run does too.
 * The first attempt that succeeds is therefore the one with the longest run.
 * Shorter runs can also match in some places, for instance the capture group
 * that ends the labeled pattern, or the first `\s*` of `\s*:?\s*` when
 * no colon follows.  The matcher never reaches them, because the longest run
 * has already succeeded.  So the scanners take the longest run (`RunEnd`)
 * and test what follows it once.  Two ordered choices show through:
 * `(?:number|#|num)` in the labeled pattern, tried in that order, and the
 * optional fraction `(?:\.\d+)?` of the numeric pattern, where the matcher
 * tries the fraction first and falls back to none (`NumericAt`).
 */
module Patterns {
  import opened Chars

  /** The tag each recogniser puts on what it finds. */
  datatype Pattern = Labeled | TubiFormat | Numeric | Alphanumeric

  /** End of the longest run of class-`k` characters from `p`: what a greedy `k*` consumes. */
  function RunEnd(s: string, p: nat, k: CharClass): (e: nat)
    requires p <= |s|
    ensures p <= e <= |s|
    ensures forall i :: p <= i < e ==> InClass(s[i], k)
    ensures e == |s| || !InClass(s[e], k)
    decreases |s| - p
  {
    if p == |s| || !InClass(s[p], k) then p else RunEnd(s, p + 1, k)
  }

  /** `\b`: a word character on exactly one side of position `p`. */
  predicate IsBoundary(s: string, p: nat)
    requires p <= |s|
  {
    (0 < p && IsWordChar(s[p - 1])) != (p < |s| && IsWordChar(s[p]))
  }

  /** `w` occurs in `s` at `p`, character for character. */
  predicate LiteralAt(s: string, p: nat, w: string) {
    p + |w| <= |s| && s[p..p + |w|] == w
  }

  /** `w`, written in lower case, occurs in `s` at `p` when case is ignored (IGNORECASE). */
  predicate FoldedAt(s: string, p: nat, w: string) {
    p + |w| <= |s| && forall i :: 0 <= i < |w| ==> Lower(s[p + i]) == w[i]
  }

  // ---------------------------------------------------------------------
  // Shapes of the captured values

  /** `[A-Z]-[A-Z0-9]{4,}-[A-Z0-9]{1,2}` with its second hyphen at `h`. */
  predicate TubiShape(v: string, h: nat) {
    6 <= h && h + 2 <= |v| <= h + 3 && IsLetter(v[0]) && v[1] == '-' && v[h] == '-' &&
    forall i :: 2 <= i < |v| && i != h ==> IsAlnum(v[i])
  }

  /** `\d{4,}(?:\.\d+)?` whose integer part ends at `d`. */
  predicate NumericShape(v: string, d: nat) {
    4 <= d <= |v| && (forall i :: 0 <= i < d ==> IsDigit(v[i])) &&
    (d < |v| ==> v[d] == '.' && d + 1 < |v| && forall i :: d < i < |v| ==> IsDigit(v[i]))
  }

  /** `[A-Z]{2,}[0-9][A-Z0-9]{2,}` whose first digit is at `d`. */
  predicate AlphanumericShape(v: string, d: nat) {
    2 <= d && d + 3 <= |v| && (forall i :: 0 <= i < d ==> IsLetter(v[i])) && IsDigit(v[d]) &&
    forall i :: d < i < |v| ==> IsAlnum(v[i])
  }

  /** What a value captured by each pattern looks like. */
  ghost predicate Shaped(pat: Pattern, v: string) {
    match pat
    case Labeled => |v| >= 3 && IsAlnum(v[0]) && forall i :: 0 <= i < |v| ==> InClass(v[i], LabelChars)
    case TubiFormat => exists h :: TubiShape(v, h)
    case Numeric => exists d :: NumericShape(v, d)
    case Alphanumeric => exists d :: AlphanumericShape(v, d)
  }

  /**
   * Every captured value is at least three characters of `[A-Za-z0-9.-]`;
   * all but the labeled ones contain a digit or a hyphen, so are not alphabetic.
   */
  lemma ShapedIsWellFormed(pat: Pattern, v: string)
    requires Shaped(pat, v)
    ensures |v| >= 3
    ensures forall i :: 0 <= i < |v| ==> InClass(v[i], LabelChars)
    ensures pat != Labeled ==> !IsAlpha(v)
  {
    match pat
    case Labeled =>
    case TubiFormat =>
      var h: nat :| TubiShape(v, h);
      assert !IsLetter(v[1]);
    case Numeric =>
      var d: nat :| NumericShape(v, d);
      assert !IsLetter(v[0]);
    case Alphanumeric =>
      var d: nat :| AlphanumericShape(v, d);
      assert !IsLetter(v[d]);
  }

  // ---------------------------------------------------------------------
  // The keyword line: re.search(r'\border\s*(?:number|#|num)', line.lower())

  /** The keyword pattern matches at `p` of an already lower-cased line. */
  predicate KeywordAt(s: string, p: nat)
    requires p <= |s|
  {
    IsBoundary(s, p) && LiteralAt(s, p, "order") &&
    var q := RunEnd(s, p + 5, Spaces);
    LiteralAt(s, q, "number") || LiteralAt(s, q, "#") || LiteralAt(s, q, "num")
  }

  /** The search: does the keyword match anywhere at or after `p`? */
  function HasKeywordFrom(s: string, p: nat): (found: bool)
    requires p <= |s|
    ensures found <==> exists q :: p <= q <= |s| && KeywordAt(s, q)
    decreases |s| - p
  {
    if KeywordAt(s, p) then true
    else if p == |s| then false
    else HasKeywordFrom(s, p + 1)
  }

  /** A line that starts a context: it mentions "order number", "order #" or "order num". */
  predicate MentionsOrderNumber(line: string) {
    HasKeywordFrom(LowerString(line), 0)
  }

  // ---------------------------------------------------------------------
  // Pattern 1: re.search(r'order\s*(?:number|#|num)\s*:?\s*([A-Z0-9][A-Z0-9\.\-]{2,})', ctx, re.I)

  /** Where `\s*:?\s*` from `r` stops: spaces, at most one colon, spaces. */
  function LabelGapEnd(s: string, r: nat): (g: nat)
    requires r <= |s|
    ensures r <= g <= |s|
    ensures forall i :: r <= i < g ==> IsSpace(s[i]) || s[i] == ':'
    ensures g == |s| || !IsSpace(s[g])
    ensures forall i, j :: r <= i < j < g ==> !(s[i] == ':' && s[j] == ':')
    ensures (exists i :: r <= i < g && s[i] == ':') || g == |s| || s[g] != ':'
  {
    var t := RunEnd(s, r, Spaces);
    if t < |s| && s[t] == ':' then RunEnd(s, t + 1, Spaces) else t
  }

  /**
   * `\s*:?\s*([A-Z0-9][A-Z0-9\.\-]{2,})` from `r`: the captured group, if any.
   * The capture is the longest run of label characters where the gap ends,
   * and nothing is captured only when no labeled-shape text starts there.
   */
  function LabelValueAfter(s: string, r: nat): (v: Option<string>)
    requires r <= |s|
    ensures v.Some? ==> Shaped(Labeled, v.value)
    ensures v.Some? ==> var g := LabelGapEnd(s, r); var e := g + |v.value|;
              e <= |s| && s[g..e] == v.value && (e == |s| || !InClass(s[e], LabelChars))
    ensures v.None? ==> forall e :: LabelGapEnd(s, r) + 3 <= e <= |s| ==> !Shaped(Labeled, s[LabelGapEnd(s, r)..e])
  {
    var g := LabelGapEnd(s, r);
    if g < |s| && IsAlnum(s[g]) then
      var e := RunEnd(s, g + 1, LabelChars);
      if e - g >= 3 then LabelRunIsShaped(s, g, e); Some(s[g..e])
      else NoLabelPastShortRun(s, g, e); None
    else NoLabelFromNonAlnum(s, g); None
  }

  lemma LabelRunIsShaped(s: string, g: nat, e: nat)
    requires g + 3 <= e <= |s| && IsAlnum(s[g])
    requires forall i :: g + 1 <= i < e ==> InClass(s[i], LabelChars)
    ensures Shaped(Labeled, s[g..e])
  {
    forall i | 0 <= i < e - g ensures InClass(s[g..e][i], LabelChars) {
      assert s[g..e][i] == s[g + i];
    }
  }

  lemma NoLabelPastShortRun(s: string, g: nat, e: nat)
    requires g < e < g + 3 && e <= |s| && (e == |s| || !InClass(s[e], LabelChars))
    ensures forall e' :: g + 3 <= e' <= |s| ==> !Shaped(Labeled, s[g..e'])
  {
    forall e' | g + 3 <= e' <= |s| ensures !Shaped(Labeled, s[g..e']) {
      assert s[g..e'][e - g] == s[e];
    }
  }

  lemma NoLabelFromNonAlnum(s: string, g: nat)
    requires g <= |s| && (g == |s| || !IsAlnum(s[g]))
    ensures forall e :: g + 3 <= e <= |s| ==> !Shaped(Labeled, s[g..e])
  {
    forall e | g + 3 <= e <= |s| ensures !Shaped(Labeled, s[g..e]) {
      assert s[g..e][0] == s[g];
    }
  }

  /** Alternative `w` of `(?:number|#|num)` tried at `q`, followed by the rest of the pattern. */
  function AlternativeCapture(s: string, q: nat, w: string): (v: Option<string>)
    requires q <= |s|
    ensures v.Some? ==> FoldedAt(s, q, w) && Shaped(Labeled, v.value)
  {
    if FoldedAt(s, q, w) then LabelValueAfter(s, q + |w|) else None
  }

  /** The first attempt that captures something: how an alternation chooses. */
  function FirstSome(attempts: seq<Option<string>>): (v: Option<string>)
    ensures v.Some? ==> v in attempts
  {
    if attempts == [] then None
    else if attempts[0].Some? then attempts[0]
    else FirstSome(attempts[1..])
  }

  /** The alternation `(?:number|#|num)` at `q` followed by the rest of the pattern, alternatives tried in order. */
  function LabelAlternatives(s: string, q: nat, alternatives: seq<string>): (v: Option<string>)
    requires q <= |s|
    ensures v.Some? ==> Shaped(Labeled, v.value)
  {
    if alternatives == [] then None
    else
      var here := AlternativeCapture(s, q, alternatives[0]);
      if here.Some? then here else LabelAlternatives(s, q, alternatives[1..])
  }

  /** What each alternative, tried at `q`, would capture. */
  function Attempts(s: string, q: nat, alternatives: seq<string>): (a: seq<Option<string>>)
    requires q <= |s|
    ensures |a| == |alternatives|
    ensures forall i :: 0 <= i < |a| ==> a[i] == AlternativeCapture(s, q, alternatives[i])
  {
    if alternatives == [] then []
    else [AlternativeCapture(s, q, alternatives[0])] + Attempts(s, q, alternatives[1..])
  }

  /** Trying the alternatives one after the other is taking the first attempt that captures. */
  lemma {:induction false} LabelAlternativesIsFirstSome(s: string, q: nat, alternatives: seq<string>)
    requires q <= |s|
    ensures LabelAlternatives(s, q, alternatives) == FirstSome(Attempts(s, q, alternatives))
  {
    if alternatives != [] {
      LabelAlternativesIsFirstSome(s, q, alternatives[1..]);
      assert Attempts(s, q, alternatives)[1..] == Attempts(s, q, alternatives[1..]);
    }
  }

  /** An alternation fails exactly when every attempt fails, and otherwise gives the first attempt that succeeds. */
  lemma {:induction false} FirstSomeFirstWins(attempts: seq<Option<string>>)
    ensures FirstSome(attempts).None? <==> forall i :: 0 <= i < |attempts| ==> attempts[i].None?
    ensures FirstSome(attempts).Some? ==>
              exists i :: 0 <= i < |attempts| && attempts[i] == FirstSome(attempts) &&
                forall j :: 0 <= j < i ==> attempts[j].None?
  {
    if attempts != [] && attempts[0].None? {
      var rest := attempts[1..];
      FirstSomeFirstWins(rest);
      forall i | 0 < i < |attempts| ensures attempts[i] == rest[i - 1] { }
      if FirstSome(rest).Some? {
        var i :| 0 <= i < |rest| && rest[i] == FirstSome(rest) && forall j :: 0 <= j < i ==> rest[j].None?;
        assert attempts[i + 1] == FirstSome(attempts);
      }
    }
  }

  /**
   * The labeled alternation captures nothing exactly when no alternative leads
   * to a capture, and otherwise captures what the first such alternative does.
   */
  lemma LabelAlternativesFirstWins(s: string, q: nat, alternatives: seq<string>)
    requires q <= |s|
    ensures LabelAlternatives(s, q, alternatives).None? <==>
              forall i :: 0 <= i < |alternatives| ==> AlternativeCapture(s, q, alternatives[i]).None?
    ensures LabelAlternatives(s, q, alternatives).Some? ==>
              exists i :: 0 <= i < |alternatives| && AlternativeCapture(s, q, alternatives[i]) == LabelAlternatives(s, q, alternatives) &&
                forall j :: 0 <= j < i ==> AlternativeCapture(s, q, alternatives[j]).None?
  {
    LabelAlternativesIsFirstSome(s, q, alternatives);
    FirstSomeFirstWins(Attempts(s, q, alternatives));
  }

  /** The labeled pattern tried at `p`. */
  function LabeledAt(s: string, p: nat): (v: Option<string>)
    requires p <= |s|
    ensures v.Some? ==> FoldedAt(s, p, "order") && Shaped(Labeled, v.value)
  {
    if FoldedAt(s, p, "order") then LabelAlternatives(s, RunEnd(s, p + 5, Spaces), ["number", "#", "num"])
    else None
  }

  /** Where `re.search` from `p` finds the labeled pattern: the leftmost position that matches, or `|s| + 1`. */
  function LabeledPosition(s: string, p: nat): (q: nat)
    requires p <= |s|
    ensures p <= q <= |s| + 1
    ensures forall q' :: p <= q' <= q && q' <= |s| ==> (LabeledAt(s, q').Some? <==> q' == q)
    decreases |s| - p
  {
    if LabeledAt(s, p).Some? then p
    else if p == |s| then |s| + 1
    else LabeledPosition(s, p + 1)
  }

  /** `re.search` over the whole context: the group captured at the leftmost match. */
  function FirstLabeled(s: string): (v: Option<string>)
    ensures v.None? <==> forall q :: 0 <= q <= |s| ==> LabeledAt(s, q).None?
    ensures v.Some? ==> Shaped(Labeled, v.value)
    ensures v.Some? ==> exists q :: 0 <= q <= |s| && LabeledAt(s, q) == v && forall q' :: 0 <= q' < q ==> LabeledAt(s, q').None?
  {
    var q := LabeledPosition(s, 0);
    if q <= |s| then LabeledAt(s, q) else None
  }

  // ---------------------------------------------------------------------
  // Patterns 2-4, used with re.finditer

  /** `\b([A-Z]-[A-Z0-9]{4,}-[A-Z0-9]{1,2})\b` (IGNORECASE) tried at `p`: where the match ends. */
  function TubiAt(s: string, p: nat): (e: Option<nat>)
    requires p <= |s|
    ensures e.Some? ==> p < e.value <= |s| && IsBoundary(s, p) && IsBoundary(s, e.value) &&
                        Shaped(TubiFormat, s[p..e.value])
  {
    if p + 2 <= |s| && IsBoundary(s, p) && IsLetter(s[p]) && s[p + 1] == '-' then
      var h := RunEnd(s, p + 2, Alnums);
      if h - (p + 2) >= 4 && h < |s| && s[h] == '-' then
        var e := RunEnd(s, h + 1, Alnums);
        if 1 <= e - (h + 1) <= 2 && IsBoundary(s, e) then
          TubiShapeOfRuns(s, p, h, e);
          Some(e)
        else None
      else None
    else None
  }

  /** `\b(\d{4,}(?:\.\d+)?)\b` tried at `p`: where the match ends (the fraction is preferred). */
  function NumericAt(s: string, p: nat): (e: Option<nat>)
    requires p <= |s|
    ensures e.Some? ==> p < e.value <= |s| && IsBoundary(s, p) && IsBoundary(s, e.value) &&
                        Shaped(Numeric, s[p..e.value])
  {
    if p < |s| && IsBoundary(s, p) && IsDigit(s[p]) then
      var d := RunEnd(s, p, Digits);
      if d - p < 4 then None
      else if d + 1 < |s| && s[d] == '.' && IsDigit(s[d + 1]) && IsBoundary(s, RunEnd(s, d + 1, Digits)) then
        NumericShapeOfRuns(s, p, d, RunEnd(s, d + 1, Digits));
        Some(RunEnd(s, d + 1, Digits))
      else if IsBoundary(s, d) then
        NumericShapeOfRuns(s, p, d, d);
        Some(d)
      else None
    else None
  }

  /** `\b([A-Z]{2,}[0-9][A-Z0-9]{2,})\b` (IGNORECASE) tried at `p`: where the match ends. */
  function AlphanumericAt(s: string, p: nat): (e: Option<nat>)
    requires p <= |s|
    ensures e.Some? ==> p < e.value <= |s| && IsBoundary(s, p) && IsBoundary(s, e.value) &&
                        Shaped(Alphanumeric, s[p..e.value])
  {
    if p < |s| && IsBoundary(s, p) && IsLetter(s[p]) then
      var d := RunEnd(s, p, Letters);
      if d - p >= 2 && d < |s| && IsDigit(s[d]) then
        var e := RunEnd(s, d + 1, Alnums);
        if e - (d + 1) >= 2 && IsBoundary(s, e) then
          AlphanumericShapeOfRuns(s, p, d, e);
          Some(e)
        else None
      else None
    else None
  }

  /** A run of class-`k` characters from `p` that stops at `q` is the run `RunEnd` finds. */
  lemma RunEndIs(s: string, p: nat, q: nat, k: CharClass)
    requires p <= q <= |s|
    requires forall i :: p <= i < q ==> InClass(s[i], k)
    requires q == |s| || !InClass(s[q], k)
    ensures RunEnd(s, p, k) == q
  {
  }

  /** The runs `TubiAt` scans make up a tubi_format value. */
  lemma TubiShapeOfRuns(s: string, p: nat, h: nat, e: nat)
    requires p + 6 <= h && h + 2 <= e <= h + 3 && e <= |s|
    requires IsLetter(s[p]) && s[p + 1] == '-' && s[h] == '-'
    requires forall i :: p + 2 <= i < h ==> InClass(s[i], Alnums)
    requires forall i :: h < i < e ==> InClass(s[i], Alnums)
    ensures TubiShape(s[p..e], h - p)
  {
    var v := s[p..e];
    assert v[0] == s[p] && v[1] == s[p + 1] && v[h - p] == s[h];
    forall i | 2 <= i < |v| && i != h - p ensures IsAlnum(v[i]) {
      assert v[i] == s[p + i] && InClass(s[p + i], Alnums);
    }
  }

  /** The runs `NumericAt` scans make up a numeric value. */
  lemma NumericShapeOfRuns(s: string, p: nat, d: nat, e: nat)
    requires p + 4 <= d <= e <= |s|
    requires forall i :: p <= i < d ==> InClass(s[i], Digits)
    requires d < e ==> s[d] == '.' && d + 1 < e && forall i :: d < i < e ==> InClass(s[i], Digits)
    ensures NumericShape(s[p..e], d - p)
  {
    var v := s[p..e];
    forall i | 0 <= i < d - p ensures IsDigit(v[i]) {
      assert v[i] == s[p + i] && InClass(s[p + i], Digits);
    }
    if d < e {
      assert v[d - p] == s[d];
      forall i | d - p < i < |v| ensures IsDigit(v[i]) {
        assert v[i] == s[p + i] && InClass(s[p + i], Digits);
      }
    }
  }

  /** The runs `AlphanumericAt` scans make up an alphanumeric value. */
  lemma AlphanumericShapeOfRuns(s: string, p: nat, d: nat, e: nat)
    requires p + 2 <= d && d + 3 <= e <= |s|
    requires forall i :: p <= i < d ==> InClass(s[i], Letters)
    requires IsDigit(s[d])
    requires forall i :: d < i < e ==> InClass(s[i], Alnums)
    ensures AlphanumericShape(s[p..e], d - p)
  {
    var v := s[p..e];
    assert v[d - p] == s[d];
    forall i | 0 <= i < d - p ensures IsLetter(v[i]) {
      assert v[i] == s[p + i] && InClass(s[p + i], Letters);
    }
    forall i | d - p < i < |v| ensures IsAlnum(v[i]) {
      assert v[i] == s[p + i] && InClass(s[p + i], Alnums);
    }
  }

  /** A run of word characters that ends at a word boundary cannot be continued. */
  lemma RunStopsAtBoundary(s: string, e: nat, k: CharClass)
    requires 0 < e <= |s| && IsBoundary(s, e) && InClass(s[e - 1], k)
    requires k == Alnums || k == Digits || k == Letters
    ensures e == |s| || !InClass(s[e], k)
  {
  }

  /** Every tubi_format occurrence between word boundaries is the match `TubiAt` reports there. */
  lemma TubiAtFindsEveryMatch(s: string, p: nat, e: nat, h: nat)
    requires p < e <= |s| && IsBoundary(s, p) && IsBoundary(s, e)
    requires TubiShape(s[p..e], h)
    ensures TubiAt(s, p) == Some(e)
  {
    var v := s[p..e];
    assert v[0] == s[p] && v[1] == s[p + 1] && v[h] == s[p + h];
    forall i | p + 2 <= i < e && i != p + h ensures InClass(s[i], Alnums) {
      assert v[i - p] == s[i];
    }
    RunEndIs(s, p + 2, p + h, Alnums);
    RunStopsAtBoundary(s, e, Alnums);
    RunEndIs(s, p + h + 1, e, Alnums);
  }

  /**
   * Wherever a numeric occurrence lies between word boundaries, `NumericAt`
   * reports a match there, ending at the same place or, when a fraction
   * follows, after it.
   */
  lemma NumericAtFindsEveryMatch(s: string, p: nat, e: nat, d: nat)
    requires p < e <= |s| && IsBoundary(s, p) && IsBoundary(s, e)
    requires NumericShape(s[p..e], d)
    ensures NumericAt(s, p).Some? && NumericAt(s, p).value >= e
  {
    var v := s[p..e];
    forall i | p <= i < p + d ensures InClass(s[i], Digits) {
      assert v[i - p] == s[i];
    }
    if p + d < e {
      assert v[d] == s[p + d];
      forall i | p + d < i < e ensures InClass(s[i], Digits) {
        assert v[i - p] == s[i];
      }
      RunEndIs(s, p, p + d, Digits);
      RunStopsAtBoundary(s, e, Digits);
      RunEndIs(s, p + d + 1, e, Digits);
    } else {
      RunStopsAtBoundary(s, e, Digits);
      RunEndIs(s, p, p + d, Digits);
    }
  }

  /** Every alphanumeric occurrence between word boundaries is the match `AlphanumericAt` reports there. */
  lemma AlphanumericAtFindsEveryMatch(s: string, p: nat, e: nat, d: nat)
    requires p < e <= |s| && IsBoundary(s, p) && IsBoundary(s, e)
    requires AlphanumericShape(s[p..e], d)
    ensures AlphanumericAt(s, p) == Some(e)
  {
    var v := s[p..e];
    assert v[d] == s[p + d];
    forall i | p <= i < p + d ensures InClass(s[i], Letters) {
      assert v[i - p] == s[i];
    }
    forall i | p + d < i < e ensures InClass(s[i], Alnums) {
      assert v[i - p] == s[i];
    }
    RunEndIs(s, p, p + d, Letters);
    RunStopsAtBoundary(s, e, Alnums);
    RunEndIs(s, p + d + 1, e, Alnums);
  }

  /** The finditer patterns tried at `p`. */
  function MatchEnd(pat: Pattern, s: string, p: nat): (e: Option<nat>)
    requires pat != Labeled && p <= |s|
    ensures e.Some? ==> p < e.value <= |s| && Shaped(pat, s[p..e.value])
  {
    match pat
    case TubiFormat => TubiAt(s, p)
    case Numeric => NumericAt(s, p)
    case Alphanumeric => AlphanumericAt(s, p)
  }

  /** `re.finditer` from `p`: each match in turn, the scan resuming where the last one ended. */
  function FindAll(pat: Pattern, s: string, p: nat): (vs: seq<string>)
    requires pat != Labeled && p <= |s|
    ensures forall k :: 0 <= k < |vs| ==> Shaped(pat, vs[k])
    decreases |s| - p
  {
    if p == |s| then []
    else match MatchEnd(pat, s, p)
      case Some(e) => [s[p..e]] + FindAll(pat, s, e)
      case None => FindAll(pat, s, p + 1)
  }
}
