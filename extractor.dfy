/**
 * The extractor end to end: read the text, collect candidates, deduplicate,
 * score, sort, and build the result record
 * `{ok, order_number, provenance, all_candidates, scores}`.
 */
module Extractor {
  import opened Chars
  import opened Patterns
  import opened Candidates
  import opened Filtering
  import opened Scoring
  import opened Ranking

  /** The result dictionary. */
  datatype Extraction = Extraction(
    ok: bool,
    orderNumber: string,
    provenance: string,
    allCandidates: seq<string>,
    scores: map<string, int>)

  /** The record returned when no candidate survives the dedup loop. */
  const NotFound := Extraction(false, "UNKNOWN", "NO_ORDER_NUMBER_FOUND", [], map[])

  /** The record returned when an exception escapes; `message` is `str(e)`. */
  function ExtractionError(message: string): Extraction
  {
    Extraction(false, "ERROR", "EXTRACTION_ERROR: " + message, [], map[])
  }

  /** What opening and reading the file gives: its text, or the message of the exception raised. */
  datatype Source = Text(text: string) | Unreadable(message: string)

  /** The pattern tag as the record spells it. */
  function PatternName(pat: Pattern): string
  {
    match pat
    case Labeled => "labeled"
    case TubiFormat => "tubi_format"
    case Numeric => "numeric"
    case Alphanumeric => "alphanumeric"
  }

  /** The item the scoring loop appends for one dictionary entry. */
  function Scored(e: Entry): Ranked
  {
    Ranked(e.key, Score(e.key, e.cand.pattern), e.cand.pattern, e.cand.context)
  }

  /** `scored_candidates` before sorting: one item per dictionary entry, in insertion order. */
  function Rank(u: seq<Entry>): (s: seq<Ranked>)
    ensures |s| == |u|
    ensures forall k :: 0 <= k < |u| ==> s[k] == Scored(u[k])
  {
    if u == [] then [] else Rank(u[..|u| - 1]) + [Scored(u[|u| - 1])]
  }

  /** The provenance string of the chosen item. */
  function Provenance(best: Ranked): string
  {
    "FOUND_" + best.value + "_pattern_" + PatternName(best.pattern) + "_score_" + IntString(best.score)
  }

  /** Stages 4 to 6 on the deduplicated dictionary: score, sort, and build the record. */
  function Outcome(u: seq<Entry>): Extraction
  {
    if u == [] then NotFound
    else
      var ranked := SortByScore(Rank(u));
      Extraction(true, ranked[0].value, Provenance(ranked[0]), Values(ranked), ScoreMap(ranked))
  }

  /** Stages 3 to 6 on a candidate list. */
  function Select(cands: seq<Candidate>): Extraction
  {
    Outcome(Unique(cands))
  }

  /** The whole extractor on what reading the file gave. */
  function Extract(source: Source): Extraction
  {
    match source
    case Unreadable(message) => ExtractionError(message)
    case Text(text) => Select(CandidatesOf(text))
  }

  /** The scoring loop. */
  method ScoreAll(unique: seq<Entry>) returns (scored: seq<Ranked>)
    ensures scored == Rank(unique)
  {
    scored := [];
    for k := 0 to |unique|
      invariant scored == Rank(unique[..k])
    {
      var value, cand := unique[k].key, unique[k].cand;
      var score := ScoreCandidate(value, cand.pattern);
      assert unique[..k + 1][..k] == unique[..k];
      scored := scored + [Ranked(value, score, cand.pattern, cand.context)];
    }
    assert unique[..|unique|] == unique;
  }

  /** `extract_order_number`, with the file's contents (or the read failure) given. */
  method ExtractOrderNumber(source: Source) returns (result: Extraction)
    ensures result == Extract(source)
  {
    match source {
      case Unreadable(message) =>
        result := ExtractionError(message);
      case Text(text) =>
        var candidates := CollectCandidates(text);
        var unique := Deduplicate(candidates);
        if |unique| == 0 {
          result := NotFound;
        } else {
          var scored := ScoreAll(unique);
          var ranked := SortByScore(scored);
          var best := ranked[0];
          result := Extraction(true, best.value, Provenance(best), Values(ranked), ScoreMap(ranked));
        }
    }
  }

  /** The unsorted items' values are the dictionary's keys, and they are distinct when the keys are. */
  lemma RankedValuesAreKeys(u: seq<Entry>)
    ensures Values(Rank(u)) == Keys(u)
    ensures DistinctKeys(u) ==> DistinctValues(Rank(u))
  {
  }

  /** With entries, the record is the sorted items' record. */
  lemma OutcomeOfEntries(u: seq<Entry>)
    requires u != []
    ensures var r := SortByScore(Rank(u));
            Outcome(u) == Extraction(true, r[0].value, Provenance(r[0]), Values(r), ScoreMap(r))
  {
  }

  /** With entries, `all_candidates` lists every key exactly once and nothing else. */
  lemma OutcomeListsKeys(u: seq<Entry>)
    requires DistinctKeys(u) && u != []
    ensures Outcome(u).ok
    ensures |Outcome(u).allCandidates| == |u|
    ensures forall i, j :: 0 <= i < j < |u| ==> Outcome(u).allCandidates[i] != Outcome(u).allCandidates[j]
    ensures forall v :: v in Outcome(u).allCandidates <==> v in Keys(u)
  {
    var scored := Rank(u);
    RankedValuesAreKeys(u);
    OutcomeOfEntries(u);
    SortedValuesDistinct(scored);
    SortedValuesSame(scored);
  }

  /**
   * With entries, `scores` maps exactly the keys, each to the score of the
   * key with the pattern of the candidate stored under it.
   */
  lemma OutcomeScoresKeys(u: seq<Entry>)
    requires DistinctKeys(u) && u != []
    ensures forall v :: v in Outcome(u).scores <==> v in Keys(u)
    ensures forall k :: 0 <= k < |u| ==>
              u[k].key in Outcome(u).scores && Outcome(u).scores[u[k].key] == Score(u[k].key, u[k].cand.pattern)
  {
    var scored := Rank(u);
    RankedValuesAreKeys(u);
    OutcomeOfEntries(u);
    SortedValuesSame(scored);
    ScoreMapKeys(SortByScore(scored));
    SortedScoreLookup(scored);
  }

  /** With entries, `all_candidates` is ordered by descending score. */
  lemma OutcomeOrdersByScore(u: seq<Entry>)
    requires DistinctKeys(u) && u != []
    ensures forall i, j :: 0 <= i < j < |Outcome(u).allCandidates| ==>
              Outcome(u).allCandidates[i] in Outcome(u).scores && Outcome(u).allCandidates[j] in Outcome(u).scores &&
              Outcome(u).scores[Outcome(u).allCandidates[i]] >= Outcome(u).scores[Outcome(u).allCandidates[j]]
  {
    var scored := Rank(u);
    var r := SortByScore(scored);
    RankedValuesAreKeys(u);
    OutcomeOfEntries(u);
    SortKeepsValuesDistinct(scored);
    ScoreMapLookup(r);
  }

  /** With entries, keys with equal scores keep the dictionary's insertion order in `all_candidates`. */
  lemma OutcomeKeepsTies(u: seq<Entry>)
    requires DistinctKeys(u) && u != []
    ensures forall i, j :: (0 <= i < j < |Outcome(u).allCandidates| &&
              Outcome(u).allCandidates[i] in Outcome(u).scores && Outcome(u).allCandidates[j] in Outcome(u).scores &&
              Outcome(u).scores[Outcome(u).allCandidates[i]] == Outcome(u).scores[Outcome(u).allCandidates[j]]) ==>
              exists a, b :: 0 <= a < b < |u| && u[a].key == Outcome(u).allCandidates[i] && u[b].key == Outcome(u).allCandidates[j]
  {
    var scored := Rank(u);
    var r := SortByScore(scored);
    RankedValuesAreKeys(u);
    OutcomeOfEntries(u);
    SortKeepsValuesDistinct(scored);
    ScoreMapLookup(r);
    SortedTiesByValue(scored);
    TiesAmongKeys(u, scored, r);
  }

  /** Ties of a list sorted from the scored entries, read through its score map, are pairs of keys in insertion order. */
  lemma TiesAmongKeys(u: seq<Entry>, scored: seq<Ranked>, r: seq<Ranked>)
    requires |scored| == |u| && |r| == |u| && Values(scored) == Keys(u)
    requires forall k :: 0 <= k < |r| ==> ScoreMap(r)[r[k].value] == r[k].score
    requires forall i, j :: 0 <= i < j < |scored| && r[i].score == r[j].score ==>
               exists a, b :: 0 <= a < b < |scored| && scored[a].value == Values(r)[i] && scored[b].value == Values(r)[j]
    ensures forall i, j :: (0 <= i < j < |Values(r)| &&
              Values(r)[i] in ScoreMap(r) && Values(r)[j] in ScoreMap(r) &&
              ScoreMap(r)[Values(r)[i]] == ScoreMap(r)[Values(r)[j]]) ==>
              exists a, b :: 0 <= a < b < |u| && u[a].key == Values(r)[i] && u[b].key == Values(r)[j]
  {
    var vs, m := Values(r), ScoreMap(r);
    forall i, j | 0 <= i < j < |vs|
      ensures (vs[i] in m && vs[j] in m && m[vs[i]] == m[vs[j]]) ==>
              exists a, b :: 0 <= a < b < |u| && u[a].key == vs[i] && u[b].key == vs[j]
    {
      if m[r[i].value] == m[r[j].value] {
        var a, b :| 0 <= a < b < |scored| && scored[a].value == vs[i] && scored[b].value == vs[j];
        assert Values(scored)[a] == Keys(u)[a] && Values(scored)[b] == Keys(u)[b];
      }
    }
  }


  /**
   * With entries, `order_number` is the first of `all_candidates`, and the
   * provenance spells out its value, the pattern it was found by and its score.
   */
  lemma OutcomeNamesBest(u: seq<Entry>)
    requires u != []
    ensures Outcome(u).allCandidates != [] && Outcome(u).orderNumber == Outcome(u).allCandidates[0]
    ensures exists k :: 0 <= k < |u| && u[k].key == Outcome(u).orderNumber &&
              Outcome(u).provenance == "FOUND_" + u[k].key + "_pattern_" + PatternName(u[k].cand.pattern) +
                "_score_" + IntString(Score(u[k].key, u[k].cand.pattern))
  {
    var scored := Rank(u);
    var r := SortByScore(scored);
    OutcomeOfEntries(u);
    SortedIsRearrangement(scored);
    assert r[0] in scored;
    var k :| 0 <= k < |u| && r[0] == scored[k];
  }

  /** `ok` is clear exactly when no candidate has an admissible stripped value, and then the record is "not found". */
  lemma SelectNotFound(cands: seq<Candidate>)
    ensures !Select(cands).ok <==> forall i :: 0 <= i < |cands| ==> !Admissible(Strip(cands[i].value))
    ensures !Select(cands).ok ==> Select(cands) == NotFound
  {
    UniqueIsComplete(cands);
    var u := Unique(cands);
    if u != [] {
      UniqueEntriesAreKept(cands);
      assert Kept(cands, u[0]);
      var i :| 0 <= i < |cands| && cands[i] == u[0].cand;
      assert Admissible(Strip(cands[i].value));
    }
  }

  /** With entries, `order_number` has the highest score of all. */
  lemma OutcomePicksHighest(u: seq<Entry>)
    requires DistinctKeys(u) && u != []
    ensures Outcome(u).orderNumber in Outcome(u).scores
    ensures forall v :: v in Outcome(u).scores ==> Outcome(u).scores[v] <= Outcome(u).scores[Outcome(u).orderNumber]
  {
    OutcomeListsKeys(u);
    OutcomeScoresKeys(u);
    OutcomeOrdersByScore(u);
    OutcomeNamesBest(u);
    HeadOfOrderedListScoresMost(Outcome(u));
  }

  /** A record whose list is ordered by score and covers the scored values names a value with the top score. */
  lemma HeadOfOrderedListScoresMost(r: Extraction)
    requires r.allCandidates != [] && r.orderNumber == r.allCandidates[0]
    requires forall v :: v in r.scores <==> v in r.allCandidates
    requires forall i, j :: 0 <= i < j < |r.allCandidates| ==>
               r.allCandidates[i] in r.scores && r.allCandidates[j] in r.scores &&
               r.scores[r.allCandidates[i]] >= r.scores[r.allCandidates[j]]
    ensures r.orderNumber in r.scores
    ensures forall v :: v in r.scores ==> r.scores[v] <= r.scores[r.orderNumber]
  {
    assert r.allCandidates[0] in r.scores;
    forall v | v in r.scores ensures r.scores[v] <= r.scores[r.orderNumber] {
      var j :| 0 <= j < |r.allCandidates| && r.allCandidates[j] == v;
      if j > 0 {
        assert r.scores[r.allCandidates[0]] >= r.scores[r.allCandidates[j]];
      }
    }
  }

  /** With entries whose keys were first seen in order, equal-score values appear in first-seen order. */
  lemma OutcomeTiesInFirstSeenOrder(cands: seq<Candidate>, u: seq<Entry>)
    requires DistinctKeys(u) && u != [] && SeenInOrder(cands, u)
    ensures forall i, j :: (0 <= i < j < |Outcome(u).allCandidates| &&
              Outcome(u).allCandidates[i] in Outcome(u).scores && Outcome(u).allCandidates[j] in Outcome(u).scores &&
              Outcome(u).scores[Outcome(u).allCandidates[i]] == Outcome(u).scores[Outcome(u).allCandidates[j]]) ==>
              FirstIndex(cands, Outcome(u).allCandidates[i]) < FirstIndex(cands, Outcome(u).allCandidates[j])
  {
    var r := Outcome(u);
    OutcomeKeepsTies(u);
    forall i, j | 0 <= i < j < |r.allCandidates| && r.allCandidates[i] in r.scores && r.allCandidates[j] in r.scores &&
                  r.scores[r.allCandidates[i]] == r.scores[r.allCandidates[j]]
      ensures FirstIndex(cands, r.allCandidates[i]) < FirstIndex(cands, r.allCandidates[j])
    {
      var a, b :| 0 <= a < b < |u| && u[a].key == r.allCandidates[i] && u[b].key == r.allCandidates[j];
    }
  }

  /** With entries first seen in order, every other value with the top score was first seen after `order_number`. */
  lemma OutcomeBestSeenFirst(cands: seq<Candidate>, u: seq<Entry>)
    requires DistinctKeys(u) && u != [] && SeenInOrder(cands, u)
    ensures forall v :: (v in Outcome(u).scores && v != Outcome(u).orderNumber &&
              Outcome(u).scores[v] == Outcome(u).scores[Outcome(u).orderNumber]) ==>
              FirstIndex(cands, Outcome(u).orderNumber) < FirstIndex(cands, v)
  {
    OutcomeTiesInFirstSeenOrder(cands, u);
    OutcomeListsKeys(u);
    OutcomeScoresKeys(u);
    OutcomeNamesBest(u);
    OutcomePicksHighest(u);
    TiesWithHeadSeenLater(cands, Outcome(u));
  }

  /** In a record whose equal-score values are listed in first-seen order, the head's ties were seen after it. */
  lemma TiesWithHeadSeenLater(cands: seq<Candidate>, r: Extraction)
    requires r.allCandidates != [] && r.orderNumber == r.allCandidates[0]
    requires r.orderNumber in r.scores && forall v :: v in r.scores ==> v in r.allCandidates
    requires forall i, j :: (0 <= i < j < |r.allCandidates| &&
               r.allCandidates[i] in r.scores && r.allCandidates[j] in r.scores &&
               r.scores[r.allCandidates[i]] == r.scores[r.allCandidates[j]]) ==>
               FirstIndex(cands, r.allCandidates[i]) < FirstIndex(cands, r.allCandidates[j])
    ensures forall v :: (v in r.scores && v != r.orderNumber && r.scores[v] == r.scores[r.orderNumber]) ==>
              FirstIndex(cands, r.orderNumber) < FirstIndex(cands, v)
  {
    forall v | v in r.scores && v != r.orderNumber && r.scores[v] == r.scores[r.orderNumber]
      ensures FirstIndex(cands, r.orderNumber) < FirstIndex(cands, v)
    {
      var j :| 0 <= j < |r.allCandidates| && r.allCandidates[j] == v;
      assert 0 < j;
    }
  }

  /**
   * When found, the order number has the highest score of all, and every
   * other value with that score was first seen after it.
   */
  lemma SelectPicksBest(cands: seq<Candidate>)
    requires Select(cands).ok
    ensures Select(cands).orderNumber in Select(cands).scores
    ensures forall v :: v in Select(cands).scores ==> Select(cands).scores[v] <= Select(cands).scores[Select(cands).orderNumber]
    ensures forall v :: (v in Select(cands).scores && v != Select(cands).orderNumber &&
              Select(cands).scores[v] == Select(cands).scores[Select(cands).orderNumber]) ==>
              FirstIndex(cands, Select(cands).orderNumber) < FirstIndex(cands, v)
  {
    var u := Unique(cands);
    UniqueKeysAreDistinct(cands);
    UniqueKeysInFirstSeenOrder(cands);
    OutcomePicksHighest(u);
    OutcomeBestSeenFirst(cands, u);
  }

  /** When found, values with equal scores appear in `all_candidates` in the order they were first seen. */
  lemma SelectKeepsTiesInFirstSeenOrder(cands: seq<Candidate>)
    requires Select(cands).ok
    ensures forall i, j :: (0 <= i < j < |Select(cands).allCandidates| &&
              Select(cands).allCandidates[i] in Select(cands).scores &&
              Select(cands).allCandidates[j] in Select(cands).scores &&
              Select(cands).scores[Select(cands).allCandidates[i]] == Select(cands).scores[Select(cands).allCandidates[j]]) ==>
              FirstIndex(cands, Select(cands).allCandidates[i]) < FirstIndex(cands, Select(cands).allCandidates[j])
  {
    UniqueKeysAreDistinct(cands);
    UniqueKeysInFirstSeenOrder(cands);
    OutcomeTiesInFirstSeenOrder(cands, Unique(cands));
  }

  /** The sentinel order numbers are alphabetic, so the dedup loop would never keep them. */
  lemma SentinelsAreInadmissible()
    ensures !Admissible("UNKNOWN") && !Admissible("ERROR")
  {
    assert IsAlpha("UNKNOWN") && IsAlpha("ERROR");
  }

  /**
   * When found, the order number is admissible, so it is never the sentinel
   * "UNKNOWN" or "ERROR" of the other two records.
   */
  lemma SelectFindsAdmissibleValue(cands: seq<Candidate>)
    requires Select(cands).ok
    ensures Admissible(Select(cands).orderNumber)
    ensures Select(cands).orderNumber != "UNKNOWN" && Select(cands).orderNumber != "ERROR"
  {
    var u := Unique(cands);
    UniqueKeysAreDistinct(cands);
    OutcomeNamesBest(u);
    var k :| 0 <= k < |u| && u[k].key == Select(cands).orderNumber;
    UniqueEntriesAreKept(cands);
    assert Kept(cands, u[k]);
    SentinelsAreInadmissible();
  }

  /** When found, the order number is the stripped value of one of the candidates. */
  lemma SelectValueComesFromCandidate(cands: seq<Candidate>)
    requires Select(cands).ok
    ensures exists i :: 0 <= i < |cands| && Strip(cands[i].value) == Select(cands).orderNumber
  {
    var u := Unique(cands);
    UniqueKeysAreDistinct(cands);
    OutcomeNamesBest(u);
    var k :| 0 <= k < |u| && u[k].key == Select(cands).orderNumber;
    var c := u[k].cand;
    UniqueEntriesAreKept(cands);
    assert Kept(cands, u[k]);
    var i :| 0 <= i < |cands| && cands[i] == c;
  }

  /** A text with no line that mentions an order number yields the "not found" record. */
  lemma NoKeywordNoOrderNumber(text: string)
    requires forall i :: 0 <= i < |SplitLines(text)| ==> !MentionsOrderNumber(SplitLines(text)[i])
    ensures Extract(Text(text)) == NotFound
  {
    NoKeywordNoCandidates(SplitLines(text), |SplitLines(text)|);
  }

  lemma {:induction false} NoKeywordNoCandidates(lines: seq<string>, n: nat)
    requires n <= |lines|
    requires forall i :: 0 <= i < n ==> !MentionsOrderNumber(lines[i])
    ensures CandidatesOfLines(lines, n) == []
  {
    if n > 0 {
      NoKeywordNoCandidates(lines, n - 1);
    }
  }

  /**
   * Whatever a tubi_format, numeric or alphanumeric recogniser finds survives
   * the dedup loop, so one such candidate is enough for `ok` to be set.
   */
  lemma RecognisedValueMeansFound(text: string)
    requires exists c :: c in CandidatesOf(text) && c.pattern != Labeled
    ensures Extract(Text(text)).ok
  {
    var cands := CandidatesOf(text);
    var lines := SplitLines(text);
    CandidatesWellFormed(lines, |lines|);
    var c :| c in cands && c.pattern != Labeled;
    RecognisedValueIsAdmissible(c);
    var i :| 0 <= i < |cands| && cands[i] == c;
    SelectNotFound(cands);
  }
}
