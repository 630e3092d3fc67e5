/**
 * Stage 3 of the extractor: the dedup loop that turns the candidate list
 * into `unique_candidates`, an insertion-ordered dictionary from stripped
 * value to the candidate it was first seen in, skipping stop words,
 * alphabetic values and values shorter than three characters.
 */
module Filtering {
  import opened Chars
  import opened Patterns
  import opened Candidates

  /** The words the dedup loop discards, compared in lower case. */
  const StopWords: seq<string> := ["and", "the", "for", "with", "from", "order", "number", "sent", "date"]

  /** A stripped value that the dedup loop keeps (when it has not seen it before). */
  predicate Admissible(v: string) {
    LowerString(v) !in StopWords && !IsAlpha(v) && |v| >= 3
  }

  /** One item of `unique_candidates`: the stripped value and the candidate stored under it. */
  datatype Entry = Entry(key: string, cand: Candidate)

  /** The dictionary's keys in insertion order. */
  function Keys(u: seq<Entry>): (ks: seq<string>)
    ensures |ks| == |u|
    ensures forall k :: 0 <= k < |u| ==> ks[k] == u[k].key
  {
    if u == [] then [] else Keys(u[..|u| - 1]) + [u[|u| - 1].key]
  }

  /** `unique_candidates` once the dedup loop has run over `cands`. */
  function Unique(cands: seq<Candidate>): (u: seq<Entry>)
    ensures |u| <= |cands|
  {
    if cands == [] then []
    else
      var prev := Unique(cands[..|cands| - 1]);
      var c := cands[|cands| - 1];
      var v := Strip(c.value);
      if v != "" && v !in Keys(prev) && Admissible(v) then prev + [Entry(v, c)] else prev
  }

  /** An entry the dedup loop may store: an admissible key, the stripped value of a candidate from `cands`. */
  predicate Kept(cands: seq<Candidate>, e: Entry) {
    Admissible(e.key) && e.key == Strip(e.cand.value) && e.cand in cands
  }

  /** No two dictionary entries share a key. */
  predicate DistinctKeys(u: seq<Entry>) {
    forall k, l :: 0 <= k < l < |u| ==> u[k].key != u[l].key
  }

  /** Every key is admissible and is the stripped value of the candidate stored under it. */
  lemma {:induction false} UniqueEntriesAreKept(cands: seq<Candidate>)
    ensures forall k :: 0 <= k < |Unique(cands)| ==> Kept(cands, Unique(cands)[k])
  {
    if cands != [] {
      var n := |cands| - 1;
      var init := cands[..n];
      UniqueEntriesAreKept(init);
      var prev, u := Unique(init), Unique(cands);
      forall k | 0 <= k < |u| ensures Kept(cands, u[k]) {
        if k < |prev| {
          assert u[k] == prev[k];
          assert prev[k].cand in init;
        }
      }
    }
  }

  /** The keys are distinct. */
  lemma {:induction false} UniqueKeysAreDistinct(cands: seq<Candidate>)
    ensures DistinctKeys(Unique(cands))
  {
    if cands != [] {
      var n := |cands| - 1;
      UniqueKeysAreDistinct(cands[..n]);
      var prev, u := Unique(cands[..n]), Unique(cands);
      if |u| > |prev| {
        var v := Strip(cands[n].value);
        assert u == prev + [Entry(v, cands[n])];
        forall k | 0 <= k < |prev| ensures prev[k].key != v {
          assert Keys(prev)[k] == prev[k].key;
        }
      }
    }
  }

  /** The dedup loop itself. */
  method Deduplicate(candidates: seq<Candidate>) returns (unique: seq<Entry>)
    ensures unique == Unique(candidates)
  {
    unique := [];
    for i := 0 to |candidates|
      invariant unique == Unique(candidates[..i])
    {
      assert candidates[..i + 1][..i] == candidates[..i];
      var cand := candidates[i];
      var value := Strip(cand.value);
      if value != "" && value !in Keys(unique) {
        if LowerString(value) in StopWords || IsAlpha(value) || |value| < 3 {
          continue;
        }
        unique := unique + [Entry(value, cand)];
      }
    }
    assert candidates[..|candidates|] == candidates;
  }

  /** The position at which `v` is first seen as a stripped value in `cands`, or `|cands|`. */
  function FirstIndex(cands: seq<Candidate>, v: string): (i: nat)
    ensures i <= |cands|
    ensures i < |cands| ==> Strip(cands[i].value) == v
    ensures forall j :: 0 <= j < i ==> Strip(cands[j].value) != v
  {
    if cands == [] then 0
    else if Strip(cands[0].value) == v then 0
    else 1 + FirstIndex(cands[1..], v)
  }

  lemma FirstIndexOfPrefix(cands: seq<Candidate>, n: nat, v: string)
    requires n <= |cands|
    requires FirstIndex(cands[..n], v) < n
    ensures FirstIndex(cands, v) == FirstIndex(cands[..n], v)
  {
    assert forall j :: 0 <= j < n ==> cands[..n][j] == cands[j];
  }

  /** No admissible value is lost: every admissible stripped value of a candidate is a key. */
  lemma {:induction false} UniqueIsComplete(cands: seq<Candidate>)
    ensures forall i :: 0 <= i < |cands| && Admissible(Strip(cands[i].value)) ==> Strip(cands[i].value) in Keys(Unique(cands))
  {
    if cands != [] {
      var n := |cands| - 1;
      var init := cands[..n];
      UniqueIsComplete(init);
      var prev := Unique(init);
      UniqueKeysGrow(cands);
      forall i | 0 <= i < |cands| && Admissible(Strip(cands[i].value))
        ensures Strip(cands[i].value) in Keys(Unique(cands))
      {
        if i < n {
          assert cands[i] == init[i];
        }
      }
    }
  }

  /** The dedup loop's step: the keys so far stay, and the last value is a key afterwards when admissible. */
  lemma UniqueKeysGrow(cands: seq<Candidate>)
    requires cands != []
    ensures forall w :: w in Keys(Unique(cands[..|cands| - 1])) ==> w in Keys(Unique(cands))
    ensures Admissible(Strip(cands[|cands| - 1].value)) ==> Strip(cands[|cands| - 1].value) in Keys(Unique(cands))
  {
    var prev, u := Unique(cands[..|cands| - 1]), Unique(cands);
    var v := Strip(cands[|cands| - 1].value);
    if v != "" && v !in Keys(prev) && Admissible(v) {
      assert Keys(u) == Keys(prev) + [v];
    }
  }

  /** First occurrence wins: each key holds the candidate at the key's first occurrence. */
  lemma {:induction false} UniqueEntriesFirstSeen(cands: seq<Candidate>)
    ensures forall k :: 0 <= k < |Unique(cands)| ==> FirstSeenAs(cands, Unique(cands)[k])
  {
    if cands != [] {
      var n := |cands| - 1;
      var init := cands[..n];
      UniqueEntriesFirstSeen(init);
      var prev, u := Unique(init), Unique(cands);
      forall k | 0 <= k < |prev| ensures FirstSeenAs(cands, prev[k]) {
        FirstSeenInPrefix(cands, n, prev[k]);
      }
      UniqueStep(cands);
      if u != prev {
        var e := Entry(Strip(cands[n].value), cands[n]);
        assert u == prev + [e];
        FirstSeenLast(cands, e.key);
        assert FirstSeenAs(cands, e);
        forall k | 0 <= k < |u| ensures FirstSeenAs(cands, u[k]) {
          if k < |prev| {
            assert u[k] == prev[k];
          }
        }
      }
    }
  }

  /** Keys in the dictionary's insertion order were first seen in that order in `cands`. */
  predicate SeenInOrder(cands: seq<Candidate>, u: seq<Entry>) {
    forall k, l :: 0 <= k < l < |u| ==> FirstIndex(cands, u[k].key) < FirstIndex(cands, u[l].key)
  }

  /** The dictionary keeps its keys in the order they were first seen. */
  lemma {:induction false} UniqueKeysInFirstSeenOrder(cands: seq<Candidate>)
    ensures SeenInOrder(cands, Unique(cands))
  {
    if cands != [] {
      var n := |cands| - 1;
      var init := cands[..n];
      UniqueKeysInFirstSeenOrder(init);
      UniqueEntriesFirstSeen(init);
      var prev, u := Unique(init), Unique(cands);
      forall k | 0 <= k < |prev| ensures FirstIndex(cands, prev[k].key) == FirstIndex(init, prev[k].key) < n {
        FirstSeenInPrefix(cands, n, prev[k]);
      }
      UniqueStep(cands);
      if u != prev {
        var v := Strip(cands[n].value);
        assert u == prev + [Entry(v, cands[n])];
        FirstSeenLast(cands, v);
      }
      forall k, l | 0 <= k < l < |u| ensures FirstIndex(cands, u[k].key) < FirstIndex(cands, u[l].key) {
        assert u[k] == prev[k];
        if l < |prev| {
          assert u[l] == prev[l];
        }
      }
    }
  }

  /** One step of the dedup loop: the last candidate's stripped value is added as a new key, or nothing changes. */
  lemma UniqueStep(cands: seq<Candidate>)
    requires cands != []
    ensures var prev, c := Unique(cands[..|cands| - 1]), cands[|cands| - 1];
            Unique(cands) == prev ||
            (Unique(cands) == prev + [Entry(Strip(c.value), c)] && Admissible(Strip(c.value)) && Strip(c.value) !in Keys(prev))
  {
  }

  /** An entry first seen within a prefix is first seen at the same place in the whole list. */
  lemma FirstSeenInPrefix(cands: seq<Candidate>, n: nat, e: Entry)
    requires n <= |cands|
    requires FirstSeenAs(cands[..n], e)
    ensures FirstIndex(cands, e.key) == FirstIndex(cands[..n], e.key) < n
    ensures FirstSeenAs(cands, e)
  {
    FirstIndexOfPrefix(cands, n, e.key);
    assert cands[..n][FirstIndex(cands[..n], e.key)] == cands[FirstIndex(cands[..n], e.key)];
  }

  /** A key the dedup loop adds for the last candidate is first seen at that candidate. */
  lemma FirstSeenLast(cands: seq<Candidate>, v: string)
    requires cands != [] && v == Strip(cands[|cands| - 1].value)
    requires Admissible(v) && v !in Keys(Unique(cands[..|cands| - 1]))
    ensures FirstIndex(cands, v) == |cands| - 1
  {
    var n := |cands| - 1;
    UniqueIsComplete(cands[..n]);
    forall j | 0 <= j < n ensures Strip(cands[j].value) != v {
      assert cands[..n][j] == cands[j];
    }
  }

  /** `e` holds the candidate at the first occurrence of its key. */
  predicate FirstSeenAs(cands: seq<Candidate>, e: Entry) {
    FirstIndex(cands, e.key) < |cands| && e.cand == cands[FirstIndex(cands, e.key)]
  }

  /** The stop list adds nothing to the alphabetic test: every stop word is alphabetic. */
  lemma StopWordsAreAlphabetic(v: string)
    requires LowerString(v) in StopWords
    ensures IsAlpha(v)
  {
    var w := LowerString(v);
    var k :| 0 <= k < |StopWords| && StopWords[k] == w;
    StopListIsAlphabetic(k);
    LowerStringAt(v);
    forall i | 0 <= i < |v| ensures IsLetter(v[i]) {
      assert IsLetter(w[i]);
    }
  }

  lemma StopListIsAlphabetic(k: nat)
    requires k < |StopWords|
    ensures IsAlpha(StopWords[k])
  {
  }


  /** So a value is admissible exactly when it has three or more characters and is not all letters. */
  lemma AdmissibleIffLongAndNotAlphabetic(v: string)
    ensures Admissible(v) <==> |v| >= 3 && !IsAlpha(v)
  {
    if LowerString(v) in StopWords {
      StopWordsAreAlphabetic(v);
    }
  }

  /**
   * Whatever the tubi_format, numeric and alphanumeric recognisers find is
   * unchanged by `strip()` and is admissible; only a labeled value can be
   * filtered out (for instance when it is alphabetic).
   */
  lemma RecognisedValueIsAdmissible(c: Candidate)
    requires WellFormedCandidate(c)
    ensures Strip(c.value) == c.value
    ensures c.pattern != Labeled ==> Admissible(c.value)
  {
    ShapedIsWellFormed(c.pattern, c.value);
    forall i | 0 <= i < |c.value| ensures !IsSpace(c.value[i]) {
      assert InClass(c.value[i], LabelChars);
    }
    AdmissibleIffLongAndNotAlphabetic(c.value);
  }
}
