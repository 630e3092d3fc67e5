/**
 * Stage 5 of the extractor: `scored_candidates.sort(key=score, reverse=True)`.
 * Python's sort is stable, and with `reverse=True` items of equal score keep
 * their original order.  The sort is modelled by a stable insertion sort and
 * characterised independently of the algorithm: the result is non-increasing,
 * a permutation of the input, and keeps the input's order within each score,
 * and these properties determine it completely.
 */
module Ranking {
  import opened Patterns

  /** One item of `scored_candidates`. */
  datatype Ranked = Ranked(value: string, score: int, pattern: Pattern, context: string)

  /** Scores never go up along `s`. */
  predicate NonIncreasing(s: seq<Ranked>) {
    forall i, j :: 0 <= i < j < |s| ==> s[i].score >= s[j].score
  }

  /** The slot at which `Insert` puts `x`: after every leading item scoring at least as much. */
  function InsertPosition(x: Ranked, s: seq<Ranked>): (p: nat)
    ensures p <= |s|
    ensures forall k :: 0 <= k < p ==> s[k].score >= x.score
    ensures p < |s| ==> s[p].score < x.score
  {
    if s == [] then 0
    else if s[0].score >= x.score then 1 + InsertPosition(x, s[1..])
    else 0
  }

  /** Puts `x` after every item of `s` that scores at least as much as `x`. */
  function Insert(x: Ranked, s: seq<Ranked>): (r: seq<Ranked>)
    ensures |r| == |s| + 1
    ensures multiset(r) == multiset(s) + multiset{x}
  {
    var p := InsertPosition(x, s);
    assert s == s[..p] + s[p..];
    s[..p] + [x] + s[p..]
  }

  /** Where item `k` of `Insert(x, s)` comes from. */
  lemma InsertIndex(x: Ranked, s: seq<Ranked>, k: nat)
    requires k <= |s|
    ensures Insert(x, s)[k] == (if k < InsertPosition(x, s) then s[k] else if k == InsertPosition(x, s) then x else s[k - 1])
  {
  }

  /** The list sorted by descending score, earlier items first among equals. */
  function SortByScore(s: seq<Ranked>): (r: seq<Ranked>)
    ensures |r| == |s|
    ensures multiset(r) == multiset(s)
    ensures NonIncreasing(r)
  {
    if s == [] then []
    else
      var init := s[..|s| - 1];
      assert s == init + [s[|s| - 1]];
      InsertKeepsOrder(s[|s| - 1], SortByScore(init));
      Insert(s[|s| - 1], SortByScore(init))
  }

  lemma InsertKeepsOrder(x: Ranked, s: seq<Ranked>)
    requires NonIncreasing(s)
    ensures NonIncreasing(Insert(x, s))
  {
    var r := Insert(x, s);
    forall i, j | 0 <= i < j < |r| ensures r[i].score >= r[j].score {
      InsertIndex(x, s, i);
      InsertIndex(x, s, j);
    }
  }

  /** Every pair of equal-score items of `r` occurs in the same order in `s`. */
  ghost predicate TiesOrderedAsIn(r: seq<Ranked>, s: seq<Ranked>) {
    forall i, j :: 0 <= i < j < |r| && r[i].score == r[j].score ==>
      exists a, b :: 0 <= a < b < |s| && s[a] == r[i] && s[b] == r[j]
  }

  lemma InsertKeepsTies(x: Ranked, r0: seq<Ranked>, init: seq<Ranked>)
    requires NonIncreasing(r0) && forall y :: y in r0 ==> y in init
    requires TiesOrderedAsIn(r0, init)
    ensures TiesOrderedAsIn(Insert(x, r0), init + [x])
  {
    var s := init + [x];
    var p := InsertPosition(x, r0);
    var r := Insert(x, r0);
    forall i, j | 0 <= i < j < |r| && r[i].score == r[j].score
      ensures exists a, b :: 0 <= a < b < |s| && s[a] == r[i] && s[b] == r[j]
    {
      InsertIndex(x, r0, i);
      InsertIndex(x, r0, j);
      if j == p {
        OrderedBeforeLast(init, x, r0[i]);
      } else if i != p {
        var i0 := if i < p then i else i - 1;
        var j0 := if j < p then j else j - 1;
        OrderedBeforeAppend(init, x, r0[i0], r0[j0]);
      }
    }
  }

  /** An item of `init` comes before `x` in `init + [x]`. */
  lemma OrderedBeforeLast(init: seq<Ranked>, x: Ranked, y: Ranked)
    requires y in init
    ensures exists a, b :: 0 <= a < b < |init + [x]| && (init + [x])[a] == y && (init + [x])[b] == x
  {
    var a :| 0 <= a < |init| && init[a] == y;
    assert (init + [x])[a] == y && (init + [x])[|init|] == x;
  }

  /** Two items in order in `init` stay in order in `init + [x]`. */
  lemma OrderedBeforeAppend(init: seq<Ranked>, x: Ranked, y: Ranked, z: Ranked)
    requires exists a, b :: 0 <= a < b < |init| && init[a] == y && init[b] == z
    ensures exists a, b :: 0 <= a < b < |init + [x]| && (init + [x])[a] == y && (init + [x])[b] == z
  {
    var a, b :| 0 <= a < b < |init| && init[a] == y && init[b] == z;
    assert (init + [x])[a] == y && (init + [x])[b] == z;
  }

  /** Ties keep their order: equal-score items appear in the order they had in `s`. */
  lemma {:induction false} SortKeepsTies(s: seq<Ranked>)
    ensures TiesOrderedAsIn(SortByScore(s), s)
  {
    if s != [] {
      var n := |s| - 1;
      SortKeepsTies(s[..n]);
      SortedIsRearrangement(s[..n]);
      InsertKeepsTies(s[n], SortByScore(s[..n]), s[..n]);
      assert s == s[..n] + [s[n]];
    }
  }

  /** The items of `s` that score `v`, in order. */
  function WithScore(s: seq<Ranked>, v: int): (t: seq<Ranked>)
    ensures |t| <= |s|
  {
    if s == [] then []
    else (if s[0].score == v then [s[0]] else []) + WithScore(s[1..], v)
  }

  lemma {:induction false} WithScoreAppend(a: seq<Ranked>, b: seq<Ranked>, v: int)
    ensures WithScore(a + b, v) == WithScore(a, v) + WithScore(b, v)
  {
    if a != [] {
      assert (a + b)[0] == a[0] && (a + b)[1..] == a[1..] + b;
      WithScoreAppend(a[1..], b, v);
    } else {
      assert a + b == b;
    }
  }

  lemma {:induction false} WithScoreNone(s: seq<Ranked>, v: int)
    requires forall k :: 0 <= k < |s| ==> s[k].score != v
    ensures WithScore(s, v) == []
  {
    if s != [] {
      WithScoreNone(s[1..], v);
    }
  }

  /** In a non-increasing list, everything after the insertion slot scores less than the inserted item. */
  lemma InsertBackBelow(x: Ranked, s: seq<Ranked>)
    requires NonIncreasing(s)
    ensures forall k :: InsertPosition(x, s) <= k < |s| ==> s[k].score < x.score
  {
    var p := InsertPosition(x, s);
    forall k | p <= k < |s| ensures s[k].score < x.score {
      assert s[p].score >= s[k].score;
    }
  }

  /** Inserting `x` into a sorted list adds it at the end of its own score class. */
  lemma InsertWithScore(x: Ranked, s: seq<Ranked>, v: int)
    requires NonIncreasing(s)
    ensures WithScore(Insert(x, s), v) == WithScore(s, v) + (if x.score == v then [x] else [])
  {
    var p := InsertPosition(x, s);
    var front, back := s[..p], s[p..];
    InsertBackBelow(x, s);
    forall k | 0 <= k < |back| ensures back[k].score < x.score {
      assert back[k] == s[p + k];
    }
    assert s == front + back;
    WithScoreSplit(front, x, back, v);
  }

  lemma WithScoreSplit(front: seq<Ranked>, x: Ranked, back: seq<Ranked>, v: int)
    requires forall k :: 0 <= k < |back| ==> back[k].score < x.score
    ensures WithScore(front + [x] + back, v) == WithScore(front + back, v) + (if x.score == v then [x] else [])
  {
    WithScoreAround(front, x, back, v);
    WithScoreAppend(front, back, v);
    if x.score == v {
      WithScoreNone(back, v);
    }
  }

  lemma WithScoreAround(front: seq<Ranked>, x: Ranked, back: seq<Ranked>, v: int)
    ensures WithScore(front + [x] + back, v) == WithScore(front, v) + (if x.score == v then [x] else []) + WithScore(back, v)
  {
    WithScoreAppend(front + [x], back, v);
    WithScoreAppend(front, [x], v);
    assert WithScore([x], v) == (if x.score == v then [x] else []) + WithScore([], v);
  }

  /**
   * Stability stated class by class: for every score, the items of the sorted
   * list with that score are exactly the input's, in the input's order.
   */
  lemma {:induction false} SortIsStable(s: seq<Ranked>)
    ensures forall v :: WithScore(SortByScore(s), v) == WithScore(s, v)
  {
    if s != [] {
      var n := |s| - 1;
      var init := s[..n];
      SortIsStable(init);
      assert s == init + [s[n]];
      forall v ensures WithScore(SortByScore(s), v) == WithScore(s, v) {
        InsertWithScore(s[n], SortByScore(init), v);
        WithScoreAppend(init, [s[n]], v);
      }
    }
  }

  /** The sorted list holds the same items as the input. */
  lemma SortedIsRearrangement(s: seq<Ranked>)
    ensures forall x :: x in SortByScore(s) <==> x in s
  {
    var r := SortByScore(s);
    forall x ensures x in r <==> x in s {
      assert x in r <==> x in multiset(r);
      assert x in s <==> x in multiset(s);
    }
  }

  /** The first item of a non-increasing list is one of the items with the greatest score. */
  lemma HeadScoresMost(s: seq<Ranked>)
    requires NonIncreasing(s) && s != []
    ensures forall x :: x in s ==> x.score <= s[0].score
  {
  }

  /**
   * The three properties pin the result down: any non-increasing arrangement
   * of `s` with the same items in each score class is `SortByScore(s)`.  So
   * every stable descending sort, Timsort included, gives this list.
   */
  lemma {:induction false} StableOrderIsUnique(a: seq<Ranked>, b: seq<Ranked>)
    requires NonIncreasing(a) && NonIncreasing(b)
    requires forall v :: WithScore(a, v) == WithScore(b, v)
    ensures a == b
    decreases |a| + |b|
  {
    if a != [] {
      ClassOfHead(a);
    }
    if b != [] {
      ClassOfHead(b);
    }
    if a != [] && b != [] {
      var v := a[0].score;
      assert v == b[0].score && a[0] == b[0];
      forall u ensures WithScore(a[1..], u) == WithScore(b[1..], u) {
        var h := if v == u then [a[0]] else [];
        assert WithScore(a, u) == h + WithScore(a[1..], u);
        assert WithScore(b, u) == h + WithScore(b[1..], u);
        assert WithScore(a[1..], u) == WithScore(a, u)[|h|..];
        assert WithScore(b[1..], u) == WithScore(b, u)[|h|..];
      }
      NonIncreasingTail(a);
      NonIncreasingTail(b);
      StableOrderIsUnique(a[1..], b[1..]);
      assert a == [a[0]] + a[1..] && b == [b[0]] + b[1..];
    }
  }

  lemma NonIncreasingTail(s: seq<Ranked>)
    requires NonIncreasing(s) && s != []
    ensures NonIncreasing(s[1..])
  {
  }

  /** In a non-increasing list, the head's class starts with the head, and no item scores more. */
  lemma ClassOfHead(s: seq<Ranked>)
    requires NonIncreasing(s) && s != []
    ensures WithScore(s, s[0].score) != [] && WithScore(s, s[0].score)[0] == s[0]
    ensures forall v :: v > s[0].score ==> WithScore(s, v) == []
  {
    forall v | v > s[0].score ensures WithScore(s, v) == [] {
      WithScoreNone(s, v);
    }
  }

  /** `[c['value'] for c in scored_candidates]`. */
  function Values(s: seq<Ranked>): (vs: seq<string>)
    ensures |vs| == |s|
    ensures forall k :: 0 <= k < |s| ==> vs[k] == s[k].value
  {
    seq(|s|, k requires 0 <= k < |s| => s[k].value)
  }

  /** `{c['value']: c['score'] for c in scored_candidates}`; a later item would overwrite an earlier one. */
  function ScoreMap(s: seq<Ranked>): (m: map<string, int>)
    ensures m.Keys == set k | 0 <= k < |s| :: s[k].value
  {
    if s == [] then map[]
    else ScoreMap(s[..|s| - 1])[s[|s| - 1].value := s[|s| - 1].score]
  }

  /** With distinct values, the dictionary maps each value to its own item's score. */
  lemma {:induction false} ScoreMapLookup(s: seq<Ranked>)
    requires DistinctValues(s)
    ensures forall k :: 0 <= k < |s| ==> ScoreMap(s)[s[k].value] == s[k].score
  {
    if s != [] {
      var init := s[..|s| - 1];
      ScoreMapLookup(init);
      forall k | 0 <= k < |s| ensures ScoreMap(s)[s[k].value] == s[k].score {
        if k < |s| - 1 {
          assert init[k] == s[k];
        }
      }
    }
  }

  /** No two items share a value. */
  predicate DistinctValues(s: seq<Ranked>) {
    forall i, j :: 0 <= i < j < |s| ==> s[i].value != s[j].value
  }

  lemma InsertKeepsValuesDistinct(x: Ranked, r0: seq<Ranked>, init: seq<Ranked>)
    requires forall y :: y in r0 ==> y in init
    requires DistinctValues(r0) && DistinctValues(init + [x])
    ensures DistinctValues(Insert(x, r0))
  {
    var n := |init|;
    var r := Insert(x, r0);
    forall k | 0 <= k < |r0| ensures r0[k].value != x.value {
      assert r0[k] in init;
      var a :| 0 <= a < n && init[a] == r0[k];
      assert (init + [x])[a] == r0[k] && (init + [x])[n] == x;
    }
    forall i, j | 0 <= i < j < |r| ensures r[i].value != r[j].value {
      InsertIndex(x, r0, i);
      InsertIndex(x, r0, j);
    }
  }

  /** Sorting never makes two items share a value. */
  lemma {:induction false} SortKeepsValuesDistinct(s: seq<Ranked>)
    requires DistinctValues(s)
    ensures DistinctValues(SortByScore(s))
  {
    if s != [] {
      var n := |s| - 1;
      assert s == s[..n] + [s[n]];
      assert DistinctValues(s[..n]) by {
        forall i | 0 <= i < n ensures s[..n][i] == s[i] { }
      }
      SortKeepsValuesDistinct(s[..n]);
      SortedIsRearrangement(s[..n]);
      InsertKeepsValuesDistinct(s[n], SortByScore(s[..n]), s[..n]);
    }
  }

  /** Sorting items with distinct values leaves each value in the list once. */
  lemma SortedValuesDistinct(s: seq<Ranked>)
    requires DistinctValues(s)
    ensures forall i, j :: 0 <= i < j < |s| ==> Values(SortByScore(s))[i] != Values(SortByScore(s))[j]
  {
    SortKeepsValuesDistinct(s);
  }

  /** The sorted list of values holds the same values as the unsorted one. */
  lemma SortedValuesSame(s: seq<Ranked>)
    ensures forall v :: v in Values(SortByScore(s)) <==> v in Values(s)
  {
    var r := SortByScore(s);
    SortedIsRearrangement(s);
    forall v | v in Values(r) ensures v in Values(s) {
      var j :| 0 <= j < |r| && Values(r)[j] == v;
      assert r[j] in s;
      var k :| 0 <= k < |s| && s[k] == r[j];
      assert Values(s)[k] == v;
    }
    forall v | v in Values(s) ensures v in Values(r) {
      var k :| 0 <= k < |s| && Values(s)[k] == v;
      assert s[k] in r;
      var j :| 0 <= j < |r| && r[j] == s[k];
      assert Values(r)[j] == v;
    }
  }

  /** The dictionary built from the sorted items with distinct values maps each value to its own item's score. */
  lemma SortedScoreLookup(s: seq<Ranked>)
    requires DistinctValues(s)
    ensures forall k :: 0 <= k < |s| ==> s[k].value in ScoreMap(SortByScore(s)) && ScoreMap(SortByScore(s))[s[k].value] == s[k].score
  {
    var r := SortByScore(s);
    SortKeepsValuesDistinct(s);
    SortedIsRearrangement(s);
    ScoreMapLookup(r);
    forall k | 0 <= k < |s| ensures s[k].value in ScoreMap(r) && ScoreMap(r)[s[k].value] == s[k].score {
      assert s[k] in r;
      var j :| 0 <= j < |r| && r[j] == s[k];
    }
  }

  /** The dictionary's keys are the list's values. */
  lemma ScoreMapKeys(s: seq<Ranked>)
    ensures forall v :: v in ScoreMap(s) <==> v in Values(s)
  {
  }

  /** Ties in the sorted list, stated on values: equal-score values keep their order in `s`. */
  lemma SortedTiesByValue(s: seq<Ranked>)
    ensures forall i, j :: 0 <= i < j < |s| && SortByScore(s)[i].score == SortByScore(s)[j].score ==>
              exists a, b :: 0 <= a < b < |s| && s[a].value == Values(SortByScore(s))[i] && s[b].value == Values(SortByScore(s))[j]
  {
    SortKeepsTies(s);
    TiesByValue(SortByScore(s), s);
  }

  lemma TiesByValue(r: seq<Ranked>, s: seq<Ranked>)
    requires |r| == |s| && TiesOrderedAsIn(r, s)
    ensures forall i, j :: 0 <= i < j < |s| && r[i].score == r[j].score ==>
              exists a, b :: 0 <= a < b < |s| && s[a].value == Values(r)[i] && s[b].value == Values(r)[j]
  {
    forall i, j | 0 <= i < j < |s| && r[i].score == r[j].score
      ensures exists a, b :: 0 <= a < b < |s| && s[a].value == Values(r)[i] && s[b].value == Values(r)[j]
    {
      var a, b :| 0 <= a < b < |s| && s[a] == r[i] && s[b] == r[j];
      assert s[a].value == Values(r)[i] && s[b].value == Values(r)[j];
    }
  }

}
