/**
 * recipes/views.py, `match_recipes` and `api_match`: score every recipe against
 * the pantry, keep the good enough ones, rank them and cut the list.
 */
module Ranking {
  import opened PyStr
  import opened Models

  /** One entry of `scored`: the recipe's position in the scanned recipes and its score. */
  datatype Entry = Entry(recipe: nat, matched: nat, total: nat, pct: int, missing: int)

  /** The filter of views.py:252 and views.py:389. */
  predicate Keep(s: Score, minMatch: int): (b: bool)
    ensures s.total == 0 ==> !b
    ensures s.total > 0 && 0 <= s.pct && minMatch <= 0 ==> b
  {
    s.pct >= minMatch && s.total > 0
  }

  function EntryOf(i: nat, s: Score): Entry {
    Entry(i, s.matched, s.total, s.pct, s.total - s.matched)
  }

  /** The score of every scanned recipe. */
  function ScoresOf(recipes: seq<string>, pantry: set<string>, rnd: Rounding): (scores: seq<Score>)
    ensures |scores| == |recipes|
    ensures forall i :: 0 <= i < |recipes| ==> scores[i] == MatchScore(recipes[i], pantry, rnd)
  {
    seq(|recipes|, i requires 0 <= i < |recipes| => MatchScore(recipes[i], pantry, rnd))
  }

  /** The entries of the scores that pass the filter, in scan order. */
  function Kept(scores: seq<Score>, minMatch: int): seq<Entry>
  {
    if scores == [] then []
    else
      var n := |scores| - 1;
      Kept(scores[..n], minMatch) + (if Keep(scores[n], minMatch) then [EntryOf(n, scores[n])] else [])
  }

  /** `scored` after the loop of views.py:249-260 (and views.py:386-393). */
  function Scored(recipes: seq<string>, pantry: set<string>, rnd: Rounding, minMatch: int): seq<Entry> {
    Kept(ScoresOf(recipes, pantry, rnd), minMatch)
  }

  /** Every kept entry passed the filter, carries its recipe's score and `missing == total - matched >= 0`. */
  lemma {:induction false} KeptSound(scores: seq<Score>, minMatch: int)
    ensures forall e :: e in Kept(scores, minMatch) ==>
              e.recipe < |scores| && Keep(scores[e.recipe], minMatch)
              && e == EntryOf(e.recipe, scores[e.recipe])
  {
    if scores != [] {
      var n := |scores| - 1;
      var front := scores[..n];
      KeptSound(front, minMatch);
      assert forall j :: 0 <= j < n ==> front[j] == scores[j];
    }
  }

  /** Kept entries appear in increasing recipe order. */
  lemma {:induction false} KeptIncreasing(scores: seq<Score>, minMatch: int)
    ensures Increasing(Kept(scores, minMatch))
    ensures forall e :: e in Kept(scores, minMatch) ==> e.recipe < |scores|
  {
    if scores != [] {
      KeptIncreasing(scores[..|scores| - 1], minMatch);
    }
  }

  /** When no score has a positive total, nothing is kept. */
  lemma {:induction false} KeptNone(scores: seq<Score>, minMatch: int)
    requires forall i :: 0 <= i < |scores| ==> scores[i].total == 0
    ensures Kept(scores, minMatch) == []
  {
    if scores != [] {
      KeptNone(scores[..|scores| - 1], minMatch);
    }
  }

  /** Every score that passes the filter has an entry. */
  lemma {:induction false} KeptComplete(scores: seq<Score>, minMatch: int, i: nat)
    requires i < |scores| && Keep(scores[i], minMatch)
    ensures EntryOf(i, scores[i]) in Kept(scores, minMatch)
  {
    var n := |scores| - 1;
    if i < n {
      KeptComplete(scores[..n], minMatch, i);
      assert scores[..n][i] == scores[i];
    }
  }

  /** Entries of `scored` are exactly the recipes whose score passes the filter, each with
      `missing == total - matched >= 0`, in scan order (views.py:252-259). */
  lemma ScoredExact(recipes: seq<string>, pantry: set<string>, rnd: Rounding, minMatch: int)
    ensures forall e :: e in Scored(recipes, pantry, rnd, minMatch) ==>
              e.recipe < |recipes| && Keep(MatchScore(recipes[e.recipe], pantry, rnd), minMatch)
              && e == EntryOf(e.recipe, MatchScore(recipes[e.recipe], pantry, rnd))
              && e.missing == e.total - e.matched >= 0
    ensures forall i :: 0 <= i < |recipes| && Keep(MatchScore(recipes[i], pantry, rnd), minMatch) ==>
              EntryOf(i, MatchScore(recipes[i], pantry, rnd)) in Scored(recipes, pantry, rnd, minMatch)
    ensures Increasing(Scored(recipes, pantry, rnd, minMatch))
  {
    var scores := ScoresOf(recipes, pantry, rnd);
    KeptSound(scores, minMatch);
    KeptIncreasing(scores, minMatch);
    forall i | 0 <= i < |recipes| && Keep(MatchScore(recipes[i], pantry, rnd), minMatch)
      ensures EntryOf(i, MatchScore(recipes[i], pantry, rnd)) in Scored(recipes, pantry, rnd, minMatch)
    {
      KeptComplete(scores, minMatch, i);
    }
  }

  /** One more scanned score adds at most its own entry. */
  lemma KeptStep(scores: seq<Score>, minMatch: int, i: nat)
    requires i < |scores|
    ensures Kept(scores[..i + 1], minMatch)
            == Kept(scores[..i], minMatch) + (if Keep(scores[i], minMatch) then [EntryOf(i, scores[i])] else [])
  {
    assert scores[..i + 1][..i] == scores[..i];
  }

  /** An empty pantry scores no recipe (views.py:225-226 and views.py:378-379 return early with the same result). */
  lemma ScoredEmptyPantry(recipes: seq<string>, rnd: Rounding, minMatch: int)
    ensures Scored(recipes, {}, rnd, minMatch) == []
  {
    KeptNone(ScoresOf(recipes, {}, rnd), minMatch);
  }

  // ---------------------------------------------------------------- the stable sort

  /** Recipe positions strictly increase: the order the recipes were scanned in. */
  predicate Increasing(s: seq<Entry>) {
    forall i, j :: 0 <= i < j < |s| ==> s[i].recipe < s[j].recipe
  }

  /** `e` is ranked ahead of `f` by the key `(-pct, -matched)`, and, on equal keys, by the
      scan order that the stable sort keeps. */
  predicate Before(e: Entry, f: Entry): (b: bool)
    ensures b ==> e != f && e.pct >= f.pct
    ensures b && e.pct == f.pct ==> e.matched >= f.matched
    ensures e.recipe != f.recipe && (e.pct, e.matched) == (f.pct, f.matched) ==> (b <==> e.recipe < f.recipe)
  {
    e.pct > f.pct
    || (e.pct == f.pct && (e.matched > f.matched || (e.matched == f.matched && e.recipe < f.recipe)))
  }

  predicate Ranked(s: seq<Entry>) {
    forall i, j :: 0 <= i < j < |s| ==> Before(s[i], s[j])
  }

  /** `s` with `e` placed after every entry ranked ahead of it. */
  function Insert(s: seq<Entry>, e: Entry): (r: seq<Entry>)
    ensures multiset(r) == multiset(s) + multiset{e}
  {
    if s == [] then [e]
    else if Before(s[0], e) then
      assert s == [s[0]] + s[1..];
      [s[0]] + Insert(s[1..], e)
    else [e] + s
  }

  lemma {:induction false} InsertRanked(s: seq<Entry>, e: Entry)
    requires Ranked(s)
    requires forall x :: x in s ==> x.recipe < e.recipe
    ensures Ranked(Insert(s, e))
  {
    if s != [] && Before(s[0], e) {
      var t := s[1..];
      InsertRanked(t, e);
      var r := Insert(t, e);
      forall x | x in r ensures Before(s[0], x) {
        assert x in multiset(r);
        if x != e {
          assert x in multiset(t);
        }
      }
    }
  }

  /** The sort `scored.sort(key=lambda x: (-x['pct'], -x['matched']))`, done by insertion. */
  method SortScored(a: seq<Entry>) returns (b: seq<Entry>)
    requires Increasing(a)
    ensures Ranked(b)
    ensures multiset(b) == multiset(a)
  {
    b := [];
    var i := 0;
    while i < |a|
      invariant i <= |a|
      invariant Ranked(b)
      invariant multiset(b) == multiset(a[..i])
    {
      forall x | x in b ensures x.recipe < a[i].recipe {
        assert x in multiset(a[..i]);
        var k :| 0 <= k < i && a[k] == x;
      }
      InsertRanked(b, a[i]);
      b := Insert(b, a[i]);
      assert a[..i + 1] == a[..i] + [a[i]];
      i := i + 1;
    }
    assert a[..|a|] == a;
  }

  /** There is only one ranked order of given entries: the sort's result does not depend on how
      it is computed, so it is the result of Python's stable sort of the scan-ordered list. */
  lemma {:induction false} RankedUnique(a: seq<Entry>, b: seq<Entry>)
    requires Ranked(a) && Ranked(b) && multiset(a) == multiset(b)
    ensures a == b
    decreases |a|
  {
    if a == [] {
      assert |b| == |multiset(b)| == 0;
    } else {
      assert b != [] by { assert |b| == |multiset(b)| == |multiset(a)| == |a|; }
      RankedHead(a, b);
      MultisetTail(a);
      MultisetTail(b);
      RankedTail(a);
      RankedTail(b);
      RankedUnique(a[1..], b[1..]);
      assert a == [a[0]] + a[1..] && b == [b[0]] + b[1..];
    }
  }

  /** Two ranked orders of the same entries start with the same entry. */
  lemma RankedHead(a: seq<Entry>, b: seq<Entry>)
    requires Ranked(a) && Ranked(b) && multiset(a) == multiset(b) && a != [] && b != []
    ensures a[0] == b[0]
  {
    assert a[0] in multiset(b) && b[0] in multiset(a);
    var k :| 0 <= k < |b| && b[k] == a[0];
    var m :| 0 <= m < |a| && a[m] == b[0];
  }

  lemma MultisetTail(a: seq<Entry>)
    requires a != []
    ensures multiset(a[1..]) == multiset(a) - multiset{a[0]}
  {
    assert a == [a[0]] + a[1..];
  }

  lemma RankedTail(s: seq<Entry>)
    requires Ranked(s) && s != []
    ensures Ranked(s[1..])
  {
    forall i, j | 0 <= i < j < |s| - 1 ensures Before(s[1..][i], s[1..][j]) {
      assert s[1..][i] == s[i + 1] && s[1..][j] == s[j + 1];
    }
  }

  // ---------------------------------------------------------------- the two views

  /** The scan of views.py:249-260 (and views.py:386-393): score each recipe in order
      and append an entry for each one that passes the filter. */
  method ScoreRecipes(recipes: seq<string>, pantry: set<string>, rnd: Rounding, minMatch: int) returns (scored: seq<Entry>)
    ensures scored == Scored(recipes, pantry, rnd, minMatch)
  {
    ghost var scores := ScoresOf(recipes, pantry, rnd);
    scored := [];
    var i: nat := 0;
    assert scores[..0] == [];
    while i < |recipes|
      invariant i <= |recipes|
      invariant scored == Kept(scores[..i], minMatch)
    {
      var s := MatchScore(recipes[i], pantry, rnd);
      assert s == scores[i];
      KeptStep(scores, minMatch, i);
      if Keep(s, minMatch) {
        scored := scored + [EntryOf(i, s)];
      }
      i := i + 1;
    }
    assert scores[..|recipes|] == scores;
  }

  /** `match_recipes` and `api_match` up to the sort: score, filter, rank. */
  method MatchRecipes(recipes: seq<string>, pantry: set<string>, rnd: Rounding, minMatch: int) returns (ranked: seq<Entry>)
    ensures Ranked(ranked)
    ensures multiset(ranked) == multiset(Scored(recipes, pantry, rnd, minMatch))
    ensures forall e :: e in ranked ==>
              e.pct >= minMatch && e.total > 0 && e.missing == e.total - e.matched >= 0
  {
    if pantry == {} {
      ScoredEmptyPantry(recipes, rnd, minMatch);
      return [];
    }
    var scored := ScoreRecipes(recipes, pantry, rnd, minMatch);
    ScoredExact(recipes, pantry, rnd, minMatch);
    ranked := SortScored(scored);
    forall e | e in ranked ensures e.pct >= minMatch && e.total > 0 && e.missing == e.total - e.matched >= 0 {
      assert e in multiset(scored);
    }
  }

  /** Python's `s[:n]`, where a negative `n` counts from the end. */
  function PrefixSlice<T>(s: seq<T>, n: int): (r: seq<T>)
    ensures |r| <= |s| && r == s[..|r|]
    ensures n >= 0 ==> |r| == if n < |s| then n else |s|
    ensures n < 0 ==> |r| == if |s| + n > 0 then |s| + n else 0
  {
    if n >= 0 then (if n < |s| then s[..n] else s)
    else if |s| + n > 0 then s[..|s| + n] else []
  }

  /** `api_match`: the first `limit` ranked entries and the number of entries that passed.
      The shown entries are as many as `scored[:limit]` holds and each ranks ahead of every
      entry left out, so they are the first `limit` of the ranking and nothing else. */
  method ApiMatch(recipes: seq<string>, pantry: set<string>, rnd: Rounding, minMatch: int, limit: int)
    returns (shown: seq<Entry>, count: nat)
    ensures count == |Scored(recipes, pantry, rnd, minMatch)|
    ensures pantry == {} ==> shown == [] && count == 0
    ensures |shown| == |PrefixSlice(Scored(recipes, pantry, rnd, minMatch), limit)|
    ensures Ranked(shown)
    ensures multiset(shown) <= multiset(Scored(recipes, pantry, rnd, minMatch))
    ensures forall e, f :: e in shown && f in Scored(recipes, pantry, rnd, minMatch) && f !in shown ==> Before(e, f)
  {
    if pantry == {} {
      ScoredEmptyPantry(recipes, rnd, minMatch);
      return [], 0;
    }
    var ranked := MatchRecipes(recipes, pantry, rnd, minMatch);
    ghost var scored := Scored(recipes, pantry, rnd, minMatch);
    assert |ranked| == |multiset(ranked)| == |multiset(scored)| == |scored|;
    shown := PrefixSlice(ranked, limit);
    count := |ranked|;
    PrefixMultiset(ranked, |shown|);
    ShownAreBest(ranked, limit);
    forall e, f | e in shown && f in scored && f !in shown ensures Before(e, f) {
      var i :| 0 <= i < |shown| && shown[i] == e;
      assert f in multiset(ranked);
      var j :| 0 <= j < |ranked| && ranked[j] == f;
    }
  }

  lemma PrefixMultiset<T>(s: seq<T>, n: nat)
    requires n <= |s|
    ensures multiset(s[..n]) <= multiset(s)
  {
    assert s == s[..n] + s[n..];
  }

  /** The shown entries are the best ones: each ranks ahead of every entry cut off. */
  lemma ShownAreBest(ranked: seq<Entry>, limit: int)
    requires Ranked(ranked)
    ensures var shown := PrefixSlice(ranked, limit);
      forall i, j :: 0 <= i < |shown| <= j < |ranked| ==> Before(shown[i], ranked[j])
  {
  }
}
