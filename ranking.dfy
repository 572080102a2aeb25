/**
 * The ranking steps shared by the retrieval paths: a stable descending sort
 * (`Array.prototype.sort((a, b) => b.score - a.score)`, stable since ES2019),
 * truncation (`slice(0, k)`) and the "keep the best entry per key" fold that
 * the handlers run over an insertion-ordered `Map`.
 */
module Ranking {
  import opened Text

  predicate SortedDesc<T>(s: seq<T>, score: T -> real) {
    forall i, j :: 0 <= i < j < |s| ==> score(s[i]) >= score(s[j])
  }

  /** No two elements share a key. */
  predicate DistinctBy<T, K(==)>(s: seq<T>, key: T -> K) {
    forall i, j :: 0 <= i < j < |s| ==> key(s[i]) != key(s[j])
  }

  /**
   * Places `x`, which came before every element of `s`, in front of the first
   * element that does not score strictly higher: equal scores keep their order.
   */
  function Insert<T>(x: T, s: seq<T>, score: T -> real): (r: seq<T>)
    ensures |r| == |s| + 1
    ensures multiset(r) == multiset(s) + multiset{x}
    ensures forall i :: 0 <= i < |r| ==> r[i] == x || r[i] in s
  {
    if s == [] || score(s[0]) <= score(x) then [x] + s
    else
      assert s == [s[0]] + s[1..];
      [s[0]] + Insert(x, s[1..], score)
  }

  lemma {:induction false} InsertSorted<T>(x: T, s: seq<T>, score: T -> real)
    requires SortedDesc(s, score)
    ensures SortedDesc(Insert(x, s, score), score)
  {
    if !(s == [] || score(s[0]) <= score(x)) {
      var tail := Insert(x, s[1..], score);
      InsertSorted(x, s[1..], score);
      forall i | 0 <= i < |tail| ensures score(tail[i]) <= score(s[0]) {
        if tail[i] != x {
          var j :| 0 <= j < |s[1..]| && s[1..][j] == tail[i];
          assert s[1..][j] == s[j + 1];
        }
      }
      SortedCons(s[0], tail, score);
    }
  }

  /** A head scoring at least as high as every element of a sorted tail keeps it sorted. */
  lemma SortedCons<T>(h: T, t: seq<T>, score: T -> real)
    requires SortedDesc(t, score)
    requires forall i :: 0 <= i < |t| ==> score(t[i]) <= score(h)
    ensures SortedDesc([h] + t, score)
  {
    var r := [h] + t;
    forall i, j | 0 <= i < j < |r| ensures score(r[i]) >= score(r[j]) {
      assert r[j] == t[j - 1];
      if i > 0 {
        assert r[i] == t[i - 1];
      }
    }
  }

  /** A head whose key no element of a distinct tail has keeps it distinct. */
  lemma DistinctCons<T, K>(h: T, t: seq<T>, key: T -> K)
    requires DistinctBy(t, key)
    requires forall i :: 0 <= i < |t| ==> key(t[i]) != key(h)
    ensures DistinctBy([h] + t, key)
  {
    var r := [h] + t;
    forall i, j | 0 <= i < j < |r| ensures key(r[i]) != key(r[j]) {
      assert r[j] == t[j - 1];
      if i > 0 {
        assert r[i] == t[i - 1];
      }
    }
  }

  /** Stable sort by descending score. */
  function SortDesc<T>(s: seq<T>, score: T -> real): (r: seq<T>)
    ensures |r| == |s|
    ensures multiset(r) == multiset(s)
    ensures SortedDesc(r, score)
  {
    if s == [] then []
    else
      assert s == [s[0]] + s[1..];
      InsertSorted(s[0], SortDesc(s[1..], score), score);
      Insert(s[0], SortDesc(s[1..], score), score)
  }

  /** The elements of `s` with score `v`, in order. */
  function WithScore<T>(s: seq<T>, score: T -> real, v: real): seq<T> {
    if s == [] then [] else (if score(s[0]) == v then [s[0]] else []) + WithScore(s[1..], score, v)
  }

  lemma {:induction false} InsertStable<T>(x: T, s: seq<T>, score: T -> real, v: real)
    ensures WithScore(Insert(x, s, score), score, v)
         == (if score(x) == v then [x] else []) + WithScore(s, score, v)
  {
    InsertUnfold(x, s, score);
    if s == [] || score(s[0]) <= score(x) {
      WithScoreCons(x, s, score, v);
    } else {
      InsertStable(x, s[1..], score, v);
      WithScorePast(x, s[0], Insert(x, s[1..], score), WithScore(s[1..], score, v), score, v);
      WithScoreCons(s[0], s[1..], score, v);
    }
  }

  /** `Insert` unfolded once, with the head of `s` split off. */
  lemma InsertUnfold<T>(x: T, s: seq<T>, score: T -> real)
    ensures s != [] ==> s == [s[0]] + s[1..]
    ensures Insert(x, s, score)
         == if s == [] || score(s[0]) <= score(x) then [x] + s else [s[0]] + Insert(x, s[1..], score)
  {
    if s != [] {
      assert s == [s[0]] + s[1..];
    }
  }

  /** An element passed over by the insertion keeps its place among the equal-scored ones. */
  lemma WithScorePast<T>(x: T, h: T, tail: seq<T>, rest: seq<T>, score: T -> real, v: real)
    requires score(x) < score(h)
    requires WithScore(tail, score, v) == (if score(x) == v then [x] else []) + rest
    ensures WithScore([h] + tail, score, v)
         == (if score(x) == v then [x] else []) + ((if score(h) == v then [h] else []) + rest)
  {
    WithScoreCons(h, tail, score, v);
  }

  /** `WithScore` unfolded once on a list written as head and tail. */
  lemma WithScoreCons<T>(y: T, t: seq<T>, score: T -> real, v: real)
    ensures WithScore([y] + t, score, v) == (if score(y) == v then [y] else []) + WithScore(t, score, v)
  {
    assert ([y] + t)[0] == y && ([y] + t)[1..] == t;
  }

  /** Stability: elements of equal score leave the sort in the order they entered it. */
  lemma {:induction false} SortStable<T>(s: seq<T>, score: T -> real, v: real)
    ensures WithScore(SortDesc(s, score), score, v) == WithScore(s, score, v)
  {
    if s != [] {
      SortStable(s[1..], score, v);
      InsertStable(s[0], SortDesc(s[1..], score), score, v);
    }
  }

  /** A list already in descending order is left as it is. */
  lemma {:induction false} SortOfSorted<T>(s: seq<T>, score: T -> real)
    requires SortedDesc(s, score)
    ensures SortDesc(s, score) == s
  {
    if s != [] {
      SortOfSorted(s[1..], score);
      assert s == [s[0]] + s[1..];
    }
  }

  lemma {:induction false} InsertDistinct<T, K>(x: T, s: seq<T>, score: T -> real, key: T -> K)
    requires DistinctBy(s, key)
    requires forall i :: 0 <= i < |s| ==> key(s[i]) != key(x)
    ensures DistinctBy(Insert(x, s, score), key)
  {
    if s == [] || score(s[0]) <= score(x) {
      DistinctCons(x, s, key);
    } else {
      var tail := Insert(x, s[1..], score);
      InsertDistinct(x, s[1..], score, key);
      forall i | 0 <= i < |tail| ensures key(tail[i]) != key(s[0]) {
        if tail[i] != x {
          var j :| 0 <= j < |s[1..]| && s[1..][j] == tail[i];
          assert s[1..][j] == s[j + 1];
        }
      }
      DistinctCons(s[0], tail, key);
    }
  }

  /** Sorting keeps keys distinct. */
  lemma {:induction false} SortDistinct<T, K>(s: seq<T>, score: T -> real, key: T -> K)
    requires DistinctBy(s, key)
    ensures DistinctBy(SortDesc(s, score), key)
  {
    if s != [] {
      var t := SortDesc(s[1..], score);
      SortDistinct(s[1..], score, key);
      assert forall i :: 0 <= i < |t| ==> t[i] in multiset(s[1..]);
      assert forall i :: 0 <= i < |t| ==> key(t[i]) != key(s[0]);
      InsertDistinct(s[0], t, score, key);
    }
  }

  /** `s.slice(0, k)`. */
  function Take<T>(s: seq<T>, k: nat): (r: seq<T>)
    ensures |r| == Min(k, |s|)
    ensures r == s[..|r|]
  {
    if |s| <= k then s else s[..k]
  }

  /** An insertion-ordered map: `order` lists the keys in the order they were first set. */
  datatype Table<K, T> = Table(order: seq<K>, best: map<K, T>)

  /** `Map.prototype.set`: a new key goes to the end of the order, a known key keeps its place. */
  function Put<K(==), T>(t: Table<K, T>, k: K, x: T): Table<K, T> {
    Table(if k in t.best then t.order else t.order + [k], t.best[k := x])
  }

  /**
   * One step of the fold: a new key is appended; a known key is overwritten
   * only by a strictly higher score (`!m.has(k) || m.get(k).score < x.score`).
   */
  function Upsert<K(==), T>(t: Table<K, T>, x: T, key: T -> K, score: T -> real): Table<K, T> {
    var k := key(x);
    if k !in t.best then Table(t.order + [k], t.best[k := x])
    else if score(t.best[k]) < score(x) then Table(t.order, t.best[k := x])
    else t
  }

  /** The table after visiting `xs` from left to right. */
  function BestByKey<K(==), T>(xs: seq<T>, key: T -> K, score: T -> real): Table<K, T>
    decreases |xs|
  {
    if xs == [] then Table([], map[])
    else Upsert(BestByKey(xs[..|xs| - 1], key, score), xs[|xs| - 1], key, score)
  }

  /** The fold takes one more entry. */
  lemma BestByKeySnoc<K, T>(xs: seq<T>, x: T, key: T -> K, score: T -> real)
    ensures BestByKey(xs + [x], key, score) == Upsert(BestByKey(xs, key, score), x, key, score)
  {
    assert (xs + [x])[..|xs|] == xs;
  }

  /** A fold step is `Map.prototype.set` when the key is new or beaten, and nothing otherwise. */
  lemma UpsertPut<K, T>(t: Table<K, T>, x: T, key: T -> K, score: T -> real)
    ensures Upsert(t, x, key, score)
         == if key(x) !in t.best || score(t.best[key(x)]) < score(x) then Put(t, key(x), x) else t
  {
  }

  /** `Array.from(m.values())`. */
  function ValuesOf<K(==), T>(order: seq<K>, best: map<K, T>): seq<T> {
    if order == [] then []
    else (if order[0] in best then [best[order[0]]] else []) + ValuesOf(order[1..], best)
  }

  /** The top `n` entries of the table, best first. */
  function TopBest<K(==), T>(xs: seq<T>, key: T -> K, score: T -> real, n: nat): seq<T> {
    var t := BestByKey(xs, key, score);
    Take(SortDesc(ValuesOf(t.order, t.best), score), n)
  }

  /**
   * `xs[i]` is the entry the fold keeps for its key: the highest score for
   * that key, and the first of the highest when several tie.
   */
  ghost predicate FirstBest<K, T>(xs: seq<T>, i: int, key: T -> K, score: T -> real) {
    && 0 <= i < |xs|
    && forall j :: 0 <= j < |xs| && key(xs[j]) == key(xs[i]) ==>
         score(xs[j]) <= score(xs[i]) && (j < i ==> score(xs[j]) < score(xs[i]))
  }

  /** What the fold keeps: one entry per key seen, each the first best for its key. */
  ghost predicate TableInv<K, T>(xs: seq<T>, t: Table<K, T>, key: T -> K, score: T -> real) {
    && NoDup(t.order)
    && t.best.Keys == (set k | k in t.order)
    && (forall i :: 0 <= i < |xs| ==> key(xs[i]) in t.best)
    && (forall k :: k in t.best ==> key(t.best[k]) == k)
    && (forall k :: k in t.best ==> exists i :: FirstBest(xs, i, key, score) && xs[i] == t.best[k])
    && (forall i :: FirstBest(xs, i, key, score) ==> t.best[key(xs[i])] == xs[i])
  }

  /** A first-best entry stays first-best when a later entry does not beat it. */
  lemma FirstBestKeep<K, T>(xs: seq<T>, x: T, i: int, key: T -> K, score: T -> real)
    requires FirstBest(xs, i, key, score)
    requires key(xs[i]) != key(x) || score(x) <= score(xs[i])
    ensures FirstBest(xs + [x], i, key, score)
  {
    var ys := xs + [x];
    assert forall j :: 0 <= j < |xs| ==> ys[j] == xs[j];
  }

  lemma FirstBestFront<K, T>(xs: seq<T>, x: T, i: int, key: T -> K, score: T -> real)
    requires FirstBest(xs + [x], i, key, score) && i < |xs|
    ensures FirstBest(xs, i, key, score)
  {
    var ys := xs + [x];
    assert forall j :: 0 <= j < |xs| ==> ys[j] == xs[j];
  }

  /** A new entry that beats every earlier entry with its key is first-best. */
  lemma FirstBestLast<K, T>(xs: seq<T>, x: T, key: T -> K, score: T -> real)
    requires forall j :: 0 <= j < |xs| && key(xs[j]) == key(x) ==> score(xs[j]) < score(x)
    ensures FirstBest(xs + [x], |xs|, key, score)
  {
    var ys := xs + [x];
    assert forall j :: 0 <= j < |xs| ==> ys[j] == xs[j];
  }

  /** The witnesses of the table carry over to `xs + [x]` for every key but `key(x)`. */
  lemma WitnessesKeep<K, T>(xs: seq<T>, x: T, t: Table<K, T>, u: Table<K, T>, key: T -> K, score: T -> real)
    requires TableInv(xs, t, key, score)
    requires forall k :: k in t.best && k != key(x) ==> k in u.best && u.best[k] == t.best[k]
    ensures forall k :: k in t.best && k != key(x) ==>
      exists i :: FirstBest(xs + [x], i, key, score) && (xs + [x])[i] == u.best[k]
  {
    forall k | k in t.best && k != key(x)
      ensures exists i :: FirstBest(xs + [x], i, key, score) && (xs + [x])[i] == u.best[k]
    {
      var i :| FirstBest(xs, i, key, score) && xs[i] == t.best[k];
      FirstBestKeep(xs, x, i, key, score);
      assert (xs + [x])[i] == xs[i];
    }
  }

  lemma UpsertNew<K, T>(xs: seq<T>, x: T, t: Table<K, T>, key: T -> K, score: T -> real)
    requires TableInv(xs, t, key, score) && key(x) !in t.best
    ensures TableInv(xs + [x], Upsert(t, x, key, score), key, score)
  {
    var ys := xs + [x];
    var u := Upsert(t, x, key, score);
    var k := key(x);
    FirstBestLast(xs, x, key, score);
    WitnessesKeep(xs, x, t, u, key, score);
    assert ys[|xs|] == x;
    forall i | FirstBest(ys, i, key, score)
      ensures u.best[key(ys[i])] == ys[i]
    {
      if i < |xs| {
        FirstBestFront(xs, x, i, key, score);
        assert ys[i] == xs[i];
      }
    }
    assert forall j :: 0 <= j < |xs| ==> ys[j] == xs[j];
  }

  lemma UpsertBeat<K, T>(xs: seq<T>, x: T, t: Table<K, T>, key: T -> K, score: T -> real)
    requires TableInv(xs, t, key, score) && key(x) in t.best && score(t.best[key(x)]) < score(x)
    ensures TableInv(xs + [x], Upsert(t, x, key, score), key, score)
  {
    var ys := xs + [x];
    var u := Upsert(t, x, key, score);
    var k := key(x);
    var w :| FirstBest(xs, w, key, score) && xs[w] == t.best[k];
    assert forall j :: 0 <= j < |xs| && key(xs[j]) == k ==> score(xs[j]) < score(x);
    FirstBestLast(xs, x, key, score);
    WitnessesKeep(xs, x, t, u, key, score);
    BeatenFirstBest(xs, x, t, u, key, score);
    assert forall j :: 0 <= j < |xs| ==> ys[j] == xs[j];
  }

  /** After a strictly better entry, the table holds every first-best entry of the longer list. */
  lemma BeatenFirstBest<K, T>(xs: seq<T>, x: T, t: Table<K, T>, u: Table<K, T>, key: T -> K, score: T -> real)
    requires forall i :: FirstBest(xs, i, key, score) ==> key(xs[i]) in t.best && t.best[key(xs[i])] == xs[i]
    requires forall j :: 0 <= j < |xs| && key(xs[j]) == key(x) ==> score(xs[j]) < score(x)
    requires u.best == t.best[key(x) := x]
    ensures forall i :: FirstBest(xs + [x], i, key, score) ==>
      key((xs + [x])[i]) in u.best && u.best[key((xs + [x])[i])] == (xs + [x])[i]
  {
    var ys := xs + [x];
    assert ys[|xs|] == x;
    forall i | FirstBest(ys, i, key, score)
      ensures key(ys[i]) in u.best && u.best[key(ys[i])] == ys[i]
    {
      if i < |xs| {
        assert ys[i] == xs[i];
        if key(xs[i]) == key(x) {
          assert false;
        }
        FirstBestFront(xs, x, i, key, score);
      }
    }
  }

  lemma UpsertKeep<K, T>(xs: seq<T>, x: T, t: Table<K, T>, key: T -> K, score: T -> real)
    requires TableInv(xs, t, key, score) && key(x) in t.best && score(x) <= score(t.best[key(x)])
    ensures TableInv(xs + [x], Upsert(t, x, key, score), key, score)
  {
    var ys := xs + [x];
    var k := key(x);
    var w :| FirstBest(xs, w, key, score) && xs[w] == t.best[k];
    WitnessesKeep(xs, x, t, t, key, score);
    FirstBestKeep(xs, x, w, key, score);
    assert ys[w] == xs[w];
    forall i | FirstBest(ys, i, key, score)
      ensures t.best[key(ys[i])] == ys[i]
    {
      if i < |xs| {
        FirstBestFront(xs, x, i, key, score);
        assert ys[i] == xs[i];
      } else {
        assert false;
      }
    }
    assert forall j :: 0 <= j < |xs| ==> ys[j] == xs[j];
  }

  /** One step of the fold keeps the table invariant. */
  lemma UpsertInv<K, T>(xs: seq<T>, x: T, t: Table<K, T>, key: T -> K, score: T -> real)
    requires TableInv(xs, t, key, score)
    ensures TableInv(xs + [x], Upsert(t, x, key, score), key, score)
  {
    if key(x) !in t.best {
      UpsertNew(xs, x, t, key, score);
    } else if score(t.best[key(x)]) < score(x) {
      UpsertBeat(xs, x, t, key, score);
    } else {
      UpsertKeep(xs, x, t, key, score);
    }
  }

  lemma {:induction false} BestByKeyInv<K, T>(xs: seq<T>, key: T -> K, score: T -> real)
    ensures TableInv(xs, BestByKey(xs, key, score), key, score)
    decreases |xs|
  {
    if xs != [] {
      var front := xs[..|xs| - 1];
      BestByKeyInv(front, key, score);
      UpsertInv(front, xs[|xs| - 1], BestByKey(front, key, score), key, score);
      assert front + [xs[|xs| - 1]] == xs;
    }
  }

  lemma {:induction false} ValuesOfAt<K, T>(order: seq<K>, best: map<K, T>)
    requires forall i :: 0 <= i < |order| ==> order[i] in best
    ensures |ValuesOf(order, best)| == |order|
    ensures forall i :: 0 <= i < |order| ==> ValuesOf(order, best)[i] == best[order[i]]
  {
    if order != [] {
      ValuesOfAt(order[1..], best);
    }
  }

  lemma {:induction false} NoDupCard<K>(s: seq<K>)
    requires NoDup(s)
    ensures |set k | k in s| == |s|
  {
    if s != [] {
      var front := s[..|s| - 1];
      NoDupCard(front);
      assert (set k | k in s) == (set k | k in front) + {s[|s| - 1]};
      assert s[|s| - 1] !in front;
    }
  }

  /** Every key in the table was seen in `xs`. */
  lemma TableKeysSeen<K, T>(xs: seq<T>, t: Table<K, T>, key: T -> K, score: T -> real)
    requires TableInv(xs, t, key, score)
    ensures (set k | k in t.order) == (set i | 0 <= i < |xs| :: key(xs[i]))
  {
    forall k | k in t.order
      ensures k in (set i | 0 <= i < |xs| :: key(xs[i]))
    {
      assert k in t.best;
      var i :| FirstBest(xs, i, key, score) && xs[i] == t.best[k];
    }
  }

  /** The values of the fold's table: one per key, in first-seen order. */
  lemma ValuesCount<K, T>(xs: seq<T>, key: T -> K, score: T -> real)
    ensures var t := BestByKey(xs, key, score); var v := ValuesOf(t.order, t.best);
      && |v| == |set i | 0 <= i < |xs| :: key(xs[i])|
      && DistinctBy(v, key)
  {
    var t := BestByKey(xs, key, score);
    BestByKeyInv(xs, key, score);
    ValuesOfAt(t.order, t.best);
    var v := ValuesOf(t.order, t.best);
    assert forall i :: 0 <= i < |v| ==> key(v[i]) == t.order[i];
    NoDupCard(t.order);
    TableKeysSeen(xs, t, key, score);
  }

  /** Each value of the fold's table is the first best entry of its key, and each such entry is a value. */
  lemma ValuesFirstBest<K, T>(xs: seq<T>, key: T -> K, score: T -> real)
    ensures var t := BestByKey(xs, key, score); var v := ValuesOf(t.order, t.best);
      && (forall q :: 0 <= q < |v| ==> exists i :: FirstBest(xs, i, key, score) && xs[i] == v[q])
      && (forall i :: FirstBest(xs, i, key, score) ==> xs[i] in v)
  {
    var t := BestByKey(xs, key, score);
    BestByKeyInv(xs, key, score);
    ValuesOfAt(t.order, t.best);
    var v := ValuesOf(t.order, t.best);
    forall q | 0 <= q < |v|
      ensures exists i :: FirstBest(xs, i, key, score) && xs[i] == v[q]
    {
      assert t.order[q] in t.best;
    }
    forall i | FirstBest(xs, i, key, score)
      ensures xs[i] in v
    {
      var q :| 0 <= q < |t.order| && t.order[q] == key(xs[i]);
      assert v[q] == xs[i];
    }
  }

  /** What sorting and truncating keeps of a list of distinct-keyed values. */
  lemma SortTakeProps<K, T>(v: seq<T>, key: T -> K, score: T -> real, n: nat)
    requires DistinctBy(v, key)
    ensures var r := Take(SortDesc(v, score), n);
      && |r| == Min(n, |v|)
      && SortedDesc(r, score)
      && DistinctBy(r, key)
      && (forall m :: 0 <= m < |r| ==> r[m] in v)
      && (forall x :: x in v ==> x in r || forall m :: 0 <= m < |r| ==> score(r[m]) >= score(x))
  {
    var s := SortDesc(v, score);
    var r := Take(s, n);
    SortDistinct(v, score, key);
    SortMembers(v, score);
    TakeSorted(s, score, n);
    forall m | 0 <= m < |r|
      ensures r[m] in v
    {
      assert r[m] == s[m];
    }
  }

  /** Sorting keeps exactly the elements it was given. */
  lemma SortMembers<T>(v: seq<T>, score: T -> real)
    ensures forall i :: 0 <= i < |SortDesc(v, score)| ==> SortDesc(v, score)[i] in v
    ensures forall x :: x in v ==> x in SortDesc(v, score)
  {
    var s := SortDesc(v, score);
    forall i | 0 <= i < |s|
      ensures s[i] in v
    {
      assert s[i] in multiset(s);
    }
    forall x | x in v
      ensures x in s
    {
      assert x in multiset(v);
    }
  }

  /** A prefix of a sorted list is sorted; what it leaves out scores no higher than what it keeps. */
  lemma TakeSorted<T>(s: seq<T>, score: T -> real, n: nat)
    requires SortedDesc(s, score)
    ensures var r := Take(s, n);
      && SortedDesc(r, score)
      && (forall m :: 0 <= m < |r| ==> r[m] in s)
      && (forall x :: x in s ==> x in r || forall m :: 0 <= m < |r| ==> score(r[m]) >= score(x))
  {
    var r := Take(s, n);
    forall x | x in s
      ensures x in r || forall m :: 0 <= m < |r| ==> score(r[m]) >= score(x)
    {
      var p :| 0 <= p < |s| && s[p] == x;
      if p < |r| {
        assert r[p] == x;
      }
    }
  }

  /**
   * Everything the ranking promises: at most `n` entries, as many as there
   * are keys when `n` allows it, best first, one per key, each the first best
   * for its key, and nothing left out that outscores a kept entry.
   */
  lemma TopBestProps<K, T>(xs: seq<T>, key: T -> K, score: T -> real, n: nat)
    ensures var r := TopBest(xs, key, score, n);
      && |r| == Min(n, |set i | 0 <= i < |xs| :: key(xs[i])|)
      && SortedDesc(r, score)
      && DistinctBy(r, key)
      && (forall m :: 0 <= m < |r| ==> exists i :: FirstBest(xs, i, key, score) && xs[i] == r[m])
      && (forall i :: FirstBest(xs, i, key, score) ==>
            xs[i] in r || forall m :: 0 <= m < |r| ==> score(r[m]) >= score(xs[i]))
  {
    var t := BestByKey(xs, key, score);
    var v := ValuesOf(t.order, t.best);
    ValuesCount(xs, key, score);
    ValuesFirstBest(xs, key, score);
    SortTakeProps(v, key, score, n);
    var r := TopBest(xs, key, score, n);
    forall m | 0 <= m < |r|
      ensures exists i :: FirstBest(xs, i, key, score) && xs[i] == r[m]
    {
      var q :| 0 <= q < |v| && v[q] == r[m];
    }
  }

  lemma {:induction false} ValuesOfAppend<K, T>(order: seq<K>, best: map<K, T>, k: K, x: T)
    requires k !in order
    ensures ValuesOf(order + [k], best[k := x]) == ValuesOf(order, best) + [x]
  {
    if order == [] {
      assert [k][1..] == [];
    } else {
      ValuesOfAppend(order[1..], best, k, x);
      assert (order + [k])[1..] == order[1..] + [k];
    }
  }

  /** A key no entry carries has no row in the fold's table. */
  lemma {:induction false} UnseenKey<K, T>(xs: seq<T>, key: T -> K, score: T -> real, k: K)
    requires forall i :: 0 <= i < |xs| ==> key(xs[i]) != k
    ensures k !in BestByKey(xs, key, score).order && k !in BestByKey(xs, key, score).best
    decreases |xs|
  {
    if xs != [] {
      var front := xs[..|xs| - 1];
      assert forall i :: 0 <= i < |front| ==> front[i] == xs[i];
      UnseenKey(front, key, score, k);
      assert key(xs[|xs| - 1]) != k;
    }
  }

  lemma {:induction false} BestByKeyOfDistinct<K, T>(xs: seq<T>, key: T -> K, score: T -> real)
    requires DistinctBy(xs, key)
    ensures var t := BestByKey(xs, key, score); ValuesOf(t.order, t.best) == xs
    decreases |xs|
  {
    if xs != [] {
      var front := xs[..|xs| - 1];
      var x := xs[|xs| - 1];
      var t := BestByKey(front, key, score);
      assert DistinctBy(front, key);
      BestByKeyOfDistinct(front, key, score);
      assert forall i :: 0 <= i < |front| ==> key(front[i]) != key(x);
      UnseenKey(front, key, score, key(x));
      ValuesOfAppend(t.order, t.best, key(x), x);
      assert front + [x] == xs;
    }
  }

  /** Running the ranking again on its own output changes nothing. */
  lemma TopBestIdempotent<K, T>(xs: seq<T>, key: T -> K, score: T -> real, n: nat)
    ensures TopBest(TopBest(xs, key, score, n), key, score, n) == TopBest(xs, key, score, n)
  {
    var r := TopBest(xs, key, score, n);
    TopBestProps(xs, key, score, n);
    BestByKeyOfDistinct(r, key, score);
    SortOfSorted(r, score);
  }
}
