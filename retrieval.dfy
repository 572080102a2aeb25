/**
 * The retrieval aggregator of the RAG worker: collapsing vector-index hits to
 * the best chunk per document, the hybrid vector/keyword merge and the
 * query-expansion merge over several result sets. The vector index, the
 * document store and the language model are outside the model: their
 * answers arrive as parameters.
 */
module Retrieval {
  import opened Text
  import opened Ranking

  /** A vector-index hit: vector id, similarity score and the chunk metadata written at ingestion. */
  datatype Match = Match(id: string, score: real, docId: string, title: string, text: string)

  function DocKey(m: Match): string { m.docId }
  function IdKey(m: Match): string { m.id }
  function Score(m: Match): real { m.score }

  // ---------------------------------------------------------------------------
  // Dedup by document
  // ---------------------------------------------------------------------------

  /**
   * The `uniqueDocs` loop: one entry per `metadata.docId`, replaced only by a
   * strictly higher score, then sorted best first and cut to `topK`.
   */
  method DedupByDocument(matches: seq<Match>, topK: nat) returns (top: seq<Match>)
    ensures top == TopBest(matches, DocKey, Score, topK)
  {
    var uniqueDocs: Table<string, Match> := Table([], map[]);
    for i := 0 to |matches|
      invariant uniqueDocs == BestByKey(matches[..i], DocKey, Score)
    {
      var m := matches[i];
      BestByKeySnoc(matches[..i], m, DocKey, Score);
      UpsertPut(uniqueDocs, m, DocKey, Score);
      if m.docId !in uniqueDocs.best || uniqueDocs.best[m.docId].score < m.score {
        uniqueDocs := Put(uniqueDocs, m.docId, m);
      }
      assert matches[..i + 1] == matches[..i] + [m];
    }
    assert matches[..|matches|] == matches;
    top := Take(SortDesc(ValuesOf(uniqueDocs.order, uniqueDocs.best), Score), topK);
  }

  /**
   * What the dedup keeps: at most `topK` matches, one per document, best
   * first; each the first highest-scoring chunk of its document; no dropped
   * document outscores a kept one.
   */
  lemma DedupProps(matches: seq<Match>, topK: nat)
    ensures var r := TopBest(matches, DocKey, Score, topK);
      && |r| <= topK
      && SortedDesc(r, Score)
      && DistinctBy(r, DocKey)
      && (forall m :: 0 <= m < |r| ==> exists i :: FirstBest(matches, i, DocKey, Score) && matches[i] == r[m])
      && (forall i :: FirstBest(matches, i, DocKey, Score) ==>
            matches[i] in r || forall m :: 0 <= m < |r| ==> Score(r[m]) >= Score(matches[i]))
  {
    TopBestProps(matches, DocKey, Score, topK);
  }

  /** Deduplicating output that is already deduplicated changes nothing. */
  lemma DedupIdempotent(matches: seq<Match>, topK: nat)
    ensures TopBest(TopBest(matches, DocKey, Score, topK), DocKey, Score, topK)
         == TopBest(matches, DocKey, Score, topK)
  {
    TopBestIdempotent(matches, DocKey, Score, topK);
  }

  /** Chunks of document "1" scoring 0.9 and 0.95 and one of "2" scoring 0.8, top 2: the 0.95 and the 0.8 chunk. */
  lemma DedupExample(a: Match, b: Match, c: Match)
    requires a.docId == "1" && b.docId == "1" && c.docId == "2"
    requires a.score == 0.9 && b.score == 0.95 && c.score == 0.8
    ensures TopBest([a, b, c], DocKey, Score, 2) == [b, c]
  {
    var xs := [a, b, c];
    DedupExampleTable(xs);
    var t := BestByKey(xs, DocKey, Score);
    var best := map["1" := b, "2" := c];
    assert ["1", "2"][1..] == ["2"] && ["2"][1..] == [];
    assert ValuesOf(["2"], best) == [c];
    assert ValuesOf(["1", "2"], best) == [b] + [c];
    assert [b, c][1..] == [c];
    assert SortDesc([c], Score) == [c];
  }

  lemma DedupExampleTable(xs: seq<Match>)
    requires |xs| == 3 && xs[0].docId == "1" && xs[1].docId == "1" && xs[2].docId == "2"
    requires xs[0].score == 0.9 && xs[1].score == 0.95 && xs[2].score == 0.8
    ensures BestByKey(xs, DocKey, Score) == Table(["1", "2"], map["1" := xs[1], "2" := xs[2]])
  {
    var t0 := BestByKey(xs[..0], DocKey, Score);
    var t1 := BestByKey(xs[..1], DocKey, Score);
    var t2 := BestByKey(xs[..2], DocKey, Score);
    BestByKeySnoc(xs[..0], xs[0], DocKey, Score);
    BestByKeySnoc(xs[..1], xs[1], DocKey, Score);
    BestByKeySnoc(xs[..2], xs[2], DocKey, Score);
    assert xs[..0] + [xs[0]] == xs[..1] && xs[..1] + [xs[1]] == xs[..2] && xs[..2] + [xs[2]] == xs;
    assert t0 == Table([], map[]);
    UpsertPut(t0, xs[0], DocKey, Score);
    assert t1 == Table(["1"], map["1" := xs[0]]);
    UpsertPut(t1, xs[1], DocKey, Score);
    assert t2 == Table(["1"], map["1" := xs[1]]);
    UpsertPut(t2, xs[2], DocKey, Score);
  }

  // ---------------------------------------------------------------------------
  // Hybrid search
  // ---------------------------------------------------------------------------

  /** A document row found by the keyword query. */
  datatype Row = Row(id: nat, title: string, text: string)

  /** An entry of the `combined` map: the document's metadata and its two signals. */
  datatype Hit = Hit(docId: string, title: string, text: string, vectorScore: real, keywordScore: real)

  function HitDoc(h: Hit): string { h.docId }

  /** `0.7 * vectorScore + 0.3 * keywordScore`. */
  function HybridScore(h: Hit): (r: real)
    ensures 0.0 <= h.vectorScore <= 1.0 && 0.0 <= h.keywordScore <= 1.0 ==> 0.0 <= r <= 1.0
  {
    0.7 * h.vectorScore + 0.3 * h.keywordScore
  }

  /** A keyword hit lifts an entry by exactly 0.3 over the same entry without one. */
  lemma KeywordBoost(h: Hit)
    ensures HybridScore(h.(keywordScore := 1.0)) == HybridScore(h.(keywordScore := 0.0)) + 0.3
  {
  }

  /** The words of the lower-cased question, split on single spaces, longer than three UTF-16 code units. */
  function Keywords(question: string): (r: seq<string>)
    ensures forall i :: 0 <= i < |r| ==> Utf16Length(r[i]) > 3 && ' ' !in r[i] && r[i] in Split(Lower(question), ' ')
    ensures forall w :: w in Split(Lower(question), ' ') && Utf16Length(w) > 3 ==> w in r
  {
    Filter(Split(Lower(question), ' '), w => Utf16Length(w) > 3)
  }

  /** `toLowerCase`, on the ASCII letters. */
  function Lower(s: string): (r: string)
    ensures |r| == |s|
    ensures forall i :: 0 <= i < |s| ==> r[i] == (if 'A' <= s[i] <= 'Z' then (s[i] as int + 32) as char else s[i])
  {
    if s == [] then [] else [if 'A' <= s[0] <= 'Z' then (s[0] as int + 32) as char else s[0]] + Lower(s[1..])
  }

  /** The vector pass: every match is set under its document, so the last one per document wins. */
  function VectorPass(ms: seq<Match>): Table<string, Hit>
    decreases |ms|
  {
    if ms == [] then Table([], map[])
    else
      var m := ms[|ms| - 1];
      Put(VectorPass(ms[..|ms| - 1]), m.docId, Hit(m.docId, m.title, m.text, m.score, 0.0))
  }

  /** One keyword row: a known document gets `keywordScore = 1`, an unknown one enters with `vectorScore = 0`. */
  function Mark(t: Table<string, Hit>, row: Row): Table<string, Hit> {
    var k := Dec(row.id);
    if k in t.best then Put(t, k, t.best[k].(keywordScore := 1.0))
    else Put(t, k, Hit(k, row.title, row.text, 0.0, 1.0))
  }

  function KeywordPass(t: Table<string, Hit>, rows: seq<Row>): Table<string, Hit>
    decreases |rows|
  {
    if rows == [] then t else Mark(KeywordPass(t, rows[..|rows| - 1]), rows[|rows| - 1])
  }

  /** The `combined` map after both passes. */
  function Combined(ms: seq<Match>, rows: seq<Row>): Table<string, Hit> {
    KeywordPass(VectorPass(ms), rows)
  }

  /** What `hybridSearch` returns: the three best entries by hybrid score. */
  function Hybrid(ms: seq<Match>, rows: seq<Row>): seq<Hit> {
    var t := Combined(ms, rows);
    Take(SortDesc(ValuesOf(t.order, t.best), HybridScore), 3)
  }

  /** The merge and rerank of `hybridSearch`, over the two passes. */
  method HybridMerge(vectorMatches: seq<Match>, keywordRows: seq<Row>) returns (ranked: seq<Hit>)
    ensures ranked == Hybrid(vectorMatches, keywordRows)
  {
    var combined: Table<string, Hit> := Table([], map[]);
    for i := 0 to |vectorMatches|
      invariant combined == VectorPass(vectorMatches[..i])
    {
      var m := vectorMatches[i];
      combined := Put(combined, m.docId, Hit(m.docId, m.title, m.text, m.score, 0.0));
      assert vectorMatches[..i + 1][..i] == vectorMatches[..i];
    }
    assert vectorMatches[..|vectorMatches|] == vectorMatches;
    ghost var afterVector := combined;
    for j := 0 to |keywordRows|
      invariant combined == KeywordPass(afterVector, keywordRows[..j])
    {
      var row := keywordRows[j];
      var k := Dec(row.id);
      if k in combined.best {
        combined := Put(combined, k, combined.best[k].(keywordScore := 1.0));
      } else {
        combined := Put(combined, k, Hit(k, row.title, row.text, 0.0, 1.0));
      }
      assert keywordRows[..j + 1][..j] == keywordRows[..j];
    }
    assert keywordRows[..|keywordRows|] == keywordRows;
    ranked := Take(SortDesc(ValuesOf(combined.order, combined.best), HybridScore), 3);
  }

  /** Keys listed once, exactly the keys of the map, each entry filed under its own document. */
  ghost predicate Keyed(t: Table<string, Hit>) {
    && NoDup(t.order)
    && (forall k :: k in t.best <==> k in t.order)
    && (forall k :: k in t.best ==> t.best[k].docId == k)
  }

  lemma PutKeyed(t: Table<string, Hit>, k: string, h: Hit)
    requires Keyed(t) && h.docId == k
    ensures Keyed(Put(t, k, h))
  {
    if k !in t.best {
      var o := t.order + [k];
      forall i, j | 0 <= i < j < |o|
        ensures o[i] != o[j]
      {
        if j == |t.order| {
          assert o[i] == t.order[i];
        }
      }
    }
  }

  ghost predicate InMatches(ms: seq<Match>, k: string) {
    exists i :: 0 <= i < |ms| && ms[i].docId == k
  }

  /** `ms[i]` is the last match of document `k`. */
  ghost predicate LastOf(ms: seq<Match>, i: int, k: string) {
    0 <= i < |ms| && ms[i].docId == k && forall j :: i < j < |ms| ==> ms[j].docId != k
  }

  ghost predicate InRows(rows: seq<Row>, k: string) {
    exists j :: 0 <= j < |rows| && Dec(rows[j].id) == k
  }

  /** After the vector pass: one entry per matched document. */
  lemma {:induction false} VectorPassKeys(ms: seq<Match>)
    ensures Keyed(VectorPass(ms))
    ensures forall k :: k in VectorPass(ms).best <==> InMatches(ms, k)
    decreases |ms|
  {
    if ms != [] {
      var front := ms[..|ms| - 1];
      var m := ms[|ms| - 1];
      VectorPassKeys(front);
      PutKeyed(VectorPass(front), m.docId, Hit(m.docId, m.title, m.text, m.score, 0.0));
      forall k | InMatches(ms, k) && k != m.docId
        ensures InMatches(front, k)
      {
        var i :| 0 <= i < |ms| && ms[i].docId == k;
        assert front[i].docId == k;
      }
      forall k | InMatches(front, k)
        ensures InMatches(ms, k)
      {
        var i :| 0 <= i < |front| && front[i].docId == k;
        assert ms[i].docId == k;
      }
      assert InMatches(ms, m.docId) by {
        assert ms[|ms| - 1].docId == m.docId;
      }
    }
  }

  /** After the vector pass: each entry carries the score of its document's last match. */
  lemma {:induction false} VectorPassScores(ms: seq<Match>)
    ensures forall k :: k in VectorPass(ms).best ==>
      VectorPass(ms).best[k].keywordScore == 0.0
      && exists i :: LastOf(ms, i, k) && VectorPass(ms).best[k].vectorScore == ms[i].score
    decreases |ms|
  {
    if ms != [] {
      var front := ms[..|ms| - 1];
      var m := ms[|ms| - 1];
      var t0 := VectorPass(front);
      var t := VectorPass(ms);
      VectorPassScores(front);
      assert t == Put(t0, m.docId, Hit(m.docId, m.title, m.text, m.score, 0.0));
      forall k | k in t.best
        ensures t.best[k].keywordScore == 0.0 && exists i :: LastOf(ms, i, k) && t.best[k].vectorScore == ms[i].score
      {
        if k == m.docId {
          assert LastOf(ms, |ms| - 1, k);
        } else {
          var i :| LastOf(front, i, k) && t0.best[k].vectorScore == front[i].score;
          assert LastOf(ms, i, k);
        }
      }
    }
  }

  lemma InRowsSnoc(rows: seq<Row>, k: string)
    requires rows != []
    ensures InRows(rows, k) <==> InRows(rows[..|rows| - 1], k) || k == Dec(rows[|rows| - 1].id)
  {
    var front := rows[..|rows| - 1];
    if InRows(rows, k) && k != Dec(rows[|rows| - 1].id) {
      var j :| 0 <= j < |rows| && Dec(rows[j].id) == k;
      assert Dec(front[j].id) == k;
    }
    if InRows(front, k) {
      var j :| 0 <= j < |front| && Dec(front[j].id) == k;
      assert Dec(rows[j].id) == k;
    }
  }

  /** After the keyword pass: the old entries plus one per keyword hit. */
  lemma {:induction false} KeywordPassKeys(t: Table<string, Hit>, rows: seq<Row>)
    requires Keyed(t)
    ensures Keyed(KeywordPass(t, rows))
    ensures forall k :: k in KeywordPass(t, rows).best <==> k in t.best || InRows(rows, k)
    decreases |rows|
  {
    if rows != [] {
      var front := rows[..|rows| - 1];
      var row := rows[|rows| - 1];
      var u0 := KeywordPass(t, front);
      KeywordPassKeys(t, front);
      var k := Dec(row.id);
      if k in u0.best {
        PutKeyed(u0, k, u0.best[k].(keywordScore := 1.0));
      } else {
        PutKeyed(u0, k, Hit(k, row.title, row.text, 0.0, 1.0));
      }
      forall k' ensures InRows(rows, k') <==> InRows(front, k') || k' == k {
        InRowsSnoc(rows, k');
      }
    }
  }

  /** After the keyword pass: old entries only gain the keyword signal; new entries are keyword-only. */
  lemma {:induction false} KeywordPassScores(t: Table<string, Hit>, rows: seq<Row>)
    requires Keyed(t)
    ensures var u := KeywordPass(t, rows);
      && (forall k :: k in t.best ==>
            k in u.best && u.best[k] == t.best[k].(keywordScore := if InRows(rows, k) then 1.0 else t.best[k].keywordScore))
      && (forall k :: k in u.best && k !in t.best ==> u.best[k].vectorScore == 0.0 && u.best[k].keywordScore == 1.0)
    decreases |rows|
  {
    if rows != [] {
      var front := rows[..|rows| - 1];
      var row := rows[|rows| - 1];
      var u0 := KeywordPass(t, front);
      var u := KeywordPass(t, rows);
      KeywordPassScores(t, front);
      KeywordPassKeys(t, front);
      assert u == Mark(u0, row);
      forall k' | k' in t.best
        ensures k' in u.best && u.best[k'] == t.best[k'].(keywordScore := if InRows(rows, k') then 1.0 else t.best[k'].keywordScore)
      {
        InRowsSnoc(rows, k');
      }
    }
  }

  /**
   * The entries of the merged map: exactly the documents with a vector match
   * or a keyword hit; `keywordScore` is 1 exactly for keyword hits; a
   * vector-matched document carries the score of its last match, any other
   * `vectorScore = 0`.
   */
  lemma CombinedEntries(ms: seq<Match>, rows: seq<Row>)
    ensures var t := Combined(ms, rows);
      && Keyed(t)
      && (forall k :: k in t.best <==> InMatches(ms, k) || InRows(rows, k))
      && (forall k :: k in t.best ==> t.best[k].keywordScore == if InRows(rows, k) then 1.0 else 0.0)
      && (forall k :: k in t.best && InMatches(ms, k) ==>
            exists i :: LastOf(ms, i, k) && t.best[k].vectorScore == ms[i].score)
      && (forall k :: k in t.best && !InMatches(ms, k) ==> t.best[k].vectorScore == 0.0)
  {
    VectorPassKeys(ms);
    VectorPassScores(ms);
    KeywordPassKeys(VectorPass(ms), rows);
    KeywordPassScores(VectorPass(ms), rows);
  }

  /**
   * The ranking of `hybridSearch`: at most three distinct documents, best
   * hybrid score first, each a merged entry, and no merged entry left out
   * that outscores a kept one.
   */
  lemma HybridRanking(ms: seq<Match>, rows: seq<Row>)
    ensures var t := Combined(ms, rows); var r := Hybrid(ms, rows);
      && |r| == Min(3, |t.order|)
      && SortedDesc(r, HybridScore)
      && DistinctBy(r, HitDoc)
      && (forall m :: 0 <= m < |r| ==> r[m].docId in t.best && t.best[r[m].docId] == r[m])
      && (forall k :: k in t.best ==>
            t.best[k] in r || forall m :: 0 <= m < |r| ==> HybridScore(r[m]) >= HybridScore(t.best[k]))
  {
    var t := Combined(ms, rows);
    VectorPassKeys(ms);
    KeywordPassKeys(VectorPass(ms), rows);
    var v := ValuesOf(t.order, t.best);
    KeyedValues(t);
    SortTakeProps(v, HitDoc, HybridScore, 3);
  }

  /** The values of a keyed table: one per key, each filed under its document. */
  lemma KeyedValues(t: Table<string, Hit>)
    requires Keyed(t)
    ensures var v := ValuesOf(t.order, t.best);
      && |v| == |t.order|
      && DistinctBy(v, HitDoc)
      && (forall x :: x in v ==> x.docId in t.best && t.best[x.docId] == x)
      && (forall k :: k in t.best ==> t.best[k] in v)
  {
    var v := ValuesOf(t.order, t.best);
    ValuesOfAt(t.order, t.best);
    assert forall i :: 0 <= i < |v| ==> HitDoc(v[i]) == t.order[i];
    forall k | k in t.best
      ensures t.best[k] in v
    {
      var i :| 0 <= i < |t.order| && t.order[i] == k;
      assert v[i] == t.best[k];
    }
  }

  /** A vector match of document 7 at 0.8 that the keyword query also finds: hybrid score 0.86. */
  lemma HybridExample(m: Match, row: Row)
    requires m.docId == "7" && m.score == 0.8 && row.id == 7
    ensures |Hybrid([m], [row])| == 1
    ensures Hybrid([m], [row])[0].vectorScore == 0.8 && Hybrid([m], [row])[0].keywordScore == 1.0
    ensures HybridScore(Hybrid([m], [row])[0]) == 0.86
  {
    assert [m][..0] == [] && [row][..0] == [];
    assert DigitChar(7) == '7';
    assert Dec(7) == "7";
    var h := Hit("7", m.title, m.text, 0.8, 0.0);
    assert VectorPass([m]) == Table(["7"], map["7" := h]);
    assert KeywordPass(VectorPass([m]), [row]) == Mark(VectorPass([m]), row);
    var t := Combined([m], [row]);
    var h1 := Hit("7", m.title, m.text, 0.8, 1.0);
    assert t == Table(["7"], map["7" := h1]);
    assert ["7"][1..] == [];
    assert ValuesOf(t.order, t.best) == [h1];
    assert SortDesc([h1], HybridScore) == [h1];
  }

  // ---------------------------------------------------------------------------
  // Query expansion
  // ---------------------------------------------------------------------------

  /** `[question, ...response.split('\n').filter(q => q.trim())]`: the question, then the non-blank generated lines. */
  function Questions(question: string, response: string): (qs: seq<string>)
    ensures |qs| >= 1 && qs[0] == question
    ensures forall i :: 1 <= i < |qs| ==> Trim(qs[i]) != [] && qs[i] in Split(response, '\n')
    ensures forall l :: l in Split(response, '\n') && Trim(l) != [] ==> l in qs[1..]
  {
    [question] + Filter(Split(response, '\n'), l => Trim(l) != [])
  }

  /** All result sets in the order they are visited. */
  function Flatten(sets: seq<seq<Match>>): seq<Match> {
    if sets == [] then [] else Flatten(sets[..|sets| - 1]) + sets[|sets| - 1]
  }

  /** The `allMatches` loops of `queryExpansion`: the best score per vector id across all result sets, top three. */
  method ExpansionMerge(resultSets: seq<seq<Match>>) returns (top: seq<Match>)
    ensures top == TopBest(Flatten(resultSets), IdKey, Score, 3)
  {
    var allMatches: Table<string, Match> := Table([], map[]);
    for s := 0 to |resultSets|
      invariant allMatches == BestByKey(Flatten(resultSets[..s]), IdKey, Score)
    {
      var results := resultSets[s];
      ghost var seen := Flatten(resultSets[..s]);
      assert seen + results[..0] == seen;
      for i := 0 to |results|
        invariant allMatches == BestByKey(seen + results[..i], IdKey, Score)
      {
        var m := results[i];
        BestByKeySnoc(seen + results[..i], m, IdKey, Score);
        UpsertPut(allMatches, m, IdKey, Score);
        if m.id !in allMatches.best || allMatches.best[m.id].score < m.score {
          allMatches := Put(allMatches, m.id, m);
        }
        assert seen + results[..i + 1] == (seen + results[..i]) + [m];
      }
      assert results[..|results|] == results;
      assert resultSets[..s + 1][..s] == resultSets[..s];
    }
    assert resultSets[..|resultSets|] == resultSets;
    top := Take(SortDesc(ValuesOf(allMatches.order, allMatches.best), Score), 3);
  }

  /** A match belongs to one of the result sets. */
  lemma {:induction false} InFlatten(sets: seq<seq<Match>>, x: Match)
    ensures x in Flatten(sets) <==> exists s :: 0 <= s < |sets| && x in sets[s]
    decreases |sets|
  {
    if sets != [] {
      var front := sets[..|sets| - 1];
      InFlatten(front, x);
      if exists s :: 0 <= s < |front| && x in front[s] {
        var s :| 0 <= s < |front| && x in front[s];
        assert sets[s] == front[s];
      }
      if exists s :: 0 <= s < |sets| && x in sets[s] {
        var s :| 0 <= s < |sets| && x in sets[s];
        if s < |front| {
          assert front[s] == sets[s];
        }
      }
    }
  }

  /**
   * The expansion merge keeps each vector id once, best first, with its
   * highest score over every result set: a kept match is at least as good as
   * any match of the same id in any set.
   */
  lemma ExpansionProps(resultSets: seq<seq<Match>>)
    ensures var r := TopBest(Flatten(resultSets), IdKey, Score, 3);
      && |r| <= 3
      && SortedDesc(r, Score)
      && DistinctBy(r, IdKey)
      && (forall m :: 0 <= m < |r| ==> exists s :: 0 <= s < |resultSets| && r[m] in resultSets[s])
      && (forall m, s, x :: 0 <= m < |r| && 0 <= s < |resultSets| && x in resultSets[s] && x.id == r[m].id ==>
            x.score <= r[m].score)
  {
    var xs := Flatten(resultSets);
    var r := TopBest(xs, IdKey, Score, 3);
    TopBestProps(xs, IdKey, Score, 3);
    forall m | 0 <= m < |r|
      ensures (exists s :: 0 <= s < |resultSets| && r[m] in resultSets[s])
      ensures forall s, x :: 0 <= s < |resultSets| && x in resultSets[s] && x.id == r[m].id ==> x.score <= r[m].score
    {
      KeptIsMax(resultSets, r[m]);
    }
  }

  /** The entry the fold keeps for an id comes from some set and is at least as good as any match of that id. */
  lemma KeptIsMax(sets: seq<seq<Match>>, y: Match)
    requires exists i :: FirstBest(Flatten(sets), i, IdKey, Score) && Flatten(sets)[i] == y
    ensures exists s :: 0 <= s < |sets| && y in sets[s]
    ensures forall s, x :: 0 <= s < |sets| && x in sets[s] && x.id == y.id ==> x.score <= y.score
  {
    var xs := Flatten(sets);
    var i :| FirstBest(xs, i, IdKey, Score) && xs[i] == y;
    InFlatten(sets, y);
    forall s, x | 0 <= s < |sets| && x in sets[s] && x.id == y.id
      ensures x.score <= y.score
    {
      InFlatten(sets, x);
      var j :| 0 <= j < |xs| && xs[j] == x;
      assert IdKey(xs[j]) == IdKey(xs[i]);
    }
  }

  /** Two result sets both holding id "x", at 0.7 and then 0.9: "x" comes out once, at 0.9. */
  lemma ExpansionExample(x1: Match, x2: Match)
    requires x1.id == "x" && x2.id == "x" && x1.score == 0.7 && x2.score == 0.9
    ensures TopBest(Flatten([[x1], [x2]]), IdKey, Score, 3) == [x2]
  {
    var sets := [[x1], [x2]];
    assert sets[..1] == [[x1]] && [[x1]][..0] == [];
    assert Flatten([[x1]]) == [x1];
    assert Flatten(sets) == [x1, x2];
    assert [x1, x2][..1] == [x1] && [x1][..0] == [];
    assert BestByKey([x1], IdKey, Score) == Table(["x"], map["x" := x1]);
    var t := BestByKey([x1, x2], IdKey, Score);
    assert t == Table(["x"], map["x" := x2]);
    assert ["x"][1..] == [];
    assert ValuesOf(t.order, t.best) == [x2];
    assert SortDesc([x2], Score) == [x2];
  }
}
