/**
 * The request handlers of the RAG worker around the aggregator: the route
 * table, the vector ids written at ingestion and deleted later, and the
 * assembly of the context block and source list of a query. The document
 * store, the embedding model, the vector index and the answer model are
 * outside the model: their answers arrive as parameters.
 */
module RagWorker {
  import opened Text
  import opened Ranking
  import opened Chunker
  import opened Retrieval

  // ---------------------------------------------------------------------------
  // Routes
  // ---------------------------------------------------------------------------

  datatype Route = AddDocumentRoute | QueryRoute | ListRoute | DeleteRoute(docId: string) | NotFoundRoute

  /** `^\/documents\/\d+$`: the prefix, then one or more ASCII digits, up to the end. */
  predicate IsDocumentPath(path: string) {
    |path| > 11 && path[..11] == "/documents/" && AllDigits(path[11..])
  }

  /** `"/documents/" + digits` splits on '/' into the empty string, "documents" and the digits. */
  lemma SplitDocumentPath(path: string)
    requires IsDocumentPath(path)
    ensures |Split(path, '/')| == 3 && Split(path, '/')[2] == path[11..]
  {
    var d := path[11..];
    var w := path[1..10];
    assert '/' !in d by {
      forall i | 0 <= i < |d| ensures d[i] != '/' { assert IsDigit(d[i]); }
    }
    assert '/' !in w by {
      forall i | 0 <= i < |w| ensures w[i] != '/' { assert w[i] == path[..11][i + 1]; }
    }
    assert path == [path[0]] + (w + ([path[10]] + d));
    assert path[0] == '/' && path[10] == '/' by {
      assert path[0] == path[..11][0] && path[10] == path[..11][10];
    }
    SplitSegments(path, w, d);
  }

  /** "/w/d" with no '/' inside `w` or `d` splits into "", `w` and `d`. */
  lemma SplitSegments(path: string, w: string, d: string)
    requires '/' !in w && '/' !in d && path == "/" + (w + ("/" + d))
    ensures Split(path, '/') == [[], w, d]
  {
    SplitPlain(d, '/');
    SplitAfterSep(d, '/');
    var tail := Split("/" + d, '/');
    assert tail == [[], d];
    SplitAfterPlain(w, "/" + d, '/');
    assert w + tail[0] == w && tail[1..] == [d];
    assert Split(w + ("/" + d), '/') == [w, d];
    SplitAfterSep(w + ("/" + d), '/');
  }

  /** The dispatch of the worker's `fetch`: the first matching path and method wins. */
  function RagRoute(path: string, verb: string): (r: Route)
    ensures r.DeleteRoute? ==> r.docId != [] && AllDigits(r.docId)
  {
    if path == "/documents" && verb == "POST" then AddDocumentRoute
    else if path == "/query" && verb == "POST" then QueryRoute
    else if path == "/documents" && verb == "GET" then ListRoute
    else if IsDocumentPath(path) && verb == "DELETE" then
      SplitDocumentPath(path);
      DeleteRoute(Split(path, '/')[2])
    else NotFoundRoute
  }

  /** DELETE reaches `deleteDocument` exactly on `/documents/<digits>`, with the digits as the id. */
  lemma DeleteRouteExact(path: string, verb: string)
    ensures RagRoute(path, verb).DeleteRoute? <==> IsDocumentPath(path) && verb == "DELETE"
    ensures RagRoute(path, verb).DeleteRoute? ==> RagRoute(path, verb).docId == path[11..]
  {
    if IsDocumentPath(path) {
      SplitDocumentPath(path);
      assert path != "/documents" && path != "/query" by {
        assert |path| > 11;
      }
    }
  }

  /** "/documents/42" with DELETE deletes document "42"; a trailing segment is not found. */
  lemma RouteExamples(p1: string, p2: string)
    requires p1 == "/documents/42" && p2 == "/documents/42/x"
    ensures RagRoute(p1, "DELETE") == DeleteRoute("42")
    ensures RagRoute(p2, "DELETE") == NotFoundRoute
  {
    DeleteRouteExact(p1, "DELETE");
    assert IsDocumentPath(p1) by {
      assert p1[..11] == "/documents/" && p1[11..] == "42";
    }
    assert !IsDocumentPath(p2) by {
      assert p2[11..][2] == '/';
    }
  }

  // ---------------------------------------------------------------------------
  // Vector ids
  // ---------------------------------------------------------------------------

  /** `${docId}-chunk-${i}`. */
  function ChunkId(docId: string, i: nat): (r: string)
    ensures |r| > |docId| + 7 && r[..|docId|] == docId && r[|docId|..|docId| + 7] == "-chunk-"
    ensures AllDigits(r[|docId| + 7..]) && ParseDigits(r[|docId| + 7..]) == i
  {
    var r := docId + "-chunk-" + Dec(i);
    assert r[|docId| + 7..] == Dec(i);
    ParseDec(i);
    r
  }

  /** The '-' that ends a shorter prefix faces a digit of a longer one. */
  lemma DashNotDigit(d1: string, i1: nat, d2: string, i2: nat)
    requires AllDigits(d2) && |d1| < |d2|
    ensures ChunkId(d1, i1) != ChunkId(d2, i2)
  {
    var x := ChunkId(d1, i1);
    var y := ChunkId(d2, i2);
    assert x[|d1|] == '-';
    assert y[|d1|] == d2[|d1|];
  }

  /** Different digit prefixes or different indices never give the same id: an id names its document and chunk. */
  lemma {:induction false} ChunkIdInjective(d1: string, i1: nat, d2: string, i2: nat)
    requires AllDigits(d1) && AllDigits(d2)
    requires ChunkId(d1, i1) == ChunkId(d2, i2)
    ensures d1 == d2 && i1 == i2
  {
    var x := ChunkId(d1, i1);
    var y := ChunkId(d2, i2);
    if |d1| < |d2| {
      DashNotDigit(d1, i1, d2, i2);
    } else if |d2| < |d1| {
      DashNotDigit(d2, i2, d1, i1);
    }
    assert d1 == x[..|d1|] && d2 == y[..|d2|];
    assert Dec(i1) == x[|d1| + 7..] && Dec(i2) == y[|d2| + 7..];
    DecInjective(i1, i2);
  }

  /** One vector record: the id, and the metadata stored with the embedding. */
  datatype VectorRecord = VectorRecord(id: string, docId: string, chunkIndex: nat, text: string, title: string)

  /** `chunks.map((chunk, i) => ...)` in `addDocument`. */
  function IngestRecords(docId: nat, title: string, chunks: seq<string>): (recs: seq<VectorRecord>)
    ensures |recs| == |chunks|
  {
    seq(|chunks|, i requires 0 <= i < |chunks| =>
      VectorRecord(ChunkId(Dec(docId), i), Dec(docId), i, chunks[i], title))
  }

  /**
   * Ingestion writes one record per chunk, in chunk order; record `i` holds
   * chunk `i` under id `"{docId}-chunk-{i}"`, and no two records share an id.
   */
  lemma IngestRecordsProps(docId: nat, title: string, chunks: seq<string>)
    ensures var recs := IngestRecords(docId, title, chunks);
      && |recs| == |chunks|
      && (forall i :: 0 <= i < |recs| ==>
            recs[i].id == ChunkId(Dec(docId), i) && recs[i].chunkIndex == i && recs[i].text == chunks[i]
            && recs[i].docId == Dec(docId) && recs[i].title == title)
      && (forall i, j :: 0 <= i < j < |recs| ==> recs[i].id != recs[j].id)
  {
    var recs := IngestRecords(docId, title, chunks);
    forall i, j | 0 <= i < j < |recs|
      ensures recs[i].id != recs[j].id
    {
      if recs[i].id == recs[j].id {
        ChunkIdInjective(Dec(docId), i, Dec(docId), j);
      }
    }
  }

  datatype AddResult = AddResult(status: int, docId: nat, chunkCount: nat, records: seq<VectorRecord>)

  /**
   * `addDocument` once the store has assigned `docId`: the text is chunked
   * with windows of 500 and overlap 50, one record per chunk goes to the
   * index, and the reply is 201 with the chunk count.
   */
  method AddDocument(docId: nat, title: string, text: string) returns (r: AddResult)
    ensures r.records == IngestRecords(docId, title, Chunks(text, 500, 50))
    ensures r.status == 201 && r.docId == docId && r.chunkCount == |r.records|
    ensures forall i :: 0 <= i < |r.records| ==> r.records[i].text != [] && IsTrimmed(r.records[i].text)
  {
    var chunks := ChunkText(text, 500, 50);
    var records := IngestRecords(docId, title, chunks);
    r := AddResult(201, docId, |chunks|, records);
  }

  /** `maxChunks` in `deleteDocument`. */
  const MaxChunks: nat := 100

  /** The ids `deleteDocument` asks the index to drop. */
  function DeletionIds(docId: string): (ids: seq<string>)
    ensures |ids| == MaxChunks
  {
    seq(MaxChunks, i requires 0 <= i < MaxChunks => ChunkId(docId, i))
  }

  /** The `vectorIds` loop of `deleteDocument`. */
  method DeleteIds(docId: string) returns (vectorIds: seq<string>)
    ensures vectorIds == DeletionIds(docId)
  {
    vectorIds := [];
    for i := 0 to MaxChunks
      invariant |vectorIds| == i
      invariant forall k :: 0 <= k < i ==> vectorIds[k] == ChunkId(docId, k)
    {
      vectorIds := vectorIds + [ChunkId(docId, i)];
    }
  }

  /** A chunk id is deleted exactly when it belongs to the document and its index is below 100. */
  lemma DeletionCovers(docId: string, d: string, i: nat)
    requires AllDigits(docId) && AllDigits(d)
    ensures ChunkId(d, i) in DeletionIds(docId) <==> d == docId && i < MaxChunks
  {
    var ids := DeletionIds(docId);
    if ChunkId(d, i) in ids {
      var k :| 0 <= k < |ids| && ids[k] == ChunkId(d, i);
      ChunkIdInjective(docId, k, d, i);
    }
    if d == docId && i < MaxChunks {
      assert ids[i] == ChunkId(d, i);
    }
  }

  /** Deleting a document removes every vector written for it exactly when it had at most 100 chunks. */
  lemma FullRemoval(docId: nat, title: string, chunks: seq<string>)
    ensures var recs := IngestRecords(docId, title, chunks);
      (forall i :: 0 <= i < |recs| ==> recs[i].id in DeletionIds(Dec(docId))) <==> |chunks| <= MaxChunks
  {
    var recs := IngestRecords(docId, title, chunks);
    forall i | 0 <= i < |recs|
      ensures recs[i].id in DeletionIds(Dec(docId)) <==> i < MaxChunks
    {
      DeletionCovers(Dec(docId), Dec(docId), i);
    }
    if |chunks| > MaxChunks {
      assert recs[MaxChunks].id !in DeletionIds(Dec(docId));
    }
  }

  /**
   * The id taken from the path is used as written: deleting "/documents/007"
   * addresses "007-chunk-*", none of which ingestion of document 7 wrote.
   */
  lemma PaddedIdMissesVectors(docId: nat, title: string, chunks: seq<string>, segment: string)
    requires segment == "007" && docId == 7
    ensures var recs := IngestRecords(docId, title, chunks);
      forall i :: 0 <= i < |recs| ==> recs[i].id !in DeletionIds(segment)
  {
    assert DigitChar(7) == '7';
    assert Dec(7) == "7";
    var recs := IngestRecords(docId, title, chunks);
    forall i | 0 <= i < |recs|
      ensures recs[i].id !in DeletionIds(segment)
    {
      DeletionCovers(segment, Dec(docId), i);
    }
  }

  // ---------------------------------------------------------------------------
  // Query response
  // ---------------------------------------------------------------------------

  /** One entry of the `sources` list. */
  datatype Source = Source(number: nat, title: string, excerpt: string, score: real, docId: string)

  /** `match.metadata.text.substring(0, 200) + '...'`. */
  function Excerpt(text: string): (e: string)
    ensures |e| >= 3 && e[|e| - 3..] == "..."
    ensures var p := e[..|e| - 3];
      && |p| <= |text| && p == text[..|p|] && Utf16Length(p) <= 200
      && (p == text || Utf16Length(text[..|p| + 1]) > 200)
    ensures (forall k :: 0 <= k < |text| ==> text[k] as int <= 0xFFFF) ==>
      e == text[..Min(200, |text|)] + "..."
  {
    var p := Utf16Prefix(text, 200);
    Utf16PrefixFits(text, 200);
    assert (p + "...")[..|p|] == p;
    Utf16PrefixBmp(text, 200);
    p + "..."
  }

  /** `topMatches.map((match, i) => ({ number: i + 1, ... }))`. */
  function SourcesOf(top: seq<Match>): (r: seq<Source>)
    ensures |r| == |top|
  {
    seq(|top|, i requires 0 <= i < |top| =>
      Source(i + 1, top[i].title, Excerpt(top[i].text), top[i].score, top[i].docId))
  }

  /**
   * The source list numbers the matches 1, 2, ... in ranking order; each
   * excerpt is the longest prefix of the chunk text of at most 200 UTF-16 code units, followed by "...";
   * scores and document ids are carried over, so a best-first list of
   * distinct documents gives a best-first list of distinct sources.
   */
  lemma SourcesProps(top: seq<Match>)
    ensures var r := SourcesOf(top);
      && (forall i :: 0 <= i < |r| ==>
            && r[i].number == i + 1 && r[i].title == top[i].title
            && r[i].docId == top[i].docId && r[i].score == top[i].score)
      && (forall i :: 0 <= i < |r| ==>
            r[i].excerpt == Utf16Prefix(top[i].text, 200) + "...")
      && (SortedDesc(top, Score) ==> forall i, j :: 0 <= i < j < |r| ==> r[i].score >= r[j].score)
      && (DistinctBy(top, DocKey) ==> forall i, j :: 0 <= i < j < |r| ==> r[i].docId != r[j].docId)
  {
  }

  /** `[Source ${i + 1}: ${title}]\n${text}`. */
  function SourceBlock(i: nat, m: Match): (r: string)
    ensures StartsWith(r, "[Source ")
    ensures |r| > |m.text| && r[|r| - |m.text|..] == m.text
  {
    var r := "[Source " + Dec(i + 1) + ": " + m.title + "]\n" + m.text;
    assert r[..8] == "[Source ";
    r
  }

  /** The context block: the labelled chunks joined with blank lines; empty exactly when nothing matched. */
  function ContextOf(top: seq<Match>): (r: string)
    ensures r == [] <==> top == []
  {
    var blocks := seq(|top|, i requires 0 <= i < |top| => SourceBlock(i, top[i]));
    assert top != [] ==> |Join(blocks, "\n\n")| >= |blocks[0]|;
    Join(blocks, "\n\n")
  }

  /** Every kept chunk's text appears in the context handed to the answer model. */
  lemma ContextHoldsTexts(top: seq<Match>)
    ensures forall i :: 0 <= i < |top| ==> Contains(ContextOf(top), top[i].text)
  {
    var blocks := seq(|top|, i requires 0 <= i < |top| => SourceBlock(i, top[i]));
    forall i | 0 <= i < |top|
      ensures Contains(ContextOf(top), top[i].text)
    {
      JoinContains(blocks, "\n\n", i, "[Source " + Dec(i + 1) + ": " + top[i].title + "]\n", top[i].text);
    }
  }

  /** The user message of the answer request. */
  function UserPrompt(context: string, question: string): (r: string)
    ensures StartsWith(r, "Context:\n" + context)
    ensures Contains(r, question)
  {
    var head := "Context:\n" + context + "\n\nQuestion: ";
    var tail := question + "\n\nAnswer (with source citations):";
    assert StartsWith(tail, question) by {
      assert tail[..|question|] == question;
    }
    ContainsSuffix(head, tail, question);
    assert (head + tail)[..|"Context:\n" + context|] == "Context:\n" + context;
    head + tail
  }

  datatype Debug = Debug(embeddingPreview: seq<real>, totalMatches: nat, context: string)

  datatype QueryResult = QueryResult(
    candidates: nat,
    prompt: string,
    answer: string,
    sources: seq<Source>,
    debug: Option<Debug>)

  /**
   * `queryKnowledgeBase`: `candidates` is the `topK` handed to the index
   * (twice the requested count), `similar` is what the index returned for
   * the question embedding `embedding`, and `answer` is what the answer
   * model returned for `prompt`.
   */
  method QueryKnowledgeBase(question: string, topK: nat, includeDebug: bool, embedding: seq<real>,
                            similar: seq<Match>, answer: string) returns (r: QueryResult)
    ensures r.candidates == 2 * topK
    ensures var top := TopBest(similar, DocKey, Score, topK);
      && r.sources == SourcesOf(top)
      && r.prompt == UserPrompt(ContextOf(top), question)
    ensures |r.sources| <= topK
    ensures r.answer == answer
    ensures r.debug.Some? <==> includeDebug
    ensures r.debug.Some? ==>
      && r.debug.value.embeddingPreview == Take(embedding, 5) && r.debug.value.totalMatches == |similar|
      && r.debug.value.context == ContextOf(TopBest(similar, DocKey, Score, topK))
  {
    var topMatches := DedupByDocument(similar, topK);
    DedupProps(similar, topK);
    var context := ContextOf(topMatches);
    var debug: Option<Debug> := None;
    if includeDebug {
      debug := Some(Debug(Take(embedding, 5), |similar|, context));
    }
    r := QueryResult(topK * 2, UserPrompt(context, question), answer, SourcesOf(topMatches), debug);
  }
}
