# Verified model of the Cloudflare Workers example handlers

This project models the algorithmic core of four example workers from the
Cloudflare expert plugin, in Dafny. It proves the properties those handlers
promise.

- **RAG worker** (`rag-implementation.js`):
  - the `fetch` route table and the document-id parse;
  - the `chunkText` sentence-snapping chunker;
  - the vector ids written by `addDocument` and dropped by `deleteDocument`;
  - the best-chunk-per-document dedup and the source list of `queryKnowledgeBase`;
  - the vector/keyword merge of `hybridSearch`;
  - the best-per-id merge of `queryExpansion`.
- **Error handling** (`error-handling.js`):
  - the `APIError` hierarchy as one tagged datatype;
  - `handleError`, `validateUserInput` and the classifiers of `safeDBQuery`, `safeFetch` and `fetchWithTimeout`;
  - the fallback order of `gracefulDegradation`;
  - the bounded retry loop of `fetchWithRetry`, with its backoff delays.
- **Request routing and middleware** (`fetch-handler-patterns.js`):
  - the `Router` class and its `:param` matcher;
  - the middleware chain and `authMiddleware`;
  - the KV rate-limit counter;
  - CORS;
  - method dispatch;
  - pagination offsets.
- **Platform objects** (`multi-product-architecture.js`):
  - the `Inventory` reservation object and order creation on top of it;
  - the `Room` WebSocket session list;
  - the queue consumers' ack/retry loop;
  - the cache-aside product lookup and path parse;
  - the recommendation slice.

Every call into a platform service becomes a parameter: the SQL store, KV,
R2, the vector index, the inference API, queues and outbound `fetch`. The
handler takes what the service answered, such as index matches, keyword rows,
HTTP statuses, thrown errors or cache entries. Where the handler writes to a
service, the model returns what it would write: vector records, ids to delete,
KV updates and effects.

Objects that the source updates in place become classes with `modifies`
clauses: `Router`, `RateLimiter`, `Inventory`, `Room` and `ProductCache`.
Loops that update variables become methods with loop invariants. Each such
method is tied to a specification function, and the promised properties are
proved as lemmas about that function.

## Modules

| file | module | what it holds |
|---|---|---|
| text.dfy | `Text` | JavaScript string built-ins: `trim`, `split`, `join`, `includes`, `startsWith`; `toString` and `parseInt` on integers; `filter` |
| ranking.dfy | `Ranking` | stable descending sort, `slice(0, k)`, and the keep-best-per-key fold over an insertion-ordered `Map` |
| chunker.dfy | `Chunker` | `chunkText` and the span specification of its loop |
| retrieval.dfy | `Retrieval` | dedup by document, hybrid merge, query-expansion merge |
| rag_worker.dfy | `RagWorker` | routes, vector ids, ingestion records, deletion ids, source list and prompt assembly |
| error_handling.dfy | `ErrorHandling` | error kinds, `handleError`, validation, error classifiers, degradation, retry |
| routing.dfy | `Routing` | `Router`, `matchPath`, method dispatch |
| middleware.dfy | `Middleware` | middleware chain, auth, rate limiter, CORS, pagination |
| platform.dfy | `Platform` | `Inventory`, order creation, queue consumers, `Room`, product cache |

## Model

| member | source | states |
|---|---|---|
| Text.Trim | plugins/cloudflare-expert/skills/workers-ai/examples/rag-implementation.js:230 | `trim` leaves no white space at either end, never lengthens, and is empty exactly when the input is all white space |
| Text.TrimStart | plugins/cloudflare-expert/skills/workers-ai/examples/rag-implementation.js:230 | the result is a suffix of the input, the dropped prefix is all white space, and the result does not start with white space |
| Text.TrimEnd | plugins/cloudflare-expert/skills/workers-ai/examples/rag-implementation.js:230 | the result is a prefix of the input, the dropped suffix is all white space, and the result does not end with white space |
| Text.TrimOfTrimmed | plugins/cloudflare-expert/skills/workers-ai/examples/rag-implementation.js:230 | trimming a string with no white space at its ends gives it back |
| Text.ContainsAt | plugins/cloudflare-expert/skills/workers-development/examples/error-handling.js:220 | `includes` holds exactly when the substring starts at some position of the string |
| Text.JoinContains | plugins/cloudflare-expert/skills/workers-ai/examples/rag-implementation.js:119-121 | the tail of any part of a `join` occurs in the joined string |
| Text.Split | plugins/cloudflare-expert/skills/workers-ai/examples/rag-implementation.js:32 | `split` on one character gives at least one part, and no part contains the separator |
| Text.JoinSplit | plugins/cloudflare-expert/skills/workers-ai/examples/rag-implementation.js:32 | joining the parts of a split with the same separator gives back the string |
| Text.SplitJoin | plugins/cloudflare-expert/skills/workers-development/examples/fetch-handler-patterns.js:105-116 | splitting a join of separator-free parts gives back the parts |
| Text.SplitPlain | plugins/cloudflare-expert/skills/workers-ai/examples/rag-implementation.js:32 | a string without the separator splits into itself alone |
| Text.Dec | plugins/cloudflare-expert/skills/workers-development/examples/fetch-handler-patterns.js:408 | `toString` of a natural number is a non-empty digit string, with a leading zero only for 0 itself |
| Text.ParseDec | plugins/cloudflare-expert/skills/workers-development/examples/fetch-handler-patterns.js:407-408 | `parseInt` of `n.toString()` is `n` |
| Text.DecInjective | plugins/cloudflare-expert/skills/workers-ai/examples/rag-implementation.js:64 | different numbers print differently |
| Text.IntToString | plugins/cloudflare-expert/skills/workers-development/examples/error-handling.js:114 | `parseInt` reads the printed number back: a non-negative integer prints as digits that parse to it, a negative one as '-' followed by digits that parse to its magnitude |
| Text.IntToStringInjective | plugins/cloudflare-expert/skills/workers-development/examples/error-handling.js:114 | different integers print differently |
| Text.Utf16Length | plugins/cloudflare-expert/skills/workers-development/examples/error-handling.js:155 | `length` counts UTF-16 code units: between one and two per character |
| Text.Utf16LengthAppend | plugins/cloudflare-expert/skills/workers-development/examples/error-handling.js:155 | the code-unit length of a concatenation is the sum of the parts' lengths |
| Text.Utf16LengthBmp | plugins/cloudflare-expert/skills/workers-development/examples/error-handling.js:155 | the code-unit length equals the character count exactly when every character lies in the Basic Multilingual Plane |
| Text.Utf16LengthAstral | plugins/cloudflare-expert/skills/workers-development/examples/error-handling.js:155 | characters outside the Basic Multilingual Plane count two code units each |
| Text.Utf16Prefix | plugins/cloudflare-expert/skills/workers-ai/examples/rag-implementation.js:145 | `substring(0, n)` on whole characters is a prefix of the string |
| Text.Utf16PrefixFits | plugins/cloudflare-expert/skills/workers-ai/examples/rag-implementation.js:145 | that prefix has at most `n` code units, and it is the whole string or one more character would exceed `n` |
| Text.Utf16PrefixBmp | plugins/cloudflare-expert/skills/workers-ai/examples/rag-implementation.js:145 | on text of the Basic Multilingual Plane the prefix is the first `n` characters |
| Text.Filter | plugins/cloudflare-expert/skills/workers-ai/examples/rag-implementation.js:258 | `filter` keeps exactly the elements satisfying the test, and nothing else |
| Text.FilterAppend | plugins/cloudflare-expert/skills/workers-ai/examples/rag-implementation.js:258 | `filter` of a concatenation is the concatenation of the filters: kept elements stay in their order, each as often as it occurred |
| Text.FilterSingleton | plugins/cloudflare-expert/skills/workers-ai/examples/rag-implementation.js:258 | one element is kept exactly when it passes the test; with Text.FilterAppend this fixes the whole result |
| Text.Without | plugins/cloudflare-expert/skills/cloudflare-platform/examples/multi-product-architecture.js:332 | filtering out a value keeps every other element and only those |
| Text.WithoutAppend | plugins/cloudflare-expert/skills/cloudflare-platform/examples/multi-product-architecture.js:332 | filtering a concatenation filters both halves |
| Text.WithoutAbsent | plugins/cloudflare-expert/skills/cloudflare-platform/examples/multi-product-architecture.js:332 | filtering out a value that is not there changes nothing |
| Ranking.Insert | plugins/cloudflare-expert/skills/workers-ai/examples/rag-implementation.js:115 | inserting into the sorted list adds exactly that element (multiset) |
| Ranking.InsertSorted | plugins/cloudflare-expert/skills/workers-ai/examples/rag-implementation.js:115 | insertion keeps a list sorted by descending score |
| Ranking.SortDesc | plugins/cloudflare-expert/skills/workers-ai/examples/rag-implementation.js:115 | `sort((a, b) => b.score - a.score)` returns a permutation of its input, in descending score order |
| Ranking.InsertStable | plugins/cloudflare-expert/skills/workers-ai/examples/rag-implementation.js:115 | insertion puts the new element ahead of the equal-scored elements that followed it |
| Ranking.SortStable | plugins/cloudflare-expert/skills/workers-ai/examples/rag-implementation.js:115 | the sort is stable: elements of equal score keep their input order |
| Ranking.SortOfSorted | plugins/cloudflare-expert/skills/workers-ai/examples/rag-implementation.js:115 | sorting an already sorted list changes nothing |
| Ranking.InsertDistinct | plugins/cloudflare-expert/skills/workers-ai/examples/rag-implementation.js:115 | inserting an element with a new key keeps keys distinct |
| Ranking.SortDistinct | plugins/cloudflare-expert/skills/workers-ai/examples/rag-implementation.js:115 | sorting keeps keys distinct |
| Ranking.Take | plugins/cloudflare-expert/skills/workers-ai/examples/rag-implementation.js:116 | `slice(0, k)` is the prefix of length `min(k, length)` |
| Ranking.BestByKeySnoc | plugins/cloudflare-expert/skills/workers-ai/examples/rag-implementation.js:106-111 | the fold over one more entry is one more upsert step |
| Ranking.UpsertPut | plugins/cloudflare-expert/skills/workers-ai/examples/rag-implementation.js:108-109 | a fold step is `Map.set` when the key is new or its stored score is strictly lower, and a no-op otherwise |
| Ranking.FirstBestKeep | plugins/cloudflare-expert/skills/workers-ai/examples/rag-implementation.js:108 | an entry that is first-best for its key stays so unless a later entry of that key beats it |
| Ranking.FirstBestLast | plugins/cloudflare-expert/skills/workers-ai/examples/rag-implementation.js:108 | an entry that strictly beats all earlier entries of its key is first-best |
| Ranking.UpsertInv | plugins/cloudflare-expert/skills/workers-ai/examples/rag-implementation.js:106-111 | one fold step preserves the table invariant: each key listed once, and each kept entry the first best of its key |
| Ranking.BestByKeyInv | plugins/cloudflare-expert/skills/workers-ai/examples/rag-implementation.js:105-111 | the whole fold satisfies the table invariant |
| Ranking.ValuesOfAt | plugins/cloudflare-expert/skills/workers-ai/examples/rag-implementation.js:114 | `Array.from(m.values())` lists the stored values in key-insertion order |
| Ranking.ValuesCount | plugins/cloudflare-expert/skills/workers-ai/examples/rag-implementation.js:105-114 | the fold's values number exactly the distinct keys seen, and no two share a key |
| Ranking.ValuesFirstBest | plugins/cloudflare-expert/skills/workers-ai/examples/rag-implementation.js:105-114 | every value is the first best entry of its key, and every such entry is a value |
| Ranking.SortTakeProps | plugins/cloudflare-expert/skills/workers-ai/examples/rag-implementation.js:114-116 | sort-then-slice of distinct-keyed values has length `min(n, count)`, stays sorted and distinct, and leaves out nothing that outscores a kept entry |
| Ranking.SortMembers | plugins/cloudflare-expert/skills/workers-ai/examples/rag-implementation.js:115 | sorting keeps exactly the elements it was given |
| Ranking.TakeSorted | plugins/cloudflare-expert/skills/workers-ai/examples/rag-implementation.js:116 | a prefix of a sorted list is sorted, and what it leaves out scores no higher than what it keeps |
| Ranking.TopBestProps | plugins/cloudflare-expert/skills/workers-ai/examples/rag-implementation.js:105-116 | keep-best-per-key, sort and slice give `min(n, #keys)` entries, best first, one per key, each the first best of its key; nothing dropped outscores anything kept |
| Ranking.UnseenKey | plugins/cloudflare-expert/skills/workers-ai/examples/rag-implementation.js:108 | a key that no entry carries never enters the table |
| Ranking.BestByKeyOfDistinct | plugins/cloudflare-expert/skills/workers-ai/examples/rag-implementation.js:105-114 | on input with distinct keys the fold gives back the input |
| Ranking.TopBestIdempotent | plugins/cloudflare-expert/skills/workers-ai/examples/rag-implementation.js:105-116 | ranking the ranked output again changes nothing |
| Chunker.LastIndexOfSpec | plugins/cloudflare-expert/skills/workers-ai/examples/rag-implementation.js:216-217 | `lastIndexOf` finds the character with none after it, or returns -1 when the character is absent |
| Chunker.BoundarySpec | plugins/cloudflare-expert/skills/workers-ai/examples/rag-implementation.js:216-218 | the boundary is the last '.' or '\n' of the window, or -1 when there is none |
| Chunker.CutAt | plugins/cloudflare-expert/skills/workers-ai/examples/rag-implementation.js:211-235 | one iteration cuts inside the window; the cut reaches the end exactly when the window does; overlap is rewound only when text remains; under valid parameters the start moves forward |
| Chunker.CutSnap | plugins/cloudflare-expert/skills/workers-ai/examples/rag-implementation.js:214-228 | a window short of the end with a break past its middle is cut just after its last break, so the raw chunk ends in '.' or '\n'; without one it is cut at the window's end |
| Chunker.Spans | plugins/cloudflare-expert/skills/workers-ai/examples/rag-implementation.js:210-236 | every range the loop cuts lies inside the text |
| Chunker.SpansBounds | plugins/cloudflare-expert/skills/workers-ai/examples/rag-implementation.js:211-212 | every raw chunk is a non-empty substring `text[start..end)` with `end <= start + chunkSize` |
| Chunker.PiecesAt | plugins/cloudflare-expert/skills/workers-ai/examples/rag-implementation.js:230 | piece `k` is range `k` of the text, trimmed |
| Chunker.NonEmpty | plugins/cloudflare-expert/skills/workers-ai/examples/rag-implementation.js:238 | `filter(c => c.length > 0)` keeps exactly the non-empty pieces |
| Chunker.NonEmptyAppend | plugins/cloudflare-expert/skills/workers-ai/examples/rag-implementation.js:238 | dropping the empty chunks of a concatenation drops them from each half, keeping order and multiplicity |
| Chunker.NonEmptySingleton | plugins/cloudflare-expert/skills/workers-ai/examples/rag-implementation.js:238 | one chunk is kept exactly when it is not empty; with Chunker.NonEmptyAppend this fixes the chunk list |
| Chunker.SpansStep | plugins/cloudflare-expert/skills/workers-ai/examples/rag-implementation.js:210-236 | the loop's ranges are the first cut followed by the ranges from the next start |
| Chunker.ChunkText | plugins/cloudflare-expert/skills/workers-ai/examples/rag-implementation.js:206-239 | the loop returns the trimmed, non-empty pieces of the ranges its specification cuts, each non-empty and trimmed |
| Chunker.ChunksClean | plugins/cloudflare-expert/skills/workers-ai/examples/rag-implementation.js:230-238 | every chunk is non-empty and has no white space at either end |
| Chunker.SpansEnds | plugins/cloudflare-expert/skills/workers-ai/examples/rag-implementation.js:210-228 | the first range starts at the start position and the last one ends at the end of the text |
| Chunker.SpansLinks | plugins/cloudflare-expert/skills/workers-ai/examples/rag-implementation.js:232-235 | every range but the last stops short of the end, and the next one begins exactly `chunkOverlap` before it ends and after it begins |
| Chunker.SpansCut | plugins/cloudflare-expert/skills/workers-ai/examples/rag-implementation.js:211-228 | every range is the one-iteration cut at its own start |
| Chunker.SpansWindow | plugins/cloudflare-expert/skills/workers-ai/examples/rag-implementation.js:211-215 | a range reaches the end of the text exactly when its window does |
| Chunker.SpansCover | plugins/cloudflare-expert/skills/workers-ai/examples/rag-implementation.js:210-236 | every character of the text lies in some range |
| Chunker.ShortText | plugins/cloudflare-expert/skills/workers-ai/examples/rag-implementation.js:210-238 | a text no longer than `chunkSize` gives `[trim(text)]`, or `[]` when it is all white space |
| Chunker.ProgressExact | plugins/cloudflare-expert/skills/workers-ai/examples/rag-implementation.js:220-235 | the loop moves forward from every position of every text exactly when `0 < chunkSize`, `chunkOverlap < chunkSize` and `chunkOverlap <= chunkSize / 2 + 1` |
| Chunker.SnapExample | plugins/cloudflare-expert/skills/workers-ai/examples/rag-implementation.js:214-228 | "AAAA. BBBB. CCCC." with window 10 and overlap 2 gives "AAAA. BBBB" and "BB. CCCC." |
| Chunker.ExampleCuts | plugins/cloudflare-expert/skills/workers-ai/examples/rag-implementation.js:214-235 | on that text the first window is cut raw at 10 and rewound to 8, and the second reaches the end |
| Chunker.StallExample | plugins/cloudflare-expert/skills/workers-ai/examples/rag-implementation.js:220-235 | with window 6 and overlap 5 the loop is rewound to where it began, so it never ends |
| Retrieval.DedupByDocument | plugins/cloudflare-expert/skills/workers-ai/examples/rag-implementation.js:104-116 | the `uniqueDocs` loop then sort and slice compute the keep-best-per-document ranking of the matches |
| Retrieval.DedupProps | plugins/cloudflare-expert/skills/workers-ai/examples/rag-implementation.js:104-116 | at most `topK` matches, one per document, best first, each its document's first highest-scoring chunk; no dropped document outscores a kept one |
| Retrieval.DedupIdempotent | plugins/cloudflare-expert/skills/workers-ai/examples/rag-implementation.js:104-116 | deduplicating already deduplicated output changes nothing |
| Retrieval.DedupExample | plugins/cloudflare-expert/skills/workers-ai/examples/rag-implementation.js:104-116 | document 1 at 0.9 and 0.95 and document 2 at 0.8, top 2: the 0.95 and 0.8 matches |
| Retrieval.Keywords | plugins/cloudflare-expert/skills/workers-ai/examples/rag-implementation.js:258 | the keywords are the space-separated words of the lower-cased question longer than three UTF-16 code units, and every such word is one; the list is a Text.Filter of the words, so Text.FilterAppend fixes their order and multiplicity |
| Retrieval.HybridScore | plugins/cloudflare-expert/skills/workers-ai/examples/rag-implementation.js:295-298 | with a vector score and a keyword score in [0, 1] the hybrid score is in [0, 1] |
| Retrieval.KeywordBoost | plugins/cloudflare-expert/skills/workers-ai/examples/rag-implementation.js:295-298 | a keyword hit lifts an entry by exactly 0.3 over the same entry without one |
| Retrieval.Lower | plugins/cloudflare-expert/skills/workers-ai/examples/rag-implementation.js:258 | `toLowerCase` maps each ASCII capital to its small letter and keeps every other character |
| Retrieval.HybridMerge | plugins/cloudflare-expert/skills/workers-ai/examples/rag-implementation.js:267-301 | the two `forEach` passes over the `combined` map, then sort and slice, compute the hybrid ranking of the two passes |
| Retrieval.VectorPassKeys | plugins/cloudflare-expert/skills/workers-ai/examples/rag-implementation.js:270-276 | after the vector pass there is one entry per matched document and no other |
| Retrieval.VectorPassScores | plugins/cloudflare-expert/skills/workers-ai/examples/rag-implementation.js:270-276 | the set is unconditional: each entry has `keywordScore` 0 and the score of its document's last match |
| Retrieval.KeywordPassKeys | plugins/cloudflare-expert/skills/workers-ai/examples/rag-implementation.js:279-289 | the keyword pass keeps every entry and adds one for each new keyword document |
| Retrieval.KeywordPassScores | plugins/cloudflare-expert/skills/workers-ai/examples/rag-implementation.js:279-289 | a keyword hit on a known document sets only `keywordScore` to 1; a new document enters with `vectorScore` 0 and `keywordScore` 1 |
| Retrieval.CombinedEntries | plugins/cloudflare-expert/skills/workers-ai/examples/rag-implementation.js:267-289 | the merged map holds exactly the vector-matched and keyword-hit documents, with `keywordScore` 1 exactly for keyword hits and the last vector score (or 0) |
| Retrieval.HybridRanking | plugins/cloudflare-expert/skills/workers-ai/examples/rag-implementation.js:292-301 | at most three distinct documents, in descending `0.7 * v + 0.3 * k`, each a merged entry; no merged entry outscores a kept one |
| Retrieval.KeyedValues | plugins/cloudflare-expert/skills/workers-ai/examples/rag-implementation.js:295 | the values of the merged map are one per document, each filed under its own id |
| Retrieval.HybridExample | plugins/cloudflare-expert/skills/workers-ai/examples/rag-implementation.js:270-301 | a vector match at 0.8 that is also a keyword hit scores 0.86 |
| Retrieval.Questions | plugins/cloudflare-expert/skills/workers-ai/examples/rag-implementation.js:321 | the original question comes first, followed by the non-blank lines of the model output, every such line among them; the tail is a Text.Filter of the lines, so Text.FilterAppend fixes their order and multiplicity |
| Retrieval.ExpansionMerge | plugins/cloudflare-expert/skills/workers-ai/examples/rag-implementation.js:329-344 | the nested `allMatches` loops, then sort and slice, compute the keep-best-per-id ranking over all result sets in visiting order |
| Retrieval.InFlatten | plugins/cloudflare-expert/skills/workers-ai/examples/rag-implementation.js:331-339 | a match is visited exactly when it belongs to one of the result sets |
| Retrieval.ExpansionProps | plugins/cloudflare-expert/skills/workers-ai/examples/rag-implementation.js:329-344 | at most three matches, best first, each id once, each from some result set and scoring at least as high as every match of its id in every set |
| Retrieval.KeptIsMax | plugins/cloudflare-expert/skills/workers-ai/examples/rag-implementation.js:335-338 | the entry kept for an id comes from some set and is the maximum over all matches of that id |
| Retrieval.ExpansionExample | plugins/cloudflare-expert/skills/workers-ai/examples/rag-implementation.js:329-344 | id "x" at 0.7 and then at 0.9 comes out once, at 0.9 |
| RagWorker.SplitDocumentPath | plugins/cloudflare-expert/skills/workers-ai/examples/rag-implementation.js:31-32 | a path `/documents/<digits>` splits on '/' into three parts, the third being the digits |
| RagWorker.RagRoute | plugins/cloudflare-expert/skills/workers-ai/examples/rag-implementation.js:16-36 | a delete route always carries a non-empty digit string as its id |
| RagWorker.DeleteRouteExact | plugins/cloudflare-expert/skills/workers-ai/examples/rag-implementation.js:31-33 | DELETE reaches the deletion exactly on `/documents/<digits>`, with the digits as the document id |
| RagWorker.RouteExamples | plugins/cloudflare-expert/skills/workers-ai/examples/rag-implementation.js:31-36 | DELETE "/documents/42" deletes "42"; "/documents/42/x" is not found |
| RagWorker.ChunkIdInjective | plugins/cloudflare-expert/skills/workers-ai/examples/rag-implementation.js:64 | for digit-string document ids, `${docId}-chunk-${i}` determines both the document and the index |
| RagWorker.ChunkId | plugins/cloudflare-expert/skills/workers-ai/examples/rag-implementation.js:64 | the id is the document id, then "-chunk-", then digits that `parseInt` reads back as the chunk index |
| RagWorker.IngestRecords | plugins/cloudflare-expert/skills/workers-ai/examples/rag-implementation.js:63-72 | ingestion writes as many records as there are chunks |
| RagWorker.IngestRecordsProps | plugins/cloudflare-expert/skills/workers-ai/examples/rag-implementation.js:63-72 | record `i` holds chunk `i` with id `"{docId}-chunk-{i}"` and `chunkIndex = i`, and no two records share an id |
| RagWorker.AddDocument | plugins/cloudflare-expert/skills/workers-ai/examples/rag-implementation.js:44-84 | the records are those of the 500/50 chunks of the text; the reply is 201 with the chunk count; every record's text is non-empty and trimmed |
| RagWorker.DeletionIds | plugins/cloudflare-expert/skills/workers-ai/examples/rag-implementation.js:189-193 | deletion names exactly `maxChunks` = 100 ids |
| RagWorker.DeleteIds | plugins/cloudflare-expert/skills/workers-ai/examples/rag-implementation.js:189-193 | the `vectorIds` loop builds the ids for chunk indices 0 to 99 in order |
| RagWorker.DeletionCovers | plugins/cloudflare-expert/skills/workers-ai/examples/rag-implementation.js:189-195 | a chunk id is deleted exactly when it belongs to the document and its index is below 100 |
| RagWorker.FullRemoval | plugins/cloudflare-expert/skills/workers-ai/examples/rag-implementation.js:63-72 | every vector of a document is deleted exactly when it had at most 100 chunks |
| RagWorker.PaddedIdMissesVectors | plugins/cloudflare-expert/skills/workers-ai/examples/rag-implementation.js:31-32 | deleting "/documents/007" addresses none of the vectors written for document 7 |
| RagWorker.Excerpt | plugins/cloudflare-expert/skills/workers-ai/examples/rag-implementation.js:145 | an excerpt is the longest prefix of the text of at most 200 UTF-16 code units followed by "..."; on text of the Basic Multilingual Plane that is the first `min(200, length)` characters |
| RagWorker.SourcesOf | plugins/cloudflare-expert/skills/workers-ai/examples/rag-implementation.js:142-148 | there is one source per kept match |
| RagWorker.SourcesProps | plugins/cloudflare-expert/skills/workers-ai/examples/rag-implementation.js:142-148 | sources are numbered 1, 2, … in ranking order and carry each match's title, score and document; the excerpt is the text's longest prefix of at most 200 UTF-16 code units followed by "..."; best-first distinct matches give best-first distinct sources |
| RagWorker.ContextHoldsTexts | plugins/cloudflare-expert/skills/workers-ai/examples/rag-implementation.js:119-121 | every kept chunk's text appears in the context given to the answer model |
| RagWorker.SourceBlock | plugins/cloudflare-expert/skills/workers-ai/examples/rag-implementation.js:120 | a context block starts with "[Source " and ends with the chunk text |
| RagWorker.ContextOf | plugins/cloudflare-expert/skills/workers-ai/examples/rag-implementation.js:119-121 | the context is empty exactly when no match was kept |
| RagWorker.UserPrompt | plugins/cloudflare-expert/skills/workers-ai/examples/rag-implementation.js:131-132 | the user message starts with "Context:" and the context, and contains the question |
| RagWorker.QueryKnowledgeBase | plugins/cloudflare-expert/skills/workers-ai/examples/rag-implementation.js:90-162 | the index is asked for `2 * topK` candidates; sources and prompt come from the dedup ranking (at most `topK`); debug information is present exactly when requested, and then holds the first five embedding values, the match count and the same context the prompt was built from |
| ErrorHandling.NewApiError | plugins/cloudflare-expert/skills/workers-development/examples/error-handling.js:43-50 | a plain `APIError` defaults to 500 `INTERNAL_ERROR` and keeps its message |
| ErrorHandling.SubclassCodes | plugins/cloudflare-expert/skills/workers-development/examples/error-handling.js:52-80 | fixed status/code pairs: 400/VALIDATION_ERROR, 404/NOT_FOUND with "<resource> not found", 401/UNAUTHORIZED, 429/RATE_LIMIT_EXCEEDED; retryAfter defaults to 60 and resource to "Resource" |
| ErrorHandling.Status | plugins/cloudflare-expert/skills/workers-development/examples/error-handling.js:43-80 | a plain `APIError` reports its own status; every subclass reports a 4xx status |
| ErrorHandling.Code | plugins/cloudflare-expert/skills/workers-development/examples/error-handling.js:43-80 | a plain `APIError` reports its own code; no subclass reports the generic INTERNAL_ERROR |
| ErrorHandling.Message | plugins/cloudflare-expert/skills/workers-development/examples/error-handling.js:43-80 | the message is the one given, except that a not-found error composes "<resource> not found" and a rate-limit error "Rate limit exceeded" |
| ErrorHandling.ErrorResponse | plugins/cloudflare-expert/skills/workers-development/examples/error-handling.js:86-134 | an API error answers with its status, code and message; `fields` appears exactly for validation errors and `Retry-After` exactly for rate-limit errors; anything else is 500 INTERNAL_ERROR; JSON content type always |
| ErrorHandling.HandleError | plugins/cloudflare-expert/skills/workers-development/examples/error-handling.js:99-121 | building `body` and `headers` step by step yields that response |
| ErrorHandling.UnknownErrorHidden | plugins/cloudflare-expert/skills/workers-development/examples/error-handling.js:124-133 | all non-API errors get the same response, 500 with the fixed message 'An unexpected error occurred': nothing of the original leaks |
| ErrorHandling.IsEmail | plugins/cloudflare-expert/skills/workers-development/examples/error-handling.js:161 | an accepted address has at least five characters, contains '@' and has no white space |
| ErrorHandling.NameCheck | plugins/cloudflare-expert/skills/workers-development/examples/error-handling.js:153-157 | the name passes exactly when it is a non-blank string of at most 100 UTF-16 code units; a truthy non-string throws a TypeError |
| ErrorHandling.EmailCheck | plugins/cloudflare-expert/skills/workers-development/examples/error-handling.js:159-163 | the email passes exactly when it is a non-blank string of the address shape; a truthy non-string throws a TypeError |
| ErrorHandling.AgeCheck | plugins/cloudflare-expert/skills/workers-development/examples/error-handling.js:165-169 | the age passes exactly when it is absent or a non-negative number; it never throws |
| ErrorHandling.FieldErrors | plugins/cloudflare-expert/skills/workers-development/examples/error-handling.js:151-169 | each of name, email and age has an entry exactly when its check fails, with that check's message; age is never checked when absent; no other keys |
| ErrorHandling.ValidateUserInput | plugins/cloudflare-expert/skills/workers-development/examples/error-handling.js:150-174 | a `TypeError` is thrown exactly when `trim` is called on a truthy non-string; otherwise a ValidationError "Validation failed" with the collected fields is thrown exactly when at least one field failed |
| ErrorHandling.AddEntry | plugins/cloudflare-expert/skills/workers-development/examples/error-handling.js:153-168 | recording a field's failure in `errors` is merging that field's entry |
| ErrorHandling.NameLimits | plugins/cloudflare-expert/skills/workers-development/examples/error-handling.js:153-157 | 101 code units are too many, 100 are accepted, a blank name is required; on the Basic Multilingual Plane dropping the last of 101 characters is accepted |
| ErrorHandling.AstralNameTooLong | plugins/cloudflare-expert/skills/workers-development/examples/error-handling.js:155-156 | a name of 60 emoji is 120 code units and is refused as too long |
| ErrorHandling.EmailExamples | plugins/cloudflare-expert/skills/workers-development/examples/error-handling.js:161 | "a@b.c" is an email; "a@b", "a@.c", "a b@c.d" and "a@b@c.d" are not |
| ErrorHandling.ClassifyDbError | plugins/cloudflare-expert/skills/workers-development/examples/error-handling.js:220-241 | 'UNIQUE constraint' gives 409 DUPLICATE_ENTRY 'Record already exists'; otherwise 'NOT NULL constraint' gives 400 MISSING_REQUIRED_FIELD 'Required field missing'; anything else 500 DATABASE_ERROR 'Database operation failed'; each status occurs exactly in its case |
| ErrorHandling.SafeDbQuery | plugins/cloudflare-expert/skills/workers-development/examples/error-handling.js:213-243 | a query result passes through unchanged; a database error becomes its classification |
| ErrorHandling.HttpError | plugins/cloudflare-expert/skills/workers-development/examples/error-handling.js:284-312 | 404 → NotFound('External resource'), 401/403 → Unauthorized, 429 → RateLimit(Retry-After), ≥500 → 503 SERVICE_UNAVAILABLE, anything else → 502 BAD_GATEWAY 'External API error: <status>' |
| ErrorHandling.RetryAfterSeconds | plugins/cloudflare-expert/skills/workers-development/examples/error-handling.js:295-296 | a missing or empty `Retry-After` means 60 seconds; the wait is never negative |
| ErrorHandling.RetryAfterRoundTrip | plugins/cloudflare-expert/skills/workers-development/examples/error-handling.js:295-296 | a `Retry-After` holding a number's decimal notation is read back as that number |
| ErrorHandling.FetchFailure | plugins/cloudflare-expert/skills/workers-development/examples/error-handling.js:315-336 | an API error is re-thrown unchanged; a TypeError mentioning 'fetch' becomes 503 CONNECTION_FAILED 'Failed to connect to external service'; any other error 500 EXTERNAL_REQUEST_FAILED 'External request failed' |
| ErrorHandling.SafeFetch | plugins/cloudflare-expert/skills/workers-development/examples/error-handling.js:280-337 | the result is ok exactly for a 2xx response, which is returned unchanged; a non-ok response becomes its HTTP classification; every error is an API error |
| ErrorHandling.RateLimitDefault | plugins/cloudflare-expert/skills/workers-development/examples/error-handling.js:294-296 | a 429 without `Retry-After` asks the client to wait 60 seconds |
| ErrorHandling.FetchWithTimeout | plugins/cloudflare-expert/skills/workers-development/examples/error-handling.js:363-388 | an aborted fetch becomes 504 GATEWAY_TIMEOUT; a response or any other error passes through |
| ErrorHandling.GracefulDegradation | plugins/cloudflare-expert/skills/workers-development/examples/error-handling.js:415-452 | the primary source answers when it succeeds, else a truthy cache entry, else the secondary source; 503 exactly when all three fail |
| ErrorHandling.ServedStatus | plugins/cloudflare-expert/skills/workers-development/examples/error-handling.js:415-452 | an answer is sent with 200 or 503, and with 503 exactly when every source failed |
| ErrorHandling.RetryableClassified | plugins/cloudflare-expert/skills/workers-development/examples/error-handling.js:528-532 | the statuses the retry loop retries are exactly those `safeFetch` reports as 429 or 503 |
| ErrorHandling.Backoff | plugins/cloudflare-expert/skills/workers-development/examples/error-handling.js:534 | every delay is a positive whole number of seconds, in milliseconds |
| ErrorHandling.BackoffDoubles | plugins/cloudflare-expert/skills/workers-development/examples/error-handling.js:534 | the first delay is 1000 ms and each later one doubles the one before |
| ErrorHandling.FetchWithRetry | plugins/cloudflare-expert/skills/workers-development/examples/error-handling.js:520-555 | at most `maxRetries` attempts; the first non-retryable response, or a retryable one on the last attempt, is returned; 503 MAX_RETRIES_EXCEEDED exactly when `maxRetries <= 0` or the last attempt threw after only retryable outcomes; delay `k` is `2^k * 1000` and none follows the last attempt |
| Routing.Captures | plugins/cloudflare-expert/skills/workers-development/examples/fetch-handler-patterns.js:118-121 | every name in `params` is the name of one of the pattern's parameters |
| Routing.CapturesAt | plugins/cloudflare-expert/skills/workers-development/examples/fetch-handler-patterns.js:118-121 | a parameter's value is the path segment in its place, unless a later parameter reuses its name |
| Routing.MatchPath | plugins/cloudflare-expert/skills/workers-development/examples/fetch-handler-patterns.js:105-124 | the anchored segment-by-segment match, then the captures bound to the parameter names |
| Routing.UserPatternSegs | plugins/cloudflare-expert/skills/workers-development/examples/fetch-handler-patterns.js:136 | "/users/:id" is a pattern the matcher covers |
| Routing.UserPattern | plugins/cloudflare-expert/skills/workers-development/examples/fetch-handler-patterns.js:105-123 | `/users/:id` matches `/users/<id>` for any non-empty segment and binds `id` to it |
| Routing.UserPatternRejects | plugins/cloudflare-expert/skills/workers-development/examples/fetch-handler-patterns.js:105-116 | `/users/:id` rejects `/users/` and any path with a further segment |
| Routing.ParamSeg | plugins/cloudflare-expert/skills/workers-development/examples/fetch-handler-patterns.js:108 | `:` followed by word characters is a whole parameter segment |
| Routing.TwoParams | plugins/cloudflare-expert/skills/workers-development/examples/fetch-handler-patterns.js:146-149 | `/a/:x/b/:y` matches `/a/<v>/b/<w>` and binds both names, as `/posts/:postId/comments/:commentId` does |
| Routing.FirstMatchIsFirst | plugins/cloudflare-expert/skills/workers-development/examples/fetch-handler-patterns.js:90-103 | dispatch gives 404 exactly when no route's method and pattern match; otherwise the handler and captures of the first such route in registration order |
| Routing.FirstMatchAppend | plugins/cloudflare-expert/skills/workers-development/examples/fetch-handler-patterns.js:74-103 | a route registered later never takes a request from an earlier one |
| Routing.Router.constructor | plugins/cloudflare-expert/skills/workers-development/examples/fetch-handler-patterns.js:70-72 | a new router has no routes |
| Routing.Router.Get | plugins/cloudflare-expert/skills/workers-development/examples/fetch-handler-patterns.js:74-76 | appends a GET route and nothing else |
| Routing.Router.Post | plugins/cloudflare-expert/skills/workers-development/examples/fetch-handler-patterns.js:78-80 | appends a POST route and nothing else |
| Routing.Router.Put | plugins/cloudflare-expert/skills/workers-development/examples/fetch-handler-patterns.js:82-84 | appends a PUT route and nothing else |
| Routing.Router.Delete | plugins/cloudflare-expert/skills/workers-development/examples/fetch-handler-patterns.js:86-88 | appends a DELETE route and nothing else |
| Routing.Router.Handle | plugins/cloudflare-expert/skills/workers-development/examples/fetch-handler-patterns.js:90-103 | the scan over `routes` dispatches to the first matching route |
| Routing.MethodRoute | plugins/cloudflare-expert/skills/workers-development/examples/fetch-handler-patterns.js:43-61 | GET, POST, PUT, DELETE and OPTIONS each go to their own handler, any other method to 405 |
| Middleware.HandleChain | plugins/cloudflare-expert/skills/workers-development/examples/fetch-handler-patterns.js:203-220 | the loop answers with the first middleware response, or with the final handler on the last replacement request |
| Middleware.RunChainAppend | plugins/cloudflare-expert/skills/workers-development/examples/fetch-handler-patterns.js:205-217 | a chain run in two parts: the second part sees the first part's request, unless the first part stopped |
| Middleware.ShortCircuit | plugins/cloudflare-expert/skills/workers-development/examples/fetch-handler-patterns.js:209-211 | once a middleware answers, no later middleware and no final handler affects the response |
| Middleware.Auth | plugins/cloudflare-expert/skills/workers-development/examples/fetch-handler-patterns.js:161-182 | 401 exactly when the Authorization header is missing or lacks 'Bearer ', with body 'Unauthorized' for a missing or empty header and 'Invalid token format' otherwise; a valid header gives the same request with `X-User-Id` added |
| Middleware.ExampleChain | plugins/cloudflare-expert/skills/workers-development/examples/fetch-handler-patterns.js:200-221 | `[authMiddleware, loggingMiddleware]` always stops inside the chain, with the auth failure or the default handler's response |
| Middleware.RateLimiter.constructor | plugins/cloudflare-expert/skills/workers-development/examples/fetch-handler-patterns.js:393 | an empty counter store |
| Middleware.RateLimiter.Check | plugins/cloudflare-expert/skills/workers-development/examples/fetch-handler-patterns.js:387-419 | at 100 or more: 429 with `Retry-After` '60', store unchanged; otherwise the counter becomes count+1 (1 when absent), `X-RateLimit-Remaining` is `100 - newCount`, and every stored count stays at most 100 |
| Middleware.RateKey | plugins/cloudflare-expert/skills/workers-development/examples/fetch-handler-patterns.js:389-390 | every counter key starts with "ratelimit:" |
| Middleware.RateKeyInjective | plugins/cloudflare-expert/skills/workers-development/examples/fetch-handler-patterns.js:389-390 | distinct client addresses get distinct counters, except that a missing address shares the counter of the address "null" |
| Middleware.RateLimitBounds | plugins/cloudflare-expert/skills/workers-development/examples/fetch-handler-patterns.js:407-410 | writing a count of at most 100 keeps every stored counter a decimal count within the limit, stores exactly that count and leaves every other key alone; RateLimiter.Check relies on it to keep its invariant |
| Middleware.WithCors | plugins/cloudflare-expert/skills/workers-development/examples/fetch-handler-patterns.js:309-336 | OPTIONS is answered with 204, no body and exactly the four CORS headers; any other response keeps status, body and its other headers, and gains all four CORS headers, overriding |
| Middleware.WithCorsIdempotent | plugins/cloudflare-expert/skills/workers-development/examples/fetch-handler-patterns.js:327-330 | setting the CORS headers twice is setting them once |
| Middleware.Paging | plugins/cloudflare-expert/skills/workers-development/examples/fetch-handler-patterns.js:475-487 | page is the given decimal `page`, or 1 when it is absent or empty; limit is the given decimal `limit`, or 10 when it is absent or empty; `offset = (page - 1) * limit`, non-negative from page 1 on, and `-limit` for page 0 |
| Middleware.PagesTile | plugins/cloudflare-expert/skills/workers-development/examples/fetch-handler-patterns.js:475-487 | consecutive pages start exactly one limit apart |
| Platform.StockOf | plugins/cloudflare-expert/skills/cloudflare-platform/examples/multi-product-architecture.js:215 | an absent count reads as 0; any other reading is the stored count |
| Platform.UnsetStockRefuses | plugins/cloudflare-expert/skills/cloudflare-platform/examples/multi-product-architecture.js:215-218 | a product whose count was never stored refuses every positive reservation with 409 |
| Platform.Reserve | plugins/cloudflare-expert/skills/cloudflare-platform/examples/multi-product-architecture.js:215-224 | 409 with stock unchanged exactly when `available < quantity`; otherwise 200 with stock lowered by exactly `quantity`; a non-negative stock stays non-negative |
| Platform.ReserveSequence | plugins/cloudflare-expert/skills/cloudflare-platform/examples/multi-product-architecture.js:211-225 | over any sequence of reservations the stock stays non-negative and falls by exactly the granted amounts |
| Platform.Inventory.constructor | plugins/cloudflare-expert/skills/cloudflare-platform/examples/multi-product-architecture.js:204-206 | the object starts with the stored 'available' value |
| Platform.Inventory.Fetch | plugins/cloudflare-expert/skills/cloudflare-platform/examples/multi-product-architecture.js:208-228 | POST /reserve reserves from the stored stock (absent = 0) and writes it back only on success; anything else is 404 with storage untouched |
| Platform.CreateOrder | plugins/cloudflare-expert/skills/cloudflare-platform/examples/multi-product-architecture.js:134-171 | a failed reservation is 409 before any insert or queue message; a granted one is 201 after the order insert and then the queue message |
| Platform.OrderProcessed | plugins/cloudflare-expert/skills/cloudflare-platform/examples/multi-product-architecture.js:181-193 | an order message succeeds exactly when email, fulfilment and status update all succeed |
| Platform.Consume | plugins/cloudflare-expert/skills/cloudflare-platform/examples/multi-product-architecture.js:446-460 | every message is visited once in order; message `i` is acked exactly when it succeeded, else retried |
| Platform.ConsumeOrders | plugins/cloudflare-expert/skills/cloudflare-platform/examples/multi-product-architecture.js:177-199 | each order message is acked exactly when all its steps succeeded and retried otherwise; a failure inside a message's `try` does not stop later messages |
| Platform.Room.constructor | plugins/cloudflare-expert/skills/cloudflare-platform/examples/multi-product-architecture.js:300-304 | no sessions and no saved update |
| Platform.Room.Connect | plugins/cloudflare-expert/skills/cloudflare-platform/examples/multi-product-architecture.js:306-339 | an upgrade appends its socket and answers 101; anything else answers 400 and changes nothing |
| Platform.Room.Broadcast | plugins/cloudflare-expert/skills/cloudflare-platform/examples/multi-product-architecture.js:316-329 | the message is saved as the last update and sent to every session but the sender, in session order |
| Platform.Room.Close | plugins/cloudflare-expert/skills/cloudflare-platform/examples/multi-product-architecture.js:331-333 | the closed socket is filtered out of the sessions |
| Platform.WithoutNoDup | plugins/cloudflare-expert/skills/cloudflare-platform/examples/multi-product-architecture.js:332 | filtering keeps a session list free of duplicates |
| Platform.CloseRemovesOnly | plugins/cloudflare-expert/skills/cloudflare-platform/examples/multi-product-architecture.js:331-333 | closing removes exactly that socket and keeps the others in order |
| Platform.WithoutSplice | plugins/cloudflare-expert/skills/cloudflare-platform/examples/multi-product-architecture.js:332 | filtering out the one occurrence of a value splices it out |
| Platform.BroadcastReach | plugins/cloudflare-expert/skills/cloudflare-platform/examples/multi-product-architecture.js:324-328 | the sender gets nothing, every other session gets the message, and each gets it once |
| Platform.ProductId | plugins/cloudflare-expert/skills/cloudflare-platform/examples/multi-product-architecture.js:104-105 | the product id (path segment 2) contains no '/' |
| Platform.ProductIdOf | plugins/cloudflare-expert/skills/cloudflare-platform/examples/multi-product-architecture.js:104-105 | `/products/<id>` followed by nothing or by further segments yields `<id>` |
| Platform.CacheKey | plugins/cloudflare-expert/skills/cloudflare-platform/examples/multi-product-architecture.js:106 | the cache key is `product:` followed by the id |
| Platform.CacheKeyInjective | plugins/cloudflare-expert/skills/cloudflare-platform/examples/multi-product-architecture.js:106 | different products have different cache keys |
| Platform.ImageUrl | plugins/cloudflare-expert/skills/cloudflare-platform/examples/multi-product-architecture.js:124-126 | an image URL is given exactly when the image exists, and is the product id framed by the products host and ".jpg" |
| Platform.ImageUrlInjective | plugins/cloudflare-expert/skills/cloudflare-platform/examples/multi-product-architecture.js:124-126 | different products have different image URLs |
| Platform.ProductCache.constructor | plugins/cloudflare-expert/skills/cloudflare-platform/examples/multi-product-architecture.js:109 | an empty cache |
| Platform.ProductCache.Lookup | plugins/cloudflare-expert/skills/cloudflare-platform/examples/multi-product-architecture.js:104-121 | the database is read exactly on a cache miss (no entry, or a cached null); a hit is returned with the cache unchanged; a miss reads the row and caches it |
| Platform.Recommended | plugins/cloudflare-expert/skills/cloudflare-platform/examples/multi-product-architecture.js:415 | `slice(1)` drops the first match; with distinct ids the item itself is not recommended |

## Left out

- Platform services are outside the model. This covers the SQL store, KV, R2, the vector index, embedding and answer models, queues, outbound `fetch`, random ids and timestamps. Their results are parameters; their writes are returned values.
- JSON (de)serialisation is left out. So are SQL text, the `Request`/`Response`/`Headers`/`URL` objects and the KV TTL expiry.
- `console` logging, `ctx.waitUntil` background work and `logError` are left out.
- Timers, `AbortController` and the sleep in the retry loop are left out. Only the delay values and the AbortError → 504 mapping are modelled.
- WebSocket concurrency and event ordering in `Room` are left out. Connect, broadcast and close are sequential operations.
- The 101 response's `webSocket` client end is left out.
- Room.Connect: requires that the new socket is not yet a session. A `WebSocketPair` always yields a fresh one.
- `proxyPattern`, the plain GET/POST handlers and `listDocuments` are left out. So are the `RAGApplication` and `ContentPlatform` flows. They are plumbing around service calls; only the `ContentPlatform` recommendation slice and its queue consumer are modelled.
- `jsonResponse` is not part of this model.
- Chunker.ChunkText: requires `0 < chunkSize`, `chunkOverlap < chunkSize` and `chunkOverlap <= chunkSize / 2 + 1`. The source never checks these. Chunker.ProgressExact shows they are exactly the parameters under which, on every text, every step of the loop moves forward; for every other pair some text has a step that does not move forward. Chunker.StallExample shows one such pair returning to its start and so looping forever; what the source does after a step that moves backward (to a negative start, which `substring` clamps) is not modelled. The only call uses 500 and 50.
- Chunk lengths are counted in characters. The source counts UTF-16 code units. The name check, the keyword filter and the excerpt count code units (Text.Utf16Length, Text.Utf16Prefix).
- RagWorker.Excerpt: when the 200th code unit is the first half of a surrogate pair, the source's excerpt ends in a lone surrogate. A string of Unicode scalar values cannot hold one, so the model's excerpt stops before that character.
- `chunkOverlap` is a natural number, so negative overlaps are not modelled.
- The chunk count does not increase as `chunkSize` grows. This is not proved.
- Retrieval.Lower: lowercases ASCII letters only. JavaScript's Unicode case mapping is not modelled.
- Retrieval.DedupProps: states `|r| <= topK`. The exact length, `min(topK, number of documents)`, is in Ranking.TopBestProps.
- RagWorker.QueryKnowledgeBase: `topK` and `includeDebug` are parameters. The request body's destructuring defaults (an absent `topK` is 3, an absent `includeDebug` is false) are not modelled; callers pass those values. `topK` is a natural number, so a negative or non-integer `topK` from the JSON body is not modelled.
- Hybrid-merge idempotence is not stated. The merge's output records are of a different kind from its input, so a second run is not meaningful.
- Scores are reals. IEEE rounding and NaN are not modelled.
- `parseInt` is modelled only on digit strings:
  - ErrorHandling.RetryAfterSeconds requires a decimal `Retry-After`, and so ErrorHandling.HttpError and ErrorHandling.SafeFetch require one on a 429 response;
  - Middleware.ParamOr requires decimal query parameters;
  - the RateLimiter's invariant requires every stored counter to be decimal.
- Routing.MatchPath: requires patterns whose segments are each a whole `:name` parameter or a literal without regular-expression metacharacters. Every route the example registers is of this form. General regular-expression matching is not modelled.
- ErrorHandling.IsEmail: written as an explicit predicate over the string, equivalent to `^[^\s@]+@[^\s@]+\.[^\s@]+$`. No regular-expression engine is involved.
- The concrete route `/posts/:postId/comments/:commentId` is covered by Routing.TwoParams, which proves it for arbitrary literal and parameter segments.
- Header names are case-insensitive in the source. The model's header maps use the canonical names the source writes.
- Retrieval.Hit: keeps the document id, title, text and the two scores. The merged entry's vector `id`, its raw `score` and the `hybridScore` field written before sorting are not carried; the ranking recomputes the hybrid score (Retrieval.HybridScore).
- Platform.ConsumeOrders: destructuring `message.body` happens before the `try`, so a body that is null or undefined throws out of the consumer and stops the rest of the batch. Message bodies are modelled as well-formed, so that case is not covered. The same holds for the video consumer (Platform.Consume).
- Middleware.Auth: replaces any `X-User-Id` the client sent. In the source, `Object.fromEntries(request.headers)` yields lower-cased names, so a client's `x-user-id` and the literal `'X-User-Id'` are two keys of one object, and `new Headers` combines them into a single value holding both. That combination is not modelled.
- ErrorHandling.ValidateUserInput: JavaScript values are modelled as undefined, null, booleans, numbers, strings and objects. Numbers are reals, without NaN.

## Notes on the design

- On "AAAA. BBBB. CCCC." with window 10 and overlap 2, the first window's only break is the period at offset 4. That is not past the midpoint 5, so the cut is at the raw window edge and the first chunk is "AAAA. BBBB" (Chunker.SnapExample).
- On every text, every step of the chunking loop moves forward exactly when `0 < chunkSize`, `chunkOverlap < chunkSize` and `chunkOverlap <= chunkSize / 2 + 1` hold; for every other pair some text has a step that does not move forward (Chunker.ProgressExact). The condition `chunkOverlap < chunkSize` alone does not suffice: with window 6 and overlap 5 the loop returns to its start on "abcd.fgh" (Chunker.StallExample).
- Deletion uses the id as it appears in the path, while ingestion writes `docId.toString()`. A zero-padded path such as `/documents/007` therefore deletes none of document 7's vectors (RagWorker.PaddedIdMissesVectors).
- Pagination passes page 0 through and produces a negative offset; Middleware.Paging states this.
- The example chain `[authMiddleware, loggingMiddleware]` never reaches its final handler, because the logging middleware itself answers (Middleware.ExampleChain).
