# ai-blog-search: chunking and retrieval, in Dafny

This project models the computational core of the ai-blog-search backend:

- **The document chunker.** `chunkText` in `backend/src/lib/chunk.js` splits a blog text into sentences at whitespace that follows `.`, `!` or `?`. It drops the blank sentences and groups the rest `maxSentences` at a time (three by default), joining each group with single spaces. A group is kept only when its trimmed length is greater than ten.
- **The `POST /search` handler** in `backend/src/routes/search.js`:
  - It rejects a missing or empty `query` with status 400.
  - It embeds the query and asks the vector store for its five best-ranked chunks.
  - It keeps the chunks that score at least 0.65 and that contain a word of the query, compared in lower case.
  - It returns those chunks, or a "no relevant results" message and an empty list.
- **The `POST /ask` handler** in `backend/src/routes/ask.js`:
  - It does the same retrieval with the three best-ranked chunks.
  - It answers with the prefix `Based on the top sources: ` followed by the contents of the kept chunks, separated by blank lines.
  - When nothing is kept, it answers with a fixed fallback sentence and no sources.

The model follows the JavaScript code closely:

- `\s` and `trim()` use JavaScript's exact whitespace set.
- `length` counts UTF-16 code units.
- `String.prototype.split` is modelled for the two patterns the code uses: `/(?<=[.!?])\s+/` and `/\s+/`. The removed separators are kept aside, so that the split can be proved lossless.
- `Array.prototype.filter` keeps order.
- `includes` is a substring test.

The keyword helper `containsQueryWord` is written out identically in both route files. It is modelled once, as `Retrieval.ContainsQueryWord`.

The embedding model and the vector store are parameters of the handlers:

- `embed` maps the query text to an embedding.
- `rank` maps an embedding to the store's ranking of the collection.
- The `$vectorSearch` stage with `limit: k` keeps the first k rows of that ranking (`Retrieval.TopHits`).

Files:

- `strings.dfy` (module `Strings`): whitespace, ASCII lower-casing, UTF-16 length, `trim`, `includes`, `join`.
- `sequences.dfy` (module `Sequences`): `filter` and the subsequence relation.
- `splitting.dfy` (module `Splitting`): `split` for the two patterns.
- `chunker.dfy` (module `Chunker`): `chunkText` as a loop method, proved against the function `Chunks`.
- `retrieval.dfy` (module `Retrieval`): the result row, the threshold, the keyword filter and the store's limit stage.
- `search_route.dfy` (module `SearchRoute`) and `ask_route.dfy` (module `AskRoute`): the two handlers.

## Model

| member | source | states |
|---|---|---|
| Chunker.ChunkText | backend/src/lib/chunk.js:1-17 | the result is exactly `Chunks(text, maxSentences)` (sentences split off, blank ones dropped, groups joined by single spaces, groups of trimmed length ten or less dropped); `maxSentences` defaults to 3 |
| Chunker.GroupSentences | backend/src/lib/chunk.js:8-14 | the loop stepping i by maxSentences appends exactly the long-enough groups `sentences[i..i+maxSentences]` joined by " ", in order |
| Chunker.LoopStep | backend/src/lib/chunk.js:8-13 | one iteration: what is still to come from index i is the group at i, if it is longer than ten after trimming, followed by what comes from i + maxSentences |
| Chunker.BlocksAt | backend/src/lib/chunk.js:8-9 | the k-th group is the sentences from index k·n, at most n of them (fewer only at the end), joined by single spaces |
| Chunker.BlocksCount | backend/src/lib/chunk.js:8 | the loop forms ceil(#sentences / n) groups |
| Chunker.SentencesHaveContent | backend/src/lib/chunk.js:3-5 | no sentence is empty or whitespace only |
| Chunker.ChunksAreLongEnough | backend/src/lib/chunk.js:10-13 | every returned chunk has a trimmed length (in UTF-16 units) greater than ten |
| Chunker.ChunkIsBlock | backend/src/lib/chunk.js:8-13 | every chunk is one group of consecutive sentences starting at a multiple of n; no chunk mixes sentences from outside its group |
| Chunker.ChunksInDocumentOrder | backend/src/lib/chunk.js:8-14 | the chunks are the groups in document order with some left out; nothing is reordered or repeated |
| Chunker.ChunkCount | backend/src/lib/chunk.js:8-14 | there are at most ceil(#sentences / n) chunks |
| Chunker.BlankTextHasNoChunks | backend/src/lib/chunk.js:3-5 | empty or whitespace-only text gives no chunks |
| Chunker.UnbrokenTextIsOneChunk | backend/src/lib/chunk.js:3-13 | text with no `.`, `!` or `?` followed by whitespace (an ellipsis mid-sentence included) is one sentence: the result is `[text]` if its trimmed length exceeds ten, otherwise empty |
| Splitting.SplitRebuilds | backend/src/lib/chunk.js:4 | the split is lossless: the parts with the removed separators put back between them rebuild the input |
| Splitting.SeparatorsAreMaximalRuns | backend/src/lib/chunk.js:4 | each removed separator is a non-empty whitespace run, and the part after it does not start with whitespace |
| Splitting.SentencePartsEndInTerminal | backend/src/lib/chunk.js:4 | with the sentence pattern, every part followed by a separator ends in `.`, `!` or `?` |
| Splitting.SentencePartsUnbroken | backend/src/lib/chunk.js:4 | with the sentence pattern, no part contains a place where the pattern would cut again |
| Splitting.UnbrokenTextIsOnePart | backend/src/lib/chunk.js:4 | a string without a sentence break is returned whole as the single part |
| Splitting.BlankSplitsIntoBlanks | backend/src/lib/chunk.js:3-5 | splitting whitespace-only text yields only whitespace-only parts |
| Splitting.WordPartsHaveNoSpace | backend/src/routes/search.js:9 | with `/\s+/`, no part contains whitespace |
| Splitting.LeadingSpaceGivesEmptyWord | backend/src/routes/search.js:9 | with `/\s+/`, leading whitespace produces an empty first word |
| Splitting.TrailingSpaceGivesEmptyWord | backend/src/routes/search.js:9 | with `/\s+/`, trailing whitespace produces an empty last word |
| Strings.TrimEmptyIffBlank | backend/src/lib/chunk.js:5 | `s.trim().length` is zero exactly when s is whitespace only (both directions) |
| Strings.CodeUnitsBounds | backend/src/lib/chunk.js:10 | the UTF-16 length lies between the number of code points and twice that number |
| Strings.JoinContainsParts | backend/src/routes/ask.js:71 | every part occurs in the joined string |
| Sequences.FilterKeepsExactly | backend/src/routes/search.js:54 | `filter` keeps an element exactly when it is in the input and satisfies the predicate, and never lengthens |
| Sequences.FilterIsSubsequence | backend/src/routes/search.js:54-57 | `filter` only deletes: its output is a subsequence of its input |
| Sequences.FilterTwice | backend/src/routes/search.js:53-57 | two successive filter passes equal one pass with the conjunction |
| Sequences.SubsequenceTransitive | backend/src/routes/search.js:49-57 | rows deleted in successive stages still form a subsequence of the original rows |
| Retrieval.FilterHitsKeepsRelevant | backend/src/routes/search.js:52-57 | the threshold pass then the keyword pass keep exactly the rows with similarity ≥ 0.65 that contain a query word, in store order |
| Retrieval.TopHitsBounded | backend/src/routes/search.js:30-39 | the `limit` stage returns at most `limit` rows, in ranking order, and all of them when fewer are ranked |
| Retrieval.SubsequenceStaysRanked | backend/src/routes/search.js:52-57 | deleting rows never breaks a descending-similarity order |
| Retrieval.WholeQueryMatches | backend/src/routes/search.js:8-12 | content containing the whole query (ignoring ASCII case) passes the keyword filter |
| Retrieval.PaddedQueryMatchesAll | backend/src/routes/search.js:8-12 | a query with leading or trailing whitespace yields an empty word, and every content passes the keyword filter |
| Retrieval.EmptyQueryMatchesAll | backend/src/routes/ask.js:8-12 | the empty query splits into one empty word and matches every content |
| Retrieval.ContainsQueryWordIgnoresCase | backend/src/routes/ask.js:9-11 | the keyword filter gives the same verdict after lower-casing the content or the query |
| Retrieval.QueryWordsAreTokens | backend/src/routes/ask.js:9 | the query words contain no whitespace; the words and the whitespace runs between them rebuild the lower-cased query |
| SearchRoute.HandleSearch | backend/src/routes/search.js:15-78 | a falsy query gives 400 "Query is required"; otherwise: <br>• the results are the relevant rows among the store's top 5, at most 5 of them <br>• each has similarity ≥ 0.65 and contains a query word <br>• they keep store order, and a descending ranking stays descending <br>• the "No relevant results found. Try another query." message is present exactly when the results are empty |
| SearchRoute.SearchResultsExactly | backend/src/routes/search.js:30-57 | a row is returned iff it is in the top 5, scores ≥ 0.65 and contains a query word |
| SearchRoute.PaddedQuerySkipsKeywordFilter | backend/src/routes/search.js:57 | for a query with leading or trailing whitespace, the results are the top-5 rows that pass the threshold alone |
| AskRoute.HandleAsk | backend/src/routes/ask.js:15-86 | a falsy question gives 400 "Question is required"; otherwise: <br>• the sources are the relevant rows among the store's top 3, at most 3 of them, in store order, and each has similarity ≥ 0.65 and contains a question word <br>• with no sources, the answer is the fallback sentence <br>• with sources, the answer is the prefix followed by their contents joined by blank lines <br>• the answer starts with the prefix iff there are sources, and contains every source's content |
| AskRoute.AnswerCitesSources | backend/src/routes/ask.js:71-72 | the composed answer starts with "Based on the top sources: " and contains the content of every source |
| AskRoute.FallbackIsNotComposed | backend/src/routes/ask.js:62-72 | the fallback sentence does not start with the answer prefix, so the two kinds of answer are distinguishable |
| AskRoute.AskSourcesArePrefixOfSearchResults | backend/src/routes/ask.js:29-60 | for the same text and store, what `/ask` answers from is a prefix of what `/search` returns |

## Left out

- Everything outside the two routes and the chunker is not part of this model:
  - `backend/scripts/ingest.js` (reading files and storing chunks);
  - `backend/src/server.js`;
  - the embedder clients under `backend/src/lib/`;
  - `backend/src/lib/mongo.js`;
  - the frontend.
- The embedding call and the vector store are function parameters (`embed`, `rank`). Approximate nearest-neighbour search over `numCandidates: 200`, the index name and the collection name are not modelled. The model does not assume that the ranking is sorted; the handlers' ordering guarantee is stated under that hypothesis.
- The `catch` branches that answer 500 with `error.message` are not modelled. A failing embedder or store, a non-string truthy `query` or `question` (a number or an object), and a missing request body all end there.
- The request field is either absent or a string. Other JSON values are left out.
- Logging (`console.log` / `console.error`) is not modelled.
- The HTTP status 200 and the `success: true` flag are implicit in the `Ok` and `Answered` replies.
- The commented-out earlier versions at the end of both route files are not modelled: brute-force cosine similarity, threshold 0.25, a differently worded fallback. That code is dead.
- `toLowerCase` is modelled for ASCII letters only. Unicode case mappings, some of which change the string's length, are not modelled.
- Strings are sequences of Unicode scalar values. `length` counts a code point above U+FFFF as two units, but lone surrogates cannot occur in the model.
- Chunker.ChunkText: requires `maxSentences >= 1`.
  - With 0 and at least one sentence, the source's loop never ends.
  - Negative, fractional or non-numeric values are not modelled.
- Similarity scores are `real`. Floating-point rounding of the store's scores is not modelled.
