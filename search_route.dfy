/**
 The `POST /search` handler (backend/src/routes/search.js): reject a missing or
 empty query, embed it, take the store's five best-ranked chunks, keep those
 scoring at least 0.65 that mention a query word, and answer with them or with
 a "nothing found" message.

 The embedding model and the vector store are parameters: `embed` is the query
 embedding and `rank` the store's ranking of the collection for an embedding.
 */
module SearchRoute {
  import opened Strings
  import opened Sequences
  import opened Retrieval

  /** `limit: 5` of the `$vectorSearch` stage. */
  const SearchLimit: nat := 5

  const QueryRequired: string := "Query is required"
  const NoResultsMessage: string := "No relevant results found. Try another query."

  /** The JSON body the handler sends: a 400 error, or `success: true` with the results
      and, when there are none, a message. */
  datatype SearchReply =
    | Rejected(status: nat, error: string)
    | Ok(message: Option<string>, results: seq<Hit>)

  /** The rows the handler sends back for a truthy query: among the store's top five,
      those that pass both filters. */
  function SearchResults(query: string, embed: string -> Embedding, rank: Embedding -> seq<Hit>): seq<Hit> {
    Filter(TopHits(rank(embed(query)), SearchLimit), RelevantTo(query))
  }

  /** The handler, for a request body whose `query` field is `query`. */
  method HandleSearch(query: Field, embed: string -> Embedding, rank: Embedding -> seq<Hit>)
    returns (reply: SearchReply)
    ensures !IsTruthy(query) <==> reply.Rejected?
    ensures !IsTruthy(query) ==> reply == Rejected(400, QueryRequired)
    ensures IsTruthy(query) ==> reply.Ok? && reply.results == SearchResults(query.value, embed, rank)
    ensures reply.Ok? ==> |reply.results| <= SearchLimit
    ensures reply.Ok? ==> SubsequenceOf(reply.results, rank(embed(query.value)))
    ensures reply.Ok? && RankedBySimilarity(rank(embed(query.value))) ==> RankedBySimilarity(reply.results)
    ensures reply.Ok? ==> forall h :: h in reply.results ==>
      h.similarity >= SimilarityThreshold && ContainsQueryWord(h.content, query.value)
    ensures reply.Ok? ==> (reply.message == Some(NoResultsMessage) <==> reply.results == [])
    ensures reply.Ok? ==> (reply.message == None <==> reply.results != [])
  {
    if !IsTruthy(query) {
      return Rejected(400, QueryRequired);
    }
    var q := query.value;
    var queryEmbedding := embed(q);
    var hits := TopHits(rank(queryEmbedding), SearchLimit);
    var results := hits;
    results := Filter(results, AboveThreshold);
    results := Filter(results, MentionsQuery(q));
    FilterHitsKeepsRelevant(hits, q);
    TopHitsBounded(rank(queryEmbedding), SearchLimit);
    SubsequenceLength(results, hits);
    SubsequenceTransitive(results, hits, rank(queryEmbedding));
    if RankedBySimilarity(rank(queryEmbedding)) {
      SubsequenceStaysRanked(results, rank(queryEmbedding));
    }
    if |results| == 0 {
      reply := Ok(Some(NoResultsMessage), []);
    } else {
      reply := Ok(None, results);
    }
  }

  /** A chunk is returned exactly when it is among the store's top five for the query
      embedding, scores at least 0.65 and contains a word of the query. */
  lemma SearchResultsExactly(query: string, embed: string -> Embedding, rank: Embedding -> seq<Hit>, h: Hit)
    ensures h in SearchResults(query, embed, rank) <==>
      h in TopHits(rank(embed(query)), SearchLimit) && h.similarity >= SimilarityThreshold
      && ContainsQueryWord(h.content, query)
  {
    FilterKeepsExactly(TopHits(rank(embed(query)), SearchLimit), RelevantTo(query));
  }

  /** A query with leading or trailing whitespace turns the keyword filter off: the
      results are the top five that pass the threshold alone. */
  lemma PaddedQuerySkipsKeywordFilter(query: string, embed: string -> Embedding, rank: Embedding -> seq<Hit>)
    requires query != [] && (IsSpace(query[0]) || IsSpace(query[|query| - 1]))
    ensures SearchResults(query, embed, rank) == Filter(TopHits(rank(embed(query)), SearchLimit), AboveThreshold)
  {
    var hits := TopHits(rank(embed(query)), SearchLimit);
    forall h: Hit ensures RelevantTo(query)(h) == AboveThreshold(h) {
      PaddedQueryMatchesAll(h.content, query);
    }
    FilterSame(hits, RelevantTo(query), AboveThreshold);
  }
}
