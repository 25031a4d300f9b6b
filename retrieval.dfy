/**
 What the `/search` and `/ask` routes share once the vector store has answered:
 the shape of a result row, the request-field check, the similarity threshold
 and the lexical filter `containsQueryWord` (written out identically in
 backend/src/routes/search.js and backend/src/routes/ask.js, modelled once here).
 */
module Retrieval {
  import opened Strings
  import opened Sequences
  import opened Splitting

  datatype Option<T> = None | Some(value: T)

  /** A request-body field as the handler destructures it: absent, or a string. */
  type Field = Option<string>

  /** `if (!field)`: a missing field and the empty string are both falsy. */
  predicate IsTruthy(field: Field) {
    field.Some? && field.value != []
  }

  /** A query embedding, as the embedding model returns it. */
  type Embedding = seq<real>

  /** One row of the aggregation after `$project`: the document id (projected by default),
      filename, content and the store's `vectorSearchScore`. */
  datatype Hit = Hit(id: string, filename: string, content: string, similarity: real)

  /** Both routes keep only rows scoring at least this much. */
  const SimilarityThreshold: real := 0.65

  /** `query.toLowerCase().split(/\s+/)`. */
  function QueryWords(query: string): seq<string> {
    Split(Lower(query), EveryWhitespaceRun).parts
  }

  /** `containsQueryWord(content, query)`: some word of the lower-cased query occurs
      in the lower-cased content. */
  predicate ContainsQueryWord(content: string, query: string) {
    exists w :: w in QueryWords(query) && IsSubstring(w, Lower(content))
  }

  /** `r.similarity >= similarityThreshold`. */
  predicate AboveThreshold(h: Hit) {
    h.similarity >= SimilarityThreshold
  }

  /** `r => containsQueryWord(r.content, query)`. */
  function MentionsQuery(query: string): Hit -> bool {
    (h: Hit) => ContainsQueryWord(h.content, query)
  }

  /** What both passes together keep. */
  function RelevantTo(query: string): Hit -> bool {
    (h: Hit) => AboveThreshold(h) && ContainsQueryWord(h.content, query)
  }

  /** Rows in descending order of similarity, as the store ranks them. */
  predicate RankedBySimilarity(hits: seq<Hit>) {
    forall i, j :: 0 <= i < j < |hits| ==> hits[i].similarity >= hits[j].similarity
  }

  /** The `$vectorSearch` stage with `limit`: the first `limit` rows of the store's ranking
      for the query embedding. */
  function TopHits(ranked: seq<Hit>, limit: nat): seq<Hit> {
    ranked[..Min(limit, |ranked|)]
  }

  /** The two successive `filter` passes of the routes: threshold first, then keywords. */
  function FilterHits(hits: seq<Hit>, query: string): seq<Hit> {
    Filter(Filter(hits, AboveThreshold), MentionsQuery(query))
  }

  // ---------------------------------------------------------------------------
  // Lemmas

  /** The two passes keep exactly the relevant rows, in store order: every kept row
      scores at least the threshold and mentions a query word, every such row is kept,
      and the kept rows are a subsequence of the store's rows. */
  lemma FilterHitsKeepsRelevant(hits: seq<Hit>, query: string)
    ensures FilterHits(hits, query) == Filter(hits, RelevantTo(query))
    ensures forall h :: h in FilterHits(hits, query) <==>
      h in hits && h.similarity >= SimilarityThreshold && ContainsQueryWord(h.content, query)
    ensures SubsequenceOf(FilterHits(hits, query), hits)
    ensures |FilterHits(hits, query)| <= |hits|
  {
    FilterTwice(hits, AboveThreshold, MentionsQuery(query), RelevantTo(query));
    FilterKeepsExactly(hits, RelevantTo(query));
    FilterIsSubsequence(hits, RelevantTo(query));
  }

  /** The stage returns at most `limit` rows, each of them in the ranking, in ranking order,
      and it returns all of the ranking when that is shorter than the limit. */
  lemma TopHitsBounded(ranked: seq<Hit>, limit: nat)
    ensures |TopHits(ranked, limit)| <= limit
    ensures |ranked| <= limit ==> TopHits(ranked, limit) == ranked
    ensures SubsequenceOf(TopHits(ranked, limit), ranked)
  {
    PrefixIsSubsequence(TopHits(ranked, limit), ranked[Min(limit, |ranked|)..]);
    assert TopHits(ranked, limit) + ranked[Min(limit, |ranked|)..] == ranked;
  }

  /** A smaller limit gives a prefix of what a larger one gives. */
  lemma TopHitsPrefix(ranked: seq<Hit>, small: nat, large: nat)
    requires small <= large
    ensures TopHits(ranked, large) == TopHits(ranked, small) + TopHits(ranked, large)[|TopHits(ranked, small)|..]
  {
  }

  /** Deleting rows never breaks the ranking: a subsequence of ranked rows is ranked. */
  lemma {:induction false} SubsequenceStaysRanked(xs: seq<Hit>, ys: seq<Hit>)
    requires SubsequenceOf(xs, ys) && RankedBySimilarity(ys)
    ensures RankedBySimilarity(xs)
    decreases |ys|
  {
    if ys == [] {
      return;
    }
    assert RankedBySimilarity(ys[1..]) by {
      forall i, j | 0 <= i < j < |ys[1..]|
        ensures ys[1..][i].similarity >= ys[1..][j].similarity
      {
        assert ys[1..][i] == ys[i + 1] && ys[1..][j] == ys[j + 1];
      }
    }
    if xs != [] && xs[0] == ys[0] && SubsequenceOf(xs[1..], ys[1..]) {
      SubsequenceStaysRanked(xs[1..], ys[1..]);
      SubsequenceMembers(xs[1..], ys[1..]);
      forall i, j | 0 <= i < j < |xs|
        ensures xs[i].similarity >= xs[j].similarity
      {
        assert xs[j] == xs[1..][j - 1];
        if i == 0 {
          assert xs[j] in ys[1..];
          var k :| 0 <= k < |ys[1..]| && ys[1..][k] == xs[j];
          assert ys[k + 1] == xs[j];
        } else {
          assert xs[i] == xs[1..][i - 1];
        }
      }
    } else {
      SubsequenceStaysRanked(xs, ys[1..]);
    }
  }

  /** An empty word matches every content: the empty string occurs everywhere. */
  lemma EmptyWordMatchesAll(content: string, query: string)
    requires [] in QueryWords(query)
    ensures ContainsQueryWord(content, query)
  {
    assert IsPrefix([], Lower(content));
  }

  /** A query with leading or trailing whitespace splits into an empty first or last word,
      so the keyword filter lets every content through. */
  lemma PaddedQueryMatchesAll(content: string, query: string)
    requires query != [] && (IsSpace(query[0]) || IsSpace(query[|query| - 1]))
    ensures ContainsQueryWord(content, query)
  {
    var lower := Lower(query);
    LowerKeepsSpaces(query);
    var words := QueryWords(query);
    if IsSpace(query[0]) {
      LeadingSpaceGivesEmptyWord(lower);
      assert words[0] in words;
    } else {
      TrailingSpaceGivesEmptyWord(lower, false);
      assert words[|words| - 1] in words;
    }
    EmptyWordMatchesAll(content, query);
  }

  /** The empty query splits into one empty word and matches every content too. */
  lemma EmptyQueryMatchesAll(content: string)
    ensures ContainsQueryWord(content, [])
  {
    assert QueryWords([]) == [[]];
    EmptyWordMatchesAll(content, []);
  }

  /** If the whole query occurs in the content, ignoring ASCII case, the filter keeps it:
      the first word of the query is a prefix of the query. */
  lemma WholeQueryMatches(content: string, query: string)
    requires IsSubstring(Lower(query), Lower(content))
    ensures ContainsQueryWord(content, query)
  {
    var r := Split(Lower(query), EveryWhitespaceRun);
    SplitRebuilds(Lower(query), EveryWhitespaceRun, false);
    InterleaveStartsWithFirst(r.parts, r.seps);
    PrefixOfSubstring(r.parts[0], Lower(query), Lower(content));
    assert r.parts[0] in QueryWords(query);
  }

  lemma InterleaveStartsWithFirst(parts: seq<string>, seps: seq<string>)
    requires |parts| == |seps| + 1
    ensures IsPrefix(parts[0], Interleave(parts, seps))
  {
    if seps != [] {
      var rest := seps[0] + Interleave(parts[1..], seps[1..]);
      assert Interleave(parts, seps) == parts[0] + rest;
      assert (parts[0] + rest)[..|parts[0]|] == parts[0];
    }
  }

  /** The keyword filter ignores ASCII case on both sides. */
  lemma ContainsQueryWordIgnoresCase(content: string, query: string)
    ensures ContainsQueryWord(content, query) == ContainsQueryWord(Lower(content), query)
    ensures ContainsQueryWord(content, query) == ContainsQueryWord(content, Lower(query))
  {
    LowerIdempotent(content);
    LowerIdempotent(query);
  }

  /** Every query word is free of whitespace, and the words with the whitespace runs
      between them rebuild the lower-cased query. */
  lemma QueryWordsAreTokens(query: string)
    ensures PartsWithoutSpace(Split(Lower(query), EveryWhitespaceRun))
    ensures SeparatorsAreRuns(Split(Lower(query), EveryWhitespaceRun))
    ensures Interleave(QueryWords(query), Split(Lower(query), EveryWhitespaceRun).seps) == Lower(query)
  {
    WordPartsHaveNoSpace(Lower(query), false);
    SeparatorsAreMaximalRuns(Lower(query), EveryWhitespaceRun, false);
    SplitRebuilds(Lower(query), EveryWhitespaceRun, false);
  }
}
