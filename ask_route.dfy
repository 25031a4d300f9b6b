/**
 The `POST /ask` handler (backend/src/routes/ask.js): the same retrieval as
 `/search` with the store's three best-ranked chunks, after which the answer is
 the fixed prefix followed by the contents of the kept chunks separated by blank
 lines, or a fixed fallback sentence when none is kept.
 */
module AskRoute {
  import opened Strings
  import opened Sequences
  import opened Retrieval
  import SearchRoute

  /** `limit: 3` of the `$vectorSearch` stage. */
  const AskLimit: nat := 3

  const QuestionRequired: string := "Question is required"
  /** Written as two literals: the verifier reads the characters of short literals only. */
  const FallbackAnswer: string := "No relevant information " + "found for this question."
  const AnswerPrefix: string := "Based on the top sources: "
  const ContextSeparator: string := "\n\n"

  /** The JSON body the handler sends: a 400 error, or `success: true` with an answer
      and the chunks it was built from. */
  datatype AskReply =
    | Rejected(status: nat, error: string)
    | Answered(answer: string, sources: seq<Hit>)

  /** `relevantChunks.map((c) => c.content)`. */
  function Contents(sources: seq<Hit>): (r: seq<string>)
    ensures |r| == |sources|
    ensures forall i :: 0 <= i < |sources| ==> r[i] == sources[i].content
  {
    seq(|sources|, i requires 0 <= i < |sources| => sources[i].content)
  }

  /** The answer built from the kept chunks. */
  function ComposeAnswer(sources: seq<Hit>): string {
    AnswerPrefix + Join(Contents(sources), ContextSeparator)
  }

  /** The chunks the handler answers from for a truthy question. */
  function AskSources(question: string, embed: string -> Embedding, rank: Embedding -> seq<Hit>): seq<Hit> {
    Filter(TopHits(rank(embed(question)), AskLimit), RelevantTo(question))
  }

  /** The handler, for a request body whose `question` field is `question`. */
  method HandleAsk(question: Field, embed: string -> Embedding, rank: Embedding -> seq<Hit>)
    returns (reply: AskReply)
    ensures !IsTruthy(question) <==> reply.Rejected?
    ensures !IsTruthy(question) ==> reply == Rejected(400, QuestionRequired)
    ensures IsTruthy(question) ==> reply.Answered? && reply.sources == AskSources(question.value, embed, rank)
    ensures reply.Answered? ==> |reply.sources| <= AskLimit
    ensures reply.Answered? ==> SubsequenceOf(reply.sources, rank(embed(question.value)))
    ensures reply.Answered? && RankedBySimilarity(rank(embed(question.value))) ==> RankedBySimilarity(reply.sources)
    ensures reply.Answered? ==> forall h :: h in reply.sources ==>
      h.similarity >= SimilarityThreshold && ContainsQueryWord(h.content, question.value)
    ensures reply.Answered? && reply.sources == [] ==> reply.answer == FallbackAnswer
    ensures reply.Answered? && reply.sources != [] ==> reply.answer == ComposeAnswer(reply.sources)
    ensures reply.Answered? ==> (IsPrefix(AnswerPrefix, reply.answer) <==> reply.sources != [])
    ensures reply.Answered? ==>
      forall i :: 0 <= i < |reply.sources| ==> IsSubstring(reply.sources[i].content, reply.answer)
  {
    if !IsTruthy(question) {
      return Rejected(400, QuestionRequired);
    }
    var q := question.value;
    var questionEmbedding := embed(q);
    var hits := TopHits(rank(questionEmbedding), AskLimit);
    var relevantChunks := hits;
    relevantChunks := Filter(relevantChunks, AboveThreshold);
    relevantChunks := Filter(relevantChunks, MentionsQuery(q));
    FilterHitsKeepsRelevant(hits, q);
    TopHitsBounded(rank(questionEmbedding), AskLimit);
    SubsequenceTransitive(relevantChunks, hits, rank(questionEmbedding));
    if RankedBySimilarity(rank(questionEmbedding)) {
      SubsequenceStaysRanked(relevantChunks, rank(questionEmbedding));
    }
    if |relevantChunks| == 0 {
      FallbackIsNotComposed();
      return Answered(FallbackAnswer, []);
    }
    var context := Join(Contents(relevantChunks), ContextSeparator);
    var answer := AnswerPrefix + context;
    AnswerCitesSources(relevantChunks);
    reply := Answered(answer, relevantChunks);
  }

  /** The composed answer starts with the prefix and contains every source's content. */
  lemma AnswerCitesSources(sources: seq<Hit>)
    ensures IsPrefix(AnswerPrefix, ComposeAnswer(sources))
    ensures forall i :: 0 <= i < |sources| ==> IsSubstring(sources[i].content, ComposeAnswer(sources))
  {
    var context := Join(Contents(sources), ContextSeparator);
    assert (AnswerPrefix + context)[..|AnswerPrefix|] == AnswerPrefix;
    forall i | 0 <= i < |sources|
      ensures IsSubstring(sources[i].content, ComposeAnswer(sources))
    {
      JoinContainsParts(Contents(sources), ContextSeparator, i);
      SubstringAfter(sources[i].content, AnswerPrefix, context);
    }
  }

  /** The fallback sentence and a composed answer can be told apart: an answer starts
      with the prefix exactly when it was built from sources. */
  lemma FallbackIsNotComposed()
    ensures !IsPrefix(AnswerPrefix, FallbackAnswer)
  {
    assert FallbackAnswer[0] == 'N';
    assert AnswerPrefix[0] == 'B';
  }

  /** What `/ask` answers from is what `/search` returns for the same text, cut down to the
      part coming from the store's top three: a prefix of the search results. */
  lemma AskSourcesArePrefixOfSearchResults(text: string, embed: string -> Embedding, rank: Embedding -> seq<Hit>)
    ensures AskSources(text, embed, rank) <= SearchRoute.SearchResults(text, embed, rank)
  {
    var ranked := rank(embed(text));
    var top3 := TopHits(ranked, AskLimit);
    var top5 := TopHits(ranked, SearchRoute.SearchLimit);
    TopHitsPrefix(ranked, AskLimit, SearchRoute.SearchLimit);
    var rest := top5[|top3|..];
    FilterAppend(top3, rest, RelevantTo(text));
    var kept := AskSources(text, embed, rank);
    assert SearchRoute.SearchResults(text, embed, rank) == kept + Filter(rest, RelevantTo(text));
    assert (kept + Filter(rest, RelevantTo(text)))[..|kept|] == kept;
  }
}
