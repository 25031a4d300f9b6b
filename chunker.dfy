/**
 The document chunker (`chunkText` in backend/src/lib/chunk.js): split a text
 into sentences at whitespace that follows `.`, `!` or `?`, drop the blank
 ones, group consecutive sentences `maxSentences` at a time joined by single
 spaces, and keep the groups whose trimmed length exceeds ten.
 */
module Chunker {
  import opened Strings
  import opened Sequences
  import opened Splitting

  const DefaultMaxSentences: nat := 3

  /** A chunk is kept only when its trimmed length is strictly greater than this. */
  const MinChunkLength: nat := 10

  /** `s.trim().length > 0`. */
  predicate HasContent(s: string) {
    CodeUnits(Trim(s)) > 0
  }

  /** `chunk.trim().length > 10`. */
  predicate LongEnough(chunk: string) {
    CodeUnits(Trim(chunk)) > MinChunkLength
  }

  /** The sentence list: the text split at each sentence break, blank pieces removed. */
  function Sentences(text: string): seq<string> {
    Filter(Split(text, WhitespaceAfterTerminal).parts, HasContent)
  }

  /** The sentences taken n at a time from the front, each group joined by single spaces. */
  function Blocks(sentences: seq<string>, n: nat): seq<string>
    requires n >= 1
    decreases |sentences|
  {
    if sentences == [] then []
    else
      var m := Min(n, |sentences|);
      [Join(sentences[..m], " ")] + Blocks(sentences[m..], n)
  }

  /** The k-th group on its own: the sentences from index k * n, at most n of them,
      joined by single spaces. */
  function Block(sentences: seq<string>, n: nat, k: nat): string
    requires n >= 1 && k * n < |sentences|
  {
    Join(sentences[k * n .. Min(k * n + n, |sentences|)], " ")
  }

  /** What `chunkText(text, n)` returns. */
  function Chunks(text: string, n: nat): seq<string>
    requires n >= 1
  {
    Filter(Blocks(Sentences(text), n), LongEnough)
  }

  /** `chunkText`: split the text into sentences, then group them. */
  method ChunkText(text: string, maxSentences: nat := DefaultMaxSentences) returns (chunks: seq<string>)
    requires maxSentences >= 1
    ensures chunks == Chunks(text, maxSentences)
  {
    var sentences := Sentences(text);
    chunks := GroupSentences(sentences, maxSentences);
  }

  /** The loop of `chunkText`: advance by maxSentences, append each long-enough group. */
  method GroupSentences(sentences: seq<string>, maxSentences: nat) returns (chunks: seq<string>)
    requires maxSentences >= 1
    ensures chunks == Filter(Blocks(sentences, maxSentences), LongEnough)
  {
    chunks := [];
    var i := 0;
    while i < |sentences|
      invariant chunks + KeptFrom(sentences, maxSentences, i) == KeptFrom(sentences, maxSentences, 0)
      decreases |sentences| - i
    {
      var chunk := Join(sentences[i..Min(i + maxSentences, |sentences|)], " ");
      LoopStep(sentences, maxSentences, i, chunk, chunks);
      if LongEnough(chunk) {
        chunks := chunks + [chunk];
      }
      i := i + maxSentences;
    }
    KeptFromEnd(sentences, maxSentences, i);
  }

  /** The chunks the loop still has to produce once it has reached index i. */
  function KeptFrom(sentences: seq<string>, n: nat, i: nat): seq<string>
    requires n >= 1
  {
    Filter(Blocks(sentences[Min(i, |sentences|)..], n), LongEnough)
  }

  /** One step of the loop: what remains from index i is the group at i, if it is
      long enough, followed by what remains from index i + n. */
  lemma LoopStep(sentences: seq<string>, n: nat, i: nat, chunk: string, done: seq<string>)
    requires n >= 1 && i < |sentences|
    requires chunk == Join(sentences[i..Min(i + n, |sentences|)], " ")
    ensures KeptFrom(sentences, n, i)
            == (if LongEnough(chunk) then [chunk] else []) + KeptFrom(sentences, n, i + n)
    ensures done + KeptFrom(sentences, n, i)
            == (if LongEnough(chunk) then done + [chunk] else done) + KeptFrom(sentences, n, i + n)
  {
    var rest := sentences[i..];
    var later := Blocks(sentences[Min(i + n, |sentences|)..], n);
    assert rest[..Min(n, |rest|)] == sentences[i..Min(i + n, |sentences|)];
    assert rest[Min(n, |rest|)..] == sentences[Min(i + n, |sentences|)..];
    assert Blocks(rest, n) == [chunk] + later;
    assert ([chunk] + later)[1..] == later;
    var after := KeptFrom(sentences, n, i + n);
    if LongEnough(chunk) {
      assert done + ([chunk] + after) == (done + [chunk]) + after;
    } else {
      assert [] + after == after;
    }
  }

  lemma KeptFromEnd(sentences: seq<string>, n: nat, i: nat)
    requires n >= 1 && i >= |sentences|
    ensures KeptFrom(sentences, n, i) == [] && KeptFrom(sentences, n, 0) == Filter(Blocks(sentences, n), LongEnough)
  {
    assert sentences[Min(i, |sentences|)..] == [];
    assert sentences[Min(0, |sentences|)..] == sentences;
  }

  // ---------------------------------------------------------------------------
  // Lemmas

  /** The k-th block is the group of sentences starting at index k * n. */
  lemma {:induction false} BlocksAt(sentences: seq<string>, n: nat, k: nat)
    requires n >= 1 && k < |Blocks(sentences, n)|
    ensures k * n < |sentences| && Blocks(sentences, n)[k] == Block(sentences, n, k)
  {
    var m := Min(n, |sentences|);
    var rest := sentences[m..];
    assert Blocks(sentences, n) == [Join(sentences[..m], " ")] + Blocks(rest, n);
    if k > 0 {
      BlocksAt(rest, n, k - 1);
      assert Blocks(sentences, n)[k] == Blocks(rest, n)[k - 1];
      NextMultiple(k, n);
      BlockOfRest(sentences, n, k);
    }
  }

  /** A group of the sentences after the first n is a group of all the sentences, one
      index further on. */
  lemma BlockOfRest(sentences: seq<string>, n: nat, k: nat)
    requires n >= 1 && k > 0 && n <= |sentences|
    requires (k - 1) * n < |sentences[n..]| && (k - 1) * n + n == k * n
    ensures k * n < |sentences| && Block(sentences[n..], n, k - 1) == Block(sentences, n, k)
  {
    var start := (k - 1) * n;
    var rest := sentences[n..];
    assert rest[start .. Min(start + n, |rest|)] == sentences[start + n .. Min(start + n + n, |sentences|)];
  }

  lemma NextMultiple(k: nat, n: nat)
    requires k > 0
    ensures (k - 1) * n + n == k * n
  {
  }

  /** There are ceil(|sentences| / n) blocks. */
  lemma {:induction false} BlocksCount(sentences: seq<string>, n: nat)
    requires n >= 1
    ensures |Blocks(sentences, n)| == (|sentences| + n - 1) / n
  {
    if sentences == [] {
      DivSmall(n - 1, n);
    } else if |sentences| <= n {
      DivStep(|sentences| - 1, n);
      DivSmall(|sentences| - 1, n);
    } else {
      BlocksCount(sentences[n..], n);
      DivStep(|sentences| - 1, n);
    }
  }

  lemma DivSmall(a: nat, n: nat)
    requires a < n
    ensures a / n == 0
  {
  }

  lemma DivStep(a: nat, n: nat)
    requires n >= 1
    ensures (a + n) / n == a / n + 1
  {
    var q, r := a / n, a % n;
    assert a == q * n + r;
    assert a + n == (q + 1) * n + r;
    DivUnique(a + n, n, q + 1, r);
  }

  lemma DivUnique(x: int, n: int, q: int, r: int)
    requires n >= 1 && 0 <= r < n && x == q * n + r
    ensures x / n == q
  {
    var q', r' := x / n, x % n;
    assert x == q' * n + r' && 0 <= r' < n;
    assert (q' - q) * n == r - r';
    if q' > q {
      MulAtLeast(q' - q, n);
    } else if q' < q {
      MulAtLeast(q - q', n);
    }
  }

  lemma MulAtLeast(d: int, n: int)
    requires d >= 1 && n >= 1
    ensures d * n >= n
  {
  }

  /** No sentence is empty or whitespace only. */
  lemma SentencesHaveContent(text: string)
    ensures forall s :: s in Sentences(text) ==> !IsBlank(s)
  {
    FilterKeepsExactly(Split(text, WhitespaceAfterTerminal).parts, HasContent);
    forall s | s in Sentences(text) ensures !IsBlank(s) {
      TrimEmptyIffBlank(s);
    }
  }

  /** Every chunk's trimmed length is greater than ten. */
  lemma ChunksAreLongEnough(text: string, n: nat)
    requires n >= 1
    ensures forall c :: c in Chunks(text, n) ==> CodeUnits(Trim(c)) > MinChunkLength
  {
    FilterKeepsExactly(Blocks(Sentences(text), n), LongEnough);
  }

  /** Every chunk is one group: the sentences from an index that is a multiple of n,
      at most n of them, joined by single spaces. */
  lemma ChunkIsBlock(text: string, n: nat, c: string)
    requires n >= 1 && c in Chunks(text, n)
    ensures exists k: nat :: k * n < |Sentences(text)| && c == Block(Sentences(text), n, k)
  {
    var blocks := Blocks(Sentences(text), n);
    FilterKeepsExactly(blocks, LongEnough);
    var k :| 0 <= k < |blocks| && blocks[k] == c;
    BlocksAt(Sentences(text), n, k);
  }

  /** The chunks are the groups in document order, with the short ones left out. */
  lemma ChunksInDocumentOrder(text: string, n: nat)
    requires n >= 1
    ensures SubsequenceOf(Chunks(text, n), Blocks(Sentences(text), n))
  {
    FilterIsSubsequence(Blocks(Sentences(text), n), LongEnough);
  }

  /** There are at most ceil(#sentences / n) chunks. */
  lemma ChunkCount(text: string, n: nat)
    requires n >= 1
    ensures |Chunks(text, n)| <= (|Sentences(text)| + n - 1) / n
  {
    GroupCount(Sentences(text), n);
  }

  lemma GroupCount(sentences: seq<string>, n: nat)
    requires n >= 1
    ensures |Filter(Blocks(sentences, n), LongEnough)| <= (|sentences| + n - 1) / n
  {
    FilterKeepsExactly(Blocks(sentences, n), LongEnough);
    BlocksCount(sentences, n);
  }

  /** Empty or whitespace-only text gives no chunks, and no failure. */
  lemma BlankTextHasNoChunks(text: string, n: nat)
    requires n >= 1 && IsBlank(text)
    ensures Chunks(text, n) == []
  {
    var parts := Split(text, WhitespaceAfterTerminal).parts;
    BlankSplitsIntoBlanks(text, WhitespaceAfterTerminal, false);
    forall p | p in parts ensures !HasContent(p) {
      TrimEmptyIffBlank(p);
    }
    FilterNone(parts, HasContent);
    assert Sentences(text) == [];
  }

  /** Text in which no `.`, `!` or `?` is followed by whitespace is a single sentence:
      the result is the whole text if its trimmed length exceeds ten, and nothing otherwise. */
  lemma UnbrokenTextIsOneChunk(text: string, n: nat)
    requires n >= 1 && NoSentenceBreak(text)
    ensures Chunks(text, n) == if CodeUnits(Trim(text)) > MinChunkLength then [text] else []
  {
    UnbrokenTextIsOnePart(text, false);
    assert Split(text, WhitespaceAfterTerminal).parts == [text];
    assert Filter([text][1..], HasContent) == [];
    if HasContent(text) {
      assert Sentences(text) == [text];
      assert [text][..Min(n, 1)] == [text];
      assert [text][Min(n, 1)..] == [];
      assert Blocks([text], n) == [text];
      assert Filter([text][1..], LongEnough) == [];
    } else {
      assert Sentences(text) == [];
    }
  }
}
