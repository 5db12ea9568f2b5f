/** AskQuestionQueryHandler.Handle: embed the question, fetch the three
    nearest chunks and answer with them. */
module AskQuestion {
  import opened Wrappers
  import opened Strings
  import opened Entities
  import opened Randomness
  import opened Persistence
  import opened VectorSearch

  datatype AskQuestionQuery = AskQuestionQuery(question: string)

  /** `Take(3)`. */
  const TopCount: nat := 3

  const Separator: string := "\n---\n"

  const NoInformationMessage: string := "Üzgünüm, bu soruya cevap verebilecek bir bilgi bulamadım."

  const DebugPrefix: string := "DEBUG: Sorunuza en yakın bulunan metin parçaları şunlardır:\n\n"

  /** `relevantChunks.Select(c => c.Content)`. */
  function Contents(chunks: seq<TextChunk>): (r: seq<string>)
    ensures |r| == |chunks|
    ensures forall i | 0 <= i < |chunks| :: r[i] == chunks[i].content
  {
    seq(|chunks|, i requires 0 <= i < |chunks| => chunks[i].content)
  }

  /** The answer built from the retrieved chunks: the fixed message exactly
      when nothing was retrieved, otherwise the debug prefix followed by the
      contents joined with the separator. */
  function Respond(retrieved: seq<TextChunk>): (answer: string)
    ensures retrieved == [] <==> answer == NoInformationMessage
    ensures retrieved != [] ==>
      |DebugPrefix| <= |answer| && answer[..|DebugPrefix|] == DebugPrefix
      && answer[|DebugPrefix|..] == Join(Separator, Contents(retrieved))
  {
    if |retrieved| == 0 then NoInformationMessage
    else
      var contextText := Join(Separator, Contents(retrieved));
      var debugResponse := DebugPrefix + contextText;
      assert |NoInformationMessage| == 57 < 61 == |DebugPrefix|;
      debugResponse
  }

  /** In a non-empty answer, the content of the i-th retrieved chunk sits at
      |DebugPrefix| + Start(Separator, contents, i). */
  lemma {:induction false} ResponseContentAt(retrieved: seq<TextChunk>, i: nat)
    requires i < |retrieved|
    ensures |DebugPrefix| + Start(Separator, Contents(retrieved), i) + |retrieved[i].content| <= |Respond(retrieved)|
    ensures Respond(retrieved)[|DebugPrefix| + Start(Separator, Contents(retrieved), i)..
                               |DebugPrefix| + Start(Separator, Contents(retrieved), i) + |retrieved[i].content|]
         == retrieved[i].content
  {
    var contents := Contents(retrieved);
    var joined := Join(Separator, contents);
    var p := |DebugPrefix|;
    assert Respond(retrieved) == DebugPrefix + joined;
    JoinPiece(Separator, contents, i);
    var s := Start(Separator, contents, i);
    var n := |contents[i]|;
    assert contents[i] == retrieved[i].content;
    var answer := DebugPrefix + joined;
    assert answer[p..] == joined;
    assert answer[p + s..p + s + n] == answer[p..][s..s + n];
  }

  /** In a non-empty answer, the separator comes right before the content of
      every retrieved chunk but the first. */
  lemma {:induction false} ResponseSeparatorBefore(retrieved: seq<TextChunk>, i: nat)
    requires 0 < i < |retrieved|
    ensures |Separator| <= Start(Separator, Contents(retrieved), i)
    ensures |DebugPrefix| + Start(Separator, Contents(retrieved), i) <= |Respond(retrieved)|
    ensures Respond(retrieved)[|DebugPrefix| + Start(Separator, Contents(retrieved), i) - |Separator|..
                               |DebugPrefix| + Start(Separator, Contents(retrieved), i)]
         == Separator
  {
    var contents := Contents(retrieved);
    var joined := Join(Separator, contents);
    var p := |DebugPrefix|;
    assert Respond(retrieved) == DebugPrefix + joined;
    JoinSeparator(Separator, contents, i);
    var s := Start(Separator, contents, i);
    assert s - |Separator| == Start(Separator, contents, i - 1) + |contents[i - 1]|;
    assert (DebugPrefix + joined)[p + s - |Separator|..p + s] == joined[s - |Separator|..s];
  }

  /** In a non-empty answer, nothing follows the content of the last
      retrieved chunk. */
  lemma {:induction false} ResponseEndsWithLastContent(retrieved: seq<TextChunk>)
    requires |retrieved| > 0
    ensures |Respond(retrieved)| == |DebugPrefix| + Start(Separator, Contents(retrieved), |retrieved| - 1)
                                    + |retrieved[|retrieved| - 1].content|
  {
    JoinLength(Separator, Contents(retrieved));
  }

  /** The whole query on a table and a question vector. */
  function Answer(chunks: seq<TextChunk>, q: Vector): (r: Result<string, SearchError>)
    ensures r.Failure? <==> !SameDimension(chunks, q)
    ensures r.Success? ==> (r.value == NoInformationMessage <==> chunks == [])
  {
    match Retrieve(chunks, q, TopCount)
    case Failure(e) => Failure(e)
    case Success(relevantChunks) => Success(Respond(relevantChunks))
  }

  /** `answer` is an answer the handler may give for a table and a question
      vector, whatever order the database gives rows of equal distance: a
      dimension error exactly when pgvector raises one, and otherwise the
      response built from some valid top-3 result. */
  ghost predicate IsAnswer(chunks: seq<TextChunk>, q: Vector, answer: Result<string, SearchError>) {
    && (answer.Failure? <==> !SameDimension(chunks, q))
    && (answer.Success? ==> exists r :: IsTopK(chunks, q, TopCount, r) && answer.value == Respond(r))
  }

  /** Answer computes one of the admissible answers. */
  lemma {:induction false} AnswerIsAnAnswer(chunks: seq<TextChunk>, q: Vector)
    ensures IsAnswer(chunks, q, Answer(chunks, q))
  {
    if SameDimension(chunks, q) {
      var r := TopK(chunks, q, TopCount);
      assert IsTopK(chunks, q, TopCount, r) && Answer(chunks, q).value == Respond(r);
    }
  }

  /** Under every order of ties, a successful answer is the fixed message
      exactly when the store holds no chunk, and otherwise starts with the
      debug prefix. */
  lemma {:induction false} AnyAnswerNoInfoIffEmpty(chunks: seq<TextChunk>, q: Vector, answer: Result<string, SearchError>)
    requires IsAnswer(chunks, q, answer) && answer.Success?
    ensures answer.value == NoInformationMessage <==> chunks == []
    ensures chunks != [] ==> |DebugPrefix| <= |answer.value| && answer.value[..|DebugPrefix|] == DebugPrefix
  {
    var r :| IsTopK(chunks, q, TopCount, r) && answer.value == Respond(r);
    assert r == [] <==> chunks == [];
  }

  /** A consistent store holds only embeddings of dimension Dim, so a query
      with a Dim-dimensional question never meets a dimension error, and it
      answers from at most three chunks. */
  lemma {:induction false} ConsistentStoreAnswers(documents: seq<Document>, chunks: seq<TextChunk>, q: Vector)
    requires Consistent(documents, chunks) && |q| == Dim
    ensures Retrieve(chunks, q, TopCount).Success?
    ensures |Retrieve(chunks, q, TopCount).value| == Min(TopCount, |chunks|)
    ensures Answer(chunks, q) == Success(Respond(Retrieve(chunks, q, TopCount).value))
    ensures forall answer | IsAnswer(chunks, q, answer) :: answer.Success?
  {
    assert SameDimension(chunks, q);
  }

  /** `new float[768]` filled from the random source. */
  method NewQuestionEmbedding(random: Random) returns (embeddingArray: array<Component>)
    modifies random
    ensures fresh(embeddingArray)
    ensures embeddingArray[..] == Draws(random.stream, old(random.drawn), Dim)
    ensures random.drawn == old(random.drawn) + Dim
  {
    embeddingArray := new Component[Dim];
    for i := 0 to Dim
      invariant random.drawn == old(random.drawn) + i
      invariant forall m | 0 <= m < i :: embeddingArray[m] == random.stream(old(random.drawn) + m)
    {
      embeddingArray[i] := random.NextComponent();
    }
  }

  /** The handler. The question's text is not used: the question vector is
      random. Its contract admits the answer built from any valid top-3
      result, since the database promises no order among equal distances;
      the body computes one of them. */
  method Handle(context: ApplicationDbContext, request: AskQuestionQuery, random: Random)
    returns (answer: Result<string, SearchError>)
    modifies random
    ensures random.drawn == old(random.drawn) + Dim
    ensures IsAnswer(context.textChunks, Draws(random.stream, old(random.drawn), Dim), answer)
  {
    var embeddingArray := NewQuestionEmbedding(random);
    var questionEmbedding := embeddingArray[..];

    var query := Retrieve(context.textChunks, questionEmbedding, TopCount);
    if query.Failure? {
      AnswerIsAnAnswer(context.textChunks, questionEmbedding);
      return Failure(query.error);
    }
    var relevantChunks := query.value;
    if |relevantChunks| == 0 {
      AnswerIsAnAnswer(context.textChunks, questionEmbedding);
      return Success(NoInformationMessage);
    }

    var contextText := Join(Separator, Contents(relevantChunks));
    var debugResponse := DebugPrefix + contextText;
    AnswerIsAnAnswer(context.textChunks, questionEmbedding);
    return Success(debugResponse);
  }
}
