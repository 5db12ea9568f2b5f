/** UploadDocumentCommandHandler.Handle: one document and one embedded chunk
    per non-blank page, added to the store. */
module UploadDocument {
  import opened Wrappers
  import opened Strings
  import opened Entities
  import opened Randomness
  import opened PdfTextExtractor
  import opened Persistence

  /** The uploaded file: its metadata and the pages the PDF library reads
      from its stream. */
  datatype FormFile = FormFile(
    fileName: string,
    contentType: string,
    length: int,
    pages: seq<Page>)

  datatype UploadDocumentCommand = UploadDocumentCommand(file: FormFile)

  /** The chunks built from the extracted pages before any embedding: the
      k-th one takes the k-th fresh id. */
  function PendingChunks(extracted: seq<(int, string)>, documentId: Guid, chunkIds: seq<Guid>): seq<TextChunk>
    requires |extracted| <= |chunkIds|
  {
    seq(|extracted|, k requires 0 <= k < |extracted| =>
      TextChunk(chunkIds[k], documentId, extracted[k].1, extracted[k].0, None))
  }

  /** The chunks the handler adds to the store: the pending chunks, the k-th
      with the k-th block of Dim random components as its embedding. */
  function IngestedChunks(pages: seq<Page>, documentId: Guid, chunkIds: seq<Guid>,
                          stream: nat -> Component, from: nat): seq<TextChunk>
    requires |pages| <= |chunkIds|
  {
    var pending := PendingChunks(ExtractText(pages), documentId, chunkIds);
    seq(|pending|, k requires 0 <= k < |pending| =>
      pending[k].(embedding := Some(Draws(stream, from + k * Dim, Dim))))
  }

  /** The ids the handler draws with Guid.NewGuid: distinct, and new to the
      store. */
  ghost predicate FreshChunkIds(chunks: seq<TextChunk>, chunkIds: seq<Guid>) {
    && (forall i, j | 0 <= i < j < |chunkIds| :: chunkIds[i] != chunkIds[j])
    && (forall i | 0 <= i < |chunkIds| :: chunkIds[i] !in ChunkIdsOf(chunks))
  }

  /** There is exactly one ingested chunk per non-blank page, in page order:
      chunk k carries the text and the page number of page KeptPages(pages)[k],
      belongs to the document, and has an embedding of dimension Dim; a page
      has a chunk if and only if it is not blank. */
  lemma {:induction false} IngestedChunksFollowPages(pages: seq<Page>, documentId: Guid, chunkIds: seq<Guid>,
                                  stream: nat -> Component, from: nat)
    requires |pages| <= |chunkIds|
    ensures |IngestedChunks(pages, documentId, chunkIds, stream, from)| == |KeptPages(pages)|
    ensures forall k | 0 <= k < |KeptPages(pages)| ::
      var c := IngestedChunks(pages, documentId, chunkIds, stream, from)[k];
      var p := KeptPages(pages)[k];
      && p < |pages| && pages[p].text == Some(c.content)
      && c.pageNumber == pages[p].number
      && c.documentId == documentId
      && c.id == chunkIds[k]
      && c.embedding.Some? && |c.embedding.value| == Dim
    ensures forall k, l | 0 <= k < l < |KeptPages(pages)| :: KeptPages(pages)[k] < KeptPages(pages)[l]
    ensures forall j | 0 <= j < |pages| :: !IsBlank(pages[j]) <==> j in KeptPages(pages)
  {
    ExtractTextFollowsPages(pages);
    var e := ExtractText(pages);
    var cs := IngestedChunks(pages, documentId, chunkIds, stream, from);
    var kept := KeptPages(pages);
    forall k | 0 <= k < |kept|
      ensures kept[k] < |pages| && pages[kept[k]].text == Some(cs[k].content)
      ensures cs[k].pageNumber == pages[kept[k]].number
      ensures cs[k].documentId == documentId && cs[k].id == chunkIds[k]
      ensures cs[k].embedding.Some? && |cs[k].embedding.value| == Dim
    {
      assert e[k] == (pages[kept[k]].number, pages[kept[k]].text.value);
    }
  }

  /** The document with no non-blank page still ingests, with no chunk. */
  lemma {:induction false} BlankDocumentHasNoChunks(pages: seq<Page>, documentId: Guid, chunkIds: seq<Guid>,
                                 stream: nat -> Component, from: nat)
    requires |pages| <= |chunkIds|
    ensures IngestedChunks(pages, documentId, chunkIds, stream, from) == []
        <==> forall j | 0 <= j < |pages| :: IsBlank(pages[j])
  {
    ExtractTextEmptyIffAllBlank(pages);
  }

  /** Adding a document with a new id and its ingested chunks with fresh ids
      keeps the store consistent. */
  lemma {:induction false} IngestionKeepsConsistent(
    documents: seq<Document>, chunks: seq<TextChunk>, document: Document,
    pages: seq<Page>, chunkIds: seq<Guid>, stream: nat -> Component, from: nat)
    requires Consistent(documents, chunks)
    requires document.id !in IdsOf(documents)
    requires |pages| <= |chunkIds| && FreshChunkIds(chunks, chunkIds)
    ensures Consistent(documents + [document],
                       chunks + IngestedChunks(pages, document.id, chunkIds, stream, from))
  {
    var added := IngestedChunks(pages, document.id, chunkIds, stream, from);
    IngestedChunksFollowPages(pages, document.id, chunkIds, stream, from);
    AddingDocumentKeepsConsistent(documents, chunks, document, added);
  }

  /** `new float[768]` filled component by component from the random source. */
  method NewDummyEmbedding(random: Random) returns (dummyEmbedding: array<Component>)
    modifies random
    ensures fresh(dummyEmbedding)
    ensures dummyEmbedding[..] == Draws(random.stream, old(random.drawn), Dim)
    ensures random.drawn == old(random.drawn) + Dim
  {
    dummyEmbedding := new Component[Dim];
    for i := 0 to dummyEmbedding.Length
      invariant random.drawn == old(random.drawn) + i
      invariant forall m | 0 <= m < i :: dummyEmbedding[m] == random.stream(old(random.drawn) + m)
    {
      dummyEmbedding[i] := random.NextComponent();
    }
  }

  /** The first loop of the handler: one pending chunk per non-blank page,
      in page order, as the pages are read. */
  method BuildChunks(pages: seq<Page>, documentId: Guid, chunkIds: seq<Guid>)
    returns (textChunks: seq<TextChunk>)
    requires |pages| <= |chunkIds|
    ensures textChunks == PendingChunks(ExtractText(pages), documentId, chunkIds)
  {
    textChunks := [];
    for j := 0 to |pages|
      invariant textChunks == PendingChunks(ExtractText(pages[..j]), documentId, chunkIds)
    {
      var page := pages[j];
      var text := page.text;
      if !IsNullOrWhiteSpace(text) {
        textChunks := textChunks + [TextChunk(chunkIds[|textChunks|], documentId, text.value, page.number, None)];
      }
      assert pages[..j + 1] == pages[..j] + [page];
      ExtractTextSnoc(pages[..j], page);
    }
    assert pages[..|pages|] == pages;
  }

  /** The second loop of the handler: chunk k gets a fresh dummy embedding,
      the k-th block of Dim random components; nothing else changes. */
  method EmbedChunks(textChunks: seq<TextChunk>, random: Random) returns (embedded: seq<TextChunk>)
    modifies random
    ensures |embedded| == |textChunks|
    ensures forall k | 0 <= k < |textChunks| ::
      embedded[k] == textChunks[k].(embedding := Some(Draws(random.stream, old(random.drawn) + k * Dim, Dim)))
    ensures random.drawn == old(random.drawn) + |textChunks| * Dim
  {
    embedded := textChunks;
    for k := 0 to |textChunks|
      invariant |embedded| == |textChunks|
      invariant random.drawn == old(random.drawn) + k * Dim
      invariant forall m | 0 <= m < k ::
        embedded[m] == textChunks[m].(embedding := Some(Draws(random.stream, old(random.drawn) + m * Dim, Dim)))
      invariant forall m | k <= m < |textChunks| :: embedded[m] == textChunks[m]
    {
      var dummyEmbedding := NewDummyEmbedding(random);
      embedded := embedded[k := embedded[k].(embedding := Some(dummyEmbedding[..]))];
    }
  }

  /** The handler. `newId`, `chunkIds` and `uploadedOn` stand for the values
      of Guid.NewGuid and DateTime.UtcNow. */
  method Handle(context: ApplicationDbContext, request: UploadDocumentCommand,
                newId: Guid, chunkIds: seq<Guid>, uploadedOn: int, random: Random)
    returns (id: Guid)
    requires |request.file.pages| <= |chunkIds|
    modifies context, random
    ensures (old(context.Valid()) && newId !in old(IdsOf(context.documents))
             && old(FreshChunkIds(context.textChunks, chunkIds))) ==> context.Valid()
    ensures id == newId
    ensures context.documents == old(context.documents) + [Document(
      newId, request.file.fileName, request.file.contentType, request.file.length, uploadedOn)]
    ensures context.textChunks == old(context.textChunks)
      + IngestedChunks(request.file.pages, newId, chunkIds, random.stream, old(random.drawn))
    ensures random.drawn == old(random.drawn) + |ExtractText(request.file.pages)| * Dim
  {
    var document := Document(newId, request.file.fileName, request.file.contentType,
                             request.file.length, uploadedOn);
    var pages := request.file.pages;
    var textChunks := BuildChunks(pages, document.id, chunkIds);
    ghost var from := random.drawn;
    textChunks := EmbedChunks(textChunks, random);

    assert textChunks == IngestedChunks(pages, newId, chunkIds, random.stream, from);
    if context.Valid() && newId !in IdsOf(context.documents) && FreshChunkIds(context.textChunks, chunkIds) {
      IngestionKeepsConsistent(context.documents, context.textChunks, document, pages, chunkIds, random.stream, from);
    }
    context.AddDocument(document);
    context.AddChunks(textChunks);
    id := document.id;
  }
}
