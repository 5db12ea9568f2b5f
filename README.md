# NacresKnowledgeBase retrieval core, modelled in Dafny

NacresKnowledgeBase is a small retrieval pipeline. An uploaded PDF becomes a
`Document` row plus one `TextChunk` row per non-blank page, and each chunk gets
a 768-component embedding (for now a random dummy vector). A question is
answered like this: build a random 768-component question vector, fetch the
three chunks nearest to it by L2 distance, and return either a fixed "nothing
found" message or a debug answer that lists the chunks' contents.

This project models three parts of that pipeline and proves properties about
them:

- **Page filter** (`PdfTextExtractor`). A pure recursive filter over the
  document's pages. Each page has its own number and a text that may be null.
  A page is dropped when its text is null, empty or white space only (the .NET
  `Char.IsWhiteSpace` set is modelled in `Strings.IsWhiteSpace`).
- **Upload handler** (`UploadDocument`). An imperative method over a store
  class, `Persistence.ApplicationDbContext`, whose two tables are `seq`
  fields.
  - The first loop builds the pending chunks.
  - The second loop gives each chunk a fresh embedding that an inner loop
    writes into a new `array` of length 768.
  - Then one document row and the chunk rows are appended to the tables.
- **Question handler** (`AskQuestion`, `VectorSearch`).
  - The question vector is filled in place in a new array.
  - `OrderBy(distance).Take(3)` is modelled as a pure function.
  - The answer string is `string.Join` of the contents behind the debug
    prefix, or the fixed message.

Modelling choices:

- **Vector components are integers.** Distance is the squared Euclidean
  distance. The square root is monotone, so this gives the same order as L2
  distance.
- **Random values come from a `Randomness.Random` object.** It holds a stream
  function and a count of the values drawn so far. Every embedding is stated
  exactly as a block of consecutive draws.
- **`Guid.NewGuid` and `DateTime.UtcNow` are inputs.** The upload handler
  takes the new document id, a supply of chunk ids and the timestamp as
  parameters.
- **A chunk with a null embedding is ranked after every chunk that has one.**
  This is PostgreSQL's default for ascending order: its NULL distance sorts
  last. Such chunks are not filtered out, and the source does not filter them
  either.
- **A chunk whose embedding has a different dimension makes the query fail.**
  pgvector raises an error on such a comparison. The model returns
  `Failure(DifferentVectorDimensions)` from `VectorSearch.Retrieve`.
- **The store's consistency is a model invariant.** `Persistence.Consistent`
  says:
  - ids are unique in each table;
  - every chunk points at a stored document;
  - every embedding has 768 components.

  The handlers do not check any of this. The database does: the `vector(768)`
  column, the primary keys and the foreign key reject a violating row at
  `SaveChangesAsync`, which is not modelled. The model proves that an upload
  keeps the invariant whenever the new ids are fresh, and that a query on a
  consistent store never fails.

Places where the intended behaviour and the code differ (the model follows
the code):

- The intended behaviour is that chunks without an embedding are never
  returned and that ties are broken by chunk id. The query does neither.
- An all-blank question was meant to be handled by a configurable policy.
  The handler ignores the question text entirely, because the question vector
  is random.
- The entity files are older revisions than the handlers. `Document.cs` names
  the field `Filename` and `TextChunk.cs` has no `Embedding`. The model uses
  the fields the handlers write: `fileName`, and an optional `embedding`.

## Model

| member | source | states |
|---|---|---|
| `PdfTextExtractor.ExtractText` | NacresKnowledgeBase.Infrastructure/Services/PdfTextExtractor.cs:10-20 | the output has at most as many pairs as there are pages, and no emitted text is null, empty or white space only |
| `PdfTextExtractor.ExtractTextSnoc` | NacresKnowledgeBase.Infrastructure/Services/PdfTextExtractor.cs:13-18 | one more page adds exactly that page's contribution at the end: nothing if it is blank, otherwise its own (number, text) |
| `PdfTextExtractor.KeptPagesAreTheNonBlankPages` | NacresKnowledgeBase.Infrastructure/Services/PdfTextExtractor.cs:15 | the kept indices are in range and strictly increasing, and an index is kept if and only if its page is not blank |
| `PdfTextExtractor.ExtractTextFollowsPages` | NacresKnowledgeBase.Infrastructure/Services/PdfTextExtractor.cs:13-19 | the output is the subsequence of non-blank pages in their original order; pair k is the page's own number (no renumbering) and its unchanged text; every non-blank page is emitted exactly once and every blank page not at all |
| `PdfTextExtractor.ExtractTextKeepsAllIffNoneBlank` | NacresKnowledgeBase.Infrastructure/Services/PdfTextExtractor.cs:13-19 | the output is as long as the page list if and only if no page is blank |
| `PdfTextExtractor.ExtractTextEmptyIffAllBlank` | NacresKnowledgeBase.Infrastructure/Services/PdfTextExtractor.cs:15 | a document whose pages are all blank yields the empty sequence rather than an error, and only such a document does |
| `PdfTextExtractor.TwoPageExample` | NacresKnowledgeBase.Infrastructure/Services/PdfTextExtractor.cs:13-19 | page 1 "Alpha content" followed by an empty page 2 yields exactly [(1, "Alpha content")] |
| `Strings.StartShift` | NacresKnowledgeBase.Application/Features/Documents/Queries/AskQuestionQueryHandler.cs:52 | in a join, the offset of piece i+1 equals the first piece, one separator, and the offset of piece i in the join of the remaining pieces |
| `Strings.JoinLength` | NacresKnowledgeBase.Application/Features/Documents/Queries/AskQuestionQueryHandler.cs:52 | a join of n pieces ends right after its last piece: its length is the pieces' lengths plus n-1 separators |
| `Strings.JoinPiece` | NacresKnowledgeBase.Application/Features/Documents/Queries/AskQuestionQueryHandler.cs:52 | piece i appears unchanged at its offset, so the pieces keep their order |
| `Strings.JoinSeparator` | NacresKnowledgeBase.Application/Features/Documents/Queries/AskQuestionQueryHandler.cs:52 | exactly one separator lies between each two neighbouring pieces |
| `Persistence.AddingDocumentKeepsConsistent` | NacresKnowledgeBase.Application/Features/Documents/Commands/UploadDocumentCommandHandler.cs:76-78 | appending a document with a new id, and chunks with new distinct ids that belong to it and have 768-component embeddings, keeps the tables consistent |
| `Persistence.ApplicationDbContext.AddDocument` | NacresKnowledgeBase.Application/Features/Documents/Commands/UploadDocumentCommandHandler.cs:76 | the documents table gains exactly the one row at the end; the chunks table is unchanged |
| `Persistence.ApplicationDbContext.AddChunks` | NacresKnowledgeBase.Application/Features/Documents/Commands/UploadDocumentCommandHandler.cs:77 | the chunks table gains exactly the given rows, in order; the documents table is unchanged |
| `Randomness.Random.NextComponent` | NacresKnowledgeBase.Application/Features/Documents/Commands/UploadDocumentCommandHandler.cs:68 | each call hands out the next value of the random stream and advances the draw count by one |
| `UploadDocument.IngestedChunksFollowPages` | NacresKnowledgeBase.Application/Features/Documents/Commands/UploadDocumentCommandHandler.cs:39-52 | one chunk per non-blank page and none for blank pages, in page order; chunk k has page KeptPages[k]'s text as content and its number as page number, the document's id, the k-th fresh id, and an embedding of length 768 |
| `UploadDocument.BlankDocumentHasNoChunks` | NacresKnowledgeBase.Application/Features/Documents/Commands/UploadDocumentCommandHandler.cs:39-52 | a document yields no chunks if and only if all of its pages are blank |
| `UploadDocument.IngestionKeepsConsistent` | NacresKnowledgeBase.Application/Features/Documents/Commands/UploadDocumentCommandHandler.cs:76-78 | adding the new document and its ingested chunks with fresh ids keeps the store consistent |
| `UploadDocument.NewDummyEmbedding` | NacresKnowledgeBase.Application/Features/Documents/Commands/UploadDocumentCommandHandler.cs:62-69 | a fresh array of length 768 whose index i holds the i-th next random draw, so each index 0..767 is written once and in order [0, i) before step i |
| `UploadDocument.BuildChunks` | NacresKnowledgeBase.Application/Features/Documents/Commands/UploadDocumentCommandHandler.cs:35-53 | the list grown page by page is one pending chunk per extracted page (the same filter as ExtractText), with content, page number, document id and the k-th fresh id, and no embedding |
| `UploadDocument.EmbedChunks` | NacresKnowledgeBase.Application/Features/Documents/Commands/UploadDocumentCommandHandler.cs:57-73 | every chunk keeps all its fields except the embedding, which becomes the k-th block of 768 random draws, so no chunk is left with a null embedding |
| `UploadDocument.Handle` | NacresKnowledgeBase.Application/Features/Documents/Commands/UploadDocumentCommandHandler.cs:24-81 | returns the new document's id; the documents table gains exactly one row with the request's file name, content type and size; the chunks table gains exactly the ingested chunks and keeps its old rows; the store stays consistent when ids are fresh |
| `VectorSearch.SqDistSelf` | NacresKnowledgeBase.Application/Features/Documents/Queries/AskQuestionQueryHandler.cs:40 | a vector is at distance 0 from itself |
| `VectorSearch.Insert` | NacresKnowledgeBase.Application/Features/Documents/Queries/AskQuestionQueryHandler.cs:40 | inserting into a sequence sorted by distance keeps it sorted and adds exactly the one chunk |
| `VectorSearch.SortByRank` | NacresKnowledgeBase.Application/Features/Documents/Queries/AskQuestionQueryHandler.cs:40 | the result is in non-decreasing order of distance (null embeddings last) and is a permutation of the table |
| `VectorSearch.SortedPrefixIsTopK` | NacresKnowledgeBase.Application/Features/Documents/Queries/AskQuestionQueryHandler.cs:40-41 | the first min(k, n) rows of any sorted permutation form a top-k result, whatever the order of ties |
| `VectorSearch.TopK` | NacresKnowledgeBase.Application/Features/Documents/Queries/AskQuestionQueryHandler.cs:39-42 | min(k, table size) rows, each taken from the table no more often than it occurs there, in ascending distance; no row left out is strictly closer than a returned one |
| `VectorSearch.Retrieve` | NacresKnowledgeBase.Application/Features/Documents/Queries/AskQuestionQueryHandler.cs:39-42 | fails exactly when some stored embedding has a different dimension from the question vector; otherwise returns a top-k result |
| `VectorSearch.ExactMatchRanksFirst` | NacresKnowledgeBase.Application/Features/Documents/Queries/AskQuestionQueryHandler.cs:39-42 | when a stored chunk's embedding equals the question vector, the first result is at distance 0 |
| `AskQuestion.Respond` | NacresKnowledgeBase.Application/Features/Documents/Queries/AskQuestionQueryHandler.cs:44-57 | the answer is the fixed no-information message if and only if nothing was retrieved; otherwise it is the debug prefix followed by the contents joined with "\n---\n" |
| `AskQuestion.ResponseContentAt` | NacresKnowledgeBase.Application/Features/Documents/Queries/AskQuestionQueryHandler.cs:52-57 | the content of the i-th retrieved chunk appears unchanged right after the prefix, at its join offset, in retrieval order |
| `AskQuestion.ResponseSeparatorBefore` | NacresKnowledgeBase.Application/Features/Documents/Queries/AskQuestionQueryHandler.cs:52 | the "\n---\n" separator comes right before every retrieved content but the first |
| `AskQuestion.ResponseEndsWithLastContent` | NacresKnowledgeBase.Application/Features/Documents/Queries/AskQuestionQueryHandler.cs:52-57 | nothing follows the last retrieved content, so the answer holds n-1 separators for n chunks |
| `AskQuestion.Answer` | NacresKnowledgeBase.Application/Features/Documents/Queries/AskQuestionQueryHandler.cs:39-62 | the query fails exactly on a dimension mismatch; when it succeeds, the answer is the fixed message if and only if the store holds no chunk |
| `AskQuestion.ConsistentStoreAnswers` | NacresKnowledgeBase.Application/Features/Documents/Queries/AskQuestionQueryHandler.cs:39-42 | on a consistent store and a 768-component question the query never fails and retrieves min(3, store size) chunks |
| `AskQuestion.NewQuestionEmbedding` | NacresKnowledgeBase.Application/Features/Documents/Queries/AskQuestionQueryHandler.cs:24-30 | a fresh array of length 768 whose index i holds the i-th next random draw, each index written once |
| `AskQuestion.AnswerIsAnAnswer` | NacresKnowledgeBase.Application/Features/Documents/Queries/AskQuestionQueryHandler.cs:39-62 | the answer Answer computes is one of the answers the handler may give under some order of ties |
| `AskQuestion.AnyAnswerNoInfoIffEmpty` | NacresKnowledgeBase.Application/Features/Documents/Queries/AskQuestionQueryHandler.cs:44-57 | under every order of ties, a successful answer is the fixed message exactly when the store is empty, and otherwise starts with the debug prefix |
| `AskQuestion.Handle` | NacresKnowledgeBase.Application/Features/Documents/Queries/AskQuestionQueryHandler.cs:19-63 | draws exactly 768 random values; fails exactly on a dimension mismatch, and otherwise answers with the response built from some valid top-3 result for those draws, under whatever order the database gives equal distances; the store is not modified |
| `VectorSearch.TiedChunksEitherReturned` | NacresKnowledgeBase.Application/Features/Documents/Queries/AskQuestionQueryHandler.cs:40-41 | with two tied chunks and one slot, returning either of them is a valid top-k result |

## Left out

- PDF parsing (`PdfDocument.Open`, `GetPages`): pages are an input sequence, and the exception for a malformed PDF is not modelled.
- Floating point: the random values in [-1, 1) and the float L2 distance are abstracted. Components are integers from an abstract stream, and distances are exact squared distances, so float rounding ties are not modelled.
- Tie order of the database sort: `VectorSearch.TopK` and `AskQuestion.Answer` compute one particular (stable) order. The handler's contract (`AskQuestion.IsAnswer`) admits every order among equal distances.
- EF Core persistence: change tracking, `SaveChangesAsync` and its atomicity, `ToListAsync`. The Add calls append to the tables directly.
- The two stale `ApplicationDbContext` files and `IApplicationDbContext`: interface plumbing, not part of this model.
- Async execution, cancellation tokens and MediatR dispatch: not modelled.
- `Guid.NewGuid` and `DateTime.UtcNow`: taken as inputs. `UploadDocument.Handle` takes a supply of at least one chunk id per page.
- Each handler's own `new Random()`: the caller passes in the random source.
- `UploadDocument.Handle`: guarantees store consistency only when the supplied ids are fresh. The handler does not check uniqueness, dimensions or references. The database's rejection of such rows at `SaveChangesAsync` (primary keys, the foreign key to the document, the `vector(768)` column) is not modelled: the model appends the rows as given.
- The controller's rejection of an empty upload (DocumentsController.cs:29-32): the handler does not demand it, so it is not a precondition.
- GeminiService, Program.cs, the controller's HTTP wiring and the migrations: HTTP clients, dependency-injection setup and schema DDL, not part of this model.
