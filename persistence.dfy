/** The database context: the Documents and TextChunks tables. */
module Persistence {
  import opened Wrappers
  import opened Entities

  function IdsOf(documents: seq<Document>): set<Guid> {
    set i | 0 <= i < |documents| :: documents[i].id
  }

  function ChunkIdsOf(chunks: seq<TextChunk>): set<Guid> {
    set i | 0 <= i < |chunks| :: chunks[i].id
  }

  /** The invariant of the two tables: ids are unique in each table, every
      chunk belongs to a stored document, and every embedding has dimension
      Dim. */
  ghost predicate Consistent(documents: seq<Document>, chunks: seq<TextChunk>) {
    && (forall i, j | 0 <= i < j < |documents| :: documents[i].id != documents[j].id)
    && (forall i, j | 0 <= i < j < |chunks| :: chunks[i].id != chunks[j].id)
    && (forall i | 0 <= i < |chunks| :: chunks[i].documentId in IdsOf(documents))
    && (forall i | 0 <= i < |chunks| ::
          chunks[i].embedding.Some? ==> |chunks[i].embedding.value| == Dim)
  }

  /** Adding one document with a new id together with chunks that have new,
      distinct ids, belong to that document and carry Dim-dimensional
      embeddings keeps the tables consistent. */
  lemma {:induction false} AddingDocumentKeepsConsistent(
    documents: seq<Document>, chunks: seq<TextChunk>, d: Document, added: seq<TextChunk>)
    requires Consistent(documents, chunks)
    requires d.id !in IdsOf(documents)
    requires forall i, j | 0 <= i < j < |added| :: added[i].id != added[j].id
    requires forall i | 0 <= i < |added| :: added[i].id !in ChunkIdsOf(chunks)
    requires forall i | 0 <= i < |added| :: added[i].documentId == d.id
    requires forall i | 0 <= i < |added| :: added[i].embedding.Some? && |added[i].embedding.value| == Dim
    ensures Consistent(documents + [d], chunks + added)
  {
    var ds, cs := documents + [d], chunks + added;
    assert IdsOf(ds) == IdsOf(documents) + {d.id} by {
      assert forall i | 0 <= i < |documents| :: ds[i] == documents[i];
      assert ds[|documents|] == d;
    }
    forall i, j | 0 <= i < j < |cs| ensures cs[i].id != cs[j].id {
      if j >= |chunks| && i < |chunks| {
        assert cs[j] == added[j - |chunks|];
        assert cs[i].id in ChunkIdsOf(chunks);
      } else if i >= |chunks| {
        assert cs[i] == added[i - |chunks|] && cs[j] == added[j - |chunks|];
      }
    }
    forall i | 0 <= i < |cs| ensures cs[i].documentId in IdsOf(ds) {
      if i >= |chunks| {
        assert cs[i] == added[i - |chunks|];
      }
    }
  }

  class ApplicationDbContext {
    var documents: seq<Document>
    var textChunks: seq<TextChunk>

    ghost predicate Valid()
      reads this
    {
      Consistent(documents, textChunks)
    }

    constructor ()
      ensures Valid()
      ensures documents == [] && textChunks == []
    {
      documents := [];
      textChunks := [];
    }

    /** Documents.AddAsync: one new document row. */
    method AddDocument(document: Document)
      modifies this
      ensures documents == old(documents) + [document]
      ensures textChunks == old(textChunks)
    {
      documents := documents + [document];
    }

    /** TextChunks.AddRangeAsync: the new chunk rows, in order. */
    method AddChunks(chunks: seq<TextChunk>)
      modifies this
      ensures textChunks == old(textChunks) + chunks
      ensures documents == old(documents)
    {
      textChunks := textChunks + chunks;
    }
  }
}
