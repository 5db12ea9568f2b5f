/** The records the handlers build and store. */
module Entities {
  import opened Wrappers

  /** An opaque unique identifier (Guid). */
  type Guid = nat

  /** One component of an embedding vector; the source's floats are abstracted
      to integers, on which only lengths and orderings are reasoned about. */
  type Component = int

  /** A pgvector Vector. */
  type Vector = seq<Component>

  /** The dimensionality of every embedding, and of the question vector. */
  const Dim: nat := 768

  /** A page as the PDF library hands it over: its own page number and its
      text, which may be null. */
  datatype Page = Page(number: int, text: Option<string>)

  /** A stored document: the fields the upload handler writes. */
  datatype Document = Document(
    id: Guid,
    fileName: string,
    contentType: string,
    fileSize: int,
    uploadedOn: int)

  /** A stored chunk of text: one page of a document, with an embedding that
      is null until the upload handler assigns it. */
  datatype TextChunk = TextChunk(
    id: Guid,
    documentId: Guid,
    content: string,
    pageNumber: int,
    embedding: Option<Vector>)
}
