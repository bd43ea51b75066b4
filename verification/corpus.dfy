/**
 * The corpus as the result layer sees it: documents with an id and a bag
 * of words over integer term ids.
 */
module Corpus {

  /** An integer id the dictionary assigns to a term. */
  type TermId = nat

  /** The id a document carries through the pipeline. */
  type DocId = string

  /** A document as the corpus yields it: its id and its bag of words, (term id, count) pairs. */
  datatype Document = Document(id: DocId, bow: seq<(TermId, nat)>)

  type Corpus = seq<Document>
}
