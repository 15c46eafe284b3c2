/**
 * What the application reads from an opened EPUB file (the `epub` crate's
 * `EpubDoc`): its metadata, each key with the entries in document order,
 * and the bytes of its cover image if it has one. Opening the archive itself
 * is an input of the operations that use it.
 */
module Epub {
  import opened Wrappers

  /** The ways `EpubDoc::new` fails. */
  datatype DocError = ArchiveError | XmlError | IOError | InvalidEpub

  datatype EpubDoc = EpubDoc(metadata: map<string, seq<string>>, cover: Option<seq<bv8>>)

  /** `EpubDoc::mdata`: the first entry of a metadata key, if there is one. */
  function Mdata(doc: EpubDoc, key: string): (r: Option<string>)
    ensures r.Some? <==> key in doc.metadata && |doc.metadata[key]| > 0
    ensures r.Some? ==> r.value == doc.metadata[key][0]
  {
    if key in doc.metadata && |doc.metadata[key]| > 0 then Some(doc.metadata[key][0]) else None
  }
}
