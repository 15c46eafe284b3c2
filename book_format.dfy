/** The ebook formats the application accepts (`src/models/format.rs`). */
module BookFormat {
  import opened Wrappers

  datatype Format = EPUB

  datatype FormatNotSupportedError = FormatNotSupportedError(details: string)

  const EPUB_MIME: string := "application/epub+zip"

  function Default(): Format {
    EPUB
  }

  /** Every format the application accepts as an ebook. */
  function Iterator(): seq<Format> {
    [EPUB]
  }

  /** Formats that take annotations without a warning. */
  function CanAnnotate(): seq<Format> {
    [EPUB]
  }

  function GetMime(f: Format): string {
    match f
    case EPUB => "application/epub+zip"
  }

  /** Parses a mime type; any mime type but EPUB's is refused with a message naming it. */
  function FromStr(mime: string): (r: Result<Format, FormatNotSupportedError>)
    ensures r.Ok? <==> exists f: Format :: GetMime(f) == mime
    ensures r.Err? ==> r.error.details == mime + " is not supported format for book"
  {
    if mime == "application/epub+zip" then
      assert GetMime(EPUB) == mime;
      Ok(EPUB)
    else
      assert forall f: Format :: GetMime(f) == EPUB_MIME;
      Err(FormatNotSupportedError(mime + " is not supported format for book"))
  }

  /** Parsing a format's own mime type gives that format back. */
  lemma FromStrGetMime(f: Format)
    ensures FromStr(GetMime(f)) == Ok(f)
  {
  }

  /** A mime type that parses is the mime type of the format it parses to. */
  lemma GetMimeFromStr(mime: string)
    requires FromStr(mime).Ok?
    ensures GetMime(FromStr(mime).value) == mime
  {
  }

  /** Every format is offered as an ebook format and takes annotations. */
  lemma EveryFormatListed(f: Format)
    ensures f in Iterator() && f in CanAnnotate()
  {
    match f
    case EPUB =>
  }

  lemma DefaultIsAccepted()
    ensures Default() in Iterator() && Default() in CanAnnotate()
    ensures FromStr(GetMime(Default())) == Ok(Default())
  {
  }
}
