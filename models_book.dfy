/**
 * The library's book record (`src/models/book.rs`): the metadata read from
 * an EPUB file when a book is first loaded, and its reading progress.
 */
module ModelsBook {
  import opened Wrappers
  import opened FileOrder
  import opened BookFormat
  import opened Epub

  datatype BookxBookError = FormatNotSupportError | DocError(err: Epub.DocError)

  /** The fields of a loaded book that never change after loading. */
  datatype BookInfo = BookInfo(
    identifier: string,
    title: string,
    format: Format,
    path: Path,
    author: string,
    publisher: string,
    language: string)

  /**
   * The metadata the loader unwraps: a first "title", "publisher" and
   * "language" entry, a "creator" list, and at least one entry under
   * "identifier" when that key is present.
   */
  predicate CompleteMetadata(doc: EpubDoc) {
    && Mdata(doc, "title").Some?
    && "creator" in doc.metadata
    && Mdata(doc, "publisher").Some?
    && Mdata(doc, "language").Some?
    && ("identifier" in doc.metadata ==> |doc.metadata["identifier"]| > 0)
  }

  predicate IsLowerAscii(c: char) {
    'a' <= c <= 'z'
  }

  function UpperChar(c: char): (u: char)
    ensures !IsLowerAscii(u)
    ensures IsLowerAscii(c) ==> 'A' <= u <= 'Z' && u as int == c as int - 32
    ensures !IsLowerAscii(c) ==> u == c
  {
    if IsLowerAscii(c) then (c as int - 32) as char else c
  }

  /** Upper-casing, on the ASCII letters. */
  function ToUpper(s: string): (u: string)
    ensures |u| == |s|
    ensures forall i :: 0 <= i < |u| ==> !IsLowerAscii(u[i])
    ensures forall i :: 0 <= i < |s| && IsLowerAscii(s[i]) ==> u[i] == (s[i] as int - 32) as char
    ensures forall i :: 0 <= i < |s| && !IsLowerAscii(s[i]) ==> u[i] == s[i]
  {
    if s == [] then [] else [UpperChar(s[0])] + ToUpper(s[1..])
  }

  /**
   * `BookxBook::load` on a file of MIME type `mime`, given what opening it as
   * an EPUB gives. The MIME type is parsed before the file is opened.
   */
  function Load(path: Path, mime: string, open: Result<EpubDoc, Epub.DocError>): (r: Result<BookInfo, BookxBookError>)
    requires FromStr(mime).Ok? && open.Ok? ==> CompleteMetadata(open.value)
    ensures FromStr(mime).Err? ==> r == Err(FormatNotSupportError)
    ensures FromStr(mime).Ok? && open.Err? ==> r == Err(DocError(open.error))
    ensures r.Ok? <==> FromStr(mime).Ok? && open.Ok?
  {
    match FromStr(mime)
    case Err(_) => Err(FormatNotSupportError)
    case Ok(format) =>
      match open
      case Err(e) => Err(DocError(e))
      case Ok(doc) =>
        var title := Mdata(doc, "title").value;
        var identifier := if "identifier" in doc.metadata then doc.metadata["identifier"][0] else title;
        Ok(BookInfo(identifier, title, format, path, Join(doc.metadata["creator"], ", "),
                    Mdata(doc, "publisher").value, ToUpper(Mdata(doc, "language").value)))
  }

  /** What a successful load records, field by field. */
  lemma LoadFields(path: Path, mime: string, doc: EpubDoc)
    requires FromStr(mime).Ok? && CompleteMetadata(doc)
    ensures Load(path, mime, Ok(doc)).Ok?
    ensures var b := Load(path, mime, Ok(doc)).value;
      && b.format == FromStr(mime).value
      && b.path == path
      && b.title == doc.metadata["title"][0]
      && b.identifier == (if "identifier" in doc.metadata then doc.metadata["identifier"][0] else b.title)
      && b.author == Join(doc.metadata["creator"], ", ")
      && b.publisher == doc.metadata["publisher"][0]
      && b.language == ToUpper(doc.metadata["language"][0])
      && |b.language| == |doc.metadata["language"][0]|
      && (forall i :: 0 <= i < |b.language| ==> !IsLowerAscii(b.language[i]))
  {
  }

  /** An EPUB file whose content type is EPUB's and which opens loads as an EPUB book. */
  lemma LoadEpub(path: Path, doc: EpubDoc)
    requires CompleteMetadata(doc)
    ensures Load(path, EPUB_MIME, Ok(doc)).Ok?
    ensures Load(path, EPUB_MIME, Ok(doc)).value.format == EPUB
  {
    FromStrGetMime(EPUB);
  }

  /**
   * `BookxBook::load` as written: the MIME type is asked for the path text
   * instead of a content type, and on Unix a content type is its own MIME
   * type, so the path text is what gets parsed as a format.
   */
  function LoadAsWritten(path: Path, open: Result<EpubDoc, Epub.DocError>): (r: Result<BookInfo, BookxBookError>)
  {
    Load(path, PathText(path), open)
  }

  /** As written, no file ever loads: a path text starts with '/', which no MIME type does. */
  lemma LoadAsWrittenAlwaysFails(path: Path, open: Result<EpubDoc, Epub.DocError>)
    ensures FromStr(PathText(path)).Err?
    ensures LoadAsWritten(path, open) == Err(FormatNotSupportError)
  {
  }

  /** The signed integer types `set_progress` is written with. */
  datatype IntWidth = I32 | I128

  function MinOf(w: IntWidth): int {
    match w
    case I32 => -0x8000_0000
    case I128 => -0x8000_0000_0000_0000_0000_0000_0000_0000
  }

  function MaxOf(w: IntWidth): int {
    match w
    case I32 => 0x7fff_ffff
    case I128 => 0x7fff_ffff_ffff_ffff_ffff_ffff_ffff_ffff
  }

  predicate Fits(x: int, w: IntWidth) {
    MinOf(w) <= x <= MaxOf(w)
  }

  /** What `(current / total) * 100` demands to run without a panic: a divisor and no overflow. */
  predicate PercentageDefined(current: int, total: int, w: IntWidth) {
    && Fits(current, w) && Fits(total, w) && total != 0
    && !(current == MinOf(w) && total == -1)
    && Fits(TruncDiv(current, total) * 100, w)
  }

  function Abs(x: int): nat {
    if x < 0 then -x else x
  }

  /**
   * The quotient of two counts, rounded down: how many times `y` can be taken
   * from `x`.
   */
  function NatDiv(x: nat, y: nat): (r: nat)
    requires y > 0
    ensures x < y ==> r == 0
    ensures x == y ==> r == 1
    ensures y <= x ==> r >= 1
    ensures r <= x
    decreases x
  {
    if x < y then 0 else 1 + NatDiv(x - y, y)
  }

  /** `NatDiv` is the quotient: `y` fits `r` times into `x`, and not `r + 1` times. */
  lemma {:induction false} NatDivIsQuotient(x: nat, y: nat)
    requires y > 0
    ensures NatDiv(x, y) * y <= x < (NatDiv(x, y) + 1) * y
    decreases x
  {
    if x >= y {
      NatDivIsQuotient(x - y, y);
    }
  }

  /** Integer division rounding toward zero, as Rust's `/` on integers. */
  function TruncDiv(a: int, b: int): (q: int)
    requires b != 0
    ensures Abs(q) == NatDiv(Abs(a), Abs(b))
    ensures q > 0 ==> (a > 0 <==> b > 0)
    ensures q < 0 ==> (a > 0 <==> b < 0)
  {
    var m: int := NatDiv(Abs(a), Abs(b));
    if (a < 0) == (b < 0) then m else -m
  }

  /**
   * `(current / total) * 100` on integers of width `w`: the division rounds
   * toward zero.
   */
  function Percentage(current: int, total: int, w: IntWidth): (p: int)
    requires PercentageDefined(current, total, w)
    ensures Fits(p, w) && p % 100 == 0
    ensures 0 <= current < total ==> p == 0
    ensures current == total ==> p == 100
    ensures 0 < total <= current ==> p >= 100
  {
    TruncDiv(current, total) * 100
  }

  /** For counts, the percentage is 100 times the whole number of times `total` fits into `current`. */
  lemma PercentageOfCounts(current: nat, total: nat, w: IntWidth)
    requires PercentageDefined(current, total, w)
    ensures var q := NatDiv(current, total);
      && Percentage(current, total, w) == 100 * q
      && q * total <= current < (q + 1) * total
  {
    NatDivIsQuotient(current, total);
  }

  /** Any page but the last counts as 0% read: the division is done before the scaling. */
  lemma PercentageIsAllOrNothing(current: int, total: int, w: IntWidth)
    requires 0 <= current <= total && 0 < total <= MaxOf(w)
    ensures PercentageDefined(current, total, w)
    ensures Percentage(current, total, w) == (if current == total then 100 else 0)
  {
  }

  /** A book of the library with its mutable reading state. */
  class BookxBook {
    const info: BookInfo
    var hasAnnotations: bool
    var progress: int

    /** The record `load` builds: nothing annotated, nothing read. */
    constructor (info: BookInfo)
      ensures this.info == info && !hasAnnotations && progress == 0
    {
      this.info := info;
      hasAnnotations := false;
      progress := 0;
    }

    /** `set_progress`: stores the truncated percentage of pages read. */
    method SetProgress(current: int, total: int)
      requires PercentageDefined(current, total, I32)
      modifies this`progress
      ensures progress == Percentage(current, total, I32)
    {
      progress := TruncDiv(current, total) * 100;
    }
  }

  /** `BookxBook::load` with the record it allocates. */
  method LoadBook(path: Path, mime: string, open: Result<EpubDoc, Epub.DocError>) returns (r: Result<BookxBook, BookxBookError>)
    requires FromStr(mime).Ok? && open.Ok? ==> CompleteMetadata(open.value)
    ensures r.Ok? <==> Load(path, mime, open).Ok?
    ensures r.Err? ==> r.error == Load(path, mime, open).error
    ensures r.Ok? ==> fresh(r.value) && r.value.info == Load(path, mime, open).value
                      && !r.value.hasAnnotations && r.value.progress == 0
  {
    match Load(path, mime, open)
    case Err(e) =>
      r := Err(e);
    case Ok(info) =>
      var book := new BookxBook(info);
      r := Ok(book);
  }
}
