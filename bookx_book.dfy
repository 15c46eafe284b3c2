/**
 * The book card of the library grid (`src/components/library/bookx_book.rs`):
 * loading a book checks its metadata, saves its cover image into the user
 * cache, and shows its title with a progress value.
 */
module BookxBookCard {
  import opened Wrappers
  import opened Epub
  import opened Filesystem

  /** What the card shows; the scaled cover image it also holds is not part of this model. */
  datatype BookCard = BookCard(title: string, progress: real)

  /** The progress every loaded card starts with. */
  const INITIAL_PROGRESS: real := 40.0

  /**
   * `<cache>/cover_images/<identifier>.png`, built with `PathBuf::join`: a
   * file name that is itself an absolute path replaces the folder.
   */
  function CoverPath(cacheDir: string, identifier: string): string {
    var file := identifier + ".png";
    if file[0] == '/' then file else cacheDir + "/cover_images/" + file
  }

  /**
   * Two books whose identifiers are relative names never share a cover path.
   * This is about the path text: the filesystem may still resolve two
   * different texts, such as "a//b" and "a/b", to one file.
   */
  lemma CoverPathInjective(cacheDir: string, a: string, b: string)
    requires !(|a| > 0 && a[0] == '/') && !(|b| > 0 && b[0] == '/')
    ensures CoverPath(cacheDir, a) == CoverPath(cacheDir, b) <==> a == b
  {
    var dir := cacheDir + "/cover_images/";
    var pa, pb := CoverPath(cacheDir, a), CoverPath(cacheDir, b);
    if pa == pb {
      assert pa == dir + a + ".png" && pb == dir + b + ".png";
      assert a == pa[|dir|..|pa| - 4];
      assert b == pb[|dir|..|pb| - 4];
    }
  }

  /** An identifier that is an absolute path puts the cover outside the cache. */
  lemma AbsoluteIdentifierLeavesCache(cacheDir: string)
    ensures CoverPath(cacheDir, "/cover") == "/cover.png"
  {
  }

  /** Which identifier, if any, a successful load saves a cover for. */
  function CoverIdentifier(open: Result<EpubDoc, DocError>): Option<string> {
    if open.Ok? && Mdata(open.value, "identifier").Some? && Mdata(open.value, "title").Some? && open.value.cover.Some?
    then Some(Mdata(open.value, "identifier").value)
    else None
  }

  /**
   * The outcome of `load_book` given what opening the file gives: an open
   * error is passed on as it is, and a book without an identifier, a title
   * or a cover image is an invalid EPUB.
   */
  function LoadResult(open: Result<EpubDoc, DocError>): (r: Result<BookCard, DocError>)
    ensures open.Err? ==> r == Err(open.error)
    ensures open.Ok? && Mdata(open.value, "identifier").None? ==> r == Err(InvalidEpub)
    ensures open.Ok? && Mdata(open.value, "title").None? ==> r == Err(InvalidEpub)
    ensures open.Ok? && open.value.cover.None? ==> r == Err(InvalidEpub)
    ensures r.Ok? <==> CoverIdentifier(open).Some?
    ensures r.Ok? ==> r.value == BookCard(open.value.metadata["title"][0], INITIAL_PROGRESS)
  {
    match open
    case Err(e) => Err(e)
    case Ok(doc) =>
      match Mdata(doc, "identifier")
      case None => Err(InvalidEpub)
      case Some(_) =>
        match Mdata(doc, "title")
        case None => Err(InvalidEpub)
        case Some(title) =>
          if doc.cover.None? then Err(InvalidEpub) else Ok(BookCard(title, INITIAL_PROGRESS))
  }

  /**
   * `BookxBook::load_book`. Once the metadata is found and the book has a
   * cover, the cover bytes are written to its cover file on every load when
   * the `cover_images` folder can be created (`mkdirOk`); the write stamps
   * the file with `now`. The card then decodes the picture at the cover path
   * and unwraps the result, so when the folder cannot be created a cover
   * from an earlier load must already be there.
   */
  method LoadBook(disk: Disk, cacheDir: string, open: Result<EpubDoc, DocError>, mkdirOk: bool, now: nat)
    returns (r: Result<BookCard, DocError>)
    requires CoverIdentifier(open).Some? && !mkdirOk ==> CoverPath(cacheDir, CoverIdentifier(open).value) in disk.files
    modifies disk
    ensures r == LoadResult(open)
    ensures r.Ok? ==> CoverIdentifier(open).Some? && CoverPath(cacheDir, CoverIdentifier(open).value) in disk.files
    ensures CoverIdentifier(open).Some? && mkdirOk ==>
              disk.files == old(disk.files)[CoverPath(cacheDir, CoverIdentifier(open).value) := DiskFile(Blob(open.value.cover.value), now)]
    ensures CoverIdentifier(open).None? || !mkdirOk ==> disk.files == old(disk.files)
  {
    match open {
      case Err(e) =>
        return Err(e);
      case Ok(doc) =>
        var identifier := Mdata(doc, "identifier");
        if identifier.None? {
          return Err(InvalidEpub);
        }
        var title := Mdata(doc, "title");
        if title.None? {
          return Err(InvalidEpub);
        }
        var coverPath := CoverPath(cacheDir, identifier.value);
        match doc.cover {
          case Some(coverData) =>
            if mkdirOk {
              disk.files := disk.files[coverPath := DiskFile(Blob(coverData), now)];
            }
          case None =>
            return Err(InvalidEpub);
        }
        r := Ok(BookCard(title.value, INITIAL_PROGRESS));
    }
  }
}
