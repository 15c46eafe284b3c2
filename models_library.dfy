/**
 * The application's library object (`src/models/library.rs`): refreshing
 * looks at the books folder setting's file and records a book entry for it
 * when it is itself an ebook. The files found below a folder are collected
 * into a local list that nothing reads, so a folder never adds a book.
 */
module ModelsLibrary {
  import opened Wrappers
  import opened FileOrder
  import opened FolderScan
  import opened LibraryUtils
  import BookFormat

  datatype Status = Loading | Content | Empty | Null

  /** What the library records for a book file: an identifier (its URI for now), its format and its URI. */
  datatype BookInit = BookInit(id: string, format: BookFormat.Format, uri: string)

  /** A file of the list model: its path and what querying it reports (None when the query fails). */
  datatype FileItem = FileItem(path: Path, info: Option<Entry>)

  const NO_BOOKS_NOTICE: string := "Could not find any books in the current directory"

  /** `File::uri` of a local file (percent-encoding is not modelled). */
  function Uri(p: Path): (u: string)
    ensures |u| > 7 && u[..7] == "file://"
  {
    "file://" + PathText(p)
  }

  /** Whether the content type is the MIME type of one of `formats`, tried in order. */
  predicate AnyMimeMatches(formats: seq<BookFormat.Format>, contentType: string) {
    formats != [] && (BookFormat.GetMime(formats[0]) == contentType || AnyMimeMatches(formats[1..], contentType))
  }

  /** A content type that is the MIME type of one of the ebook formats. */
  predicate IsEbookType(contentType: string) {
    AnyMimeMatches(BookFormat.Iterator(), contentType)
  }

  /** Some format of the list has the content type as its MIME type exactly when the check says so. */
  lemma {:induction false} AnyMimeMatchesExists(formats: seq<BookFormat.Format>, contentType: string)
    ensures AnyMimeMatches(formats, contentType) <==> exists i :: 0 <= i < |formats| && BookFormat.GetMime(formats[i]) == contentType
  {
    if formats != [] {
      AnyMimeMatchesExists(formats[1..], contentType);
      if exists i :: 0 <= i < |formats| && BookFormat.GetMime(formats[i]) == contentType {
        var i :| 0 <= i < |formats| && BookFormat.GetMime(formats[i]) == contentType;
        if i > 0 {
          assert formats[1..][i - 1] == formats[i];
        }
      }
      if AnyMimeMatches(formats[1..], contentType) {
        var i :| 0 <= i < |formats[1..]| && BookFormat.GetMime(formats[1..][i]) == contentType;
        assert formats[i + 1] == formats[1..][i];
      }
    }
  }

  lemma IsEbookTypeIsEpub(contentType: string)
    ensures IsEbookType(contentType) <==> contentType == BookFormat.EPUB_MIME
  {
    var formats := BookFormat.Iterator();
    assert formats == [BookFormat.EPUB] && formats[1..] == [];
    assert !AnyMimeMatches([], contentType);
  }

  /** The entry one file of the model adds to the book list: one for a regular file of an ebook type. */
  function ItemInit(item: FileItem): (r: seq<BookInit>)
    ensures |r| <= 1
    ensures r != [] ==> item.info.Some? && item.info.value.Regular? && item.info.value.contentType == Some(BookFormat.EPUB_MIME)
    ensures r != [] ==> r[0] == BookInit(Uri(item.path), BookFormat.EPUB, Uri(item.path))
  {
    if item.info.Some? && item.info.value.Regular? && item.info.value.contentType.Some?
       && item.info.value.contentType.value == BookFormat.EPUB_MIME
    then
      BookFormat.GetMimeFromStr(BookFormat.EPUB_MIME);
      [BookInit(Uri(item.path), BookFormat.FromStr(BookFormat.EPUB_MIME).value, Uri(item.path))]
    else []
  }

  /** The files one file of the model adds to the local list: every file below a folder. */
  function ItemFiles(item: FileItem, collate: Collator): seq<Path> {
    if item.info.Some? && item.info.value.Directory? then Scan(item.path, item.path, item.info.value, true, AnyRegular, collate)
    else []
  }

  function Inits(items: seq<FileItem>): seq<BookInit> {
    if items == [] then [] else Inits(items[..|items| - 1]) + ItemInit(items[|items| - 1])
  }

  function FolderFiles(items: seq<FileItem>, collate: Collator): seq<Path> {
    if items == [] then [] else FolderFiles(items[..|items| - 1], collate) + ItemFiles(items[|items| - 1], collate)
  }

  /** Every recorded book is the EPUB file of some item, named by its URI. */
  lemma {:induction false} InitsAreEpubFiles(items: seq<FileItem>, b: BookInit)
    requires b in Inits(items)
    ensures b.format == BookFormat.EPUB && b.id == b.uri
    ensures exists i :: 0 <= i < |items| && Uri(items[i].path) == b.uri && items[i].info.Some?
                        && items[i].info.value.Regular? && items[i].info.value.contentType == Some(BookFormat.EPUB_MIME)
  {
    var init := items[..|items| - 1];
    if b in Inits(init) {
      InitsAreEpubFiles(init, b);
      var i :| 0 <= i < |init| && Uri(init[i].path) == b.uri && init[i].info.Some?
                && init[i].info.value.Regular? && init[i].info.value.contentType == Some(BookFormat.EPUB_MIME);
      assert items[i] == init[i];
    } else {
      assert b in ItemInit(items[|items| - 1]);
    }
  }

  /** A folder never contributes a book entry, whatever it holds. */
  lemma FolderAddsNoBook(path: Path, dir: Entry)
    requires dir.Directory?
    ensures Inits([FileItem(path, Some(dir))]) == []
  {
    assert [FileItem(path, Some(dir))][..0] == [];
  }

  class BookxLibrary {
    /** The book entries recorded so far; refreshing adds to them and never clears them. */
    var bookInitList: seq<BookInit>
    var status: Status
    /** Every status set, in order (each one is announced). */
    var statusLog: seq<Status>
    var notifications: seq<string>

    constructor ()
      ensures bookInitList == [] && status == Null && statusLog == [] && notifications == []
    {
      bookInitList := [];
      status := Null;
      statusLog := [];
      notifications := [];
    }

    method SetStatus(s: Status)
      modifies this`status, this`statusLog
      ensures status == s && statusLog == old(statusLog) + [s]
    {
      status := s;
      statusLog := statusLog + [s];
    }

    /**
     * One file of `add_books_to_list`: a regular file of an ebook type is
     * recorded under its URI, and the files below a folder are returned for
     * the local list.
     */
    method AddItem(item: FileItem, collate: Collator) returns (files: seq<Path>)
      modifies this`bookInitList
      ensures bookInitList == old(bookInitList) + ItemInit(item)
      ensures files == ItemFiles(item, collate)
    {
      files := [];
      if item.info.Some? {
        match item.info.value {
          case Regular(_, contentType) =>
            if contentType.Some? {
              IsEbookTypeIsEpub(contentType.value);
              if IsEbookType(contentType.value) {
                var format := BookFormat.FromStr(contentType.value).value;
                bookInitList := bookInitList + [BookInit(Uri(item.path), format, Uri(item.path))];
              }
            }
          case Directory(_, _) =>
            files := LoadFilesFromFolder(item.path, item.info.value, true, collate);
          case _ =>
        }
      }
    }

    /**
     * `add_books_to_list`: records an entry for each regular file of an
     * ebook type, collects the files below each folder into a local list
     * (returned here as `collected`), then reports Content when entries
     * exist and Empty with a notification otherwise.
     */
    method AddBooksToList(items: seq<FileItem>, collate: Collator) returns (collected: seq<Path>)
      modifies this`bookInitList, this`status, this`statusLog, this`notifications
      ensures bookInitList == old(bookInitList) + Inits(items)
      ensures collected == FolderFiles(items, collate)
      ensures bookInitList != [] ==> status == Content && statusLog == old(statusLog) + [Content] && notifications == old(notifications)
      ensures bookInitList == [] ==> status == Empty && statusLog == old(statusLog) + [Empty]
                                     && notifications == old(notifications) + [NO_BOOKS_NOTICE]
    {
      collected := [];
      for pos := 0 to |items|
        invariant bookInitList == old(bookInitList) + Inits(items[..pos])
        invariant collected == FolderFiles(items[..pos], collate)
        invariant status == old(status) && statusLog == old(statusLog) && notifications == old(notifications)
      {
        assert items[..pos + 1][..pos] == items[..pos];
        var files := AddItem(items[pos], collate);
        collected := collected + files;
      }
      assert items[..|items|] == items;
      if bookInitList != [] {
        SetStatus(Content);
      } else {
        SetStatus(Empty);
        notifications := notifications + [NO_BOOKS_NOTICE];
      }
    }

    /**
     * `refresh_data` for the books folder setting `booksDir`, whose file is
     * at `root` and queries as `info`: an empty setting only sets Null;
     * otherwise the status goes to Loading and the setting's file is added.
     */
    method RefreshData(booksDir: string, root: Path, info: Option<Entry>, collate: Collator) returns (collected: seq<Path>)
      modifies this`bookInitList, this`status, this`statusLog, this`notifications
      ensures booksDir == "" ==> status == Null && statusLog == old(statusLog) + [Null] && collected == []
                                 && bookInitList == old(bookInitList) && notifications == old(notifications)
      ensures booksDir != "" ==>
                && bookInitList == old(bookInitList) + Inits([FileItem(root, info)])
                && collected == FolderFiles([FileItem(root, info)], collate)
                && (bookInitList != [] ==> status == Content && statusLog == old(statusLog) + [Loading, Content]
                                           && notifications == old(notifications))
                && (bookInitList == [] ==> status == Empty && statusLog == old(statusLog) + [Loading, Empty]
                                           && notifications == old(notifications) + [NO_BOOKS_NOTICE])
    {
      if booksDir == "" {
        SetStatus(Null);
        return [];
      }
      SetStatus(Loading);
      collected := AddBooksToList([FileItem(root, info)], collate);
    }
  }

  /** A first refresh on a books folder finds no book: the library reports Empty. */
  method FolderRefreshIsEmpty(booksDir: string, root: Path, dir: Entry, collate: Collator) returns (status: Status)
    requires booksDir != "" && dir.Directory?
    ensures status == Empty
  {
    var library := new BookxLibrary();
    FolderAddsNoBook(root, dir);
    var _ := library.RefreshData(booksDir, root, Some(dir), collate);
    status := library.status;
  }
}
