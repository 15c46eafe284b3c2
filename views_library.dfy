/**
 * The library view's model (`src/views/library.rs`): refreshing reads the
 * books folder setting, watches the folder, finds the book files, loads
 * each one, and reports every file that fails and the outcome through
 * notifications and the library status.
 */
module ViewsLibrary {
  import opened Wrappers
  import opened FileOrder
  import opened FolderScan
  import opened LibraryUtils
  import opened ModelsBook
  import Epub

  datatype Status = Loading | Content | Error | Null

  datatype LibraryError = LibraryError(details: string)

  /** A directory monitor, by the folder setting it watches. */
  datatype Monitor = Monitor(dir: string)

  const EMPTY_SETTING_NOTICE: string := "Books Directory string is empty. Set it to an existing path in Preferences."
  const EMPTY_SETTING_ERROR: string := "BooksDir string is empty"
  const NO_READABLE_BOOKS: string := "Library has no readable Books."
  const EMPTY_FOLDER_NOTICE: string := "Library folder is Empty"
  const EMPTY_FOLDER_ERROR: string := "Library Folder is Empty."

  /**
   * The files `get_book_pathbufs` returns for the books folder setting's
   * file at `root`, given what querying it reports (None when the query
   * fails): a regular file with a content type itself, every file below a
   * folder, nothing otherwise.
   */
  function BookPaths(root: Path, info: Option<Entry>, collate: Collator): seq<Path> {
    match info
    case None => []
    case Some(e) =>
      if e.Regular? then (if e.contentType.Some? then [root] else [])
      else if e.Directory? then Scan(root, root, e, true, AnyRegular, collate)
      else []
  }

  /** Which files the refresh tries to load. */
  lemma BookPathsMembers(root: Path, info: Option<Entry>, collate: Collator, p: Path)
    ensures p in BookPaths(root, info, collate) <==>
              || (info.Some? && info.value.Regular? && info.value.contentType.Some? && p == root)
              || (info.Some? && info.value.Directory? && Below(root, p) && Reached(info.value, p[|root|..], true, AnyRegular))
  {
    if info.Some? && info.value.Directory? {
      ScanMembers(root, root, info.value, true, AnyRegular, collate);
    }
  }

  /** `get_book_pathbufs`. */
  method GetBookPathbufs(root: Path, info: Option<Entry>, collate: Collator) returns (paths: seq<Path>)
    ensures paths == BookPaths(root, info, collate)
  {
    paths := [];
    if info.Some? {
      match info.value {
        case Regular(_, contentType) =>
          if contentType.Some? {
            paths := paths + [root];
          }
        case Directory(_, _) =>
          var files := LoadFilesFromFolder(root, info.value, true, collate);
          paths := paths + files;
        case _ =>
      }
    }
  }

  function DocErrorName(e: Epub.DocError): string {
    match e
    case ArchiveError => "ArchiveError"
    case XmlError => "XmlError"
    case IOError => "IOError"
    case InvalidEpub => "InvalidEpub error"
  }

  /** The notification sent for a file that does not load. */
  function FailureMessage(p: Path, e: BookxBookError): string {
    match e
    case FormatNotSupportError => PathText(p) + " is not supported by Bookx"
    case DocError(k) => "Bookx failed to load " + PathText(p) + ". " + DocErrorName(k) + " occurred."
  }

  /** The books that load, in the order of their files. */
  function Loaded(paths: seq<Path>, load: Path -> Result<BookInfo, BookxBookError>): seq<BookInfo> {
    if paths == [] then []
    else
      var last := paths[|paths| - 1];
      Loaded(paths[..|paths| - 1], load) + (if load(last).Ok? then [load(last).value] else [])
  }

  /** One notification per file that does not load, in the order of the files. */
  function Failures(paths: seq<Path>, load: Path -> Result<BookInfo, BookxBookError>): seq<string> {
    if paths == [] then []
    else
      var last := paths[|paths| - 1];
      Failures(paths[..|paths| - 1], load) + (if load(last).Err? then [FailureMessage(last, load(last).error)] else [])
  }

  /** Every file either loads or is reported, never both. */
  lemma {:induction false} EveryPathAccounted(paths: seq<Path>, load: Path -> Result<BookInfo, BookxBookError>)
    ensures |Loaded(paths, load)| + |Failures(paths, load)| == |paths|
  {
    if paths != [] {
      EveryPathAccounted(paths[..|paths| - 1], load);
    }
  }

  /** The loaded books are exactly the results of the files that load. */
  lemma {:induction false} LoadedMembers(paths: seq<Path>, load: Path -> Result<BookInfo, BookxBookError>, b: BookInfo)
    ensures b in Loaded(paths, load) <==> exists i :: 0 <= i < |paths| && load(paths[i]) == Ok(b)
  {
    if paths != [] {
      var init := paths[..|paths| - 1];
      LoadedMembers(init, load, b);
      if exists i :: 0 <= i < |paths| && load(paths[i]) == Ok(b) {
        var i :| 0 <= i < |paths| && load(paths[i]) == Ok(b);
        if i < |init| {
          assert init[i] == paths[i];
        }
      }
      if b in Loaded(init, load) {
        var i :| 0 <= i < |init| && load(init[i]) == Ok(b);
        assert paths[i] == init[i];
      }
    }
  }

  /**
   * The loop of `refresh_data` over the book files: each file that loads is
   * appended to the new list, and each one that fails yields one
   * notification, in the order of the files.
   */
  method LoadEach(paths: seq<Path>, load: Path -> Result<BookInfo, BookxBookError>)
    returns (books: seq<BookInfo>, sent: seq<string>)
    ensures books == Loaded(paths, load) && sent == Failures(paths, load)
  {
    books := [];
    sent := [];
    var i := 0;
    while i < |paths|
      invariant 0 <= i <= |paths|
      invariant books == Loaded(paths[..i], load)
      invariant sent == Failures(paths[..i], load)
    {
      assert paths[..i + 1][..i] == paths[..i];
      match load(paths[i]) {
        case Ok(book) =>
          books := books + [book];
        case Err(e) =>
          sent := sent + [FailureMessage(paths[i], e)];
      }
      i := i + 1;
    }
    assert paths[..|paths|] == paths;
  }

  /** The loader of `src/models/book.rs` as written, which asks the path text for its MIME type. */
  function AsWrittenLoader(open: Path -> Result<Epub.EpubDoc, Epub.DocError>): Path -> Result<BookInfo, BookxBookError> {
    p => LoadAsWritten(p, open(p))
  }

  /** With the loader as written no book ever loads: every file is reported as not supported. */
  lemma {:induction false} NothingLoadsAsWritten(paths: seq<Path>, open: Path -> Result<Epub.EpubDoc, Epub.DocError>)
    ensures Loaded(paths, AsWrittenLoader(open)) == []
    ensures |Failures(paths, AsWrittenLoader(open))| == |paths|
  {
    if paths != [] {
      NothingLoadsAsWritten(paths[..|paths| - 1], open);
      var last := paths[|paths| - 1];
      LoadAsWrittenAlwaysFails(last, open(last));
    }
  }

  /** `self.monitor.replace(Some(monitor)).unwrap()` as written: unwrapping the old monitor demands that there was one. */
  predicate ReplaceMonitorAsWrittenSucceeds(held: Option<Monitor>) {
    held.Some?
  }

  class BookxLibrary {
    var booksList: seq<BookInfo>
    var status: Status
    /** Every status set, in order (each one is announced to the view). */
    var statusLog: seq<Status>
    /** Notifications sent to the application, in order. */
    var notifications: seq<string>
    var monitor: Option<Monitor>

    /** `BookxLibrary::new`: the refresh it starts is a future that is never awaited, so nothing is loaded. */
    constructor ()
      ensures booksList == [] && status == Null && statusLog == [] && notifications == [] && monitor == None
    {
      booksList := [];
      status := Null;
      statusLog := [];
      notifications := [];
      monitor := None;
    }

    method SetStatus(s: Status)
      modifies this`status, this`statusLog
      ensures status == s && statusLog == old(statusLog) + [s]
    {
      status := s;
      statusLog := statusLog + [s];
    }

    /**
     * `refresh_data` for the books folder setting `booksDir`, whose file is
     * at `root` and queries as `info`; `load` loads one book. The new
     * monitor is kept without unwrapping the one it replaces.
     */
    method RefreshData(booksDir: string, root: Path, info: Option<Entry>, collate: Collator,
                       load: Path -> Result<BookInfo, BookxBookError>)
      returns (r: Result<(), LibraryError>)
      modifies this
      ensures booksDir == "" ==>
                && status == Null && statusLog == old(statusLog) + [Loading, Null]
                && notifications == old(notifications) + [EMPTY_SETTING_NOTICE]
                && r == Err(LibraryError(EMPTY_SETTING_ERROR))
                && booksList == old(booksList) && monitor == old(monitor)
      ensures booksDir != "" ==> monitor == Some(Monitor(booksDir))
      ensures booksDir != "" && BookPaths(root, info, collate) == [] ==>
                && status == Error && statusLog == old(statusLog) + [Loading, Error]
                && notifications == old(notifications) + [EMPTY_FOLDER_NOTICE]
                && r == Err(LibraryError(EMPTY_FOLDER_ERROR)) && booksList == old(booksList)
      ensures booksDir != "" && BookPaths(root, info, collate) != [] ==>
                var paths := BookPaths(root, info, collate);
                var books := Loaded(paths, load);
                && (books != [] ==>
                      && booksList == books && status == Content && statusLog == old(statusLog) + [Loading, Content]
                      && notifications == old(notifications) + Failures(paths, load) && r == Ok(()))
                && (books == [] ==>
                      && booksList == old(booksList) && status == Error && statusLog == old(statusLog) + [Loading, Error]
                      && notifications == old(notifications) + Failures(paths, load) + [NO_READABLE_BOOKS]
                      && r == Err(LibraryError(NO_READABLE_BOOKS)))
    {
      SetStatus(Loading);
      if booksDir == "" {
        SetStatus(Null);
        notifications := notifications + [EMPTY_SETTING_NOTICE];
        return Err(LibraryError(EMPTY_SETTING_ERROR));
      }
      monitor := Some(Monitor(booksDir));
      var paths := GetBookPathbufs(root, info, collate);
      if paths != [] {
        var books, sent := LoadEach(paths, load);
        notifications := notifications + sent;
        if books != [] {
          booksList := books;
          SetStatus(Content);
          r := Ok(());
        } else {
          SetStatus(Error);
          notifications := notifications + [NO_READABLE_BOOKS];
          r := Err(LibraryError(NO_READABLE_BOOKS));
        }
      } else {
        SetStatus(Error);
        notifications := notifications + [EMPTY_FOLDER_NOTICE];
        r := Err(LibraryError(EMPTY_FOLDER_ERROR));
      }
    }
  }

  /** As written, the first refresh of a new library unwraps the monitor it never had. */
  method FirstRefreshAsWritten() returns (unwrapSucceeds: bool)
    ensures !unwrapSucceeds
  {
    var library := new BookxLibrary();
    unwrapSucceeds := ReplaceMonitorAsWrittenSucceeds(library.monitor);
  }

  /** Corrected, the first refresh of a new library watches the books folder. */
  method FirstRefreshWatchesFolder(booksDir: string, root: Path, info: Option<Entry>, collate: Collator,
                                   load: Path -> Result<BookInfo, BookxBookError>)
    returns (watched: Option<Monitor>)
    requires booksDir != ""
    ensures watched == Some(Monitor(booksDir))
  {
    var library := new BookxLibrary();
    var _ := library.RefreshData(booksDir, root, info, collate, load);
    watched := library.monitor;
  }
}
