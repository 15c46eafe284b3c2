/**
 * The library back end (`src/library/library.rs`): refreshing collects the
 * books folder setting's file when it is an EPUB file, or every file below
 * it when it is a folder, and reports whether anything was found.
 */
module LibraryLibrary {
  import opened Wrappers
  import opened FileOrder
  import opened FolderScan
  import opened LibraryUtils

  datatype Status = Loading | Content | Empty | Null

  /** A file of the list model: its path and what querying it reports (None when the query fails). */
  datatype FileItem = FileItem(path: Path, info: Option<Entry>)

  const NO_BOOKS_NOTICE: string := "Could not find any books in the current directory"

  /** What one file of the model adds: itself when it is an EPUB file, every file below it when it is a folder. */
  function ItemFiles(item: FileItem, collate: Collator): seq<Path> {
    match item.info
    case None => []
    case Some(e) =>
      if e.Regular? then (if e.contentType == Some(GetEbookMime(Epub)) then [item.path] else [])
      else if e.Directory? then Scan(item.path, item.path, e, true, AnyRegular, collate)
      else []
  }

  function Listed(items: seq<FileItem>, collate: Collator): seq<Path> {
    if items == [] then [] else Listed(items[..|items| - 1], collate) + ItemFiles(items[|items| - 1], collate)
  }

  /** What one file contributes, by membership. */
  lemma ItemFilesMembers(item: FileItem, collate: Collator, p: Path)
    ensures p in ItemFiles(item, collate) <==>
              || (item.info.Some? && item.info.value.Regular? && item.info.value.contentType == Some(EPUB_MIME) && p == item.path)
              || (item.info.Some? && item.info.value.Directory? && Below(item.path, p)
                  && Reached(item.info.value, p[|item.path|..], true, AnyRegular))
  {
    if item.info.Some? && item.info.value.Directory? {
      ScanMembers(item.path, item.path, item.info.value, true, AnyRegular, collate);
    }
  }

  /** A path is listed exactly when one of the files contributes it. */
  lemma {:induction false} ListedMembers(items: seq<FileItem>, collate: Collator, p: Path)
    ensures p in Listed(items, collate) <==> exists i :: 0 <= i < |items| && p in ItemFiles(items[i], collate)
  {
    if items != [] {
      var init := items[..|items| - 1];
      ListedMembers(init, collate, p);
      if exists i :: 0 <= i < |items| && p in ItemFiles(items[i], collate) {
        var i :| 0 <= i < |items| && p in ItemFiles(items[i], collate);
        if i < |init| {
          assert init[i] == items[i];
        }
      }
      if p in Listed(init, collate) {
        var i :| 0 <= i < |init| && p in ItemFiles(init[i], collate);
        assert items[i] == init[i];
      }
    }
  }

  class BookxLibrary {
    var status: Status
    /** Every status set, in order (each one is announced). */
    var statusLog: seq<Status>
    /** Notifications shown in the window, in order. */
    var notifications: seq<string>

    constructor ()
      ensures status == Null && statusLog == [] && notifications == []
    {
      status := Null;
      statusLog := [];
      notifications := [];
    }

    method SetStatus(s: Status)
      modifies this`status, this`statusLog
      ensures status == s && statusLog == old(statusLog) + [s]
    {
      status := s;
      statusLog := statusLog + [s];
    }

    /**
     * `add_books_to_list`: collects the EPUB files and the files below
     * folders (returned as `list`), then reports Content when something was
     * found and Empty with a notification otherwise.
     */
    method AddBooksToList(items: seq<FileItem>, collate: Collator) returns (list: seq<Path>)
      modifies this`status, this`statusLog, this`notifications
      ensures list == Listed(items, collate)
      ensures list != [] ==> status == Content && statusLog == old(statusLog) + [Content] && notifications == old(notifications)
      ensures list == [] ==> status == Empty && statusLog == old(statusLog) + [Empty]
                             && notifications == old(notifications) + [NO_BOOKS_NOTICE]
    {
      list := [];
      for pos := 0 to |items|
        invariant list == Listed(items[..pos], collate)
        invariant status == old(status) && statusLog == old(statusLog) && notifications == old(notifications)
      {
        assert items[..pos + 1][..pos] == items[..pos];
        var item := items[pos];
        if item.info.Some? {
          match item.info.value {
            case Regular(_, contentType) =>
              if contentType.Some? && contentType.value == GetEbookMime(Epub) {
                list := list + [item.path];
              }
            case Directory(_, _) =>
              var files := LoadFilesFromFolder(item.path, item.info.value, true, collate);
              list := list + files;
            case _ =>
          }
        }
      }
      assert items[..|items|] == items;
      if list != [] {
        SetStatus(Content);
      } else {
        SetStatus(Empty);
        notifications := notifications + [NO_BOOKS_NOTICE];
      }
    }

    /**
     * `refresh_data` for the books folder setting `booksDir`, whose file is
     * at `root` and queries as `info`: an empty setting only sets Null;
     * otherwise the status goes to Loading and the setting's file is added.
     */
    method RefreshData(booksDir: string, root: Path, info: Option<Entry>, collate: Collator) returns (list: seq<Path>)
      modifies this`status, this`statusLog, this`notifications
      ensures booksDir == "" ==> status == Null && statusLog == old(statusLog) + [Null] && list == []
                                 && notifications == old(notifications)
      ensures booksDir != "" ==>
                && list == Listed([FileItem(root, info)], collate)
                && (list != [] ==> status == Content && statusLog == old(statusLog) + [Loading, Content]
                                   && notifications == old(notifications))
                && (list == [] ==> status == Empty && statusLog == old(statusLog) + [Loading, Empty]
                                   && notifications == old(notifications) + [NO_BOOKS_NOTICE])
    {
      if booksDir == "" {
        SetStatus(Null);
        return [];
      }
      SetStatus(Loading);
      list := AddBooksToList([FileItem(root, info)], collate);
    }
  }
}
