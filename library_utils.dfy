/** The folder scan of the library back end (`src/library/utils.rs`). */
module LibraryUtils {
  import opened Wrappers
  import opened Orders
  import opened FileOrder
  import opened FolderScan

  /** The ebook kinds this scan knows of. */
  datatype EBook = Epub

  function GetEbookMime(ebook: EBook): (mime: string)
    ensures mime == EPUB_MIME
  {
    match ebook
    case Epub => "application/epub+zip"
  }

  /** Collects every regular file of `folder` (and of its sub-folders when `recursive`), sorted. */
  method LoadFilesFromFolder(folder: Path, dir: Entry, recursive: bool, collate: Collator) returns (files: seq<Path>)
    requires dir.Directory?
    ensures files == Scan(folder, folder, dir, recursive, AnyRegular, collate)
    ensures forall p :: p in files <==> Below(folder, p) && Reached(dir, p[|folder|..], recursive, AnyRegular)
    ensures ValidTree(dir) && NamesNonEmpty(folder) && |folder| >= 1 ==>
              Sorted(files, FileCmp(Some(folder), collate)) && (UniqueNames(dir) ==> NoDuplicates(files))
  {
    files := LoadFilesFromFolderInternal(folder, folder, dir, recursive, collate);
    ScanMembers(folder, folder, dir, recursive, AnyRegular, collate);
    if ValidTree(dir) && NamesNonEmpty(folder) && |folder| >= 1 {
      ScanWellFormed(folder, folder, dir, recursive, AnyRegular, collate);
    }
  }

  /**
   * Walks the listing of `dir` (at path `folder`) until its end or its first
   * error, descending into folders when `recursive` and keeping regular
   * files; the result is sorted by `cmp_two_files` relative to `base`.
   */
  method LoadFilesFromFolderInternal(base: Path, folder: Path, dir: Entry, recursive: bool, collate: Collator)
    returns (files: seq<Path>)
    requires dir.Directory?
    ensures files == Scan(base, folder, dir, recursive, AnyRegular, collate)
    decreases dir
  {
    files := [];
    var i := 0;
    while i < |dir.children| && !dir.children[i].Unreadable?
      invariant 0 <= i <= ListedCount(dir.children)
      invariant files == Gathered(base, folder, dir, i, recursive, AnyRegular, collate)
    {
      var child := dir.children[i];
      assert Gathered(base, folder, dir, i + 1, recursive, AnyRegular, collate)
          == Gathered(base, folder, dir, i, recursive, AnyRegular, collate) + Collected(base, folder, child, recursive, AnyRegular, collate);
      if recursive && child.Directory? {
        var res := LoadFilesFromFolderInternal(base, folder + [child.name], child, recursive, collate);
        files := files + res;
      } else if child.Regular? {
        files := files + [folder + [child.name]];
      }
      i := i + 1;
    }
    assert i == ListedCount(dir.children);
    files := SortFiles(files, base, collate);
  }
}
