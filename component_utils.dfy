/** The folder scan of the relm4 front end (`src/components/utils.rs`): only EPUB files are kept. */
module ComponentUtils {
  import opened Wrappers
  import opened Orders
  import opened FileOrder
  import opened FolderScan

  /** Collects every EPUB file of `folder` (and of its sub-folders when `recursive`), sorted. */
  method LoadFilesFromFolder(folder: Path, dir: Entry, recursive: bool, collate: Collator) returns (files: seq<Path>)
    requires dir.Directory?
    ensures files == Scan(folder, folder, dir, recursive, EpubOnly, collate)
    ensures forall p :: p in files <==> Below(folder, p) && Reached(dir, p[|folder|..], recursive, EpubOnly)
    ensures ValidTree(dir) && NamesNonEmpty(folder) && |folder| >= 1 ==>
              Sorted(files, FileCmp(Some(folder), collate)) && (UniqueNames(dir) ==> NoDuplicates(files))
  {
    files := LoadFilesFromFolderInternal(folder, folder, dir, recursive, collate);
    ScanMembers(folder, folder, dir, recursive, EpubOnly, collate);
    if ValidTree(dir) && NamesNonEmpty(folder) && |folder| >= 1 {
      ScanWellFormed(folder, folder, dir, recursive, EpubOnly, collate);
    }
  }

  /**
   * As the library back end's walk, except that a regular file is kept only
   * when its content type is the EPUB mime type; files of another type and
   * files without one are skipped.
   */
  method LoadFilesFromFolderInternal(base: Path, folder: Path, dir: Entry, recursive: bool, collate: Collator)
    returns (files: seq<Path>)
    requires dir.Directory?
    ensures files == Scan(base, folder, dir, recursive, EpubOnly, collate)
    decreases dir
  {
    files := [];
    var i := 0;
    while i < |dir.children| && !dir.children[i].Unreadable?
      invariant 0 <= i <= ListedCount(dir.children)
      invariant files == Gathered(base, folder, dir, i, recursive, EpubOnly, collate)
    {
      var child := dir.children[i];
      assert Gathered(base, folder, dir, i + 1, recursive, EpubOnly, collate)
          == Gathered(base, folder, dir, i, recursive, EpubOnly, collate) + Collected(base, folder, child, recursive, EpubOnly, collate);
      if recursive && child.Directory? {
        var res := LoadFilesFromFolderInternal(base, folder + [child.name], child, recursive, collate);
        files := files + res;
      } else if child.Regular? {
        match child.contentType {
          case Some(contentType) =>
            if contentType == "application/epub+zip" {
              files := files + [folder + [child.name]];
            }
          case None =>
        }
      }
      i := i + 1;
    }
    assert i == ListedCount(dir.children);
    files := SortFiles(files, base, collate);
  }
}
