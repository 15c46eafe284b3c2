/**
 * The order in which the library lists files: Nautilus-style comparison of
 * the parent folder (relative to the scanned root) and then of the file name,
 * names starting with '.' or '#' last.
 */
module FileOrder {
  import opened Wrappers
  import opened Orders

  /** An absolute path, as its components below the filesystem root. */
  type Path = seq<string>

  /** glib's filename collation key (`g_utf8_collate_key_for_filename`), a parameter of the model. */
  type Collator = string -> string

  function Join(parts: seq<string>, sep: string): (r: string)
    ensures |parts| > 0 ==> |r| >= |parts[0]|
  {
    if |parts| == 0 then ""
    else if |parts| == 1 then parts[0]
    else parts[0] + sep + Join(parts[1..], sep)
  }

  /** The text of a path as `to_str` gives it: each component after a '/'. */
  function PathText(p: Path): (s: string)
    ensures |s| > 0 && s[0] == '/'
  {
    "/" + Join(p, "/")
  }

  predicate NamesNonEmpty(p: Path) {
    forall i :: 0 <= i < |p| ==> |p[i]| > 0
  }

  /**
   * A path whose parent exists and has a name: what the `unwrap`s on
   * `parent()` and `basename()` in `cmp_two_files` demand.
   */
  predicate IsFilePath(p: Path) {
    |p| >= 2 && NamesNonEmpty(p)
  }

  function Parent(p: Path): Path
    requires |p| > 0
  {
    p[..|p| - 1]
  }

  function Basename(p: Path): string
    requires |p| > 0
  {
    p[|p| - 1]
  }

  predicate IsStrictPrefix(base: Path, p: Path) {
    |base| < |p| && p[..|base|] == base
  }

  /** `g_file_get_relative_path`: a path only for strict descendants of `base`. */
  function RelativePath(base: Path, p: Path): (r: Option<string>)
    ensures r.Some? <==> IsStrictPrefix(base, p)
    ensures r.Some? && NamesNonEmpty(p) ==> |r.value| > 0
  {
    if IsStrictPrefix(base, p) then Some(Join(p[|base|..], "/")) else None
  }

  /** The parent key of `cmp_two_files`: the parent relative to `base` when it lies below it, its basename otherwise. */
  function ParentKey(base: Option<Path>, file: Path): (k: string)
    requires IsFilePath(file)
    ensures |k| > 0
    ensures base.Some? && IsStrictPrefix(base.value, Parent(file)) ==> k == RelativePath(base.value, Parent(file)).value
    ensures (base.None? || !IsStrictPrefix(base.value, Parent(file))) ==> k == Basename(Parent(file))
  {
    var parent := Parent(file);
    if base.Some? && RelativePath(base.value, parent).Some? then RelativePath(base.value, parent).value
    else Basename(parent)
  }

  predicate SortLast(name: string)
    requires |name| > 0
  {
    name[0] == '.' || name[0] == '#'
  }

  /** `cmp_like_nautilus`: hidden and backup-style names after all others, then collation keys. */
  function CmpLikeNautilus(a: string, b: string, collate: Collator): (r: Ordering)
    requires |a| > 0 && |b| > 0
    ensures !SortLast(a) && SortLast(b) ==> r == Less
    ensures SortLast(a) && !SortLast(b) ==> r == Greater
    ensures r == Equal <==> SortLast(a) == SortLast(b) && collate(a) == collate(b)
  {
    var lastA := SortLast(a);
    var lastB := SortLast(b);
    if !lastA && lastB then Less
    else if lastA && !lastB then Greater
    else
      LexCmpEqual(collate(a), collate(b));
      LexCmp(collate(a), collate(b))
  }

  lemma NautilusReverse(a: string, b: string, collate: Collator)
    requires |a| > 0 && |b| > 0
    ensures CmpLikeNautilus(a, b, collate) == CmpLikeNautilus(b, a, collate).Reverse()
  {
    LexCmpReverse(collate(a), collate(b));
  }

  lemma NautilusTransitive(a: string, b: string, c: string, collate: Collator)
    requires |a| > 0 && |b| > 0 && |c| > 0
    requires CmpLikeNautilus(a, b, collate) != Greater && CmpLikeNautilus(b, c, collate) != Greater
    ensures CmpLikeNautilus(a, c, collate) != Greater
  {
    if SortLast(a) == SortLast(b) && SortLast(b) == SortLast(c) {
      LexCmpTransitive(collate(a), collate(b), collate(c));
    }
  }

  /** `cmp_two_files`: parent keys first, file names only to break a tie. */
  function CmpTwoFiles(base: Option<Path>, a: Path, b: Path, collate: Collator): Ordering
    requires IsFilePath(a) && IsFilePath(b)
  {
    var order := CmpLikeNautilus(ParentKey(base, a), ParentKey(base, b), collate);
    if order == Equal then CmpLikeNautilus(Basename(a), Basename(b), collate) else order
  }

  /** Files in different folders are ordered by their folders alone. */
  lemma ParentDecidesFirst(base: Option<Path>, a: Path, b: Path, collate: Collator)
    requires IsFilePath(a) && IsFilePath(b)
    requires SortLast(ParentKey(base, a)) != SortLast(ParentKey(base, b))
          || collate(ParentKey(base, a)) != collate(ParentKey(base, b))
    ensures CmpTwoFiles(base, a, b, collate) == CmpLikeNautilus(ParentKey(base, a), ParentKey(base, b), collate)
    ensures CmpTwoFiles(base, a, b, collate) != Equal
  {
  }

  /** Two files compare Equal only when both their folder keys and their names collate alike. */
  lemma CmpTwoFilesEqual(base: Option<Path>, a: Path, b: Path, collate: Collator)
    requires IsFilePath(a) && IsFilePath(b)
    ensures CmpTwoFiles(base, a, b, collate) == Equal <==>
              && SortLast(ParentKey(base, a)) == SortLast(ParentKey(base, b))
              && collate(ParentKey(base, a)) == collate(ParentKey(base, b))
              && SortLast(Basename(a)) == SortLast(Basename(b))
              && collate(Basename(a)) == collate(Basename(b))
  {
  }

  lemma CmpTwoFilesReverse(base: Option<Path>, a: Path, b: Path, collate: Collator)
    requires IsFilePath(a) && IsFilePath(b)
    ensures CmpTwoFiles(base, a, b, collate) == CmpTwoFiles(base, b, a, collate).Reverse()
  {
    NautilusReverse(ParentKey(base, a), ParentKey(base, b), collate);
    NautilusReverse(Basename(a), Basename(b), collate);
  }

  lemma CmpTwoFilesTransitive(base: Option<Path>, a: Path, b: Path, c: Path, collate: Collator)
    requires IsFilePath(a) && IsFilePath(b) && IsFilePath(c)
    requires CmpTwoFiles(base, a, b, collate) != Greater && CmpTwoFiles(base, b, c, collate) != Greater
    ensures CmpTwoFiles(base, a, c, collate) != Greater
  {
    var pa, pb, pc := ParentKey(base, a), ParentKey(base, b), ParentKey(base, c);
    NautilusReverse(pa, pb, collate);
    NautilusReverse(pb, pc, collate);
    NautilusReverse(pa, pc, collate);
    NautilusTransitive(pa, pb, pc, collate);
    if CmpLikeNautilus(pa, pb, collate) == Equal && CmpLikeNautilus(pb, pc, collate) == Equal {
      NautilusTransitive(Basename(a), Basename(b), Basename(c), collate);
    }
  }

  /** The comparator handed to `sort_by`; paths without a named parent never reach it. */
  function FileCmp(base: Option<Path>, collate: Collator): (Path, Path) -> Ordering {
    (a: Path, b: Path) => if IsFilePath(a) && IsFilePath(b) then CmpTwoFiles(base, a, b, collate) else Equal
  }

  lemma FileCmpTotalPreorder(base: Option<Path>, collate: Collator)
    ensures TotalPreorderOn(FileCmp(base, collate), IsFilePath)
  {
    var cmp := FileCmp(base, collate);
    forall x, y | IsFilePath(x) && IsFilePath(y)
      ensures cmp(x, y) == cmp(y, x).Reverse()
    {
      CmpTwoFilesReverse(base, x, y, collate);
    }
    forall x, y, z | IsFilePath(x) && IsFilePath(y) && IsFilePath(z) && cmp(x, y) != Greater && cmp(y, z) != Greater
      ensures cmp(x, z) != Greater
    {
      CmpTwoFilesTransitive(base, x, y, z, collate);
    }
  }

  /** `files.sort_by(|a, b| cmp_two_files(Some(base), a, b))`, a stable sort. */
  function SortFiles(files: seq<Path>, base: Path, collate: Collator): (r: seq<Path>)
    ensures multiset(r) == multiset(files)
  {
    InsertionSort(files, FileCmp(Some(base), collate))
  }

  lemma SortFilesSorted(files: seq<Path>, base: Path, collate: Collator)
    requires AllOk(files, IsFilePath)
    ensures Sorted(SortFiles(files, base, collate), FileCmp(Some(base), collate))
    ensures AllOk(SortFiles(files, base, collate), IsFilePath)
  {
    FileCmpTotalPreorder(Some(base), collate);
    InsertionSortSorted(files, FileCmp(Some(base), collate), IsFilePath);
  }

  /** A hidden file lands after a visible one in the same folder, whichever the enumeration yields first. */
  lemma HiddenFileSortsLast(base: Path, collate: Collator)
    requires base == ["books"]
    ensures SortFiles([["books", ".a.epub"], ["books", "b.epub"]], base, collate)
         == [["books", "b.epub"], ["books", ".a.epub"]]
    ensures SortFiles([["books", "b.epub"], ["books", ".a.epub"]], base, collate)
         == [["books", "b.epub"], ["books", ".a.epub"]]
  {
    var hidden, visible := ["books", ".a.epub"], ["books", "b.epub"];
    assert IsFilePath(hidden) && IsFilePath(visible);
    assert Basename(hidden)[0] == '.' && Basename(visible)[0] == 'b';
    assert CmpTwoFiles(Some(base), hidden, visible, collate) == Greater;
    assert CmpTwoFiles(Some(base), visible, hidden, collate) == Less;
  }
}
