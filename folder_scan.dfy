/**
 * The folder tree a `gio::FileEnumerator` walks, and what
 * `load_files_from_folder` collects from it: regular files (optionally only
 * EPUB ones), descending into sub-folders when asked, never following
 * symbolic links, and stopping a folder's listing at the first error.
 */
module FolderScan {
  import opened Wrappers
  import opened Orders
  import opened FileOrder

  /** One entry of a folder as `enumerate_children(.., NOFOLLOW_SYMLINKS)` reports it. */
  datatype Entry =
    | Regular(name: string, contentType: Option<string>)
    | Directory(name: string, children: seq<Entry>)
    | Symlink(name: string)
    | Special(name: string)
      /** The enumerator yields an error at this position; `.and_then(|s| s.ok())` ends the loop there. */
    | Unreadable(name: string)

  /** Which regular files a scan keeps. */
  datatype Filter = AnyRegular | EpubOnly

  const EPUB_MIME: string := "application/epub+zip"

  predicate Keeps(filter: Filter, e: Entry)
    requires e.Regular?
  {
    filter.AnyRegular? || e.contentType == Some(EPUB_MIME)
  }

  /** Every name in the tree is non-empty, as on any real filesystem. */
  predicate ValidTree(e: Entry) {
    |e.name| > 0 && (e.Directory? ==> forall c :: c in e.children ==> ValidTree(c))
  }

  /** How many children the enumerator yields before its first error. */
  function ListedCount(children: seq<Entry>): (n: nat)
    ensures n <= |children|
    ensures forall i :: 0 <= i < n ==> !children[i].Unreadable?
    ensures n < |children| ==> children[n].Unreadable?
  {
    if |children| == 0 || children[0].Unreadable? then 0
    else 1 + ListedCount(children[1..])
  }

  /** The files collected from the first `n` listed children of `dir`, before sorting. */
  function Gathered(base: Path, folder: Path, dir: Entry, n: nat, recursive: bool, filter: Filter, collate: Collator): seq<Path>
    requires dir.Directory? && n <= |dir.children|
    decreases dir, 0, n
  {
    if n == 0 then []
    else Gathered(base, folder, dir, n - 1, recursive, filter, collate)
         + Collected(base, folder, dir.children[n - 1], recursive, filter, collate)
  }

  /** What one listed child `c` of the folder at path `folder` contributes. */
  function Collected(base: Path, folder: Path, c: Entry, recursive: bool, filter: Filter, collate: Collator): seq<Path>
    decreases c, 2
  {
    if recursive && c.Directory? then Scan(base, folder + [c.name], c, recursive, filter, collate)
    else if c.Regular? && Keeps(filter, c) then [folder + [c.name]]
    else []
  }

  /** The result of `load_files_from_folder_internal(base, folder, recursive)` on the folder `dir` at path `folder`. */
  function Scan(base: Path, folder: Path, dir: Entry, recursive: bool, filter: Filter, collate: Collator): seq<Path>
    requires dir.Directory?
    decreases dir, 1
  {
    SortFiles(Gathered(base, folder, dir, ListedCount(dir.children), recursive, filter, collate), base, collate)
  }

  /** `rel` names, relative to `dir`, a kept file reached through the first `n` children of `dir`. */
  ghost predicate ReachedBefore(dir: Entry, n: nat, rel: seq<string>, recursive: bool, filter: Filter)
    requires dir.Directory? && n <= |dir.children|
    decreases dir, 0
  {
    exists i :: 0 <= i < n && Reaches(dir.children[i], rel, recursive, filter)
  }

  /** `rel` names, relative to the folder holding `c`, a kept file reached through `c`. */
  ghost predicate Reaches(c: Entry, rel: seq<string>, recursive: bool, filter: Filter)
    decreases c, 2
  {
    && |rel| > 0 && c.name == rel[0]
    && (|| (|rel| == 1 && c.Regular? && Keeps(filter, c))
        || (|rel| > 1 && recursive && c.Directory? && Reached(c, rel[1..], recursive, filter)))
  }

  /**
   * `rel` names a file the scan of `dir` keeps: a listed regular file that
   * passes the filter, or (when recursive) such a file below a listed folder.
   */
  ghost predicate Reached(dir: Entry, rel: seq<string>, recursive: bool, filter: Filter)
    requires dir.Directory?
    decreases dir, 1
  {
    ReachedBefore(dir, ListedCount(dir.children), rel, recursive, filter)
  }

  predicate Below(folder: Path, p: Path) {
    |p| > |folder| && p[..|folder|] == folder
  }

  lemma {:induction false} GatheredMembers(base: Path, folder: Path, dir: Entry, n: nat, recursive: bool, filter: Filter, collate: Collator)
    requires dir.Directory? && n <= ListedCount(dir.children)
    ensures forall p :: p in Gathered(base, folder, dir, n, recursive, filter, collate) <==>
                          Below(folder, p) && ReachedBefore(dir, n, p[|folder|..], recursive, filter)
    decreases dir, 0, n
  {
    if n > 0 {
      GatheredMembers(base, folder, dir, n - 1, recursive, filter, collate);
      var c := dir.children[n - 1];
      var sub := folder + [c.name];
      var prev := Gathered(base, folder, dir, n - 1, recursive, filter, collate);
      var added := Collected(base, folder, c, recursive, filter, collate);
      assert Gathered(base, folder, dir, n, recursive, filter, collate) == prev + added;
      if recursive && c.Directory? {
        ScanMembers(base, sub, c, recursive, filter, collate);
      }
      forall p
        ensures p in added <==> Below(folder, p) && Reaches(c, p[|folder|..], recursive, filter)
      {
        ChildMembers(folder, p, c);
      }
      forall p
        ensures p in prev + added <==>
                  Below(folder, p) && ReachedBefore(dir, n, p[|folder|..], recursive, filter)
      {
        if Below(folder, p) {
          ReachedBeforeStep(dir, n, p[|folder|..], recursive, filter);
        }
      }
    }
  }

  /** How a path below `folder + [c.name]` is split when seen from `folder`. */
  lemma ChildMembers(folder: Path, p: Path, c: Entry)
    ensures p == folder + [c.name] <==> Below(folder, p) && |p[|folder|..]| == 1 && p[|folder|..][0] == c.name
    ensures Below(folder + [c.name], p) <==> Below(folder, p) && |p[|folder|..]| > 1 && p[|folder|..][0] == c.name
    ensures Below(folder + [c.name], p) ==> p[|folder + [c.name]|..] == p[|folder|..][1..]
  {
    var sub := folder + [c.name];
    if Below(folder, p) && |p| > |folder| {
      var rel := p[|folder|..];
      assert p == p[..|folder|] + rel;
      if rel[0] == c.name && |rel| > 1 {
        assert p[..|sub|] == p[..|folder|] + [rel[0]];
      }
    }
    if Below(sub, p) {
      assert p[..|folder|] == p[..|sub|][..|folder|];
      assert p[|folder|] == p[..|sub|][|folder|];
    }
  }

  lemma ReachedBeforeStep(dir: Entry, n: nat, rel: seq<string>, recursive: bool, filter: Filter)
    requires dir.Directory? && 0 < n <= |dir.children|
    ensures ReachedBefore(dir, n, rel, recursive, filter) <==>
              ReachedBefore(dir, n - 1, rel, recursive, filter) || Reaches(dir.children[n - 1], rel, recursive, filter)
  {
    if ReachedBefore(dir, n, rel, recursive, filter) {
      var i :| 0 <= i < n && Reaches(dir.children[i], rel, recursive, filter);
      if i < n - 1 {
        assert ReachedBefore(dir, n - 1, rel, recursive, filter);
      }
    }
  }

  /** A path is in the scan exactly when it lies below `folder` and names a file the scan keeps. */
  lemma {:induction false} ScanMembers(base: Path, folder: Path, dir: Entry, recursive: bool, filter: Filter, collate: Collator)
    requires dir.Directory?
    ensures forall p :: p in Scan(base, folder, dir, recursive, filter, collate) <==>
                          Below(folder, p) && Reached(dir, p[|folder|..], recursive, filter)
    decreases dir, 1
  {
    var g := Gathered(base, folder, dir, ListedCount(dir.children), recursive, filter, collate);
    GatheredMembers(base, folder, dir, ListedCount(dir.children), recursive, filter, collate);
    forall p ensures p in Scan(base, folder, dir, recursive, filter, collate) <==> p in g {
      assert p in multiset(Scan(base, folder, dir, recursive, filter, collate)) <==> p in multiset(g);
    }
  }

  /** The children a folder lists carry pairwise distinct names, in every folder of the tree. */
  predicate UniqueNames(e: Entry) {
    e.Directory? ==>
      && (forall i, j :: 0 <= i < j < |e.children| ==> e.children[i].name != e.children[j].name)
      && (forall c :: c in e.children ==> UniqueNames(c))
  }

  ghost predicate NoDuplicates(s: seq<Path>) {
    forall p :: multiset(s)[p] <= 1
  }

  lemma {:induction false} GatheredWellFormed(base: Path, folder: Path, dir: Entry, n: nat, recursive: bool, filter: Filter, collate: Collator)
    requires dir.Directory? && n <= ListedCount(dir.children)
    requires ValidTree(dir) && NamesNonEmpty(folder) && |folder| >= 1
    ensures AllOk(Gathered(base, folder, dir, n, recursive, filter, collate), IsFilePath)
    ensures forall p :: p in Gathered(base, folder, dir, n, recursive, filter, collate) ==> Below(folder, p)
    ensures UniqueNames(dir) ==> NoDuplicates(Gathered(base, folder, dir, n, recursive, filter, collate))
    decreases dir, 0, n
  {
    if n > 0 {
      GatheredWellFormed(base, folder, dir, n - 1, recursive, filter, collate);
      var c := dir.children[n - 1];
      assert c in dir.children;
      var sub := folder + [c.name];
      var prev := Gathered(base, folder, dir, n - 1, recursive, filter, collate);
      var added := Collected(base, folder, c, recursive, filter, collate);
      assert Gathered(base, folder, dir, n, recursive, filter, collate) == prev + added;
      AppendNamed(folder, c.name);
      if recursive && c.Directory? {
        ScanWellFormed(base, sub, c, recursive, filter, collate);
      }
      AddedBelow(folder, c, added);
      if UniqueNames(dir) {
        GatheredMembers(base, folder, dir, n - 1, recursive, filter, collate);
        AddedDisjoint(folder, dir, n, c, prev, added, recursive, filter);
        DisjointConcat(prev, added);
      }
    }
  }

  lemma AppendNamed(folder: Path, name: string)
    requires NamesNonEmpty(folder) && |name| > 0
    ensures NamesNonEmpty(folder + [name])
  {
    var sub := folder + [name];
    forall i | 0 <= i < |sub| ensures |sub[i]| > 0 {
      if i < |folder| { assert sub[i] == folder[i]; }
    }
  }

  lemma AddedBelow(folder: Path, c: Entry, added: seq<Path>)
    requires forall p :: p in added ==> p == folder + [c.name] || Below(folder + [c.name], p)
    ensures forall p :: p in added ==> Below(folder, p)
  {
    forall p | p in added ensures Below(folder, p) {
      ChildMembers(folder, p, c);
    }
  }

  lemma AddedDisjoint(folder: Path, dir: Entry, n: nat, c: Entry, prev: seq<Path>, added: seq<Path>, recursive: bool, filter: Filter)
    requires dir.Directory? && UniqueNames(dir) && 0 < n <= |dir.children| && c == dir.children[n - 1]
    requires forall p :: p in prev ==> Below(folder, p) && ReachedBefore(dir, n - 1, p[|folder|..], recursive, filter)
    requires forall p :: p in added ==> p == folder + [c.name] || Below(folder + [c.name], p)
    ensures forall p :: p in prev ==> p !in added
  {
    forall p | p in prev ensures p !in added {
      var rel := p[|folder|..];
      var i :| 0 <= i < n - 1 && Reaches(dir.children[i], rel, recursive, filter);
      assert rel[0] != c.name;
      ChildMembers(folder, p, c);
    }
  }

  lemma DisjointConcat(a: seq<Path>, b: seq<Path>)
    requires NoDuplicates(a) && NoDuplicates(b)
    requires forall p :: p in a ==> p !in b
    ensures NoDuplicates(a + b)
  {
    forall p ensures multiset(a + b)[p] <= 1 {
      assert multiset(a + b)[p] == multiset(a)[p] + multiset(b)[p];
      if multiset(b)[p] > 0 {
        assert p in b;
      }
      if multiset(a)[p] > 0 {
        assert p in a;
      }
    }
  }

  /**
   * Every path the scan returns is a file below `folder`, the list is in
   * `cmp_two_files` order, and, when folder entries have distinct names, no
   * path appears twice.
   */
  lemma {:induction false} ScanWellFormed(base: Path, folder: Path, dir: Entry, recursive: bool, filter: Filter, collate: Collator)
    requires dir.Directory? && ValidTree(dir) && NamesNonEmpty(folder) && |folder| >= 1
    ensures AllOk(Scan(base, folder, dir, recursive, filter, collate), IsFilePath)
    ensures forall p :: p in Scan(base, folder, dir, recursive, filter, collate) ==> Below(folder, p)
    ensures Sorted(Scan(base, folder, dir, recursive, filter, collate), FileCmp(Some(base), collate))
    ensures UniqueNames(dir) ==> NoDuplicates(Scan(base, folder, dir, recursive, filter, collate))
    decreases dir, 1
  {
    var g := Gathered(base, folder, dir, ListedCount(dir.children), recursive, filter, collate);
    GatheredWellFormed(base, folder, dir, ListedCount(dir.children), recursive, filter, collate);
    SortFilesSorted(g, base, collate);
    forall p | p in Scan(base, folder, dir, recursive, filter, collate) ensures Below(folder, p) {
      assert p in multiset(g);
    }
  }
}
