/**
 * One book of the library (`src/library/book/book.rs`): its annotations
 * (by CFI, kept both in a map and in a list ordered by CFI), its bookmarks
 * (a set and a list), and the two storage files behind it, the book's data
 * and its cache of computed page locations.
 */
module LibraryBook {
  import opened Wrappers
  import opened Orders
  import opened Json
  import opened Filesystem
  import opened Storage

  /**
   * The format of a book as this file tests it. The enum in
   * `src/library/utils.rs` has only `Epub`; the FB2 variant this file refers
   * to is added so that its FB2 branches can be stated.
   */
  datatype BookKind = Epub | Fb2

  /** An annotation, identified by the CFI (EPUB Canonical Fragment Identifier) of the text it marks. */
  datatype Annotation = Annotation(cfi: string, text: string, color: string, note: string)

  /** Must match the page size of the web viewer; caches computed with another size are ignored. */
  const CHARACTERS_PER_PAGE: int := 1024

  /** Bumped whenever FB2 rendering changes, so that caches of an older renderer are ignored. */
  const FB2_CONVERTER_VERSION: string := "2.4.0"

  /** The number `CHARACTERS_PER_PAGE as f64` as the cache stores it. */
  const CHARACTERS_PER_PAGE_FLOAT: Json := Float("1024.0")

  /** A stored value that equals `CHARACTERS_PER_PAGE`: the integer, or a float literal of the same value. */
  predicate IsCharactersPerPage(v: Option<Json>) {
    v == Some(Int(CHARACTERS_PER_PAGE)) || v == Some(Float("1024")) || v == Some(CHARACTERS_PER_PAGE_FLOAT)
  }

  function Lookup(data: map<string, Json>, key: string): (r: Option<Json>)
    ensures r.Some? <==> key in data
    ensures r.Some? ==> r.value == data[key]
  {
    if key in data then Some(data[key]) else None
  }

  /**
   * `get_locations` on the cache contents: the stored locations (whatever
   * looking them up gives) when the cache was computed by the current FB2
   * converter, or for other formats with the current page size; None
   * otherwise.
   */
  function LocationsGate(format: BookKind, cache: map<string, Json>): (r: Option<Option<Json>>)
    ensures format == Fb2 ==> (r.Some? <==> Lookup(cache, "converter_version") == Some(Str(FB2_CONVERTER_VERSION)))
    ensures format != Fb2 ==> (r.Some? <==> IsCharactersPerPage(Lookup(cache, "locations_chars")))
    ensures r.Some? ==> r.value == Lookup(cache, "locations")
  {
    if format == Fb2 then
      if Lookup(cache, "converter_version") == Some(Str(FB2_CONVERTER_VERSION)) then Some(Lookup(cache, "locations")) else None
    else
      if IsCharactersPerPage(Lookup(cache, "locations_chars")) then Some(Lookup(cache, "locations")) else None
  }

  /** `set_locations` as written: the FB2 converter version goes under "convert_version". */
  function LocationsWrittenAsWritten(format: BookKind, cache: map<string, Json>, locations: Json): map<string, Json> {
    var versioned := if format == Fb2 then cache["convert_version" := Str(FB2_CONVERTER_VERSION)] else cache;
    versioned["locations_chars" := CHARACTERS_PER_PAGE_FLOAT]["locations" := locations]
  }

  /** `set_locations` with the version stored under the key `get_locations` reads. */
  function LocationsWritten(format: BookKind, cache: map<string, Json>, locations: Json): map<string, Json> {
    var versioned := if format == Fb2 then cache["converter_version" := Str(FB2_CONVERTER_VERSION)] else cache;
    versioned["locations_chars" := CHARACTERS_PER_PAGE_FLOAT]["locations" := locations]
  }

  /** Locations written are the locations read back, for every format. */
  lemma LocationsRoundTrip(format: BookKind, cache: map<string, Json>, locations: Json)
    ensures LocationsGate(format, LocationsWritten(format, cache, locations)) == Some(Some(locations))
  {
  }

  /**
   * As written, locations saved for an FB2 book are never read back unless
   * the cache already held the current converter version under the key
   * `get_locations` checks, which no code writes.
   */
  lemma LocationsAsWrittenLostForFb2(cache: map<string, Json>, locations: Json)
    requires Lookup(cache, "converter_version") != Some(Str(FB2_CONVERTER_VERSION))
    ensures LocationsGate(Fb2, LocationsWrittenAsWritten(Fb2, cache, locations)) == None
  {
    assert Lookup(LocationsWrittenAsWritten(Fb2, cache, locations), "converter_version") == Lookup(cache, "converter_version");
  }

  /** For EPUB books the code as written and the corrected code write the same cache. */
  lemma LocationsAsWrittenAgreesForEpub(cache: map<string, Json>, locations: Json)
    ensures LocationsWrittenAsWritten(Epub, cache, locations) == LocationsWritten(Epub, cache, locations)
  {
  }

  /** A cache computed with the page size of the 1.x releases (1600 characters) is ignored. */
  lemma OldPageSizeIgnored(cache: map<string, Json>)
    requires Lookup(cache, "locations_chars") == Some(Int(1600))
    ensures LocationsGate(Epub, cache) == None
  {
  }

  /** `get_data_path`: the book's data file, named after its identifier. */
  function GetDataPath(env: Environment, identifier: string, enc: string -> string): string
    requires IsKeyEncoder(enc)
  {
    GetPath(env, "data", identifier, None, enc)
  }

  /** `get_cache_path`: the book's cache file in the user cache folder. */
  function GetCachePath(env: Environment, identifier: string, enc: string -> string): string
    requires IsKeyEncoder(enc)
  {
    GetPath(env, "cache", identifier, None, enc)
  }

  /** `get_cover_path`: the cover picture beside the cache file, with the extension given as ".png". */
  function GetCoverPath(env: Environment, identifier: string, enc: string -> string): string
    requires IsKeyEncoder(enc)
  {
    GetPath(env, "cache", identifier, Some(".png"), enc)
  }

  /** Two books with different identifiers have different data files. */
  lemma DataPathsDistinct(env: Environment, a: string, b: string, enc: string -> string)
    requires IsKeyEncoder(enc) && a != b
    ensures GetDataPath(env, a, enc) != GetDataPath(env, b, enc)
  {
    GetPathInjective(env, "data", a, b, None, enc);
  }

  /** The position of the first `x` in `s` (`ListStore::find`). */
  function IndexOf<T(==)>(s: seq<T>, x: T): (r: Option<nat>)
    ensures r.Some? ==> r.value < |s| && s[r.value] == x && x !in s[..r.value]
    ensures r.None? ==> x !in s
  {
    if s == [] then None
    else if s[0] == x then Some(0)
    else
      var r := IndexOf(s[1..], x);
      if r.None? then None
      else
        assert s[..r.value + 1] == [s[0]] + s[1..][..r.value];
        Some(r.value + 1)
  }

  /** Removes the first `x`, if any: `find` followed by `remove`. */
  function RemoveFirst<T(==)>(s: seq<T>, x: T): (r: seq<T>)
    ensures x in s ==> IndexOf(s, x).Some? && r == s[..IndexOf(s, x).value] + s[IndexOf(s, x).value + 1..]
    ensures x in s ==> multiset(r) == multiset(s) - multiset{x} && |r| == |s| - 1
    ensures x !in s ==> r == s
  {
    match IndexOf(s, x)
    case None => s
    case Some(i) =>
      assert s == s[..i] + [x] + s[i + 1..];
      s[..i] + s[i + 1..]
  }

  /** Removing an element keeps the others in their order, so a sorted list stays sorted. */
  lemma RemoveFirstKeepsSorted<T>(s: seq<T>, x: T, cmp: (T, T) -> Ordering)
    requires Sorted(s, cmp)
    ensures Sorted(RemoveFirst(s, x), cmp)
  {
    if x in s {
      var k := IndexOf(s, x).value;
      var r := RemoveFirst(s, x);
      forall i, j | 0 <= i < j < |r|
        ensures cmp(r[i], r[j]) != Greater
      {
        var si := if i < k then i else i + 1;
        var sj := if j < k then j else j + 1;
        assert r[i] == s[si] && r[j] == s[sj];
      }
    }
  }

  function AnyCfi(c: string): bool {
    true
  }

  function AnyAnnotation(a: Annotation): bool {
    true
  }

  /** Annotations compare as their CFIs do. */
  function AnnotationCmp(cfiCompare: (string, string) -> Ordering): (Annotation, Annotation) -> Ordering {
    (a: Annotation, b: Annotation) => cfiCompare(a.cfi, b.cfi)
  }

  /** A total preorder on CFIs orders annotations totally. */
  lemma AnnotationCmpTotal(cfiCompare: (string, string) -> Ordering)
    requires TotalPreorderOn(cfiCompare, AnyCfi)
    ensures TotalPreorderOn(AnnotationCmp(cfiCompare), AnyAnnotation)
  {
    var cmp := AnnotationCmp(cfiCompare);
    forall x, y | AnyAnnotation(x) && AnyAnnotation(y)
      ensures cmp(x, y) == cmp(y, x).Reverse()
    {
      assert AnyCfi(x.cfi) && AnyCfi(y.cfi);
    }
    forall x, y, z | AnyAnnotation(x) && AnyAnnotation(y) && AnyAnnotation(z) && cmp(x, y) != Greater && cmp(y, z) != Greater
      ensures cmp(x, z) != Greater
    {
      assert AnyCfi(x.cfi) && AnyCfi(y.cfi) && AnyCfi(z.cfi);
    }
  }

  /** Inserting an annotation in CFI order keeps a CFI-ordered list ordered. */
  lemma InsertKeepsCfiOrder(list: seq<Annotation>, a: Annotation, cfiCompare: (string, string) -> Ordering)
    requires TotalPreorderOn(cfiCompare, AnyCfi) && Sorted(list, AnnotationCmp(cfiCompare))
    ensures Sorted(Insert(list, a, AnnotationCmp(cfiCompare)), AnnotationCmp(cfiCompare))
  {
    AnnotationCmpTotal(cfiCompare);
    InsertSorted(list, a, AnnotationCmp(cfiCompare), AnyAnnotation);
  }

  /** The "annotations" array: the CFIs of the annotation list, in its order. */
  predicate IsCfiArray(j: Json, list: seq<Annotation>) {
    j.Array? && |j.items| == |list| && forall i :: 0 <= i < |list| ==> j.items[i] == Str(list[i].cfi)
  }

  /** The "bookmarks" array: each bookmark of the set once, in any order. */
  predicate IsBookmarksArray(j: Json, bookmarks: set<string>) {
    && j.Array?
    && |j.items| == |bookmarks|
    && (forall i :: 0 <= i < |j.items| ==> j.items[i].Str? && j.items[i].s in bookmarks)
    && (forall c :: c in bookmarks ==> Str(c) in j.items)
    && (forall i, k :: 0 <= i < k < |j.items| ==> j.items[i] != j.items[k])
  }

  /** The loop of `on_annotations_changed`: one string per annotation of the list. */
  method AnnotationsArray(list: seq<Annotation>) returns (arr: Json)
    ensures IsCfiArray(arr, list)
  {
    var items: seq<Json> := [];
    var i := 0;
    while i < |list|
      invariant 0 <= i <= |list| && |items| == i
      invariant forall k :: 0 <= k < i ==> items[k] == Str(list[k].cfi)
    {
      items := items + [Str(list[i].cfi)];
      i := i + 1;
    }
    arr := Array(items);
  }

  /** The loop of `on_bookmarks_changed`, over a hash set whose order is not specified. */
  method BookmarksArray(bookmarks: set<string>) returns (arr: Json)
    ensures IsBookmarksArray(arr, bookmarks)
  {
    var items: seq<Json> := [];
    var rest := bookmarks;
    while rest != {}
      invariant rest <= bookmarks && |items| + |rest| == |bookmarks|
      invariant forall i :: 0 <= i < |items| ==> items[i].Str? && items[i].s in bookmarks - rest
      invariant forall c :: c in bookmarks - rest ==> Str(c) in items
      invariant forall i, k :: 0 <= i < k < |items| ==> items[i] != items[k]
      decreases rest
    {
      var c :| c in rest;
      items := items + [Str(c)];
      rest := rest - {c};
    }
    arr := Array(items);
  }

  class Book {
    const identifier: string
    const format: BookKind
    const uri: string
    const disk: Disk
    const storage: Storage
    const cache: Storage
    const coverPicturePath: string
    /** `EpubCFI::compare`, which is not part of this model. */
    const cfiCompare: (string, string) -> Ordering
    var annotationsMap: map<string, Annotation>
    var annotationsList: seq<Annotation>
    var bookmarksSet: set<string>
    var bookmarksList: seq<string>
    /** Arguments of the "annotation-added" and "annotation-removed" signals, and counts of the other two. */
    var annotationsAdded: seq<Annotation>
    var annotationsRemoved: seq<string>
    var externallyModified: nat
    var cacheModified: nat

    /**
     * Every annotation of the map is filed under its own CFI and is in the
     * list, every bookmark of the set is in the bookmark list, and both
     * storage files are on the book's disk.
     */
    ghost predicate Valid()
      reads this
    {
      && (forall c :: c in annotationsMap ==> annotationsMap[c].cfi == c && annotationsMap[c] in annotationsList)
      && (forall c :: c in bookmarksSet ==> c in bookmarksList)
      && storage.disk == disk && cache.disk == disk && storage != cache
    }

    /**
     * `Book::new`: opens the data and cache files; one that does not exist
     * yet opens empty, and one that exists must hold a JSON document.
     */
    constructor (identifier: string, format: BookKind, uri: string, env: Environment, enc: string -> string,
                 disk: Disk, cfiCompare: (string, string) -> Ordering)
      requires IsKeyEncoder(enc)
      requires GetDataPath(env, identifier, enc) in disk.files ==> disk.files[GetDataPath(env, identifier, enc)].contents.Document?
      requires GetCachePath(env, identifier, enc) in disk.files ==> disk.files[GetCachePath(env, identifier, enc)].contents.Document?
      ensures this.identifier == identifier && this.format == format && this.uri == uri && this.disk == disk
      ensures this.cfiCompare == cfiCompare && coverPicturePath == GetCoverPath(env, identifier, enc)
      ensures fresh(storage) && storage.path == GetDataPath(env, identifier, enc)
      ensures storage.data == ReadOrEmpty(disk.files, GetDataPath(env, identifier, enc))
      ensures fresh(cache) && cache.path == GetCachePath(env, identifier, enc)
      ensures cache.data == ReadOrEmpty(disk.files, GetCachePath(env, identifier, enc))
      ensures annotationsMap == map[] && annotationsList == [] && bookmarksSet == {} && bookmarksList == []
      ensures annotationsAdded == [] && annotationsRemoved == [] && externallyModified == 0 && cacheModified == 0
      ensures Valid()
    {
      this.identifier := identifier;
      this.format := format;
      this.uri := uri;
      this.disk := disk;
      this.cfiCompare := cfiCompare;
      storage := new Storage(disk, GetDataPath(env, identifier, enc));
      cache := new Storage(disk, GetCachePath(env, identifier, enc));
      coverPicturePath := GetCoverPath(env, identifier, enc);
      annotationsAdded := [];
      annotationsRemoved := [];
      externallyModified := 0;
      cacheModified := 0;
      new;
      LoadData();
    }

    /** `load_data`: forgets every annotation and bookmark held in memory. */
    method LoadData()
      modifies this`annotationsMap, this`annotationsList, this`bookmarksSet, this`bookmarksList
      ensures annotationsMap == map[] && annotationsList == [] && bookmarksSet == {} && bookmarksList == []
    {
      annotationsMap := map[];
      annotationsList := [];
      bookmarksSet := {};
      bookmarksList := [];
    }

    function GetAnnotation(cfi: string): (r: Option<Annotation>)
      reads this
      ensures r.Some? <==> cfi in annotationsMap
      ensures r.Some? ==> r.value == annotationsMap[cfi]
    {
      if cfi in annotationsMap then Some(annotationsMap[cfi]) else None
    }

    predicate HasBookmark(cfi: string)
      reads this
    {
      cfi in bookmarksSet
    }

    /** `get_last_location`: the stored location, 0 when there is none. */
    function GetLastLocation(): (r: Json)
      reads this, storage
      ensures "last_location" in storage.data ==> r == storage.data["last_location"]
      ensures "last_location" !in storage.data ==> r == Float("0")
    {
      if "last_location" in storage.data then storage.data["last_location"] else Float("0")
    }

    method SetLastLocation(location: FloatLiteral)
      modifies storage`data
      ensures storage.data == old(storage.data)["last_location" := Float(location)]
      ensures GetLastLocation() == Float(location)
    {
      storage.Set("last_location", Float(location));
    }

    /** `set_progress`: stores the pair [current, total]. */
    method SetProgress(current: FloatLiteral, total: FloatLiteral)
      modifies storage`data
      ensures storage.data == old(storage.data)["progress" := Array([Float(current), Float(total)])]
    {
      storage.Set("progress", Array([Float(current), Float(total)]));
    }

    method SetMetadata(metadata: Json)
      modifies storage`data
      ensures storage.data == old(storage.data)["metadata" := metadata]
    {
      storage.Set("metadata", metadata);
    }

    function GetLocations(): (r: Option<Option<Json>>)
      reads this, cache
      ensures r == LocationsGate(format, cache.data)
    {
      LocationsGate(format, cache.data)
    }

    /** `set_locations` with the converter version under "converter_version". */
    method SetLocations(locations: Json)
      modifies cache`data
      ensures cache.data == LocationsWritten(format, old(cache.data), locations)
      ensures GetLocations() == Some(Some(locations))
    {
      if format == Fb2 {
        cache.Set("converter_version", Str(FB2_CONVERTER_VERSION));
      }
      cache.Set("locations_chars", CHARACTERS_PER_PAGE_FLOAT);
      cache.Set("locations", locations);
      LocationsRoundTrip(format, old(cache.data), locations);
    }

    /**
     * `add_annotation`: an annotation whose CFI is already known is only
     * announced again; a new one is filed under its CFI and added to the
     * list, at the end while the stored annotations are being loaded
     * (`init`), in CFI order otherwise.
     */
    method AddAnnotation(a: Annotation, init: bool)
      requires Valid()
      modifies this`annotationsMap, this`annotationsList, this`annotationsAdded
      ensures Valid()
      ensures a.cfi in old(annotationsMap) ==>
                annotationsMap == old(annotationsMap) && annotationsList == old(annotationsList)
                && annotationsAdded == old(annotationsAdded) + [old(annotationsMap)[a.cfi]]
      ensures a.cfi !in old(annotationsMap) ==>
                annotationsMap == old(annotationsMap)[a.cfi := a] && annotationsAdded == old(annotationsAdded)
                && annotationsList == (if init then old(annotationsList) + [a]
                                       else Insert(old(annotationsList), a, AnnotationCmp(cfiCompare)))
      ensures (!init && TotalPreorderOn(cfiCompare, AnyCfi) && Sorted(old(annotationsList), AnnotationCmp(cfiCompare)))
                ==> Sorted(annotationsList, AnnotationCmp(cfiCompare))
    {
      if a.cfi in annotationsMap {
        annotationsAdded := annotationsAdded + [annotationsMap[a.cfi]];
      } else {
        annotationsMap := annotationsMap[a.cfi := a];
        if init {
          annotationsList := annotationsList + [a];
        } else {
          if TotalPreorderOn(cfiCompare, AnyCfi) && Sorted(annotationsList, AnnotationCmp(cfiCompare)) {
            InsertKeepsCfiOrder(annotationsList, a, cfiCompare);
          }
          annotationsList := Insert(annotationsList, a, AnnotationCmp(cfiCompare));
          assert a in multiset(annotationsList);
          assert forall x :: x in old(annotationsList) ==> x in multiset(annotationsList);
        }
      }
    }

    /** `on_annotations_changed`: stores the CFIs of the annotation list under "annotations". */
    method OnAnnotationsChanged()
      modifies storage`data
      ensures "annotations" in storage.data && IsCfiArray(storage.data["annotations"], annotationsList)
      ensures storage.data == old(storage.data)["annotations" := storage.data["annotations"]]
    {
      var arr := AnnotationsArray(annotationsList);
      storage.Set("annotations", arr);
    }

    /**
     * `remove_annotation`: announces the CFI, drops it from the map and the
     * annotation from the list, and stores the remaining CFIs.
     */
    method RemoveAnnotation(a: Annotation)
      requires Valid()
      modifies this`annotationsMap, this`annotationsList, this`annotationsRemoved, storage`data
      ensures Valid()
      ensures annotationsRemoved == old(annotationsRemoved) + [a.cfi]
      ensures annotationsMap == old(annotationsMap) - {a.cfi}
      ensures annotationsList == RemoveFirst(old(annotationsList), a)
      ensures Sorted(old(annotationsList), AnnotationCmp(cfiCompare)) ==> Sorted(annotationsList, AnnotationCmp(cfiCompare))
      ensures "annotations" in storage.data && IsCfiArray(storage.data["annotations"], annotationsList)
      ensures storage.data == old(storage.data)["annotations" := storage.data["annotations"]]
    {
      annotationsRemoved := annotationsRemoved + [a.cfi];
      annotationsMap := annotationsMap - {a.cfi};
      if Sorted(annotationsList, AnnotationCmp(cfiCompare)) {
        RemoveFirstKeepsSorted(annotationsList, a, AnnotationCmp(cfiCompare));
      }
      annotationsList := RemoveFirst(annotationsList, a);
      forall c | c in annotationsMap
        ensures annotationsMap[c] in annotationsList
      {
        var x := annotationsMap[c];
        assert x != a;
        if a in old(annotationsList) {
          assert multiset(annotationsList)[x] == multiset(old(annotationsList))[x];
        }
      }
      OnAnnotationsChanged();
    }

    /** `on_bookmarks_changed`: stores every bookmark once under "bookmarks". */
    method OnBookmarksChanged()
      modifies storage`data
      ensures "bookmarks" in storage.data && IsBookmarksArray(storage.data["bookmarks"], bookmarksSet)
      ensures storage.data == old(storage.data)["bookmarks" := storage.data["bookmarks"]]
    {
      var arr := BookmarksArray(bookmarksSet);
      storage.Set("bookmarks", arr);
    }

    /**
     * `add_bookmark`: the bookmark joins the set and is appended to the list
     * (again, if it was there); it is stored unless the stored bookmarks
     * are being loaded (`init`).
     */
    method AddBookmark(cfi: string, init: bool)
      requires Valid()
      modifies this`bookmarksSet, this`bookmarksList, storage`data
      ensures Valid() && HasBookmark(cfi)
      ensures bookmarksSet == old(bookmarksSet) + {cfi} && bookmarksList == old(bookmarksList) + [cfi]
      ensures init ==> storage.data == old(storage.data)
      ensures !init ==> "bookmarks" in storage.data && IsBookmarksArray(storage.data["bookmarks"], bookmarksSet)
                        && storage.data == old(storage.data)["bookmarks" := storage.data["bookmarks"]]
    {
      bookmarksSet := bookmarksSet + {cfi};
      bookmarksList := bookmarksList + [cfi];
      if !init {
        OnBookmarksChanged();
      }
    }

    /** `remove_bookmark`: the bookmark leaves the set and its first entry leaves the list; the rest is stored. */
    method RemoveBookmark(cfi: string)
      requires Valid()
      modifies this`bookmarksSet, this`bookmarksList, storage`data
      ensures Valid() && !HasBookmark(cfi)
      ensures bookmarksSet == old(bookmarksSet) - {cfi} && bookmarksList == RemoveFirst(old(bookmarksList), cfi)
      ensures "bookmarks" in storage.data && IsBookmarksArray(storage.data["bookmarks"], bookmarksSet)
      ensures storage.data == old(storage.data)["bookmarks" := storage.data["bookmarks"]]
    {
      bookmarksSet := bookmarksSet - {cfi};
      bookmarksList := RemoveFirst(bookmarksList, cfi);
      forall c | c in bookmarksSet
        ensures c in bookmarksList
      {
        if cfi in old(bookmarksList) {
          assert multiset(bookmarksList)[c] == multiset(old(bookmarksList))[c];
        }
      }
      OnBookmarksChanged();
    }

    /** `clear_cache`: deletes the cache file and the cover picture. */
    method ClearCache()
      requires Valid()
      modifies disk
      ensures disk.files == old(disk.files) - {cache.path, coverPicturePath}
    {
      cache.Clear();
      disk.files := disk.files - {coverPicturePath};
    }

    /**
     * The data file's monitor event. When the file was removed or rewritten
     * since the storage last read or wrote it, the storage holds what the
     * file now holds (nothing, for a removed file), the annotations and
     * bookmarks are dropped and "externally-modified" is re-emitted;
     * otherwise nothing changes.
     */
    method OnStorageChanged()
      requires Valid()
      requires storage.path in disk.files ==> disk.files[storage.path].contents.Document?
      modifies storage`data, storage`modified, storage`externallyModifiedSignals
      modifies this`annotationsMap, this`annotationsList, this`bookmarksSet, this`bookmarksList, this`externallyModified
      ensures Valid()
      ensures old(storage.ChangedOnDisk()) ==>
                storage.data == ReadOrEmpty(disk.files, storage.path)
                && (storage.path in disk.files ==> storage.modified == disk.files[storage.path].mtime)
                && (storage.path !in disk.files ==> storage.modified == old(storage.modified))
                && annotationsMap == map[] && annotationsList == [] && bookmarksSet == {} && bookmarksList == []
                && externallyModified == old(externallyModified) + 1
      ensures !old(storage.ChangedOnDisk()) ==>
                storage.data == old(storage.data) && storage.modified == old(storage.modified)
                && annotationsMap == old(annotationsMap) && annotationsList == old(annotationsList)
                && bookmarksSet == old(bookmarksSet) && bookmarksList == old(bookmarksList)
                && externallyModified == old(externallyModified)
    {
      var before := storage.externallyModifiedSignals;
      storage.OnChanged();
      if storage.externallyModifiedSignals > before {
        LoadData();
        externallyModified := externallyModified + 1;
      }
    }

    /**
     * The cache file's monitor event: when the file was removed or rewritten
     * by someone else, the cache holds what the file now holds and
     * "cache-modified" is emitted once; otherwise nothing changes.
     */
    method OnCacheChanged()
      requires Valid()
      requires cache.path in disk.files ==> disk.files[cache.path].contents.Document?
      modifies cache`data, cache`modified, cache`externallyModifiedSignals, this`cacheModified
      ensures Valid()
      ensures old(cache.ChangedOnDisk()) ==>
                cache.data == ReadOrEmpty(disk.files, cache.path)
                && (cache.path in disk.files ==> cache.modified == disk.files[cache.path].mtime)
                && (cache.path !in disk.files ==> cache.modified == old(cache.modified))
                && cacheModified == old(cacheModified) + 1
      ensures !old(cache.ChangedOnDisk()) ==>
                cache.data == old(cache.data) && cache.modified == old(cache.modified)
                && cacheModified == old(cacheModified)
    {
      var before := cache.externallyModifiedSignals;
      cache.OnChanged();
      if cache.externallyModifiedSignals > before {
        cacheModified := cacheModified + 1;
      }
    }
  }
}
