/**
 * The book object of the reader (`src/models/book/book.rs`): the same
 * annotation and bookmark state as the library's book, over the same data
 * and cache files, with progress kept as a whole percentage.
 */
module ModelsBookBook {
  import opened Wrappers
  import opened Json
  import opened Filesystem
  import opened Storage
  import opened BookFormat
  import opened ModelsBook
  import opened LibraryBook

  /** `to_integer` on a stored value: the integer it holds, 0 for anything else. */
  function ToIntegerOrZero(j: Json): int {
    if j.Int? then j.i else 0
  }

  /** The progress as it is shown: the whole percentage followed by '%'. */
  function ProgressText(stored: Option<Json>): (r: Option<string>)
    ensures r.Some? <==> stored.Some?
    ensures r.Some? ==> |r.value| >= 2 && r.value[|r.value| - 1] == '%'
    ensures stored.Some? && stored.value.Int? ==> r == Some(IntToString(stored.value.i) + "%")
    ensures stored.Some? && !stored.value.Int? ==> r == Some("0%")
  {
    match stored
    case None => None
    case Some(v) =>
      assert IntToString(0) + "%" == "0%" by {
        assert DigitChar(0) == '0';
        assert IntToString(0) == "0";
      }
      Some(IntToString(ToIntegerOrZero(v)) + "%")
  }

  /** The shown progress reads back as the stored percentage. */
  lemma ProgressTextRoundTrip(percentage: int)
    ensures var t := ProgressText(Some(Int(percentage))).value;
      var digits := t[..|t| - 1];
      |digits| > 0 && (if digits[0] == '-' then AllDigits(digits[1..]) else AllDigits(digits))
      && ParseInt(digits) == percentage
  {
    var t := ProgressText(Some(Int(percentage))).value;
    assert t[..|t| - 1] == IntToString(percentage);
    ParseIntToString(percentage);
  }

  class Book {
    const identifier: string
    const format: Format
    const uri: string
    const disk: Disk
    const storage: Storage
    const cache: Storage
    const coverPicturePath: string
    var annotationsMap: map<string, Annotation>
    var annotationsList: seq<Annotation>
    var bookmarksSet: set<string>
    var bookmarksList: seq<string>
    /** Counts of the "externally-modified" and "cache-modified" signals. */
    var externallyModified: nat
    var cacheModified: nat

    ghost predicate Valid()
      reads this
    {
      storage.disk == disk && cache.disk == disk && storage != cache
    }

    /**
     * `Book::new`: opens the data and cache files; one that does not exist
     * yet opens empty, and one that exists must hold a JSON document.
     */
    constructor (identifier: string, format: Format, uri: string, env: Environment, enc: string -> string, disk: Disk)
      requires IsKeyEncoder(enc)
      requires GetDataPath(env, identifier, enc) in disk.files ==> disk.files[GetDataPath(env, identifier, enc)].contents.Document?
      requires GetCachePath(env, identifier, enc) in disk.files ==> disk.files[GetCachePath(env, identifier, enc)].contents.Document?
      ensures this.identifier == identifier && this.format == format && this.uri == uri && this.disk == disk
      ensures coverPicturePath == GetCoverPath(env, identifier, enc)
      ensures fresh(storage) && storage.path == GetDataPath(env, identifier, enc)
      ensures storage.data == ReadOrEmpty(disk.files, GetDataPath(env, identifier, enc))
      ensures fresh(cache) && cache.path == GetCachePath(env, identifier, enc)
      ensures cache.data == ReadOrEmpty(disk.files, GetCachePath(env, identifier, enc))
      ensures annotationsMap == map[] && annotationsList == [] && bookmarksSet == {} && bookmarksList == []
      ensures externallyModified == 0 && cacheModified == 0
      ensures Valid()
    {
      this.identifier := identifier;
      this.format := format;
      this.uri := uri;
      this.disk := disk;
      storage := new Storage(disk, GetDataPath(env, identifier, enc));
      cache := new Storage(disk, GetCachePath(env, identifier, enc));
      coverPicturePath := GetCoverPath(env, identifier, enc);
      externallyModified := 0;
      cacheModified := 0;
      new;
      LoadData();
    }

    /** `load_data`: forgets every annotation and bookmark held in memory. */
    method LoadData()
      modifies this`annotationsMap, this`annotationsList, this`bookmarksSet, this`bookmarksList
      ensures annotationsMap == map[] && annotationsList == [] && bookmarksSet == {} && bookmarksList == []
    {
      annotationsMap := map[];
      annotationsList := [];
      bookmarksSet := {};
      bookmarksList := [];
    }

    /** The stored "annotations" value, which `has_annotations` unwraps as an array. */
    predicate AnnotationsStored()
      reads this, storage
    {
      "annotations" in storage.data && storage.data["annotations"].Array?
    }

    /** `has_annotations`: whether the stored annotation array has an element. */
    function HasAnnotations(): (r: bool)
      requires AnnotationsStored()
      reads this, storage
    {
      storage.data["annotations"].items != []
    }

    /** Once the CFIs of an annotation list are stored, the book has annotations exactly when that list is non-empty. */
    lemma HasAnnotationsOfStoredList(list: seq<Annotation>)
      requires "annotations" in storage.data && IsCfiArray(storage.data["annotations"], list)
      ensures AnnotationsStored() && (HasAnnotations() <==> list != [])
    {
      if list != [] {
        assert storage.data["annotations"].items[0] == Str(list[0].cfi);
      }
    }

    function GetAnnotation(cfi: string): (r: Option<Annotation>)
      reads this
      ensures r.Some? <==> cfi in annotationsMap
      ensures r.Some? ==> r.value == annotationsMap[cfi]
    {
      if cfi in annotationsMap then Some(annotationsMap[cfi]) else None
    }

    predicate HasBookmark(cfi: string)
      reads this
    {
      cfi in bookmarksSet
    }

    /** `get_last_location`: the stored location's JSON text, "" when there is none. */
    function GetLastLocation(): (r: string)
      reads this, storage
      ensures r == "" <==> "last_location" !in storage.data
      ensures "last_location" in storage.data ==> r == Text(storage.data["last_location"])
    {
      if "last_location" in storage.data then Text(storage.data["last_location"]) else ""
    }

    method SetLastLocation(location: FloatLiteral)
      modifies storage`data
      ensures storage.data == old(storage.data)["last_location" := Float(location)]
      ensures GetLastLocation() == location
    {
      storage.Set("last_location", Float(location));
    }

    /** `set_progress`: stores `(current / total) * 100` on `i128` under "progress". */
    method SetProgress(current: int, total: int)
      requires PercentageDefined(current, total, I128)
      modifies storage`data
      ensures storage.data == old(storage.data)["progress" := Int(Percentage(current, total, I128))]
      ensures GetProgress() == Some(IntToString(Percentage(current, total, I128)) + "%")
    {
      storage.Set("progress", Int(TruncDiv(current, total) * 100));
    }

    /**
     * `get_progress`: the stored percentage followed by '%' (0 when the
     * stored value is not an integer), or nothing when no progress is stored.
     */
    function GetProgress(): (r: Option<string>)
      reads this, storage
      ensures r.Some? <==> "progress" in storage.data
      ensures "progress" in storage.data ==> r == ProgressText(Some(storage.data["progress"]))
    {
      ProgressText(if "progress" in storage.data then Some(storage.data["progress"]) else None)
    }

    method SetMetadata(metadata: Json)
      modifies storage`data
      ensures storage.data == old(storage.data)["metadata" := metadata]
    {
      storage.Set("metadata", metadata);
    }

    /** `on_bookmarks_changed`: stores every bookmark once under "bookmarks". */
    method OnBookmarksChanged()
      modifies storage`data
      ensures "bookmarks" in storage.data && IsBookmarksArray(storage.data["bookmarks"], bookmarksSet)
      ensures storage.data == old(storage.data)["bookmarks" := storage.data["bookmarks"]]
    {
      var arr := BookmarksArray(bookmarksSet);
      storage.Set("bookmarks", arr);
    }

    /** `clear_cache`: deletes the cache file and the cover picture. */
    method ClearCache()
      requires Valid()
      modifies disk
      ensures disk.files == old(disk.files) - {cache.path, coverPicturePath}
    {
      cache.Clear();
      disk.files := disk.files - {coverPicturePath};
    }

    /**
     * The data file's monitor event. When the file was removed or rewritten
     * since the storage last read or wrote it, the storage holds what the
     * file now holds (nothing, for a removed file), the annotations and
     * bookmarks are dropped and "externally-modified" is re-emitted;
     * otherwise nothing changes.
     */
    method OnStorageChanged()
      requires Valid()
      requires storage.path in disk.files ==> disk.files[storage.path].contents.Document?
      modifies storage`data, storage`modified, storage`externallyModifiedSignals
      modifies this`annotationsMap, this`annotationsList, this`bookmarksSet, this`bookmarksList, this`externallyModified
      ensures Valid()
      ensures old(storage.ChangedOnDisk()) ==>
                storage.data == ReadOrEmpty(disk.files, storage.path)
                && (storage.path in disk.files ==> storage.modified == disk.files[storage.path].mtime)
                && (storage.path !in disk.files ==> storage.modified == old(storage.modified))
                && annotationsMap == map[] && annotationsList == [] && bookmarksSet == {} && bookmarksList == []
                && externallyModified == old(externallyModified) + 1
      ensures !old(storage.ChangedOnDisk()) ==>
                storage.data == old(storage.data) && storage.modified == old(storage.modified)
                && annotationsMap == old(annotationsMap) && annotationsList == old(annotationsList)
                && bookmarksSet == old(bookmarksSet) && bookmarksList == old(bookmarksList)
                && externallyModified == old(externallyModified)
    {
      var before := storage.externallyModifiedSignals;
      storage.OnChanged();
      if storage.externallyModifiedSignals > before {
        LoadData();
        externallyModified := externallyModified + 1;
      }
    }

    /**
     * The cache file's monitor event: when the file was removed or rewritten
     * by someone else, the cache holds what the file now holds and
     * "cache-modified" is emitted once; otherwise nothing changes.
     */
    method OnCacheChanged()
      requires Valid()
      requires cache.path in disk.files ==> disk.files[cache.path].contents.Document?
      modifies cache`data, cache`modified, cache`externallyModifiedSignals, this`cacheModified
      ensures Valid()
      ensures old(cache.ChangedOnDisk()) ==>
                cache.data == ReadOrEmpty(disk.files, cache.path)
                && (cache.path in disk.files ==> cache.modified == disk.files[cache.path].mtime)
                && (cache.path !in disk.files ==> cache.modified == old(cache.modified))
                && cacheModified == old(cacheModified) + 1
      ensures !old(cache.ChangedOnDisk()) ==>
                cache.data == old(cache.data) && cache.modified == old(cache.modified)
                && cacheModified == old(cacheModified)
    {
      var before := cache.externallyModifiedSignals;
      cache.OnChanged();
      if cache.externallyModifiedSignals > before {
        cacheModified := cacheModified + 1;
      }
    }
  }
}
