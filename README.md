# Bookx library core in Dafny

Bookx is a GTK ebook-library application. Most of it wires widgets to
signals. This project models the sequential logic beneath that wiring and
proves what it promises:

- **Folder scan and ordering.** The library back end (`src/library/utils.rs`)
  and the relm4 front end (`src/components/utils.rs`) walk the books folder.
  A directory is a datatype tree. The glib filename collation key is an
  abstract function into strings that are compared lexicographically. The
  walk is proved against a reference definition: the files it returns are
  exactly the reachable regular files, or the EPUB ones. It returns them
  sorted by `cmp_two_files`, as a permutation and with no duplicates.
  `cmp_two_files` and `cmp_like_nautilus` are proved to form a total
  preorder in which dotfiles and `#` names sort last.
- **Format and settings-key names.** `Format::from_str` and `get_mime`
  round-trip. The kebab-case `Key` names round-trip and are injective.
- **The three library status machines** (`src/views/library.rs`,
  `src/models/library.rs`, `src/library/library.rs`). Each is a class whose
  status, status log, notifications and book list are fields. The folder
  setting, the scan result and the per-file load outcomes are parameters.
- **Book metadata loaders.** `BookxBook::load` (`src/models/book.rs`) and the
  card's `load_book` (`src/components/library/bookx_book.rs`) work on an
  EPUB document modelled as a metadata map plus an optional cover. A failed
  open is an error value. The progress uses Rust's truncating integer
  division on `i32` and `i128`; the inputs that make it panic or overflow
  are excluded by a precondition.
- **Per-book storage** (`src/library/storage.rs`). This is a class holding
  the in-memory JSON map and the recorded modification time, over a `Disk`
  object that holds each file's contents and mtime. A file that does not
  exist yet opens as an empty document. The file monitor reloads only when
  the disk copy is strictly newer, or empties the data when it is gone. A write records the
  new mtime. Clear deletes the file. Signals are counters.
- **Book bookkeeping** (`src/library/book/book.rs`, `src/models/book/book.rs`).
  The annotation map, list and store are kept in step. So are the bookmark
  set, list and store. The location cache is gated by page size and
  converter version, and progress is formatted as text.

Each source file with its own variant of an entity has its own module.
The `Storage` and `Book` classes are shared by both book files, since their
state is the same. `Orders`, `FileOrder`, `FolderScan`, `Json`, `Epub`,
`Filesystem` and `Wrappers` hold the supporting definitions.

Where the code does not compile as written, the model follows the evident
intent:

- The book kind of `src/library/book/book.rs` has an `Fb2` case, which that
  file matches on.
- `set_locations` takes the locations it stores.
- `get_progress` returns nothing when no progress is stored.
- `book_init_list` in `src/models/library.rs` is a list that persists across
  refreshes (the `OnceCell` is never set).
- `add_annotation` in `src/library/book/book.rs:349` reads the annotation's
  CFI with `take()`, which would leave "" behind; the model reads the CFI
  and leaves the annotation as it is.
- `remove_annotation` finds the annotation in the list by object identity
  (`src/library/book/book.rs:376`); annotations are values in the model, so
  the first equal annotation is removed.
- Progress in `src/models/book.rs` is kept as the integer it is computed as.

`src/models/utils.rs`, `src/views/utils.rs` and `src/models/storage.rs`
are not part of this model:

- The scans that those files would provide use `LibraryUtils.LoadFilesFromFolder`.
- `Format::are_ebooks` and `get_format` use `BookFormat.Iterator` and `BookFormat.FromStr`.
- The models' storage uses the `Storage` class of `src/library/storage.rs`.

## Model

| member | source | states |
|---|---|---|
| FileOrder.RelativePath | src/library/utils.rs:87-92 | a relative path exists exactly when `base` is a strict prefix of the parent, and it is non-empty |
| FileOrder.ParentKey | src/library/utils.rs:87-104 | the key is the parent's path relative to `base` when there is one, otherwise the parent's base name; it is never empty |
| FileOrder.CmpLikeNautilus | src/library/utils.rs:120-137 | a name starting with '.' or '#' is Greater than one that does not, and the swapped pair is Less; Equal exactly when both are on the same side and their collation keys are equal |
| FileOrder.NautilusReverse | src/library/utils.rs:120-137 | swapping the names reverses the result (antisymmetry) |
| FileOrder.NautilusTransitive | src/library/utils.rs:130-134 | not-Greater is transitive |
| FileOrder.ParentDecidesFirst | src/library/utils.rs:108-117 | when the parent keys differ in sort-last side, the parent keys alone decide and the result is never Equal |
| FileOrder.CmpTwoFilesEqual | src/library/utils.rs:108-117 | Equal exactly when both the parent keys and the base names compare Equal, so base names are consulted only on a parent tie |
| FileOrder.CmpTwoFilesReverse | src/library/utils.rs:84-118 | swapping the files reverses the result |
| FileOrder.CmpTwoFilesTransitive | src/library/utils.rs:84-118 | not-Greater is transitive over files |
| FileOrder.FileCmpTotalPreorder | src/library/utils.rs:84-118 | `cmp_two_files` against a fixed base is a total preorder on file paths |
| FileOrder.SortFiles | src/library/utils.rs:75 | the sorted list is a permutation of its input |
| FileOrder.SortFilesSorted | src/library/utils.rs:75 | `sort_by(cmp_two_files)` leaves the files sorted by that comparator |
| FileOrder.HiddenFileSortsLast | src/library/utils.rs:123-129 | ".a.epub" sorts after "b.epub" from either starting order |
| Orders.Insert | src/library/book/book.rs:363-366 | inserting adds exactly one element: the multiset grows by it |
| Orders.InsertionSort | src/library/utils.rs:75 | sorting is a permutation |
| Orders.InsertSorted | src/library/book/book.rs:363-366 | inserting into a sorted list under a total preorder keeps it sorted |
| Orders.InsertionSortSorted | src/library/utils.rs:75 | sorting under a total preorder yields a sorted list |
| FolderScan.ListedCount | src/library/utils.rs:64 | the walk reads the listing up to, not including, its first entry that cannot be read |
| FolderScan.GatheredMembers | src/library/utils.rs:64-72 | after n listing entries, a path has been collected exactly when it is reached through one of them |
| FolderScan.ScanMembers | src/library/utils.rs:55-72 | a path is returned exactly when it lies below the folder and names a regular file the filter keeps, through folders that are descended only when `recursive`; symlinks and other entries are never returned nor followed |
| FolderScan.GatheredWellFormed | src/library/utils.rs:64-72 | every collected path is a well-formed file path below the folder, and with unique names in each folder none repeats |
| FolderScan.ScanWellFormed | src/library/utils.rs:64-79 | the result is sorted by `cmp_two_files` against `base`, lies below the folder, and has no duplicates when names are unique |
| LibraryUtils.GetEbookMime | src/library/utils.rs:29-33 | the EPUB kind's MIME type is "application/epub+zip" |
| LibraryUtils.LoadFilesFromFolder | src/library/utils.rs:35-48 | the files are exactly the reachable regular files, sorted by `cmp_two_files` with the top folder as base, with no duplicates |
| LibraryUtils.LoadFilesFromFolderInternal | src/library/utils.rs:50-82 | the walk returns the reference scan, with nested calls passing the same base |
| ComponentUtils.LoadFilesFromFolder | src/components/utils.rs:9-22 | the files are exactly the reachable regular files whose content type is "application/epub+zip", sorted, with no duplicates |
| ComponentUtils.LoadFilesFromFolderInternal | src/components/utils.rs:24-63 | the walk keeps a regular file only when its content type is exactly the EPUB MIME type and skips the rest, recursing with the same base |
| BookFormat.FromStr | src/models/format.rs:78-92 | parsing succeeds exactly for a format's MIME type; otherwise the error details are "<mime> is not supported format for book" |
| BookFormat.FromStrGetMime | src/models/format.rs:78-112 | `from_str(get_mime(f)) == Ok(f)` for every format |
| BookFormat.GetMimeFromStr | src/models/format.rs:78-112 | a parsed format prints back as the string it was parsed from |
| BookFormat.EveryFormatListed | src/models/format.rs:62-66 | every format is yielded by `iterator()` and is in `can_annotate()` |
| BookFormat.DefaultIsAccepted | src/models/format.rs:56-60 | the default format is listed, can be annotated and round-trips through its MIME type |
| SettingsKey.FromStrToString | src/settings/key.rs:19-33 | `from_str(to_string(k)) == Ok(k)` for each of the seven keys |
| SettingsKey.FromStrExactly | src/application.rs:125 | a string parses exactly when it is one of the seven serialised names, and it parses to that key |
| SettingsKey.ToStringInjective | src/settings/key.rs:21-33 | distinct keys have distinct names |
| Epub.Mdata | src/components/library/bookx_book.rs:93-109 | a metadata lookup yields the first entry of the key, and nothing when the key is absent or has no entry |
| ModelsBook.ToUpper | src/models/book.rs:96-102 | the upper-cased language keeps its length, turns each of 'a'..'z' into the letter 32 code points lower, 'A'..'Z', and keeps every other character |
| ModelsBook.Load | src/models/book.rs:74-118 | an unsupported MIME type gives FormatNotSupportError, a failed open gives DocError with its cause, and the load succeeds exactly when both succeed |
| ModelsBook.LoadFields | src/models/book.rs:82-102 | the identifier falls back to the title, the author is the creators joined by ", ", the publisher is the first entry, and the language is the first language entry upper-cased |
| ModelsBook.LoadEpub | src/models/book.rs:79-80 | a complete EPUB document with the EPUB MIME type loads as an EPUB book |
| ModelsBook.LoadAsWrittenAlwaysFails | src/models/book.rs:79-80 | taking the MIME type of the path text makes every load fail with FormatNotSupportError |
| ModelsBook.NatDiv | src/models/book.rs:147 | the quotient of counts is 0 below the divisor, 1 at it, at least 1 above it, and never more than the dividend |
| ModelsBook.NatDivIsQuotient | src/models/book.rs:147 | the quotient of counts is exact: `y` fits `r` times into `x` and not `r + 1` times |
| ModelsBook.TruncDiv | src/models/book.rs:147 | Rust's `/`: the quotient's magnitude is the magnitudes' quotient rounded down, and its sign follows the operands' signs |
| ModelsBook.Percentage | src/models/book.rs:146-148 | `(current / total) * 100` fits the integer width and is a multiple of 100: 0 before the end, 100 at it, at least 100 past it |
| ModelsBook.PercentageOfCounts | src/models/book.rs:146-148 | for counts, the percentage is 100 times the whole number of times `total` fits into `current`, so 250 of 100 gives 200 |
| ModelsBook.PercentageIsAllOrNothing | src/models/book.rs:146-148 | for any real progress the percentage is 0 or 100, never a value in between |
| ModelsBook.BookxBook.constructor | src/models/book.rs:103-116 | a loaded book has no annotations and progress 0 |
| ModelsBook.BookxBook.SetProgress | src/models/book.rs:146-148 | the progress becomes the truncated percentage |
| ModelsBook.LoadBook | src/models/book.rs:74-118 | the book is created exactly when the load succeeds, with the loaded fields, and otherwise the load's error is returned |
| BookxBookCard.CoverPathInjective | src/components/library/bookx_book.rs:110-112 | distinct relative identifiers have distinct cover path texts under the cache |
| BookxBookCard.AbsoluteIdentifierLeavesCache | src/components/library/bookx_book.rs:110-112 | the identifier "/cover" writes its cover to "/cover.png", outside the cache |
| BookxBookCard.LoadResult | src/components/library/bookx_book.rs:90-169 | an open error is returned as is; a missing identifier, title or cover is InvalidEpub; otherwise the card has the first title and progress 40.0 |
| BookxBookCard.LoadBook | src/components/library/bookx_book.rs:90-169 | returns the load result; writes the cover bytes to the cover path exactly when the book is valid and the folder can be created, and leaves the disk unchanged otherwise; a card is returned only with its cover file on disk, and when the folder cannot be created the caller must supply an earlier cover, as the unwrap of the decoded picture at :145 demands |
| Storage.LastDot | src/library/storage.rs:161 | finds the last '.' of a name, or reports that there is none |
| Storage.FileStem | src/library/storage.rs:161 | the stem is a prefix of the name |
| Storage.GetPathInjective | src/library/storage.rs:149-163 | with the extension appended, distinct keys get distinct files |
| Storage.GetPathAsWrittenAgrees | src/library/storage.rs:149-163 | for a key without '.', `with_extension` gives the same path as appending |
| Storage.GetPathAsWrittenCollides | src/library/storage.rs:149-163 | as written, the keys "book.1" and "book.2" share the file ".../book.json" |
| Storage.CoverPathAsWrittenDoubleDot | src/library/book/book.rs:493-495 | the cover extension ".png" yields a file ending in "..png" |
| Storage.ReadAsWritten | src/library/storage.rs:127-131 | as written, reading succeeds exactly when the file exists and holds a JSON document; otherwise `expect` or `unwrap` panics |
| Storage.OpenAsWrittenPanicsOnNewFile | src/library/storage.rs:102-131 | as written, opening a storage whose file does not exist yet panics |
| Storage.ReadOrEmptyExtendsAsWritten | src/library/storage.rs:127-147 | corrected, reading a file that does not exist gives the empty document `get_modified` resets to, and otherwise what the code as written reads; only a missing file makes the two differ |
| Storage.Storage.constructor | src/library/storage.rs:102-131 | a new storage holds the file's parsed contents and records its mtime, with no signals; corrected, a file not created yet opens as the empty document with mtime 0 after one "externally-modified" signal from `get_modified` |
| Storage.Storage.GetModified | src/library/storage.rs:133-147 | returns the file's mtime; when the file cannot be queried it clears the data, signals "externally-modified" and returns 0 |
| Storage.Storage.Read | src/library/storage.rs:127-147 | returns the parsed file and records its mtime; for a missing file the data is reset, "externally-modified" fires, and the empty document and mtime 0 are the result (corrected) |
| Storage.Storage.OnChanged | src/library/storage.rs:112-121 | reloads and signals "externally-modified" only when the file is strictly newer than the recorded mtime |
| Storage.Storage.Write | src/library/storage.rs:165-183 | when the folder is created and the file replaced, the disk holds the document, the new mtime is recorded and "modified" fires; otherwise nothing changes |
| Storage.Storage.Get | src/library/storage.rs:185-187 | yields the property's value exactly when it is present |
| Storage.Storage.Set | src/library/storage.rs:189-191 | changes that one property in memory and leaves every other property and the disk alone |
| Storage.Storage.Clear | src/library/storage.rs:193-197 | deletes exactly this file |
| Storage.OwnWriteIsNotExternal | src/library/storage.rs:165-183 | the monitor event after the storage's own write reports no external change |
| LibraryBook.LocationsGate | src/library/book/book.rs:316-332 | cached locations are returned for FB2 only under converter "2.4.0", and otherwise only under a page size of 1024 characters |
| LibraryBook.LocationsRoundTrip | src/library/book/book.rs:316-346 | locations stored by the corrected `set_locations` are returned by `get_locations` for every format |
| LibraryBook.LocationsAsWrittenLostForFb2 | src/library/book/book.rs:318 | as written, FB2 locations stored under "convert_version" are not returned from any cache that does not already hold the current version under "converter_version", a key nothing writes |
| LibraryBook.LocationsAsWrittenAgreesForEpub | src/library/book/book.rs:334-346 | for EPUB books the store is the same as written and corrected |
| LibraryBook.OldPageSizeIgnored | src/library/book/book.rs:326-331 | locations computed at another page size are ignored |
| LibraryBook.DataPathsDistinct | src/library/book/book.rs:485-487 | corrected: with the extension appended to the encoded identifier, different books have different data files (as written, `with_extension` lets "book.1" and "book.2" share one) |
| LibraryBook.IndexOf | src/library/book/book.rs:376-379 | `find` gives the first position of the item, or nothing when it is absent |
| LibraryBook.RemoveFirst | src/library/book/book.rs:376-379 | when the item is present, exactly the element at its first position (`IndexOf`) is removed and the others keep their order, so one occurrence fewer remains; otherwise nothing changes |
| LibraryBook.RemoveFirstKeepsSorted | src/library/book/book.rs:371-381 | removing an element from a sorted list leaves it sorted |
| LibraryBook.AnnotationCmpTotal | src/library/book/book.rs:363-366 | ordering annotations by CFI is a total preorder when the CFI comparison is |
| LibraryBook.InsertKeepsCfiOrder | src/library/book/book.rs:363-366 | `insert_sorted` keeps the annotation list in CFI order |
| LibraryBook.AnnotationsArray | src/library/book/book.rs:383-393 | the stored array holds the CFIs of the list, in order |
| LibraryBook.BookmarksArray | src/library/book/book.rs:413-422 | the stored array holds each bookmark exactly once |
| LibraryBook.Book.constructor | src/library/book/book.rs:203-238 | corrected: the data and cache storages are opened at the book's corrected paths (extension appended) and the cover path is set; a file not created yet opens empty (corrected read); nothing is held in memory yet |
| LibraryBook.Book.LoadData | src/library/book/book.rs:240-244 | forgets every annotation and bookmark held in memory |
| LibraryBook.Book.GetAnnotation | src/library/book/book.rs:264-266 | yields the annotation of a CFI exactly when the map has it |
| LibraryBook.Book.GetLastLocation | src/library/book/book.rs:281-286 | yields the stored location, or 0 when none is stored |
| LibraryBook.Book.SetLastLocation | src/library/book/book.rs:288-293 | stores the location, which `get_last_location` then returns |
| LibraryBook.Book.SetProgress | src/library/book/book.rs:295-310 | stores the pair [current, total] under "progress" |
| LibraryBook.Book.SetMetadata | src/library/book/book.rs:312-314 | stores the metadata under "metadata" |
| LibraryBook.Book.GetLocations | src/library/book/book.rs:316-332 | returns the cached locations exactly when the cache's page size or converter version is current |
| LibraryBook.Book.SetLocations | src/library/book/book.rs:334-346 | corrected: stores the locations with the page size and, for FB2, the converter version under "converter_version", the key `get_locations` checks, so that they are returned; line 339 writes "convert_version" instead |
| LibraryBook.Book.AddAnnotation | src/library/book/book.rs:348-369 | a known CFI changes nothing but announces the held annotation again as "annotation-added"; a new one enters the map and the list, appended while loading and inserted in CFI order otherwise, which keeps a CFI-sorted list sorted |
| LibraryBook.Book.OnAnnotationsChanged | src/library/book/book.rs:383-393 | the stored "annotations" array holds the list's CFIs and no other property changes |
| LibraryBook.Book.RemoveAnnotation | src/library/book/book.rs:371-381 | the CFI leaves the map, the first equal annotation leaves the list with the rest in order, a CFI-sorted list stays sorted, the array is stored again and "annotation-removed" fires |
| LibraryBook.Book.OnBookmarksChanged | src/library/book/book.rs:413-422 | the stored "bookmarks" array holds each bookmark once and no other property changes |
| LibraryBook.Book.AddBookmark | src/library/book/book.rs:395-401 | the CFI becomes a bookmark, appended to the list, and unless loading it is stored |
| LibraryBook.Book.RemoveBookmark | src/library/book/book.rs:403-411 | the CFI stops being a bookmark, its first list entry goes, and the set is stored again |
| LibraryBook.Book.ClearCache | src/library/book/book.rs:424-430 | deletes exactly the cache file and the cover picture |
| LibraryBook.Book.OnStorageChanged | src/library/book/book.rs:203-238 | when the data file was removed or is newer than the recorded mtime, the storage holds what the file now holds, the annotations and bookmarks are dropped and "externally-modified" is re-emitted; otherwise the storage and the book are unchanged |
| LibraryBook.Book.OnCacheChanged | src/library/book/book.rs:203-238 | when the cache file was removed or is newer than the recorded mtime, the cache holds what the file now holds and "cache-modified" is emitted once; otherwise nothing changes |
| ModelsBookBook.ProgressText | src/models/book/book.rs:287-307 | stored progress is shown as its integer followed by '%', a stored value that is not an integer as "0%", and absent progress shows nothing |
| ModelsBookBook.ProgressTextRoundTrip | src/models/book/book.rs:270-307 | the shown text without '%' parses back to the stored percentage |
| ModelsBookBook.Book.constructor | src/models/book/book.rs:155-198 | corrected: the data and cache storages are opened at the book's corrected paths (extension appended); a file not created yet opens empty (corrected read); nothing is held in memory yet |
| ModelsBookBook.Book.LoadData | src/models/book/book.rs:200-205 | forgets every annotation and bookmark held in memory |
| ModelsBookBook.Book.HasAnnotationsOfStoredList | src/models/book/book.rs:225-234 | once a list's CFIs are stored, the book has annotations exactly when the list is non-empty |
| ModelsBookBook.Book.GetAnnotation | src/models/book/book.rs:237-239 | yields the annotation of a CFI exactly when the map has it |
| ModelsBookBook.Book.GetLastLocation | src/models/book/book.rs:256-261 | the JSON text of the stored location, and "" exactly when none is stored |
| ModelsBookBook.Book.SetLastLocation | src/models/book/book.rs:263-268 | stores the location, whose text `get_last_location` then returns |
| ModelsBookBook.Book.SetProgress | src/models/book/book.rs:270-285 | stores the truncated `i128` percentage, which `get_progress` shows followed by '%' |
| ModelsBookBook.Book.GetProgress | src/models/book/book.rs:287-307 | progress text exists exactly when progress is stored, and is the stored value shown as `ProgressText` does |
| ModelsBookBook.Book.SetMetadata | src/models/book/book.rs:309-311 | stores the metadata under "metadata" |
| ModelsBookBook.Book.OnBookmarksChanged | src/models/book/book.rs:410-419 | the stored "bookmarks" array holds each bookmark once and no other property changes |
| ModelsBookBook.Book.ClearCache | src/models/book/book.rs:421-427 | deletes exactly the cache file and the cover picture |
| ModelsBookBook.Book.OnStorageChanged | src/models/book/book.rs:155-198 | when the data file was removed or is newer than the recorded mtime, the storage holds what the file now holds, the annotations and bookmarks are dropped and "externally-modified" is re-emitted; otherwise the storage and the book are unchanged |
| ModelsBookBook.Book.OnCacheChanged | src/models/book/book.rs:155-198 | when the cache file was removed or is newer than the recorded mtime, the cache holds what the file now holds and "cache-modified" is emitted once; otherwise nothing changes |
| ViewsLibrary.BookPathsMembers | src/views/library.rs:260-288 | a regular root with a content type yields itself, a folder yields exactly its reachable regular files, and anything else yields nothing |
| ViewsLibrary.GetBookPathbufs | src/views/library.rs:260-288 | returns the book paths of the root |
| ViewsLibrary.LoadEach | src/views/library.rs:154-234 | the loop returns the books that load, in file order, and one failure notification per file that does not |
| ViewsLibrary.EveryPathAccounted | src/views/library.rs:154-234 | every file either loads or produces one notification |
| ViewsLibrary.LoadedMembers | src/views/library.rs:154-234 | the loaded books are exactly the results of the files that load |
| ViewsLibrary.NothingLoadsAsWritten | src/views/library.rs:154-234 | with the loader as written no book loads, and every file is reported |
| ViewsLibrary.BookxLibrary.constructor | src/views/library.rs:99-112 | a new library is Null, empty and has no monitor |
| ViewsLibrary.BookxLibrary.SetStatus | src/views/library.rs:294-297 | sets and announces the status |
| ViewsLibrary.BookxLibrary.RefreshData | src/views/library.rs:114-258 | corrected: the new monitor is kept whether or not one was held (line 147 unwraps the old one); Loading first; an empty setting gives Null, a notification and an error with the list untouched; otherwise the folder is watched, failures are reported in order, and the list is replaced (Content, Ok) only when some book loads, else Error with "Library has no readable Books." or "Library folder is Empty" |
| ViewsLibrary.FirstRefreshAsWritten | src/views/library.rs:147 | as written, the first refresh unwraps a monitor that a new library does not have |
| ViewsLibrary.FirstRefreshWatchesFolder | src/views/library.rs:147 | corrected, the first refresh watches the books folder |
| ModelsLibrary.Uri | src/models/library.rs:173-181 | a book's URI is a "file://" URI |
| ModelsLibrary.IsEbookTypeIsEpub | src/models/library.rs:165-171 | a content type matches some format's MIME type exactly when it is the EPUB MIME type |
| ModelsLibrary.AnyMimeMatchesExists | src/models/library.rs:165-171 | `any` over the formats' MIME types holds exactly when some format in the list has the content type as its MIME type |
| ModelsLibrary.ItemInit | src/models/library.rs:160-182 | only a regular EPUB file adds an entry, whose id and uri are both its URI |
| ModelsLibrary.InitsAreEpubFiles | src/models/library.rs:148-206 | every recorded book is an EPUB file of the model, named by its URI |
| ModelsLibrary.FolderAddsNoBook | src/models/library.rs:185-189 | a folder adds no book entry, whatever it holds |
| ModelsLibrary.BookxLibrary.constructor | src/models/library.rs:107-111 | a new library is Null with no entries |
| ModelsLibrary.BookxLibrary.SetStatus | src/models/library.rs:117-121 | sets and announces the status |
| ModelsLibrary.BookxLibrary.AddItem | src/models/library.rs:151-192 | one file records its entry exactly when it is a regular ebook file, and a folder returns its scanned files for the local list |
| ModelsLibrary.BookxLibrary.AddBooksToList | src/models/library.rs:148-206 | entries are appended for the EPUB files, folder files go only to a local list, and the status is Content when entries exist, else Empty with one notification |
| ModelsLibrary.BookxLibrary.RefreshData | src/models/library.rs:124-146 | an empty setting sets Null without Loading; otherwise Loading precedes the outcome of adding the setting's file |
| ModelsLibrary.FolderRefreshIsEmpty | src/models/library.rs:185-205 | a first refresh on a books folder ends Empty |
| LibraryLibrary.ItemFilesMembers | src/library/library.rs:153-168 | a regular file is kept only with the EPUB MIME type; a folder adds all its reachable regular files without a MIME check |
| LibraryLibrary.ListedMembers | src/library/library.rs:141-183 | a path is listed exactly when one of the model's files contributes it |
| LibraryLibrary.BookxLibrary.constructor | src/library/library.rs:99-104 | a new library is Null |
| LibraryLibrary.BookxLibrary.SetStatus | src/library/library.rs:110-114 | sets and announces the status |
| LibraryLibrary.BookxLibrary.AddBooksToList | src/library/library.rs:141-183 | returns the listed files; the status is Content when any exist, else Empty with one notification |
| LibraryLibrary.BookxLibrary.RefreshData | src/library/library.rs:117-139 | an empty setting sets Null without Loading; otherwise Loading precedes the outcome of adding the setting's file |

## Left out

- Widgets, the relm4 components' views, GTK signal wiring and `disconnect_all` are not modelled, and neither are the async executors. Signals are counters or logs.
- The "modified" update of the library in the refresh loops and `file_monitor_cb` are unfinished TODO code in the source, so they are not modelled.
- Cover pictures are bytes. Pixbuf decoding and scaling, and `save_cover`, are not modelled.
- Failures to create a monitor, `File::create` and `write_all` panic or are ignored in the source. The model has no failure path for them, except that the storage write and the card's cover write take the folder-creation outcome as a parameter.
- Logging is not modelled, nor the `e.source().unwrap()` calls inside log statements.
- Floating-point values are kept as literals (`Json.Float`) and not computed with. This affects `set_progress` and `set_last_location` in `src/library/book/book.rs`.
- JSON serialisation is abstracted. The disk stores the parsed document, so parsing after writing is the identity.
- ModelsBook.ToUpper: upper-cases ASCII letters only; Unicode case mapping is not modelled.
- ModelsBook.BookxBook.SetProgress: stores the integer percentage where the source converts it to `f64`.
- ModelsLibrary.Uri: URI percent-encoding is not modelled.
- The key encoder (`form_urlencoded`) is an abstract function. It only needs to be injective and to produce names of unreserved characters.
- The glib filename collation key and the CFI comparison are parameters. The enumeration order of a folder is the order of its children, which is arbitrary.
- HashSet iteration order is a nondeterministic choice.
- Folders that cannot be enumerated panic in the source (`expect`), so the scans require a folder.
- `content_type_is_mime_type` is modelled as equality: MIME subtypes are not modelled. `content_type_get_mime_type` is the identity, as on Unix.
- The settings, the user folders and the package name are parameters.
- The duplicate `get_*_path` functions of `src/models/book/book.rs:481-491` share the definitions in `LibraryBook`.
- `get_data` and the `status()` getters are plain field reads and are not modelled separately.
- ModelsBook.Load: requires `CompleteMetadata`; a book without a title, a creator list, a publisher or a language makes the unwraps of `src/models/book.rs:83-102` panic, and that outcome is not modelled. The same holds for ModelsBook.LoadBook.
- ModelsBook.Percentage: requires `PercentageDefined`; a zero total and `MIN / -1` panic, and a `* 100` that overflows panics in debug builds and wraps in release builds; none of these outcomes is modelled. ModelsBook.BookxBook.SetProgress and ModelsBookBook.Book.SetProgress inherit the precondition.
- ModelsBookBook.Book.HasAnnotations: requires a stored "annotations" array; without one the unwraps of `src/models/book/book.rs:225-234` panic, and that outcome is not modelled.
- Storage.Storage.constructor: an existing file that does not hold a JSON document makes `parse().unwrap()` panic; the storage requires such a file to hold one. A missing file opens empty, the corrected behaviour listed under Findings. Storage.Storage.Read and Storage.Storage.OnChanged have the same requirement.
- BookxBookCard.LoadBook: requires an earlier cover on disk when the cover folder cannot be created, since the picture is decoded and unwrapped at `src/components/library/bookx_book.rs:145`; a cover file that does not decode also panics, which is not modelled.
- LibraryBook.Book.SetLocations: stores the converter version under "converter_version", the key `get_locations` checks; line 339 of `src/library/book/book.rs` stores it under "convert_version", which the Findings table records.
- LibraryBook.Book.constructor: opens the data and cache files at the corrected `GetPath` paths, with the extension appended; the source's `get_*_path` use `with_extension`, so an identifier whose encoding contains '.' opens another file in the source, and two such identifiers can share one. The cover path is built the same way.
- ModelsBookBook.Book.constructor: opens its files at the same corrected paths, where `src/models/book/book.rs:481-491` uses `with_extension`.
- LibraryBook.DataPathsDistinct: holds of the corrected paths only; as written, `Storage.GetPathAsWrittenCollides` shows two identifiers sharing a data file.
- ViewsLibrary.BookxLibrary.RefreshData: keeps the new folder monitor; line 147 of `src/views/library.rs` unwraps the monitor held before, which panics on a library's first refresh (`ViewsLibrary.FirstRefreshAsWritten`).
- LibraryBook.Book.AddAnnotation: the CFI is read without the `take()` of line 349, which would empty the annotation's CFI before it is filed and compared.
- LibraryBook.Book.RemoveAnnotation: removes the first annotation equal by value, where `ListStore::find` at line 376 matches the same object only; the CFI is read without `take()` as well.

## Findings

| source | as written | input that shows it | evidently intended | confidence | as-written member | corrected member |
|---|---|---|---|---|---|---|
| src/views/library.rs:147 | `self.monitor.replace(Some(monitor)).unwrap()` unwraps the previous monitor | the first refresh of a new library, which has no monitor yet | keep the new monitor whether or not one was held | not executed | ViewsLibrary.FirstRefreshAsWritten | ViewsLibrary.FirstRefreshWatchesFolder |
| src/models/book.rs:79-80 | the MIME type is asked of the path text, which is not a content type | any path, for example "/books/a.epub", gives an unsupported format | use the file's content type | not executed | ModelsBook.LoadAsWrittenAlwaysFails | ModelsBook.LoadEpub |
| src/library/book/book.rs:318 | `get_locations` checks "converter_version" but `set_locations` stores "convert_version" (line 339) | an FB2 book whose locations were just stored | one key for both | not executed | LibraryBook.LocationsAsWrittenLostForFb2 | LibraryBook.LocationsRoundTrip |
| src/library/storage.rs:149-163 | `with_extension` replaces whatever follows the key's last '.' | the keys "book.1" and "book.2" both map to ".../book.json" | append the extension to the encoded key | not executed | Storage.GetPathAsWrittenCollides | Storage.GetPathInjective |
| src/library/storage.rs:127-131 | `read` expects the file to exist and unwraps its parse | a book opened for the first time, whose data file has not been written yet | open a file not created yet as the empty document, as `get_modified` resets the data when the file is missing | not executed | Storage.OpenAsWrittenPanicsOnNewFile | Storage.ReadOrEmptyExtendsAsWritten |
