/**
 * The part of the filesystem the storage and cover code touch: files by
 * path, each with its contents and modification time. Reads, writes and
 * deletions act on this state instead of a real disk.
 */
module Filesystem {
  import opened Json

  datatype Contents =
    | Document(doc: map<string, Json>)   // a JSON object, as `Storage` writes it
    | Blob(bytes: seq<bv8>)              // any other file, such as a cover image

  datatype DiskFile = DiskFile(contents: Contents, mtime: nat)

  class Disk {
    var files: map<string, DiskFile>

    constructor (files: map<string, DiskFile>)
      ensures this.files == files
    {
      this.files := files;
    }

    /** A change made by another process, such as a second instance editing a book's data file. */
    method ExternalWrite(path: string, file: DiskFile)
      modifies this
      ensures files == old(files)[path := file]
    {
      files := files[path := file];
    }
  }
}
