/**
 The storage volume as the notebook sees it through `dbutils.fs.ls`: a path
 either lists to a sequence of entries or the listing raises. The model takes
 the volume's state as data instead of calling the platform.
 */
module Listing {
  import opened Strings

  /** One listed entry: its name (a directory's name ends in `/`), its full
      path, whether it is a directory, and its size in bytes. An entry that is
      not a directory is a file. */
  datatype Entry = Entry(name: string, path: string, isDir: bool, size: nat)

  /** The listable paths of the volume. A path absent from the map is one whose
      listing raises (missing path, permission error, ...). */
  type Volume = map<string, seq<Entry>>

  /** A name `ls` callers treat as hidden: it starts with `.`. */
  predicate Hidden(name: string)
  {
    StartsWith(name, ".")
  }
}
