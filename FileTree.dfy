/** The directory hierarchy the renderer walks, as an in-memory value.
    A directory's listing either failed with "permission denied" or
    yields its entries in whatever order the operating system returns them. */
module FileTree {

  /** One name returned by listing a directory, classified as a file or a
      directory (the classification the renderer obtains by asking whether
      the entry's full path is a directory). */
  datatype Entry = File(name: string) | Dir(name: string, contents: Listing)

  /** The outcome of listing one directory. */
  datatype Listing = Denied | Listed(entries: seq<Entry>)

  /** A name a directory listing can return: non-empty, without a separator. */
  predicate ValidName(n: string) {
    n != [] && '/' !in n
  }
}
