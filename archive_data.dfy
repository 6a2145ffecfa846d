/** The persisted archive as its readers see it: the metadata records the
    builder writes, the records as read back from JSON (where any key may be
    missing), and the (position, score) pairs a similarity search returns. */
module ArchiveData {
  import opened Common

  /** One metadata record as the archive builder creates it. */
  datatype Record = Record(id: nat, filename: string, path: string, tag: string, artist: string, year: string)

  /** A record as loaded from the metadata file: a JSON object whose keys may
      be absent (`dict.get` returns None, `dict[key]` raises KeyError). */
  datatype Entry = Entry(
    id: Option<int>,
    filename: Option<string>,
    path: Option<string>,
    tag: Option<string>,
    artist: Option<string>,
    year: Option<string>)

  /** The position FAISS reports in a result column it could not fill. */
  const NoResult: int := -1

  /** One column of a search result: the index position of a stored vector
      (or NoResult) and its similarity score. Scores are kept abstract. */
  datatype Hit = Hit(position: int, score: int)
}
