/** The catalog records both views read, as the public book-search API returns them. */
module Books {
  import opened Wrappers

  /**
   * The `volumeInfo` object of a record. `thumbnail` stands for
   * `imageLinks?.thumbnail`; every field may be absent from the JSON.
   */
  datatype VolumeInfo = VolumeInfo(
    title: Option<string>,
    authors: Option<seq<string>>,
    publisher: Option<string>,
    publishedDate: Option<string>,
    pageCount: Option<int>,
    thumbnail: Option<string>,
    description: Option<string>)

  /** One record of the catalog: its identifier and, normally, its `volumeInfo`. */
  datatype Volume = Volume(id: string, volumeInfo: Option<VolumeInfo>)

  /** `book.volumeInfo?.title`. */
  function Title(b: Volume): Option<string>
  {
    if b.volumeInfo.Some? then b.volumeInfo.value.title else None
  }

  /** `book.volumeInfo?.authors`. */
  function Authors(b: Volume): Option<seq<string>>
  {
    if b.volumeInfo.Some? then b.volumeInfo.value.authors else None
  }
}
