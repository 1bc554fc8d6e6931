/** Records the three scrapers emit: one content row per post or video, and one
    mention row per (NGO, content) pair found in it. */
module Records {

  datatype Option<T> = None | Some(value: T)

  /** the `metadata` column: a JSON object, kept here as its key/value pairs
      (`None` is JSON `null`) rather than as its serialised text */
  type Metadata = seq<(string, Option<string>)>

  /** one row of the content table shared by the platforms */
  datatype ContentRecord = ContentRecord(
    externalContentId: string,
    platformId: int,
    title: string,
    description: string,
    url: string,
    author: Option<string>,
    publishedAt: string,
    viewCount: int,
    likeCount: int,
    commentCount: int,
    contentType: string,
    metadata: Metadata)

  /** one row of the NGO-to-content mapping table */
  datatype Mention = Mention(ngoId: int, externalContentId: string)

  function ContentId(c: ContentRecord): string { c.externalContentId }
}
