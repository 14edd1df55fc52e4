/** The archived tweet as the code reads it from an export file. Every field
    the code reads with `.get(key, "")` is a plain string here, holding "" when
    the key is absent; `id_str` is optional because `format_tweet` indexes it
    directly and so distinguishes a missing id from an empty one. */
module Records {
  import opened Wrappers

  newtype byte = x: int | 0 <= x < 256

  /** One element of `entities.urls`. */
  datatype UrlEntity = UrlEntity(url: string, expandedUrl: string, displayUrl: string)

  datatype Tweet = Tweet(
    idStr: Option<string>,
    fullText: string,
    createdAt: string,
    source: string,
    urls: seq<UrlEntity>)
  {
    /** `tweet.get("id_str", "")`. */
    function IdOrEmpty(): string {
      idStr.GetOr("")
    }
  }

  /** One element of the exported array: it has a `"tweet"` key or it has not. */
  datatype RawItem = RawItem(tweet: Option<Tweet>)

  /** What the JSON parser makes of a text: a top-level array of items, or any
      other JSON value. A text that is not JSON at all is `None` where the
      parser is used. */
  datatype Json = JsonArray(items: seq<RawItem>) | JsonOther
}
