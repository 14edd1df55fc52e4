/** The files the program reads and writes: the archive `tweets.js`, and
    `filters.json` and `credentials.json`, which the stores in
    app/filters.py and app/credentials.py rewrite on every change. The JSON
    encoding of the last two is not modelled: a save records what was written
    and counts the writes, so that a model can say whether a handler saved. */
module Storage {
  import opened Wrappers
  import opened Records

  datatype SavedFilters = SavedFilters(sites: seq<string>, keywords: seq<string>)

  datatype SavedCredentials = SavedCredentials(
    consumerKey: string,
    consumerSecret: string,
    accessToken: string,
    accessTokenSecret: string)

  class Disk {
    /** Bytes of `tweets.js`, or `None` when the file does not exist. */
    var archive: Option<seq<byte>>
    /** Contents last written to `filters.json`. */
    var filters: Option<SavedFilters>
    /** Number of times `filters.json` has been written. */
    var filterWrites: nat
    /** Contents of `credentials.json`, or `None` when it does not exist. */
    var credentials: Option<SavedCredentials>

    constructor (archive: Option<seq<byte>>, filters: Option<SavedFilters>, credentials: Option<SavedCredentials>)
      ensures this.archive == archive && this.filters == filters && this.credentials == credentials
      ensures filterWrites == 0
    {
      this.archive := archive;
      this.filters := filters;
      this.credentials := credentials;
      filterWrites := 0;
    }

    /** `filters.save(sites, keywords)`. */
    method SaveFilters(sites: seq<string>, keywords: seq<string>)
      modifies this
      ensures filters == Some(SavedFilters(sites, keywords))
      ensures filterWrites == old(filterWrites) + 1
      ensures archive == old(archive) && credentials == old(credentials)
    {
      filters := Some(SavedFilters(sites, keywords));
      filterWrites := filterWrites + 1;
    }

    /** `credentials.save(...)`. */
    method SaveCredentials(saved: SavedCredentials)
      modifies this
      ensures credentials == Some(saved)
      ensures archive == old(archive) && filters == old(filters) && filterWrites == old(filterWrites)
    {
      credentials := Some(saved);
    }

    /** `credentials.clear()`: removes the file if it exists. */
    method ClearCredentials()
      modifies this
      ensures credentials == None
      ensures archive == old(archive) && filters == old(filters) && filterWrites == old(filterWrites)
    {
      credentials := None;
    }

    /** `TWEETS_FILE.write_bytes(raw_bytes)`. */
    method WriteArchive(bytes: seq<byte>)
      modifies this
      ensures archive == Some(bytes)
      ensures filters == old(filters) && filterWrites == old(filterWrites) && credentials == old(credentials)
    {
      archive := Some(bytes);
    }
  }
}
