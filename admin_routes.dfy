/** app/routes/admin.py: logging in and out, the site-pattern and keyword
    lists, and uploading a new archive. Request bodies are validated before a
    handler runs; a rejected body is answered with 422 and changes nothing. */
module AdminRoutes {
  import opened Wrappers
  import opened Seqs
  import opened Text
  import opened Records
  import opened Storage
  import opened State
  import opened Parser
  import opened Http

  // ---------------------------------------------------------------------------
  // Request validation

  /** `Credentials.not_empty`: a field is accepted stripped, and rejected
      when it is empty or only whitespace. */
  function CredentialField(v: string): (r: Result<string, string>)
    ensures r.Ok? <==> !AllSpace(v)
    ensures r.Ok? ==> r.value == Strip(v) && r.value != []
    ensures r.Ok? ==> !IsSpace(r.value[0]) && !IsSpace(r.value[|r.value| - 1])
    ensures r.Err? ==> r.error == "Field must not be empty"
  {
    StripEmptyIffBlank(v);
    if v == [] || Strip(v) == [] then Err("Field must not be empty") else Ok(Strip(v))
  }

  /** `FilterItem.not_empty`: the pattern is stored stripped, and rejected
      when nothing is left. */
  function PatternField(v: string): (r: Result<string, string>)
    ensures r.Ok? <==> !AllSpace(v)
    ensures r.Ok? ==> r.value == Strip(v) && r.value != []
    ensures r.Ok? ==> !IsSpace(r.value[0]) && !IsSpace(r.value[|r.value| - 1])
    ensures r.Err? ==> r.error == "Pattern must not be empty"
  {
    StripEmptyIffBlank(v);
    var stripped := Strip(v);
    if stripped == [] then Err("Pattern must not be empty") else Ok(stripped)
  }

  /** The four credential fields validated together. */
  function ValidateCredentials(consumerKey: string, consumerSecret: string, accessToken: string, accessTokenSecret: string)
    : (r: Result<SavedCredentials, HttpError>)
    ensures r.Ok? <==> !AllSpace(consumerKey) && !AllSpace(consumerSecret) && !AllSpace(accessToken) && !AllSpace(accessTokenSecret)
    ensures r.Ok? ==> r.value == SavedCredentials(Strip(consumerKey), Strip(consumerSecret), Strip(accessToken), Strip(accessTokenSecret))
    ensures r.Err? ==> r.error.status == 422
  {
    var ck := CredentialField(consumerKey);
    var cs := CredentialField(consumerSecret);
    var at := CredentialField(accessToken);
    var ats := CredentialField(accessTokenSecret);
    if ck.Ok? && cs.Ok? && at.Ok? && ats.Ok? then
      Ok(SavedCredentials(ck.value, cs.value, at.value, ats.value))
    else
      Err(HttpError(422, "Field must not be empty"))
  }

  // ---------------------------------------------------------------------------
  // Credentials

  /** `login`: the four stripped fields are stored in the session, the session
      becomes authenticated, and the credentials are saved. */
  method Login(st: AppState, disk: Disk, consumerKey: string, consumerSecret: string, accessToken: string, accessTokenSecret: string)
    returns (r: Result<string, HttpError>)
    modifies st, disk
    ensures ValidateCredentials(consumerKey, consumerSecret, accessToken, accessTokenSecret).Err? ==>
      r == Err(ValidateCredentials(consumerKey, consumerSecret, accessToken, accessTokenSecret).error) &&
      unchanged(st) && unchanged(disk)
    ensures ValidateCredentials(consumerKey, consumerSecret, accessToken, accessTokenSecret).Ok? ==>
      r == Ok("Credentials saved") && st.authenticated &&
      disk.credentials == Some(ValidateCredentials(consumerKey, consumerSecret, accessToken, accessTokenSecret).value)
    ensures r.Ok? ==>
      st.consumerKey == Some(Strip(consumerKey)) && st.consumerSecret == Some(Strip(consumerSecret)) &&
      st.accessToken == Some(Strip(accessToken)) && st.accessTokenSecret == Some(Strip(accessTokenSecret))
    ensures disk.archive == old(disk.archive) && disk.filters == old(disk.filters) && disk.filterWrites == old(disk.filterWrites)
    ensures st.sitePatterns == old(st.sitePatterns) && st.keywords == old(st.keywords) && st.deletedIds == old(st.deletedIds)
    ensures old(st.Valid()) ==> st.Valid()
  {
    var v := ValidateCredentials(consumerKey, consumerSecret, accessToken, accessTokenSecret);
    if v.Err? {
      return Err(v.error);
    }
    StoreCredentials(st, disk, v.value);
    r := Ok("Credentials saved");
  }

  /** The body of `login` once the request is validated: the session takes
      the credentials and becomes authenticated, and they are saved. */
  method StoreCredentials(st: AppState, disk: Disk, creds: SavedCredentials)
    modifies st, disk
    ensures st.consumerKey == Some(creds.consumerKey) && st.consumerSecret == Some(creds.consumerSecret)
    ensures st.accessToken == Some(creds.accessToken) && st.accessTokenSecret == Some(creds.accessTokenSecret)
    ensures st.authenticated && disk.credentials == Some(creds)
    ensures disk.archive == old(disk.archive) && disk.filters == old(disk.filters) && disk.filterWrites == old(disk.filterWrites)
    ensures st.sitePatterns == old(st.sitePatterns) && st.keywords == old(st.keywords) && st.deletedIds == old(st.deletedIds)
    ensures old(st.Valid()) ==> st.Valid()
  {
    st.consumerKey := Some(creds.consumerKey);
    st.consumerSecret := Some(creds.consumerSecret);
    st.accessToken := Some(creds.accessToken);
    st.accessTokenSecret := Some(creds.accessTokenSecret);
    st.authenticated := true;
    disk.SaveCredentials(creds);
  }

  /** `logout`: the four fields are cleared together, the session is no longer
      authenticated, and the saved credentials are removed. */
  method Logout(st: AppState, disk: Disk)
    modifies st, disk
    ensures st.consumerKey == None && st.consumerSecret == None
    ensures st.accessToken == None && st.accessTokenSecret == None
    ensures !st.authenticated && disk.credentials == None
    ensures disk.archive == old(disk.archive) && disk.filters == old(disk.filters) && disk.filterWrites == old(disk.filterWrites)
    ensures st.sitePatterns == old(st.sitePatterns) && st.keywords == old(st.keywords) && st.deletedIds == old(st.deletedIds)
    ensures old(st.Valid()) ==> st.Valid()
  {
    st.consumerKey := None;
    st.consumerSecret := None;
    st.accessToken := None;
    st.accessTokenSecret := None;
    st.authenticated := false;
    disk.ClearCredentials();
  }

  // ---------------------------------------------------------------------------
  // Site patterns and keywords

  /** `add_site`: a new pattern is appended and the lists are saved; a pattern
      already present changes nothing and saves nothing. */
  method AddSite(st: AppState, disk: Disk, body: string) returns (r: Result<seq<string>, HttpError>)
    modifies st, disk
    ensures PatternField(body).Err? ==> r == Err(HttpError(422, PatternField(body).error)) && unchanged(st) && unchanged(disk)
    ensures PatternField(body).Ok? ==> r == Ok(st.sitePatterns)
    ensures PatternField(body).Ok? && PatternField(body).value in old(st.sitePatterns) ==> unchanged(st) && unchanged(disk)
    ensures PatternField(body).Ok? && PatternField(body).value !in old(st.sitePatterns) ==>
      st.sitePatterns == old(st.sitePatterns) + [PatternField(body).value] &&
      disk.filters == Some(SavedFilters(st.sitePatterns, st.keywords)) && disk.filterWrites == old(disk.filterWrites) + 1 &&
      disk.archive == old(disk.archive) && disk.credentials == old(disk.credentials)
    ensures st.keywords == old(st.keywords) && st.deletedIds == old(st.deletedIds) && st.authenticated == old(st.authenticated)
    ensures st.consumerKey == old(st.consumerKey) && st.consumerSecret == old(st.consumerSecret)
    ensures st.accessToken == old(st.accessToken) && st.accessTokenSecret == old(st.accessTokenSecret)
    ensures old(st.Valid()) ==> st.Valid()
  {
    var item := PatternField(body);
    if item.Err? {
      return Err(HttpError(422, item.error));
    }
    var pattern := item.value;
    if pattern !in st.sitePatterns {
      AppendKeepsNoDup(st.sitePatterns, pattern);
      st.sitePatterns := st.sitePatterns + [pattern];
      disk.SaveFilters(st.sitePatterns, st.keywords);
    }
    r := Ok(st.sitePatterns);
  }

  /** `remove_site`: the stripped pattern loses its first occurrence and the
      lists are saved; a pattern not present changes nothing and saves
      nothing. */
  method RemoveSite(st: AppState, disk: Disk, pattern: string) returns (sites: seq<string>)
    modifies st, disk
    ensures Strip(pattern) in old(st.sitePatterns) ==>
      st.sitePatterns == RemoveFirst(old(st.sitePatterns), Strip(pattern)) &&
      disk.filters == Some(SavedFilters(st.sitePatterns, st.keywords)) && disk.filterWrites == old(disk.filterWrites) + 1 &&
      disk.archive == old(disk.archive) && disk.credentials == old(disk.credentials)
    ensures Strip(pattern) !in old(st.sitePatterns) ==> unchanged(st) && unchanged(disk)
    ensures NoDup(old(st.sitePatterns)) ==> Strip(pattern) !in st.sitePatterns
    ensures sites == st.sitePatterns
    ensures st.keywords == old(st.keywords) && st.deletedIds == old(st.deletedIds) && st.authenticated == old(st.authenticated)
    ensures st.consumerKey == old(st.consumerKey) && st.consumerSecret == old(st.consumerSecret)
    ensures st.accessToken == old(st.accessToken) && st.accessTokenSecret == old(st.accessTokenSecret)
    ensures old(st.Valid()) ==> st.Valid()
  {
    var p := Strip(pattern);
    if p in st.sitePatterns {
      RemoveFirstRemovesOne(st.sitePatterns, p);
      if NoDup(st.sitePatterns) {
        RemoveFirstNoDup(st.sitePatterns, p);
      }
      st.sitePatterns := RemoveFirst(st.sitePatterns, p);
      disk.SaveFilters(st.sitePatterns, st.keywords);
    }
    sites := st.sitePatterns;
  }

  /** `add_keyword`: as `add_site`, on the keyword list. */
  method AddKeyword(st: AppState, disk: Disk, body: string) returns (r: Result<seq<string>, HttpError>)
    modifies st, disk
    ensures PatternField(body).Err? ==> r == Err(HttpError(422, PatternField(body).error)) && unchanged(st) && unchanged(disk)
    ensures PatternField(body).Ok? ==> r == Ok(st.keywords)
    ensures PatternField(body).Ok? && PatternField(body).value in old(st.keywords) ==> unchanged(st) && unchanged(disk)
    ensures PatternField(body).Ok? && PatternField(body).value !in old(st.keywords) ==>
      st.keywords == old(st.keywords) + [PatternField(body).value] &&
      disk.filters == Some(SavedFilters(st.sitePatterns, st.keywords)) && disk.filterWrites == old(disk.filterWrites) + 1 &&
      disk.archive == old(disk.archive) && disk.credentials == old(disk.credentials)
    ensures st.sitePatterns == old(st.sitePatterns) && st.deletedIds == old(st.deletedIds) && st.authenticated == old(st.authenticated)
    ensures st.consumerKey == old(st.consumerKey) && st.consumerSecret == old(st.consumerSecret)
    ensures st.accessToken == old(st.accessToken) && st.accessTokenSecret == old(st.accessTokenSecret)
    ensures old(st.Valid()) ==> st.Valid()
  {
    var item := PatternField(body);
    if item.Err? {
      return Err(HttpError(422, item.error));
    }
    var keyword := item.value;
    if keyword !in st.keywords {
      AppendKeepsNoDup(st.keywords, keyword);
      st.keywords := st.keywords + [keyword];
      disk.SaveFilters(st.sitePatterns, st.keywords);
    }
    r := Ok(st.keywords);
  }

  /** `remove_keyword`: as `remove_site`, on the keyword list. */
  method RemoveKeyword(st: AppState, disk: Disk, keyword: string) returns (keywords: seq<string>)
    modifies st, disk
    ensures Strip(keyword) in old(st.keywords) ==>
      st.keywords == RemoveFirst(old(st.keywords), Strip(keyword)) &&
      disk.filters == Some(SavedFilters(st.sitePatterns, st.keywords)) && disk.filterWrites == old(disk.filterWrites) + 1 &&
      disk.archive == old(disk.archive) && disk.credentials == old(disk.credentials)
    ensures Strip(keyword) !in old(st.keywords) ==> unchanged(st) && unchanged(disk)
    ensures NoDup(old(st.keywords)) ==> Strip(keyword) !in st.keywords
    ensures keywords == st.keywords
    ensures st.sitePatterns == old(st.sitePatterns) && st.deletedIds == old(st.deletedIds) && st.authenticated == old(st.authenticated)
    ensures st.consumerKey == old(st.consumerKey) && st.consumerSecret == old(st.consumerSecret)
    ensures st.accessToken == old(st.accessToken) && st.accessTokenSecret == old(st.accessTokenSecret)
    ensures old(st.Valid()) ==> st.Valid()
  {
    var k := Strip(keyword);
    if k in st.keywords {
      RemoveFirstRemovesOne(st.keywords, k);
      if NoDup(st.keywords) {
        RemoveFirstNoDup(st.keywords, k);
      }
      st.keywords := RemoveFirst(st.keywords, k);
      disk.SaveFilters(st.sitePatterns, st.keywords);
    }
    keywords := st.keywords;
  }

  /** Appending an element that is not yet present keeps a list free of
      duplicates. */
  lemma AppendKeepsNoDup<T>(s: seq<T>, x: T)
    requires x !in s
    ensures NoDup(s) ==> NoDup(s + [x])
  {
    if NoDup(s) {
      var t := s + [x];
      forall i, j | 0 <= i < j < |t| ensures t[i] != t[j] {
        if j == |s| { assert t[i] == s[i]; }
      }
    }
  }

  // ---------------------------------------------------------------------------
  // Archive upload

  /** The checks of `upload_tweets`, in their order: the file name, UTF-8
      decoding, JSON parsing of the stripped and unwrapped text, and the
      top-level array. */
  function CheckUpload(
    filename: Option<string>, bytes: seq<byte>,
    decode: seq<byte> -> Option<string>, parse: string -> Option<Json>)
    : (r: Result<seq<RawItem>, HttpError>)
    ensures r.Ok? <==>
      filename.Some? && EndsWith(filename.value, ".js") && decode(bytes).Some? &&
      parse(Unwrap(decode(bytes).value)).Some? && parse(Unwrap(decode(bytes).value)).value.JsonArray?
    ensures r.Ok? ==> parse(Unwrap(decode(bytes).value)) == Some(JsonArray(r.value))
    ensures r.Err? ==> r.error.status == 400
    ensures (filename.None? || !EndsWith(filename.value, ".js")) ==>
      r == Err(HttpError(400, "Please upload a .js file (tweets.js from your archive)."))
  {
    if filename.None? || filename.value == [] || !EndsWith(filename.value, ".js") then
      Err(HttpError(400, "Please upload a .js file (tweets.js from your archive)."))
    else
      match decode(bytes)
      case None => Err(HttpError(400, "File must be UTF-8 encoded."))
      case Some(content) =>
        match parse(Unwrap(content))
        case None => Err(HttpError(400, "Invalid tweets.js — JSON parse error: "))
        case Some(JsonOther) => Err(HttpError(400, "tweets.js has unexpected format — expected a JSON array."))
        case Some(JsonArray(items)) => Ok(items)
  }

  /** `upload_tweets`: a rejected upload leaves the archive file and the cache
      as they were; an accepted one replaces the file, empties the cache and
      reports how many items carry a tweet. */
  method UploadTweets(
    cache: ArchiveCache, disk: Disk,
    filename: Option<string>, bytes: seq<byte>,
    decode: seq<byte> -> Option<string>, parse: string -> Option<Json>)
    returns (r: Result<nat, HttpError>)
    modifies cache, disk
    ensures var check := CheckUpload(filename, bytes, decode, parse);
      if check.Err? then r == Err(check.error) && unchanged(cache) && unchanged(disk)
      else
        r == Ok(CountTweets(check.value)) && disk.archive == Some(bytes) && cache.tweets == None &&
        disk.filters == old(disk.filters) && disk.filterWrites == old(disk.filterWrites) && disk.credentials == old(disk.credentials)
  {
    var check := CheckUpload(filename, bytes, decode, parse);
    if check.Err? {
      return Err(check.error);
    }
    disk.WriteArchive(bytes);
    cache.Invalidate();
    r := Ok(CountTweets(check.value));
  }

  /** After an accepted upload the next load reads the new file and yields as
      many tweets as the upload reported. */
  lemma UploadThenLoad(
    filename: Option<string>, bytes: seq<byte>,
    decode: seq<byte> -> Option<string>, parse: string -> Option<Json>)
    requires CheckUpload(filename, bytes, decode, parse).Ok?
    ensures var items := CheckUpload(filename, bytes, decode, parse).value;
      Loaded(None, Some(bytes), decode, parse) == Ok(ExtractTweets(items)) &&
      |ExtractTweets(items)| == CountTweets(items)
  {
  }
}
