/** app/routes/tweets.py: listing the matching tweets a page at a time,
    match statistics, and deleting a batch of tweets. */
module TweetsRoutes {
  import opened Wrappers
  import opened Seqs
  import opened Records
  import opened Storage
  import opened State
  import opened Parser
  import opened Twitter
  import opened Http

  /** `_load_or_raise`: a missing archive is 503, any other failure 500. */
  function LoadFailure(e: LoadError): (err: HttpError)
    ensures err.status == 503 <==> e == FileMissing
    ensures err.status == 500 <==> e != FileMissing
  {
    if e == FileMissing then HttpError(503, "tweets.js not found")
    else HttpError(500, "Failed to parse tweets.js")
  }

  method LoadOrRaise(cache: ArchiveCache, disk: Disk, decode: seq<byte> -> Option<string>, parse: string -> Option<Json>)
    returns (r: Result<seq<Tweet>, HttpError>)
    modifies cache
    ensures var loaded := Loaded(old(cache.tweets), disk.archive, decode, parse);
      r == if loaded.Ok? then Ok(loaded.value) else Err(LoadFailure(loaded.error))
    ensures old(cache.tweets).Some? ==> cache.tweets == old(cache.tweets)
    ensures old(cache.tweets).None? ==>
      var loaded := ReadArchive(disk.archive, decode, parse);
      cache.tweets == if loaded.Ok? then Some(loaded.value) else None
  {
    var loaded := cache.Load(disk, decode, parse);
    if loaded.Err? {
      return Err(LoadFailure(loaded.error));
    }
    r := Ok(loaded.value);
  }

  // ---------------------------------------------------------------------------
  // Pagination

  function Min(a: int, b: int): int { if a < b then a else b }
  function Max(a: int, b: int): int { if a < b then b else a }

  /** `max(1, (total + limit - 1) // limit)`: the number of pages, at least
      one, and the least number of pages of `limit` that hold `total`. */
  function PageCount(total: nat, limit: nat): (pages: nat)
    requires limit >= 1
    ensures pages >= 1
    ensures total == 0 ==> pages == 1
    ensures total > 0 ==> (pages - 1) * limit < total <= pages * limit
  {
    var q := (total + limit - 1) / limit;
    var rem := (total + limit - 1) % limit;
    assert total + limit - 1 == q * limit + rem && 0 <= rem < limit;
    assert (q - 1) * limit == q * limit - limit;
    Max(1, q)
  }

  /** `(page - 1) * limit`: where the page starts in the list. */
  function PageStart(page: nat, limit: nat): nat
    requires page >= 1
  {
    (page - 1) * limit
  }

  /** `matched[start : start + limit]` with `start = (page - 1) * limit`: the
      page's part of the list, never longer than `limit`. */
  function PageSlice<T>(s: seq<T>, page: nat, limit: nat): (r: seq<T>)
    requires page >= 1 && limit >= 1
    ensures |r| == Min(limit, Max(0, |s| - PageStart(page, limit)))
    ensures forall k :: 0 <= k < |r| ==> r[k] == s[PageStart(page, limit) + k]
  {
    var start := PageStart(page, limit);
    if start >= |s| then [] else s[start..Min(start + limit, |s|)]
  }

  /** Every element of the list is on exactly the page its position says,
      and that page exists. */
  lemma EveryMatchOnItsPage<T>(s: seq<T>, limit: nat, i: nat)
    requires limit >= 1 && i < |s|
    ensures var page := i / limit + 1;
      page <= PageCount(|s|, limit) &&
      i % limit < |PageSlice(s, page, limit)| &&
      PageSlice(s, page, limit)[i % limit] == s[i]
  {
    var q, rem := i / limit, i % limit;
    assert i == q * limit + rem && 0 <= rem < limit;
    var pages := PageCount(|s|, limit);
    assert (q + 1 - 1) * limit == q * limit;
    if q + 1 > pages {
      assert pages * limit <= q * limit by {
        assert q >= pages;
        MulMonotone(pages, q, limit);
      }
      assert false;
    }
  }

  lemma MulMonotone(a: nat, b: nat, c: nat)
    requires a <= b
    ensures a * c <= b * c
  {
    assert b * c == a * c + (b - a) * c;
  }

  /** Page 1 of 120 matches with limit 50 holds 50 of them, and there are 3
      pages; the last page holds the remaining 20. */
  lemma ExamplePagination<T>(s: seq<T>)
    requires |s| == 120
    ensures PageCount(|s|, 50) == 3
    ensures |PageSlice(s, 1, 50)| == 50 && |PageSlice(s, 3, 50)| == 20
    ensures PageSlice(s, 4, 50) == []
  {
  }

  datatype TweetsPage = TweetsPage(total: nat, page: nat, limit: nat, pages: nat, tweets: seq<TweetView>)

  /** `[format_tweet(t, sites, kws) for t, sites, kws in page_slice]`; `None`
      when some tweet lacks an id and the comprehension fails. */
  function FormatAll(ms: seq<Match>): Option<seq<TweetView>> {
    if ms == [] then Some([])
    else
      match (FormatTweet(ms[0].tweet, ms[0].sites, ms[0].keywords), FormatAll(ms[1..]))
      case (Some(first), Some(rest)) => Some([first] + rest)
      case _ => None
  }

  /** Formatting the page fails exactly when some record on it has no id. */
  lemma {:induction false} FormatAllFails(ms: seq<Match>)
    ensures FormatAll(ms).Some? <==> forall k :: 0 <= k < |ms| ==> ms[k].tweet.idStr.Some?
  {
    if ms != [] {
      FormatAllFails(ms[1..]);
      assert forall k :: 0 < k < |ms| ==> ms[k] == ms[1..][k - 1];
    }
  }

  /** The page is formatted record by record, in order, and formatting fails
      exactly when some record on the page has no id. */
  lemma {:induction false} FormatAllSpec(ms: seq<Match>)
    ensures FormatAll(ms).Some? <==> forall k :: 0 <= k < |ms| ==> ms[k].tweet.idStr.Some?
    ensures FormatAll(ms).Some? ==> |FormatAll(ms).value| == |ms|
    ensures FormatAll(ms).Some? ==>
      forall k :: 0 <= k < |ms| ==> Some(FormatAll(ms).value[k]) == FormatTweet(ms[k].tweet, ms[k].sites, ms[k].keywords)
  {
    FormatAllFails(ms);
    if ms != [] && FormatAll(ms).Some? {
      FormatAllSpec(ms[1..]);
      var v := FormatAll(ms).value;
      assert v[1..] == FormatAll(ms[1..]).value;
      forall k | 0 < k < |ms|
        ensures Some(v[k]) == FormatTweet(ms[k].tweet, ms[k].sites, ms[k].keywords)
      {
        assert ms[k] == ms[1..][k - 1] && v[k] == v[1..][k - 1];
      }
    }
  }


  /** `get_tweets`: load, filter with the session's patterns and deleted
      ids, and answer one page. `page` and `limit` are bounded by the route's
      query validation. */
  method GetTweets(
    cache: ArchiveCache, st: AppState, disk: Disk,
    decode: seq<byte> -> Option<string>, parse: string -> Option<Json>,
    page: nat, limit: nat, search: Option<string>)
    returns (r: Result<TweetsPage, HttpError>)
    requires page >= 1 && 1 <= limit <= 200
    modifies cache
    ensures var loaded := Loaded(old(cache.tweets), disk.archive, decode, parse);
      if loaded.Err? then r == Err(LoadFailure(loaded.error))
      else
        var matched := Selection(loaded.value, st.sitePatterns, st.keywords, st.deletedIds, search.GetOr(""));
        var views := FormatAll(PageSlice(matched, page, limit));
        r == if views.None? then Err(HttpError(500, "Internal Server Error"))
             else Ok(TweetsPage(|matched|, page, limit, PageCount(|matched|, limit), views.value))
    ensures old(cache.tweets).Some? ==> cache.tweets == old(cache.tweets)
    ensures old(cache.tweets).None? ==>
      var loaded := ReadArchive(disk.archive, decode, parse);
      cache.tweets == if loaded.Ok? then Some(loaded.value) else None
  {
    var all := LoadOrRaise(cache, disk, decode, parse);
    if all.Err? {
      return Err(all.error);
    }
    var matched := FilterTweets(all.value, st.sitePatterns, st.keywords, st.deletedIds, search.GetOr(""));
    var total := |matched|;
    var slice := PageSlice(matched, page, limit);
    var views := FormatAll(slice);
    if views.None? {
      return Err(HttpError(500, "Internal Server Error"));
    }
    r := Ok(TweetsPage(total, page, limit, PageCount(total, limit), views.value));
  }

  // ---------------------------------------------------------------------------
  // Statistics

  datatype Stats = Stats(
    totalInArchive: nat,
    matched: nat,
    deletedThisSession: nat,
    bySite: map<string, nat>,
    byKeyword: map<string, nat>)

  /** Total number of occurrences of `x` over all the lists. */
  function Tally(lists: seq<seq<string>>, x: string): nat {
    if lists == [] then 0 else Count(lists[0], x) + Tally(lists[1..], x)
  }

  lemma {:induction false} TallyAppend(a: seq<seq<string>>, b: seq<seq<string>>, x: string)
    ensures Tally(a + b, x) == Tally(a, x) + Tally(b, x)
  {
    if a == [] {
      assert a + b == b;
    } else {
      assert (a + b)[1..] == a[1..] + b;
      TallyAppend(a[1..], b, x);
    }
  }

  function SitesOf(ms: seq<Match>): seq<seq<string>> {
    seq(|ms|, i requires 0 <= i < |ms| => ms[i].sites)
  }

  function KeywordsOf(ms: seq<Match>): seq<seq<string>> {
    seq(|ms|, i requires 0 <= i < |ms| => ms[i].keywords)
  }

  /** A tally holds `x` exactly when it occurs, with its number of
      occurrences. */
  ghost predicate TalliedBy(counts: map<string, nat>, lists: seq<seq<string>>) {
    forall x :: (x in counts <==> Tally(lists, x) > 0) && (x in counts ==> counts[x] == Tally(lists, x))
  }

  /** Counting one more element of the list. */
  lemma CountStep(xs: seq<string>, j: nat, y: string)
    requires j < |xs|
    ensures Count(xs[..j + 1], y) == Count(xs[..j], y) + (if y == xs[j] then 1 else 0)
  {
    assert xs[..j + 1] == xs[..j] + [xs[j]];
    CountAppend(xs[..j], [xs[j]], y);
  }

  /** One inner loop of `get_stats`: `counts[x] = counts.get(x, 0) + 1` for
      every `x` of the list. */
  method CountInto(counts: map<string, nat>, xs: seq<string>) returns (out: map<string, nat>)
    ensures forall x :: x in out <==> x in counts || x in xs
    ensures forall x :: x in out ==> out[x] == (if x in counts then counts[x] else 0) + Count(xs, x)
  {
    out := counts;
    var j := 0;
    while j < |xs|
      invariant 0 <= j <= |xs|
      invariant forall x :: x in out <==> x in counts || x in xs[..j]
      invariant forall x :: x in out ==> out[x] == (if x in counts then counts[x] else 0) + Count(xs[..j], x)
    {
      var x := xs[j];
      var prev := out;
      out := prev[x := (if x in prev then prev[x] else 0) + 1];
      forall y
        ensures y in out <==> y in counts || y in xs[..j + 1]
      {
        assert xs[..j + 1] == xs[..j] + [x];
      }
      forall y | y in out
        ensures out[y] == (if y in counts then counts[y] else 0) + Count(xs[..j + 1], y)
      {
        CountStep(xs, j, y);
        if y != x {
          assert out[y] == prev[y];
        }
      }
      j := j + 1;
    }
    assert xs[..j] == xs;
  }

  /** The loop of `get_stats` over the matches: per site pattern and per
      keyword, the number of times it was matched. */
  method CountMatches(matched: seq<Match>) returns (bySite: map<string, nat>, byKeyword: map<string, nat>)
    ensures TalliedBy(bySite, SitesOf(matched))
    ensures TalliedBy(byKeyword, KeywordsOf(matched))
  {
    bySite, byKeyword := map[], map[];
    var i := 0;
    while i < |matched|
      invariant 0 <= i <= |matched|
      invariant TalliedBy(bySite, SitesOf(matched[..i]))
      invariant TalliedBy(byKeyword, KeywordsOf(matched[..i]))
    {
      var m := matched[i];
      assert SitesOf(matched[..i + 1]) == SitesOf(matched[..i]) + [m.sites];
      assert KeywordsOf(matched[..i + 1]) == KeywordsOf(matched[..i]) + [m.keywords];
      forall x ensures Tally(SitesOf(matched[..i + 1]), x) == Tally(SitesOf(matched[..i]), x) + Count(m.sites, x)
                    && Tally(KeywordsOf(matched[..i + 1]), x) == Tally(KeywordsOf(matched[..i]), x) + Count(m.keywords, x)
      {
        TallyAppend(SitesOf(matched[..i]), [m.sites], x);
        TallyAppend(KeywordsOf(matched[..i]), [m.keywords], x);
      }
      bySite := CountInto(bySite, m.sites);
      byKeyword := CountInto(byKeyword, m.keywords);
      i := i + 1;
    }
    assert matched[..i] == matched;
  }

  /** With a duplicate-free list of site patterns, a site's count is the
      number of matched tweets whose matched sites contain it. */
  lemma {:induction false} SiteCountIsTweetCount(ms: seq<Match>, x: string)
    requires forall m :: m in ms ==> NoDup(m.sites)
    ensures Tally(SitesOf(ms), x) == |Filter(ms, (m: Match) => x in m.sites)|
  {
    if ms != [] {
      CountNoDup(ms[0].sites, x);
      assert SitesOf(ms)[1..] == SitesOf(ms[1..]);
      SiteCountIsTweetCount(ms[1..], x);
    }
  }

  /** The matches of the filtering pass never repeat a site pattern when the
      session's list does not, and there are never more of them than tweets in
      the archive. */
  lemma SelectionBounds(all: seq<Tweet>, sitePatterns: seq<string>, keywords: seq<string>, deletedIds: set<string>)
    requires NoDup(sitePatterns)
    ensures var ms := Selection(all, sitePatterns, keywords, deletedIds, "");
      |ms| <= |all| && forall m :: m in ms ==> NoDup(m.sites)
  {
    var ms := Selection(all, sitePatterns, keywords, deletedIds, "");
    SelectionSpec(all, sitePatterns, keywords, deletedIds, "");
    forall m | m in ms ensures NoDup(m.sites) {
      SubseqNoDup(m.sites, sitePatterns);
    }
  }

  /** `get_stats`. */
  method GetStats(
    cache: ArchiveCache, st: AppState, disk: Disk,
    decode: seq<byte> -> Option<string>, parse: string -> Option<Json>)
    returns (r: Result<Stats, HttpError>)
    modifies cache
    ensures var loaded := Loaded(old(cache.tweets), disk.archive, decode, parse);
      if loaded.Err? then r == Err(LoadFailure(loaded.error))
      else
        var matched := Selection(loaded.value, st.sitePatterns, st.keywords, st.deletedIds, "");
        r.Ok? && r.value.totalInArchive == |loaded.value| && r.value.matched == |matched| &&
        r.value.matched <= r.value.totalInArchive &&
        r.value.deletedThisSession == |st.deletedIds| &&
        TalliedBy(r.value.bySite, SitesOf(matched)) && TalliedBy(r.value.byKeyword, KeywordsOf(matched))
    ensures st.Valid() && r.Ok? ==>
      var matched := Selection(Loaded(old(cache.tweets), disk.archive, decode, parse).value,
                               st.sitePatterns, st.keywords, st.deletedIds, "");
      forall x :: x in r.value.bySite ==> r.value.bySite[x] == |Filter(matched, (m: Match) => x in m.sites)|
    ensures old(cache.tweets).Some? ==> cache.tweets == old(cache.tweets)
    ensures old(cache.tweets).None? ==>
      var loaded := ReadArchive(disk.archive, decode, parse);
      cache.tweets == if loaded.Ok? then Some(loaded.value) else None
  {
    var all := LoadOrRaise(cache, disk, decode, parse);
    if all.Err? {
      return Err(all.error);
    }
    var matched := FilterTweets(all.value, st.sitePatterns, st.keywords, st.deletedIds, "");
    var bySite, byKeyword := CountMatches(matched);
    r := Ok(Stats(|all.value|, |matched|, |st.deletedIds|, bySite, byKeyword));
    if st.Valid() {
      SelectionBounds(all.value, st.sitePatterns, st.keywords, st.deletedIds);
      forall x | x in bySite
        ensures bySite[x] == |Filter(matched, (m: Match) => x in m.sites)|
      {
        SiteCountIsTweetCount(matched, x);
      }
    }
  }

  // ---------------------------------------------------------------------------
  // Batch delete

  datatype Failure = Failure(id: string, error: string)
  datatype BatchResult = BatchResult(deleted: seq<string>, failed: seq<Failure>)

  /** What happened to one id of the batch. */
  datatype Verdict = Removed(id: string) | Rejected(id: string, error: string)

  /** The `try` around `delete_tweet`: success, the `ValueError` message, or
      "Unexpected error: " and the text of anything else. */
  function Judge(id: string, result: DeleteResult): (v: Verdict)
    ensures v.id == id
    ensures v.Removed? <==> result.Deleted?
    ensures result.ValueError? ==> v == Rejected(id, result.message)
    ensures result.Uncaught? ==> v == Rejected(id, "Unexpected error: " + result.text)
  {
    match result
    case Deleted => Removed(id)
    case ValueError(message) => Rejected(id, message)
    case Uncaught(text) => Rejected(id, "Unexpected error: " + text)
  }

  /** The verdict for each id in request order; `platform(i, id)` is the
      platform's answer to the `i`-th call. */
  function Verdicts(ids: seq<string>, keys: Keys, platform: (nat, string) -> ApiOutcome): (vs: seq<Verdict>)
    ensures |vs| == |ids| && forall i :: 0 <= i < |ids| ==> vs[i].id == ids[i]
  {
    var vs := seq(|ids|, i requires 0 <= i < |ids| => Judge(ids[i], DeleteTweet(true, keys, platform(i, ids[i]))));
    assert forall i :: 0 <= i < |ids| ==> vs[i] == Judge(ids[i], DeleteTweet(true, keys, platform(i, ids[i])));
    vs
  }

  /** The ids that were deleted, in request order. */
  function RemovedIds(vs: seq<Verdict>): seq<string> {
    if vs == [] then []
    else RemovedIds(vs[..|vs| - 1]) + (if vs[|vs| - 1].Removed? then [vs[|vs| - 1].id] else [])
  }

  /** The ids that failed, with their errors, in request order. */
  function Failures(vs: seq<Verdict>): seq<Failure> {
    if vs == [] then []
    else
      var v := vs[|vs| - 1];
      Failures(vs[..|vs| - 1]) + (if v.Rejected? then [Failure(v.id, v.error)] else [])
  }

  function FailedIds(fs: seq<Failure>): seq<string> {
    seq(|fs|, i requires 0 <= i < |fs| => fs[i].id)
  }

  function IdsOf(vs: seq<Verdict>): seq<string> {
    seq(|vs|, i requires 0 <= i < |vs| => vs[i].id)
  }

  /** Every requested id lands exactly once in `deleted` or `failed`. */
  lemma {:induction false} BatchPartition(vs: seq<Verdict>)
    ensures multiset(RemovedIds(vs)) + multiset(FailedIds(Failures(vs))) == multiset(IdsOf(vs))
    ensures |RemovedIds(vs)| + |Failures(vs)| == |vs|
  {
    if vs != [] {
      var init, v := vs[..|vs| - 1], vs[|vs| - 1];
      BatchPartition(init);
      IdsOfSnoc(init, v);
      assert vs == init + [v];
      if v.Rejected? {
        assert RemovedIds(vs) == RemovedIds(init);
        assert Failures(vs) == Failures(init) + [Failure(v.id, v.error)];
        FailedIdsSnoc(Failures(init), Failure(v.id, v.error));
      } else {
        assert RemovedIds(vs) == RemovedIds(init) + [v.id];
        assert Failures(vs) == Failures(init);
      }
    }
  }

  /** Both lists of the answer keep the request order. */
  lemma {:induction false} BatchInOrder(vs: seq<Verdict>)
    ensures IsSubseq(RemovedIds(vs), IdsOf(vs))
    ensures IsSubseq(FailedIds(Failures(vs)), IdsOf(vs))
  {
    if vs != [] {
      var init, v := vs[..|vs| - 1], vs[|vs| - 1];
      BatchInOrder(init);
      IdsOfSnoc(init, v);
      assert vs == init + [v];
      SubseqSnoc(RemovedIds(init), IdsOf(init), v.id);
      SubseqSnoc(FailedIds(Failures(init)), IdsOf(init), v.id);
      if v.Rejected? {
        assert RemovedIds(vs) == RemovedIds(init);
        assert Failures(vs) == Failures(init) + [Failure(v.id, v.error)];
        FailedIdsSnoc(Failures(init), Failure(v.id, v.error));
      } else {
        assert RemovedIds(vs) == RemovedIds(init) + [v.id];
        assert Failures(vs) == Failures(init);
      }
    }
  }

  lemma IdsOfSnoc(vs: seq<Verdict>, v: Verdict)
    ensures IdsOf(vs + [v]) == IdsOf(vs) + [v.id]
  {
  }

  lemma FailedIdsSnoc(fs: seq<Failure>, f: Failure)
    ensures FailedIds(fs + [f]) == FailedIds(fs) + [f.id]
  {
  }

  /** When the platform answers every call with success or "not found" (the
      tweet is already gone), every id is reported deleted and none failed:
      repeating a batch is harmless. */
  lemma {:induction false} BatchAllGone(ids: seq<string>, keys: Keys, platform: (nat, string) -> ApiOutcome)
    requires forall i :: 0 <= i < |ids| ==> platform(i, ids[i]).Destroyed? || platform(i, ids[i]).NotFound?
    ensures RemovedIds(Verdicts(ids, keys, platform)) == ids
    ensures Failures(Verdicts(ids, keys, platform)) == []
  {
    if ids != [] {
      var init := ids[..|ids| - 1];
      assert Verdicts(ids, keys, platform)[..|ids| - 1] == Verdicts(init, keys, platform);
      BatchAllGone(init, keys, platform);
      assert ids == init + [ids[|ids| - 1]];
    }
  }

  /** Appending the verdict for the `i`-th id to those before it. */
  lemma VerdictStep(ids: seq<string>, keys: Keys, platform: (nat, string) -> ApiOutcome, i: nat)
    requires i < |ids|
    ensures var vs := Verdicts(ids, keys, platform);
      var result := DeleteTweet(true, keys, platform(i, ids[i]));
      RemovedIds(vs[..i + 1]) == RemovedIds(vs[..i]) + (if result.Deleted? then [ids[i]] else []) &&
      Failures(vs[..i + 1]) == Failures(vs[..i]) +
        match result
        case Deleted => []
        case ValueError(message) => [Failure(ids[i], message)]
        case Uncaught(text) => [Failure(ids[i], "Unexpected error: " + text)]
  {
    var vs := Verdicts(ids, keys, platform);
    assert vs[..i + 1][..i] == vs[..i];
    assert vs[i] == Judge(ids[i], DeleteTweet(true, keys, platform(i, ids[i])));
  }

  /** The ids of a list, as a set. */
  function IdSet(ids: seq<string>): set<string> {
    set id | id in ids
  }

  lemma IdSetSnoc(ids: seq<string>, id: string)
    ensures IdSet(ids + [id]) == IdSet(ids) + {id}
  {
  }

  /** `state.deleted_ids.add(tid)`. */
  method MarkDeleted(st: AppState, id: string)
    modifies st
    ensures st.deletedIds == old(st.deletedIds) + {id}
    ensures st.authenticated == old(st.authenticated)
    ensures st.sitePatterns == old(st.sitePatterns) && st.keywords == old(st.keywords)
    ensures st.consumerKey == old(st.consumerKey) && st.consumerSecret == old(st.consumerSecret)
    ensures st.accessToken == old(st.accessToken) && st.accessTokenSecret == old(st.accessTokenSecret)
  {
    st.deletedIds := st.deletedIds + {id};
  }

  /** `delete_tweets`: refused without authentication or without ids;
      otherwise every id is attempted in order, one failure does not stop the
      rest, and the deleted ones join the session's deleted ids. */
  method DeleteTweets(st: AppState, ids: seq<string>, platform: (nat, string) -> ApiOutcome)
    returns (r: Result<BatchResult, HttpError>)
    modifies st
    ensures !old(st.authenticated) ==>
      r == Err(HttpError(401, "Not authenticated — connect your credentials first.")) && unchanged(st)
    ensures old(st.authenticated) && ids == [] ==>
      r == Err(HttpError(400, "No tweet IDs provided.")) && unchanged(st)
    ensures old(st.authenticated) && ids != [] ==>
      var vs := Verdicts(ids, Keys(st.consumerKey, st.consumerSecret, st.accessToken, st.accessTokenSecret), platform);
      r == Ok(BatchResult(RemovedIds(vs), Failures(vs))) &&
      st.deletedIds == old(st.deletedIds) + set id | id in RemovedIds(vs)
    ensures st.authenticated == old(st.authenticated) && st.sitePatterns == old(st.sitePatterns) && st.keywords == old(st.keywords)
    ensures st.consumerKey == old(st.consumerKey) && st.consumerSecret == old(st.consumerSecret)
    ensures st.accessToken == old(st.accessToken) && st.accessTokenSecret == old(st.accessTokenSecret)
  {
    if !st.authenticated {
      return Err(HttpError(401, "Not authenticated — connect your credentials first."));
    }
    if ids == [] {
      return Err(HttpError(400, "No tweet IDs provided."));
    }
    var keys := Keys(st.consumerKey, st.consumerSecret, st.accessToken, st.accessTokenSecret);
    ghost var vs := Verdicts(ids, keys, platform);
    var deleted: seq<string> := [];
    var failed: seq<Failure> := [];
    var i := 0;
    while i < |ids|
      invariant 0 <= i <= |ids|
      invariant deleted == RemovedIds(vs[..i]) && failed == Failures(vs[..i])
      invariant st.deletedIds == old(st.deletedIds) + IdSet(deleted)
      invariant st.authenticated && st.sitePatterns == old(st.sitePatterns) && st.keywords == old(st.keywords)
      invariant st.consumerKey == old(st.consumerKey) && st.consumerSecret == old(st.consumerSecret)
      invariant st.accessToken == old(st.accessToken) && st.accessTokenSecret == old(st.accessTokenSecret)
    {
      var id := ids[i];
      var result := DeleteTweet(st.authenticated, keys, platform(i, id));
      VerdictStep(ids, keys, platform, i);
      match result {
        case Deleted =>
          MarkDeleted(st, id);
          IdSetSnoc(deleted, id);
          deleted := deleted + [id];
        case ValueError(message) =>
          failed := failed + [Failure(id, message)];
        case Uncaught(text) =>
          failed := failed + [Failure(id, "Unexpected error: " + text)];
      }
      i := i + 1;
    }
    assert vs[..i] == vs;
    r := Ok(BatchResult(deleted, failed));
  }
}
