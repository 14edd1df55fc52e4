/** app/parser.py: loading the archive into a single-slot cache, matching a
    tweet against the site patterns and keywords, the filtering pass, and the
    reshaping of a tweet for the response. */
module Parser {
  import opened Wrappers
  import opened Seqs
  import opened Text
  import opened Records
  import opened Storage

  // ---------------------------------------------------------------------------
  // Loading

  /** Why loading the archive failed: the file does not exist, it could not be
      read as UTF-8 text, it is not JSON, or its top level is not an array. */
  datatype LoadError = FileMissing | ReadFailed | InvalidJson | NotAnArray

  /** The fixed start of the assignment that wraps an exported array. */
  const WrapperHead: string := "window.YTD.tweets."

  /** Length of the longest prefix of `s` made of word characters: what the
      greedy `\w+` consumes. */
  function WordRun(s: string): (n: nat)
    ensures n <= |s|
    ensures n == |s| || !IsWordChar(s[n])
  {
    if s != [] && IsWordChar(s[0]) then 1 + WordRun(s[1..]) else 0
  }

  /** Everything the word run consumes is a word character. */
  lemma {:induction false} WordRunIsWord(s: string)
    ensures forall i :: 0 <= i < WordRun(s) ==> IsWordChar(s[i])
  {
    if s != [] && IsWordChar(s[0]) {
      WordRunIsWord(s[1..]);
      forall i | 0 < i < WordRun(s) ensures IsWordChar(s[i]) {
        assert s[i] == s[1..][i - 1];
      }
    }
  }

  /** Length of the match of `^window\.YTD\.tweets\.\w+\s*=\s*` at the start
      of `s`, or 0 when there is none. The classes `\w`, `\s` and `=` are
      disjoint, so the greedy match never needs to backtrack, and `^` anchors
      the only possible match at the start. */
  function WrapperLength(s: string): (n: nat)
    ensures n <= |s|
    ensures n > 0 ==> StartsWith(s, WrapperHead)
  {
    if !StartsWith(s, WrapperHead) then 0
    else
      var w := WordRun(s[|WrapperHead|..]);
      if w == 0 then 0 else AssignmentLength(s, |WrapperHead| + w)
  }

  /** The rest of the match once the part name ends at `nameEnd`: `\s*=\s*`,
      or 0 when the `=` is missing. */
  function AssignmentLength(s: string, nameEnd: nat): (n: nat)
    requires nameEnd <= |s|
    ensures n <= |s|
  {
    var eq := nameEnd + LeadingSpace(s[nameEnd..]);
    if eq < |s| && s[eq] == '=' then eq + 1 + LeadingSpace(s[eq + 1..]) else 0
  }

  /** The substitution of the wrapper pattern by "": when `s` starts with
      the assignment, what follows it; otherwise `s` itself. */
  function StripWrapper(s: string): (r: string)
    ensures |r| <= |s| && r == s[|s| - |r|..]
    ensures !StartsWith(s, WrapperHead) ==> r == s
  {
    s[WrapperLength(s)..]
  }

  /** The wrapper strip undoes the assignment an export is written as: any
      part name, any whitespace around `=`, and a body that does not itself
      start with whitespace. */
  lemma StripWrapperRemovesAssignment(name: string, before: string, after: string, body: string)
    requires name != [] && forall i :: 0 <= i < |name| ==> IsWordChar(name[i])
    requires AllSpace(before) && AllSpace(after)
    requires body == [] || !IsSpace(body[0])
    ensures StripWrapper(WrapperHead + name + before + "=" + after + body) == body
  {
    var rest := after + body;
    var s := WrapperHead + (name + (before + ("=" + rest)));
    AssignmentText(name, before, after, body);
    var nameEnd := |WrapperHead| + |name|;
    var eq := nameEnd + |before|;
    AssignmentHead(s, name, before, rest);
    AssignmentSpaces(s, eq + 1, after, body);
    WrapperMatch(s, nameEnd, eq, eq + 1 + |after|);
  }

  /** The assignment written with its parts grouped from the right. */
  lemma AssignmentText(name: string, before: string, after: string, body: string)
    ensures WrapperHead + (name + (before + ("=" + (after + body))))
         == WrapperHead + name + before + "=" + after + body
  {
  }

  /** Everything up to and including the `=`: the head, a part name that is
      the word run after it, the whitespace before `=`, and `=` itself. */
  lemma AssignmentHead(s: string, name: string, before: string, rest: string)
    requires name != [] && forall i :: 0 <= i < |name| ==> IsWordChar(name[i])
    requires AllSpace(before)
    requires s == WrapperHead + (name + (before + ("=" + rest)))
    ensures StartsWith(s, WrapperHead)
    ensures WordRun(s[|WrapperHead|..]) == |name|
    ensures LeadingSpace(s[|WrapperHead| + |name|..]) == |before|
    ensures |WrapperHead| + |name| + |before| < |s|
    ensures s[|WrapperHead| + |name| + |before|] == '='
    ensures s[|WrapperHead| + |name| + |before| + 1..] == rest
  {
    var nameEnd := |WrapperHead| + |name|;
    var tail := before + ("=" + rest);
    assert tail[0] == if before == [] then '=' else before[0];
    assert s == WrapperHead + name + tail;
    AssignmentName(s, name, tail);
    AssignmentSpaces(s, nameEnd, before, "=" + rest);
    assert s[nameEnd + |before|..] == "=" + rest;
    AssignmentEquals(s, nameEnd + |before|, rest);
  }

  /** In an assignment, the part name is the word run after the head. */
  lemma AssignmentName(s: string, name: string, tail: string)
    requires forall i :: 0 <= i < |name| ==> IsWordChar(name[i])
    requires tail != [] && (tail[0] == '=' || IsSpace(tail[0]))
    requires s == WrapperHead + name + tail
    ensures StartsWith(s, WrapperHead)
    ensures WordRun(s[|WrapperHead|..]) == |name|
    ensures s[|WrapperHead| + |name|..] == tail
  {
    assert s[|WrapperHead|..] == name + tail;
    WordRunStops(name, tail);
  }

  /** A run of whitespace at position `at` of `s`, followed by `rest`. */
  lemma AssignmentSpaces(s: string, at: nat, spaces: string, rest: string)
    requires AllSpace(spaces) && (rest == [] || !IsSpace(rest[0]))
    requires at <= |s| && s[at..] == spaces + rest
    ensures LeadingSpace(s[at..]) == |spaces|
    ensures s[at + |spaces|..] == rest
  {
    LeadingSpaceSkips(spaces, rest);
    assert s[at + |spaces|..] == s[at..][|spaces|..];
  }

  /** The `=` at position `at` of `s`, followed by `rest`. */
  lemma AssignmentEquals(s: string, at: nat, rest: string)
    requires at <= |s| && s[at..] == "=" + rest
    ensures at < |s| && s[at] == '=' && s[at + 1..] == rest
  {
    assert s[at] == s[at..][0];
    assert s[at + 1..] == s[at..][1..];
  }

  /** The wrapper match found from the positions where the part name ends,
      where `=` stands and where the whitespace after it ends. */
  lemma WrapperMatch(s: string, nameEnd: nat, eq: nat, n: nat)
    requires StartsWith(s, WrapperHead) && |WrapperHead| < nameEnd <= eq < |s|
    requires WordRun(s[|WrapperHead|..]) == nameEnd - |WrapperHead|
    requires LeadingSpace(s[nameEnd..]) == eq - nameEnd
    requires s[eq] == '='
    requires n == eq + 1 + LeadingSpace(s[eq + 1..])
    ensures WrapperLength(s) == n
  {
    assert AssignmentLength(s, nameEnd) == n;
  }

  lemma {:induction false} WordRunStops(w: string, tail: string)
    requires forall i :: 0 <= i < |w| ==> IsWordChar(w[i])
    requires tail == [] || !IsWordChar(tail[0])
    ensures WordRun(w + tail) == |w|
  {
    if w != [] {
      assert (w + tail)[1..] == w[1..] + tail;
      WordRunStops(w[1..], tail);
    } else {
      assert w + tail == tail;
    }
  }

  /** The text handed to the JSON parser: the file content, stripped, with the
      assignment wrapper removed. */
  function Unwrap(content: string): string {
    StripWrapper(Strip(content))
  }

  /** `"tweet" in item`. */
  predicate HasTweet(item: RawItem) {
    item.tweet.Some?
  }

  /** `sum(1 for item in data if "tweet" in item)`. */
  function CountTweets(items: seq<RawItem>): (n: nat)
    ensures n <= |items|
  {
    if items == [] then 0 else (if HasTweet(items[0]) then 1 else 0) + CountTweets(items[1..])
  }

  /** `[item["tweet"] for item in raw if "tweet" in item]`: the inner records,
      one for each item that has one, and nothing else. */
  function ExtractTweets(items: seq<RawItem>): (r: seq<Tweet>)
    ensures |r| == CountTweets(items)
    ensures forall t :: t in r <==> exists i :: 0 <= i < |items| && items[i].tweet == Some(t)
  {
    if items == [] then []
    else
      var rest := ExtractTweets(items[1..]);
      assert forall i :: 0 < i < |items| ==> items[i] == items[1..][i - 1];
      assert forall i :: 0 <= i < |items| - 1 ==> items[1..][i] == items[i + 1];
      if HasTweet(items[0]) then [items[0].tweet.value] + rest else rest
  }

  /** Extraction keeps the order of the items. */
  lemma {:induction false} ExtractTweetsAppend(a: seq<RawItem>, b: seq<RawItem>)
    ensures ExtractTweets(a + b) == ExtractTweets(a) + ExtractTweets(b)
  {
    if a == [] {
      assert a + b == b;
    } else {
      assert (a + b)[1..] == a[1..] + b;
      ExtractTweetsAppend(a[1..], b);
    }
  }

  /** The uncached part of `load_tweets`: read `tweets.js`, strip it, remove
      the wrapper, parse it and extract the inner records. Decoding and
      parsing are supplied by the caller. */
  function ReadArchive(
    file: Option<seq<byte>>,
    decode: seq<byte> -> Option<string>,
    parse: string -> Option<Json>): Result<seq<Tweet>, LoadError>
  {
    match file
    case None => Err(FileMissing)
    case Some(bytes) =>
      match decode(bytes)
      case None => Err(ReadFailed)
      case Some(content) =>
        match parse(Unwrap(content))
        case None => Err(InvalidJson)
        case Some(JsonOther) => Err(NotAnArray)
        case Some(JsonArray(items)) => Ok(ExtractTweets(items))
  }

  /** Each failure of a read names the first stage that went wrong. */
  lemma ReadArchiveFailures(file: Option<seq<byte>>, decode: seq<byte> -> Option<string>, parse: string -> Option<Json>)
    ensures var r := ReadArchive(file, decode, parse);
      (r == Err(FileMissing) <==> file.None?) &&
      (r == Err(ReadFailed) <==> file.Some? && decode(file.value).None?) &&
      (r == Err(InvalidJson) <==>
         file.Some? && decode(file.value).Some? && parse(Unwrap(decode(file.value).value)).None?) &&
      (r == Err(NotAnArray) <==>
         file.Some? && decode(file.value).Some? && parse(Unwrap(decode(file.value).value)) == Some(JsonOther))
  {
    var r := ReadArchive(file, decode, parse);
    match file {
      case None =>
        assert r == Err(FileMissing);
      case Some(bytes) =>
        match decode(bytes) {
          case None =>
            assert r == Err(ReadFailed);
          case Some(content) =>
            match parse(Unwrap(content)) {
              case None =>
                assert r == Err(InvalidJson);
              case Some(j) =>
                assert r.Ok? || r == Err(NotAnArray);
            }
        }
    }
  }

  /** A read succeeds exactly when every stage does, and then returns the
      tweets of the parsed array, one per item that carries one. */
  lemma ReadArchiveSuccess(file: Option<seq<byte>>, decode: seq<byte> -> Option<string>, parse: string -> Option<Json>)
    ensures var r := ReadArchive(file, decode, parse);
      r.Ok? <==>
        file.Some? && decode(file.value).Some? && parse(Unwrap(decode(file.value).value)).Some? &&
        parse(Unwrap(decode(file.value).value)).value.JsonArray?
    ensures var r := ReadArchive(file, decode, parse);
      r.Ok? ==>
        var items := parse(Unwrap(decode(file.value).value)).value.items;
        r.value == ExtractTweets(items) && |r.value| == CountTweets(items)
  {
    match file {
      case None =>
      case Some(bytes) =>
        match decode(bytes) {
          case None =>
          case Some(content) =>
            match parse(Unwrap(content)) {
              case None =>
              case Some(j) =>
            }
        }
    }
  }

  /** What `load_tweets` returns given the state of the cache and the file. */
  function Loaded(
    cached: Option<seq<Tweet>>,
    file: Option<seq<byte>>,
    decode: seq<byte> -> Option<string>,
    parse: string -> Option<Json>): Result<seq<Tweet>, LoadError>
  {
    if cached.Some? then Ok(cached.value) else ReadArchive(file, decode, parse)
  }

  /** The module-global `_tweets_cache`. */
  class ArchiveCache {
    var tweets: Option<seq<Tweet>>

    constructor ()
      ensures tweets == None
    {
      tweets := None;
    }

    /** `invalidate_cache()`. */
    method Invalidate()
      modifies this
      ensures tweets == None
    {
      tweets := None;
    }

    /** `load_tweets()`: the cached list while there is one; otherwise the
        archive is read, and a successful read fills the cache. A failed read
        leaves the cache empty. */
    method Load(disk: Disk, decode: seq<byte> -> Option<string>, parse: string -> Option<Json>)
      returns (r: Result<seq<Tweet>, LoadError>)
      modifies this
      ensures r == Loaded(old(tweets), disk.archive, decode, parse)
      ensures old(tweets).Some? ==> r == Ok(old(tweets).value) && tweets == old(tweets)
      ensures old(tweets).None? ==> r == ReadArchive(disk.archive, decode, parse)
      ensures old(tweets).None? ==> tweets == (if r.Ok? then Some(r.value) else None)
    {
      if tweets.Some? {
        return Ok(tweets.value);
      }
      r := ReadArchive(disk.archive, decode, parse);
      if r.Ok? {
        tweets := Some(r.value);
      }
    }
  }

  // ---------------------------------------------------------------------------
  // Matching

  /** A site pattern hits a tweet when, lower-cased, it occurs in the
      lower-cased text or in some lower-cased expanded URL. */
  predicate SiteHit(t: Tweet, pattern: string) {
    Contains(Lower(t.fullText), Lower(pattern)) ||
    exists u :: u in t.urls && Contains(Lower(u.expandedUrl), Lower(pattern))
  }

  /** A keyword hits a tweet when, lower-cased, it occurs in the lower-cased
      text. URLs are not consulted. */
  predicate KeywordHit(t: Tweet, keyword: string) {
    Contains(Lower(t.fullText), Lower(keyword))
  }

  /** `_tweet_matches`: the site patterns and the keywords that hit the tweet,
      each list in its configured order. */
  function TweetMatches(t: Tweet, sitePatterns: seq<string>, keywords: seq<string>)
    : (r: (seq<string>, seq<string>))
    ensures forall p :: p in r.0 <==> p in sitePatterns && SiteHit(t, p)
    ensures forall k :: k in r.1 <==> k in keywords && KeywordHit(t, k)
    ensures IsSubseq(r.0, sitePatterns) && IsSubseq(r.1, keywords)
  {
    FilterIsSubseq(sitePatterns, SiteTest(t));
    FilterIsSubseq(keywords, KeywordTest(t));
    (Filter(sitePatterns, SiteTest(t)), Filter(keywords, KeywordTest(t)))
  }

  function SiteTest(t: Tweet): string -> bool {
    p => SiteHit(t, p)
  }

  function KeywordTest(t: Tweet): string -> bool {
    k => KeywordHit(t, k)
  }

  /** The tweet with its text and every expanded URL upper-cased. */
  function Shout(t: Tweet): Tweet {
    t.(fullText := Upper(t.fullText),
       urls := seq(|t.urls|, i requires 0 <= i < |t.urls| =>
                     t.urls[i].(expandedUrl := Upper(t.urls[i].expandedUrl))))
  }

  /** Matching ignores case, both in the pattern and in the tweet. */
  lemma MatchingIgnoresCase(t: Tweet, pattern: string)
    ensures SiteHit(t, Upper(pattern)) == SiteHit(t, pattern)
    ensures KeywordHit(t, Upper(pattern)) == KeywordHit(t, pattern)
    ensures SiteHit(Shout(t), pattern) == SiteHit(t, pattern)
    ensures KeywordHit(Shout(t), pattern) == KeywordHit(t, pattern)
  {
    LowerForgetsCase(pattern);
    LowerForgetsCase(t.fullText);
    var s := Shout(t);
    forall u | u in t.urls
      ensures exists v :: v in s.urls && Lower(v.expandedUrl) == Lower(u.expandedUrl)
    {
      var i :| 0 <= i < |t.urls| && t.urls[i] == u;
      LowerForgetsCase(u.expandedUrl);
      assert s.urls[i] in s.urls;
    }
    forall v | v in s.urls
      ensures exists u :: u in t.urls && Lower(v.expandedUrl) == Lower(u.expandedUrl)
    {
      var i :| 0 <= i < |s.urls| && s.urls[i] == v;
      LowerForgetsCase(t.urls[i].expandedUrl);
      assert t.urls[i] in t.urls;
    }
  }

  // ---------------------------------------------------------------------------
  // Filtering

  /** One result of the filtering pass: the tweet and what matched it. */
  datatype Match = Match(tweet: Tweet, sites: seq<string>, keywords: seq<string>)

  /** `search.strip().lower()`. */
  function Needle(search: string): string {
    Lower(Strip(search))
  }

  /** The test `filter_tweets` applies to each tweet: not deleted this
      session, hit by some site pattern or keyword, and, when the search is
      not blank, containing the search text. */
  predicate Keep(t: Tweet, sitePatterns: seq<string>, keywords: seq<string>, deletedIds: set<string>, needle: string) {
    var m := TweetMatches(t, sitePatterns, keywords);
    t.IdOrEmpty() !in deletedIds
    && (m.0 != [] || m.1 != [])
    && (needle == [] || Contains(Lower(t.fullText), needle))
  }

  function Keeper(sitePatterns: seq<string>, keywords: seq<string>, deletedIds: set<string>, needle: string): Tweet -> bool {
    t => Keep(t, sitePatterns, keywords, deletedIds, needle)
  }

  function MatchOf(t: Tweet, sitePatterns: seq<string>, keywords: seq<string>): Match {
    var m := TweetMatches(t, sitePatterns, keywords);
    Match(t, m.0, m.1)
  }

  function MatchAll(ts: seq<Tweet>, sitePatterns: seq<string>, keywords: seq<string>): (r: seq<Match>)
    ensures |r| == |ts|
  {
    seq(|ts|, i requires 0 <= i < |ts| => MatchOf(ts[i], sitePatterns, keywords))
  }

  function TweetsOf(ms: seq<Match>): seq<Tweet> {
    seq(|ms|, i requires 0 <= i < |ms| => ms[i].tweet)
  }

  /** The match records list exactly the tweets they were made from. */
  lemma TweetsOfMatchAll(ts: seq<Tweet>, sitePatterns: seq<string>, keywords: seq<string>)
    ensures TweetsOf(MatchAll(ts, sitePatterns, keywords)) == ts
  {
  }

  /** What `filter_tweets` returns: the kept tweets in archive order, each with
      what matched it. */
  function Selection(tweets: seq<Tweet>, sitePatterns: seq<string>, keywords: seq<string>, deletedIds: set<string>, search: string)
    : seq<Match>
  {
    MatchAll(Filter(tweets, Keeper(sitePatterns, keywords, deletedIds, Needle(search))), sitePatterns, keywords)
  }

  /** `filter_tweets`: one pass over the archive, appending every tweet that
      survives the three tests. */
  method FilterTweets(tweets: seq<Tweet>, sitePatterns: seq<string>, keywords: seq<string>, deletedIds: set<string>, search: string)
    returns (results: seq<Match>)
    ensures results == Selection(tweets, sitePatterns, keywords, deletedIds, search)
  {
    var needle := Needle(search);
    ghost var keep := Keeper(sitePatterns, keywords, deletedIds, needle);
    results := [];
    var i := 0;
    while i < |tweets|
      invariant 0 <= i <= |tweets|
      invariant results == MatchAll(Filter(tweets[..i], keep), sitePatterns, keywords)
    {
      var t := tweets[i];
      SelectionStep(tweets, i, keep, sitePatterns, keywords);
      i := i + 1;
      if t.IdOrEmpty() in deletedIds {
        continue;
      }
      var m := TweetMatches(t, sitePatterns, keywords);
      if m.0 == [] && m.1 == [] {
        continue;
      }
      if needle != [] && !Contains(Lower(t.fullText), needle) {
        continue;
      }
      results := results + [Match(t, m.0, m.1)];
    }
    assert tweets[..i] == tweets;
  }

  /** One step of the filtering pass: the next tweet adds its match record
      exactly when it is kept. */
  lemma SelectionStep(tweets: seq<Tweet>, i: nat, keep: Tweet -> bool, sitePatterns: seq<string>, keywords: seq<string>)
    requires i < |tweets|
    ensures MatchAll(Filter(tweets[..i + 1], keep), sitePatterns, keywords)
         == MatchAll(Filter(tweets[..i], keep), sitePatterns, keywords)
            + (if keep(tweets[i]) then [MatchOf(tweets[i], sitePatterns, keywords)] else [])
  {
    assert tweets[..i + 1] == tweets[..i] + [tweets[i]];
    FilterSnoc(tweets[..i], tweets[i], keep);
    if keep(tweets[i]) {
      MatchAllSnoc(Filter(tweets[..i], keep), tweets[i], sitePatterns, keywords);
    } else {
      assert Filter(tweets[..i], keep) + [] == Filter(tweets[..i], keep);
    }
  }

  lemma MatchAllSnoc(ts: seq<Tweet>, t: Tweet, sitePatterns: seq<string>, keywords: seq<string>)
    ensures MatchAll(ts + [t], sitePatterns, keywords) == MatchAll(ts, sitePatterns, keywords) + [MatchOf(t, sitePatterns, keywords)]
  {
    var l, r := MatchAll(ts + [t], sitePatterns, keywords), MatchAll(ts, sitePatterns, keywords) + [MatchOf(t, sitePatterns, keywords)];
    forall k | 0 <= k < |l| ensures l[k] == r[k] {
      if k < |ts| { assert (ts + [t])[k] == ts[k]; }
    }
  }

  /** The results are the input tweets that pass the test, in input order;
      each carries what matched it, is not deleted, is hit by at least one
      pattern or keyword, and contains the search text when there is one. */
  lemma SelectionSpec(tweets: seq<Tweet>, sitePatterns: seq<string>, keywords: seq<string>, deletedIds: set<string>, search: string)
    ensures var r := Selection(tweets, sitePatterns, keywords, deletedIds, search);
      IsSubseq(TweetsOf(r), tweets) &&
      (forall t :: t in TweetsOf(r) <==> t in tweets && Keep(t, sitePatterns, keywords, deletedIds, Needle(search))) &&
      (forall m :: m in r ==>
         m.tweet.IdOrEmpty() !in deletedIds &&
         (m.sites != [] || m.keywords != []) &&
         (Needle(search) != [] ==> Contains(Lower(m.tweet.fullText), Needle(search))) &&
         (m.sites, m.keywords) == TweetMatches(m.tweet, sitePatterns, keywords))
  {
    var keep := Keeper(sitePatterns, keywords, deletedIds, Needle(search));
    var kept := Filter(tweets, keep);
    var r := Selection(tweets, sitePatterns, keywords, deletedIds, search);
    TweetsOfMatchAll(kept, sitePatterns, keywords);
    FilterIsSubseq(tweets, keep);
    forall m | m in r
      ensures m.tweet in kept && m == MatchOf(m.tweet, sitePatterns, keywords)
    {
      var i :| 0 <= i < |r| && r[i] == m;
    }
  }

  /** A blank search filters nothing. */
  lemma BlankSearchFiltersNothing(tweets: seq<Tweet>, sitePatterns: seq<string>, keywords: seq<string>, deletedIds: set<string>, search: string)
    requires AllSpace(search)
    ensures Selection(tweets, sitePatterns, keywords, deletedIds, search) == Selection(tweets, sitePatterns, keywords, deletedIds, "")
  {
    StripEmptyIffBlank(search);
    StripEmptyIffBlank("");
  }

  /** The three tweets of the worked example: A links to example.com, B
      mentions a sale, C matches neither. */
  const ExampleA := Tweet(Some("1"), "look at this", "", "",
                          [UrlEntity("https://t.co/x", "https://example.com/page", "example.com/page")])
  const ExampleB := Tweet(Some("2"), "Big SALE today", "", "", [])
  const ExampleC := Tweet(Some("3"), "hello world", "", "", [])

  lemma FilterKeepsFirstTwo(a: Tweet, b: Tweet, c: Tweet, keep: Tweet -> bool)
    requires keep(a) && keep(b) && !keep(c)
    ensures Filter([a, b, c], keep) == [a, b]
  {
    var abc := [a, b, c];
    assert abc[1..] == [b, c] && abc[1..][1..] == [c] && abc[1..][1..][1..] == [];
    assert Filter(abc[1..][1..], keep) == [];
    assert Filter(abc[1..], keep) == [b];
  }

  /** With the site pattern "example.com" and the keyword "sale" the listing
      of A, B, C is exactly A then B, in archive order. */
  lemma ExampleListing()
    ensures TweetsOf(Selection([ExampleA, ExampleB, ExampleC], ["example.com"], ["sale"], {}, ""))
            == [ExampleA, ExampleB]
  {
    var keep := Keeper(["example.com"], ["sale"], {}, Needle(""));
    ExampleKept();
    FilterKeepsFirstTwo(ExampleA, ExampleB, ExampleC, keep);
    TweetsOfMatchAll([ExampleA, ExampleB], ["example.com"], ["sale"]);
  }

  lemma ExampleKept()
    ensures var keep := Keeper(["example.com"], ["sale"], {}, Needle(""));
      keep(ExampleA) && keep(ExampleB) && !keep(ExampleC)
  {
    var keep := Keeper(["example.com"], ["sale"], {}, Needle(""));
    assert Needle("") == [];
    ExampleHits();
    ExampleKeptA();
    ExampleKeptB();
    ExampleDroppedC();
    assert keep(ExampleA) == Keep(ExampleA, ["example.com"], ["sale"], {}, []);
    assert keep(ExampleB) == Keep(ExampleB, ["example.com"], ["sale"], {}, []);
    assert keep(ExampleC) == Keep(ExampleC, ["example.com"], ["sale"], {}, []);
  }

  lemma ExampleKeptA()
    requires SiteHit(ExampleA, "example.com")
    ensures Keep(ExampleA, ["example.com"], ["sale"], {}, [])
  {
    assert "example.com" in TweetMatches(ExampleA, ["example.com"], ["sale"]).0;
  }

  lemma ExampleKeptB()
    requires KeywordHit(ExampleB, "sale")
    ensures Keep(ExampleB, ["example.com"], ["sale"], {}, [])
  {
    assert "sale" in TweetMatches(ExampleB, ["example.com"], ["sale"]).1;
  }

  lemma ExampleDroppedC()
    requires !SiteHit(ExampleC, "example.com") && !KeywordHit(ExampleC, "sale")
    ensures !Keep(ExampleC, ["example.com"], ["sale"], {}, [])
  {
    var mc := TweetMatches(ExampleC, ["example.com"], ["sale"]);
    assert mc.0 == [] && mc.1 == [];
  }

  lemma ExampleHits()
    ensures SiteHit(ExampleA, "example.com")
    ensures KeywordHit(ExampleB, "sale")
    ensures !SiteHit(ExampleC, "example.com") && !KeywordHit(ExampleC, "sale")
  {
    ExampleSiteHit();
    ExampleKeywordHit();
    ExampleMisses();
  }

  lemma ExampleSiteHit()
    ensures SiteHit(ExampleA, "example.com")
  {
    var u := ExampleA.urls[0];
    assert u in ExampleA.urls;
    assert Lower("example.com") == "example.com";
    assert Lower(u.expandedUrl)[8..][..11] == "example.com";
    assert StartsWith(Lower(u.expandedUrl)[8..], "example.com");
  }

  lemma ExampleKeywordHit()
    ensures KeywordHit(ExampleB, "sale")
  {
    assert Lower("sale") == "sale";
    assert Lower("Big SALE today")[4..][..4] == "sale";
    assert StartsWith(Lower(ExampleB.fullText)[4..], "sale");
  }

  lemma ExampleMisses()
    ensures !SiteHit(ExampleC, "example.com") && !KeywordHit(ExampleC, "sale")
  {
    LowerOfLowercase(ExampleC.fullText);
    LowerOfLowercase("example.com");
    LowerOfLowercase("sale");
    MissingCharMeansNoMatch(ExampleC.fullText, "example.com", 'x');
    MissingCharMeansNoMatch(ExampleC.fullText, "sale", 's');
  }

  /** A text lacking one of the pattern's characters does not contain the
      pattern. */
  lemma MissingCharMeansNoMatch(s: string, p: string, c: char)
    requires c in p && c !in s
    ensures !Contains(s, p)
  {
    var j :| 0 <= j < |p| && p[j] == c;
    forall i | 0 <= i <= |s| ensures !StartsWith(s[i..], p) {
      if |p| <= |s[i..]| {
        assert s[i..][..|p|][j] == s[i + j] != c;
      }
    }
  }

  // ---------------------------------------------------------------------------
  // Response form

  /** Index of the first `>` in `s`, or `|s|` when there is none. */
  function FirstClose(s: string): (n: nat)
    ensures n <= |s| && (n < |s| ==> s[n] == '>')
    ensures forall k :: 0 <= k < n ==> s[k] != '>'
  {
    if s == [] || s[0] == '>' then 0 else 1 + FirstClose(s[1..])
  }

  /** `s` starts with a match of `<[^>]+>`: a `<`, at least one character
      other than `>`, and the first `>` after it. */
  predicate TagStart(s: string) {
    s != [] && s[0] == '<' && 1 < FirstClose(s) < |s|
  }

  /** No match of `<[^>]+>` starts anywhere in `s`. */
  predicate NoTag(s: string) {
    forall i :: 0 <= i < |s| ==> !TagStart(s[i..])
  }

  /** `re.sub(r"<[^>]+>", "", s)`: scanning from the left, every tag is
      removed; a `<` that does not open a tag is kept. */
  function StripTags(s: string): (r: string)
    ensures |r| <= |s|
    ensures forall c :: c in r ==> c in s
    decreases |s|
  {
    if s == [] then []
    else if TagStart(s) then StripTags(s[FirstClose(s) + 1..])
    else [s[0]] + StripTags(s[1..])
  }

  /** After the substitution no tag is left, even where removing one tag
      brings other characters together. */
  lemma {:induction false} StripTagsLeavesNoTag(s: string)
    ensures NoTag(StripTags(s))
    decreases |s|
  {
    if s == [] {
    } else if TagStart(s) {
      StripTagsLeavesNoTag(s[FirstClose(s) + 1..]);
    } else {
      var rest := StripTags(s[1..]);
      StripTagsLeavesNoTag(s[1..]);
      var r := StripTags(s);
      assert r == [s[0]] + rest;
      forall i | 0 <= i < |r| ensures !TagStart(r[i..]) {
        if i > 0 {
          assert r[i..] == rest[i - 1..];
        } else if s[0] == '<' {
          assert r[0..] == r;
          if FirstClose(s) < |s| {
            assert FirstClose(s) == 1;
            assert s[1] == '>';
            assert s[1..][0] == '>';
            assert !TagStart(s[1..]);
            assert rest[0] == '>';
            assert r[1] == '>';
          } else {
            assert FirstClose(s) == |s|;
            assert '>' !in s;
            assert '>' !in r;
          }
        }
      }
    }
  }

  /** Text with no tag in it is left as it is, even when it contains `<`. */
  lemma {:induction false} NoTagFixpoint(s: string)
    requires NoTag(s)
    ensures StripTags(s) == s
    decreases |s|
  {
    if s != [] {
      assert s[0..] == s;
      assert !TagStart(s);
      assert NoTag(s[1..]) by {
        forall i | 0 <= i < |s[1..]| ensures !TagStart(s[1..][i..]) {
          assert s[1..][i..] == s[i + 1..];
        }
      }
      NoTagFixpoint(s[1..]);
    }
  }

  /** Removing tags a second time changes nothing. */
  lemma StripTagsIdempotent(s: string)
    ensures StripTags(StripTags(s)) == StripTags(s)
  {
    StripTagsLeavesNoTag(s);
    NoTagFixpoint(StripTags(s));
  }

  lemma {:induction false} FirstCloseOfPrefix(p: string, q: string)
    requires |p| <= |q| && p == q[..|p|]
    requires FirstClose(p) < |p|
    ensures FirstClose(q) == FirstClose(p)
  {
    if p[0] != '>' {
      assert p[1..] == q[1..][..|p| - 1];
      FirstCloseOfPrefix(p[1..], q[1..]);
    }
  }

  /** A slice of a tag-free string is tag-free. */
  lemma NoTagSlice(s: string, a: nat, t: string)
    requires a + |t| <= |s| && t == s[a..a + |t|] && NoTag(s)
    ensures NoTag(t)
  {
    forall i | 0 <= i < |t| ensures !TagStart(t[i..]) {
      var p, q := t[i..], s[a + i..];
      assert p == q[..|p|];
      assert !TagStart(q);
      if FirstClose(p) < |p| {
        FirstCloseOfPrefix(p, q);
      }
    }
  }

  /** The response form of one tweet. */
  datatype TweetView = TweetView(
    id: string,
    text: string,
    createdAt: string,
    source: string,
    matchedSites: seq<string>,
    matchedKeywords: seq<string>,
    urls: seq<UrlEntity>)

  /** `format_tweet`: copies the fields the response shows and cleans the
      source client string of its markup. A tweet without `id_str` makes the
      direct index fail, which is `None` here. */
  function FormatTweet(t: Tweet, matchedSites: seq<string>, matchedKeywords: seq<string>): (r: Option<TweetView>)
    ensures r.None? <==> t.idStr.None?
    ensures r.Some? ==>
      r.value.id == t.idStr.value && r.value.text == t.fullText && r.value.createdAt == t.createdAt &&
      r.value.matchedSites == matchedSites && r.value.matchedKeywords == matchedKeywords &&
      r.value.urls == t.urls
    ensures r.Some? ==> r.value.source == CleanSource(t.source)
    ensures r.Some? ==> NoTag(r.value.source) && |r.value.source| <= |t.source|
    ensures r.Some? && r.value.source != [] ==>
      !IsSpace(r.value.source[0]) && !IsSpace(r.value.source[|r.value.source| - 1])
  {
    match t.idStr
    case None => None
    case Some(id) =>
      CleanSourceHasNoMarkup(t.source);
      Some(TweetView(id, t.fullText, t.createdAt, CleanSource(t.source), matchedSites, matchedKeywords, t.urls))
  }

  /** `re.sub(r"<[^>]+>", "", source).strip()`. */
  function CleanSource(source: string): string {
    Strip(StripTags(source))
  }

  lemma CleanSourceHasNoMarkup(source: string)
    ensures NoTag(CleanSource(source)) && |CleanSource(source)| <= |source|
    ensures CleanSource(source) == [] ||
      (!IsSpace(CleanSource(source)[0]) && !IsSpace(CleanSource(source)[|CleanSource(source)| - 1]))
  {
    var cleaned := StripTags(source);
    StripTagsLeavesNoTag(source);
    StripEmptyIffBlank(cleaned);
    CleanSourceNoTag(cleaned);
  }

  lemma CleanSourceNoTag(cleaned: string)
    requires NoTag(cleaned)
    ensures NoTag(Strip(cleaned))
  {
    StripIsSlice(cleaned);
    NoTagSlice(cleaned, |cleaned| - |TrimStart(cleaned)|, Strip(cleaned));
  }

  /** A source string as the archive stores it, a link around the client's
      name, loses its markup. */
  lemma LinkMarkupRemoved(attributes: string, name: string)
    requires '>' !in attributes && '<' !in name
    ensures StripTags("<a" + attributes + ">" + name + "</a>") == name
  {
    var open, close := "<a" + attributes, "</a>";
    var s := open + (">" + (name + close));
    assert s == "<a" + attributes + ">" + name + "</a>";
    assert '>' !in open by {
      forall k | 0 <= k < |open| ensures open[k] != '>' {
        if k >= 2 { assert open[k] == attributes[k - 2]; }
      }
    }
    FirstCloseSkips(open, ">" + (name + close));
    assert TagStart(s);
    assert s[FirstClose(s) + 1..] == name + close;
    assert TagStart(close) && FirstClose(close) == 3;
    assert close[4..] == [];
    StripTagsPlain(name, close);
  }

  /** The cleaned source of a link around the client's name is exactly the
      name, when the name neither starts nor ends with whitespace. */
  lemma LinkSourceCleaned(attributes: string, name: string)
    requires '>' !in attributes && '<' !in name
    requires name == [] || (!IsSpace(name[0]) && !IsSpace(name[|name| - 1]))
    ensures CleanSource("<a" + attributes + ">" + name + "</a>") == name
  {
    LinkMarkupRemoved(attributes, name);
    StripKeepsTrimmed(name);
  }

  lemma {:induction false} FirstCloseSkips(p: string, q: string)
    requires '>' !in p
    ensures FirstClose(p + q) == |p| + FirstClose(q)
  {
    if p != [] {
      assert (p + q)[1..] == p[1..] + q;
      FirstCloseSkips(p[1..], q);
    } else {
      assert p + q == q;
    }
  }

  /** Text without `<` passes through unchanged. */
  lemma {:induction false} StripTagsPlain(text: string, tail: string)
    requires '<' !in text
    ensures StripTags(text + tail) == text + StripTags(tail)
  {
    if text != [] {
      assert (text + tail)[1..] == text[1..] + tail;
      StripTagsPlain(text[1..], tail);
    } else {
      assert text + tail == tail;
    }
  }
}
