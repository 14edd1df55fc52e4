# delete_tweets — a Dafny model of the tweet-filtering core

The model covers the part of the tool that does the work. The tool serves a
small web application for deleting one's own tweets. It loads a Twitter/X
archive (`tweets.js`) and keeps the tweets that mention a configured site
pattern or keyword. It shows them a page at a time, counts them per pattern,
and deletes chosen ones through the platform's API. The session record holds:

- the API credentials;
- the two pattern lists;
- the ids deleted during the session.

The model is split into these modules:

- `Wrappers`, `Seqs`, `Text`: `Option`/`Result`, order-preserving filtering
  and subsequences, and Python's `str.strip`, `lower()`, `in` and `endswith`
  on strings.
- `Records`: the archive entries (`Tweet`, `UrlEntity`, `RawItem`) and the
  abstract result of JSON parsing.
- `Storage`: class `Disk`. It holds the archive file and the saved
  credentials and filters. Each save is an event the handlers either perform
  or do not, and a write counter makes "nothing was saved" stateable.
- `State`: class `AppState`, the session record, and its invariant `Valid`.
- `Parser` (`app/parser.py`):
  - the single-slot archive cache (class `ArchiveCache`);
  - the archive wrapper strip;
  - the pattern matcher;
  - the filtering loop (`FilterTweets`, proved against the specification
    function `Selection`);
  - the response form of a tweet.
- `Twitter` (`app/twitter.py`): the error table, the error-code extraction,
  the authentication guard and the mapping of platform outcomes.
- `TweetsRoutes` (`app/routes/tweets.py`): pagination, the statistics loop,
  and the batch-delete loop.
- `AdminRoutes` (`app/routes/admin.py`): the validators, login/logout,
  add/remove on both pattern lists, and archive upload.

Inputs from outside the program are parameters:

- The platform's answer to each delete request is a function
  `platform(i, id)` giving an `ApiOutcome`.
- UTF-8 decoding is `decode: seq<byte> -> Option<string>`.
- JSON parsing is `parse: string -> Option<Json>`.

The wrapper strip `^window\.YTD\.tweets\.\w+\s*=\s*` is modelled by hand:
`Parser.StripWrapper` is that regular expression anchored at the start.

## Model

| member | source | states |
|---|---|---|
| State.AppState.constructor | app/state.py:5-15 | a fresh session is not authenticated, has all four credential fields absent, empty pattern lists and no deleted ids, and satisfies `Valid` |
| Storage.Disk.SaveFilters | app/filters.py:13-15 | saving the lists records exactly those two lists, counts one write, and leaves the archive and credentials files alone |
| Storage.Disk.SaveCredentials | app/credentials.py:13-24 | saving records exactly the four given values and touches no other file |
| Storage.Disk.ClearCredentials | app/credentials.py:42-44 | the saved credentials are gone afterwards; other files are untouched |
| Storage.Disk.WriteArchive | app/routes/admin.py:143 | the archive file holds exactly the uploaded bytes; other files are untouched |
| Text.TrimStart | app/parser.py:77 | the result is a suffix of the input, everything removed is whitespace in Python's `isspace` sense, and the result does not start with whitespace |
| Text.TrimEnd | app/parser.py:77 | mirror image of `TrimStart` at the end of the string |
| Text.LeadingSpace | app/parser.py:34 | the `\s*` run ends at the end of the text or at the first character that is not whitespace |
| Text.LeadingSpaceIsSpace | app/parser.py:34 | everything the `\s*` run consumes is whitespace, so with `LeadingSpace` it is the longest whitespace prefix |
| Text.LeadingSpaceSkips | app/parser.py:34 | whitespace followed by a character that is not whitespace is consumed up to exactly that character |
| Text.StripIsSlice | app/parser.py:77 | about `Strip`, which models `str.strip()`: it returns one contiguous slice of its input with only whitespace on either side |
| Text.StripEmptyIffBlank | app/routes/admin.py:23-25 | a stripped string is empty exactly when the input is all whitespace, and otherwise neither end is whitespace |
| Text.StripIdempotent | app/routes/admin.py:89 | stripping twice is the same as stripping once |
| Text.StripKeepsTrimmed | app/parser.py:101 | text that neither starts nor ends with whitespace is unchanged by `strip()` |
| Text.LowerForgetsCase | app/parser.py:54-64 | about `Lower`, which models ASCII `str.lower()`: lower-casing erases any earlier upper-casing and is idempotent |
| Text.ContainsIffOccurs | app/parser.py:61-64 | `Contains`, Python's substring test `in`, holds exactly when the pattern occurs as a slice of the text |
| Text.EndsWithIffAppend | app/routes/admin.py:124 | `EndsWith`, Python's `str.endswith`, holds exactly when the text is some stem followed by the suffix |
| Text.ExampleExtensions | app/routes/admin.py:124 | the upload name check accepts `tweets.js` and rejects `tweets.json` and an empty name |
| Seqs.Filter | app/parser.py:78-96 | the kept elements are exactly the elements satisfying the predicate, and there are no more of them than in the input |
| Seqs.FilterIsSubseq | app/parser.py:78-96 | filtering keeps input order: the result is a subsequence of the input |
| Seqs.FilterAppend | app/parser.py:80-94 | filtering a concatenation is the concatenation of the filtered parts (the loop's step) |
| Seqs.FilterSnoc | app/parser.py:80-94 | one more element joins the filtered list at its end exactly when it passes the test |
| Seqs.SubseqNoDup | app/parser.py:60-63 | a subsequence of a duplicate-free list is duplicate-free and draws only from it |
| Seqs.Count | app/routes/tweets.py:59-62 | an element's count is at most the length and is zero exactly when the element is absent |
| Seqs.CountNoDup | app/routes/tweets.py:59-60 | in a duplicate-free list each element is counted once or not at all |
| Seqs.CountAppend | app/routes/tweets.py:58-62 | counts over a concatenation add up |
| Seqs.IndexOf | app/routes/admin.py:91 | the index found holds the element and no earlier position does (the first occurrence) |
| Seqs.RemoveFirstRemovesOne | app/routes/admin.py:91 | about `RemoveFirst`, which models `list.remove`: the list is shorter by one and exactly one occurrence of the element leaves its multiset |
| Seqs.RemoveFirstNoDup | app/routes/admin.py:115 | removing from a duplicate-free list leaves it duplicate-free and without the element |
| Parser.WordRun | app/parser.py:34 | the `\w+` run ends at the end of the text or at the first character that is not a word character |
| Parser.WordRunIsWord | app/parser.py:34 | everything the `\w+` run consumes is a word character, so with `WordRun` it is the longest word-character prefix |
| Parser.WrapperLength | app/parser.py:34 | a match is only found at the start of text beginning with `window.YTD.tweets.`, and never runs past the end |
| Parser.StripWrapper | app/parser.py:34 | the result is a suffix of the input, and text that does not start with `window.YTD.tweets.` is returned unchanged |
| Parser.StripWrapperRemovesAssignment | app/parser.py:33-34 | for any word-character name and any whitespace around `=`, `window.YTD.tweets.<name> = ` is removed and exactly the JSON body is left |
| Parser.WrapperMatch | app/parser.py:34 | once the head, a non-empty name run, the whitespace run and `=` are found, the match extends exactly over the whitespace after `=` |
| Parser.AssignmentHead | app/parser.py:34 | in an exported assignment the `\w+` run covers exactly the part name, the `\s*` run exactly the whitespace before `=`, and `=` follows |
| Parser.WordRunStops | app/parser.py:34 | the word run ends at the first non-word character |
| Parser.ExtractTweets | app/parser.py:44 | one tweet is kept per item that carries a `"tweet"` key, and those are exactly the items' tweets |
| Parser.ExtractTweetsAppend | app/parser.py:44 | extraction is in item order: extracting from a concatenation concatenates the extractions |
| Parser.CountTweets | app/routes/admin.py:146 | the `tweet_count` of an upload is at most the number of items (and `ExtractTweets` keeps exactly that many records) |
| Parser.ReadArchiveFailures | app/parser.py:22-42 | `ReadArchive`, the uncached path of `load_tweets`, fails with a missing file, unreadable text, invalid JSON or a non-array exactly when that is the first stage that goes wrong |
| Parser.ReadArchiveSuccess | app/parser.py:22-45 | `ReadArchive` succeeds exactly when the file exists, decodes, parses and is an array, and then returns the extracted tweets, as many as `CountTweets` |
| Parser.ArchiveCache.constructor | app/parser.py:8 | the cache starts empty |
| Parser.ArchiveCache.Invalidate | app/parser.py:11-13 | after invalidation the cache is empty |
| Parser.ArchiveCache.Load | app/parser.py:16-45 | the result is `Loaded` of the old cache: a filled cache is returned unchanged and not reread; an empty cache is filled with the successful read of the file, in the error order missing file, unreadable text, invalid JSON, non-array; a failure leaves the cache empty |
| Parser.TweetMatches | app/parser.py:48-66 | matched sites are exactly the patterns found case-insensitively in the text or in some expanded URL; matched keywords are exactly those found in the text alone; both keep the order of their pattern lists |
| Parser.MatchingIgnoresCase | app/parser.py:54-64 | upper-casing a pattern, or a tweet's text and URLs, does not change whether it matches |
| Parser.MatchAll | app/parser.py:84-94 | one match record per kept tweet |
| Parser.FilterTweets | app/parser.py:69-96 | the loop returns exactly `Selection` of its inputs |
| Parser.SelectionStep | app/parser.py:80-94 | one more tweet extends the selection by that tweet's match record exactly when the tweet is kept |
| Parser.TweetsOfMatchAll | app/parser.py:84-94 | the match records carry the kept tweets themselves, in order |
| Parser.SelectionSpec | app/parser.py:77-96 | about `Selection`, the reference definition of what `filter_tweets` returns: the results are a subsequence of the input tweets; a tweet is listed exactly when its id is not deleted, it matches some site or keyword, and its lower-cased text contains the stripped, lower-cased search; each record carries that tweet's own matches |
| Parser.BlankSearchFiltersNothing | app/parser.py:77-91 | a search of only whitespace selects the same tweets as no search |
| Parser.ExampleHits | app/parser.py:54-64 | `example.com` is found in the first example tweet's expanded URL, `sale` in the second's text whatever its case, and neither in the third |
| Parser.ExampleKept | app/parser.py:77-94 | with an empty search and no deleted ids, the first two example tweets pass the filter and the third does not |
| Parser.ExampleListing | app/parser.py:54-96 | with pattern `example.com` and keyword `sale`, a tweet linking example.com and one saying "Big SALE today" are listed, in order, and an unrelated tweet is not |
| Parser.FirstClose | app/parser.py:101 | the position found is the first `>`, or the end when there is none |
| Parser.StripTags | app/parser.py:101 | removing tags never lengthens the text or introduces characters |
| Parser.StripTagsLeavesNoTag | app/parser.py:101 | after `re.sub("<[^>]+>", "")` no match of `<[^>]+>` is left: no `<` is followed by one or more characters other than `>` and then a `>` |
| Parser.NoTagFixpoint | app/parser.py:101 | text with no match of `<[^>]+>` passes through tag removal unchanged, even when it contains `<` |
| Parser.StripTagsIdempotent | app/parser.py:101 | removing tags a second time changes nothing |
| Parser.FirstCloseOfPrefix | app/parser.py:101 | the first `>` of a prefix is the first `>` of the whole text |
| Parser.NoTagSlice | app/parser.py:101 | a slice of tag-free text is tag-free |
| Parser.FormatTweet | app/parser.py:99-117 | a record without `id_str` cannot be formatted; otherwise id, text, date, matches and URLs are copied, and the source is exactly `CleanSource` of the record's source, so it is tag-free, no longer than the original, and has no surrounding whitespace |
| Parser.CleanSourceHasNoMarkup | app/parser.py:100-101 | about `CleanSource`, the `source` clean-up of `format_tweet`: the result has no tags, is no longer than the raw source, and starts and ends with non-whitespace |
| Parser.CleanSourceNoTag | app/parser.py:101 | stripping whitespace keeps tag-free text tag-free |
| Parser.LinkMarkupRemoved | app/parser.py:101 | tag removal turns `<a` + attributes + `>` + name + `</a>` into exactly the name, when the attributes contain no `>` and the name no `<` |
| Parser.LinkSourceCleaned | app/parser.py:100-101 | the full clean-up (tag removal, then `strip()`) of such a link is exactly the name, when in addition the name neither starts nor ends with whitespace |
| Parser.FirstCloseSkips | app/parser.py:101 | text free of `>` is skipped when looking for the first `>` |
| Parser.StripTagsPlain | app/parser.py:101 | text free of `<` passes through tag removal unchanged |
| Twitter.ErrorCode | app/twitter.py:24-33 | the code is the first `api_codes` entry when there are any, otherwise the first `errors[].code` of a readable response body, otherwise absent |
| Twitter.ApiErrorCodes | app/twitter.py:5-19 | the error table `ApiErrors` covers exactly the codes 32, 64, 88, 89, 135, 144, 179, 185, 226, 261, 326, 401 and 403 |
| Twitter.FriendlyError | app/twitter.py:22-34 | a code in the table yields exactly the table's message; an absent or unknown code yields the error's raw text |
| Twitter.FriendlyErrorRange | app/twitter.py:5-34 | every message is one of the table's messages or the raw text |
| Twitter.KnownCodes | app/twitter.py:5-34 | code 88 and response code 144 map to their messages; `api_codes` wins over the response; an unreadable response falls back to the raw text |
| Twitter.GetApi | app/twitter.py:37-46 | the client is built exactly when the session is authenticated, from the session's four credentials, and otherwise the "Not authenticated" error is raised |
| Twitter.DeleteTweet | app/twitter.py:49-59 | without authentication the call fails before reaching the platform; success and `NotFound` both count as deleted; any other platform error becomes a `ValueError` with the friendly message; anything else escapes |
| Twitter.DeleteIdempotent | app/twitter.py:50-57 | deleting an already-deleted tweet gives the same result as deleting it the first time |
| TweetsRoutes.LoadFailure | app/routes/tweets.py:15-22 | a missing archive is a 503 and every other load failure a 500 |
| TweetsRoutes.LoadOrRaise | app/routes/tweets.py:15-22 | the archive is loaded through the cache and a failure is turned into its HTTP error; a filled cache stays as it was, and an empty one is filled exactly when the read succeeds |
| TweetsRoutes.PageCount | app/routes/tweets.py:44 | there is always at least one page; with no matches exactly one; otherwise the number of pages is the ceiling of total over limit |
| TweetsRoutes.PageSlice | app/routes/tweets.py:37-38 | the slice has `min(limit, max(0, total - (page-1)*limit))` elements, taken in order from position `(page-1)*limit` |
| TweetsRoutes.EveryMatchOnItsPage | app/routes/tweets.py:36-44 | the match at position `i` is found on page `i / limit + 1` at offset `i % limit`, and that page is within the page count |
| TweetsRoutes.ExamplePagination | app/routes/tweets.py:36-44 | 120 matches at limit 50 give 3 pages, 50 records on page 1, 20 on page 3 and none on page 4 |
| TweetsRoutes.FormatAllSpec | app/routes/tweets.py:45 | about `FormatAll`, the comprehension over the page: the page is formatted record by record in order, and the comprehension fails exactly when some record lacks an id |
| TweetsRoutes.GetTweets | app/routes/tweets.py:25-46 | the answer holds the total number of matches whatever the page, the page and limit asked for, the page count, and the formatted slice of the current selection; load failures become their HTTP errors; the cache is kept or filled as by `load_tweets` |
| TweetsRoutes.TallyAppend | app/routes/tweets.py:58-62 | tallies over a concatenation add up |
| TweetsRoutes.CountInto | app/routes/tweets.py:59-62 | after counting a list into a dictionary, each key's count grew by its number of occurrences and new keys are exactly the list's elements |
| TweetsRoutes.CountMatches | app/routes/tweets.py:56-62 | `by_site` and `by_keyword` hold, for every pattern that matched somewhere, the number of its occurrences over all matches, and nothing else |
| TweetsRoutes.SiteCountIsTweetCount | app/routes/tweets.py:58-60 | when each match's site list is duplicate-free, a site's count is the number of matched tweets listing that site |
| TweetsRoutes.SelectionBounds | app/routes/tweets.py:51-66 | there are never more matches than tweets in the archive, and with a duplicate-free pattern list each match's site list is duplicate-free |
| TweetsRoutes.GetStats | app/routes/tweets.py:49-70 | the statistics report the archive size, the number of matches, the number of ids deleted this session and the two tallies of the current selection; in a valid session each site's count is the number of matched tweets listing that site; the cache is kept or filled as by `load_tweets` |
| TweetsRoutes.Judge | app/routes/tweets.py:86-93 | a deletion is recorded under its id, as deleted exactly when the platform call succeeded, and otherwise with its error message (unexpected errors prefixed) |
| TweetsRoutes.Verdicts | app/routes/tweets.py:85-93 | there is one verdict per requested id, in request order |
| TweetsRoutes.BatchPartition | app/routes/tweets.py:83-93 | every requested id lands exactly once in `deleted` or in `failed` |
| TweetsRoutes.BatchInOrder | app/routes/tweets.py:85-93 | `deleted` and the ids of `failed` are each a subsequence of the requested ids: both keep request order |
| TweetsRoutes.BatchAllGone | app/routes/tweets.py:85-89 | when the platform reports every tweet gone or deleted, all ids are deleted and none failed |
| TweetsRoutes.VerdictStep | app/routes/tweets.py:85-93 | handling one more id appends it to `deleted` when the call succeeded, and otherwise appends its failure with the right message |
| TweetsRoutes.MarkDeleted | app/routes/tweets.py:88 | the id joins the session's deleted ids and nothing else in the session changes |
| TweetsRoutes.DeleteTweets | app/routes/tweets.py:73-95 | 401 without authentication and 400 without ids, with the session unchanged; otherwise every id is tried in order, a failure does not stop the batch, the results are split into deleted and failed, and the deleted ids join the session's set |
| AdminRoutes.CredentialField | app/routes/admin.py:20-25 | a credential field is accepted exactly when it is not all whitespace, and then stored stripped |
| AdminRoutes.PatternField | app/routes/admin.py:31-37 | a pattern is accepted exactly when something is left after stripping, and then stored stripped |
| AdminRoutes.ValidateCredentials | app/routes/admin.py:14-25 | the request is valid exactly when all four fields are, and carries the four stripped values; otherwise it is a 422 |
| AdminRoutes.Login | app/routes/admin.py:42-53 | a rejected request changes nothing; an accepted one sets all four credentials to the stripped inputs, authenticates the session and saves them, leaving patterns and deleted ids alone and keeping `Valid` |
| AdminRoutes.StoreCredentials | app/routes/admin.py:44-52 | the session takes the four values, becomes authenticated and they are saved |
| AdminRoutes.Logout | app/routes/admin.py:56-64 | all four credentials are cleared together, the session is no longer authenticated and the saved credentials are removed; patterns and deleted ids are kept |
| AdminRoutes.AddSite | app/routes/admin.py:79-84 | a pattern already present changes neither the list nor any file; a new one is appended at the end and the lists are saved once; keywords are untouched and the list never gains a duplicate |
| AdminRoutes.RemoveSite | app/routes/admin.py:87-93 | the argument is stripped; if present, its first occurrence is removed and the lists saved once; if absent nothing changes and nothing is saved; keywords are untouched |
| AdminRoutes.AddKeyword | app/routes/admin.py:103-108 | as `AddSite`, on the keyword list, leaving site patterns untouched |
| AdminRoutes.RemoveKeyword | app/routes/admin.py:111-117 | as `RemoveSite`, on the keyword list, leaving site patterns untouched |
| AdminRoutes.AppendKeepsNoDup | app/routes/admin.py:81-82 | appending an element not yet present keeps a list duplicate-free |
| AdminRoutes.CheckUpload | app/routes/admin.py:124-141 | an upload is accepted exactly when its name ends in `.js`, it decodes, its stripped and unwrapped text parses, and the result is an array; a bad name is rejected first whatever the content; every rejection is a 400 |
| AdminRoutes.UploadTweets | app/routes/admin.py:122-147 | a rejected upload leaves the archive file and the cache as they were; an accepted one writes the bytes, empties the cache and reports the number of items carrying a tweet |
| AdminRoutes.UploadThenLoad | app/routes/admin.py:143-146 | after an accepted upload the next load yields exactly the uploaded tweets, as many as reported |

## Left out

- Unicode semantics of `lower()`, `upper()` and `\w` are not modelled; `Text` uses ASCII case mapping and ASCII word characters. Whitespace uses Python's full `isspace` set.
- UTF-8 decoding and JSON parsing are parameters, not implemented. `Json` distinguishes only arrays of items from everything else. An item either carries a tweet or does not; a non-object item in the array (where Python's `in` test would behave differently or raise) is not represented.
- The exact error texts of a failed load (which embed the file path or the decoder's exception) are not reproduced. The model keeps the distinction between 503 and 500. `AdminRoutes.CheckUpload` keeps the fixed prefix of the JSON error and omits the decoder's message.
- Twitter.ErrorCode: an `errors[].code` that is not an integer is treated as absent. An exception raised while reading the response body is the `Unreadable` case.
- The platform call `destroy_status`, the OAuth handshake and the HTTP client are the `platform` parameter. Exceptions other than `NotFound` and other platform errors are the `Crashed` outcome.
- FastAPI routing, query-parameter validation and request-body parsing are not modelled. The bounds `page >= 1` and `1 <= limit <= 200` become preconditions of `GetTweets`. The validators are functions that the handlers call first. `format_tweet` raising `KeyError` on a record without `id_str` is the 500 answer of `GetTweets`.
- Startup loading of saved credentials and filters in `app/main.py` is not part of this model. That loading does not deduplicate the saved lists, so `AppState.Valid` is only guaranteed for sessions started fresh. The `load` functions of `app/credentials.py` and `app/filters.py`, `filters.clear`, the static-file routes, `/status`, `GET /sites` and `GET /keywords` (plain reads of the session) are left out too.
- `Stats.bySite` and `Stats.byKeyword` are maps, which have no order; the Python dictionaries, and so the JSON answer of `get_stats`, list their keys in first-match order. That order is not modelled, only the key set and the counts.
- Concurrency: the handlers are modelled as running one at a time against one session, as the program assumes.

