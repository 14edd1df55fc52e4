/** app/twitter.py: the client that deletes one tweet on the platform, and
    the translation of platform errors into messages for the user. The
    platform call itself is not modelled: its outcome is an input. */
module Twitter {
  import opened Wrappers

  /** Messages for the platform error codes the client knows (`_API_ERRORS`). */
  const ApiErrors: map<int, string> := map[
    32 := "Authentication failed — check your API credentials.",
    64 := "Your account has been suspended.",
    88 := "Rate limit exceeded — wait 15 minutes and try again.",
    89 := "Access token expired or revoked — regenerate your tokens.",
    135 := "Timestamp out of bounds — check your system clock.",
    144 := "Tweet not found (may already be deleted).",
    179 := "You are not authorized to see this tweet.",
    185 := "Daily tweet limit reached.",
    226 := "Request flagged as automated spam — try again later.",
    261 := "App write permissions disabled — enable Read+Write in the X Developer Portal.",
    326 := "Account locked — verify your account on twitter.com first.",
    403 := "Permission denied — ensure your app has Read and Write permissions.",
    401 := "Unauthorized — credentials may be invalid or expired."
  ]

  /** The table covers exactly these thirteen codes. */
  lemma ApiErrorCodes()
    ensures ApiErrors.Keys == {32, 64, 88, 89, 135, 144, 179, 185, 226, 261, 326, 401, 403}
  {
  }

  const NotAuthenticated: string := "Not authenticated — connect your credentials first."

  /** One entry of the `errors` list in an error response; `code` is `None`
      when the entry has no integer code. */
  datatype ErrorEntry = ErrorEntry(code: Option<int>)

  /** The JSON body of an error response, or `Unreadable` when decoding it
      raises. */
  datatype ErrorBody = Body(errors: seq<ErrorEntry>) | Unreadable

  /** A platform exception: its `api_codes` (empty when it has none), its
      response (absent for errors raised before a response arrived), and its
      string form. */
  datatype PlatformError = PlatformError(apiCodes: seq<int>, response: Option<ErrorBody>, text: string)

  /** The code `_friendly_error` looks up: the first of `api_codes` when there
      are any, else the first code listed in the response body, else none. */
  function ErrorCode(e: PlatformError): (code: Option<int>)
    ensures e.apiCodes != [] ==> code == Some(e.apiCodes[0])
    ensures e.apiCodes == [] && e.response.Some? && e.response.value.Body? && e.response.value.errors != []
            ==> code == e.response.value.errors[0].code
    ensures code.Some? ==>
      (code.value in e.apiCodes ||
       (e.response.Some? && e.response.value.Body? && ErrorEntry(code) in e.response.value.errors))
  {
    if e.apiCodes != [] then Some(e.apiCodes[0])
    else match e.response
      case Some(Body(errors)) => if errors != [] then errors[0].code else None
      case _ => None
  }

  /** `_friendly_error`: the table's message for a known code, otherwise the
      exception's own text. */
  function FriendlyError(e: PlatformError): (message: string)
    ensures ErrorCode(e).Some? && ErrorCode(e).value in ApiErrors ==> message == ApiErrors[ErrorCode(e).value]
    ensures (ErrorCode(e).None? || ErrorCode(e).value !in ApiErrors) ==> message == e.text
  {
    match ErrorCode(e)
    case Some(code) => if code in ApiErrors then ApiErrors[code] else e.text
    case None => e.text
  }

  /** Every message is either one of the table's or the raw text. */
  lemma FriendlyErrorRange(e: PlatformError)
    ensures FriendlyError(e) in ApiErrors.Values || FriendlyError(e) == e.text
  {
    var code := ErrorCode(e);
    if code.Some? && code.value in ApiErrors {
      assert ApiErrors[code.value] in ApiErrors.Values;
    }
  }

  /** A code the table knows always gives the table's message, whatever the
      exception's text; codes the table does not know give the text. */
  lemma KnownCodes(text: string)
    ensures FriendlyError(PlatformError([88], None, text)) == "Rate limit exceeded — wait 15 minutes and try again."
    ensures FriendlyError(PlatformError([], Some(Body([ErrorEntry(Some(144))])), text)) == "Tweet not found (may already be deleted)."
    ensures FriendlyError(PlatformError([999], Some(Body([ErrorEntry(Some(32))])), text)) == text
    ensures FriendlyError(PlatformError([], Some(Unreadable), text)) == text
  {
  }

  /** The four credentials the client signs with. */
  datatype Keys = Keys(
    consumerKey: Option<string>,
    consumerSecret: Option<string>,
    accessToken: Option<string>,
    accessTokenSecret: Option<string>)

  /** `get_api`: refuses when the session is not authenticated; otherwise a
      client signed with the session's credentials. */
  function GetApi(authenticated: bool, keys: Keys): (r: Result<Keys, string>)
    ensures r.Ok? <==> authenticated
    ensures r.Ok? ==> r.value == keys
    ensures r.Err? ==> r.error == NotAuthenticated
  {
    if authenticated then Ok(keys) else Err(NotAuthenticated)
  }

  /** What `api.destroy_status` does: it succeeds, raises `NotFound`, raises
      another platform exception, or raises something that is not a platform
      exception at all. */
  datatype ApiOutcome = Destroyed | NotFound | Failed(error: PlatformError) | Crashed(text: string)

  /** What `delete_tweet` does: returns true, raises `ValueError` with a
      message, or lets a foreign exception through. */
  datatype DeleteResult = Deleted | ValueError(message: string) | Uncaught(text: string)

  /** `delete_tweet`: the platform's answer mapped to a result. An absent
      tweet counts as deleted; other platform errors become `ValueError` with
      the friendly message. Without authentication nothing is called. */
  function DeleteTweet(authenticated: bool, keys: Keys, outcome: ApiOutcome): (r: DeleteResult)
    ensures !authenticated ==> r == ValueError(NotAuthenticated)
    ensures authenticated ==> (r == Deleted <==> outcome.Destroyed? || outcome.NotFound?)
    ensures authenticated && outcome.Failed? ==> r == ValueError(FriendlyError(outcome.error))
    ensures authenticated && outcome.Crashed? ==> r == Uncaught(outcome.text)
  {
    match GetApi(authenticated, keys)
    case Err(message) => ValueError(message)
    case Ok(_) =>
      match outcome
      case Destroyed => Deleted
      case NotFound => Deleted
      case Failed(error) => ValueError(FriendlyError(error))
      case Crashed(text) => Uncaught(text)
  }

  /** Deleting is idempotent: once a tweet is gone, the platform answers
      `NotFound` and deleting it again still succeeds. Without
      authentication the platform's answer makes no difference. */
  lemma DeleteIdempotent(authenticated: bool, keys: Keys, outcome: ApiOutcome)
    ensures DeleteTweet(authenticated, keys, Destroyed) == DeleteTweet(authenticated, keys, NotFound)
    ensures !authenticated ==> DeleteTweet(authenticated, keys, outcome) == DeleteTweet(authenticated, keys, Destroyed)
  {
  }
}
