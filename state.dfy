/** The session record every handler reads and writes (`AppState`). */
module State {
  import opened Wrappers
  import Seqs

  class AppState {
    var consumerKey: Option<string>
    var consumerSecret: Option<string>
    var accessToken: Option<string>
    var accessTokenSecret: Option<string>
    var authenticated: bool
    /** Matched against tweet text and expanded URLs. */
    var sitePatterns: seq<string>
    /** Matched against tweet text only. */
    var keywords: seq<string>
    /** Ids deleted during this session; they are hidden from listings. */
    var deletedIds: set<string>

    /** The four credential fields are all present or all absent, together
        with the authenticated flag, and neither pattern list repeats an
        entry. The handlers keep this once it holds; it holds initially. */
    ghost predicate Valid()
      reads this
    {
      (authenticated <==> consumerKey.Some?) &&
      consumerKey.Some? == consumerSecret.Some? == accessToken.Some? == accessTokenSecret.Some? &&
      Seqs.NoDup(sitePatterns) && Seqs.NoDup(keywords)
    }

    constructor ()
      ensures Valid()
      ensures consumerKey == None && consumerSecret == None
      ensures accessToken == None && accessTokenSecret == None
      ensures !authenticated
      ensures sitePatterns == [] && keywords == []
      ensures deletedIds == {}
    {
      consumerKey := None;
      consumerSecret := None;
      accessToken := None;
      accessTokenSecret := None;
      authenticated := false;
      sitePatterns := [];
      keywords := [];
      deletedIds := {};
    }
  }
}
