/** `fetchNewsFromN8n`: asks the aggregator for a personalised feed, with the user's
    stored preferences and a request-scoped default for missing topics. */
module FeedClient {
  import opened Wrappers
  import opened News
  import opened Store
  import opened Normalizer
  import PreferenceClient

  const DefaultTopics: seq<string> := ["Technology", "Sports"]

  /** The preference bundle sent with the request: `{...stored, topics}`. A missing
      stored row contributes no `sources` or `keywords` fields at all. */
  datatype FeedPrefs = FeedPrefs(topics: seq<string>, sources: Option<seq<string>>, keywords: Option<seq<string>>)

  /** The single mutation the client issues. */
  datatype FeedRequest = FeedRequest(userId: UserId, prefs: FeedPrefs)

  /** What one call did: the request it sent, if any, and the payload it returns. */
  datatype FeedCall = FeedCall(sent: Option<FeedRequest>, result: Option<Raw>)

  /** Topics are the stored ones when present and non-empty, otherwise the two defaults;
      every other stored field is carried over unchanged. */
  function FinalPreferences(stored: Option<Prefs>): (r: FeedPrefs)
    ensures r.topics != []
    ensures stored.Some? && stored.value.topics != [] ==> r.topics == stored.value.topics
    ensures stored.None? || stored.value.topics == [] ==> r.topics == DefaultTopics
    ensures stored.Some? ==> r.sources == Some(stored.value.sources) && r.keywords == Some(stored.value.keywords)
    ensures stored.None? ==> r.sources.None? && r.keywords.None?
  {
    match stored
    case None => FeedPrefs(DefaultTopics, None, None)
    case Some(p) =>
      FeedPrefs(if |p.topics| > 0 then p.topics else DefaultTopics, Some(p.sources), Some(p.keywords))
  }

  /** One call. The preference read runs first (and fails on its own without a session);
      the feed request is sent only with a session; a failed request, a response with
      errors and a falsy payload all give `None`. The backend is only read. */
  function FetchNews(b: Backend, session: Option<UserId>, user: UserId,
                     prefsFault: bool, response: Call<Raw>): (r: FeedCall)
    ensures r.sent.Some? <==> session.Some?
    ensures r.sent.Some? ==> r.sent.value.userId == user
    ensures r.sent.Some? ==> r.sent.value.prefs == FinalPreferences(PreferenceClient.GetPreferences(b, session, user, prefsFault))
    ensures r.result.Some? <==> session.Some? && response.Ok? && Truthy(response.value)
    ensures r.result.Some? ==> r.result.value == response.value
  {
    var stored := PreferenceClient.GetPreferences(b, session, user, prefsFault);
    var prefs := FinalPreferences(stored);
    if session.None? then FeedCall(None, None)
    else
      var sent := Some(FeedRequest(user, prefs));
      match response
      case Err => FeedCall(sent, None)
      case Ok(raw) => FeedCall(sent, if Truthy(raw) then Some(raw) else None)
  }

  /** A user without stored preferences is asked for the two default topics, and the
      stored preferences still read as absent afterwards. */
  lemma NoStoredPreferences(b: Backend, user: UserId, response: Call<Raw>)
    requires user !in b.prefs
    ensures var call := FetchNews(b, Some(user), user, false, response);
            call.sent == Some(FeedRequest(user, FeedPrefs(DefaultTopics, None, None)))
            && PreferenceClient.GetPreferences(b, Some(user), user, false).None?
  {
  }
}
