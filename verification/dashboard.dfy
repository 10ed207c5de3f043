/** The dashboard's feed load (`fetchData`) and its save-in-flight set (`handleSaveArticle`). */
module Dashboard {
  import opened Wrappers
  import opened News
  import opened Store
  import opened Normalizer
  import SavedRepository

  /** Why a feed load ended in the error screen. `UnreadablePayload` is a string
      `JSON.parse` rejects or a `null` item; its message is the JavaScript engine's. */
  datatype FetchError = UserNotFound | NoNews | UnreadablePayload

  const NoNewsMessage := "No news available. Please update your preferences."

  /** The message the error screen shows for the two errors the handler raises itself. */
  function Message(e: FetchError): (m: Option<string>)
    ensures m.None? <==> e == UnreadablePayload
    ensures e == UserNotFound ==> m == Some("User not found")
    ensures e == NoNews ==> m == Some(NoNewsMessage)
  {
    match e
    case UserNotFound => Some("User not found")
    case NoNews => Some(NoNewsMessage)
    case UnreadablePayload => None
  }

  /** The dashboard's state. `saving` holds the ids of articles whose save is in flight. */
  datatype Feed = Feed(
    articles: seq<FeedArticle>,
    error: Option<FetchError>,
    loading: bool,
    refreshing: bool,
    saving: set<string>)

  const InitialFeed := Feed([], None, true, false, {})

  /** How many `uuidv4()` values a payload can consume. */
  function SupplyNeeded(news: Option<Raw>): nat {
    if news.Some? && Truthy(news.value) && Decode(news.value).Some? then 2 * |Decode(news.value).value| else 0
  }

  /** `fetchData`: `userId` is what `getUserId` returned and `news` what the feed call
      returned. A missing user or a falsy result keeps the old articles and sets the
      error; a readable payload replaces the articles by the normalised list and clears
      the error; either way loading ends. */
  function FetchData(st: Feed, userId: Option<UserId>, news: Option<Raw>, supply: seq<string>): (r: Feed)
    requires |supply| >= SupplyNeeded(news)
    ensures !r.loading && !r.refreshing && r.saving == st.saving
    ensures userId.None? ==> r.error == Some(UserNotFound)
    ensures userId.Some? && (news.None? || !Truthy(news.value)) ==> r.error == Some(NoNews)
    ensures userId.Some? && news.Some? && Truthy(news.value) && Decode(news.value).None? ==> r.error == Some(UnreadablePayload)
    ensures r.error.None? <==> userId.Some? && news.Some? && Truthy(news.value) && Decode(news.value).Some?
    ensures r.error.Some? ==> r.articles == st.articles
    ensures r.error.None? ==> r.articles == Normalize(Decode(news.value).value, supply)
  {
    var done := st.(loading := false, refreshing := false);
    if userId.None? then done.(error := Some(UserNotFound))
    else if news.None? || !Truthy(news.value) then done.(error := Some(NoNews))
    else
      match Decode(news.value)
      case None => done.(error := Some(UnreadablePayload))
      case Some(items) => done.(articles := Normalize(items, supply), error := None)
  }

  /** The first load after mount: the dashboard starts with the spinner on, no articles
      and nothing in flight; after the load the spinner is off, nothing is in flight, and
      the list is either the normalised payload or, on an error, still empty. */
  lemma FirstLoad(userId: Option<UserId>, news: Option<Raw>, supply: seq<string>)
    requires |supply| >= SupplyNeeded(news)
    ensures InitialFeed.loading && InitialFeed.articles == [] && InitialFeed.saving == {}
    ensures var r := FetchData(InitialFeed, userId, news, supply);
            !r.loading && r.saving == {}
            && (r.error.Some? ==> r.articles == [])
            && (r.error.None? ==> |r.articles| == |Decode(news.value).value|)
  {
  }

  /** An empty array is a truthy result: it clears the error and empties the list rather
      than showing the "no news" message. */
  lemma EmptyFeedIsNotAnError(st: Feed, user: UserId)
    ensures var r := FetchData(st, Some(user), Some(RawArray([])), []);
            r.error.None? && r.articles == []
  {
  }

  /** An empty string result is falsy: the "no news" message, and the articles stay. */
  lemma EmptyStringIsNoNews(st: Feed, user: UserId, parsed: Option<Parsed>)
    ensures var r := FetchData(st, Some(user), Some(RawString([], parsed)), []);
            r.error == Some(NoNews) && Message(r.error.value) == Some(NoNewsMessage) && r.articles == st.articles
  {
  }

  /** The save button of an article is disabled while its id is in the in-flight set. */
  predicate SaveDisabled(saving: set<string>, a: FeedArticle): (d: bool)
    ensures d <==> a.id in saving
    ensures d ==> saving != {}
  {
    a.id in saving
  }

  datatype Toast = SignInPrompt | SavedToast | SaveFailedToast

  /** One `handleSaveArticle` run: whether the repository was called, the in-flight set
      while the call runs and after it, the backend afterwards and the toast shown. */
  datatype SaveStep = SaveStep(called: bool, during: set<string>, after: set<string>, backend: Backend, toast: Toast)

  /** `handleSaveArticle`: without a user nothing is saved, but the early return runs
      inside the `try`, so the `finally` still removes the article's `id` from the set;
      otherwise the `id` is in the set for the whole call and removed after it, whatever
      the outcome. */
  function HandleSaveArticle(b: Backend, saving: set<string>, session: Option<UserId>, a: FeedArticle,
                             articleFault: bool, joinFault: bool, now: string): (r: SaveStep)
    ensures session.None? ==> !r.called && r.during == saving && r.backend == b && r.toast == SignInPrompt
    ensures r.after == saving - {a.id}
    ensures session.Some? ==> r.called && r.during == saving + {a.id}
    ensures session.Some? ==> SaveDisabled(r.during, a) && !SaveDisabled(r.after, a)
    ensures session.Some? ==>
              var s := SavedRepository.SaveArticle(b, session, session.value, a, articleFault, joinFault, now);
              r.backend == s.backend && (r.toast == SavedToast <==> s.ok) && (r.toast == SaveFailedToast <==> !s.ok)
  {
    match session
    case None => SaveStep(false, saving, saving - {a.id}, b, SignInPrompt)
    case Some(user) =>
      var during := saving + {a.id};
      var s := SavedRepository.SaveArticle(b, session, user, a, articleFault, joinFault, now);
      SaveStep(true, during, during - {a.id}, s.backend, if s.ok then SavedToast else SaveFailedToast)
  }

  /** An in-flight set is left as it was by a save of an article not already in it. */
  lemma SaveRestoresInFlightSet(b: Backend, saving: set<string>, session: Option<UserId>, a: FeedArticle,
                                articleFault: bool, joinFault: bool, now: string)
    requires a.id !in saving
    ensures HandleSaveArticle(b, saving, session, a, articleFault, joinFault, now).after == saving
  {
  }
}
