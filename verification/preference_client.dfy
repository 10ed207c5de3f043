/** Reading and upserting a user's preference row (`getPreferences`, `savePreferences`). */
module PreferenceClient {
  import opened Wrappers
  import opened News
  import opened Store

  /** The rows the `GetPreferences` query returns: the owner key is the table's primary
      key, so there is at most one. */
  function PreferenceRows(b: Backend, user: UserId): (rows: seq<Prefs>)
    ensures |rows| <= 1
    ensures rows != [] <==> user in b.prefs
    ensures rows != [] ==> rows[0] == b.prefs[user]
  {
    if user in b.prefs then [b.prefs[user]] else []
  }

  /** `getPreferences`: the first row the query returns. No session, a failed call and a
      user without a row all give `None`. `fault` stands for a thrown exception or a
      response carrying `errors`. */
  function GetPreferences(b: Backend, session: Option<UserId>, user: UserId, fault: bool): (r: Option<Prefs>)
    ensures r.Some? <==> session.Some? && !fault && user in b.prefs
    ensures r.Some? ==> r.value == b.prefs[user]
  {
    if session.None? || fault then None
    else
      var rows := PreferenceRows(b, user);
      if rows == [] then None else Some(rows[0])
  }

  /** `savePreferences`: an insert that, on a conflict of the owner key, overwrites the
      three list columns. Returns the new backend and the boolean the caller sees. */
  function SavePreferences(b: Backend, session: Option<UserId>, user: UserId,
                           topics: seq<string>, sources: seq<string>, keywords: seq<string>,
                           fault: bool): (r: (Backend, bool))
    ensures r.1 <==> session.Some? && !fault
    ensures !r.1 ==> r.0 == b
    ensures r.1 ==> user in r.0.prefs && r.0.prefs[user] == Prefs(topics, sources, keywords)
    ensures r.1 ==> r.0.prefs.Keys == b.prefs.Keys + {user}
    ensures forall u :: u in b.prefs && u != user ==> u in r.0.prefs && r.0.prefs[u] == b.prefs[u]
    ensures r.0.articles == b.articles && r.0.saved == b.saved
  {
    if session.None? || fault then (b, false)
    else (b.(prefs := b.prefs[user := Prefs(topics, sources, keywords)]), true)
  }

  /** After a successful save, reading the preferences back yields exactly the three lists. */
  lemma SaveThenGet(b: Backend, user: UserId, topics: seq<string>, sources: seq<string>, keywords: seq<string>)
    ensures var r := SavePreferences(b, Some(user), user, topics, sources, keywords, false);
            r.1 && GetPreferences(r.0, Some(user), user, false) == Some(Prefs(topics, sources, keywords))
  {
  }

  /** Saving twice for one user keeps one row for that user, holding the second save's
      lists, and the set of owners is what a single save would leave. */
  lemma SaveTwiceKeepsOneRow(b: Backend, user: UserId, first: Prefs, second: Prefs)
    ensures var once := SavePreferences(b, Some(user), user, first.topics, first.sources, first.keywords, false).0;
            var twice := SavePreferences(once, Some(user), user, second.topics, second.sources, second.keywords, false).0;
            twice.prefs.Keys == once.prefs.Keys && twice.prefs[user] == second
            && |PreferenceRows(twice, user)| == 1
  {
  }
}
