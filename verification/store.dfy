/** The backend's tables, seen as abstract state: the `preferences` table keyed by
    owner, the `articles` table keyed by article id, and the `saved_articles` join
    rows in the order the backend lists them. */
module Store {
  import opened News

  /** One user's stored preference row. The only writer declares all three columns
      as non-null string arrays. */
  datatype Prefs = Prefs(topics: seq<string>, sources: seq<string>, keywords: seq<string>)

  /** A `saved_articles` row: the owner, the saved article's id, the server's save time. */
  datatype JoinRow = JoinRow(userId: UserId, articleId: string, savedAt: string)

  datatype Backend = Backend(
    prefs: map<UserId, Prefs>,
    articles: map<string, ArticleRow>,
    saved: seq<JoinRow>)

  /** Every article row sits under its own id and every join row points at a stored article. */
  predicate Valid(b: Backend) {
    && (forall k :: k in b.articles ==> b.articles[k].id == k)
    && (forall i :: 0 <= i < |b.saved| ==> b.saved[i].articleId in b.articles)
  }

  /** A backend with no rows at all. */
  const Empty := Backend(map[], map[], [])

  /** The join rows owned by `user`, in backend order. */
  function RowsOf(saved: seq<JoinRow>, user: UserId): (r: seq<JoinRow>)
    ensures |r| <= |saved|
    ensures forall i :: 0 <= i < |r| ==> r[i].userId == user && r[i] in saved
    ensures forall i :: 0 <= i < |saved| && saved[i].userId == user ==> saved[i] in r
  {
    if saved == [] then []
    else if saved[0].userId == user then [saved[0]] + RowsOf(saved[1..], user)
    else RowsOf(saved[1..], user)
  }

  /** Listing a user's rows commutes with appending rows. */
  lemma {:induction false} RowsOfAppend(a: seq<JoinRow>, b: seq<JoinRow>, user: UserId)
    ensures RowsOf(a + b, user) == RowsOf(a, user) + RowsOf(b, user)
    decreases |a|
  {
    if a == [] {
      assert a + b == b;
    } else {
      assert (a + b)[1..] == a[1..] + b;
      RowsOfAppend(a[1..], b, user);
    }
  }
}
