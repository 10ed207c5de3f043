/** The saved-articles screen: loading the list, deleting an entry, and the title shown. */
module SavedView {
  import opened Wrappers
  import opened Text
  import opened News
  import opened Store
  import SavedRepository

  datatype Page = Page(articles: seq<SavedArticle>, loading: bool, error: Option<string>, deleting: Option<string>)

  const InitialPage := Page([], true, None, None)
  const NotAuthenticated := "User not authenticated"
  const DeleteFailed := "Failed to delete article"

  /** `fetchArticles`: without a user the error screen; otherwise the list is replaced
      by the repository's answer (which is `[]` on a failed call) and the error cleared. */
  function FetchArticles(st: Page, b: Backend, session: Option<UserId>, fault: bool): (r: Page)
    requires Valid(b)
    ensures !r.loading && r.deleting == st.deleting
    ensures session.None? ==> r.error == Some(NotAuthenticated) && r.articles == st.articles
    ensures session.Some? ==> r.error.None? && r.articles == SavedRepository.FetchSavedArticles(b, session, session.value, fault)
  {
    match session
    case None => st.(loading := false, error := Some(NotAuthenticated))
    case Some(user) =>
      st.(loading := false, articles := SavedRepository.FetchSavedArticles(b, session, user, fault), error := None)
  }

  /** The heading shown for a saved article: its summary up to the first full stop. */
  function Title(a: SavedArticle): (t: string)
    ensures t <= a.summary && '.' !in t
    ensures |t| < |a.summary| ==> a.summary[|t|] == '.'
  {
    FirstSentence(a.summary)
  }

  /** What the screen shows. */
  datatype Screen = LoadingScreen | ErrorScreen(message: string) | EmptyScreen | ListScreen(titles: seq<string>)

  function Render(p: Page): (s: Screen)
    ensures p.loading ==> s == LoadingScreen
    ensures !p.loading && p.error.Some? ==> s == ErrorScreen(p.error.value)
    ensures s == EmptyScreen <==> !p.loading && p.error.None? && p.articles == []
    ensures !p.loading && p.error.None? && p.articles != [] ==> s.ListScreen?
    ensures s.ListScreen? ==> |s.titles| == |p.articles|
    ensures s.ListScreen? ==> forall i :: 0 <= i < |p.articles| ==> s.titles[i] == Title(p.articles[i])
  {
    if p.loading then LoadingScreen
    else if p.error.Some? then ErrorScreen(p.error.value)
    else if p.articles == [] then EmptyScreen
    else ListScreen(seq(|p.articles|, i requires 0 <= i < |p.articles| => Title(p.articles[i])))
  }

  /** The screen opens on the loading view; once the list is read for a signed-in
      user it shows the empty view exactly when the read gave no articles. */
  lemma MountThenFetch(b: Backend, user: UserId, fault: bool)
    requires Valid(b)
    ensures Render(InitialPage) == LoadingScreen
    ensures var p := FetchArticles(InitialPage, b, Some(user), fault);
            Render(p) == EmptyScreen <==> SavedRepository.FetchSavedArticles(b, Some(user), user, fault) == []
  {
  }

  /** A user with no saved rows sees the empty view, not an error, whatever else the
      backend holds and whether or not the read fails. */
  lemma NoSavedArticlesShowsEmpty(st: Page, b: Backend, user: UserId, fault: bool)
    requires Valid(b) && RowsOf(b.saved, user) == []
    ensures Render(FetchArticles(st, b, Some(user), fault)) == EmptyScreen
  {
    var listed := SavedRepository.FetchSavedArticles(b, Some(user), user, fault);
    assert |listed| == 0;
  }

  /** `articles.filter(article => article.id !== articleId)`. */
  function RemoveById(list: seq<SavedArticle>, articleId: string): (r: seq<SavedArticle>)
    ensures |r| <= |list|
    ensures forall i :: 0 <= i < |r| ==> r[i].id != articleId && r[i] in list
    ensures forall i :: 0 <= i < |list| && list[i].id != articleId ==> list[i] in r
    ensures (forall i :: 0 <= i < |list| ==> list[i].id != articleId) ==> r == list
  {
    if list == [] then []
    else if list[0].id == articleId then RemoveById(list[1..], articleId)
    else
      assert list == [list[0]] + list[1..];
      [list[0]] + RemoveById(list[1..], articleId)
  }

  /** The client-side filter distributes over concatenation, so the entries it keeps
      stay in their order. */
  lemma {:induction false} RemoveByIdAppend(p: seq<SavedArticle>, q: seq<SavedArticle>, articleId: string)
    ensures RemoveById(p + q, articleId) == RemoveById(p, articleId) + RemoveById(q, articleId)
    decreases |p|
  {
    if p == [] {
      assert p + q == q;
    } else {
      assert (p + q)[1..] == p[1..] + q;
      assert (p + q)[0] == p[0];
      RemoveByIdAppend(p[1..], q, articleId);
    }
  }

  datatype DeleteToast = RemovedToast | DeleteErrorToast(message: string)

  /** One `handleDelete` run: the `isDeleting` marker while the call runs, the page and
      backend afterwards, and the toast shown. */
  datatype DeleteStep = DeleteStep(during: Option<string>, page: Page, backend: Backend, toast: DeleteToast)

  /** `handleDelete`: a successful delete drops every entry with that id and keeps the
      rest in order; a failed one (no user, or `false`) keeps the list and reports an
      error; `isDeleting` holds the id during the call and is reset afterwards. */
  function HandleDelete(st: Page, b: Backend, session: Option<UserId>, articleId: string, fault: bool): (r: DeleteStep)
    ensures r.during == Some(articleId) && r.page.deleting.None?
    ensures r.page.loading == st.loading && r.page.error == st.error
    ensures session.None? ==> r.page.articles == st.articles && r.backend == b && r.toast == DeleteErrorToast(NotAuthenticated)
    ensures session.Some? ==>
              var d := SavedRepository.DeleteSavedArticle(b, session, session.value, articleId, fault);
              r.backend == d.0
              && (d.1 ==> r.page.articles == RemoveById(st.articles, articleId) && r.toast == RemovedToast)
              && (!d.1 ==> r.page.articles == st.articles && r.toast == DeleteErrorToast(DeleteFailed))
  {
    var after := st.(deleting := None);
    match session
    case None => DeleteStep(Some(articleId), after, b, DeleteErrorToast(NotAuthenticated))
    case Some(user) =>
      var (b', ok) := SavedRepository.DeleteSavedArticle(b, session, user, articleId, fault);
      if ok then DeleteStep(Some(articleId), after.(articles := RemoveById(st.articles, articleId)), b', RemovedToast)
      else DeleteStep(Some(articleId), after, b', DeleteErrorToast(DeleteFailed))
  }

  lemma {:induction false} RemoveByIdJoined(articles: map<string, ArticleRow>, saved: seq<JoinRow>,
                                            user: UserId, articleId: string)
    requires forall k :: k in articles ==> articles[k].id == k
    requires forall i :: 0 <= i < |saved| ==> saved[i].articleId in articles
    ensures forall i :: 0 <= i < |RowsOf(saved, user)| ==> RowsOf(saved, user)[i].articleId in articles
    ensures forall i :: 0 <= i < |RowsOf(SavedRepository.RemovePair(saved, user, articleId), user)| ==>
              RowsOf(SavedRepository.RemovePair(saved, user, articleId), user)[i].articleId in articles
    ensures RemoveById(SavedRepository.Joined(articles, RowsOf(saved, user)), articleId)
            == SavedRepository.Joined(articles, RowsOf(SavedRepository.RemovePair(saved, user, articleId), user))
    decreases |saved|
  {
    var rows := RowsOf(saved, user);
    forall i | 0 <= i < |rows|
      ensures rows[i].articleId in articles
    {
      var k :| 0 <= k < |saved| && saved[k] == rows[i];
    }
    var kept := SavedRepository.RemovePair(saved, user, articleId);
    var keptRows := RowsOf(kept, user);
    forall i | 0 <= i < |keptRows|
      ensures keptRows[i].articleId in articles
    {
      var k :| 0 <= k < |kept| && kept[k] == keptRows[i];
      var m :| 0 <= m < |saved| && saved[m] == kept[k];
    }
    if saved != [] {
      var j := saved[0];
      var tail := saved[1..];
      assert forall i :: 0 <= i < |tail| ==> tail[i] == saved[i + 1];
      RemoveByIdJoined(articles, tail, user, articleId);
      var tailRows := RowsOf(tail, user);
      var tailKept := SavedRepository.RemovePair(tail, user, articleId);
      if j.userId == user {
        assert rows == [j] + tailRows;
        assert ([j] + tailRows)[1..] == tailRows;
        var joined := SavedRepository.Joined(articles, rows);
        assert joined == [SavedRepository.Flatten(articles[j.articleId], j)] + SavedRepository.Joined(articles, tailRows);
        assert joined[0].id == j.articleId;
        assert joined[1..] == SavedRepository.Joined(articles, tailRows);
        if j.articleId == articleId {
          assert kept == tailKept;
        } else {
          assert kept == [j] + tailKept;
          assert ([j] + tailKept)[1..] == tailKept;
          assert keptRows == [j] + RowsOf(tailKept, user);
          assert ([j] + RowsOf(tailKept, user))[1..] == RowsOf(tailKept, user);
        }
      } else {
        assert rows == tailRows;
        assert kept == [j] + tailKept;
        assert ([j] + tailKept)[1..] == tailKept;
        assert keptRows == RowsOf(tailKept, user);
      }
    }
  }

  /** The client-side update after a successful delete agrees with the backend: the
      filtered list is exactly what a fresh read of the saved articles would return. */
  lemma DeleteMatchesRefetch(b: Backend, user: UserId, articleId: string)
    requires Valid(b)
    ensures var listed := SavedRepository.FetchSavedArticles(b, Some(user), user, false);
            var d := SavedRepository.DeleteSavedArticle(b, Some(user), user, articleId, false);
            Valid(d.0) && RemoveById(listed, articleId) == SavedRepository.FetchSavedArticles(d.0, Some(user), user, false)
  {
    SavedRepository.DeleteKeepsValid(b, Some(user), user, articleId, false);
    RemoveByIdJoined(b.articles, b.saved, user, articleId);
  }
}
