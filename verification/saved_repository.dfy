/** The saved-article repository: the two-step save, the joined read and the delete
    (`saveArticle`, `fetchSavedArticles`, `deleteSavedArticle`). */
module SavedRepository {
  import opened Wrappers
  import opened News
  import opened Store

  /** A mutation the client sends. */
  datatype Request =
    | InsertArticleRequest(row: ArticleRow)
    | InsertJoinRequest(userId: UserId, articleId: string)

  /** The backend after a save, the boolean the caller sees, and the mutations sent in order. */
  datatype SaveResult = SaveResult(backend: Backend, ok: bool, requests: seq<Request>)

  /** The article row `saveArticle` sends: keyed by the feed article's `uuid`, never its
      `id`, and without a title. */
  function ToRow(a: FeedArticle): (row: ArticleRow)
    ensures row.id == a.uuid
    ensures row.imageUrl == a.imageUrl && row.summary == a.summary && row.articleUrl == a.articleUrl
    ensures row.sentiment == a.sentiment && row.source == a.source && row.publishedAt == a.publishedAt
  {
    ArticleRow(a.uuid, a.imageUrl, a.summary, a.articleUrl, a.sentiment, a.source, a.publishedAt)
  }

  /** The row sent does not depend on the feed article's `id` or `title`. */
  lemma ToRowIgnoresIdAndTitle(a: FeedArticle, id: string, title: string)
    ensures ToRow(a.(id := id, title := title)) == ToRow(a)
  {
  }

  /** `insert_articles_one`: fails on a fault or on an id the table already holds;
      otherwise stores the row and answers with its id. */
  function InsertArticle(b: Backend, row: ArticleRow, fault: bool): (r: (Backend, Call<string>))
    ensures r.1.Ok? <==> !fault && row.id !in b.articles
    ensures r.1.Ok? ==> r.1.value == row.id
    ensures r.1.Ok? ==> r.0 == b.(articles := b.articles[row.id := row])
    ensures r.1.Err? ==> r.0 == b
  {
    if fault || row.id in b.articles then (b, Err)
    else (b.(articles := b.articles[row.id := row]), Ok(row.id))
  }

  /** `insert_saved_articles_one`: appends a join row stamped with the server time `now`. */
  function InsertJoin(b: Backend, user: UserId, articleId: string, now: string, fault: bool): (r: (Backend, bool))
    ensures r.1 <==> !fault
    ensures r.1 ==> r.0 == b.(saved := b.saved + [JoinRow(user, articleId, now)])
    ensures !r.1 ==> r.0 == b
  {
    if fault then (b, false) else (b.(saved := b.saved + [JoinRow(user, articleId, now)]), true)
  }

  /** `saveArticle`: the join insert is attempted only after an error-free article insert,
      links the id that insert returned, and the call succeeds iff both inserts do. A
      failed join insert leaves the article row behind. */
  function SaveArticle(b: Backend, session: Option<UserId>, user: UserId, a: FeedArticle,
                       articleFault: bool, joinFault: bool, now: string): (r: SaveResult)
    ensures r.ok <==> session.Some? && !articleFault && a.uuid !in b.articles && !joinFault
    ensures |r.requests| <= 2
    ensures r.requests == [] <==> session.None?
    ensures r.requests != [] ==> r.requests[0] == InsertArticleRequest(ToRow(a))
    ensures |r.requests| == 2 <==> session.Some? && !articleFault && a.uuid !in b.articles
    ensures |r.requests| == 2 ==> r.requests[1] == InsertJoinRequest(user, a.uuid)
    ensures |r.requests| < 2 ==> r.backend == b
    ensures |r.requests| == 2 ==> r.backend.articles == b.articles[a.uuid := ToRow(a)]
    ensures r.ok ==> r.backend.saved == b.saved + [JoinRow(user, a.uuid, now)]
    ensures !r.ok ==> r.backend.saved == b.saved
    ensures r.backend.prefs == b.prefs
  {
    if session.None? then SaveResult(b, false, [])
    else
      var row := ToRow(a);
      var (b1, inserted) := InsertArticle(b, row, articleFault);
      if inserted.Err? then SaveResult(b1, false, [InsertArticleRequest(row)])
      else
        var articleId := inserted.value;
        var (b2, linked) := InsertJoin(b1, user, articleId, now, joinFault);
        SaveResult(b2, linked, [InsertArticleRequest(row), InsertJoinRequest(user, articleId)])
  }

  /** A save keeps every join row pointing at a stored article. */
  lemma SaveKeepsValid(b: Backend, session: Option<UserId>, user: UserId, a: FeedArticle,
                       articleFault: bool, joinFault: bool, now: string)
    requires Valid(b)
    ensures Valid(SaveArticle(b, session, user, a, articleFault, joinFault, now).backend)
  {
    var r := SaveArticle(b, session, user, a, articleFault, joinFault, now);
    if r.ok {
      var s := r.backend.saved;
      forall i | 0 <= i < |s|
        ensures s[i].articleId in r.backend.articles
      {
        if i < |b.saved| {
          assert s[i] == b.saved[i];
        }
      }
    }
  }

  /** One saved article: the article row's columns plus its join row's owner and save time. */
  function Flatten(row: ArticleRow, j: JoinRow): (s: SavedArticle)
    ensures s.userId == j.userId && s.savedAt == j.savedAt
    ensures s.id == row.id && s.summary == row.summary && s.imageUrl == row.imageUrl
    ensures s.articleUrl == row.articleUrl && s.sentiment == row.sentiment
    ensures s.source == row.source && s.publishedAt == row.publishedAt
  {
    SavedArticle(row.id, row.imageUrl, row.summary, row.articleUrl, row.sentiment,
                 row.source, row.publishedAt, j.userId, j.savedAt)
  }

  /** The joined read, one element per join row in order. */
  function Joined(articles: map<string, ArticleRow>, rows: seq<JoinRow>): (r: seq<SavedArticle>)
    requires forall i :: 0 <= i < |rows| ==> rows[i].articleId in articles
    ensures |r| == |rows|
    ensures forall i {:trigger r[i]} :: 0 <= i < |rows| ==> r[i] == Flatten(articles[rows[i].articleId], rows[i])
    decreases |rows|
  {
    if rows == [] then []
    else [Flatten(articles[rows[0].articleId], rows[0])] + Joined(articles, rows[1..])
  }

  /** `fetchSavedArticles`: the user's join rows, each flattened with its article, in
      order; no session or a failed call gives the empty list. */
  function FetchSavedArticles(b: Backend, session: Option<UserId>, user: UserId, fault: bool): (r: seq<SavedArticle>)
    requires Valid(b)
    ensures session.None? || fault ==> r == []
    ensures session.Some? && !fault ==> |r| == |RowsOf(b.saved, user)|
    ensures session.Some? && !fault ==>
              forall i :: 0 <= i < |r| ==>
                var j := RowsOf(b.saved, user)[i];
                r[i] == Flatten(b.articles[j.articleId], j) && r[i].id == j.articleId && r[i].userId == user
  {
    if session.None? || fault then []
    else
      var rows := RowsOf(b.saved, user);
      RowsStored(b, user);
      Joined(b.articles, rows)
  }

  lemma {:induction false} JoinedAppend(articles: map<string, ArticleRow>, rows: seq<JoinRow>, j: JoinRow)
    requires forall i :: 0 <= i < |rows| ==> rows[i].articleId in articles
    requires j.articleId in articles
    ensures Joined(articles, rows + [j]) == Joined(articles, rows) + [Flatten(articles[j.articleId], j)]
  {
    var l := Joined(articles, rows + [j]);
    var r := Joined(articles, rows) + [Flatten(articles[j.articleId], j)];
    assert |l| == |r|;
    forall i | 0 <= i < |l|
      ensures l[i] == r[i]
    {
      if i < |rows| {
        assert (rows + [j])[i] == rows[i];
      }
    }
  }

  /** A user's join rows in a valid backend all point at stored articles. */
  lemma RowsStored(b: Backend, user: UserId)
    requires Valid(b)
    ensures forall i :: 0 <= i < |RowsOf(b.saved, user)| ==> RowsOf(b.saved, user)[i].articleId in b.articles
  {
    var rows := RowsOf(b.saved, user);
    forall i | 0 <= i < |rows|
      ensures rows[i].articleId in b.articles
    {
      var k :| 0 <= k < |b.saved| && b.saved[k] == rows[i];
    }
  }

  /** Adding an article row under a new id does not change the join of rows that
      point at other articles. */
  lemma JoinedFrame(articles: map<string, ArticleRow>, rows: seq<JoinRow>, id: string, row: ArticleRow)
    requires forall i :: 0 <= i < |rows| ==> rows[i].articleId in articles
    requires id !in articles
    ensures Joined(articles[id := row], rows) == Joined(articles, rows)
  {
    var before := Joined(articles, rows);
    var after := Joined(articles[id := row], rows);
    forall i | 0 <= i < |rows|
      ensures before[i] == after[i]
    {
      assert rows[i].articleId != id;
    }
  }

  /** A successful save shows up at the end of the saver's list, with the article's
      uuid as its id, and the rest of the list is what it was. */
  lemma {:induction false} SaveThenFetch(b: Backend, user: UserId, a: FeedArticle, now: string)
    requires Valid(b)
    requires a.uuid !in b.articles
    ensures var r := SaveArticle(b, Some(user), user, a, false, false, now);
            r.ok && Valid(r.backend)
            && FetchSavedArticles(r.backend, Some(user), user, false)
               == FetchSavedArticles(b, Some(user), user, false) + [Flatten(ToRow(a), JoinRow(user, a.uuid, now))]
  {
    var r := SaveArticle(b, Some(user), user, a, false, false, now);
    SaveKeepsValid(b, Some(user), user, a, false, false, now);
    var j := JoinRow(user, a.uuid, now);
    var row := ToRow(a);
    assert r.ok && r.backend.saved == b.saved + [j];
    assert r.backend.articles == b.articles[a.uuid := row];
    RowsOfAppend(b.saved, [j], user);
    assert RowsOf([j], user) == [j] by {
      assert [j][1..] == [];
    }
    var rows := RowsOf(b.saved, user);
    RowsStored(b, user);
    JoinedAppend(r.backend.articles, rows, j);
    JoinedFrame(b.articles, rows, a.uuid, row);
  }

  /** A join row for exactly this owner and article. */
  predicate Matches(j: JoinRow, user: UserId, articleId: string) {
    j.userId == user && j.articleId == articleId
  }

  /** The join rows left after deleting every row for (`user`, `articleId`): every other
      row keeps its multiplicity (`RemovePairAppend` adds that it keeps its place). */
  function RemovePair(saved: seq<JoinRow>, user: UserId, articleId: string): (r: seq<JoinRow>)
    ensures forall i :: 0 <= i < |r| ==> r[i] in saved && !Matches(r[i], user, articleId)
    ensures forall i :: 0 <= i < |saved| && !Matches(saved[i], user, articleId) ==> saved[i] in r
    ensures |r| < |saved| <==> exists i :: 0 <= i < |saved| && Matches(saved[i], user, articleId)
    ensures |r| <= |saved|
    ensures |r| == |saved| ==> r == saved
    ensures forall j {:trigger multiset(r)[j]} :: !Matches(j, user, articleId) ==> multiset(r)[j] == multiset(saved)[j]
    ensures forall j {:trigger multiset(r)[j]} :: Matches(j, user, articleId) ==> multiset(r)[j] == 0
    decreases |saved|
  {
    if saved == [] then []
    else
      var rest := RemovePair(saved[1..], user, articleId);
      var r := if Matches(saved[0], user, articleId) then rest else [saved[0]] + rest;
      RemovalStep(saved, rest, r, user, articleId);
      r
  }

  /** A proof-only copy of `RemovePair`'s seven postconditions, bundled so that the step
      lemmas below can pass them on as one fact; the contract itself is stated on
      `RemovePair`. */
  ghost predicate Removal(saved: seq<JoinRow>, r: seq<JoinRow>, user: UserId, articleId: string) {
    && (forall i :: 0 <= i < |r| ==> r[i] in saved && !Matches(r[i], user, articleId))
    && (forall i :: 0 <= i < |saved| && !Matches(saved[i], user, articleId) ==> saved[i] in r)
    && (|r| < |saved| <==> exists i :: 0 <= i < |saved| && Matches(saved[i], user, articleId))
    && |r| <= |saved|
    && (|r| == |saved| ==> r == saved)
    && (forall j {:trigger multiset(r)[j]} :: !Matches(j, user, articleId) ==> multiset(r)[j] == multiset(saved)[j])
    && (forall j {:trigger multiset(r)[j]} :: Matches(j, user, articleId) ==> multiset(r)[j] == 0)
  }

  /** One step of `RemovePair`: from the rows left of the tail to the rows left of the
      whole list. */
  lemma RemovalStep(saved: seq<JoinRow>, rest: seq<JoinRow>, r: seq<JoinRow>, user: UserId, articleId: string)
    requires saved != []
    requires Removal(saved[1..], rest, user, articleId)
    requires r == if Matches(saved[0], user, articleId) then rest else [saved[0]] + rest
    ensures Removal(saved, r, user, articleId)
  {
    HasMatchStep(saved, user, articleId);
    KeptStep(saved, rest, r, user, articleId);
    CountStep(saved, rest, r, user, articleId);
  }

  /** The multiplicity half of one `RemovePair` step. */
  lemma CountStep(saved: seq<JoinRow>, rest: seq<JoinRow>, r: seq<JoinRow>, user: UserId, articleId: string)
    requires saved != []
    requires forall j {:trigger multiset(rest)[j]} :: !Matches(j, user, articleId) ==> multiset(rest)[j] == multiset(saved[1..])[j]
    requires forall j {:trigger multiset(rest)[j]} :: Matches(j, user, articleId) ==> multiset(rest)[j] == 0
    requires r == if Matches(saved[0], user, articleId) then rest else [saved[0]] + rest
    ensures forall j {:trigger multiset(r)[j]} :: !Matches(j, user, articleId) ==> multiset(r)[j] == multiset(saved)[j]
    ensures forall j {:trigger multiset(r)[j]} :: Matches(j, user, articleId) ==> multiset(r)[j] == 0
  {
    assert saved == [saved[0]] + saved[1..];
    assert multiset(saved) == multiset{saved[0]} + multiset(saved[1..]);
    if !Matches(saved[0], user, articleId) {
      assert multiset(r) == multiset{saved[0]} + multiset(rest);
    }
  }

  /** A list has a matching row iff its head matches or its tail has one. */
  lemma HasMatchStep(saved: seq<JoinRow>, user: UserId, articleId: string)
    requires saved != []
    ensures (exists i :: 0 <= i < |saved| && Matches(saved[i], user, articleId))
            <==> Matches(saved[0], user, articleId)
                 || exists i :: 0 <= i < |saved[1..]| && Matches(saved[1..][i], user, articleId)
  {
    if exists i :: 0 <= i < |saved| && Matches(saved[i], user, articleId) {
      var i :| 0 <= i < |saved| && Matches(saved[i], user, articleId);
      if i > 0 {
        assert saved[1..][i - 1] == saved[i];
      }
    }
  }

  /** The membership half of one `RemovePair` step. */
  lemma KeptStep(saved: seq<JoinRow>, rest: seq<JoinRow>, r: seq<JoinRow>, user: UserId, articleId: string)
    requires saved != []
    requires forall i :: 0 <= i < |rest| ==> rest[i] in saved[1..] && !Matches(rest[i], user, articleId)
    requires forall i :: 0 <= i < |saved[1..]| && !Matches(saved[1..][i], user, articleId) ==> saved[1..][i] in rest
    requires r == if Matches(saved[0], user, articleId) then rest else [saved[0]] + rest
    ensures forall i :: 0 <= i < |r| ==> r[i] in saved && !Matches(r[i], user, articleId)
    ensures forall i :: 0 <= i < |saved| && !Matches(saved[i], user, articleId) ==> saved[i] in r
  {
    KeptSound(saved, rest, r, user, articleId);
    var tail := saved[1..];
    forall i | 0 <= i < |saved| && !Matches(saved[i], user, articleId)
      ensures saved[i] in r
    {
      if i > 0 {
        assert tail[i - 1] == saved[i];
        assert saved[i] in rest;
      }
    }
  }

  /** Every row one `RemovePair` step keeps comes from the list and does not match. */
  lemma KeptSound(saved: seq<JoinRow>, rest: seq<JoinRow>, r: seq<JoinRow>, user: UserId, articleId: string)
    requires saved != []
    requires forall i :: 0 <= i < |rest| ==> rest[i] in saved[1..] && !Matches(rest[i], user, articleId)
    requires r == if Matches(saved[0], user, articleId) then rest else [saved[0]] + rest
    ensures forall i :: 0 <= i < |r| ==> r[i] in saved && !Matches(r[i], user, articleId)
  {
    var tail := saved[1..];
    forall i | 0 <= i < |r|
      ensures r[i] in saved && !Matches(r[i], user, articleId)
    {
      var m := if Matches(saved[0], user, articleId) then i else i - 1;
      if m >= 0 {
        assert r[i] == rest[m];
        var k :| 0 <= k < |tail| && tail[k] == r[i];
        assert saved[k + 1] == r[i];
      }
    }
  }

  /** The delete filter distributes over concatenation, so the surviving rows keep
      their relative order. */
  lemma {:induction false} RemovePairAppend(p: seq<JoinRow>, q: seq<JoinRow>, user: UserId, articleId: string)
    ensures RemovePair(p + q, user, articleId) == RemovePair(p, user, articleId) + RemovePair(q, user, articleId)
    decreases |p|
  {
    if p == [] {
      assert p + q == q;
    } else {
      assert (p + q)[1..] == p[1..] + q;
      assert (p + q)[0] == p[0];
      RemovePairAppend(p[1..], q, user, articleId);
    }
  }

  /** `deleteSavedArticle`: deletes the join rows for this pair and reports success iff
      at least one row was affected; no session or a failed call deletes nothing. */
  function DeleteSavedArticle(b: Backend, session: Option<UserId>, user: UserId, articleId: string,
                              fault: bool): (r: (Backend, bool))
    ensures r.1 <==> session.Some? && !fault && exists i :: 0 <= i < |b.saved| && Matches(b.saved[i], user, articleId)
    ensures !r.1 ==> r.0 == b
    ensures r.0.articles == b.articles && r.0.prefs == b.prefs
    ensures session.Some? && !fault ==> r.0.saved == RemovePair(b.saved, user, articleId)
  {
    if session.None? || fault then (b, false)
    else
      var rest := RemovePair(b.saved, user, articleId);
      var affected := |b.saved| - |rest|;
      (b.(saved := rest), affected > 0)
  }

  /** A delete keeps every join row pointing at a stored article. */
  lemma DeleteKeepsValid(b: Backend, session: Option<UserId>, user: UserId, articleId: string, fault: bool)
    requires Valid(b)
    ensures Valid(DeleteSavedArticle(b, session, user, articleId, fault).0)
  {
    var r := DeleteSavedArticle(b, session, user, articleId, fault).0;
    forall i | 0 <= i < |r.saved|
      ensures r.saved[i].articleId in r.articles
    {
      var k :| 0 <= k < |b.saved| && b.saved[k] == r.saved[i];
    }
  }
}
