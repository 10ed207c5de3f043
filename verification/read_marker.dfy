/** The browser-local read list (`markArticleAsRead`, `isArticleRead`). */
module ReadMarker {
  import opened Text

  /** The stored `readArticles` value once decoded: a list of ids (an absent key reads as
      the empty list), or a value that cannot be read back, when parsing or storage
      access throws. */
  datatype LocalStore = Readable(ids: seq<string>) | Unreadable

  /** Whether an id counts as read. */
  predicate IsRead(store: LocalStore, articleId: string) {
    store.Readable? && articleId in store.ids
  }

  /** `markArticleAsRead`: appends the id unless it is already listed. An unreadable
      store is left as it is, and so is a readable one when writing the new list back
      throws (`writeFault`, a full or blocked storage); the exception is swallowed. */
  function MarkArticleAsRead(store: LocalStore, articleId: string, writeFault: bool): (r: LocalStore)
    ensures r.Readable? <==> store.Readable?
    ensures writeFault ==> r == store
    ensures store.Readable? ==> store.ids <= r.ids && |r.ids| <= |store.ids| + 1
    ensures store.Readable? && |r.ids| > |store.ids| ==> r.ids[|store.ids|] == articleId
    ensures store.Readable? && !writeFault ==>
              multiset(r.ids)[articleId] == if articleId in store.ids then multiset(store.ids)[articleId] else 1
    ensures store.Readable? ==> forall y :: y != articleId ==> multiset(r.ids)[y] == multiset(store.ids)[y]
  {
    match store
    case Unreadable => store
    case Readable(ids) =>
      if articleId in ids || writeFault then store
      else Readable(ids + [articleId])
  }

  /** `isArticleRead`: a linear scan of the stored list; an unreadable store reads as "not read". */
  method IsArticleRead(store: LocalStore, articleId: string) returns (read: bool)
    ensures read <==> store.Readable? && articleId in store.ids
  {
    if store.Unreadable? {
      return false;
    }
    var ids := store.ids;
    var k := 0;
    read := false;
    while k < |ids| && !read
      invariant 0 <= k <= |ids|
      invariant read <==> articleId in ids[..k]
    {
      if ids[k] == articleId {
        read := true;
      }
      assert ids[..k + 1] == ids[..k] + [ids[k]];
      k := k + 1;
    }
    assert !read ==> ids[..k] == ids;
  }

  /** After a mark whose write succeeds the id reads as read (when the store is
      readable); a failed write leaves every id's status as it was; and marking changes
      the read status of no other id. */
  lemma MarkThenRead(store: LocalStore, x: string, y: string, writeFault: bool)
    ensures !writeFault ==> (IsRead(MarkArticleAsRead(store, x, writeFault), x) <==> store.Readable?)
    ensures writeFault ==> (IsRead(MarkArticleAsRead(store, x, writeFault), x) <==> IsRead(store, x))
    ensures y != x ==> (IsRead(MarkArticleAsRead(store, x, writeFault), y) <==> IsRead(store, y))
  {
  }

  /** Once a mark has been written, marking again changes nothing, whether or not the
      second write would fail. */
  lemma MarkIdempotent(store: LocalStore, x: string, writeFault: bool)
    ensures MarkArticleAsRead(MarkArticleAsRead(store, x, false), x, writeFault) == MarkArticleAsRead(store, x, false)
  {
  }

  /** A duplicate-free read list stays duplicate-free. */
  lemma MarkKeepsDistinct(store: LocalStore, x: string, writeFault: bool)
    requires store.Readable? && Distinct(store.ids)
    ensures Distinct(MarkArticleAsRead(store, x, writeFault).ids)
  {
  }
}
