/** The preferences form: toggling categories and sources, editing keywords, loading
    the stored row into the form and the save handler's defaulting. */
module PreferencesForm {
  import opened Wrappers
  import opened Text
  import opened News
  import opened Store
  import PreferenceClient

  /** One selectable category or source (the display icon is left out). */
  datatype Choice = Choice(id: string, name: string, selected: bool)

  /** The form's state. */
  datatype Form = Form(categories: seq<Choice>, sources: seq<Choice>, keywords: seq<string>, keywordInput: string)

  const InitialForm := Form(
    [Choice("tech", "Technology", false), Choice("science", "Science", false),
     Choice("health", "Health", false), Choice("business", "Business", false),
     Choice("sports", "Sports", false), Choice("entertainment", "Entertainment", false)],
    [Choice("reuters", "Reuters", false), Choice("bbc", "BBC News", false),
     Choice("techcrunch", "TechCrunch", false), Choice("wired", "Wired", false)],
    [], "")

  const DefaultCategories: seq<string> := ["tech"]
  const DefaultSources: seq<string> := ["reuters"]
  const DefaultKeywords: seq<string> := ["technology", "science"]

  /** No two entries share an id. */
  predicate DistinctIds(list: seq<Choice>) {
    forall i, j :: 0 <= i < j < |list| ==> list[i].id != list[j].id
  }

  /** Flips `selected` on exactly the entries whose id is `id`; nothing else changes. */
  function Toggle(list: seq<Choice>, id: string): (r: seq<Choice>)
    ensures |r| == |list|
    ensures forall i :: 0 <= i < |list| ==> r[i].id == list[i].id && r[i].name == list[i].name
    ensures forall i :: 0 <= i < |list| ==> (r[i].selected != list[i].selected <==> list[i].id == id)
  {
    if list == [] then []
    else
      var c := list[0];
      [if c.id == id then c.(selected := !c.selected) else c] + Toggle(list[1..], id)
  }

  /** Toggling the same id twice restores the list. */
  lemma {:induction false} ToggleTwice(list: seq<Choice>, id: string)
    ensures Toggle(Toggle(list, id), id) == list
  {
    var r := Toggle(Toggle(list, id), id);
    forall i | 0 <= i < |list|
      ensures r[i] == list[i]
    {
      assert r[i].selected == list[i].selected;
    }
  }

  /** `handleCategoryToggle`. */
  function ToggleCategory(f: Form, id: string): (r: Form)
    ensures r.categories == Toggle(f.categories, id)
    ensures r.sources == f.sources && r.keywords == f.keywords && r.keywordInput == f.keywordInput
  {
    f.(categories := Toggle(f.categories, id))
  }

  /** `handleSourceToggle`. */
  function ToggleSource(f: Form, id: string): (r: Form)
    ensures r.sources == Toggle(f.sources, id)
    ensures r.categories == f.categories && r.keywords == f.keywords && r.keywordInput == f.keywordInput
  {
    f.(sources := Toggle(f.sources, id))
  }

  /** `handleAddKeyword`: appends the trimmed input iff it is non-empty and not already
      listed, and clears the input only then. */
  function AddKeyword(f: Form): (r: Form)
    ensures var t := Trim(f.keywordInput);
            t != [] && t !in f.keywords ==> r.keywords == f.keywords + [t] && r.keywordInput == []
    ensures var t := Trim(f.keywordInput);
            t == [] || t in f.keywords ==> r == f
    ensures r.categories == f.categories && r.sources == f.sources
  {
    var t := Trim(f.keywordInput);
    if t != [] && t !in f.keywords then f.(keywords := f.keywords + [t], keywordInput := [])
    else f
  }

  /** `handleRemoveKeyword`: drops every occurrence of `keyword`, keeping the rest in order. */
  function RemoveKeyword(f: Form, keyword: string): (r: Form)
    ensures r.keywords == Without(f.keywords, keyword)
    ensures keyword !in r.keywords
    ensures forall i :: 0 <= i < |f.keywords| && f.keywords[i] != keyword ==> f.keywords[i] in r.keywords
    ensures forall i :: 0 <= i < |r.keywords| ==> r.keywords[i] in f.keywords
    ensures r.categories == f.categories && r.sources == f.sources && r.keywordInput == f.keywordInput
  {
    f.(keywords := Without(f.keywords, keyword))
  }

  /** The keyword list the form maintains: no duplicates, every entry trimmed and non-empty. */
  predicate KeywordsWellFormed(ks: seq<string>) {
    Distinct(ks) && forall i :: 0 <= i < |ks| ==> ks[i] != [] && Trim(ks[i]) == ks[i]
  }

  /** Adding a keyword keeps a well-formed keyword list well-formed. */
  lemma AddKeywordKeepsWellFormed(f: Form)
    requires KeywordsWellFormed(f.keywords)
    ensures KeywordsWellFormed(AddKeyword(f).keywords)
  {
    var t := Trim(f.keywordInput);
    if t != [] && t !in f.keywords {
      TrimIdempotent(f.keywordInput);
      var ks := f.keywords + [t];
      assert ks[|ks| - 1] == t;
      forall i | 0 <= i < |ks|
        ensures ks[i] != [] && Trim(ks[i]) == ks[i]
      {
        if i < |f.keywords| {
          assert ks[i] == f.keywords[i];
        }
      }
      forall i, j | 0 <= i < j < |ks|
        ensures ks[i] != ks[j]
      {
        if j == |ks| - 1 {
          assert ks[i] == f.keywords[i];
        } else {
          assert ks[i] == f.keywords[i] && ks[j] == f.keywords[j];
        }
      }
    }
  }

  /** Removing a keyword keeps a well-formed keyword list well-formed. */
  lemma RemoveKeywordKeepsWellFormed(f: Form, keyword: string)
    requires KeywordsWellFormed(f.keywords)
    ensures KeywordsWellFormed(RemoveKeyword(f, keyword).keywords)
  {
    var ks := RemoveKeyword(f, keyword).keywords;
    forall i | 0 <= i < |ks|
      ensures ks[i] != [] && Trim(ks[i]) == ks[i]
    {
      var k :| 0 <= k < |f.keywords| && f.keywords[k] == ks[i];
    }
  }

  /** Removing a keyword that was just added gives back the previous list. */
  lemma {:induction false} AddThenRemove(f: Form)
    requires Trim(f.keywordInput) != [] && Trim(f.keywordInput) !in f.keywords
    ensures RemoveKeyword(AddKeyword(f), Trim(f.keywordInput)).keywords == f.keywords
  {
    var t := Trim(f.keywordInput);
    WithoutAppend(f.keywords, [t], t);
    assert Without([t], t) == [] by {
      assert [t][1..] == [];
    }
  }

  /** The ids of the selected entries, in display order. */
  function SelectedIds(list: seq<Choice>): (r: seq<string>)
    ensures |r| <= |list|
    ensures forall x :: x in r <==> exists i :: 0 <= i < |list| && list[i].selected && list[i].id == x
  {
    if list == [] then []
    else
      var rest := SelectedIds(list[1..]);
      assert forall i :: 1 <= i < |list| ==> list[i] == list[1..][i - 1];
      if list[0].selected then [list[0].id] + rest else rest
  }

  /** Reading the selected ids distributes over concatenation, so the ids come out in
      display order. */
  lemma {:induction false} SelectedIdsAppend(p: seq<Choice>, q: seq<Choice>)
    ensures SelectedIds(p + q) == SelectedIds(p) + SelectedIds(q)
    decreases |p|
  {
    if p == [] {
      assert p + q == q;
    } else {
      assert (p + q)[1..] == p[1..] + q;
      assert (p + q)[0] == p[0];
      SelectedIdsAppend(p[1..], q);
    }
  }

  /** What the save handler sends. */
  datatype Selection = Selection(categories: seq<string>, sources: seq<string>, keywords: seq<string>)

  /** The save-time defaulting the handler intends: the selected category and source ids
      in display order, an empty selection replaced by its default; so none of the
      three lists sent is empty. */
  function SaveSelection(f: Form): (s: Selection)
    ensures s.categories != [] && s.sources != [] && s.keywords != []
    ensures SelectedIds(f.categories) != [] ==> s.categories == SelectedIds(f.categories)
    ensures SelectedIds(f.categories) == [] ==> s.categories == DefaultCategories
    ensures SelectedIds(f.sources) != [] ==> s.sources == SelectedIds(f.sources)
    ensures SelectedIds(f.sources) == [] ==> s.sources == DefaultSources
    ensures f.keywords != [] ==> s.keywords == f.keywords
    ensures f.keywords == [] ==> s.keywords == DefaultKeywords
  {
    var cats := SelectedIds(f.categories);
    var srcs := SelectedIds(f.sources);
    Selection(
      if |cats| == 0 then DefaultCategories else cats,
      if |srcs| == 0 then DefaultSources else srcs,
      if |f.keywords| == 0 then DefaultKeywords else f.keywords)
  }

  /** The selection `handleSave` sends as written, and the keyword list the form holds
      afterwards. The keyword default is only scheduled as a state update, so the
      request carries the keyword list as it was, empty or not. */
  datatype SaveAsWritten = SaveAsWritten(sent: Selection, keywordsAfter: seq<string>)

  function SaveSelectionAsWritten(f: Form): (r: SaveAsWritten)
    ensures r.sent.categories == SaveSelection(f).categories
    ensures r.sent.sources == SaveSelection(f).sources
    ensures r.sent.keywords == f.keywords
    ensures r.keywordsAfter == SaveSelection(f).keywords
  {
    var intended := SaveSelection(f);
    SaveAsWritten(Selection(intended.categories, intended.sources, f.keywords),
                  if |f.keywords| == 0 then DefaultKeywords else f.keywords)
  }

  /** With no keywords entered, the code as written sends an empty keyword list while the
      form then shows the defaults; the intended selection sends the defaults. */
  lemma AsWrittenSendsEmptyKeywords(f: Form)
    requires f.keywords == []
    ensures SaveSelectionAsWritten(f).sent.keywords == []
    ensures SaveSelectionAsWritten(f).keywordsAfter == DefaultKeywords
    ensures SaveSelection(f).keywords == DefaultKeywords
  {
  }

  /** Marks an entry selected iff its id is among `ids`. */
  function Reselect(list: seq<Choice>, ids: seq<string>): (r: seq<Choice>)
    ensures |r| == |list|
    ensures forall i :: 0 <= i < |list| ==> r[i].id == list[i].id && r[i].name == list[i].name
    ensures forall i :: 0 <= i < |list| ==> (r[i].selected <==> list[i].id in ids)
  {
    if list == [] then [] else [list[0].(selected := list[0].id in ids)] + Reselect(list[1..], ids)
  }

  /** Selecting by a list of ids and reading the selected ids back round-trips: with
      distinct ids, `Reselect` on the form's own selection gives the form back. */
  lemma {:induction false} ReselectSelected(list: seq<Choice>)
    requires DistinctIds(list)
    ensures Reselect(list, SelectedIds(list)) == list
  {
    var sel := SelectedIds(list);
    var r := Reselect(list, sel);
    forall i | 0 <= i < |list|
      ensures r[i] == list[i]
    {
      if list[i].id in sel {
        var j :| 0 <= j < |list| && list[j].selected && list[j].id == list[i].id;
        assert i == j;
      }
    }
  }

  /** The result of `handleSave`: the form afterwards, the backend afterwards, whether
      the failure alert was shown, the `isSaving` flag while the call runs and after it,
      whether the success banner is shown, and whether the handler goes on to the home
      page (after the banner's delay). */
  datatype SaveOutcome = SaveOutcome(form: Form, backend: Backend, alerted: bool,
                                     savingDuring: bool, savingAfter: bool,
                                     showSuccess: bool, navigatesHome: bool)

  /** The part of `handleSave` after the defaulting: `form` is the form with its keyword
      update applied and `sent` the lists handed to the store. No user raises the alert
      and saves nothing; a `false` from the store does nothing visible; success shows
      the banner and goes home. `isSaving` is set for the call and reset after it. */
  function Submit(form: Form, b: Backend, session: Option<UserId>, fault: bool, sent: Selection): (r: SaveOutcome)
    ensures r.form == form && r.savingDuring && !r.savingAfter
    ensures r.alerted <==> session.None?
    ensures r.navigatesHome <==> session.Some? && !fault
    ensures r.showSuccess <==> r.navigatesHome
    ensures !r.navigatesHome ==> r.backend == b
    ensures r.navigatesHome ==>
              PreferenceClient.GetPreferences(r.backend, session, session.value, false)
                == Some(Prefs(sent.categories, sent.sources, sent.keywords))
    ensures session.Some? ==>
              r.backend == PreferenceClient.SavePreferences(b, session, session.value, sent.categories, sent.sources, sent.keywords, fault).0
    ensures r.backend.articles == b.articles && r.backend.saved == b.saved
    ensures forall u :: u in b.prefs && (session.None? || u != session.value) ==> u in r.backend.prefs && r.backend.prefs[u] == b.prefs[u]
  {
    match session
    case None => SaveOutcome(form, b, true, true, false, false, false)
    case Some(user) =>
      var (b', ok) := PreferenceClient.SavePreferences(b, session, user, sent.categories, sent.sources, sent.keywords, fault);
      SaveOutcome(form, b', false, true, false, ok, ok)
  }

  /** `handleSave` as written: the defaulted categories and sources are sent together
      with the keyword list captured before its default was scheduled, so a form with no
      keywords stores `[]`, while the form shows the default keywords afterwards. */
  function HandleSave(f: Form, b: Backend, session: Option<UserId>, fault: bool): (r: SaveOutcome)
    ensures session.None? ==> r.alerted && !r.navigatesHome && r.backend == b
    ensures session.Some? ==> !r.alerted
    ensures r.navigatesHome <==> session.Some? && !fault
    ensures r.showSuccess <==> r.navigatesHome
    ensures r.savingDuring && !r.savingAfter
    ensures !r.navigatesHome ==> r.backend == b
    ensures r.navigatesHome ==>
              var s := SaveSelection(f);
              PreferenceClient.GetPreferences(r.backend, session, session.value, false)
                == Some(Prefs(s.categories, s.sources, f.keywords))
    ensures session.Some? ==>
              var s := SaveSelection(f);
              r.backend == PreferenceClient.SavePreferences(b, session, session.value, s.categories, s.sources, f.keywords, fault).0
    ensures r.backend.articles == b.articles && r.backend.saved == b.saved
    ensures forall u :: u in b.prefs && (session.None? || u != session.value) ==> u in r.backend.prefs && r.backend.prefs[u] == b.prefs[u]
    ensures r.form.categories == f.categories && r.form.sources == f.sources
    ensures r.form.keywords == SaveSelection(f).keywords
    ensures r.form == f.(keywords := SaveSelection(f).keywords)
  {
    var w := SaveSelectionAsWritten(f);
    Submit(f.(keywords := w.keywordsAfter), b, session, fault, w.sent)
  }

  /** `handleSave` with the keyword default the code evidently intends: every list sent,
      keywords included, is the defaulted one, so all three stored lists are non-empty. */
  function HandleSaveIntended(f: Form, b: Backend, session: Option<UserId>, fault: bool): (r: SaveOutcome)
    ensures r.navigatesHome <==> session.Some? && !fault
    ensures !r.navigatesHome ==> r.backend == b
    ensures r.navigatesHome ==>
              var s := SaveSelection(f);
              PreferenceClient.GetPreferences(r.backend, session, session.value, false)
                == Some(Prefs(s.categories, s.sources, s.keywords))
              && s.categories != [] && s.sources != [] && s.keywords != []
    ensures session.Some? ==>
              var s := SaveSelection(f);
              r.backend == PreferenceClient.SavePreferences(b, session, session.value, s.categories, s.sources, s.keywords, fault).0
    ensures r.backend.articles == b.articles && r.backend.saved == b.saved
    ensures forall u :: u in b.prefs && (session.None? || u != session.value) ==> u in r.backend.prefs && r.backend.prefs[u] == b.prefs[u]
    ensures r.form.keywords == SaveSelection(f).keywords
    ensures r.form == f.(keywords := SaveSelection(f).keywords)
    ensures r.alerted <==> session.None?
    ensures r.showSuccess <==> r.navigatesHome
    ensures r.savingDuring && !r.savingAfter
  {
    var s := SaveSelection(f);
    Submit(f.(keywords := s.keywords), b, session, fault, s)
  }

  /** With no keywords entered, a successful save as written stores an empty keyword
      list where the intended handler stores the defaults; the form shows the defaults
      either way. */
  lemma HandleSaveStoresEmptyKeywords(f: Form, b: Backend, user: UserId)
    requires f.keywords == []
    ensures var r := HandleSave(f, b, Some(user), false);
            r.navigatesHome && r.backend.prefs[user].keywords == [] && r.form.keywords == DefaultKeywords
    ensures HandleSaveIntended(f, b, Some(user), false).backend.prefs[user].keywords == DefaultKeywords
  {
  }

  /** Once a keyword has been entered, the handler as written and the intended one agree. */
  lemma HandlersAgreeWithKeywords(f: Form, b: Backend, session: Option<UserId>, fault: bool)
    requires f.keywords != []
    ensures HandleSave(f, b, session, fault) == HandleSaveIntended(f, b, session, fault)
  {
  }

  /** The form as it is first shown: the catalogues have distinct ids and nothing is
      selected, so saving it as written sends the category and source defaults and
      an empty keyword list. */
  lemma InitialFormSave()
    ensures DistinctIds(InitialForm.categories) && DistinctIds(InitialForm.sources)
    ensures SaveSelectionAsWritten(InitialForm).sent == Selection(DefaultCategories, DefaultSources, [])
  {
    NoneSelected(InitialForm.categories);
    NoneSelected(InitialForm.sources);
  }

  /** With nothing selected, no id is read back. */
  lemma NoneSelected(list: seq<Choice>)
    requires forall i :: 0 <= i < |list| ==> !list[i].selected
    ensures SelectedIds(list) == []
  {
  }

  /** The preference load on mount: without a user or a stored row the form stays as
      it is; otherwise an entry is selected iff its id is stored and the keywords are
      the stored ones. */
  function LoadPreferences(f: Form, b: Backend, session: Option<UserId>, fault: bool): (r: Form)
    ensures session.None? ==> r == f
    ensures PreferenceClient.GetPreferences(b, session, if session.Some? then session.value else [], fault).None? ==> r == f
    ensures session.Some? && !fault && session.value in b.prefs ==>
              var p := b.prefs[session.value];
              r.categories == Reselect(f.categories, p.topics)
              && r.sources == Reselect(f.sources, p.sources)
              && r.keywords == p.keywords
              && r.keywordInput == f.keywordInput
  {
    match session
    case None => f
    case Some(user) =>
      match PreferenceClient.GetPreferences(b, session, user, fault)
      case None => f
      case Some(p) =>
        f.(categories := Reselect(f.categories, p.topics),
           sources := Reselect(f.sources, p.sources),
           keywords := p.keywords)
  }

  /** Saving a form whose catalogues have distinct ids and which has at least one
      category and one source selected, and loading it back into the same catalogue,
      reproduces the selections and the keywords; an empty keyword list included, since
      the code as written stores it. */
  lemma SaveThenLoad(f: Form, b: Backend, user: UserId)
    requires DistinctIds(f.categories) && DistinctIds(f.sources)
    requires SelectedIds(f.categories) != [] && SelectedIds(f.sources) != []
    ensures var saved := HandleSave(f, b, Some(user), false);
            var loaded := LoadPreferences(f, saved.backend, Some(user), false);
            loaded.categories == f.categories && loaded.sources == f.sources && loaded.keywords == f.keywords
  {
    ReselectSelected(f.categories);
    ReselectSelected(f.sources);
  }

  /** With nothing selected the save stores the defaults, so loading it back selects
      exactly the 'tech' category and the 'reuters' source: the untouched form does not
      round-trip. */
  lemma EmptySelectionLoadsDefaults(f: Form, b: Backend, user: UserId)
    requires forall i :: 0 <= i < |f.categories| ==> !f.categories[i].selected
    requires forall i :: 0 <= i < |f.sources| ==> !f.sources[i].selected
    ensures var saved := HandleSave(f, b, Some(user), false);
            var loaded := LoadPreferences(f, saved.backend, Some(user), false);
            (forall i :: 0 <= i < |f.categories| ==> (loaded.categories[i].selected <==> f.categories[i].id == "tech"))
            && (forall i :: 0 <= i < |f.sources| ==> (loaded.sources[i].selected <==> f.sources[i].id == "reuters"))
            && loaded.keywords == f.keywords
  {
    NoneSelected(f.categories);
    NoneSelected(f.sources);
  }
}
