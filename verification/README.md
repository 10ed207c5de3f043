# news-digest client core, modelled in Dafny

This project models the pure, sequential logic inside the news-digest React client.
The client talks to an nhost/Hasura backend. The model covers:

- the dashboard's feed decoding and article normaliser;
- the preference form: toggles, keyword editing, the save-time defaulting and loading a stored row;
- the preference store (an upsert keyed on the owner) and the feed request's topic defaulting;
- the saved-article repository: the two-step save, the joined read and the delete;
- the client-side list updates on the saved-articles screen and the dashboard's save-in-flight set;
- the browser-local read list;
- the app shell's start-up decision and its page routing.

The backend is abstract state (`Store.Backend`). It holds a map from owner to preference
row, a map from article id to article row, and the `saved_articles` join rows as a sequence.
The read of that table has no `order_by`; the model assumes it lists rows in insertion order
(see "## Left out").
Every backend call takes a `fault` flag or a `Call` value (`Ok | Err`). `Err` stands for a
thrown exception, a failed transport or a response with an `errors` field. The session is an
`Option<UserId>` input. The `uuidv4()` values are a supplied sequence: item `i` of a feed
draws `supply[2*i]` as its fallback id and `supply[2*i+1]` as its uuid.

Modules: `Wrappers`, `Text` (trim, lower-case, `split('.')[0]`, filter), `News` (records),
`Normalizer`, `Store`, `PreferenceClient`, `FeedClient`, `SavedRepository`, `ReadMarker`,
`Dashboard`, `PreferencesForm`, `SavedView`, `Routing`.

Where the code departs from its declared types or from what its own comments and names suggest, the model follows the code:

- Sentiment is not validated. An upstream `"Mixed"` becomes `"mixed"`, outside the declared
  three-value union (`Normalizer.SentimentNotValidated`).
- An empty array from the feed is truthy. It clears the error and empties the list; it does not
  show the "No news available" message (`Dashboard.EmptyFeedIsNotAnError`).
- A response whose `errors` field is present counts as a failure even when the array is empty,
  because JavaScript treats `[]` as truthy.
- The empty-selection defaulting for categories and sources happens in the form's save handler.
  The `savePreferences` client sends what it is given.
- A failed saved-articles read returns `[]`. The screen then shows the empty view, not an error.
- The declared `Article` type has no `title`, but the normaliser produces one. The flattened
  saved article carries no `uuid`, though the declared `SavedArticle` type has one. The records
  in `News` follow what the code builds.

## Model

| member | source | states |
|---|---|---|
| Text.Trim | project/src/components/Preferences.tsx:59-60 | the result is a slice of the input with only white space cut at both ends, and neither end of a non-empty result is white space |
| Text.TrimEmptyIffAllSpace | project/src/components/Preferences.tsx:59 | the trimmed input is empty exactly when the input is all white space |
| Text.Lower | project/src/components/Dashboard.tsx:40 | lower-casing keeps the length and maps each character independently |
| Text.FirstSentence | project/src/components/SavedArticles.tsx:57 | `split('.')[0]` is a prefix of the text with no full stop, followed in the text by a full stop when shorter |
| Text.Without | project/src/components/Preferences.tsx:65-67 | filtering drops every occurrence of the value, keeps every other element, and keeps a duplicate-free list duplicate-free |
| Text.WithoutAppend | project/src/components/Preferences.tsx:66 | filtering distributes over concatenation, so survivors keep their order |
| Normalizer.Decode | project/src/components/Dashboard.tsx:27-31 | an array is used as is, any other single value becomes a one-element list, and an unparsable string or a null is unreadable |
| Normalizer.DecodeString | project/src/components/Dashboard.tsx:28 | a string payload decodes to whatever its parsed value would decode to |
| Normalizer.SentimentOf | project/src/components/Dashboard.tsx:40 | sentiment is the lower-cased upstream label when given, otherwise 'neutral', and never empty |
| Normalizer.SentimentDeclaredIff | project/src/components/Dashboard.tsx:40 | the sentiment lies in positive/neutral/negative iff the label is absent or lower-cases into that set |
| Normalizer.LowerCaseLabelKept | project/src/components/Dashboard.tsx:40 | a non-empty label with no upper-case letter, such as each declared value, passes through unchanged |
| Normalizer.SentimentNotValidated | project/src/components/Dashboard.tsx:40 | the label "Mixed" passes through as "mixed", outside the declared union |
| Normalizer.NormalizeItem | project/src/components/Dashboard.tsx:34-42 | each field keeps a non-empty upstream value and otherwise takes its fixed default; the uuid is always the fresh one |
| Normalizer.Normalize | project/src/components/Dashboard.tsx:33-43 | normalisation keeps length and order, article i drawing its two fresh values from positions 2i and 2i+1 |
| Normalizer.NormalizeItemPopulated | project/src/components/Dashboard.tsx:34-42 | no field of a normalised item is empty |
| Normalizer.NormalizePopulated | project/src/components/Dashboard.tsx:33-43 | no field of any normalised article is empty |
| Normalizer.NormalizeDraws | project/src/components/Dashboard.tsx:34-35 | article i's uuid is supply value 2i+1, and its generated id is supply value 2i |
| Normalizer.NormalizeUuidsFresh | project/src/components/Dashboard.tsx:34-35 | no two articles of a batch share a uuid, and no uuid equals a generated id |
| Normalizer.StringEncodedObject | project/src/components/Dashboard.tsx:28-43 | a string-encoded object with only title X and summary Y gives one article with those and every other default |
| Store.RowsOf | project/src/components/api/api.ts:220 | the listed join rows are exactly the user's rows |
| Store.RowsOfAppend | project/src/components/api/api.ts:220 | listing a user's rows commutes with appending rows |
| PreferenceClient.PreferenceRows | project/src/components/api/api.ts:34-40 | the preference query returns at most one row, the owner's row when there is one |
| PreferenceClient.GetPreferences | project/src/components/api/api.ts:18-59 | returns the first row; none on a missing session, a failed call or a missing row |
| PreferenceClient.SavePreferences | project/src/components/api/api.ts:311-362 | on success the user maps to exactly the three lists and other users and tables are unchanged; on failure nothing changes and false is returned |
| PreferenceClient.SaveThenGet | project/src/components/api/api.ts:328-343 | reading back after a save yields exactly the saved lists |
| PreferenceClient.SaveTwiceKeepsOneRow | project/src/components/api/api.ts:336-339 | two saves leave one row for the user, holding the second save's lists |
| FeedClient.FinalPreferences | project/src/components/api/api.ts:63-68 | topics are the stored ones when non-empty, else Technology and Sports; other stored fields are carried over, and absent when there is no row |
| FeedClient.FetchNews | project/src/components/api/api.ts:61-110 | a request is sent iff there is a session, carrying the defaulted preferences; a payload comes back iff the call succeeds and the payload is truthy |
| FeedClient.NoStoredPreferences | project/src/components/api/api.ts:63-68 | a user without stored preferences is asked for the two default topics, and nothing is written back |
| SavedRepository.ToRow | project/src/components/api/api.ts:138-148 | the inserted article row is keyed by the article's uuid and copies its image, summary, link, sentiment, source and date unchanged |
| SavedRepository.ToRowIgnoresIdAndTitle | project/src/components/api/api.ts:139-147 | the inserted row does not depend on the article's id or title |
| SavedRepository.InsertArticle | project/src/components/api/api.ts:131-158 | the article insert succeeds iff there is no fault and the id is new, and answers with the row's id |
| SavedRepository.InsertJoin | project/src/components/api/api.ts:170-192 | the join insert appends one row for (user, article) unless it fails |
| SavedRepository.SaveArticle | project/src/components/api/api.ts:114-200 | the join insert is attempted only after an error-free article insert and links the id it returned; the result is true iff both inserts succeed; a failed join leaves the article row |
| SavedRepository.SaveKeepsValid | project/src/components/api/api.ts:158-185 | after a save, every join row still points at a stored article |
| SavedRepository.Flatten | project/src/components/api/api.ts:245-249 | a saved article is its row's columns plus the join row's owner and save time |
| SavedRepository.Joined | project/src/components/api/api.ts:245-249 | the read gives one flattened element per join row, in order |
| SavedRepository.FetchSavedArticles | project/src/components/api/api.ts:204-254 | the result has one element per join row of the user, in order, with its article's fields; any failure gives [] |
| SavedRepository.SaveThenFetch | project/src/components/api/api.ts:158-249 | a successful save appears at the end of the saver's list with the uuid as its id; the earlier entries are unchanged |
| SavedRepository.RemovePair | project/src/components/api/api.ts:273-279 | deletion removes every join row for (user, article), keeps every other row with its multiplicity, and removes something iff such a row exists |
| SavedRepository.RemovePairAppend | project/src/components/api/api.ts:273-279 | the delete distributes over concatenation, so the remaining rows keep their order |
| SavedRepository.DeleteSavedArticle | project/src/components/api/api.ts:257-297 | returns true iff at least one matching row was affected; article rows and other pairs stay untouched; on failure nothing changes |
| SavedRepository.DeleteKeepsValid | project/src/components/api/api.ts:273-279 | after a delete, every join row still points at a stored article |
| ReadMarker.MarkArticleAsRead | project/src/components/api/api.ts:300-310 | a new id is appended at the end, a present id changes nothing, no other id's count changes, and an unreadable store or a failing write leaves the store untouched |
| ReadMarker.IsArticleRead | project/src/components/api/api.ts:365-373 | the scan answers true iff the store is readable and lists the id |
| ReadMarker.MarkThenRead | project/src/components/api/api.ts:300-373 | after a mark whose write succeeds, the id reads as read iff the store is readable; after a failed write its status is unchanged; other ids' status never changes |
| ReadMarker.MarkIdempotent | project/src/components/api/api.ts:303-306 | once a mark is written, marking again changes nothing |
| ReadMarker.MarkKeepsDistinct | project/src/components/api/api.ts:303-306 | marking keeps a duplicate-free list duplicate-free |
| Routing.InitialShell | project/src/App.tsx:18-32 | an authenticated session starts logged in on 'dashboard', otherwise logged out on 'home' |
| Routing.RenderPage | project/src/App.tsx:34-66 | logged out, only 'verify-email' shows email verification and every other page shows sign-in; logged in, 'saved' and 'preferences' show their screens and every other page shows the dashboard |
| Routing.InitialView | project/src/App.tsx:20-66 | the first screen is the dashboard when authenticated, the sign-in screen otherwise |
| PreferencesForm.Toggle | project/src/components/Preferences.tsx:50-56 | a toggle flips selected on exactly the entries with the matching id and keeps ids and names |
| PreferencesForm.ToggleTwice | project/src/components/Preferences.tsx:50-56 | toggling the same id twice restores the list |
| PreferencesForm.ToggleCategory | project/src/components/Preferences.tsx:50-52 | a category toggle changes only the category list |
| PreferencesForm.ToggleSource | project/src/components/Preferences.tsx:54-56 | a source toggle changes only the source list |
| PreferencesForm.AddKeyword | project/src/components/Preferences.tsx:58-63 | the trimmed input is appended and the input cleared iff it is non-empty and not yet listed; otherwise nothing changes |
| PreferencesForm.RemoveKeyword | project/src/components/Preferences.tsx:65-67 | every occurrence of the keyword is removed and every other keyword is kept, in order (the result is the `Without` filter) |
| PreferencesForm.AddKeywordKeepsWellFormed | project/src/components/Preferences.tsx:58-63 | adding keeps the keyword list duplicate-free, trimmed and non-empty |
| PreferencesForm.RemoveKeywordKeepsWellFormed | project/src/components/Preferences.tsx:65-67 | removing keeps the keyword list duplicate-free, trimmed and non-empty |
| PreferencesForm.AddThenRemove | project/src/components/Preferences.tsx:58-67 | removing a keyword just added gives back the previous list |
| PreferencesForm.SelectedIds | project/src/components/Preferences.tsx:72-73 | an id is sent iff some selected entry carries it |
| PreferencesForm.SelectedIdsAppend | project/src/components/Preferences.tsx:72-73 | reading the selected ids distributes over concatenation, so ids are sent in display order |
| PreferencesForm.SaveSelection | project/src/components/Preferences.tsx:72-85 | categories and sources sent are the selected ids, or ['tech'] and ['reuters'] when none are selected; keywords default to ['technology','science']; none of the three is empty |
| PreferencesForm.SaveSelectionAsWritten | project/src/components/Preferences.tsx:72-93 | as written, the keywords sent are the current list, while the form afterwards shows the defaulted list |
| PreferencesForm.AsWrittenSendsEmptyKeywords | project/src/components/Preferences.tsx:83-93 | with no keywords entered, the code as written sends [] where the intended selection sends the defaults |
| PreferencesForm.Reselect | project/src/components/Preferences.tsx:41-42 | on load, an entry is selected iff its id is among the stored ids |
| PreferencesForm.ReselectSelected | project/src/components/Preferences.tsx:39-44 | with distinct ids, loading the form's own selection reproduces the form |
| PreferencesForm.Submit | project/src/components/Preferences.tsx:87-106 | no user shows the alert and saves nothing; a false result does nothing; success upserts exactly the lists sent for the saver only, leaving other users' rows and the article tables unchanged, shows the banner and goes home; isSaving is reset afterwards |
| PreferencesForm.HandleSave | project/src/components/Preferences.tsx:69-107 | as written: success stores the defaulted categories and sources with the keyword list as it was before defaulting, while the form shows the defaulted keywords; other users' rows and the article tables are unchanged; nothing else in the form changes |
| PreferencesForm.HandleSaveIntended | project/src/components/Preferences.tsx:69-107 | corrected: success stores the three defaulted lists, none of them empty, shows the banner and goes home; no user alerts; isSaving is set then reset; other users' rows and the article tables are unchanged; only the form's keywords change |
| PreferencesForm.HandleSaveStoresEmptyKeywords | project/src/components/Preferences.tsx:83-93 | with no keywords entered, a save as written stores [] while the intended handler stores the default keywords |
| PreferencesForm.HandlersAgreeWithKeywords | project/src/components/Preferences.tsx:83-93 | once a keyword is entered, the handler as written and the intended one give the same outcome |
| PreferencesForm.InitialFormSave | project/src/components/Preferences.tsx:10-26 | the initial catalogues have distinct ids and nothing selected, so saving the untouched form sends ['tech'], ['reuters'] and [] |
| PreferencesForm.LoadPreferences | project/src/components/Preferences.tsx:31-48 | without a user or a stored row the form is unchanged; otherwise selections follow the stored topics and sources, and keywords are the stored ones |
| PreferencesForm.SaveThenLoad | project/src/components/Preferences.tsx:39-93 | for a form whose catalogues have distinct ids and which has at least one category and one source selected, saving and loading back reproduces its selections and keywords, an empty keyword list included |
| PreferencesForm.EmptySelectionLoadsDefaults | project/src/components/Preferences.tsx:39-93 | with nothing selected, saving and loading back selects exactly the 'tech' category and the 'reuters' source, so such a form does not round-trip |
| Dashboard.Message | project/src/components/Dashboard.tsx:20-24 | the missing-user and no-news errors carry their fixed texts; only an unreadable payload has no fixed text |
| Dashboard.FetchData | project/src/components/Dashboard.tsx:16-54 | a missing user gives 'User not found', a falsy result the no-news error and an unparsable payload its own error, each keeping the articles; a readable payload replaces them by the normalised list and clears the error; loading always ends |
| Dashboard.FirstLoad | project/src/components/Dashboard.tsx:10-54 | the dashboard starts loading with no articles and nothing in flight; after the first load the spinner is off, nothing is in flight, and an error leaves the list empty |
| Dashboard.EmptyFeedIsNotAnError | project/src/components/Dashboard.tsx:23-31 | an empty array result clears the error and empties the list |
| Dashboard.EmptyStringIsNoNews | project/src/components/Dashboard.tsx:22-25 | an empty string result shows the "No news available" message and keeps the articles |
| Dashboard.SaveDisabled | project/src/components/Dashboard.tsx:248 | an article's save button is disabled exactly while its id is in the in-flight set |
| Dashboard.HandleSaveArticle | project/src/components/Dashboard.tsx:60-85 | with no user nothing is saved; otherwise the id is in the set during the call, disabling the button; on every path, the no-user return included, the id is removed from the set afterwards |
| Dashboard.SaveRestoresInFlightSet | project/src/components/Dashboard.tsx:68-83 | for an article not already in flight, a save leaves the in-flight set as it was |
| SavedView.FetchArticles | project/src/components/SavedArticles.tsx:13-28 | with no user the error is set; otherwise the list is replaced by the repository's answer and the error cleared |
| SavedView.Title | project/src/components/SavedArticles.tsx:118-123 | the heading is a prefix of the summary with no full stop, ending where the summary's first full stop is |
| SavedView.Render | project/src/components/SavedArticles.tsx:69-125 | a loading page shows the spinner; otherwise an error shows the error view with its message; otherwise the empty view shows iff the list is empty, and a non-empty list shows the list view with one title per article |
| SavedView.MountThenFetch | project/src/components/SavedArticles.tsx:8-28 | the screen opens on the loading view; after the read it shows the empty view iff the read gave no articles |
| SavedView.NoSavedArticlesShowsEmpty | project/src/components/SavedArticles.tsx:103-108 | for any backend in which every join row points at a stored article, a user with no saved rows sees the empty view, not an error |
| SavedView.RemoveById | project/src/components/SavedArticles.tsx:42 | every entry with the id is dropped and every other entry kept |
| SavedView.RemoveByIdAppend | project/src/components/SavedArticles.tsx:42 | the filter distributes over concatenation, so kept entries stay in order |
| SavedView.HandleDelete | project/src/components/SavedArticles.tsx:34-52 | success removes the entries with that id; failure keeps the list and reports an error; isDeleting holds the id during the call and is reset afterwards |
| SavedView.RemoveByIdJoined | project/src/components/SavedArticles.tsx:40-43 | filtering the joined list by id equals joining the rows left after the backend delete |
| SavedView.DeleteMatchesRefetch | project/src/components/SavedArticles.tsx:40-43 | after a successful delete, the client-side filtered list equals a fresh read of the saved articles |

## Findings

| source | as written | input that shows it | evidently intended | confidence | as-written member | corrected member |
|---|---|---|---|---|---|---|
| project/src/components/Preferences.tsx:83-93 | the keyword default is only scheduled with `setKeywords`, and the request sends the `keywords` captured before it | a form with no keywords entered: the request carries `keywords: []` (`PreferencesForm.AsWrittenSendsEmptyKeywords`) | send `['technology','science']`, as is done for categories and sources | medium, not executed | PreferencesForm.SaveSelectionAsWritten | PreferencesForm.SaveSelection |

`PreferencesForm.HandleSave` models the handler as written. `PreferencesForm.HandleSaveIntended` is the corrected handler built on the corrected selection. `PreferencesForm.HandleSaveStoresEmptyKeywords` shows where they differ, and `PreferencesForm.HandlersAgreeWithKeywords` shows they agree otherwise.

## Left out

- HTTP transport, endpoint URLs, bearer headers, `response.json()` and the GraphQL query text. Only call outcomes are modelled.
- The nhost auth library: sign-in, sign-up, refresh, sign-out, verification email and the EmailVerification/Auth/Logout/Navbar screens. These are foreign calls; the session is an `Option<UserId>` input.
- `JSON.parse`, `JSON.stringify` and `localStorage`. The parsed payload and the stored read list are decoded inputs. A stored read-list value that parses to a non-array is not modelled.
- `uuidv4()` randomness. The fresh values are a supplied sequence; their distinctness is a precondition of the uuid lemmas. The real code draws the fallback id only when it is needed; the model gives each item two fixed positions.
- Overlapping async handlers, such as two saves in flight or a fetch racing navigation. Each handler is one sequential step.
- `setTimeout`/`setInterval`, the toasts' wording, `navigator.share`, the grid/list toggle, the icons and all JSX rendering. The success redirect's delay is not modelled; `navigatesHome` records only that it happens.
- Text.Lower: maps only ASCII A-Z, while JavaScript's `toLowerCase` covers all of Unicode. It is weaker for non-ASCII labels; non-emptiness holds either way.
- Normalizer.Item: fields are optional strings. Non-string truthy field values (numbers, objects) and `null` elements inside an array (which throw a TypeError) are not modelled.
- Dashboard.FetchData: the message of an unreadable payload is the JavaScript engine's, so only its kind is modelled.
- SavedRepository.SaveThenFetch: assumes the `saved_articles` read (api.ts:219-220, no `order_by`) lists rows in insertion order; the database promises no order. `SavedRepository.FetchSavedArticles` and `SavedView.DeleteMatchesRefetch` rest on the same assumption: the list's contents do not depend on it, but its order and "at the end" do.
- SavedRepository.FetchSavedArticles: requires `Store.Valid`, that every join row points at a stored article. This is the foreign key the backend is assumed to enforce. For a dangling row `item.article` would be null, and the spread would give an entry with only `user_id` and `saved_at`. That case is not modelled.
- Store.Backend: preference columns are non-null, because their only writer declares them `[String!]!`. An article insert fails on an id already stored, assuming `id` is the articles table's key. No uniqueness is assumed for join rows.
- The flags are modelled in their handlers: `isSaving` and `showSuccess` in `PreferencesForm.Submit`, `loading` and `isRefreshing` in `Dashboard.FetchData`, and `loading` and `isDeleting` in `SavedView`. The dashboard's `isRefreshing` being set at the start of a load is not modelled; only its reset is.
- `data/fallbackNews.ts`: static sample data with a nondeterministic date; a string-encoded scenario lemma covers the normaliser instead.
