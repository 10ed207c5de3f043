/** The dashboard's feed decoding and normalisation: a payload that may be a JSON
    string, a single object or an array becomes a list of fully populated articles. */
module Normalizer {
  import opened Wrappers
  import opened Text
  import opened News

  /** One upstream feed item. The fields carry the aggregator's camelCase keys except
      `publishedAt`, which stands for the upstream key `published_at`. Every field is
      optional; a JavaScript value that is not an object reads as an item whose
      fields are all absent. */
  datatype Item = Item(
    id: Option<string>,
    title: Option<string>,
    imageUrl: Option<string>,
    summary: Option<string>,
    articleUrl: Option<string>,
    sentimentAnalysis: Option<string>,
    source: Option<string>,
    publishedAt: Option<string>)

  /** The value `JSON.parse` makes of a string payload. */
  datatype Parsed = ParsedNull | ParsedObject(item: Item) | ParsedArray(items: seq<Item>)

  /** The feed payload as the backend hands it over. `RawString.parsed` is what
      `JSON.parse(text)` yields, `None` when it throws. `RawNull` stands for every
      falsy value that is not a string. */
  datatype Raw =
    | RawNull
    | RawString(text: string, parsed: Option<Parsed>)
    | RawObject(item: Item)
    | RawArray(items: seq<Item>)

  /** JavaScript truthiness of a payload: `null` and the empty string are falsy,
      every object and array (even an empty one) is truthy. */
  predicate Truthy(raw: Raw) {
    !raw.RawNull? && !(raw.RawString? && raw.text == [])
  }

  const NoTitle := "No title available"
  const PlaceholderImage := "https://images.unsplash.com/photo-1504711434969-e33886168f5c?auto=format&fit=crop&q=80&w=500"
  const NoSummary := "No summary available."
  const NoLink := "#"
  const UnknownSource := "Unknown Source"
  const Recent := "Recent"
  const Neutral := "neutral"

  /** The payload as the value it stands for when it is not string-encoded. */
  function Unencoded(p: Parsed): Raw {
    match p
    case ParsedNull => RawNull
    case ParsedObject(it) => RawObject(it)
    case ParsedArray(items) => RawArray(items)
  }

  /** A string is parsed first; an array is used as it is; any other single value becomes
      a one-element list. `None` is the payload the handler cannot read: a string
      `JSON.parse` rejects, or a `null` whose `.id` throws during the map. */
  function Decode(raw: Raw): (r: Option<seq<Item>>)
    ensures raw.RawArray? ==> r == Some(raw.items)
    ensures raw.RawObject? ==> r == Some([raw.item])
    ensures r.None? <==> raw.RawNull? || (raw.RawString? && (raw.parsed.None? || raw.parsed.value.ParsedNull?))
  {
    match raw
    case RawNull => None
    case RawString(_, parsed) =>
      if parsed.None? then None else DecodeParsed(parsed.value)
    case RawObject(it) => Some([it])
    case RawArray(items) => Some(items)
  }

  function DecodeParsed(p: Parsed): Option<seq<Item>> {
    match p
    case ParsedNull => None
    case ParsedObject(it) => Some([it])
    case ParsedArray(items) => Some(items)
  }

  /** Decoding a string-encoded payload is decoding the value it encodes. */
  lemma DecodeString(text: string, p: Parsed)
    ensures Decode(RawString(text, Some(p))) == Decode(Unencoded(p))
  {
  }

  /** A field counts as present when it holds a non-empty string (`field || fallback`). */
  predicate Given(f: Option<string>) {
    f.Some? && f.value != []
  }

  /** `field || fallback` on an optional string. */
  function Pick(f: Option<string>, fallback: string): string {
    if f.Some? && f.value != [] then f.value else fallback
  }

  /** `out` obeys the fallback rule for `f`: the upstream text when given, the default otherwise. */
  predicate FallsBack(f: Option<string>, out: string, fallback: string) {
    (Given(f) ==> out == f.value) && (!Given(f) ==> out == fallback)
  }

  /** `sentimentAnalysis?.toLowerCase() || 'neutral'`. */
  function SentimentOf(f: Option<string>): (r: string)
    ensures r != []
    ensures Given(f) ==> r == Lower(f.value)
    ensures !Given(f) ==> r == Neutral
  {
    if f.Some? && Lower(f.value) != [] then Lower(f.value) else Neutral
  }

  /** The normaliser does not validate sentiment: the result lies in the declared
      three-value union exactly when the upstream text is absent or lower-cases into it. */
  lemma SentimentDeclaredIff(f: Option<string>)
    ensures IsDeclaredSentiment(SentimentOf(f)) <==> !Given(f) || IsDeclaredSentiment(Lower(f.value))
  {
  }

  /** A label already in lower case, such as each of the three declared values, is kept
      as it is. */
  lemma {:induction false} LowerCaseLabelKept(l: string)
    requires l != []
    requires forall i :: 0 <= i < |l| ==> !('A' <= l[i] <= 'Z')
    ensures SentimentOf(Some(l)) == l
  {
    LowerOfLowerCase(l);
  }

  /** An upstream label outside the union passes through lower-cased. */
  lemma {:induction false} SentimentNotValidated()
    ensures SentimentOf(Some("Mixed")) == "mixed"
    ensures !IsDeclaredSentiment(SentimentOf(Some("Mixed")))
  {
    var l := Lower("Mixed");
    assert l[0] == LowerChar('M') == 'm';
    assert l == "mixed";
  }

  /** Maps one upstream item to a feed article. `freshId` and `freshUuid` are the two
      `uuidv4()` values the item may consume. */
  function NormalizeItem(it: Item, freshId: string, freshUuid: string): (a: FeedArticle)
    ensures a.uuid == freshUuid
    ensures FallsBack(it.id, a.id, freshId)
    ensures FallsBack(it.title, a.title, NoTitle)
    ensures FallsBack(it.imageUrl, a.imageUrl, PlaceholderImage)
    ensures FallsBack(it.summary, a.summary, NoSummary)
    ensures FallsBack(it.articleUrl, a.articleUrl, NoLink)
    ensures Given(it.sentimentAnalysis) ==> a.sentiment == Lower(it.sentimentAnalysis.value)
    ensures !Given(it.sentimentAnalysis) ==> a.sentiment == Neutral
    ensures FallsBack(it.source, a.source, UnknownSource)
    ensures FallsBack(it.publishedAt, a.publishedAt, Recent)
  {
    FeedArticle(
      Pick(it.id, freshId),
      freshUuid,
      Pick(it.title, NoTitle),
      Pick(it.imageUrl, PlaceholderImage),
      Pick(it.summary, NoSummary),
      Pick(it.articleUrl, NoLink),
      SentimentOf(it.sentimentAnalysis),
      Pick(it.source, UnknownSource),
      Pick(it.publishedAt, Recent))
  }

  /** Maps the whole list, item `i` drawing `supply[2 * i]` as its fallback id and
      `supply[2 * i + 1]` as its uuid. */
  function Normalize(items: seq<Item>, supply: seq<string>): (r: seq<FeedArticle>)
    requires |supply| >= 2 * |items|
    ensures |r| == |items|
    ensures forall i {:trigger r[i]} :: 0 <= i < |items| ==> r[i] == NormalizeItem(items[i], supply[2 * i], supply[2 * i + 1])
    decreases |items|
  {
    if items == [] then []
    else
      var rest := Normalize(items[1..], supply[2..]);
      assert forall i :: 1 <= i < |items| ==>
        items[1..][i - 1] == items[i] && supply[2..][2 * (i - 1)] == supply[2 * i]
        && supply[2..][2 * (i - 1) + 1] == supply[2 * i + 1];
      [NormalizeItem(items[0], supply[0], supply[1])] + rest
  }

  /** `uuidv4()` output: pairwise different, never empty. */
  predicate FreshSupply(supply: seq<string>) {
    Distinct(supply) && forall i :: 0 <= i < |supply| ==> supply[i] != []
  }

  /** Every field of a feed article is populated. */
  predicate FullyPopulated(a: FeedArticle) {
    a.id != [] && a.uuid != [] && a.title != [] && a.imageUrl != [] && a.summary != []
    && a.articleUrl != [] && a.sentiment != [] && a.source != [] && a.publishedAt != []
  }

  /** One normalised item has every field populated when its generated ids are. */
  lemma NormalizeItemPopulated(it: Item, freshId: string, freshUuid: string)
    requires freshId != [] && freshUuid != []
    ensures FullyPopulated(NormalizeItem(it, freshId, freshUuid))
  {
    assert |NoTitle| > 0 && |PlaceholderImage| > 0 && |NoSummary| > 0;
    assert |NoLink| > 0 && |UnknownSource| > 0 && |Recent| > 0;
  }

  /** Normalisation never leaves a field of any article empty. */
  lemma NormalizePopulated(items: seq<Item>, supply: seq<string>)
    requires |supply| >= 2 * |items|
    requires FreshSupply(supply)
    ensures forall i :: 0 <= i < |items| ==> FullyPopulated(Normalize(items, supply)[i])
  {
    var r := Normalize(items, supply);
    forall i | 0 <= i < |items|
      ensures FullyPopulated(r[i])
    {
      NormalizeItemPopulated(items[i], supply[2 * i], supply[2 * i + 1]);
    }
  }

  /** Where article `i` of a batch takes its generated values from. */
  lemma NormalizeDraws(items: seq<Item>, supply: seq<string>, i: nat)
    requires |supply| >= 2 * |items|
    requires i < |items|
    ensures Normalize(items, supply)[i].uuid == supply[2 * i + 1]
    ensures !Given(items[i].id) ==> Normalize(items, supply)[i].id == supply[2 * i]
  {
    var a := Normalize(items, supply)[i];
    assert a == NormalizeItem(items[i], supply[2 * i], supply[2 * i + 1]);
  }

  /** Every article of a batch gets a uuid that no other article of the batch shares and
      that no generated fallback id reuses. */
  lemma NormalizeUuidsFresh(items: seq<Item>, supply: seq<string>)
    requires |supply| >= 2 * |items|
    requires Distinct(supply)
    ensures forall i, j :: 0 <= i < j < |items| ==> Normalize(items, supply)[i].uuid != Normalize(items, supply)[j].uuid
    ensures forall i, j :: 0 <= i < |items| && 0 <= j < |items| && !Given(items[j].id) ==>
              Normalize(items, supply)[i].uuid != Normalize(items, supply)[j].id
  {
    var r := Normalize(items, supply);
    forall i, j | 0 <= i < j < |items|
      ensures r[i].uuid != r[j].uuid
    {
      NormalizeDraws(items, supply, i);
      NormalizeDraws(items, supply, j);
      assert supply[2 * i + 1] != supply[2 * j + 1];
    }
    forall i, j | 0 <= i < |items| && 0 <= j < |items| && !Given(items[j].id)
      ensures r[i].uuid != r[j].id
    {
      NormalizeDraws(items, supply, i);
      NormalizeDraws(items, supply, j);
      if 2 * i + 1 < 2 * j {
        assert supply[2 * i + 1] != supply[2 * j];
      } else {
        assert supply[2 * j] != supply[2 * i + 1];
      }
    }
  }

  /** A string-encoded single object with only a title and a summary becomes one article
      with those two fields and the defaults elsewhere. */
  lemma {:induction false} StringEncodedObject(text: string, supply: seq<string>)
    requires |supply| >= 2
    ensures var it := Item(None, Some("X"), None, Some("Y"), None, None, None, None);
            var items := Decode(RawString(text, Some(ParsedObject(it))));
            items == Some([it])
            && Normalize(items.value, supply) == [FeedArticle(supply[0], supply[1], "X", PlaceholderImage, "Y", NoLink, Neutral, UnknownSource, Recent)]
  {
    var it := Item(None, Some("X"), None, Some("Y"), None, None, None, None);
    assert Decode(RawString(text, Some(ParsedObject(it)))) == Some([it]);
    var r := Normalize([it], supply);
    assert r[0] == NormalizeItem(it, supply[0], supply[1]);
  }
}
