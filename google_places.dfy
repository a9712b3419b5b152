/**
 * The pure parts of src/google_places.py: reading a localized text, turning a Place
 * Details response into the pipeline's record, and giving place ids their `places/`
 * resource prefix. The HTTP requests are not modelled: a response enters as its
 * decoded JSON object.
 */
module GooglePlaces {
  import opened Optional
  import opened PyStrings
  import opened Json

  /** `_get_text`: a plain string is its own text; a localized-text object `{"text": …}`
      gives whatever its `text` member holds; anything else gives `None`. */
  function GetText(obj: Json): (r: Json)
    ensures obj.JStr? ==> r == obj
    ensures obj.JObj? && "text" in obj.fields ==> r == obj.fields["text"]
    ensures r != JNull ==> obj.JStr? || (obj.JObj? && "text" in obj.fields)
  {
    match obj
    case JStr(_) => obj
    case JObj(fields) => if "text" in fields then fields["text"] else JNull
    case _ => JNull
  }

  /** A localized text whose `text` is a string reads as that string, and a string
      read again is unchanged. */
  lemma GetTextOfString(s: string)
    ensures GetText(JObj(map["text" := JStr(s)])) == JStr(s)
    ensures GetText(GetText(JStr(s))) == JStr(s)
  {
  }

  // ----- reviews -----

  /** The text of one review: its `text`, or when that reads as empty, its `originalText`. */
  function ReviewText(review: map<string, Json>): (t: Json)
    ensures Truthy(GetText(Get(review, "text"))) ==> t == GetText(Get(review, "text"))
    ensures !Truthy(GetText(Get(review, "text"))) ==> t == GetText(Get(review, "originalText"))
  {
    Or(GetText(Get(review, "text")), GetText(Get(review, "originalText")))
  }

  /** Every element is a JSON object, so `r.get` can be called on it. */
  predicate AllObjects(rs: seq<Json>) {
    forall i :: 0 <= i < |rs| ==> rs[i].JObj?
  }

  /** The texts of a list of review objects, in order. */
  function ReviewTexts(rs: seq<Json>): (ts: seq<Json>)
    requires AllObjects(rs)
    ensures |ts| == |rs|
    ensures forall i :: 0 <= i < |rs| ==> ts[i] == ReviewText(rs[i].fields)
    decreases |rs|
  {
    if rs == [] then [] else ReviewTexts(rs[..|rs| - 1]) + [ReviewText(rs[|rs| - 1].fields)]
  }

  /** `[t for t in ts if t]`. */
  function TruthyOnly(ts: seq<Json>): (r: seq<Json>)
    ensures |r| <= |ts|
    ensures forall i :: 0 <= i < |r| ==> Truthy(r[i])
    decreases |ts|
  {
    if ts == [] then []
    else if Truthy(ts[|ts| - 1]) then TruthyOnly(ts[..|ts| - 1]) + [ts[|ts| - 1]]
    else TruthyOnly(ts[..|ts| - 1])
  }

  /** `a` is `b` with some elements removed and the rest in their order. */
  predicate IsSubsequence(a: seq<Json>, b: seq<Json>)
    decreases |b|
  {
    if a == [] then true
    else if b == [] then false
    else if a[|a| - 1] == b[|b| - 1] then IsSubsequence(a[..|a| - 1], b[..|b| - 1])
    else IsSubsequence(a, b[..|b| - 1])
  }

  /** The kept texts are the input's texts in their order, and no truthy text is dropped. */
  lemma {:induction false} TruthyOnlyKeepsOrder(ts: seq<Json>)
    ensures IsSubsequence(TruthyOnly(ts), ts)
    ensures forall i :: 0 <= i < |ts| && Truthy(ts[i]) ==> ts[i] in TruthyOnly(ts)
    decreases |ts|
  {
    if ts != [] {
      var init := ts[..|ts| - 1];
      TruthyOnlyKeepsOrder(init);
      var r := TruthyOnly(init);
      if !Truthy(ts[|ts| - 1]) && r != [] {
        assert Truthy(r[|r| - 1]);
      }
      forall i | 0 <= i < |ts| - 1 && Truthy(ts[i]) ensures ts[i] in TruthyOnly(ts) {
        assert ts[i] == init[i];
      }
    }
  }

  /** Every truthy text is kept as many times as it occurs, and no other text is kept. */
  lemma {:induction false} TruthyOnlyCounts(ts: seq<Json>, x: Json)
    ensures multiset(TruthyOnly(ts))[x] == if Truthy(x) then multiset(ts)[x] else 0
    decreases |ts|
  {
    if ts != [] {
      TruthyOnlyCounts(ts[..|ts| - 1], x);
      assert ts == ts[..|ts| - 1] + [ts[|ts| - 1]];
    }
  }

  /** `min(n, 5)`: how many reviews `reviews_raw[:5]` keeps. */
  function FirstFive(n: nat): (k: nat)
    ensures k <= 5 && k <= n && (k < 5 ==> k == n)
  {
    if n <= 5 then n else 5
  }

  // ----- the normalized record -----

  /** The dict `_normalize_place` returns. The members keep their JSON values: the
      function copies them through without checking their types. */
  datatype Details = Details(
    name: Json,
    latitude: Json,
    longitude: Json,
    rating: Json,
    userRatingsCount: Json,
    reviews: seq<Json>,
    types: Json,
    address: Json,
    placeId: Json)

  /** `p.get("location") or {}`. */
  function Location(p: map<string, Json>): Json {
    Or(Get(p, "location"), JObj(map[]))
  }

  /** `p.get("reviews") or []`. */
  function RawReviews(p: map<string, Json>): Json {
    Or(Get(p, "reviews"), JArr([]))
  }

  /** `_normalize_place`. `None` stands for the exception Python raises on a response of
      the wrong shape: a `location` that is not an object, `reviews` that are not a list,
      or one of the first five reviews that is not an object. */
  function NormalizePlace(p: map<string, Json>): (r: Option<Details>)
    ensures r.Some? ==> |r.value.reviews| <= 5
    ensures r.Some? ==> forall i :: 0 <= i < |r.value.reviews| ==> Truthy(r.value.reviews[i])
  {
    var loc := Location(p);
    var raw := RawReviews(p);
    if !loc.JObj? || !raw.JArr? then None
    else
      var first := raw.items[..FirstFive(|raw.items|)];
      if !AllObjects(first) then None
      else Some(Details(
        name := Or(GetText(Get(p, "displayName")), JStr("")),
        latitude := Get(loc.fields, "latitude"),
        longitude := Get(loc.fields, "longitude"),
        rating := Get(p, "rating"),
        userRatingsCount := Get(p, "userRatingCount"),
        reviews := TruthyOnly(ReviewTexts(first)),
        types := Or(Get(p, "types"), JArr([])),
        address := Or(GetText(Get(p, "formattedAddress")), JStr("")),
        placeId := Or(Get(p, "id"), JStr(""))))
  }

  /** The shapes on which `_normalize_place` raises, and only those. */
  lemma NormalizeFailsExactly(p: map<string, Json>)
    ensures NormalizePlace(p).None? <==>
      (Truthy(Get(p, "location")) && !Get(p, "location").JObj?)
      || (Truthy(Get(p, "reviews")) && !Get(p, "reviews").JArr?)
      || (RawReviews(p).JArr? && !AllObjects(RawReviews(p).items[..FirstFive(|RawReviews(p).items|)]))
  {
  }

  /** A well-formed response: no `location` or an object, no `reviews` or a list of
      objects. Such a response is always normalized. */
  lemma WellFormedNormalizes(p: map<string, Json>)
    requires "location" !in p || p["location"].JObj?
    requires "reviews" !in p || (p["reviews"].JArr? && AllObjects(p["reviews"].items))
    ensures NormalizePlace(p).Some?
  {
    var raw := RawReviews(p);
    assert raw.JArr?;
    var k := FirstFive(|raw.items|);
    assert AllObjects(raw.items[..k]) by {
      forall i | 0 <= i < k ensures raw.items[..k][i].JObj? {
        assert raw.items[..k][i] == raw.items[i];
      }
    }
  }

  /** `name` and `address` read the localized texts, falling back to `""`; `place_id`
      is the `id` member, falling back to `""`, and `types` the `types` member, falling
      back to `[]`. */
  lemma NormalizedDefaults(p: map<string, Json>)
    requires NormalizePlace(p).Some?
    ensures var d := NormalizePlace(p).value;
      (!Truthy(GetText(Get(p, "displayName"))) ==> d.name == JStr(""))
      && (Truthy(GetText(Get(p, "displayName"))) ==> d.name == GetText(Get(p, "displayName")))
      && (!Truthy(GetText(Get(p, "formattedAddress"))) ==> d.address == JStr(""))
      && (Truthy(GetText(Get(p, "formattedAddress"))) ==> d.address == GetText(Get(p, "formattedAddress")))
      && (!Truthy(Get(p, "id")) ==> d.placeId == JStr(""))
      && (Truthy(Get(p, "id")) ==> d.placeId == Get(p, "id"))
      && (!Truthy(Get(p, "types")) ==> d.types == JArr([]))
      && (Truthy(Get(p, "types")) ==> d.types == Get(p, "types"))
  {
  }

  /** A display name or address given as a string, or as a localized text holding a
      string, gives a string; every other shape gives `""`. */
  lemma TextualFieldsAreStrings(p: map<string, Json>, s: string)
    requires NormalizePlace(p).Some?
    requires Get(p, "displayName") == JStr(s) || Get(p, "displayName") == JObj(map["text" := JStr(s)])
    ensures NormalizePlace(p).value.name.JStr?
    ensures s != "" ==> NormalizePlace(p).value.name == JStr(s)
  {
  }

  /** The rating, the rating count and the coordinates are copied through unchanged,
      `None` when absent. */
  lemma NormalizedCopiesThrough(p: map<string, Json>)
    requires NormalizePlace(p).Some?
    ensures var d := NormalizePlace(p).value;
      d.rating == Get(p, "rating") && d.userRatingsCount == Get(p, "userRatingCount")
      && (Get(p, "location").JObj? ==>
            d.latitude == Get(p["location"].fields, "latitude")
            && d.longitude == Get(p["location"].fields, "longitude"))
      && (!Truthy(Get(p, "location")) ==> d.latitude == JNull && d.longitude == JNull)
  {
  }

  /** At most five reviews, never more than the response holds; each one non-empty;
      they are the texts of the first five reviews in their order, and every first-five
      review with a text is among them, as often as it occurs there. */
  lemma NormalizedReviews(p: map<string, Json>)
    requires NormalizePlace(p).Some?
    ensures var d := NormalizePlace(p).value;
      var raw := RawReviews(p).items;
      var texts := ReviewTexts(raw[..FirstFive(|raw|)]);
      |d.reviews| <= 5 && |d.reviews| <= |raw|
      && (forall i :: 0 <= i < |d.reviews| ==> Truthy(d.reviews[i]))
      && IsSubsequence(d.reviews, texts)
      && (forall i :: 0 <= i < |texts| && Truthy(texts[i]) ==> texts[i] in d.reviews)
      && (forall x :: multiset(d.reviews)[x] == if Truthy(x) then multiset(texts)[x] else 0)
  {
    var raw := RawReviews(p).items;
    var texts := ReviewTexts(raw[..FirstFive(|raw|)]);
    TruthyOnlyKeepsOrder(texts);
    forall x ensures multiset(TruthyOnly(texts))[x] == if Truthy(x) then multiset(texts)[x] else 0 {
      TruthyOnlyCounts(texts, x);
    }
  }

  // ----- place ids -----

  const PLACES_PREFIX: string := "places/"

  /** The id step of `_place_details`: prefix `places/` unless it is already there. */
  function WithPlacesPrefix(pid: string): (r: string)
    ensures StartsWith(r, PLACES_PREFIX)
    ensures StartsWith(pid, PLACES_PREFIX) ==> r == pid
    ensures !StartsWith(pid, PLACES_PREFIX) ==> r[|PLACES_PREFIX|..] == pid
  {
    if StartsWith(pid, PLACES_PREFIX) then pid else PLACES_PREFIX + pid
  }

  /** Prefixing twice is prefixing once. */
  lemma PrefixIdempotent(pid: string)
    ensures WithPlacesPrefix(WithPlacesPrefix(pid)) == WithPlacesPrefix(pid)
  {
  }

  /** What `_search_place` makes of its first result: a resource name, no id, or the
      exception raised when the `id` member is set but is not a string. */
  datatype SearchId = Found(id: string) | NoId | Crash

  /** The id choice of `_search_place`: a set `id`, prefixed; else a `name` that is
      already a `places/` resource name; else nothing. */
  function SearchResultId(place: map<string, Json>): (r: SearchId)
    ensures r.Found? ==> StartsWith(r.id, PLACES_PREFIX)
    ensures r.Crash? <==> Truthy(Get(place, "id")) && !Get(place, "id").JStr?
  {
    var pid := Get(place, "id");
    var name := Get(place, "name");
    if Truthy(pid) then
      (if pid.JStr? then Found(WithPlacesPrefix(pid.s)) else Crash)
    else if Truthy(name) && name.JStr? && StartsWith(name.s, PLACES_PREFIX) then Found(name.s)
    else NoId
  }

  /** The `name` member is used only when there is no `id` and it is already a
      `places/` resource name, and then verbatim. */
  lemma NameUsedOnlyWhenPrefixed(place: map<string, Json>)
    requires !Truthy(Get(place, "id"))
    ensures SearchResultId(place).Found? <==>
      Get(place, "name").JStr? && StartsWith(Get(place, "name").s, PLACES_PREFIX)
    ensures SearchResultId(place).Found? ==> Get(place, "name") == JStr(SearchResultId(place).id)
  {
  }

  /** A string `id` is used in preference to any `name`. */
  lemma IdPreferredToName(place: map<string, Json>, pid: string)
    requires Get(place, "id") == JStr(pid) && pid != ""
    ensures SearchResultId(place) == Found(WithPlacesPrefix(pid))
  {
  }

  /** The id found by the search reaches the details request unchanged. */
  lemma SearchIdNeedsNoPrefix(place: map<string, Json>)
    requires SearchResultId(place).Found?
    ensures WithPlacesPrefix(SearchResultId(place).id) == SearchResultId(place).id
  {
  }
}
