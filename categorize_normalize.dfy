/**
 * The category normalizer of src/categorize.py: any text the language model returns
 * is mapped onto one of the seven canonical categories.
 */
module CategoryNormalizer {
  import opened Optional
  import opened PyStrings

  /** The canonical categories, in declaration order (the order breaks substring ties). */
  const CATEGORIES: seq<string> :=
    ["Restaurants", "Street food", "Shopping", "Attractions", "Sweets", "Cable", "Hotel"]

  const DEFAULT_CATEGORY: string := "Attractions"

  /** Synonyms and common misspellings, keyed by lower-case text. */
  const ALIASES: map<string, string> := map[
    "restaurant" := "Restaurants",
    "restaurants" := "Restaurants",
    "street food" := "Street food",
    "streetfood" := "Street food",
    "shopping" := "Shopping",
    "attraction" := "Attractions",
    "attractions" := "Attractions",
    "sweet" := "Sweets",
    "sweets" := "Sweets",
    "cable" := "Cable",
    "hotel" := "Hotel",
    "hotels" := "Hotel"
  ]

  /** The lower-case names of the categories, as `cat.lower()` computes them. */
  lemma LowerCategories()
    ensures Lower(CATEGORIES[0]) == "restaurants"
    ensures Lower(CATEGORIES[1]) == "street food"
    ensures Lower(CATEGORIES[2]) == "shopping"
    ensures Lower(CATEGORIES[3]) == "attractions"
    ensures Lower(CATEGORIES[4]) == "sweets"
    ensures Lower(CATEGORIES[5]) == "cable"
    ensures Lower(CATEGORIES[6]) == "hotel"
  {
  }

  /** Every alias leads to a canonical category, and every canonical category is
      the alias of its own lower-case name. */
  lemma AliasesAreCanonical()
    ensures forall k :: k in ALIASES ==> ALIASES[k] in CATEGORIES
    ensures forall c :: c in CATEGORIES ==> Lower(c) in ALIASES && ALIASES[Lower(c)] == c
  {
    LowerCategories();
    forall c | c in CATEGORIES
      ensures Lower(c) in ALIASES && ALIASES[Lower(c)] == c
    {
      var k :| 0 <= k < |CATEGORIES| && CATEGORIES[k] == c;
    }
  }

  /** Every alias leads to a canonical category. */
  lemma AliasTarget(key: string)
    requires key in ALIASES
    ensures ALIASES[key] in CATEGORIES
  {
    AliasesAreCanonical();
  }

  /** The index of the first category, at or after `from`, whose lower-case name occurs
      in `key`; `|CATEGORIES|` when there is none. */
  function FirstContained(key: string, from: nat): (k: nat)
    requires from <= |CATEGORIES|
    ensures from <= k <= |CATEGORIES|
    ensures k < |CATEGORIES| ==> Contains(key, Lower(CATEGORIES[k]))
    ensures forall j :: from <= j < k ==> !Contains(key, Lower(CATEGORIES[j]))
    decreases |CATEGORIES| - from
  {
    if from == |CATEGORIES| then from
    else if Contains(key, Lower(CATEGORIES[from])) then from
    else FirstContained(key, from + 1)
  }

  /** Whether `s` is blank: empty or whitespace only. */
  predicate Blank(s: string) {
    forall i {:trigger IsSpace(s[i])} :: 0 <= i < |s| ==> IsSpace(s[i])
  }

  /** The alias and substring rules of `normalize_category`, applied to the lower-cased,
      stripped text. */
  function NormalizedKey(key: string): (r: string)
    ensures r in CATEGORIES
  {
    if key == "" then DEFAULT_CATEGORY
    else if key in ALIASES then AliasTarget(key); ALIASES[key]
    else
      var k := FirstContained(key, 0);
      if k < |CATEGORIES| then CATEGORIES[k] else DEFAULT_CATEGORY
  }

  /** A canonical category is the alias of its own lower-case name. */
  lemma CanonicalAlias(c: string)
    requires c in CATEGORIES
    ensures Lower(c) in ALIASES && ALIASES[Lower(c)] == c
  {
    AliasesAreCanonical();
  }

  /**
   * `normalize_category`. `None` stands for both Python's `None` and a non-string
   * argument: both take the first branch, as `""` does.
   */
  function Normalized(raw: Option<string>): (r: string)
    ensures r in CATEGORIES
    ensures raw.None? || Blank(raw.value) ==> r == DEFAULT_CATEGORY
  {
    if raw.None? || raw.value == "" then DEFAULT_CATEGORY
    else
      var s := Strip(raw.value);
      if s == "" then DEFAULT_CATEGORY
      else if s in CATEGORIES then s
      else
        NormalizedKey(Lower(s))
  }

  /** `normalize_category`, with its scan over the categories as a loop. */
  method NormalizeCategory(raw: Option<string>) returns (r: string)
    ensures r == Normalized(raw)
    ensures r in CATEGORIES
  {
    if raw.None? || raw.value == "" {
      return DEFAULT_CATEGORY;
    }
    var s := Strip(raw.value);
    if s == "" {
      return DEFAULT_CATEGORY;
    }
    if s in CATEGORIES {
      return s;
    }
    var key := Lower(s);
    if key in ALIASES {
      return ALIASES[key];
    }
    var i := 0;
    while i < |CATEGORIES|
      invariant 0 <= i <= |CATEGORIES|
      invariant FirstContained(key, 0) == FirstContained(key, i)
    {
      if Contains(key, Lower(CATEGORIES[i])) {
        return CATEGORIES[i];
      }
      i := i + 1;
    }
    return DEFAULT_CATEGORY;
  }

  /** No category name has whitespace at either end. */
  lemma CategoryStripped(c: string)
    requires c in CATEGORIES
    ensures c != "" && TrimLeft(c) == c && TrimRight(c) == c && Strip(c) == c
  {
    var k :| 0 <= k < |CATEGORIES| && CATEGORIES[k] == c;
    assert c[0] == CATEGORIES[k][0] && c[|c| - 1] == CATEGORIES[k][|CATEGORIES[k]| - 1];
    StrippedIsFixed(c);
  }

  /** A canonical category, with or without surrounding whitespace, is returned as it is. */
  lemma CanonicalIsFixed(raw: string)
    requires Strip(raw) in CATEGORIES
    ensures Normalized(Some(raw)) == Strip(raw)
  {
    CategoryStripped(Strip(raw));
  }

  /** Normalizing twice is normalizing once. */
  lemma NormalizeIdempotent(raw: Option<string>)
    ensures Normalized(Some(Normalized(raw))) == Normalized(raw)
  {
    CategoryStripped(Normalized(raw));
    CanonicalIsFixed(Normalized(raw));
  }

  /** The lower-case names of distinct categories are distinct. */
  lemma LowerCategoriesDistinct(a: string, b: string)
    requires a in CATEGORIES && b in CATEGORIES && Lower(a) == Lower(b)
    ensures a == b
  {
    AliasesAreCanonical();
  }

  /** The case-sensitive exact match of a canonical name agrees with the alias of
      its lower-case name, so only the lower-cased, stripped text matters. */
  lemma NormalizedByKey(raw: string)
    ensures Normalized(Some(raw)) == NormalizedKey(Lower(Strip(raw)))
  {
    var s := Strip(raw);
    if raw == "" || s == "" {
      BlankByKey(raw, s);
    } else if s in CATEGORIES {
      CanonicalByKey(raw, s);
    } else {
      OtherByKey(raw, s);
    }
  }

  /** A blank text has an empty key, and both give the default. */
  lemma BlankByKey(raw: string, s: string)
    requires s == Strip(raw) && (raw == "" || s == "")
    ensures Normalized(Some(raw)) == DEFAULT_CATEGORY == NormalizedKey(Lower(s))
  {
    assert Lower(s) == "";
  }

  /** Past the exact match, `Normalized` only looks at the lower-cased text. */
  lemma OtherByKey(raw: string, s: string)
    requires raw != "" && s == Strip(raw) && s != "" && s !in CATEGORIES
    ensures Normalized(Some(raw)) == NormalizedKey(Lower(s))
  {
  }

  /** The exact-match branch gives what the alias of the lower-case name gives. */
  lemma CanonicalByKey(raw: string, s: string)
    requires raw != "" && s == Strip(raw) && s in CATEGORIES
    ensures Normalized(Some(raw)) == s == NormalizedKey(Lower(s))
  {
    var key := Lower(s);
    assert key in ALIASES && ALIASES[key] == s by { CanonicalAlias(s); }
    assert key != "" by { CategoryStripped(s); }
  }

  /** The outcome ignores case. */
  lemma NormalizeIgnoresCase(a: string, b: string)
    requires Lower(a) == Lower(b)
    ensures Normalized(Some(a)) == Normalized(Some(b))
  {
    NormalizedByKey(a);
    NormalizedByKey(b);
    LowerStripCommute(a);
    LowerStripCommute(b);
  }

  /** An alias match: the stripped text, lower-cased, is an alias key, and its
      alias is returned. */
  lemma AliasRule(raw: string)
    requires Lower(Strip(raw)) in ALIASES
    ensures Normalized(Some(raw)) == ALIASES[Lower(Strip(raw))]
  {
    NormalizedByKey(raw);
  }

  /** With no alias match, the first category in declaration order whose lower-case
      name occurs in the lower-cased text is returned; with none, the default. */
  lemma SubstringRule(raw: string)
    requires Lower(Strip(raw)) != "" && Lower(Strip(raw)) !in ALIASES
    ensures var k := FirstContained(Lower(Strip(raw)), 0);
      Normalized(Some(raw)) == if k < |CATEGORIES| then CATEGORIES[k] else DEFAULT_CATEGORY
  {
    NormalizedByKey(raw);
  }

  lemma HotelsKey(raw: string)
    requires raw == "HOTELS"
    ensures Lower(Strip(raw)) == "hotels"
  {
    StrippedIsFixed(raw);
    assert Lower(raw) == "hotels";
  }

  /** "HOTELS" is an alias, matched without regard to case. */
  lemma HotelsExample(raw: string)
    requires raw == "HOTELS"
    ensures Normalized(Some(raw)) == "Hotel"
  {
    HotelsKey(raw);
    NormalizedByKey(raw);
    assert NormalizedKey("hotels") == "Hotel";
  }

  lemma TrimLeftStreetFood(raw: string)
    requires raw == "  Street Food\n"
    ensures TrimLeft(raw) == raw[2..]
  {
    assert IsSpace(raw[0]) && IsSpace(raw[1]) && !IsSpace(raw[2]);
    assert raw[1..][1..] == raw[2..];
  }

  lemma TrimRightStreetFood(t: string)
    requires t == "Street Food\n"
    ensures TrimRight(t) == t[..|t| - 1]
  {
    assert IsSpace(t[|t| - 1]) && !IsSpace(t[|t| - 2]);
  }

  lemma StripStreetFood(raw: string)
    requires raw == "  Street Food\n"
    ensures Strip(raw) == raw[2..|raw| - 1] == "Street Food"
  {
    TrimLeftStreetFood(raw);
    TrimRightStreetFood(raw[2..]);
    assert raw[2..][..|raw| - 3] == raw[2..|raw| - 1];
  }

  lemma StreetFoodKey(raw: string)
    requires raw == "  Street Food\n"
    ensures Lower(Strip(raw)) == "street food"
  {
    StripStreetFood(raw);
    LowerStreetFood(Strip(raw));
  }

  lemma LowerStreetFood(s: string)
    requires s == "Street Food"
    ensures Lower(s) == "street food"
  {
  }

  /** Surrounding whitespace and case do not hide an alias. */
  lemma StreetFoodExample(raw: string)
    requires raw == "  Street Food\n"
    ensures Normalized(Some(raw)) == "Street food"
  {
    StreetFoodKey(raw);
    NormalizedByKey(raw);
    assert NormalizedKey("street food") == "Street food";
  }

  lemma HotelRestaurantsStripped(raw: string)
    requires raw == "hotel restaurants"
    ensures Strip(raw) == raw && Lower(raw) == raw
  {
    StrippedIsFixed(raw);
  }

  lemma HotelRestaurantsScan(raw: string)
    requires raw == "hotel restaurants"
    ensures FirstContained(raw, 0) == 0
  {
    assert Lower(CATEGORIES[0]) == "restaurants";
    assert raw[6..17] == "restaurants";
    assert OccursAt(raw, Lower(CATEGORIES[0]), 6);
  }

  lemma HotelRestaurantsNoAlias(raw: string)
    requires raw == "hotel restaurants"
    ensures raw !in ALIASES
  {
  }

  /** Two category names occur; the one declared first wins. */
  lemma HotelRestaurantsExample(raw: string)
    requires raw == "hotel restaurants"
    ensures Normalized(Some(raw)) == "Restaurants"
  {
    assert Lower(Strip(raw)) == raw by { HotelRestaurantsStripped(raw); }
    assert raw !in ALIASES by { HotelRestaurantsNoAlias(raw); }
    assert FirstContained(raw, 0) == 0 by { HotelRestaurantsScan(raw); }
    SubstringRule(raw);
  }
}
