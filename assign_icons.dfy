/**
 * The icon step of src/assign_icons.py: every canonical category has its own My Maps
 * icon, anything else gets the default, and the icons are written into the places.
 */
module Icons {
  import opened Optional
  import opened PyStrings
  import opened Places
  import opened CategoryNormalizer

  /** One icon per canonical category. */
  const CATEGORY_TO_ICON: map<string, string> := map[
    "Restaurants" := "restaurant",
    "Street food" := "street_food",
    "Shopping" := "shopping",
    "Attractions" := "attraction",
    "Sweets" := "sweets",
    "Cable" := "cable",
    "Hotel" := "hotel"
  ]

  const DEFAULT_ICON: string := "attraction"

  /** Every canonical category has an entry in the table. */
  lemma CategoriesHaveIcons()
    ensures forall c :: c in CATEGORIES ==> c in CATEGORY_TO_ICON
  {
    forall c | c in CATEGORIES ensures c in CATEGORY_TO_ICON {
      var k :| 0 <= k < |CATEGORIES| && CATEGORIES[k] == c;
    }
  }

  /** The table has no entry for anything but a canonical category. */
  lemma IconsOnlyForCategories()
    ensures forall c :: c in CATEGORY_TO_ICON ==> c in CATEGORIES
  {
    forall c | c in CATEGORY_TO_ICON ensures c in CATEGORIES {
      if c == "Restaurants" { assert CATEGORIES[0] == c; }
      else if c == "Street food" { assert CATEGORIES[1] == c; }
      else if c == "Shopping" { assert CATEGORIES[2] == c; }
      else if c == "Attractions" { assert CATEGORIES[3] == c; }
      else if c == "Sweets" { assert CATEGORIES[4] == c; }
      else if c == "Cable" { assert CATEGORIES[5] == c; }
      else { assert CATEGORIES[6] == c; }
    }
  }

  /** Distinct categories get distinct icons. */
  lemma IconsDistinct(a: string, b: string)
    requires a in CATEGORY_TO_ICON && b in CATEGORY_TO_ICON && a != b
    ensures CATEGORY_TO_ICON[a] != CATEGORY_TO_ICON[b]
  {
  }

  /** `get_icon_for_category`. `None` stands for both Python's `None` and a non-string
      category; both get the default, as `""` does. */
  function IconFor(category: Option<string>): (icon: string)
    ensures category.Some? && Strip(category.value) in CATEGORY_TO_ICON ==> icon == CATEGORY_TO_ICON[Strip(category.value)]
    ensures category.None? || Strip(category.value) !in CATEGORY_TO_ICON ==> icon == DEFAULT_ICON
  {
    if category.None? || category.value == "" then DEFAULT_ICON
    else
      var key := Strip(category.value);
      if key in CATEGORY_TO_ICON then CATEGORY_TO_ICON[key] else DEFAULT_ICON
  }

  /** A missing or empty category gets the default icon. */
  lemma MissingCategoryIcon()
    ensures IconFor(None) == DEFAULT_ICON && IconFor(Some("")) == DEFAULT_ICON
  {
  }

  /** Any text whose stripped form is not a table key gets the default icon. */
  lemma UnknownCategoryIcon(c: string)
    requires Strip(c) !in CATEGORY_TO_ICON
    ensures IconFor(Some(c)) == DEFAULT_ICON
  {
  }

  /** Every icon is the default or one of the table's icons. */
  lemma IconFromTable(category: Option<string>)
    ensures IconFor(category) == DEFAULT_ICON
      || exists c :: c in CATEGORY_TO_ICON && IconFor(category) == CATEGORY_TO_ICON[c]
  {
  }

  /** A canonical category gets its own icon from the table. */
  lemma CanonicalIcon(c: string)
    requires c in CATEGORIES
    ensures IconFor(Some(c)) == CATEGORY_TO_ICON[c]
  {
    CategoryStripped(c);
    assert c in CATEGORY_TO_ICON by { CategoriesHaveIcons(); }
  }

  /** The default category's icon is the default icon, so an unknown category and
      "Attractions" look alike on the map. */
  lemma AttractionsIconIsDefault()
    ensures IconFor(Some(DEFAULT_CATEGORY)) == DEFAULT_ICON
  {
    CanonicalIcon(DEFAULT_CATEGORY);
  }

  lemma TrimLeftPaddedHotel(s: string)
    requires s == " Hotel "
    ensures TrimLeft(s) == s[1..]
  {
    assert IsSpace(s[0]) && !IsSpace(s[1]);
  }

  /** The lookup is made on the stripped text. */
  lemma PaddedHotelIcon(s: string)
    requires s == " Hotel "
    ensures IconFor(Some(s)) == "hotel"
  {
    TrimLeftPaddedHotel(s);
    var t := s[1..];
    assert IsSpace(t[|t| - 1]) && !IsSpace(t[|t| - 2]);
    assert TrimRight(t) == t[..|t| - 1];
    assert Strip(s) == "Hotel";
  }

  /** Whatever the normalizer returns has an icon of its own in the table. */
  lemma NormalizedHasIcon(raw: Option<string>)
    ensures Normalized(raw) in CATEGORY_TO_ICON
    ensures IconFor(Some(Normalized(raw))) == CATEGORY_TO_ICON[Normalized(raw)]
  {
    CanonicalIcon(Normalized(raw));
  }

  /** A place with its `icon` key set from its own category. */
  function Iconed(p: Place): (q: Place)
    ensures q.icon == Some(IconFor(p.category))
    ensures q.(icon := p.icon) == p
  {
    p.(icon := Some(IconFor(p.category)))
  }

  /** Setting the icon reads only the category, so setting it twice changes nothing more. */
  lemma IconedIdempotent(p: Place)
    ensures Iconed(Iconed(p)) == Iconed(p)
  {
  }

  /** `assign_icons`: every place of the list gets its icon, in place. */
  method AssignIcons(places: array<Place>)
    modifies places
    ensures forall i :: 0 <= i < places.Length ==> places[i] == Iconed(old(places[i]))
  {
    for i := 0 to places.Length
      invariant forall k :: 0 <= k < i ==> places[k] == Iconed(old(places[k]))
      invariant forall k :: i <= k < places.Length ==> places[k] == old(places[k])
    {
      places[i] := Iconed(places[i]);
    }
  }
}
