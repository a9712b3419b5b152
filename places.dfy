/**
 * The place record that flows through the pipeline: a dict whose keys are added
 * stage by stage. Every key is an optional slot; `None` stands for both a missing key
 * and a key holding `None`, which every reader treats alike (`place.get(k)`).
 */
module Places {
  import opened Optional

  datatype Place = Place(
    name: Option<string>,
    address: Option<string>,
    latitude: Option<real>,
    longitude: Option<real>,
    rating: Option<real>,
    userRatingsCount: Option<int>,
    reviews: Option<seq<string>>,
    types: Option<seq<string>>,
    placeId: Option<string>,
    category: Option<string>,
    qualityColor: Option<string>,
    icon: Option<string>)

  /** The empty dict `{}`. */
  const Empty: Place := Place(None, None, None, None, None, None, None, None, None, None, None, None)

  /** `{"name": name}`: a record holding a name and nothing else. */
  function OnlyName(name: string): (p: Place)
    ensures p.name == Some(name) && p.(name := None) == Empty
  {
    Empty.(name := Some(name))
  }

  /** `place.get("name") or ""`: the key under which a place is correlated with its category. */
  function NameOf(p: Place): string {
    p.name.GetOr("")
  }

  /** The set of correlation names of a list of places. */
  function NameSet(ps: seq<Place>): (r: set<string>)
    ensures forall i :: 0 <= i < |ps| ==> NameOf(ps[i]) in r
    ensures forall x :: x in r ==> exists i :: 0 <= i < |ps| && NameOf(ps[i]) == x
  {
    set i | 0 <= i < |ps| :: NameOf(ps[i])
  }

  /** Extending a list by one place adds exactly that place's name. */
  lemma NameSetSnoc(ps: seq<Place>)
    requires |ps| > 0
    ensures NameSet(ps) == NameSet(ps[..|ps| - 1]) + {NameOf(ps[|ps| - 1])}
  {
    var init := ps[..|ps| - 1];
    forall x | x in NameSet(init) ensures x in NameSet(ps) {
      var i :| 0 <= i < |init| && NameOf(init[i]) == x;
      assert NameOf(ps[i]) == x;
    }
  }

  /** The names of two lists together are the names of each. */
  lemma NameSetConcat(a: seq<Place>, b: seq<Place>)
    ensures NameSet(a + b) == NameSet(a) + NameSet(b)
  {
    forall x | x in NameSet(a) ensures x in NameSet(a + b) {
      var i :| 0 <= i < |a| && NameOf(a[i]) == x;
      assert (a + b)[i] == a[i];
    }
    forall x | x in NameSet(b) ensures x in NameSet(a + b) {
      var i :| 0 <= i < |b| && NameOf(b[i]) == x;
      assert (a + b)[|a| + i] == b[i];
    }
    forall x | x in NameSet(a + b) ensures x in NameSet(a) + NameSet(b) {
      var i :| 0 <= i < |a + b| && NameOf((a + b)[i]) == x;
      if i < |a| {
        assert (a + b)[i] == a[i];
      } else {
        assert (a + b)[i] == b[i - |a|];
      }
    }
  }
}
