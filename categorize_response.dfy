/**
 * The reply parser of src/categorize.py: the JSON text is cut out of an optional
 * Markdown code fence, decoded, and reconciled with the batch by place number.
 */
module BatchResponse {
  import opened Optional
  import opened PyStrings
  import opened Json
  import opened Places
  import opened CategoryNormalizer

  const FENCE: string := "```"
  const JSON_TAG: string := "json"

  /** The text holds an opening fence and a closing fence after it. */
  predicate Fenced(s: string) {
    var p := Find(s, FENCE, 0);
    p >= 0 && Find(s, FENCE, p + |FENCE|) >= 0
  }

  /** The start of the fenced interior: after the opening fence and an optional `json` tag. */
  function InteriorStart(s: string, p: nat, q: nat): (g: nat)
    requires p + |FENCE| <= q <= |s|
    ensures g == p + |FENCE| || g == p + |FENCE| + |JSON_TAG|
    ensures g <= q
  {
    if p + |FENCE| + |JSON_TAG| <= q && s[p + |FENCE|..p + |FENCE| + |JSON_TAG|] == JSON_TAG
    then p + |FENCE| + |JSON_TAG|
    else p + |FENCE|
  }

  /**
   * The text handed to the JSON decoder: the stripped reply, or, when it holds a fenced
   * block, the stripped interior of the first one. This is the search for
   * "```(?:json)?\s*([\s\S]*?)```" written out: the leftmost match starts at the first
   * fence, and the lazy group ends at the next fence; the whitespace the pattern skips
   * after the tag is removed by the final strip anyway.
   */
  function ExtractJsonText(raw: string): (r: string)
    ensures Trimmed(r)
    ensures !Fenced(Strip(raw)) ==> r == Strip(raw)
  {
    ExtractFrom(Strip(raw))
  }

  /** The decoder's text taken from the stripped reply `s`. */
  function ExtractFrom(s: string): (r: string)
    requires Trimmed(s)
    ensures Trimmed(r)
    ensures !Fenced(s) ==> r == s
  {
    var p := Find(s, FENCE, 0);
    if p < 0 then s
    else
      var q := Find(s, FENCE, p + |FENCE|);
      if q < 0 then s
      else FencedPart(s, p, q)
  }

  /** The stripped interior between the fences at `p` and `q`. */
  function FencedPart(s: string, p: nat, q: nat): (r: string)
    requires p + |FENCE| <= q <= |s|
    ensures Trimmed(r)
  {
    Strip(s[InteriorStart(s, p, q)..q])
  }

  /** Between a fence and the next one there is no fence. */
  lemma NoFenceBetween(s: string, p: nat, g: nat, q: nat)
    requires p + |FENCE| <= g <= q <= |s|
    requires forall i :: p + |FENCE| <= i < q ==> !OccursAt(s, FENCE, i)
    ensures !Contains(s[g..q], FENCE)
  {
    var inner := s[g..q];
    if Contains(inner, FENCE) {
      var j :| 0 <= j <= |inner| && OccursAt(inner, FENCE, j);
      assert OccursAt(s, inner, g);
      OccursAtTransitive(s, inner, g, FENCE, j);
    }
  }

  /** A slice occurs where it was cut. */
  lemma SliceOccurs(s: string, g: nat, q: nat)
    requires g <= q <= |s|
    ensures OccursAt(s, s[g..q], g)
  {
  }

  /** The stripped form of a slice is still a part of the whole text. */
  lemma StrippedSliceContained(s: string, g: nat, q: nat)
    requires g <= q <= |s|
    ensures Contains(s, Strip(s[g..q]))
  {
    var inner := s[g..q];
    SliceOccurs(s, g, q);
    StripIsSlice(inner);
    OccursAtTransitive(s, inner, g, Strip(inner), |inner| - |TrimLeft(inner)|);
  }

  /** Stripping cannot bring in a text that was absent. */
  lemma StripKeepsAbsent(t: string, z: string)
    requires !Contains(t, z)
    ensures !Contains(Strip(t), z)
  {
    StripIsSlice(t);
    NotContainsSlice(t, Strip(t), z) by {
      assert OccursAt(t, Strip(t), |t| - |TrimLeft(t)|);
    }
  }

  /** A fenced reply yields a part of itself that holds no fence. */
  lemma FencedInterior(raw: string)
    requires Fenced(Strip(raw))
    ensures !Contains(ExtractJsonText(raw), FENCE)
    ensures Contains(Strip(raw), ExtractJsonText(raw))
  {
    var s := Strip(raw);
    var p := Find(s, FENCE, 0);
    var q := Find(s, FENCE, p + |FENCE|);
    var g := InteriorStart(s, p, q);
    ExtractAt(s, p, q);
    assert ExtractJsonText(raw) == Strip(s[g..q]);
    NoFenceBetween(s, p, g, q);
    StripKeepsAbsent(s[g..q], FENCE);
    StrippedSliceContained(s, g, q);
  }

  /** The positions of the parts of a text cut as `pre + f + tag + body + f + post`. */
  lemma BlockSlices<T>(s: seq<T>, pre: seq<T>, f: seq<T>, tag: seq<T>, body: seq<T>, post: seq<T>)
    requires s == pre + f + tag + body + f + post && |f| == 3
    ensures var p := |pre|; var q := p + 3 + |tag| + |body|;
      s[..p + 2] == pre + f[..2] && s[p..p + 3] == f
      && s[p + 3..q + 2] == tag + body + f[..2] && s[q..q + 3] == f
      && s[p + 3..p + 3 + |tag|] == tag && s[p + 3 + |tag|..q] == body
  {
    var p := |pre|;
    var q := p + 3 + |tag| + |body|;
    assert s[..p + 2] == pre + f[..2];
    assert s[p..p + 3] == f;
    assert s[p + 3..q + 2] == tag + body + f[..2];
    assert s[q..q + 3] == f;
    assert s[p + 3..p + 3 + |tag|] == tag;
    assert s[p + 3 + |tag|..q] == body;
  }

  /**
   * The fenced case without `find`: when the stripped reply is `pre`, a fence, an
   * optional `json` tag, `body`, a fence and `post`, and the first fence and the next
   * one are these two, the decoder is handed `body` stripped.
   */
  lemma FencedBlock(raw: string, pre: string, tag: string, body: string, post: string)
    requires Strip(raw) == pre + FENCE + tag + body + FENCE + post
    requires !Contains(pre + "``", FENCE)
    requires tag == "" || tag == JSON_TAG
    requires !Contains(tag + body + "``", FENCE)
    requires tag == "" ==> !StartsWith(body, JSON_TAG)
    ensures ExtractJsonText(raw) == Strip(body)
  {
    FencedBlockFrom(Strip(raw), pre, tag, body, post);
  }

  /** A reply that is one `json`-tagged block around a text on its own line hands the
      decoder exactly that text, whatever stands around the reply. */
  lemma TaggedBlock(raw: string, obj: string)
    requires obj != [] && Trimmed(obj) && forall k :: 0 <= k < |obj| ==> obj[k] != '`'
    requires Strip(raw) == FENCE + JSON_TAG + "\n" + obj + "\n" + FENCE
    ensures ExtractJsonText(raw) == obj
  {
    TaggedBlockFrom(Strip(raw), obj);
  }

  lemma TaggedBlockFrom(s: string, obj: string)
    requires obj != [] && Trimmed(obj) && forall k :: 0 <= k < |obj| ==> obj[k] != '`'
    requires Trimmed(s) && s == FENCE + JSON_TAG + "\n" + obj + "\n" + FENCE
    ensures ExtractFrom(s) == obj
  {
    var body := "\n" + obj + "\n";
    assert s == "" + FENCE + JSON_TAG + body + FENCE + "";
    NoTickNoFence("");
    NoTickAround(JSON_TAG, obj);
    NewlinePaddedStrip(obj);
    FencedBlockFrom(s, "", JSON_TAG, body, "");
  }

  /** The reply shape of the prompt's own example. */
  lemma FencedJsonExample(raw: string)
    requires raw == FENCE + JSON_TAG + "\n" + "{\"1\":\"Shopping\",\"2\":\"hotel\"}" + "\n" + FENCE
    ensures ExtractJsonText(raw) == "{\"1\":\"Shopping\",\"2\":\"hotel\"}"
  {
    var obj := "{\"1\":\"Shopping\",\"2\":\"hotel\"}";
    ExampleObject(obj);
    assert Trimmed(raw) by { assert raw[0] == '`' && raw[|raw| - 1] == '`'; }
    StrippedIsFixed(raw);
    TaggedBlock(raw, obj);
  }

  lemma ExampleObject(obj: string)
    requires obj == "{\"1\":\"Shopping\",\"2\":\"hotel\"}"
    ensures obj != [] && Trimmed(obj) && forall k :: 0 <= k < |obj| ==> obj[k] != '`'
  {
  }

  /** Newlines around a backtick-free text, after the `json` tag, hold no fence even with
      the closing fence's first two backticks after them. */
  lemma NoTickAround(tag: string, obj: string)
    requires tag == JSON_TAG && forall k :: 0 <= k < |obj| ==> obj[k] != '`'
    ensures !Contains(tag + ("\n" + obj + "\n") + "``", FENCE)
  {
    var x := tag + ("\n" + obj + "\n");
    forall k | 0 <= k < |x|
      ensures x[k] != '`'
    {
      if k >= 5 && k < |x| - 1 {
        assert x[k] == obj[k - 5];
      }
    }
    NoTickNoFence(x);
  }

  /** Text without a backtick, followed by two backticks, holds no fence. */
  lemma NoTickNoFence(x: string)
    requires forall k :: 0 <= k < |x| ==> x[k] != '`'
    ensures !Contains(x + "``", FENCE)
  {
    var y := x + "``";
    forall i | 0 <= i && i + |FENCE| <= |y|
      ensures !OccursAt(y, FENCE, i)
    {
      assert y[i..i + |FENCE|][0] == y[i] == x[i];
    }
  }

  /** `strip()` removes one newline on each side of a trimmed, non-empty text. */
  lemma NewlinePaddedStrip(j: string)
    requires j != [] && Trimmed(j)
    ensures Strip("\n" + j + "\n") == j
  {
    var s := "\n" + j + "\n";
    assert s[1..] == j + "\n";
    assert TrimLeft(s) == j + "\n";
    assert (j + "\n")[..|j|] == j;
    assert TrimRight(j + "\n") == TrimRight(j);
    StrippedIsFixed(j);
  }

  lemma FencedBlockFrom(s: string, pre: string, tag: string, body: string, post: string)
    requires Trimmed(s) && s == pre + FENCE + tag + body + FENCE + post
    requires !Contains(pre + "``", FENCE)
    requires tag == "" || tag == JSON_TAG
    requires !Contains(tag + body + "``", FENCE)
    requires tag == "" ==> !StartsWith(body, JSON_TAG)
    ensures ExtractFrom(s) == Strip(body)
  {
    var p := |pre|;
    var q := p + 3 + |tag| + |body|;
    BlockSlices(s, pre, FENCE, tag, body, post);
    assert FENCE[..2] == "``";
    ExtractAtSlices(s, p, q, pre + "``", tag, body, tag + body + "``");
  }

  /** The fenced case stated on positions: the pieces of the reply sit where the
      slices say, so the two fences are found at `p` and `q`. */
  lemma ExtractAtSlices(s: string, p: nat, q: nat, w1: string, tag: string, body: string, w2: string)
    requires Trimmed(s)
    requires p + 3 + |tag| + |body| == q && q + 3 <= |s|
    requires |w1| == p + 2 && s[..p + 2] == w1 && !Contains(w1, FENCE)
    requires s[p..p + 3] == FENCE && s[q..q + 3] == FENCE
    requires |w2| == q - p - 1 && s[p + 3..q + 2] == w2 && !Contains(w2, FENCE)
    requires s[p + 3..p + 3 + |tag|] == tag && s[p + 3 + |tag|..q] == body
    requires tag == "" || tag == JSON_TAG
    requires tag == "" ==> !StartsWith(body, JSON_TAG)
    ensures ExtractFrom(s) == Strip(body)
  {
    assert s[0..p + 2] == w1;
    FirstFenceFrom(s, 0, w1, p);
    FirstFenceFrom(s, p + 3, w2, q);
    InteriorAfterTag(s, p, q, tag, body);
    ExtractAt(s, p, q);
  }

  /** A fence right after a fence-free window is the first fence from the window on. */
  lemma FirstFenceFrom(s: string, a: nat, w: string, r: nat)
    requires |w| >= 2 && a + |w| == r + 2 && r + 3 <= |s| && s[r..r + 3] == FENCE
    requires s[a..a + |w|] == w && !Contains(w, FENCE)
    ensures Find(s, FENCE, a) == r
  {
    NoOccurrenceIn(s, a, w, FENCE);
    assert OccursAt(s, FENCE, r);
    forall i | a <= i < r
      ensures !OccursAt(s, FENCE, i)
    {
      assert i + |FENCE| <= a + |w|;
    }
    FindIs(s, FENCE, a, r);
  }

  /** The interior starts after the tag: a `json` tag is skipped, and without a tag the
      body does not start with `json`. */
  lemma InteriorAfterTag(s: string, p: nat, q: nat, tag: string, body: string)
    requires p + 3 + |tag| + |body| == q <= |s|
    requires s[p + 3..p + 3 + |tag|] == tag && s[p + 3 + |tag|..q] == body
    requires tag == "" || tag == JSON_TAG
    requires tag == "" ==> !StartsWith(body, JSON_TAG)
    ensures InteriorStart(s, p, q) == p + 3 + |tag|
  {
    if tag == "" && p + 7 <= q {
      assert s[p + 3..p + 7] == body[..4];
    }
  }

  /** Once both fences are found, the decoder is handed the stripped interior. */
  lemma ExtractAt(s: string, p: nat, q: nat)
    requires Trimmed(s)
    requires Find(s, FENCE, 0) == p && Find(s, FENCE, p + |FENCE|) == q
    ensures p + |FENCE| <= q <= |s|
    ensures ExtractFrom(s) == FencedPart(s, p, q)
  {
  }

  /** `parsed.get(str(i + 1)) or parsed.get(str(i)) or parsed.get(i + 1)`. A decoded
      object has only string keys, so the integer probe never finds anything, and the
      whole expression is the first truthy member, or `None`. */
  function AnswerValue(obj: map<string, Json>, i: nat): (r: Option<Json>)
    ensures r.Some? ==> Truthy(r.value)
    ensures Truthy(Get(obj, IntToString(i + 1))) ==> r == Some(obj[IntToString(i + 1)])
    ensures !Truthy(Get(obj, IntToString(i + 1))) && Truthy(Get(obj, IntToString(i))) ==>
      r == Some(obj[IntToString(i)])
    ensures r.None? <==> !Truthy(Get(obj, IntToString(i + 1))) && !Truthy(Get(obj, IntToString(i)))
  {
    var a := Get(obj, IntToString(i + 1));
    if Truthy(a) then Some(a)
    else
      var b := Get(obj, IntToString(i));
      if Truthy(b) then Some(b) else None
  }

  /** `str(raw_cat) if raw_cat is not None else ""`; `show` is Python's `str` of a
      non-string decoded value. */
  function AnswerText(v: Option<Json>, show: Json -> string): (t: string)
    ensures v.None? ==> t == ""
    ensures v.Some? && v.value.JStr? ==> t == v.value.s
  {
    match v
    case None => ""
    case Some(JStr(s)) => s
    case Some(other) => show(other)
  }

  /** The category given to the place at index `i` by a decoded reply object. */
  function CategoryAt(obj: map<string, Json>, i: nat, show: Json -> string): (c: string)
    ensures c in CATEGORIES
    ensures AnswerValue(obj, i).None? ==> c == DEFAULT_CATEGORY
  {
    Normalized(Some(AnswerText(AnswerValue(obj, i), show)))
  }

  /** The default answer for every place of the batch. */
  function DefaultCategories(ps: seq<Place>): (m: map<string, string>)
    ensures m.Keys == NameSet(ps)
    ensures forall n :: n in m ==> m[n] == DEFAULT_CATEGORY
    decreases |ps|
  {
    if ps == [] then map[]
    else
      NameSetSnoc(ps);
      DefaultCategories(ps[..|ps| - 1])[NameOf(ps[|ps| - 1]) := DEFAULT_CATEGORY]
  }

  /** The positional reconciliation, place by place; a later place with the same name
      overwrites an earlier one. */
  function PositionalCategories(obj: map<string, Json>, ps: seq<Place>, show: Json -> string): (m: map<string, string>)
    ensures m.Keys == NameSet(ps)
    ensures forall n :: n in m ==> m[n] in CATEGORIES
    decreases |ps|
  {
    if ps == [] then map[]
    else
      NameSetSnoc(ps);
      PositionalCategories(obj, ps[..|ps| - 1], show)[NameOf(ps[|ps| - 1]) := CategoryAt(obj, |ps| - 1, show)]
  }

  /** One more place adds, or overwrites, the entry of its name. */
  lemma PositionalSnoc(obj: map<string, Json>, ps: seq<Place>, show: Json -> string, i: nat)
    requires i < |ps|
    ensures PositionalCategories(obj, ps[..i + 1], show)
      == PositionalCategories(obj, ps[..i], show)[NameOf(ps[i]) := CategoryAt(obj, i, show)]
  {
    assert ps[..i + 1][..i] == ps[..i];
  }

  /** The last place of a given name decides its category. */
  lemma {:induction false} PositionalLastWins(obj: map<string, Json>, ps: seq<Place>, show: Json -> string, i: nat)
    requires i < |ps|
    requires forall j :: i < j < |ps| ==> NameOf(ps[j]) != NameOf(ps[i])
    ensures PositionalCategories(obj, ps, show)[NameOf(ps[i])] == CategoryAt(obj, i, show)
    decreases |ps|
  {
    if i < |ps| - 1 {
      var init := ps[..|ps| - 1];
      assert forall j :: i < j < |init| ==> NameOf(init[j]) != NameOf(init[i]) by {
        forall j | i < j < |init| ensures NameOf(init[j]) != NameOf(init[i]) {
          assert init[j] == ps[j];
        }
      }
      PositionalLastWins(obj, init, show, i);
      assert init[i] == ps[i];
    }
  }

  /** `_parse_batch_response` as a value: defaults when the text does not decode to an
      object, the positional answers otherwise. */
  function ParsedCategories(raw: string, ps: seq<Place>, decode: string -> Option<Json>, show: Json -> string): (m: map<string, string>)
    ensures m.Keys == NameSet(ps)
    ensures forall n :: n in m ==> m[n] in CATEGORIES
  {
    CategoriesOf(decode(ExtractJsonText(raw)), ps, show)
  }

  /** The categories given by a decoded reply, or by none. */
  function CategoriesOf(parsed: Option<Json>, ps: seq<Place>, show: Json -> string): (m: map<string, string>)
    ensures m.Keys == NameSet(ps)
    ensures forall n :: n in m ==> m[n] in CATEGORIES
  {
    if parsed.Some? && parsed.value.JObj? then PositionalCategories(parsed.value.fields, ps, show)
    else
      AliasesAreCanonical();
      DefaultCategories(ps)
  }

  /** Every place of the batch is given the default. */
  lemma DefaultsEverywhere(ps: seq<Place>)
    ensures forall i :: 0 <= i < |ps| ==> DefaultCategories(ps)[NameOf(ps[i])] == DEFAULT_CATEGORY
  {
    forall i | 0 <= i < |ps| ensures DefaultCategories(ps)[NameOf(ps[i])] == DEFAULT_CATEGORY {
      assert NameOf(ps[i]) in NameSet(ps);
    }
  }

  /** A reply that does not decode to an object gives every place the default. */
  lemma UndecodableGivesDefaults(raw: string, ps: seq<Place>, decode: string -> Option<Json>, show: Json -> string)
    requires decode(ExtractJsonText(raw)).None? || !decode(ExtractJsonText(raw)).value.JObj?
    ensures forall i :: 0 <= i < |ps| ==> ParsedCategories(raw, ps, decode, show)[NameOf(ps[i])] == DEFAULT_CATEGORY
  {
    var parsed := decode(ExtractJsonText(raw));
    assert ParsedCategories(raw, ps, decode, show) == CategoriesOf(parsed, ps, show);
    assert CategoriesOf(parsed, ps, show) == DefaultCategories(ps);
    DefaultsEverywhere(ps);
  }

  /** A decoded object answers the place at index `i` unless a later place shares its name. */
  lemma DecodedAnswers(raw: string, ps: seq<Place>, decode: string -> Option<Json>, show: Json -> string, i: nat)
    requires decode(ExtractJsonText(raw)).Some? && decode(ExtractJsonText(raw)).value.JObj?
    requires i < |ps|
    requires forall j :: i < j < |ps| ==> NameOf(ps[j]) != NameOf(ps[i])
    ensures ParsedCategories(raw, ps, decode, show)[NameOf(ps[i])]
      == CategoryAt(decode(ExtractJsonText(raw)).value.fields, i, show)
  {
    PositionalLastWins(decode(ExtractJsonText(raw)).value.fields, ps, show, i);
  }

  /** `_parse_batch_response`. */
  method ParseBatchResponse(raw: string, ps: seq<Place>, decode: string -> Option<Json>, show: Json -> string)
    returns (result: map<string, string>)
    ensures result == ParsedCategories(raw, ps, decode, show)
  {
    var parsed := decode(ExtractJsonText(raw));
    if parsed.None? || !parsed.value.JObj? {
      result := FillDefaults(ps);
    } else {
      result := FillPositional(parsed.value.fields, ps, show);
    }
  }

  /** The loop of `_parse_batch_response` that gives every place the default. */
  method FillDefaults(ps: seq<Place>) returns (result: map<string, string>)
    ensures result == DefaultCategories(ps)
  {
    result := map[];
    for i := 0 to |ps|
      invariant result == DefaultCategories(ps[..i])
    {
      assert ps[..i + 1][..i] == ps[..i];
      result := result[NameOf(ps[i]) := DEFAULT_CATEGORY];
    }
    assert ps[..|ps|] == ps;
  }

  /** The loop of `_parse_batch_response` that reads the answer of each place. */
  method FillPositional(obj: map<string, Json>, ps: seq<Place>, show: Json -> string) returns (result: map<string, string>)
    ensures result == PositionalCategories(obj, ps, show)
  {
    result := map[];
    for i := 0 to |ps|
      invariant result == PositionalCategories(obj, ps[..i], show)
    {
      PositionalSnoc(obj, ps, show, i);
      var cat := NormalizeCategory(Some(AnswerText(AnswerValue(obj, i), show)));
      result := result[NameOf(ps[i]) := cat];
    }
    assert ps[..|ps|] == ps;
  }
}
