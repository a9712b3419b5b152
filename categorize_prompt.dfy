/**
 * The batch prompt of src/categorize.py: one numbered text block per place, framed by an
 * instruction, the category list and the requested reply format.
 */
module BatchPrompt {
  import opened Optional
  import opened PyStrings
  import opened Places
  import opened CategoryNormalizer

  /** At most this many types of a place are listed. */
  const MAX_TYPES: nat := 10

  /** At most this many characters of the first review are quoted. */
  const SNIPPET_LENGTH: nat := 400

  const PROMPT_INTRO: string := "Classify each place below into exactly one category.\n\n"

  const CATEGORIES_LABEL: string := "\n\nCategories (use exactly these): "

  const REPLY_FORMAT: string :=
    ".\n\nReply with a JSON object only. Keys are the place numbers as strings (\"1\", \"2\", \"3\", ...). "
    + "Values are the category for that place. No other text.\n"
    + "Example: {\"1\": \"Restaurants\", \"2\": \"Shopping\", \"3\": \"Attractions\"}"

  /** Everything of the prompt after the place blocks. */
  function PromptTail(): string {
    CATEGORIES_LABEL + Join(", ", CATEGORIES) + REPLY_FORMAT
  }

  /** `types[:10]` of `place.get("types") or []`. */
  function ShownTypes(types: Option<seq<string>>): (r: seq<string>)
    ensures |r| <= MAX_TYPES
    ensures types.None? ==> r == []
    ensures types.Some? ==> |r| <= |types.value| && r == types.value[..|r|]
    ensures types.Some? && |types.value| <= MAX_TYPES ==> r == types.value
    ensures types.Some? && |types.value| > MAX_TYPES ==> |r| == MAX_TYPES
  {
    var ts := types.GetOr([]);
    if |ts| <= MAX_TYPES then ts else ts[..MAX_TYPES]
  }

  /** The `Types:` text: the listed types joined by ", ", or "unknown" for none. */
  function TypesText(types: Option<seq<string>>): (r: string)
    ensures (types.None? || types.value == []) ==> r == "unknown"
    ensures types.Some? && types.value != [] ==> r == Join(", ", ShownTypes(types))
  {
    var ts := types.GetOr([]);
    if ts == [] then "unknown" else Join(", ", ShownTypes(types))
  }

  /** The optional rating line: `Rating: …` and `Review count: …`, space-separated, with a
      line break; empty when both are absent. `showReal` renders a float as Python does. */
  function RatingLine(p: Place, showReal: real -> string): (r: string)
    ensures r == "" <==> p.rating.None? && p.userRatingsCount.None?
    ensures r != "" ==> r[|r| - 1] == '\n'
    ensures p.rating.Some? ==> Contains(r, "Rating: " + showReal(p.rating.value))
    ensures p.userRatingsCount.Some? ==> Contains(r, "Review count: " + IntToString(p.userRatingsCount.value))
  {
    if p.rating.None? && p.userRatingsCount.None? then ""
    else
      var parts :=
        (if p.rating.Some? then ["Rating: " + showReal(p.rating.value)] else [])
        + (if p.userRatingsCount.Some? then ["Review count: " + IntToString(p.userRatingsCount.value)] else []);
      var line := Join(" ", parts) + "\n";
      assert p.rating.Some? ==> parts[0] == "Rating: " + showReal(p.rating.value);
      assert p.userRatingsCount.Some? ==>
        parts[|parts| - 1] == "Review count: " + IntToString(p.userRatingsCount.value);
      PartsInLine(parts, " ", "\n");
      line
  }

  /** Each part of a joined line occurs in the line. */
  lemma PartsInLine(parts: seq<string>, sep: string, end: string)
    ensures forall i :: 0 <= i < |parts| ==> Contains(Join(sep, parts) + end, parts[i])
  {
    forall i | 0 <= i < |parts| ensures Contains(Join(sep, parts) + end, parts[i]) {
      JoinContainsEach(sep, parts, i);
      ContainsMiddle("", Join(sep, parts), end);
      assert "" + Join(sep, parts) + end == Join(sep, parts) + end;
      ContainsTransitive(Join(sep, parts) + end, Join(sep, parts), parts[i]);
    }
  }

  /** The quoted start of the first review, at most 400 characters. */
  function Quote(review: string): (r: string)
    ensures |r| <= SNIPPET_LENGTH && |r| <= |review| && r == review[..|r|]
    ensures |review| <= SNIPPET_LENGTH ==> r == review
  {
    if |review| <= SNIPPET_LENGTH then review else review[..SNIPPET_LENGTH]
  }

  /** The optional `Review snippet:` line, present exactly when there is a review. */
  function Snippet(reviews: Option<seq<string>>): (r: string)
    ensures r == "" <==> reviews.None? || reviews.value == []
    ensures reviews.Some? && reviews.value != [] ==>
      r == "Review snippet: " + Quote(reviews.value[0]) + "\n"
  {
    var rs := reviews.GetOr([]);
    if rs == [] then "" else "Review snippet: " + Quote(rs[0]) + "\n"
  }

  /** The first two lines of a block: the place number and the name. */
  function BlockHeader(number: int, name: string): string {
    HEADER_OPEN + IntToString(number) + HEADER_CLOSE + name + "\n"
  }

  const HEADER_OPEN: string := "--- Place "
  const HEADER_CLOSE: string := " ---\nName: "

  /** `_format_place_block`. */
  function FormatPlaceBlock(p: Place, number: int, showReal: real -> string): (r: string)
    ensures StartsWith(r, BlockHeader(number, NameOf(p)))
    ensures Contains(r, "Types: " + TypesText(p.types) + "\n")
    ensures Contains(r, RatingLine(p, showReal))
    ensures Contains(r, Snippet(p.reviews))
  {
    var head := BlockHeader(number, NameOf(p));
    var types := "Types: " + TypesText(p.types) + "\n";
    var rating := RatingLine(p, showReal);
    var snippet := Snippet(p.reviews);
    FourParts(head, types, rating, snippet);
    head + types + rating + snippet
  }

  /** A concatenation of four parts starts with the first and contains each. */
  lemma FourParts(a: string, b: string, c: string, d: string)
    ensures StartsWith(a + b + c + d, a)
    ensures Contains(a + b + c + d, b) && Contains(a + b + c + d, c) && Contains(a + b + c + d, d)
  {
    var r := a + b + c + d;
    assert r[..|a|] == a;
    ContainsMiddle(a, b, c + d);
    assert a + b + (c + d) == r;
    ContainsMiddle(a + b, c, d);
    ContainsMiddle(a + b + c, d, "");
    assert a + b + c + d + "" == r;
  }

  /** The blocks of a batch, numbered 1..n by position. */
  function Blocks(ps: seq<Place>, showReal: real -> string): (bs: seq<string>)
    ensures |bs| == |ps|
    ensures forall i :: 0 <= i < |ps| ==> bs[i] == FormatPlaceBlock(ps[i], i + 1, showReal)
  {
    seq(|ps|, i requires 0 <= i < |ps| => FormatPlaceBlock(ps[i], i + 1, showReal))
  }

  /** `_build_batch_prompt`. */
  function BuildBatchPrompt(ps: seq<Place>, showReal: real -> string): (r: string)
    ensures StartsWith(r, PROMPT_INTRO)
    ensures |PromptTail()| <= |r| && r[|r| - |PromptTail()|..] == PromptTail()
    ensures ps == [] ==> r == PROMPT_INTRO + PromptTail()
  {
    var body := Join("\n", Blocks(ps, showReal));
    Framed(PROMPT_INTRO, body, PromptTail());
    PROMPT_INTRO + body + PromptTail()
  }

  /** A text framed by `a` and `c` starts with `a` and ends with `c`. */
  lemma Framed(a: string, b: string, c: string)
    ensures StartsWith(a + b + c, a)
    ensures |c| <= |a + b + c| && (a + b + c)[|a + b + c| - |c|..] == c
    ensures b == "" ==> a + b + c == a + c
  {
    assert (a + b + c)[..|a|] == a;
  }

  /** The prompt holds the block of every place, numbered by its position plus one. */
  lemma PromptHasEveryBlock(ps: seq<Place>, showReal: real -> string, i: nat)
    requires i < |ps|
    ensures Contains(BuildBatchPrompt(ps, showReal), FormatPlaceBlock(ps[i], i + 1, showReal))
    ensures Contains(BuildBatchPrompt(ps, showReal), BlockHeader(i + 1, NameOf(ps[i])))
  {
    var bs := Blocks(ps, showReal);
    var block := bs[i];
    JoinContainsEach("\n", bs, i);
    ContainsFramed(PROMPT_INTRO, Join("\n", bs), PromptTail(), block);
    ContainsPrefix(block, BlockHeader(i + 1, NameOf(ps[i])));
    ContainsTransitive(BuildBatchPrompt(ps, showReal), block, BlockHeader(i + 1, NameOf(ps[i])));
  }

  /** The prompt lists every category by its exact name. */
  lemma PromptListsCategories(ps: seq<Place>, showReal: real -> string, j: nat)
    requires j < |CATEGORIES|
    ensures Contains(BuildBatchPrompt(ps, showReal), CATEGORIES[j])
  {
    JoinContainsEach(", ", CATEGORIES, j);
    ContainsFramed(CATEGORIES_LABEL, Join(", ", CATEGORIES), REPLY_FORMAT, CATEGORIES[j]);
    ContainsFramed(PROMPT_INTRO + Join("\n", Blocks(ps, showReal)), PromptTail(), "", CATEGORIES[j]);
    assert PROMPT_INTRO + Join("\n", Blocks(ps, showReal)) + PromptTail() + "" == BuildBatchPrompt(ps, showReal);
  }

  /** Headers of different positions differ, whatever the names, so the numbers are
      the only key the reply needs. */
  lemma HeadersDistinct(a: nat, b: nat, n: string, m: string)
    requires a != b
    ensures BlockHeader(a, n) != BlockHeader(b, m)
  {
    var u := HEADER_CLOSE + n + "\n";
    var v := HEADER_CLOSE + m + "\n";
    assert BlockHeader(a, n) == HEADER_OPEN + (NatToString(a) + u);
    assert BlockHeader(b, m) == HEADER_OPEN + (NatToString(b) + v);
    NatToStringInjective(a, b);
    if BlockHeader(a, n) == BlockHeader(b, m) {
      assert u[0] == ' ' && v[0] == ' ';
      DropPrefix(HEADER_OPEN, NatToString(a) + u, NatToString(b) + v);
      DigitsThenSpace(NatToString(a), u, NatToString(b), v);
    }
  }

  /** Equal texts with a common prefix agree after it. */
  lemma DropPrefix(pre: string, x: string, y: string)
    requires pre + x == pre + y
    ensures x == y
  {
    assert x == (pre + x)[|pre|..];
    assert y == (pre + y)[|pre|..];
  }

  /** Two digit strings each followed by a space-led text start the same text only if equal. */
  lemma DigitsThenSpace(x: string, u: string, y: string, v: string)
    requires forall i :: 0 <= i < |x| ==> IsDigit(x[i])
    requires forall i :: 0 <= i < |y| ==> IsDigit(y[i])
    requires |u| > 0 && |v| > 0 && u[0] == ' ' && v[0] == ' '
    requires x + u == y + v
    ensures x == y
  {
    assert (x + u)[|x|] == ' ' && (x + u)[|y|] == ' ';
    assert (y + v)[|x|] == ' ' && (y + v)[|y|] == ' ';
    assert forall i :: 0 <= i < |x| ==> (x + u)[i] != ' ';
    assert forall i :: 0 <= i < |y| ==> (y + v)[i] != ' ';
    assert x == (x + u)[..|x|];
  }
}
