/**
 * The quality colour of src/categorize.py: a three-way traffic light computed from a
 * place's rating (1 to 5) and its number of ratings, and its in-place assignment.
 */
module QualityColors {
  import opened Optional
  import opened Places

  const GREEN: string := "green"
  const YELLOW: string := "yellow"
  const RED: string := "red"
  const QUALITY_COLORS: seq<string> := [GREEN, YELLOW, RED]

  /** The minimum number of ratings for green (and, in the middle band, for yellow). */
  const ENOUGH_REVIEWS: int := 100

  /** The score compared against the thresholds: a missing rating counts as 0.0. */
  function Score(rating: Option<real>): real {
    rating.GetOr(0.0)
  }

  /** The review count compared against the threshold: a missing count counts as 0. */
  function ReviewCount(count: Option<int>): int {
    count.GetOr(0)
  }

  /** `get_quality_color`. */
  function QualityColor(rating: Option<real>, count: Option<int>): (c: string)
    ensures c in QUALITY_COLORS
    ensures c == GREEN <==> Score(rating) >= 4.0 && ReviewCount(count) >= ENOUGH_REVIEWS
    ensures Score(rating) < 3.0 ==> c == RED
    ensures 3.0 <= Score(rating) < 4.0 ==> c != GREEN && (c == YELLOW <==> ReviewCount(count) >= ENOUGH_REVIEWS)
    ensures Score(rating) >= 4.0 ==> c != RED
  {
    var s := Score(rating);
    var r := ReviewCount(count);
    if s >= 4.0 then (if r >= ENOUGH_REVIEWS then GREEN else YELLOW)
    else if s < 3.0 then RED
    else if r >= ENOUGH_REVIEWS then YELLOW
    else RED
  }

  /** The order red < yellow < green: a colour's rank counts the colours listed after it
      in the best-first tuple, and anything else ranks with red. */
  function Rank(c: string): (n: nat)
    ensures n <= 2
    ensures c in QUALITY_COLORS ==> QUALITY_COLORS[2 - n] == c
    ensures c == GREEN <==> n == 2
    ensures c == YELLOW <==> n == 1
  {
    if c == GREEN then 2 else if c == YELLOW then 1 else 0
  }

  /** A higher score and more reviews never give a worse colour. */
  lemma QualityMonotone(r1: Option<real>, c1: Option<int>, r2: Option<real>, c2: Option<int>)
    requires Score(r1) <= Score(r2) && ReviewCount(c1) <= ReviewCount(c2)
    ensures Rank(QualityColor(r1, c1)) <= Rank(QualityColor(r2, c2))
  {
  }

  /** A missing rating or count behaves exactly as a zero. */
  lemma MissingIsZero(rating: Option<real>, count: Option<int>)
    ensures QualityColor(None, count) == QualityColor(Some(0.0), count)
    ensures QualityColor(rating, None) == QualityColor(rating, Some(0))
    ensures QualityColor(None, None) == RED
  {
  }

  /** The thresholds are inclusive: exactly 4.0 with exactly 100 reviews is green. */
  lemma QualityBoundaries()
    ensures QualityColor(Some(4.0), Some(100)) == GREEN
    ensures QualityColor(Some(4.0), Some(99)) == YELLOW
    ensures QualityColor(Some(3.0), Some(100)) == YELLOW
    ensures QualityColor(Some(3.0), Some(99)) == RED
    ensures QualityColor(Some(2.9), Some(100000)) == RED
    ensures QualityColor(Some(5.0), None) == YELLOW
  {
  }

  /** A place with its `quality_color` key set from its own rating and count. */
  function Colored(p: Place): (q: Place)
    ensures q.qualityColor.Some? && q.qualityColor.value in QUALITY_COLORS
    ensures q.qualityColor.value == QualityColor(p.rating, p.userRatingsCount)
    ensures q.(qualityColor := p.qualityColor) == p
  {
    p.(qualityColor := Some(QualityColor(p.rating, p.userRatingsCount)))
  }

  /** Colouring reads only the rating and count, so colouring twice changes nothing more. */
  lemma ColoredIdempotent(p: Place)
    ensures Colored(Colored(p)) == Colored(p)
  {
  }

  /** `assign_quality_colors`: every place of the list gets its colour, in place. */
  method AssignQualityColors(places: array<Place>)
    modifies places
    ensures forall i :: 0 <= i < places.Length ==> places[i] == Colored(old(places[i]))
  {
    for i := 0 to places.Length
      invariant forall k :: 0 <= k < i ==> places[k] == Colored(old(places[k]))
      invariant forall k :: i <= k < places.Length ==> places[k] == old(places[k])
    {
      places[i] := Colored(places[i]);
    }
  }
}
