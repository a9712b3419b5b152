/**
 * The few Python `str` operations the pipeline relies on, over `seq<char>`:
 * `strip()`, `lower()`, `startswith`, the `in` substring test, `find`,
 * `sep.join(xs)` and `str(n)` for integers.
 */
module PyStrings {

  /** Python's `str.isspace()` for one character: the characters `strip()` and the
      regular-expression class `\s` remove or match. */
  predicate IsSpace(c: char) {
    ('\t' <= c <= '\r') || ('\U{1C}' <= c <= '\U{1F}') || c == ' '
    || c == '\U{85}' || c == '\U{A0}' || c == '\U{1680}'
    || ('\U{2000}' <= c <= '\U{200A}') || c == '\U{2028}' || c == '\U{2029}'
    || c == '\U{202F}' || c == '\U{205F}' || c == '\U{3000}'
  }

  /** `s.lstrip()`: a suffix of `s` that keeps everything from the first non-space on. */
  function TrimLeft(s: string): (r: string)
    ensures |r| <= |s| && r == s[|s| - |r|..]
    ensures r == [] || !IsSpace(r[0])
    ensures forall i {:trigger IsSpace(s[i])} :: 0 <= i < |s| - |r| ==> IsSpace(s[i])
  {
    if |s| > 0 && IsSpace(s[0]) then TrimLeft(s[1..]) else s
  }

  /** `s.rstrip()`: a prefix of `s` that keeps everything up to the last non-space. */
  function TrimRight(s: string): (r: string)
    ensures |r| <= |s| && r == s[..|r|]
    ensures r == [] || !IsSpace(r[|r| - 1])
    ensures forall i {:trigger IsSpace(s[i])} :: |r| <= i < |s| ==> IsSpace(s[i])
  {
    if |s| > 0 && IsSpace(s[|s| - 1]) then TrimRight(s[..|s| - 1]) else s
  }

  /** No whitespace at either end. */
  predicate Trimmed(s: string) {
    s == [] || (!IsSpace(s[0]) && !IsSpace(s[|s| - 1]))
  }

  /** `s.strip()`. The result is the part of `s` between a run of leading and a run of
      trailing whitespace; it is empty exactly when `s` is blank. */
  function Strip(s: string): (r: string)
    ensures |r| <= |s|
    ensures Trimmed(r)
    ensures r == [] <==> forall i {:trigger IsSpace(s[i])} :: 0 <= i < |s| ==> IsSpace(s[i])
  {
    StripEmptyWhenBlank(s);
    TrimRight(TrimLeft(s))
  }

  /** Trimming both ends leaves nothing exactly when every character is whitespace. */
  lemma StripEmptyWhenBlank(s: string)
    ensures TrimRight(TrimLeft(s)) == [] <==> forall i {:trigger IsSpace(s[i])} :: 0 <= i < |s| ==> IsSpace(s[i])
  {
    var t := TrimLeft(s);
    var r := TrimRight(t);
    if r == [] {
      assert t == [];
    } else {
      assert r[0] == t[0] == s[|s| - |t|];
    }
  }

  /** A text with no whitespace at either end is its own `lstrip()`, `rstrip()` and `strip()`. */
  lemma StrippedIsFixed(s: string)
    requires Trimmed(s)
    ensures TrimLeft(s) == s && TrimRight(s) == s && Strip(s) == s
  {
  }

  /** `strip()` keeps a contiguous part of its argument. */
  lemma StripIsSlice(s: string)
    ensures OccursAt(s, Strip(s), |s| - |TrimLeft(s)|)
  {
    assert Strip(s) == TrimRight(TrimLeft(s));
    TrimBothIsSlice(s);
  }

  lemma TrimBothIsSlice(s: string)
    ensures OccursAt(s, TrimRight(TrimLeft(s)), |s| - |TrimLeft(s)|)
  {
    var t := TrimLeft(s);
    PrefixOfSuffixOccurs(s, |s| - |t|, t, TrimRight(t));
  }

  /** A prefix of a suffix occurs where the suffix starts. */
  lemma PrefixOfSuffixOccurs(s: string, k: nat, t: string, r: string)
    requires k <= |s| && t == s[k..] && |r| <= |t| && r == t[..|r|]
    ensures OccursAt(s, r, k)
  {
    PrefixOfSuffix(s, k, |r|);
  }

  /** A prefix of a suffix is a slice. */
  lemma PrefixOfSuffix<T>(s: seq<T>, k: nat, n: nat)
    requires k + n <= |s|
    ensures s[k..][..n] == s[k..k + n]
  {
  }

  /** `strip()` is idempotent. */
  lemma StripIdempotent(s: string)
    ensures Strip(Strip(s)) == Strip(s)
  {
    StrippedIsFixed(Strip(s));
  }

  /** Python's `str.lower()` on one character, for the ASCII letters. */
  function LowerChar(c: char): char {
    if 'A' <= c <= 'Z' then (c as int + 32) as char else c
  }

  /** `s.lower()`, character by character. */
  function Lower(s: string): (r: string)
    ensures |r| == |s|
    ensures forall i :: 0 <= i < |s| ==> r[i] == LowerChar(s[i])
  {
    seq(|s|, i requires 0 <= i < |s| => LowerChar(s[i]))
  }

  lemma LowerChop(s: string)
    requires |s| > 0
    ensures Lower(s)[1..] == Lower(s[1..]) && Lower(s)[..|s| - 1] == Lower(s[..|s| - 1])
  {
  }

  lemma {:induction false} LowerTrimLeft(s: string)
    ensures Lower(TrimLeft(s)) == TrimLeft(Lower(s))
    decreases |s|
  {
    if |s| > 0 {
      LowerChop(s);
      assert IsSpace(s[0]) <==> IsSpace(Lower(s)[0]);
      if IsSpace(s[0]) {
        LowerTrimLeft(s[1..]);
      }
    }
  }

  lemma {:induction false} LowerTrimRight(s: string)
    ensures Lower(TrimRight(s)) == TrimRight(Lower(s))
    decreases |s|
  {
    if |s| > 0 {
      LowerChop(s);
      assert IsSpace(s[|s| - 1]) <==> IsSpace(Lower(s)[|s| - 1]);
      if IsSpace(s[|s| - 1]) {
        LowerTrimRight(s[..|s| - 1]);
      }
    }
  }

  /** Lower-casing and stripping commute: whitespace is never a letter. */
  lemma LowerStripCommute(s: string)
    ensures Lower(Strip(s)) == Strip(Lower(s))
  {
    LowerTrimLeft(s);
    LowerTrimRight(TrimLeft(s));
  }

  /** `s.startswith(prefix)`. */
  predicate StartsWith(s: string, prefix: string) {
    |prefix| <= |s| && s[..|prefix|] == prefix
  }

  /** `needle` occurs in `hay` starting at index `i`. */
  predicate OccursAt(hay: string, needle: string, i: int) {
    0 <= i && i + |needle| <= |hay| && hay[i..i + |needle|] == needle
  }

  /** Python's `needle in hay`. */
  predicate Contains(hay: string, needle: string) {
    exists i :: 0 <= i <= |hay| && OccursAt(hay, needle, i)
  }

  /** `hay.find(needle, from)`: the first occurrence at or after `from`, or -1. */
  function Find(hay: string, needle: string, from: nat): (r: int)
    ensures r == -1 || (from <= r && OccursAt(hay, needle, r))
    ensures forall i :: from <= i && (r == -1 || i < r) ==> !OccursAt(hay, needle, i)
    decreases |hay| - from
  {
    if from + |needle| > |hay| then -1
    else if OccursAt(hay, needle, from) then from
    else Find(hay, needle, from + 1)
  }

  /** `find` returns the first occurrence at or after `from`, wherever that is. */
  lemma FindIs(hay: string, needle: string, from: nat, r: nat)
    requires from <= r && OccursAt(hay, needle, r)
    requires forall i :: from <= i < r ==> !OccursAt(hay, needle, i)
    ensures Find(hay, needle, from) == r
  {
  }

  /** A slice of a slice is a slice. */
  lemma SliceOfSlice<T>(s: seq<T>, a: nat, b: nat, c: nat, d: nat)
    requires a <= b <= |s| && c <= d <= b - a
    ensures s[a..b][c..d] == s[a + c..a + d]
  {
    forall k | 0 <= k < d - c
      ensures s[a..b][c..d][k] == s[a + c..a + d][k]
    {
      assert s[a..b][c..d][k] == s[a..b][c + k] == s[a + c + k];
    }
  }

  /** A window of `s` that does not contain `z` holds no occurrence of `z`. */
  lemma NoOccurrenceIn(s: string, a: nat, w: string, z: string)
    requires a + |w| <= |s| && s[a..a + |w|] == w && !Contains(w, z)
    ensures forall i :: a <= i && i + |z| <= a + |w| ==> !OccursAt(s, z, i)
  {
    forall i | a <= i && i + |z| <= a + |w| ensures !OccursAt(s, z, i) {
      if OccursAt(s, z, i) {
        SliceOfSlice(s, a, a + |w|, i - a, i - a + |z|);
        assert OccursAt(w, z, i - a);
      }
    }
  }

  /** `find` from the start succeeds exactly when `in` holds. */
  lemma FindIffContains(hay: string, needle: string)
    ensures Find(hay, needle, 0) >= 0 <==> Contains(hay, needle)
  {
  }

  /** A text contains every concatenation part. */
  lemma ContainsMiddle(a: string, b: string, c: string)
    ensures Contains(a + b + c, b)
  {
    assert (a + b + c)[|a|..|a| + |b|] == b;
    assert OccursAt(a + b + c, b, |a|);
  }

  /** An occurrence inside an occurrence is an occurrence, at the summed offset. */
  lemma OccursAtTransitive(x: string, y: string, i: int, z: string, j: int)
    requires OccursAt(x, y, i) && OccursAt(y, z, j)
    ensures OccursAt(x, z, i + j)
  {
    assert x[i..i + |y|] == y;
    assert i + j + |z| <= |x|;
    forall k | 0 <= k < |z| ensures x[i + j + k] == z[k] {
      assert x[i + j + k] == x[i..i + |y|][j + k];
      assert y[j..j + |z|][k] == z[k];
    }
    assert x[i + j..i + j + |z|] == z;
  }

  /** Containment carries over to any text that contains the container. */
  lemma ContainsTransitive(x: string, y: string, z: string)
    requires Contains(x, y) && Contains(y, z)
    ensures Contains(x, z)
  {
    var i :| 0 <= i <= |x| && OccursAt(x, y, i);
    var j :| 0 <= j <= |y| && OccursAt(y, z, j);
    OccursAtTransitive(x, y, i, z, j);
  }

  /** Whatever a part contains, the framed part contains. */
  lemma ContainsFramed(pre: string, x: string, post: string, y: string)
    requires Contains(x, y)
    ensures Contains(pre + x + post, y)
  {
    ContainsMiddle(pre, x, post);
    ContainsTransitive(pre + x + post, x, y);
  }

  /** A text contains each of its prefixes. */
  lemma ContainsPrefix(x: string, y: string)
    requires StartsWith(x, y)
    ensures Contains(x, y)
  {
    assert OccursAt(x, y, 0);
  }

  /** A text that does not contain `z` has no part that does. */
  lemma NotContainsSlice(x: string, y: string, z: string)
    requires Contains(x, y) && !Contains(x, z)
    ensures !Contains(y, z)
  {
    if Contains(y, z) {
      ContainsTransitive(x, y, z);
    }
  }

  /** `sep.join(xs)`. */
  function Join(sep: string, xs: seq<string>): string
    decreases |xs|
  {
    if |xs| == 0 then ""
    else if |xs| == 1 then xs[0]
    else xs[0] + sep + Join(sep, xs[1..])
  }

  /** Every joined part appears in the joined text. */
  lemma {:induction false} JoinContainsEach(sep: string, xs: seq<string>, i: nat)
    requires i < |xs|
    ensures Contains(Join(sep, xs), xs[i])
    decreases |xs|
  {
    if |xs| == 1 {
      ContainsMiddle("", xs[0], "");
      assert "" + xs[0] + "" == xs[0];
    } else if i == 0 {
      ContainsMiddle("", xs[0], sep + Join(sep, xs[1..]));
      assert "" + xs[0] + (sep + Join(sep, xs[1..])) == Join(sep, xs);
    } else {
      JoinContainsEach(sep, xs[1..], i - 1);
      ContainsMiddle(xs[0] + sep, Join(sep, xs[1..]), "");
      assert xs[0] + sep + Join(sep, xs[1..]) + "" == Join(sep, xs);
      ContainsTransitive(Join(sep, xs), Join(sep, xs[1..]), xs[i]);
    }
  }

  /** The decimal digit character for `d`. */
  function DigitChar(d: int): (c: char)
    requires 0 <= d < 10
    ensures IsDigit(c)
  {
    (48 + d) as char
  }

  predicate IsDigit(c: char) {
    48 <= c as int <= 57
  }

  /** Python's `str(n)` for a non-negative integer: decimal, no leading zero. */
  function NatToString(n: nat): (r: string)
    ensures |r| > 0 && (forall i :: 0 <= i < |r| ==> IsDigit(r[i]))
    ensures (r[0] == '0') <==> n == 0
    decreases n
  {
    if n < 10 then [DigitChar(n)] else NatToString(n / 10) + [DigitChar(n % 10)]
  }

  /** Python's `str(n)` (also `f"{n}"`) for any integer. */
  function IntToString(n: int): string {
    if n < 0 then "-" + NatToString(-n) else NatToString(n)
  }

  /** The value of a string of decimal digits: the inverse of `NatToString`. */
  function DecimalValue(s: string): nat
    requires forall i :: 0 <= i < |s| ==> IsDigit(s[i])
    decreases |s|
  {
    if s == [] then 0
    else
      assert IsDigit(s[|s| - 1]);
      DecimalValue(s[..|s| - 1]) * 10 + (s[|s| - 1] as int - 48)
  }

  /** Reading back the decimal text of a number gives the number. */
  lemma {:induction false} DecimalRoundTrip(n: nat)
    ensures DecimalValue(NatToString(n)) == n
    decreases n
  {
    if n >= 10 {
      var r := NatToString(n);
      DecimalRoundTrip(n / 10);
      assert r[..|r| - 1] == NatToString(n / 10);
    }
  }

  /** Distinct numbers have distinct decimal texts. */
  lemma NatToStringInjective(a: nat, b: nat)
    requires a != b
    ensures NatToString(a) != NatToString(b)
  {
    DecimalRoundTrip(a);
    DecimalRoundTrip(b);
  }
}
