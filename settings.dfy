/**
 * The two helpers of config/settings.py: the choice of language-model key and the
 * masking of a key for logs. The keys, read from the environment at start-up, are
 * parameters here.
 */
module Settings {

  /** `get_llm_key`: the OpenAI key when set, else the Gemini key when set, else "". */
  function LlmKey(openaiKey: string, geminiKey: string): (key: string)
    ensures key == openaiKey || key == geminiKey || key == ""
    ensures key != "" <==> openaiKey != "" || geminiKey != ""
    ensures openaiKey != "" ==> key == openaiKey
    ensures openaiKey == "" ==> key == geminiKey
  {
    if openaiKey != "" then openaiKey
    else if geminiKey != "" then geminiKey
    else ""
  }

  /** Python's `s[:n]`: a negative `n` counts from the end, and both ends are clamped. */
  function PyPrefix(s: string, n: int): (r: string)
    ensures 0 <= n <= |s| ==> r == s[..n]
    ensures n > |s| ==> r == s
    ensures -|s| <= n < 0 ==> r == s[..|s| + n]
    ensures n < -|s| ==> r == ""
  {
    if n >= 0 then (if n <= |s| then s[..n] else s)
    else if |s| + n >= 0 then s[..|s| + n]
    else ""
  }

  /** Python's `c * n` for a one-character string: empty when `n <= 0`. */
  function Repeat(c: char, n: int): (r: string)
    ensures |r| == if n <= 0 then 0 else n
    ensures forall i :: 0 <= i < |r| ==> r[i] == c
    decreases if n <= 0 then 0 else n
  {
    if n <= 0 then "" else Repeat(c, n - 1) + [c]
  }

  const MASKED: string := "***"

  /** `mask_key`, with its default of four visible characters. */
  function MaskKey(key: string, visible: int := 4): (m: string)
    ensures key == "" || |key| <= visible ==> m == MASKED
    ensures key != "" && |key| > visible ==>
      |key| - visible <= |m| && forall i :: |m| - (|key| - visible) <= i < |m| ==> m[i] == '*'
  {
    if key == "" || |key| <= visible then MASKED
    else PyPrefix(key, visible) + Repeat('*', |key| - visible)
  }

  /** An empty key, or one no longer than the visible part, is hidden entirely. */
  lemma ShortKeyFullyMasked(key: string, visible: int)
    requires key == "" || |key| <= visible
    ensures MaskKey(key, visible) == MASKED
  {
  }

  /** Otherwise, for a non-negative visible count, the mask keeps the key's length,
      shows its first `visible` characters and stars the rest. */
  lemma MaskKeepsPrefix(key: string, visible: int)
    requires 0 <= visible < |key|
    ensures |MaskKey(key, visible)| == |key|
    ensures MaskKey(key, visible)[..visible] == key[..visible]
    ensures forall i :: visible <= i < |key| ==> MaskKey(key, visible)[i] == '*'
  {
    var m := MaskKey(key, visible);
    var stars := Repeat('*', |key| - visible);
    assert m == key[..visible] + stars;
    assert m[..visible] == key[..visible];
    forall i | visible <= i < |key| ensures m[i] == '*' {
      assert m[i] == stars[i - visible];
    }
  }

  /** With the default, a key of more than four characters shows exactly four. */
  lemma DefaultMask(key: string)
    requires |key| > 4
    ensures |MaskKey(key)| == |key| && MaskKey(key)[..4] == key[..4]
    ensures forall i :: 4 <= i < |key| ==> MaskKey(key)[i] == '*'
  {
    MaskKeepsPrefix(key, 4);
  }

  /** A visible count below minus the key's length shows nothing: the mask is
      `|key| - visible` stars, longer than the key. */
  lemma MaskFarNegativeVisible(key: string, visible: int)
    requires visible < -|key| && key != ""
    ensures |MaskKey(key, visible)| == |key| - visible > 2 * |key|
    ensures forall i :: 0 <= i < |MaskKey(key, visible)| ==> MaskKey(key, visible)[i] == '*'
  {
    var m := MaskKey(key, visible);
    assert m == "" + Repeat('*', |key| - visible);
  }

  /** A negative visible count follows Python's slicing: all but the last `-visible`
      characters are shown, followed by `|key| - visible` stars, so the mask is longer
      than the key. */
  lemma MaskNegativeVisible(key: string, visible: int)
    requires -|key| <= visible < 0 && key != ""
    ensures |MaskKey(key, visible)| == 2 * |key|
    ensures MaskKey(key, visible)[..|key| + visible] == key[..|key| + visible]
  {
    var m := MaskKey(key, visible);
    assert m == key[..|key| + visible] + Repeat('*', |key| - visible);
  }
}
