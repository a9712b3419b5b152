/**
 * The batch driver of src/categorize.py: places are cut into consecutive fixed-size
 * batches, each batch is one request to the language model, and the per-batch answers
 * are merged into one name-to-category map, a failed batch falling back to the default.
 */
module Categorizer {
  import opened Optional
  import opened PyStrings
  import opened Json
  import opened Places
  import opened CategoryNormalizer
  import opened BatchPrompt
  import opened BatchResponse

  /** What the chat-completion request returns: the message text, or an exception. */
  datatype Reply = Replied(text: string) | Failed

  /**
   * The outside world as parameters: `complete(k, prompt)` is the model's reply to the
   * `k`-th request (counted from 0) with that prompt; `decode` is `json.loads` (`None` for
   * a decoding error); `show` is `str` of a non-string decoded value; `showReal` is
   * Python's rendering of a float.
   */
  datatype Services = Services(
    complete: (nat, string) -> Reply,
    decode: string -> Option<Json>,
    show: Json -> string,
    showReal: real -> string)

  /** The outcome of one batch: its name-to-category map, or a raised exception. */
  datatype BatchOutcome = Answered(categories: map<string, string>) | Raised

  /** The observable pacing of the driver: a pause, or the start of batch `batch`. */
  datatype Event = Slept(seconds: real) | Attempted(batch: nat)

  function Min(a: int, b: int): int {
    if a <= b then a else b
  }

  /** `_call_llm`: only the Gemini key is consulted; without it the call raises. The
      reply text is stripped, as `_call_openai` does. */
  function CallLlm(geminiKey: string, sv: Services, k: nat, prompt: string): (r: Reply)
    ensures geminiKey == "" ==> r == Failed
    ensures geminiKey != "" ==> (r.Failed? <==> sv.complete(k, prompt).Failed?)
    ensures r.Replied? ==> r.text == Strip(sv.complete(k, prompt).text)
  {
    if geminiKey == "" then Failed
    else
      match sv.complete(k, prompt)
      case Replied(t) => Replied(Strip(t))
      case Failed => Failed
  }

  /** What `_categorize_batch` makes of the call's outcome: the parsed reply, or the
      exception passed on. */
  function FromReply(reply: Reply, batch: seq<Place>, decode: string -> Option<Json>, show: Json -> string): (o: BatchOutcome)
    ensures o.Raised? <==> reply.Failed?
    ensures o.Answered? ==> o.categories.Keys == NameSet(batch)
    ensures o.Answered? ==> forall n :: n in o.categories ==> o.categories[n] in CATEGORIES
  {
    match reply
    case Replied(raw) => Answered(ParsedCategories(raw, batch, decode, show))
    case Failed => Raised
  }

  /** `_categorize_batch` as a value, for the `k`-th batch. */
  function BatchCall(batch: seq<Place>, k: nat, geminiKey: string, sv: Services): (o: BatchOutcome)
    ensures geminiKey == "" ==> o == Raised
    ensures o.Answered? ==> o.categories.Keys == NameSet(batch)
    ensures o.Answered? ==> forall n :: n in o.categories ==> o.categories[n] in CATEGORIES
  {
    FromReply(CallLlm(geminiKey, sv, k, BuildBatchPrompt(batch, sv.showReal)), batch, sv.decode, sv.show)
  }

  /** `_categorize_batch`. */
  method CategorizeBatch(batch: seq<Place>, k: nat, geminiKey: string, sv: Services) returns (o: BatchOutcome)
    ensures o == BatchCall(batch, k, geminiKey, sv)
  {
    var prompt := BuildBatchPrompt(batch, sv.showReal);
    var reply := CallLlm(geminiKey, sv, k, prompt);
    if reply.Failed? {
      return Raised;
    }
    var categories := ParseBatchResponse(reply.text, batch, sv.decode, sv.show);
    return Answered(categories);
  }

  /** What one batch contributes to the combined map: its answers, or the default for
      each of its places when it raised. */
  function BatchCategories(batch: seq<Place>, k: nat, geminiKey: string, sv: Services): (m: map<string, string>)
    ensures m.Keys == NameSet(batch)
    ensures forall n :: n in m ==> m[n] in CATEGORIES
    ensures BatchCall(batch, k, geminiKey, sv).Raised? ==> m == DefaultCategories(batch)
  {
    match BatchCall(batch, k, geminiKey, sv)
    case Answered(m) => m
    case Raised =>
      AliasesAreCanonical();
      DefaultCategories(batch)
  }

  /** The effective batch size: `max(1, CATEGORIZE_BATCH_SIZE)`. */
  function BatchSize(setting: int): (n: nat)
    ensures n >= 1 && n >= setting
    ensures n == 1 || n == setting
  {
    if setting < 1 then 1 else setting
  }

  /** The effective delay: `max(0.0, LLM_REQUEST_DELAY)`. */
  function Delay(setting: real): (d: real)
    ensures d >= 0.0 && d >= setting
    ensures d == 0.0 || d == setting
  {
    if setting < 0.0 then 0.0 else setting
  }


  /** The number of batches of `n` places: `len(range(0, n, size))`, that is `ceil(n / size)`. */
  function NumBatches(n: nat, size: nat): (k: nat)
    requires size > 0
    ensures k == 0 <==> n == 0
    ensures k <= n
    ensures 0 < n <= size ==> k == 1
    decreases n
  {
    if n == 0 then 0 else if n <= size then 1 else 1 + NumBatches(n - size, size)
  }

  /** The offset of batch `k`: the `k`-th value of `range(0, n, size)`. */
  function Start(k: nat, size: nat): nat
    decreases k
  {
    if k == 0 then 0 else Start(k - 1, size) + size
  }

  /** The offsets are the multiples of the batch size. */
  lemma {:induction false} StartIsMultiple(k: nat, size: nat)
    ensures Start(k, size) == k * size
  {
    if k > 0 {
      StartIsMultiple(k - 1, size);
      assert (k - 1) * size + size == k * size;
    }
  }

  lemma {:induction false} StartMono(a: nat, b: nat, size: nat)
    requires a <= b
    ensures Start(a, size) <= Start(b, size)
    decreases b
  {
    if a < b {
      StartMono(a, b - 1, size);
    }
  }

  /** `ceil(n / size)` is the only count of batches of `size` that covers `n` with no
      batch left empty. */
  lemma {:induction false} NumBatchesExact(n: nat, size: nat, k: nat)
    requires size > 0
    requires k == 0 || Start(k - 1, size) < n
    requires n <= Start(k, size)
    ensures NumBatches(n, size) == k
    decreases n
  {
    if n == 0 {
    } else if n <= size {
    } else {
      if k >= 2 {
        NumBatchesExact(n - size, size, k - 1);
      }
    }
  }

  /** Batch `j`: `places[j * size:(j + 1) * size]`, clamped to the list as Python slices are. */
  function BatchOf(ps: seq<Place>, size: nat, j: nat): (b: seq<Place>)
    ensures |b| <= size
  {
    ps[Min(Start(j, size), |ps|)..Min(Start(j, size) + size, |ps|)]
  }

  /** The slices `places[start:start + size]` for `start` in `range(0, len(places), size)`. */
  function Batches(ps: seq<Place>, size: nat): (bs: seq<seq<Place>>)
    requires size > 0
    ensures forall k :: 0 <= k < |bs| ==> 0 < |bs[k]| <= size
    ensures forall k :: 0 <= k < |bs| - 1 ==> |bs[k]| == size
    ensures ps == [] <==> bs == []
    decreases |ps|
  {
    if ps == [] then []
    else if |ps| <= size then [ps]
    else [ps[..size]] + Batches(ps[size..], size)
  }

  /** The batches cut the list into consecutive parts. */
  function Concat(bs: seq<seq<Place>>): seq<Place> {
    if bs == [] then [] else bs[0] + Concat(bs[1..])
  }

  lemma {:induction false} BatchesConcat(ps: seq<Place>, size: nat)
    requires size > 0
    ensures Concat(Batches(ps, size)) == ps
    decreases |ps|
  {
    if |ps| > size {
      BatchesConcat(ps[size..], size);
      assert Batches(ps, size)[1..] == Batches(ps[size..], size);
    }
  }

  /** There are `ceil(n / size)` batches. */
  lemma {:induction false} BatchCount(ps: seq<Place>, size: nat)
    requires size > 0
    ensures |Batches(ps, size)| == NumBatches(|ps|, size)
    decreases |ps|
  {
    if |ps| > size {
      BatchCount(ps[size..], size);
    }
  }

  /** Batch `k` of the list is the slice that starts at offset `k * size`. */
  lemma {:induction false} BatchAt(ps: seq<Place>, size: nat, k: nat)
    requires size > 0
    requires k < |Batches(ps, size)|
    ensures Start(k, size) < |ps|
    ensures Batches(ps, size)[k] == BatchOf(ps, size, k)
    decreases |ps|
  {
    if k > 0 {
      var rest := ps[size..];
      assert Batches(ps, size)[k] == Batches(rest, size)[k - 1];
      BatchAt(rest, size, k - 1);
      var a := Start(k - 1, size);
      var hi := Min(a + size, |rest|);
      assert hi + size == Min(Start(k, size) + size, |ps|);
      SliceOfSuffix(ps, size, a, hi);
    } else {
      assert BatchOf(ps, size, 0) == ps[..Min(size, |ps|)];
    }
  }

  /** A longer prefix is a shorter one followed by the slice between them. */
  lemma PrefixSplit<T>(s: seq<T>, a: nat, b: nat)
    requires a <= b <= |s|
    ensures s[..b] == s[..a] + s[a..b]
  {
  }

  /** A slice of a suffix is a shifted slice of the whole. */
  lemma SliceOfSuffix<T>(s: seq<T>, d: nat, a: nat, b: nat)
    requires d <= |s| && a <= b <= |s| - d
    ensures s[d..][a..b] == s[a + d..b + d]
  {
  }

  /** What the driver keeps of batch `j`, as a function of the batch and its index. */
  function Answers(geminiKey: string, sv: Services): (f: (seq<Place>, nat) -> map<string, string>)
    ensures KeepsNames(f) && Canonical(f)
  {
    (b: seq<Place>, j: nat) => BatchCategories(b, j, geminiKey, sv)
  }

  /** The per-batch maps `f(batch j, j)` of the first `k` batches, indexed by batch. */
  function BatchMaps(ps: seq<Place>, size: nat, k: nat, f: (seq<Place>, nat) -> map<string, string>): (ms: seq<map<string, string>>)
    ensures |ms| == k
    decreases k
  {
    if k == 0 then [] else BatchMaps(ps, size, k - 1, f) + [f(BatchOf(ps, size, k - 1), k - 1)]
  }

  lemma {:induction false} BatchMapsAt(ps: seq<Place>, size: nat, k: nat, f: (seq<Place>, nat) -> map<string, string>, j: nat)
    requires j < k
    ensures BatchMaps(ps, size, k, f)[j] == f(BatchOf(ps, size, j), j)
    decreases k
  {
    if j < k - 1 {
      BatchMapsAt(ps, size, k - 1, f, j);
    }
  }

  /** The maps merged in order, as repeated `dict.update`: a later map wins. */
  function Merged(ms: seq<map<string, string>>): (m: map<string, string>)
    ensures ms == [] ==> m == map[]
    ensures ms != [] ==> forall n :: n in ms[|ms| - 1] ==> n in m && m[n] == ms[|ms| - 1][n]
    decreases |ms|
  {
    if ms == [] then map[] else Merged(ms[..|ms| - 1]) + ms[|ms| - 1]
  }

  /** Appending a map merges it last. */
  lemma MergedSnoc(ms: seq<map<string, string>>, m: map<string, string>)
    ensures Merged(ms + [m]) == Merged(ms) + m
  {
    assert (ms + [m])[..|ms|] == ms;
  }

  /** A key is merged exactly when some map holds it. */
  lemma {:induction false} MergedKeys(ms: seq<map<string, string>>, n: string)
    ensures n in Merged(ms) <==> exists j :: 0 <= j < |ms| && n in ms[j]
    decreases |ms|
  {
    if ms != [] {
      var init := ms[..|ms| - 1];
      MergedKeys(init, n);
      assert forall j :: 0 <= j < |init| ==> init[j] == ms[j];
    }
  }

  /** A key takes its value from the last map that holds it. */
  lemma {:induction false} MergedLast(ms: seq<map<string, string>>, n: string, j: nat)
    requires j < |ms| && n in ms[j]
    requires forall l :: j < l < |ms| ==> n !in ms[l]
    ensures n in Merged(ms) && Merged(ms)[n] == ms[j][n]
    decreases |ms|
  {
    if j < |ms| - 1 {
      var init := ms[..|ms| - 1];
      assert init[j] == ms[j];
      assert forall l :: j < l < |init| ==> init[l] == ms[l];
      MergedLast(init, n, j);
    }
  }

  /** Every merged value is the value of some map. */
  lemma {:induction false} MergedFrom(ms: seq<map<string, string>>, n: string)
    requires n in Merged(ms)
    ensures exists j :: 0 <= j < |ms| && n in ms[j] && Merged(ms)[n] == ms[j][n]
    decreases |ms|
  {
    var init := ms[..|ms| - 1];
    if n !in ms[|ms| - 1] {
      MergedFrom(init, n);
      var j :| 0 <= j < |init| && n in init[j] && Merged(init)[n] == init[j][n];
      assert ms[j] == init[j];
    }
  }

  /** Changing one map leaves every key outside both versions of it untouched. */
  lemma {:induction false} MergedIsolation(ms1: seq<map<string, string>>, ms2: seq<map<string, string>>, k: nat, n: string)
    requires |ms1| == |ms2| && k < |ms1|
    requires forall j :: 0 <= j < |ms1| && j != k ==> ms1[j] == ms2[j]
    requires n !in ms1[k] && n !in ms2[k]
    ensures n in Merged(ms1) <==> n in Merged(ms2)
    ensures n in Merged(ms1) ==> Merged(ms1)[n] == Merged(ms2)[n]
    decreases |ms1|
  {
    var last := |ms1| - 1;
    var i1 := ms1[..last];
    var i2 := ms2[..last];
    assert Merged(ms1) == Merged(i1) + ms1[last];
    assert Merged(ms2) == Merged(i2) + ms2[last];
    if k < last {
      forall j | 0 <= j < last && j != k ensures i1[j] == i2[j] {
        assert i1[j] == ms1[j] && i2[j] == ms2[j];
      }
      MergedIsolation(i1, i2, k, n);
      assert ms1[last] == ms2[last];
    } else {
      forall j | 0 <= j < last ensures i1[j] == i2[j] {
        assert i1[j] == ms1[j] && i2[j] == ms2[j];
      }
      assert i1 == i2;
    }
  }

  /** `categorize_places` as a value, for the per-batch function `f`: the maps of all
      batches, merged in order. The driver runs it with `Answers(geminiKey, sv)`. */
  function Categorized(ps: seq<Place>, batchSetting: int, f: (seq<Place>, nat) -> map<string, string>): (m: map<string, string>)
    ensures ps == [] ==> m == map[]
  {
    var size := BatchSize(batchSetting);
    Merged(BatchMaps(ps, size, NumBatches(|ps|, size), f))
  }

  /** The events of the first `n` batches: a pause before every batch but the first,
      when the delay is positive. */
  function Schedule(n: nat, delay: real): (s: seq<Event>)
    ensures |s| == if n > 0 && delay > 0.0 then 2 * n - 1 else n
    ensures n > 0 ==> s[0] == Attempted(0) && s[|s| - 1] == Attempted(n - 1)
    decreases n
  {
    if n == 0 then []
    else Schedule(n - 1, delay) + (if n > 1 && delay > 0.0 then [Slept(delay)] else []) + [Attempted(n - 1)]
  }

  /** `categorize_places`. `batchSetting` and `delaySetting` are `CATEGORIZE_BATCH_SIZE`
      and `LLM_REQUEST_DELAY`; `events` records the pauses and the batch attempts. */
  method CategorizePlaces(ps: seq<Place>, batchSetting: int, delaySetting: real, geminiKey: string, sv: Services)
    returns (combined: map<string, string>, ghost events: seq<Event>)
    ensures combined == Categorized(ps, batchSetting, Answers(geminiKey, sv))
    ensures ps == [] ==> combined == map[] && events == []
    ensures events == Schedule(NumBatches(|ps|, BatchSize(batchSetting)), Delay(delaySetting))
  {
    events := [];
    if |ps| == 0 {
      return map[], events;
    }
    var size := BatchSize(batchSetting);
    var delay := Delay(delaySetting);
    combined := map[];
    var start := 0;
    var k: nat := 0;
    while start < |ps|
      invariant start == Start(k, size) && ((start == 0) == (k == 0))
      invariant k == 0 || start - size < |ps|
      invariant combined == Merged(BatchMaps(ps, size, k, Answers(geminiKey, sv)))
      invariant events == Schedule(k, delay)
      decreases |ps| - start
    {
      var batch := ps[start..Min(start + size, |ps|)];
      BatchAtStart(ps, size, k, start);
      ScheduleStep(k, delay);
      if start > 0 && delay > 0.0 {
        events := events + [Slept(delay)];
      }
      events := events + [Attempted(k)];
      combined := ApplyBatch(combined, batch, k, geminiKey, sv);
      MapsStep(ps, size, k, geminiKey, sv);
      start := start + size;
      k := k + 1;
    }
    LoopExit(|ps|, size, k, start);
  }

  /** The loop's slice at offset `start` is batch `k`. */
  lemma BatchAtStart(ps: seq<Place>, size: nat, k: nat, start: int)
    requires start == Start(k, size) && start < |ps|
    ensures BatchOf(ps, size, k) == ps[start..Min(start + size, |ps|)]
  {
  }

  /** One turn of the batch loop adds its pause, if any, and its attempt. */
  lemma ScheduleStep(k: nat, delay: real)
    ensures k > 0 && delay > 0.0 ==> Schedule(k + 1, delay) == Schedule(k, delay) + [Slept(delay)] + [Attempted(k)]
    ensures !(k > 0 && delay > 0.0) ==> Schedule(k + 1, delay) == Schedule(k, delay) + [Attempted(k)]
  {
    if !(k > 0 && delay > 0.0) {
      assert Schedule(k, delay) + [] == Schedule(k, delay);
    }
  }

  /** One turn of the batch loop merges the next batch's map last. */
  lemma MapsStep(ps: seq<Place>, size: nat, k: nat, geminiKey: string, sv: Services)
    ensures Merged(BatchMaps(ps, size, k + 1, Answers(geminiKey, sv)))
      == Merged(BatchMaps(ps, size, k, Answers(geminiKey, sv))) + BatchCategories(BatchOf(ps, size, k), k, geminiKey, sv)
  {
    AnswerOf(geminiKey, sv, BatchOf(ps, size, k), k);
    BatchMapsStep(ps, size, k, Answers(geminiKey, sv));
  }

  /** The maps of one more batch are merged last, for any per-batch function. */
  lemma BatchMapsStep(ps: seq<Place>, size: nat, k: nat, f: (seq<Place>, nat) -> map<string, string>)
    ensures Merged(BatchMaps(ps, size, k + 1, f)) == Merged(BatchMaps(ps, size, k, f)) + f(BatchOf(ps, size, k), k)
  {
    MergedSnoc(BatchMaps(ps, size, k, f), f(BatchOf(ps, size, k), k));
  }

  /** When the loop stops, it has run once per batch. */
  lemma LoopExit(n: nat, size: nat, k: nat, start: int)
    requires size > 0 && start == Start(k, size) && n <= start && k > 0 && start - size < n
    ensures NumBatches(n, size) == k
  {
    NumBatchesExact(n, size, k);
  }

  /** The `try`/`except` around one batch: its answers are merged in, or, when it
      raised, each of its places is set to the default. */
  method ApplyBatch(combined: map<string, string>, batch: seq<Place>, k: nat, geminiKey: string, sv: Services)
    returns (r: map<string, string>)
    ensures r == combined + BatchCategories(batch, k, geminiKey, sv)
  {
    var outcome := CategorizeBatch(batch, k, geminiKey, sv);
    match outcome {
      case Answered(m) =>
        r := combined + m;
      case Raised =>
        r := MarkDefaults(combined, batch);
    }
  }

  /** The loop over a failed batch: `combined[name] = DEFAULT_CATEGORY` for each place. */
  method MarkDefaults(combined: map<string, string>, batch: seq<Place>) returns (r: map<string, string>)
    ensures r == combined + DefaultCategories(batch)
  {
    r := combined;
    for j := 0 to |batch|
      invariant r == combined + DefaultCategories(batch[..j])
    {
      DefaultsStep(combined, batch, j);
      r := r[NameOf(batch[j]) := DEFAULT_CATEGORY];
    }
    assert batch[..|batch|] == batch;
  }

  lemma DefaultsStep(before: map<string, string>, batch: seq<Place>, j: nat)
    requires j < |batch|
    ensures (before + DefaultCategories(batch[..j]))[NameOf(batch[j]) := DEFAULT_CATEGORY]
      == before + DefaultCategories(batch[..j + 1])
  {
    var d := DefaultCategories(batch[..j]);
    assert batch[..j + 1][..j] == batch[..j];
    assert DefaultCategories(batch[..j + 1]) == d[NameOf(batch[j]) := DEFAULT_CATEGORY];
    UpdateAfterUnion(before, d, NameOf(batch[j]), DEFAULT_CATEGORY);
  }

  lemma UpdateAfterUnion(a: map<string, string>, b: map<string, string>, k: string, v: string)
    ensures (a + b)[k := v] == a + b[k := v]
  {
  }

  /** The per-batch contract the driver relies on: a batch's map is keyed by the
      batch's names. */
  ghost predicate KeepsNames(f: (seq<Place>, nat) -> map<string, string>) {
    forall b: seq<Place>, j: nat :: f(b, j).Keys == NameSet(b)
  }

  /** The per-batch contract for values: only canonical categories. */
  ghost predicate Canonical(f: (seq<Place>, nat) -> map<string, string>) {
    forall b: seq<Place>, j: nat, n :: n in f(b, j) ==> f(b, j)[n] in CATEGORIES
  }

  /** The per-batch function applied to one batch. */
  lemma AnswerOf(geminiKey: string, sv: Services, b: seq<Place>, j: nat)
    ensures Answers(geminiKey, sv)(b, j) == BatchCategories(b, j, geminiKey, sv)
  {
  }

  /** Without a Gemini key every request raises, so every batch map holds defaults only. */
  lemma AnswersWithoutKey(sv: Services)
    ensures forall b: seq<Place>, j: nat, n :: n in Answers("", sv)(b, j) ==> Answers("", sv)(b, j)[n] == DEFAULT_CATEGORY
  {
    forall b: seq<Place>, j: nat, n | n in Answers("", sv)(b, j) ensures Answers("", sv)(b, j)[n] == DEFAULT_CATEGORY {
      assert Answers("", sv)(b, j) == BatchCategories(b, j, "", sv);
    }
  }

  /** A batch depends on the model only through its own request. */
  lemma BatchUsesOwnReply(batch: seq<Place>, j: nat, geminiKey: string, sv: Services, other: (nat, string) -> Reply)
    requires forall p :: sv.complete(j, p) == other(j, p)
    ensures BatchCall(batch, j, geminiKey, sv) == BatchCall(batch, j, geminiKey, sv.(complete := other))
  {
    var prompt := BuildBatchPrompt(batch, sv.showReal);
    assert CallLlm(geminiKey, sv, j, prompt) == CallLlm(geminiKey, sv.(complete := other), j, prompt);
  }

  /** Changing the model's reply to request `j` alone changes no other batch's map. */
  lemma AnswersIsolated(geminiKey: string, sv: Services, other: (nat, string) -> Reply, j: nat)
    requires forall l, p :: l != j ==> sv.complete(l, p) == other(l, p)
    ensures forall b: seq<Place>, l: nat :: l != j ==> Answers(geminiKey, sv)(b, l) == Answers(geminiKey, sv.(complete := other))(b, l)
  {
    forall b: seq<Place>, l: nat | l != j
      ensures Answers(geminiKey, sv)(b, l) == Answers(geminiKey, sv.(complete := other))(b, l)
    {
      BatchUsesOwnReply(b, l, geminiKey, sv, other);
    }
  }

  /** The first `k` batches, merged, hold exactly the names of the places they cover. */
  lemma {:induction false} MergedNames(ps: seq<Place>, size: nat, k: nat, f: (seq<Place>, nat) -> map<string, string>, n: string)
    requires size > 0 && KeepsNames(f)
    ensures n in Merged(BatchMaps(ps, size, k, f)) <==> n in NameSet(ps[..Min(Start(k, size), |ps|)])
    decreases k
  {
    if k > 0 {
      MergedNames(ps, size, k - 1, f, n);
      var a := Min(Start(k - 1, size), |ps|);
      var b := Min(Start(k, size), |ps|);
      MergedSnoc(BatchMaps(ps, size, k - 1, f), f(BatchOf(ps, size, k - 1), k - 1));
      PrefixSplit(ps, a, b);
      NameSetConcat(ps[..a], ps[a..b]);
    }
  }

  /** All the batches together cover the whole list. */
  lemma {:induction false} NumBatchesCovers(n: nat, size: nat)
    requires size > 0
    ensures n <= Start(NumBatches(n, size), size)
    decreases n
  {
    if n > size {
      NumBatchesCovers(n - size, size);
    }
  }

  /** The result has exactly one key per distinct place name, and nothing else. */
  lemma CategorizedKeys(ps: seq<Place>, batchSetting: int, f: (seq<Place>, nat) -> map<string, string>)
    requires KeepsNames(f)
    ensures Categorized(ps, batchSetting, f).Keys == NameSet(ps)
  {
    var size := BatchSize(batchSetting);
    var count := NumBatches(|ps|, size);
    NumBatchesCovers(|ps|, size);
    assert ps[..Min(Start(count, size), |ps|)] == ps;
    forall n ensures n in Categorized(ps, batchSetting, f) <==> n in NameSet(ps) {
      MergedNames(ps, size, count, f, n);
    }
  }

  /** Every value of the result is a value some batch gave. */
  lemma CategorizedFromBatch(ps: seq<Place>, batchSetting: int, f: (seq<Place>, nat) -> map<string, string>, n: string)
    requires n in Categorized(ps, batchSetting, f)
    ensures exists j :: (0 <= j < NumBatches(|ps|, BatchSize(batchSetting))
      && n in f(BatchOf(ps, BatchSize(batchSetting), j), j)
      && Categorized(ps, batchSetting, f)[n] == f(BatchOf(ps, BatchSize(batchSetting), j), j)[n])
  {
    var size := BatchSize(batchSetting);
    var count := NumBatches(|ps|, size);
    var ms := BatchMaps(ps, size, count, f);
    MergedFrom(ms, n);
    var j :| 0 <= j < |ms| && n in ms[j] && Merged(ms)[n] == ms[j][n];
    BatchMapsAt(ps, size, count, f, j);
  }

  /** Every value of the result is one of the canonical categories. */
  lemma CategorizedValues(ps: seq<Place>, batchSetting: int, f: (seq<Place>, nat) -> map<string, string>, n: string)
    requires Canonical(f)
    requires n in Categorized(ps, batchSetting, f)
    ensures Categorized(ps, batchSetting, f)[n] in CATEGORIES
  {
    CategorizedFromBatch(ps, batchSetting, f, n);
  }

  /** When every batch map holds one value only, so does the result: without a key,
      every place is given the default. */
  lemma CategorizedConstant(ps: seq<Place>, batchSetting: int, f: (seq<Place>, nat) -> map<string, string>, v: string, n: string)
    requires forall b: seq<Place>, j: nat, x :: x in f(b, j) ==> f(b, j)[x] == v
    requires n in Categorized(ps, batchSetting, f)
    ensures Categorized(ps, batchSetting, f)[n] == v
  {
    CategorizedFromBatch(ps, batchSetting, f, n);
  }

  /** A name takes its category from the last batch it occurs in: a later batch's
      `update` overwrites an earlier one. */
  lemma LastBatchWins(ps: seq<Place>, batchSetting: int, f: (seq<Place>, nat) -> map<string, string>, j: nat, n: string)
    requires KeepsNames(f)
    requires j < NumBatches(|ps|, BatchSize(batchSetting))
    requires n in NameSet(BatchOf(ps, BatchSize(batchSetting), j))
    requires forall l :: j < l < NumBatches(|ps|, BatchSize(batchSetting)) ==>
      n !in NameSet(BatchOf(ps, BatchSize(batchSetting), l))
    ensures n in Categorized(ps, batchSetting, f)
    ensures Categorized(ps, batchSetting, f)[n] == f(BatchOf(ps, BatchSize(batchSetting), j), j)[n]
  {
    var size := BatchSize(batchSetting);
    var count := NumBatches(|ps|, size);
    var ms := BatchMaps(ps, size, count, f);
    BatchMapsAt(ps, size, count, f, j);
    forall l | j < l < count ensures n !in ms[l] {
      BatchMapsAt(ps, size, count, f, l);
    }
    MergedLast(ms, n, j);
  }

  /** Batches are independent: two per-batch functions that agree on every batch but
      batch `j` give the same result for every name outside batch `j`. */
  lemma BatchIsolation(ps: seq<Place>, batchSetting: int, f: (seq<Place>, nat) -> map<string, string>,
                       g: (seq<Place>, nat) -> map<string, string>, j: nat, n: string)
    requires KeepsNames(f) && KeepsNames(g)
    requires forall b: seq<Place>, l: nat :: l != j ==> f(b, l) == g(b, l)
    requires n !in NameSet(BatchOf(ps, BatchSize(batchSetting), j))
    ensures n in Categorized(ps, batchSetting, f) <==> n in Categorized(ps, batchSetting, g)
    ensures n in Categorized(ps, batchSetting, f) ==> Categorized(ps, batchSetting, f)[n] == Categorized(ps, batchSetting, g)[n]
  {
    var size := BatchSize(batchSetting);
    var count := NumBatches(|ps|, size);
    var ms1 := BatchMaps(ps, size, count, f);
    var ms2 := BatchMaps(ps, size, count, g);
    forall l | 0 <= l < count && l != j ensures ms1[l] == ms2[l] {
      BatchMapsAt(ps, size, count, f, l);
      BatchMapsAt(ps, size, count, g, l);
    }
    if j < count {
      BatchMapsAt(ps, size, count, f, j);
      BatchMapsAt(ps, size, count, g, j);
      MergedIsolation(ms1, ms2, j, n);
    } else {
      assert ms1 == ms2;
    }
  }

  /** Without a positive delay the driver never pauses: it attempts the batches in order. */
  lemma {:induction false} ScheduleWithoutDelay(n: nat, delay: real)
    requires delay <= 0.0
    ensures |Schedule(n, delay)| == n
    ensures forall k :: 0 <= k < n ==> Schedule(n, delay)[k] == Attempted(k)
  {
    if n > 0 {
      ScheduleWithoutDelay(n - 1, delay);
    }
  }

  /** With a positive delay the driver pauses before every batch but the first. */
  lemma {:induction false} ScheduleWithDelay(n: nat, delay: real)
    requires delay > 0.0 && n > 0
    ensures |Schedule(n, delay)| == 2 * n - 1
    ensures Schedule(n, delay)[0] == Attempted(0)
    ensures forall k :: 0 < k < n ==> Schedule(n, delay)[2 * k - 1] == Slept(delay) && Schedule(n, delay)[2 * k] == Attempted(k)
  {
    if n > 1 {
      ScheduleWithDelay(n - 1, delay);
      var s := Schedule(n - 1, delay);
      assert Schedule(n, delay) == s + [Slept(delay)] + [Attempted(n - 1)];
      forall k | 0 < k < n
        ensures Schedule(n, delay)[2 * k - 1] == Slept(delay) && Schedule(n, delay)[2 * k] == Attempted(k)
      {
        if k < n - 1 {
          assert Schedule(n, delay)[2 * k - 1] == s[2 * k - 1];
          assert Schedule(n, delay)[2 * k] == s[2 * k];
        }
      }
    }
  }

  /** The number of pauses in a run. */
  function Pauses(events: seq<Event>): nat {
    if events == [] then 0 else Pauses(events[..|events| - 1]) + (if events[|events| - 1].Slept? then 1 else 0)
  }

  /** One pause per gap between batches, and none without a positive delay. */
  lemma {:induction false} PausesInSchedule(n: nat, delay: real)
    ensures Pauses(Schedule(n, delay)) == if delay > 0.0 && n > 0 then n - 1 else 0
  {
    if n > 0 {
      PausesInSchedule(n - 1, delay);
      var s := Schedule(n - 1, delay);
      var pause := if n > 1 && delay > 0.0 then [Slept(delay)] else [];
      var t := Schedule(n, delay);
      assert t == s + pause + [Attempted(n - 1)];
      assert t[..|t| - 1] == s + pause;
      if pause != [] {
        assert (s + pause)[..|s|] == s;
      } else {
        assert s + pause == s;
      }
    }
  }
}
