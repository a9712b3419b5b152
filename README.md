# Places-to-My-Maps pipeline: a verified model of its core

The pipeline takes a list of place names, optionally with addresses, from a `.txt` or
CSV file. It enriches each place with Google Places details, has a language model sort
the places into seven fixed categories, gives each place a quality colour from its
rating and review count, and picks a My Maps icon per category. This project models
in Dafny the parts of that pipeline that make decisions:

- **Loader** (`load_places.dfy`, module `Loader`).
  - The `.txt` reader and the CSV reader, as `append` loops.
  - The choice of the name and address columns.
  - The dispatch on the file suffix, with `pathlib`'s rule for what a suffix is.
- **GooglePlaces** (`google_places.dfy`). How a Place Details response becomes a record:
  - localized texts are read;
  - at most five non-empty reviews are kept, preferring `text` over `originalText`;
  - every other field is defaulted or copied through;
  - the response shapes on which Python raises are identified;
  - place ids get their `places/` prefix.
- **CategoryNormalizer** (`categorize_normalize.dfy`). Maps any model output onto a
  canonical category: exact name, then alias, then the first category whose name occurs
  in the text, then the default `Attractions`.
- **QualityColors** (`categorize_quality.dfy`).
  - The green/yellow/red thresholds.
  - The in-place colouring of a list of places.
- **BatchPrompt** (`categorize_prompt.dfy`). The numbered place blocks and the prompt
  for one batch.
- **BatchResponse** (`categorize_response.dfy`). Reading the reply:
  - fenced-JSON extraction;
  - the fallback to defaults when the reply does not decode to an object;
  - the positional lookup `"i+1"`, then `"i"`;
  - the name-keyed result.
- **Categorizer** (`categorize_batches.dfy`). The batch driver:
  - consecutive slices of `max(1, size)` places;
  - one request per batch, with an exception becoming defaults for that batch only;
  - merging by `dict.update`, so the later batch wins a name collision;
  - a pause before every batch but the first when the delay is positive.
- **Icons** (`assign_icons.dfy`).
  - The category-to-icon table and the lookup on the stripped category.
  - The in-place icon assignment.
- **Settings** (`settings.dfy`).
  - `get_llm_key`'s preference of OpenAI over Gemini.
  - `mask_key` with Python's slicing semantics.

Shared modules:

- `Optional`: the option type.
- `PyStrings`: Python's `strip`, `lower`, `startswith`, `in`, `find`, `join` and `str(int)` on `seq<char>`.
- `Json`: a decoded JSON value with Python truthiness and `dict.get`.
- `Places`: the place record, one optional slot per key.

A place dict is a datatype with one `Option` per key.

Lists that the source mutates in place are arrays:

- `AssignQualityColors` and `AssignIcons` are proved against the per-place functions `Colored` and `Iconed`.

Loops that build a result are methods, each proved equal to a specification function:

- `LoadTxt`, `ReadRows` (the loop of `LoadCsv`), `NormalizeCategory`, `FillDefaults`, `FillPositional`, `MarkDefaults` and `CategorizePlaces`.

The methods that only choose between those loops, `ParseBatchResponse`, `CategorizeBatch`,
`ApplyBatch` and `LoadPlaces`, are proved equal to their specification functions too.

The properties are proved about those functions.

The language model, `json.loads`, Python's `str()` of a non-string value and the
rendering of a float are parameters: the `Services` value and the `decode`, `show` and
`showReal` functions. The batch driver's properties are proved for any per-batch
function `f` that meets two contracts:

- `KeepsNames`: a batch's map is keyed by exactly the batch's names.
- `Canonical`: its values are canonical categories.

The real per-batch function `Answers(geminiKey, sv)` meets those contracts by its own
`ensures`; the lemmas `AnswersWithoutKey` and `AnswersIsolated` add what it does without a
key and how one reply affects it. It is what
`CategorizePlaces` computes with.

Where the docstrings disagree with the code, the model follows the code. The module
docstring of src/categorize.py speaks of four categories and that of `normalize_category`
of five; the code, and this model, use the seven of `CATEGORIES`.

## Model

| member | source | states |
|---|---|---|
| CategoryNormalizer.AliasesAreCanonical | src/categorize.py:18-35 | every alias maps to a canonical category, and every category's lower-case name is an alias of itself |
| CategoryNormalizer.LowerCategories | src/categorize.py:87-88 | the lower-case names the substring scan compares against |
| CategoryNormalizer.LowerCategoriesDistinct | src/categorize.py:18 | distinct categories have distinct lower-case names |
| CategoryNormalizer.FirstContained | src/categorize.py:87-89 | the scan finds the first category, in declaration order, whose lower-case name occurs in the key, and no earlier one occurs |
| CategoryNormalizer.NormalizedKey | src/categorize.py:84-91 | the alias and substring rules on the lower-cased stripped text always give a member of `CATEGORIES` (the empty key gives the default) |
| CategoryNormalizer.Normalized | src/categorize.py:75-91 | total: every input, missing or not, gives a member of `CATEGORIES`; a missing, empty or blank input gives `Attractions` |
| CategoryNormalizer.NormalizeCategory | src/categorize.py:75-91 | the early-exit loop returns exactly `Normalized(raw)`, a canonical category |
| CategoryNormalizer.CanonicalIsFixed | src/categorize.py:79-83 | a text whose stripped form is a canonical category gives that category, so a canonical name, padded or not, comes back unpadded and unchanged |
| CategoryNormalizer.NormalizeIdempotent | src/categorize.py:75-91 | normalizing a normalized value changes nothing |
| CategoryNormalizer.NormalizedByKey | src/categorize.py:79-89 | the outcome depends only on the lower-cased stripped text: the case-sensitive canonical check agrees with the alias table |
| CategoryNormalizer.NormalizeIgnoresCase | src/categorize.py:82-89 | two texts equal up to case normalize alike |
| CategoryNormalizer.AliasRule | src/categorize.py:84-86 | a stripped, lower-cased alias gives its table entry |
| CategoryNormalizer.SubstringRule | src/categorize.py:87-91 | otherwise the first category whose lower-case name occurs wins, else the default |
| CategoryNormalizer.HotelsExample | src/categorize.py:84-86 | `"HOTELS"` gives `Hotel` |
| CategoryNormalizer.StreetFoodExample | src/categorize.py:79-86 | `"  Street Food\n"` gives `Street food` |
| CategoryNormalizer.HotelRestaurantsExample | src/categorize.py:87-89 | `"hotel restaurants"` gives `Restaurants`, the category declared first |
| QualityColors.QualityColor | src/categorize.py:43-63 | green exactly when score ≥ 4.0 and count ≥ 100; red whenever score < 3.0; in [3.0, 4.0) never green and yellow exactly when count ≥ 100; always one of the three colours |
| QualityColors.QualityMonotone | src/categorize.py:56-63 | a higher score and more reviews never give a worse colour, in the order red < yellow < green |
| QualityColors.MissingIsZero | src/categorize.py:53-54 | a missing rating or count acts as zero; neither present gives red |
| QualityColors.QualityBoundaries | src/categorize.py:56-63 | the thresholds are inclusive: (4.0,100) green, (4.0,99) yellow, (3.0,100) yellow, (3.0,99) red, (2.9,100000) red, (5.0, none) yellow |
| QualityColors.Colored | src/categorize.py:68-72 | the place gets `quality_color = get_quality_color(rating, count)`; every other key is unchanged |
| QualityColors.ColoredIdempotent | src/categorize.py:68-72 | colouring twice is colouring once |
| QualityColors.AssignQualityColors | src/categorize.py:66-72 | every element of the array is replaced by its coloured self |
| BatchPrompt.ShownTypes | src/categorize.py:97-98 | at most the first 10 types, in order; all of them when there are at most 10 |
| BatchPrompt.TypesText | src/categorize.py:97-98 | `unknown` for missing or empty types, else the shown types joined by `, ` |
| BatchPrompt.RatingLine | src/categorize.py:99-108 | empty exactly when rating and count are both missing; otherwise ends in a newline and contains `Rating: …` and `Review count: …` for each present part |
| BatchPrompt.Quote | src/categorize.py:112 | a prefix of the review of at most 400 characters; the whole review when it is shorter |
| BatchPrompt.Snippet | src/categorize.py:109-113 | the snippet line is present exactly when there is a review and quotes the first one |
| BatchPrompt.FormatPlaceBlock | src/categorize.py:94-117 | the block starts with the numbered header and the name and contains the types, rating and snippet lines |
| BatchPrompt.Blocks | src/categorize.py:122 | one block per place, numbered by position plus one |
| BatchPrompt.BuildBatchPrompt | src/categorize.py:120-131 | the prompt starts with the instruction and ends with the category list and reply format; for an empty batch it is those two alone |
| BatchPrompt.PromptHasEveryBlock | src/categorize.py:120-126 | the prompt contains the block and header of every place of the batch |
| BatchPrompt.PromptListsCategories | src/categorize.py:128 | the prompt names every canonical category exactly |
| BatchPrompt.HeadersDistinct | src/categorize.py:114-115 | block headers of different positions differ whatever the names |
| BatchResponse.InteriorStart | src/categorize.py:144 | the interior starts after the opening fence and an optional `json` tag |
| BatchResponse.ExtractJsonText | src/categorize.py:140-146 | the text handed to the decoder is stripped; without a fence pair it is the stripped reply |
| BatchResponse.FencedInterior | src/categorize.py:143-146 | with a fence pair it is a part of the reply that holds no fence |
| BatchResponse.FencedBlock | src/categorize.py:140-146 | when the stripped reply is `pre` + fence + optional `json` tag + `body` + fence + `post`, with no fence before or inside, the decoder gets `body` stripped |
| BatchResponse.TaggedBlock | src/categorize.py:140-146 | a reply that is one `json`-tagged fence around a backtick-free text on its own line hands the decoder exactly that text |
| BatchResponse.FencedJsonExample | src/categorize.py:140-146 | the reply `` ```json\n{"1":"Shopping","2":"hotel"}\n``` `` gives the decoder `{"1":"Shopping","2":"hotel"}` |
| BatchResponse.AnswerValue | src/categorize.py:163 | the first truthy value under `"i+1"`, then `"i"`; none when neither is truthy (an integer key never occurs in a decoded object) |
| BatchResponse.AnswerText | src/categorize.py:164 | an absent answer gives `""` and a string answer is itself |
| BatchResponse.CategoryAt | src/categorize.py:162-164 | each place's answer is normalized to a canonical category, the default when absent |
| BatchResponse.DefaultCategories | src/categorize.py:151-159 | keyed by exactly the batch's names, every value `Attractions` |
| BatchResponse.PositionalCategories | src/categorize.py:160-165 | keyed by exactly the batch's names, every value canonical |
| BatchResponse.PositionalLastWins | src/categorize.py:160-165 | a name's category is the answer at the last position holding that name |
| BatchResponse.ParsedCategories | src/categorize.py:134-165 | keyed by exactly the batch's names, every value canonical, whatever the reply |
| BatchResponse.CategoriesOf | src/categorize.py:147-165 | whatever the decoder gave, the map is keyed by exactly the batch's names and holds canonical values |
| BatchResponse.UndecodableGivesDefaults | src/categorize.py:147-159 | a reply that fails to decode or decodes to a non-object maps every place to `Attractions` |
| BatchResponse.DecodedAnswers | src/categorize.py:160-165 | on a decoded object each place's name gets the answer at its position, unless a later place shares the name |
| BatchResponse.ParseBatchResponse | src/categorize.py:134-165 | the method returns `ParsedCategories` |
| BatchResponse.FillDefaults | src/categorize.py:151-154 | the default loop builds `DefaultCategories` |
| BatchResponse.FillPositional | src/categorize.py:160-165 | the positional loop builds `PositionalCategories` |
| Categorizer.CallLlm | src/categorize.py:185-189 | without a Gemini key the call raises; with one it fails exactly when the request fails, and returns the stripped text |
| Categorizer.FromReply | src/categorize.py:192-196 | a raised request gives `Raised`; a reply gives a map keyed by the batch's names with canonical values |
| Categorizer.BatchCall | src/categorize.py:192-196 | without a key every batch raises; an answered batch is keyed by its names with canonical values |
| Categorizer.CategorizeBatch | src/categorize.py:192-196 | the method returns `BatchCall` |
| Categorizer.BatchCategories | src/categorize.py:213-223 | what a batch contributes is keyed by its names with canonical values, and is all defaults when the batch raised |
| Categorizer.BatchSize | src/categorize.py:206 | the effective batch size is at least 1, at least the setting, and one of the two: `max(1, setting)` |
| Categorizer.Delay | src/categorize.py:207 | the effective delay is at least 0, at least the setting, and one of the two: `max(0.0, setting)` |
| Categorizer.StartIsMultiple | src/categorize.py:209 | the batch offsets are the multiples of the batch size |
| Categorizer.StartMono | src/categorize.py:209 | offsets increase with the batch index |
| Categorizer.NumBatches | src/categorize.py:209 | no batches exactly for an empty list, never more batches than places, and a single batch when the list fits in one |
| Categorizer.NumBatchesExact | src/categorize.py:209 | the batch count is the unique k whose offsets cover the list without an empty batch, i.e. `ceil(n / size)` |
| Categorizer.NumBatchesCovers | src/categorize.py:209 | the batches together reach the end of the list |
| Categorizer.BatchOf | src/categorize.py:210 | batch j is the clamped slice at offset j·size, never longer than the batch size |
| Categorizer.Batches | src/categorize.py:209-210 | reference batching: non-empty slices of at most `size`, all but the last full, none for an empty list |
| Categorizer.BatchesConcat | src/categorize.py:209-210 | the batches concatenate back to the list |
| Categorizer.BatchCount | src/categorize.py:209 | there are `NumBatches` batches |
| Categorizer.BatchAt | src/categorize.py:209-210 | batch k of the reference batching is the slice the loop takes at offset k·size |
| Categorizer.BatchMaps | src/categorize.py:209-215 | one per-batch map for each of the first k batches |
| Categorizer.BatchMapsAt | src/categorize.py:209-215 | map j is the per-batch function applied to batch j |
| Categorizer.Merged | src/categorize.py:208-215 | merging no maps gives `{}`; every entry of the last map survives the merge unchanged |
| Categorizer.MergedSnoc | src/categorize.py:215 | merging one more map is `dict.update` with it |
| Categorizer.MergedKeys | src/categorize.py:208-215 | a name is merged exactly when some batch map holds it |
| Categorizer.MergedLast | src/categorize.py:215 | a name takes its value from the last map holding it |
| Categorizer.MergedFrom | src/categorize.py:215 | every merged value is the value of some map |
| Categorizer.MergedIsolation | src/categorize.py:213-223 | changing one map leaves every name outside it unchanged |
| Categorizer.MergedNames | src/categorize.py:208-223 | the first k batches merged hold exactly the names of the places they cover |
| Categorizer.Categorized | src/categorize.py:204-205 | the merge of all batch maps in order; an empty list gives `{}` |
| Categorizer.Schedule | src/categorize.py:209-212 | n batches give n attempts and, with a positive delay, n − 1 pauses; the first event is batch 0's attempt, with no pause before it, and the last is batch n − 1's |
| Categorizer.CategorizePlaces | src/categorize.py:199-224 | the result is the merge of every batch's map in order; empty input gives `{}` with no attempt and no pause; the pause/attempt sequence is `Schedule` |
| Categorizer.ScheduleStep | src/categorize.py:211-212 | each turn of the loop adds a pause, when not the first batch and the delay is positive, then an attempt |
| Categorizer.ApplyBatch | src/categorize.py:213-223 | the `try`/`except` merges the batch's answers, or the defaults when it raised |
| Categorizer.MarkDefaults | src/categorize.py:222-223 | the `except` loop sets every name of the batch to `Attractions` |
| Categorizer.Answers | src/categorize.py:213-223 | the per-batch function the driver uses (`_categorize_batch` with its `except` branch) gives every batch, answered or failed, a map keyed by its names with canonical values |
| Categorizer.AnswersWithoutKey | src/categorize.py:187-189 | without a Gemini key every batch map holds only `Attractions` |
| Categorizer.BatchUsesOwnReply | src/categorize.py:192-196 | a batch depends on the model only through its own request |
| Categorizer.AnswersIsolated | src/categorize.py:213-223 | changing the reply to one request changes no other batch's map |
| Categorizer.CategorizedKeys | src/categorize.py:199-224 | the result's keys are exactly the input's names |
| Categorizer.CategorizedFromBatch | src/categorize.py:213-223 | every value of the result is a value some batch gave |
| Categorizer.CategorizedValues | src/categorize.py:199-224 | every value of the result is a canonical category |
| Categorizer.CategorizedConstant | src/categorize.py:187-189 | when every batch gives only one value, so does the result (with `AnswersWithoutKey`: no key means every place is `Attractions`) |
| Categorizer.LastBatchWins | src/categorize.py:215 | a name takes its category from the last batch it occurs in |
| Categorizer.BatchIsolation | src/categorize.py:213-223 | names outside batch j are unaffected by what batch j returns, a failure included |
| Categorizer.ScheduleWithoutDelay | src/categorize.py:211-212 | without a positive delay the batches are attempted in order with no pause |
| Categorizer.ScheduleWithDelay | src/categorize.py:211-212 | with a positive delay every batch but the first is preceded by a pause of that length |
| Categorizer.PausesInSchedule | src/categorize.py:211-212 | n − 1 pauses for n batches when the delay is positive, none otherwise |
| Icons.CategoriesHaveIcons | src/assign_icons.py:16-24 | every canonical category is a key of the icon table |
| Icons.IconsOnlyForCategories | src/assign_icons.py:16-24 | every key of the table is a canonical category |
| Icons.IconsDistinct | src/assign_icons.py:16-24 | distinct categories have distinct icons |
| Icons.IconFor | src/assign_icons.py:28-32 | a category whose stripped text is a table key gets that key's icon; a missing category, or one whose stripped text is not a key, gets `attraction` |
| Icons.MissingCategoryIcon | src/assign_icons.py:30-31 | a missing or empty category gets `attraction` |
| Icons.UnknownCategoryIcon | src/assign_icons.py:32 | a text whose stripped form is not a key gets `attraction` |
| Icons.IconFromTable | src/assign_icons.py:28-32 | every icon is the default or an icon of the table |
| Icons.CanonicalIcon | src/assign_icons.py:28-32 | a canonical category gets its own table icon |
| Icons.AttractionsIconIsDefault | src/assign_icons.py:20-25 | the default category's icon coincides with the default icon |
| Icons.PaddedHotelIcon | src/assign_icons.py:32 | `" Hotel "` gets `hotel`: the lookup is on the stripped text |
| Icons.NormalizedHasIcon | src/assign_icons.py:16-32 | whatever the normalizer returns has its own icon in the table |
| Icons.Iconed | src/assign_icons.py:37-38 | the place gets `icon = get_icon_for_category(category)`; every other key is unchanged |
| Icons.IconedIdempotent | src/assign_icons.py:37-38 | setting the icon twice is setting it once |
| Icons.AssignIcons | src/assign_icons.py:35-38 | every element of the array is replaced by its iconed self |
| GooglePlaces.GetText | src/google_places.py:94-101 | a string is its own text, a dict with `text` gives that member, anything else gives `None` |
| GooglePlaces.GetTextOfString | src/google_places.py:94-101 | `{"text": s}` reads as `s`, and a string read twice is unchanged |
| GooglePlaces.ReviewText | src/google_places.py:78 | a review's `text` is preferred; `originalText` is used only when `text` reads as empty |
| GooglePlaces.ReviewTexts | src/google_places.py:78 | one text per review, in order |
| GooglePlaces.TruthyOnly | src/google_places.py:79 | the filter keeps only non-empty texts and never grows the list |
| GooglePlaces.TruthyOnlyKeepsOrder | src/google_places.py:79 | the kept texts are a subsequence of the input, and every non-empty text value occurs among them |
| GooglePlaces.TruthyOnlyCounts | src/google_places.py:79 | each non-empty text is kept exactly as many times as it occurs, duplicates included, and no empty one is kept |
| GooglePlaces.FirstFive | src/google_places.py:78 | `reviews_raw[:5]` keeps min(n, 5) reviews |
| GooglePlaces.NormalizePlace | src/google_places.py:72-91 | a normalized record holds at most five reviews, each non-empty |
| GooglePlaces.NormalizeFailsExactly | src/google_places.py:74-78 | normalization raises exactly when `location` is a truthy non-object, `reviews` a truthy non-list, or one of the first five reviews not an object |
| GooglePlaces.WellFormedNormalizes | src/google_places.py:72-91 | a response whose location is an object and whose reviews are objects is always normalized |
| GooglePlaces.NormalizedDefaults | src/google_places.py:72-91 | `name` and `address` are the read texts or `""`; `place_id` is a truthy `id` as given, else `""`; `types` is a truthy `types` as given, else `[]` |
| GooglePlaces.TextualFieldsAreStrings | src/google_places.py:73 | a display name given as a string or localized string gives a string name, itself when non-empty |
| GooglePlaces.NormalizedCopiesThrough | src/google_places.py:74-86 | rating, rating count and coordinates are copied unchanged, `None` when absent |
| GooglePlaces.NormalizedReviews | src/google_places.py:77-79 | at most five reviews and no more than the raw list; each non-empty; a subsequence of the first five texts in order; each non-empty text kept exactly as many times as it occurs there, and nothing else |
| GooglePlaces.WithPlacesPrefix | src/google_places.py:55-56 | the id always starts with `places/`; a prefixed id is unchanged; otherwise the id follows the prefix |
| GooglePlaces.PrefixIdempotent | src/google_places.py:55-56 | prefixing twice is prefixing once |
| GooglePlaces.SearchResultId | src/google_places.py:42-48 | a found id starts with `places/`; the search raises exactly when `id` is a truthy non-string |
| GooglePlaces.NameUsedOnlyWhenPrefixed | src/google_places.py:46-48 | without an id, `name` is used exactly when it is a string starting with `places/`, and verbatim |
| GooglePlaces.IdPreferredToName | src/google_places.py:44-45 | a non-empty string id is used, prefixed, whatever the name |
| GooglePlaces.SearchIdNeedsNoPrefix | src/google_places.py:44-56 | the search's id reaches the details request unchanged |
| Loader.LineRecord | src/load_places.py:27-29 | a line gives a record exactly when its stripped text is not empty, and the record is `{"name": stripped}` |
| Loader.TxtRecords | src/load_places.py:26-29 | no more records than lines |
| Loader.TxtRecordsShape | src/load_places.py:26-29 | every record comes from a line, has only a name, and that name is stripped and non-empty |
| Loader.EveryNameKept | src/load_places.py:26-29 | every non-blank line gives its record, at its position in the file |
| Loader.TxtRecordsConcat | src/load_places.py:26-29 | records follow file order: two parts of a file give the records of each part in turn |
| Loader.LoadTxt | src/load_places.py:23-30 | the loop returns `TxtRecords(lines)` |
| Loader.FirstIndex | src/load_places.py:41-42 | `next(...)` finds the first header satisfying the test, and none before it does |
| Loader.NameColumn | src/load_places.py:41 | the first header that is `name`, `place` or `title` after strip and lower, else `header[0]` |
| Loader.AddressColumn | src/load_places.py:42 | the first header that is `address` after strip and lower, else none |
| Loader.RowRecord | src/load_places.py:46-52 | a row gives a record exactly when its stripped name is non-empty; the record holds the stripped name and, exactly when there is an address column and a non-empty cell, the stripped address |
| Loader.CsvRecords | src/load_places.py:44-52 | a table without rows gives no records; with `CsvRecordsShort`, `CsvRecordsShape`, `EveryRowKept` and `CsvRecordsConcat` below, the records are those of the named rows, in row order |
| Loader.CsvRecordsShort | src/load_places.py:44-52 | at most one record per row |
| Loader.CsvRecordsShape | src/load_places.py:44-53 | every record comes from a row; its name is stripped and non-empty; it holds an address only when there is an address column, and no other key |
| Loader.EveryRowKept | src/load_places.py:45-52 | every row with a name gives exactly one record, at its position in the table |
| Loader.CsvRecordsConcat | src/load_places.py:45-52 | records follow row order |
| Loader.CsvResult | src/load_places.py:33-53 | no rows give `[]`; rows without a header raise; otherwise no more records than rows |
| Loader.LoadCsv | src/load_places.py:33-53 | no rows give `[]`, rows without a header raise, otherwise the rows are read with the chosen columns: `CsvResult(header, rows)` |
| Loader.ReadRows | src/load_places.py:44-53 | the loop with `continue` returns `CsvRecords(rows, nameCol, addrCol)` |
| Loader.BaseName | src/load_places.py:10 | the last path component holds no separator, ends the path, and is preceded by a separator or by the start of the path |
| Loader.LastDot | src/load_places.py:10 | `rfind('.')`: the last dot's index, or -1 when there is none |
| Loader.LastDotIs | src/load_places.py:10 | the dot with no dot after it is the last dot |
| Loader.BaseNameWithoutSlash | src/load_places.py:10 | a path with no separator is its own last component |
| Loader.Suffix | src/load_places.py:10 | a suffix is empty or a dot followed by at least one character, with no further dot |
| Loader.SuffixOf | src/load_places.py:10 | a file `stem` + `ext` in any directory, with a non-empty stem and `ext` a dot and then at least one character that is neither a dot nor a separator, has suffix `ext` |
| Loader.IsTxt | src/load_places.py:10 | a path sent to the text reader ends in `.txt`, in any case, after at least one more character |
| Loader.TxtFileIsTxt | src/load_places.py:10-12 | such a file goes to the text reader exactly when its extension is `.txt` in any case |
| Loader.HiddenTxtIsCsv | src/load_places.py:10-12 | a file named `.txt` has no suffix and goes to the CSV reader |
| Loader.UpperTxtIsTxt | src/load_places.py:10-11 | `a.TXT` goes to the text reader: the suffix test ignores case |
| Loader.LoadPlaces | src/load_places.py:5-12 | a missing path raises `FileNotFoundError`; a `.txt` suffix reads lines; anything else reads CSV |
| Settings.LlmKey | config/settings.py:55-61 | the OpenAI key when set, else the Gemini key when set, else `""`; always one of the two or `""` |
| Settings.PyPrefix | config/settings.py:68 | Python's `key[:visible]`, for negative and oversized bounds too |
| Settings.Repeat | config/settings.py:68 | `"*" * n` has max(n, 0) stars |
| Settings.MaskKey | config/settings.py:64-68 | an empty key, or one no longer than `visible`, gives `***`; otherwise the mask ends in `len(key) - visible` stars, whatever the sign of `visible` |
| Settings.ShortKeyFullyMasked | config/settings.py:66-67 | an empty key, or one no longer than `visible`, masks to `***` |
| Settings.MaskKeepsPrefix | config/settings.py:68 | for 0 ≤ `visible` < the key's length, the mask has the key's length, shows its first `visible` characters and stars the rest |
| Settings.DefaultMask | config/settings.py:64-68 | with the default of 4, a longer key shows exactly four characters |
| Settings.MaskNegativeVisible | config/settings.py:64-68 | for −(key length) ≤ `visible` < 0 the mask follows Python's slicing, shows all but the last −`visible` characters, and is twice as long as the key |
| Settings.MaskFarNegativeVisible | config/settings.py:64-68 | for `visible` below −(key length) the slice is empty and the mask is `len(key) - visible` stars, longer than twice the key |
| Places.OnlyName | src/load_places.py:29 | `{"name": n}` holds the name and no other key |
| Places.NameSet | src/categorize.py:152-161 | exactly the names `place.get("name") or ""` of the list |
| Places.NameSetConcat | src/categorize.py:208-223 | the names of two lists together are the names of each |
| PyStrings.Strip | src/categorize.py:79 | `strip()` has no whitespace at either end, and is empty exactly when its argument is blank |
| PyStrings.StripIdempotent | src/load_places.py:27 | stripping twice is stripping once |
| PyStrings.LowerStripCommute | src/categorize.py:79-84 | lower-casing and stripping commute |
| PyStrings.FindIffContains | src/categorize.py:88 | `find` locates the needle exactly when `in` holds |
| PyStrings.JoinContainsEach | src/categorize.py:123 | a joined text contains each of its parts |
| PyStrings.DecimalRoundTrip | src/categorize.py:162 | `str(n)` of a natural number reads back as `n` |
| PyStrings.NatToStringInjective | src/categorize.py:162 | distinct numbers have distinct decimal keys |

## Left out

- The HTTP requests of src/google_places.py (`fetch_place_details`, the request parts of `_search_place` and `_place_details`) and `_call_openai`. A response enters as its decoded value; the model's reply is the `complete` parameter, indexed by batch.
- `_search_place` taking `places[0]` from the search response: the model starts from the first result's object.
- A Place Details body that is not a JSON object: `NormalizePlace` takes the decoded object.
- `json.loads`, the regular-expression engine and `csv.DictReader` are not modelled. Decoding is the `decode` parameter. The fence search is written as string operations. A CSV row is a map from header to cell.
- `csv.DictReader`'s handling of rows longer than the header is not modelled: the extra cells go to a `None` key.
- The `NoHeader` error of `Loader` stands for the exception raised on a table whose header is empty. Python raises `AttributeError` on the `None` key that `DictReader` then creates, not the `IndexError` of `header[0]`. The model does not tell the two apart.
- The file system: the existence of the path and the file's lines or rows are parameters of `LoadPlaces`.
- Loader.BaseName: `pathlib`'s normalisation of trailing or repeated separators and of `.` components is not modelled.
- Loader.LoadPlaces: `FileNotFound(path)` carries the path as given, not `str(Path(input_path))`, which `pathlib` normalises in the same way.
- `time.sleep` and all logging. A pause is recorded as a ghost `Slept` event, and each turn of the batch loop as an `Attempted` event, whether or not a request is then sent (without a Gemini key none is).
- Python's `float` rendering in the prompt and `str()` of non-string JSON answers: these are the opaque `showReal` and `show` parameters.
- Module-level configuration in config/settings.py (`load_dotenv`, `os.getenv`, directory paths). The batch size, the delay and the keys are parameters.
- `load_enriched` and the drivers (src/main.py, main.py) are not part of this model.
- PyStrings.Lower: lowers ASCII letters only. Python's full Unicode case mapping is not modelled.
- QualityColors.QualityColor: takes the rating as a real number and the count as an integer. Python's `float()` and `int()` conversions of other types (a numeric string, a float count truncated by `int`) are not modelled.
- Icons.IconFor: a non-string category is represented like a missing one (`None`); both get the default icon, as in the source.
- Categorizer.CategorizePlaces: the corollaries for the real per-batch function (keys, values, last batch wins and isolation for `Answers(geminiKey, sv)`) are not restated separately. They follow by instantiating the generic lemmas with the contract of `Answers`, `AnswersWithoutKey` and `AnswersIsolated`.
- Aliasing of place dicts is not modelled: the arrays of `AssignQualityColors` and `AssignIcons` hold values.
