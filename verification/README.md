# Vector-store selection and demo helpers, modelled in Dafny

This project models the deterministic core of a collection of OpenAI and
Anthropic API demos, and proves properties of that model.

- **Vector-store selector** (`a10_get_vsid.py`). Raw store listings become
  records (`store_records.dfy`). Records are sorted newest first with a
  stable sort (`store_sort.dfy`). `LatestVectorStoreSelector` serves the
  newest `n` records from a cache (`latest_selector.dfy`). The picker builds
  labels and a name-to-id dictionary, and its regular expression recovers
  the name from a chosen label (`selection_labels.dfy`). Two stand-alone
  selection routines are in `store_dedup.dfy`.
- **`MemoryResponseDemo`** (`anthropic_a00_responses_api.py`) keeps the
  conversation history (`conversation_history.dfy`).
- **JSON extraction.** The JSON text is cut out of a fenced model reply
  (`json_fence.dfy`).
- **Image preparation.** `image_encoding.dfy` models the media type chosen
  by file suffix and the quality and size schedule of the resize loop.
- **Five-day forecast summaries.** `forecast.dfy` models the two demos'
  summaries.
- **City lookup and dummy search.** `web_search.dfy` models the city lookup
  and the dummy search back end of the web-search demo.
- **Reasoning-model test** (`a01_structured_outputs_parse_schema.py`). This
  test decides whether a temperature is sent; the request parameters are
  built from it (`reasoning_models.dfy`).
- **Refactored demo wrappers** (`test_solutions/`). The test-mode session
  store and its execution counter are in `session_state.dfy`. The test-mode
  UI buffers are in `ui_buffers.dfy`.

`py_text.dfy` gives the Python string semantics the code relies on:
- `find` and `rfind` returning -1;
- `in`;
- `strip`, with Python's Unicode whitespace;
- the regular-expression classes `\s` and `\d` on `str` (Unicode whitespace and decimal digits);
- ASCII `lower`;
- `str(int)`;
- slices with negative bounds;
- string ordering.

Objects whose fields the code updates are classes:
- `LatestVectorStoreSelector`;
- `MemoryResponseDemo`;
- `SessionStateWrapper`;
- `BaseDemoRefactored`;
- `UIWrapper`.

Their methods are proved against specification functions. Pure computations
are functions, with lemmas relating them.

Where the tests and the code disagree, the model follows the code:
`test_solutions/test_with_wrappers.py:192` expects the model name in the UI
output, but `setup_common_ui_refactored` never records it, because the
test-mode `write` keeps only its first argument. `UiBuffers.SetupLinesOmitModel`
proves this (see "## Findings").

The model also keeps a quirk of the code: the label regex loses trailing
whitespace of a store name, so the recovered name is then not a key of the
name-to-id dictionary. `SelectionLabels.TrailingSpaceIsLost` proves this.

## Model

| member | source | states |
|---|---|---|
| PyText.Find | anthropic_a00_responses_api.py:1591-1592 | `str.find`: the first occurrence at or after `start`, or -1 when there is none |
| PyText.RFind | anthropic_a00_responses_api.py:1661 | `str.rfind`: the last occurrence, or -1 |
| PyText.ContainsIffOccurs | anthropic_a00_responses_api.py:1590 | `t in s` holds exactly when `t` occurs at some index of `s` |
| PyText.Strip | anthropic_a00_responses_api.py:1593-1596 | `str.strip`: the result is a piece of the input with no whitespace at either end |
| PyText.StripRemovesOnlySpace | anthropic_a00_responses_api.py:1593-1596 | `str.strip` removes only whitespace: the result sits at some index `a` of the input, and every character before `a` and after the result is whitespace |
| PyText.Lower | a01_structured_outputs_parse_schema.py:164 | ASCII lower-casing: same length, each character lowered |
| PyText.Slice | anthropic_a00_responses_api.py:1593 | `s[i:j]` with Python's clamping of negative and out-of-range bounds |
| PyText.Take | a10_get_vsid.py:132 | `s[:n]`: the first `n` elements, with negative `n` counting from the end |
| PyText.NatToString | a10_get_vsid.py:169 | `str(n)` for a natural number: a non-empty string of ASCII decimal digits |
| PyText.NatToStringValue | a10_get_vsid.py:169 | the digits of `str(n)` denote `n`, and start with `0` exactly when `n` is 0 |
| PyText.StrLessTransitive | anthropic_a00_responses_api.py:2498 | the string order `sorted` uses is transitive |
| PyText.StrLessTotal | anthropic_a00_responses_api.py:2498 | the string order is total on distinct strings (and `StrLessIrreflexive`: irreflexive) |
| StoreRecords.RawCreatedAt | a10_get_vsid.py:57 | the sort key of a raw entry: its `created_at`, or 0 when the attribute is missing |
| StoreRecords.FileCountTotal | a10_get_vsid.py:58-59 | `file_counts` is the `total` of a present, non-null `file_counts` object, else 0 |
| StoreRecords.ToStore | a10_get_vsid.py:54-64 | each field of the record from its raw attribute, with the code's defaults of 0 |
| StoreRecords.FetchedStores | a10_get_vsid.py:45-72 | one record per listed entry in listing order; a failed listing gives `[]` |
| StoreRecords.FetchAllVectorStores | a10_get_vsid.py:34-72 | the loop builds exactly the fetched records; the result is empty exactly when the listing failed or was empty |
| StoreSort.SortPermutes | a10_get_vsid.py:85-89 | `sorted` returns a permutation of its input |
| StoreSort.SortOrders | a10_get_vsid.py:85-89 | with `reverse=True` the keys never increase |
| StoreSort.SortIsStable | a10_get_vsid.py:85-89 | records with equal keys keep their input order |
| StoreSort.SortedMembers | a10_get_vsid.py:85-89 | a record is in the sorted list exactly when it is in the input |
| StoreSort.SortStoresByCreationDateSpec | a10_get_vsid.py:74-96 | `sort_stores_by_creation_date` returns a newest-first, stable permutation of the records |
| StoreSort.SortCommutesWithMap | a10_get_vsid.py:405-409 | sorting raw entries by `created_at` and then building records gives the records sorted by `created_at` |
| LatestSelector.CacheAgeSeconds | a10_get_vsid.py:116 | `(now - ts).seconds` lies in [0, 86400) and equals the elapsed time when less than a day has passed |
| LatestSelector.AgeIgnoresWholeDays | a10_get_vsid.py:116 | adding whole days to the elapsed time does not change the age the cache test compares |
| LatestSelector.DayOldEntryCountsAsFresh | a10_get_vsid.py:113-118 | a cache one day and ten seconds old passes the 300-second freshness test |
| LatestSelector.TotalSecondsExpiresEntries | a10_get_vsid.py:113-118 | on the whole elapsed time, an entry past its 300 seconds stays stale however many days pass, and within the first day that test agrees with `.seconds` |
| LatestSelector.DayOldEntryIsStaleByTotalSeconds | a10_get_vsid.py:113-118 | the entry one day and ten seconds old that `.seconds` keeps is stale on the whole elapsed time |
| LatestSelector.ServedPrefixFitsListing | a10_get_vsid.py:132 | the served prefix has `min(n, len)` records for `n >= 0`, and never more than the listing |
| LatestSelector.PrefixOfSortedIsSorted | a10_get_vsid.py:129-132 | the served prefix is newest first |
| LatestSelector.LatestVectorStoreSelector.constructor | a10_get_vsid.py:22-32 | an empty cache with no timestamp; the cache invariant holds |
| LatestSelector.LatestVectorStoreSelector.GetLatestNStores | a10_get_vsid.py:102-151 | a fresh cache serves its prefix without listing; otherwise an empty listing gives `[]` and leaves the cache alone, and a non-empty one refreshes cache and timestamp and serves the newest-first prefix; the result is always newest first |
| LatestSelector.LatestVectorStoreSelector.SaveSelectedStoresData | a10_get_vsid.py:190-198 | the saved document: the selection, its count, the cached listing's size (0 without a cache), the time, source and version |
| SelectionLabels.Label | a10_get_vsid.py:169 | the label `"{i}. {name} ({date})"` and its length |
| SelectionLabels.NameToIdSpec | a10_get_vsid.py:167-173 | the dictionary's keys are the listed names, and a name maps to the id of the last record carrying it |
| SelectionLabels.NameToIdKeys | a10_get_vsid.py:173 | every listed name is a key, and every key is a listed name |
| SelectionLabels.NewestFirstMapsToOldest | a10_get_vsid.py:167-173 | on a newest-first list, a shared name maps to an oldest record of that name |
| SelectionLabels.CreateSelectionMapping | a10_get_vsid.py:153-176 | labels numbered from 1 in list order, and the name-to-id dictionary |
| SelectionLabels.LazyGroupEndSpec | a10_get_vsid.py:266 | the lazy group ends at the first place where whitespace, `(` and a date follow, within the text, and crosses no newline |
| SelectionLabels.MatchLabelNameSpec | a10_get_vsid.py:266 | the regex group is non-empty and has no newline; a text not starting with a digit does not match |
| SelectionLabels.SelectionFromLabel | a10_get_vsid.py:262-277 | the chosen label gives the regex group and `mapping.get(group)`, or `(None, None)` |
| SelectionLabels.MatchesLabelShape | a10_get_vsid.py:266 | any text laid out as digits, `. `, name, whitespace, `(` and a date matches, with the name as group |
| SelectionLabels.LabelRoundTrip | a10_get_vsid.py:169 | the regex recovers a recoverable name from the label built for it |
| SelectionLabels.TrailingSpaceIsLost | a10_get_vsid.py:266-269 | a name ending in whitespace comes back shortened, and the lookup misses |
| SelectionLabels.SelectingLabelYieldsLastId | a10_get_vsid.py:167-173 | picking record `i`'s label gives its name and the id of the last record of that name |
| StoreDedup.CandidatesKeys | a10_get_vsid.py:417-444 | a name is a candidate key exactly when some entry carries it |
| StoreDedup.CandidatesChoice | a10_get_vsid.py:417-444 | each name's candidate is the first of its entries with the largest `created_at` (the `>` at line 433 keeps earlier ties) |
| StoreDedup.NewestFirstKeepsFirstOccurrence | a10_get_vsid.py:405-444 | on a newest-first list, a name's candidate is its first entry |
| StoreDedup.OriginalSortingCode | a10_get_vsid.py:398-455 | a failed listing gives `{}`; otherwise the ids of the candidates of the sorted listing |
| StoreDedup.OriginalSortingCodePicksNewest | a10_get_vsid.py:398-455 | every listed name is a key and maps to the id of one of its newest entries |
| StoreDedup.RankedLatest | a10_get_vsid.py:475-491 | one ranked entry per record of the newest-`n` prefix |
| StoreDedup.ImprovedLatestNSelection | a10_get_vsid.py:458-500 | an empty or failed listing gives `[]`; otherwise the ranked newest `n` |
| StoreDedup.RankedLatestMatchesSelector | a10_get_vsid.py:475-491 | ranks are 1, 2, …, and the records are those the selector serves after a refresh |
| ConversationHistory.HistoryShape | anthropic_a00_responses_api.py:750-763 | step `i` contributes its user message at `2i` and its assistant message at `2i+1` |
| ConversationHistory.HistoryAppend | anthropic_a00_responses_api.py:750-763 | the history of two step lists in sequence is the two histories in sequence |
| ConversationHistory.ExtendKeepsNumberingOnlyWhenEmpty | anthropic_a00_responses_api.py:867-870 | extending with an import keeps steps numbered 1, 2, … only when the history was empty |
| ConversationHistory.MemoryResponseDemo.constructor | anthropic_a00_responses_api.py:425-437 | the stored steps, or an empty history |
| ConversationHistory.MemoryResponseDemo.BuildConversationMessages | anthropic_a00_responses_api.py:750-763 | defaults, then every step's two messages in order, then the new input |
| ConversationHistory.MemoryResponseDemo.ProcessConversationStep | anthropic_a00_responses_api.py:702-748 | appends one step numbered `len + 1` with the first response text or the fallback text; numbering is preserved |
| ConversationHistory.MemoryResponseDemo.ClearConversation | anthropic_a00_responses_api.py:800-802 | the history becomes empty |
| ConversationHistory.MemoryResponseDemo.ImportConversation | anthropic_a00_responses_api.py:850-880 | replace or extend on execute; a missing key or an unreadable file changes nothing |
| JsonFence.ExtractJsonCreate | anthropic_a00_responses_api.py:1588-1596 | as written: the result has no whitespace at either end |
| JsonFence.ExtractJsonCreateFixed | anthropic_a00_responses_api.py:1588-1596 | corrected, reading to the end when the closing fence is missing: the result has no whitespace at either end |
| JsonFence.ExtractedIsPieceOfReply | anthropic_a00_responses_api.py:1588-1596 | both versions return a piece of the reply |
| JsonFence.ClosedFenceYieldsBody | anthropic_a00_responses_api.py:1588-1596 | both versions return the stripped body of a closed fence |
| JsonFence.SlicesBetweenFences | anthropic_a00_responses_api.py:1590-1593 | for any reply whose first ```` ```json ```` at `p` is closed by a fence at `e`, both versions slice exactly the text between them |
| JsonFence.UnfencedReplyIsStripped | anthropic_a00_responses_api.py:1590-1596 | any reply in which ```` ```json ```` does not occur (other fences and backticks allowed) comes back whole, stripped |
| JsonFence.UnclosedFenceDropsLastChar | anthropic_a00_responses_api.py:1591-1593 | as written, an unclosed fence loses the last character of the reply |
| JsonFence.UnclosedFenceExample | anthropic_a00_responses_api.py:1591-1593 | `"```json"` followed by `{}` yields `"{"` |
| JsonFence.UnclosedFenceFixedYieldsBody | anthropic_a00_responses_api.py:1591-1593 | the corrected version returns the whole stripped body of an unclosed fence |
| JsonFence.ExtractJsonParse | anthropic_a00_responses_api.py:1655-1662 | the result is stripped; a reply not starting with the fence comes back stripped |
| JsonFence.ParseFenceRoundTrip | anthropic_a00_responses_api.py:1655-1662 | a fenced reply with a newline and a closing fence yields the stripped body |
| JsonFence.ParseUnclosedFenceIsEmpty | anthropic_a00_responses_api.py:1659-1661 | an unclosed fenced reply yields the empty text |
| ImageEncoding.FileName | anthropic_a00_responses_api.py:1175 | the last path component, trailing slashes ignored, without `/` |
| ImageEncoding.Suffix | anthropic_a00_responses_api.py:1175 | `Path.suffix` is empty or a dot and at least one more character, without `/` |
| ImageEncoding.MediaTypeFor | anthropic_a00_responses_api.py:1176-1183 | `.png`, `.webp` and `.gif` map to their types, everything else to `image/jpeg` |
| ImageEncoding.OriginalMediaType | anthropic_a00_responses_api.py:1175-1183 | `original_media_type`: one of the four media types |
| ImageEncoding.SuffixOfSimplePath | anthropic_a00_responses_api.py:1175-1183 | a plain `dir/stem.ext` has suffix `.ext` and the map's type for its lower-cased form |
| ImageEncoding.UpperCaseSuffix | anthropic_a00_responses_api.py:1175-1183 | `photo.PNG` is a PNG |
| ImageEncoding.SaveFormatFor | anthropic_a00_responses_api.py:1244-1252 | PNG and WebP keep their format; everything else becomes JPEG |
| ImageEncoding.FormatMediaType | anthropic_a00_responses_api.py:1244-1252 | the media type of each save format |
| ImageEncoding.JpegQualitySchedule | anthropic_a00_responses_api.py:1300-1318 | the JPEG quality after `k` retries follows 90, 80, 70, 60 … then down by 5 to 40 |
| ImageEncoding.JpegQualityBounds | anthropic_a00_responses_api.py:1300-1318 | JPEG quality stays in [40, 90], never rises, and is at least 60 for the first five retries |
| ImageEncoding.WebPAndPngQualityFixed | anthropic_a00_responses_api.py:1269-1303 | WebP is always saved at 90, PNG without a quality |
| ImageEncoding.ScaledSideShrinks | anthropic_a00_responses_api.py:1305-1312 | sides never grow |
| ImageEncoding.ResizeAndEncode | anthropic_a00_responses_api.py:1224-1328 | the loop ends encoded within the limit, below the 100-pixel minimum, or after 15 encodes, with the quality and sides of that attempt and every earlier encode too large; every image actually encoded after the fifth retry, and the last one when the attempts run out, has both sides at least 100, and the stop below the minimum comes right after sides that were still at least 100 |
| ImageEncoding.Base64Length | anthropic_a00_responses_api.py:1207-1210 | the base64 text is a multiple of four characters and about four thirds of the byte count (`4n <= 3 len < 4n + 12`) |
| ImageEncoding.ResizedMediaType | anthropic_a00_responses_api.py:1244-1252 | the resize reports PNG, WebP or JPEG, never GIF |
| ImageEncoding.EncodeImageMediaType | anthropic_a00_responses_api.py:1167-1221 | the media type `_encode_image` returns is one of the four types |
| ImageEncoding.SaveFormatTypeDiffersOnlyForGif | anthropic_a00_responses_api.py:1176-1183 | the save format's media type differs from the map's entry exactly for `.gif` |
| ImageEncoding.EncodeImageMediaTypeSpec | anthropic_a00_responses_api.py:1167-1221 | resize route: the save format's type, or `image/jpeg` when it raises; direct route: the map's type, or `image/jpeg` when reading raises; with nothing raising, the result differs from the map's type exactly for a `.gif` sent to the resize |
| Forecast.DatePart | anthropic_a00_responses_api.py:2045 | `dt_txt.split(" ")[0]` is a space-free prefix, the whole text when it has no space |
| Forecast.Dates | anthropic_a00_responses_api.py:2043-2051 | the dict's key order holds no date twice |
| Forecast.Summaries | anthropic_a00_responses_api.py:2054-2062 | one summary per date, in the given order |
| Forecast.DatesSpec | anthropic_a00_responses_api.py:2043-2051 | the keys are exactly the readings' dates, in order of first reading |
| Forecast.FirstWeatherSpec | anthropic_a00_responses_api.py:2048-2051 | a date's weather is its first reading's, and it has a temperature |
| Forecast.NoReadingNoWeather | anthropic_a00_responses_api.py:2043-2051 | a date without readings has no weather and no temperatures |
| Forecast.NoWeatherOutsideDates | anthropic_a00_responses_api.py:2043-2051 | a date outside the keys has no weather and no temperatures |
| Forecast.GroupedStep | anthropic_a00_responses_api.py:2043-2051 | one more reading, taken in as the loop body does, keeps key order, keys, temperatures and first weather in step with the readings |
| Forecast.GroupByDate | anthropic_a00_responses_api.py:2043-2051 | the loop's dict: key order is the dates, each with its temperatures and first weather |
| Forecast.ReadingsByText | anthropic_a00_responses_api.py:2044-2047 | one reading per item, dated by `dt_txt` |
| Forecast.ReadingsByTimestamp | anthropic_a00_responses_api.py:2487-2494 | one reading per item, dated by the local date of `dt` |
| Forecast.Summarize | anthropic_a00_responses_api.py:2054-2062 | the summary list of the given dates |
| Forecast.WeatherDemoWeeklyForecast | anthropic_a00_responses_api.py:2022-2072 | nothing without a key or on failure; otherwise one entry per date in first-seen order |
| Forecast.WeatherDemoForecastDates | anthropic_a00_responses_api.py:2043-2062 | every reading's date is reported once, in first-seen order |
| Forecast.WeatherDemoForecastEntries | anthropic_a00_responses_api.py:2054-2062 | each entry carries its first reading's weather and a mean over at least one temperature |
| Forecast.InsertString | anthropic_a00_responses_api.py:2498 | insertion keeps the list ascending and adds exactly the new key |
| Forecast.SortStrings | anthropic_a00_responses_api.py:2498 | `sorted(keys)` is an ascending permutation |
| Forecast.WebSearchWeeklyForecast | anthropic_a00_responses_api.py:2466-2513 | nothing without a key or on failure; otherwise the sorted summary, a missing list counting as empty |
| Forecast.WebSearchForecastOrder | anthropic_a00_responses_api.py:2498-2510 | at most five entries, dates strictly ascending, no smaller date left out |
| Forecast.WebSearchForecastEntries | anthropic_a00_responses_api.py:2498-2508 | each entry is a date of the readings with its first reading's weather |
| WebSearch.AreaMappingIsFlat | anthropic_a00_responses_api.py:2115-2125 | every district maps to one of seven cities, none of them a district |
| WebSearch.TargetCity | anthropic_a00_responses_api.py:2377-2382 | a known district is replaced by its city |
| WebSearch.FirstContaining | anthropic_a00_responses_api.py:2385-2394 | the first city whose lower-cased name contains the target, or -1 |
| WebSearch.CloseMatchOf | anthropic_a00_responses_api.py:2397-2404 | the first city named as the close match; no match without one |
| WebSearch.FindMatchingCity | anthropic_a00_responses_api.py:2353-2410 | no list gives nothing; otherwise the first containing city, else the close match |
| WebSearch.ExactNameShadowed | anthropic_a00_responses_api.py:2385-2388 | as written, `[target+rest, target]` returns the first although the second is exact |
| WebSearch.FirstEqual | anthropic_a00_responses_api.py:2385-2388 | the first city whose folded name equals the folded target, or -1 |
| WebSearch.FindMatchingCityFixed | anthropic_a00_responses_api.py:2385-2394 | corrected lookup: no list gives nothing |
| WebSearch.FixedPrefersExactName | anthropic_a00_responses_api.py:2385-2394 | the corrected lookup returns an exact name when there is one, and otherwise agrees with the code as written |
| WebSearch.FixedFindsShadowedName | anthropic_a00_responses_api.py:2385-2388 | on `[target+rest, target]` the corrected lookup returns the exact name |
| WebSearch.DummyResults | anthropic_a00_responses_api.py:2294-2303 | `range(count)` results, none for a count below 1 |
| WebSearch.DummyResultMentionsQuery | anthropic_a00_responses_api.py:2296-2301 | each dummy title and snippet contains the query |
| WebSearch.DummyUrlsDiffer | anthropic_a00_responses_api.py:2296-2301 | dummy results at different positions have different URLs |
| WebSearch.ExecuteSearchShape | anthropic_a00_responses_api.py:2292-2315 | the dummy back end gives `count` distinct results mentioning the query; exactly the unknown back ends are refused |
| ReasoningModels.AnyContained | a01_structured_outputs_parse_schema.py:164-166 | `any(x in s ...)` holds exactly when some needle is contained |
| ReasoningModels.IsReasoningModel | a01_structured_outputs_parse_schema.py:149-166 | an indicator in the lower-cased name, or a configured reasoning or frontier name in the name |
| ReasoningModels.FallbackListsReduceToIndicators | a01_structured_outputs_parse_schema.py:155-166 | with the fallback lists, exactly the names holding an indicator are reasoning models |
| ReasoningModels.CreateTemperatureControl | a01_structured_outputs_parse_schema.py:168-180 | no temperature exactly for reasoning models, else the slider's value |
| ReasoningModels.CallApiParse | a01_structured_outputs_parse_schema.py:208-226 | input, model and schema; a temperature exactly when the model takes one and one is given; keyword arguments win |
| ReasoningModels.ReasoningModelExamples | tests/unit/test_a01_structured_outputs_parse_schema.py:167-169 | `o1-preview`, `o3-mini` and `gpt-5` are reasoning models |
| ReasoningModels.NoIndicatorNoReasoning | a01_structured_outputs_parse_schema.py:155-166 | a name without upper-case letters, without the digits 1, 3 and 5 and without `o4` is not a reasoning model |
| ReasoningModels.GptFourOMiniIsNotReasoning | tests/unit/test_a01_structured_outputs_parse_schema.py:170 | `gpt-4o-mini` is not a reasoning model |
| ReasoningModels.GptFourTurboIsNotReasoning | tests/unit/test_a01_structured_outputs_parse_schema.py:171 | `gpt-4-turbo` is not a reasoning model |
| SessionState.Initialized | test_solutions/session_state_wrapper.py:42-45 | `initialize` adds the key with the initial value when absent and changes nothing else |
| SessionState.InitializeTwiceKeepsFirst | test_solutions/test_with_wrappers.py:45-50 | a second `initialize` of a key never overwrites the first |
| SessionState.SessionStateWrapper.constructor | test_solutions/session_state_wrapper.py:12-14 | an empty store |
| SessionState.SessionStateWrapper.Get | test_solutions/session_state_wrapper.py:16-19 | the stored value when the key was set, else the default |
| SessionState.SessionStateWrapper.Exists | test_solutions/session_state_wrapper.py:33-36 | a key exists exactly when `get` ignores its default for it |
| SessionState.SessionStateWrapper.Set | test_solutions/session_state_wrapper.py:25-28 | the key now holds the value and exists; every other key reads as before |
| SessionState.SessionStateWrapper.Initialize | test_solutions/session_state_wrapper.py:42-45 | the store becomes `Initialized` of the old store |
| SessionState.Bumped | test_solutions/session_state_wrapper.py:75-76 | the counter goes up by exactly one, other fields unchanged; raises when the state is no dict or the count no number |
| SessionState.CountAfterIncrements | test_solutions/test_with_wrappers.py:123-131 | `k` increments from count `n` all succeed and leave `n + k`, other keys unchanged |
| SessionState.FreshDemoState | test_solutions/session_state_wrapper.py:57-64 | a new demo's state is the initial dictionary, with a count of 0 |
| SessionState.BaseDemoRefactored.constructor | test_solutions/session_state_wrapper.py:52-55 | keeps the name and session and initialises the demo's state if absent |
| SessionState.BaseDemoRefactored.InitializeSessionState | test_solutions/session_state_wrapper.py:57-64 | the initial state under `demo_state_{name}`, unless one is there |
| SessionState.BaseDemoRefactored.GetExecutionCount | test_solutions/session_state_wrapper.py:66-70 | 0 when the state is missing; otherwise the stored counter, or 0 |
| SessionState.BaseDemoRefactored.IncrementExecutionCount | test_solutions/session_state_wrapper.py:72-77 | the store after one increment, or unchanged when it raises |
| UiBuffers.UIWrapper.constructor | test_solutions/ui_wrapper.py:13-17 | three empty buffers |
| UiBuffers.UIWrapper.Write | test_solutions/ui_wrapper.py:19-23 | records the first argument or `""`; the other buffers are unchanged |
| UiBuffers.UIWrapper.WriteAll | test_solutions/ui_wrapper.py:19-23 | (corrected `write`) records all arguments joined by spaces; the other buffers are unchanged |
| UiBuffers.JoinArgsHoldsEach | test_solutions/ui_wrapper.py:19-23 | every argument occurs in the joined line |
| UiBuffers.UIWrapper.Error | test_solutions/ui_wrapper.py:27-30 | appends the message; the other buffers are unchanged |
| UiBuffers.UIWrapper.Columns | test_solutions/ui_wrapper.py:34-39 | records the spec and returns exactly `len(spec)` placeholders |
| UiBuffers.UIWrapper.Button | test_solutions/ui_wrapper.py:50-54 | always pressed |
| UiBuffers.UIWrapper.TextArea | test_solutions/ui_wrapper.py:58-62 | the value when it is non-empty, else `"Test input"` |
| UiBuffers.UIWrapper.GetOutput | test_solutions/ui_wrapper.py:67-69 | the recorded writes in call order |
| UiBuffers.UIWrapper.GetErrors | test_solutions/ui_wrapper.py:71-73 | the recorded errors in call order |
| UiBuffers.UIWrapper.ClearBuffers | test_solutions/ui_wrapper.py:75-78 | empties output and errors and keeps the column layouts |
| UiBuffers.SetupCommonUiRefactored | test_solutions/ui_wrapper.py:82-93 | returns `gpt-4o-mini` and records exactly the header and the label |
| UiBuffers.SetupLinesOmitModel | test_solutions/ui_wrapper.py:87-91 | the header names the demo, and no recorded line names the model |
| UiBuffers.SetupCommonUiAllArgs | test_solutions/ui_wrapper.py:82-93 | over the corrected `write`: returns `gpt-4o-mini` and records the header and the label joined with the model |
| UiBuffers.SetupLinesAllArgsNameModel | test_solutions/test_with_wrappers.py:180-192 | over the corrected `write`, one line names the demo and one names the model, as the test asserts |

## Left out

- Remote calls are inputs, not modelled: OpenAI, Anthropic, OpenWeatherMap, the Google, Bing and SerpApi back ends, and Streamlit. Their results are parameters (`Listing`, `ForecastResponse`, `remote`, `assistantTexts`).
- Streamlit rendering and `st.session_state` are left out. Only the test-mode branches of `SessionStateWrapper` and `UIWrapper` are modelled, and `BaseDemoRefactored` and `setup_common_ui_refactored` take their wrapper as an argument rather than creating a default one.
- File and image I/O are left out: `json.dump`, `open` and PIL. PIL's encoded size is the parameter `encodedSize`; only the record saved by `save_selected_stores` is modelled.
- `datetime.fromtimestamp(...).strftime`, `datetime.now()` and `isoformat` depend on the clock or the local time zone. They are the parameters `fmt`, `now`, `updatedAt` and `dayOf`.
- Floating point is left out:
  - The forecast mean is an exact `real`, and its rounding to one decimal is not modelled.
  - `int(side * 0.9)` is `side * 9 / 10`, which agrees for the non-negative integer sides involved.
  - `file_size * 1.37 > max_base64_bytes` is compared exactly, as `137 * size > 100 * max`.
- `difflib.get_close_matches` is the parameter `closeMatch`.
- pandas `str.contains(case=False)` is treated as literal containment on ASCII-lowered names; the regular-expression reading of the target is not modelled.
- `_encode_image` is modelled only as far as the media type it returns is concerned; the base64 text and the logged messages are not. `os.path.getsize`, reading the file and any exception inside `_resize_and_encode_image` are the parameters `fileSize`, `readRaises` and `resizeRaises`.
- StoreSort.SortStoresByCreationDate: the `reverse=False` argument and the exception branch (unreachable for records whose key is always an integer) are not modelled.
- ConversationHistory.MemoryResponseDemo.ProcessConversationStep: the usage dictionary and the execution counter are not modelled; the token total and timestamp are parameters.
- Forecast.WeatherDemoWeeklyForecast, Forecast.WebSearchWeeklyForecast: an item whose `weather` list is empty raises in the source (the second catches it and returns `[]`); items always carry a weather description here.
- ReasoningModels.IsReasoningModel: the configured lists are parameters; `config.get` is not modelled.
- `TextResponseDemoRefactored` is not part of this model, and `UIWrapper.container` returns a mock with no observable effect and is not modelled.
- UiBuffers.UIWrapper.GetOutput, UiBuffers.UIWrapper.GetErrors: the source returns the buffer list itself, so a caller's later changes would alias it; the model returns a copy of the value. In the same way UiBuffers.UIWrapper.ClearBuffers empties the lists in place (`clear()`), which a list obtained earlier would observe; the model replaces the buffers by empty sequences.
- PyText.Lower: only ASCII letters are lowered. Python's `str.lower` also lowers other letters, but the only ones that become ASCII are `K` (U+212A, to `k`) and `İ` (U+0130, to `i` followed by U+0307), so for the ASCII model indicators and file suffixes it is compared with, the model differs from Python only on texts holding one of these two characters.
- SessionState.SessionStateWrapper.Get, SessionState.SessionStateWrapper.Set, SessionState.SessionStateWrapper.Initialize, SessionState.BaseDemoRefactored.IncrementExecutionCount: the store holds values, not shared objects. In the source, test-mode `get` hands out the stored dict itself, `set` and `initialize` store the caller's dict by reference, and `increment_execution_count` changes the dict in place before writing it back. So a state dict obtained earlier through `get` sees later increments, and a dict stored under two keys changes under both. The model does not capture this aliasing; `CountAfterIncrements`' "other keys unchanged" holds only for keys that do not share the demo's dict.
- SessionState.Bumped: a float counter, which Python would also increment, is not modelled (only ints and bools).
- WebSearch.AreaMappingIsFlat: does not state the number of districts (28).
- Python's `str()` of non-string arguments to `write` is taken as given: the arguments arrive already rendered.

## Findings

| source | as written | input that shows it | evidently intended | confidence | as-written member | corrected member |
|---|---|---|---|---|---|---|
| anthropic_a00_responses_api.py:1591-1593 | without a closing fence, `find` gives -1 and `[start:-1]` drops the reply's last character | `"```json{}"` yields `"{"` | an unclosed fence keeps everything after the opening fence | high, not executed | JsonFence.UnclosedFenceExample | JsonFence.UnclosedFenceFixedYieldsBody |
| anthropic_a00_responses_api.py:2385-2394 | the "exact match" step filters by case-insensitive containment, the same test as the partial step, so a longer name listed earlier wins over an exact one | city names `["Tokyo-to", "Tokyo"]` searched for `"Tokyo"` yield `"Tokyo-to"` | the exact step compares whole names, and containment is the fallback | medium, not executed | WebSearch.ExactNameShadowed | WebSearch.FixedFindsShadowedName |
| a10_get_vsid.py:113-116 | `(now - self.cache_timestamp).seconds` is the seconds part of the elapsed time, without its whole days | an entry read one day and ten seconds after it was cached counts as 10 seconds old and is served | compare the whole elapsed time, `total_seconds()` | high, not executed | LatestSelector.DayOldEntryCountsAsFresh | LatestSelector.DayOldEntryIsStaleByTotalSeconds |
| test_solutions/ui_wrapper.py:19-23 | the test-mode `write` records only its first argument, so `setup_common_ui_refactored`'s `write("選択したモデル:", model)` never records the model, and the assertion at test_solutions/test_with_wrappers.py:192 cannot hold | `setup_common_ui_refactored("TestDemo", ui)` records `["# TestDemo", "選択したモデル:"]` | record every argument, as Streamlit shows them | high, not executed | UiBuffers.SetupLinesOmitModel | UiBuffers.SetupLinesAllArgsNameModel |
