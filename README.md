# On-device classifier and offline worker of the AR demo, in Dafny

The AR demo page (`ar-model/app.js`) classifies camera frames or a sample image
with a MobileNetV2 ONNX model in the browser. It loads an ImageNet label table,
checks the downloaded model bytes, converts an RGBA canvas frame into an NCHW or
NHWC tensor, ranks the scores, and speaks the top label when it changes. Its
service worker (`ar-model/sw.js`) keeps the page usable offline: it precaches a
manifest, removes caches of older versions, answers same-origin requests cache
first, and empties the cache storage on request.

The model in this project follows the code of those two files:

- `wrappers.dfy` (`Wrappers`): `Option` and `Result`.
- `text.dfy` (`Text`): the JavaScript white-space set, `trim`, and decimal
  digits. `NatToString` is proved to round-trip through the digit reader.
- `labels.dfy` (`Labels`): `normalizeLabels` over a JSON value. It covers the
  array case and the `{labels: [...]}` case. It also covers the sparse
  `{"0": ...}` object, whose numeric keys go through `Number(k)` and are ordered
  by a stable sort.
- `label_names.dfy` (`LabelNames`): `prettifyLabel` and `getLabel`.
- `label_lines.dfy` (`LabelLines`): the tolerant line parser of `tryLoadLabels`.
  Lines are split, each line is read around its first colon, the value is
  cleaned, and the result is stored into a sparse JavaScript array and then
  compacted. The parsing loop is a method proved against a specification
  function.
- `ranking.dfy` (`Ranking`): `topK` is proved to be a stable sort by descending
  score, cut to `min(k, n)` entries. `argmax` returns the first maximum, and
  the head of `topK` is that index.
- `model_loading.dfy` (`ModelLoading`): the checks `fetchOnnxBytes` applies to
  the model bytes (status, size, the `<` heuristic on the first 16 bytes) and
  the ONNX Runtime thread count.
- `preprocess.dfy` (`Preprocess`): the NCHW decision, the RGBA→RGB packing loop,
  and the HWC→CHW copy loops on arrays. `videoToTensor` reuses its two buffers
  in a `Preprocessor` object, and `imageToTensor` allocates fresh ones.
- `app_state.dfy` (`App`): the page's module-level state (`labels`,
  `ortModule`, `modelBytes`, `session`, `mediaStream`, `classifyTimer`,
  `classifyInFlight`, `lastSpokenLabel`) as a `Classifier` object. Its methods
  are the label loader, the session set-up, the camera and the real-time tick.
  Everything the browser supplies (import outcome, `fetch` results,
  `crossOriginIsolated`, `hardwareConcurrency`) arrives as a `Runtime` record
  parameter.
- `service_worker.dfy` (`ServiceWorker`): the cache storage as a
  `CacheStorage` object. It holds the cache names in creation order and a map
  from cache name to (URL → response), with methods for the install, activate,
  fetch and message events.

Three details of the two files that the model keeps as written:

- The service worker's control messages are `SKIP_WAITING` and `CLEAR_CACHE`
  (`ar-model/sw.js:143-159`).
- The model bytes are rejected as HTML only when more than two of the first 16
  bytes are `<` (60). A body starting with `<html` and no other `<` passes
  (`ar-model/app.js:418-423`).
- In the real-time tick, the in-flight flag is set only after the session is
  ensured (`ar-model/app.js:438-439`).

## Model

| member | source | states |
|---|---|---|
| Text.TrimSlice | ar-model/app.js:304-307 | `trim` returns the slice of its input between a prefix and a suffix that are all white space |
| Text.TrimKeepsChars | ar-model/app.js:304-307 | every character of the trimmed text comes from the input |
| Text.TrimPadded | ar-model/app.js:304-307 | white space of any length around a text whose ends are not white space is exactly what `trim` removes |
| Text.NatToStringRoundTrip | ar-model/app.js:261-262 | the decimal text of a class index reads back as the same number, so an index key `"n"` means `n` |
| Labels.Lookup | ar-model/app.js:257 | `obj.labels` is present exactly when some property has that key, and its value is the value of the first property with that key |
| Labels.JsString | ar-model/app.js:255 | `String(v)` leaves a string unchanged, gives `"null"` for null, and gives for a number a text that `Number` reads back as that number |
| Labels.MapString | ar-model/app.js:255 | `map(String)` keeps the length and converts each element at its own position |
| Labels.NumberOfKeyShape | ar-model/app.js:261 | `Number(k)` of a blank key is 0; a key it reads as a number is, once trimmed, decimal digits after at most one leading sign, and a negative value has a minus sign |
| Labels.NumberOfIntString | ar-model/app.js:261 | `Number` of the decimal text of any integer, negative ones included, is that integer |
| Labels.NumericEntriesLists | ar-model/app.js:259-261 | the kept entries are exactly the properties whose key `Number` reads as a number, in enumeration order, each paired with that number |
| Labels.SortByKey | ar-model/app.js:262 | the sort by `Number(key)` gives a sequence sorted by key that is a permutation of its input |
| Labels.InsertByKeyStable | ar-model/app.js:262 | inserting an entry keeps the relative order of every key's entries and puts the new entry before the equal keys |
| Labels.SortByKeyStable | ar-model/app.js:262 | the sort is stable: for every key, the entries with that key keep their enumeration order |
| Labels.SortByKeyOfSorted | ar-model/app.js:262 | entries already in key order are left as they are |
| Labels.NormalizeLabels | ar-model/app.js:252-268 | an array maps to its `String` values. An object with an array under `labels` maps to that array's values. Any other object gives a table exactly when some key is numeric, with one entry per numeric key. Every other value gives `null` |
| Labels.NormalizeSparse | ar-model/app.js:258-265 | a sparse object's table is the values of its numeric-keyed entries in ascending key order, entries with equal keys in enumeration order |
| Labels.NumberOfIndexKey | ar-model/app.js:261-262 | `Number` of the decimal text of an index is that index |
| Labels.NumericEntriesOfDense | ar-model/app.js:259-262 | the object `{"i": v_i, ...}` has entries `(i, v_i)` in order |
| Labels.WrappedArrayAgrees | ar-model/app.js:255-257 | an array and the same array under `labels` give the same table |
| Labels.DenseObjectAgrees | ar-model/app.js:252-268 | a non-empty array and the object keyed `"0"`, `"1"`, ... holding the same values give the same table |
| LabelNames.PrettifyLabel | ar-model/app.js:270-277 | the display name has no comma and is single-spaced with no white space at either end. Its words are the white-space-separated words of the text before the first comma, without a leading WordNet id, whatever the spacing of the input |
| LabelNames.PrettifyCollapsesSpacing | ar-model/app.js:273-276 | an id, a name and white space of any kind and length around and between them, followed by a comma and synonyms, are shown as the bare name |
| LabelNames.WordsOfJoin | ar-model/app.js:274-276 | joining non-empty words without white space by single spaces and splitting the result on white space gives the same words |
| LabelNames.PrettifyDropsSynsetId | ar-model/app.js:275 | a leading WordNet id `n` + 8 digits is dropped and the rest of the name is kept |
| LabelNames.PrettifyCutsSynonyms | ar-model/app.js:273 | everything from the first comma on is ignored |
| LabelNames.PrettifyOnlyReadsBeforeComma | ar-model/app.js:273 | the display name depends only on the text before the first comma |
| LabelNames.PrettifyKeepsCleanLabel | ar-model/app.js:270-277 | a single-spaced name without a comma or id is left unchanged |
| LabelNames.PrettifyIdempotent | ar-model/app.js:270-277 | prettifying a display name again changes nothing, unless its own first word looks like an id |
| LabelNames.PrettifySynsetExample | ar-model/app.js:272 | `"n01440764 tench"` is shown as `"tench"` |
| LabelNames.PrettifySynonymExample | ar-model/app.js:272 | `"tench, Tinca tinca"` is shown as `"tench"` |
| LabelNames.JoinWordsOfWellSpaced | ar-model/app.js:274-276 | splitting a single-spaced text on white space and joining with one space gives it back |
| LabelNames.GetLabel | ar-model/app.js:279-283 | with no table, an index outside it, or an empty entry, the name is `class <idx>`; otherwise it is the prettified entry |
| LabelLines.SplitLines | ar-model/app.js:296 | there is always at least one line, and no line holds a line feed |
| LabelLines.SplitLinesJoin | ar-model/app.js:296 | for text without carriage returns, joining the lines with line feeds gives the text back |
| LabelLines.SplitLinesJoinCrlf | ar-model/app.js:296 | for any text, joining the lines with line feeds gives the text with each `\r\n` replaced by `\n`: both line-break forms are consumed and nothing else is lost |
| LabelLines.IndexOf | ar-model/app.js:299-300 | `indexOf` is -1 exactly when the character is absent; otherwise it is the first position holding it |
| LabelLines.DigitsOf | ar-model/app.js:301-302 | the kept characters are digits, none is kept exactly when the key part has no digit, and a text of digits is kept whole |
| LabelLines.DigitsOfAppend | ar-model/app.js:301 | the digits kept from a concatenation are those kept from each part, in order, so the key is the key part's digits in their order |
| LabelLines.ParseLine | ar-model/app.js:299-312 | a line without a colon is skipped, and a stored value is shorter than its line and made of the line's characters |
| LabelLines.ParseLineAt | ar-model/app.js:299-312 | a line whose first colon is at `i` is skipped exactly when nothing before it is a digit. Otherwise its key is the number formed by those digits and its value is the cleaned text after the colon |
| LabelLines.CleanValue | ar-model/app.js:304-311 | the cleaned value is no longer than the raw text and made of its characters |
| LabelLines.CleanQuotedValue | ar-model/app.js:304-311 | a value in single or double quotes, followed by nothing, `,`, `}` or `},`, with any white space before and after, is read as the text between the quotes |
| LabelLines.Store | ar-model/app.js:312 | `parsed[key] = val` stores the value for an array index and is ignored for a key of 2^32-1 or more |
| LabelLines.PresentBelow | ar-model/app.js:314 | the indices the filter visits are ascending, and they are exactly the stored indices below the length |
| LabelLines.CompactBelowLists | ar-model/app.js:314 | the compacted list holds the stored values in index order, one per stored index |
| LabelLines.CompactEmpty | ar-model/app.js:314-315 | the compacted list is empty exactly when nothing was stored |
| LabelLines.StoreParsedLine | ar-model/app.js:298-313 | one pass of the loop stores the parsed line into the sparse array as the specification does |
| LabelLines.FillTable | ar-model/app.js:297-313 | the parsing loop builds the table of all lines |
| LabelLines.Compact | ar-model/app.js:314 | the filtering loop yields the compacted table |
| LabelLines.ParseLabelLines | ar-model/app.js:296-315 | the whole fallback parse yields the compacted table of all lines |
| LabelLines.LastLineWins | ar-model/app.js:312 | when several lines give the same index, the last one's value is kept |
| LabelLines.AbsentKey | ar-model/app.js:312 | an index no line gives is not stored |
| LabelLines.TableEmpty | ar-model/app.js:298-313 | nothing is stored exactly when no line yields an index below 2^32-1 |
| LabelLines.ParsedLabelsEmpty | ar-model/app.js:314-315 | the fallback table is empty exactly when no line stores an index |
| Ranking.SortByScore | ar-model/app.js:341 | the indices come out ordered by descending score and are a permutation of the input |
| Ranking.SortRanked | ar-model/app.js:341 | indices that start ascending and are sorted stably come out with ties in ascending index order |
| Ranking.Ranking | ar-model/app.js:339-341 | the ranking lists every index once, by descending score, ties by ascending index |
| Ranking.TakeCount | ar-model/app.js:343 | `Math.min(k, n)` entries are taken, and none for `k <= 0` |
| Ranking.TopKSpecIsTopK | ar-model/app.js:337-345 | the top-k list has `min(k, n)` entries, each is `{index, prob: probs[index]}`, the indices are distinct, and no index left out beats an index taken |
| Ranking.TopK | ar-model/app.js:337-345 | the loops build exactly the specified top-k list |
| Ranking.Argmax | ar-model/app.js:331-335 | the index of the first maximal score |
| Ranking.TopKHeadIsArgmax | ar-model/app.js:331-345 | for `k >= 1` and a non-empty score list, the head of `topK` is the index `argmax` returns |
| Ranking.TopKOfAll | ar-model/app.js:337-345 | with `k >= n` every index appears in the result |
| ModelLoading.ValidateModelResponse | ar-model/app.js:410-424 | a status outside 200-299, a body under 100 KiB and more than two `<` among the first 16 bytes are each rejected with their own error. The bytes are returned unchanged exactly when none applies |
| ModelLoading.HtmlWithFewAnglesPasses | ar-model/app.js:418-423 | a large body with one `<` at the start and none among the next 15 bytes is accepted |
| ModelLoading.ThreeAnglesReject | ar-model/app.js:418-423 | three `<` among the first 16 bytes reject the body |
| ModelLoading.NumThreads | ar-model/app.js:229-231 | the thread count is 1 unless cross-origin isolated, then `hardwareConcurrency` clamped to 1..4, with 2 when the count is missing or zero |
| Preprocess.IsNchw | ar-model/app.js:175-176 | NCHW unless the dimensions are a four-element array whose second entry is not 3 |
| Preprocess.ChwKeepsEveryValue | ar-model/app.js:182-188 | every value of the interleaved buffer appears in the planar buffer at channel, row, column |
| Preprocess.ChwUnique | ar-model/app.js:182-188 | the planar layout of a buffer is unique |
| Preprocess.Rgb | ar-model/app.js:178-181 | the packed buffer holds red, green and blue of each pixel in order, without alpha |
| Preprocess.PackRgb | ar-model/app.js:178-181 | the packing loop writes exactly the RGB buffer |
| Preprocess.ToChw | ar-model/app.js:182-188 | the three plane loops fill the planar buffer from the interleaved one |
| Preprocess.ImageToTensor | ar-model/app.js:357-405 | a fresh tensor in NCHW layout with dimensions `[1,3,224,224]`, or the packed buffer with `[1,224,224,3]` |
| Preprocess.Preprocessor.VideoToTensor | ar-model/app.js:168-191 | a video without size is refused with `Video not ready` and the buffers are untouched. Otherwise the reused buffers are filled and the tensor wraps one of them |
| App.JsonLabels | ar-model/app.js:290-293 | strict JSON is used exactly when it normalizes to a non-empty table, and the labels are then that table |
| App.Top1Label | ar-model/app.js:452-455 | with no scores the label is empty; otherwise it is the label of the best-ranked index |
| App.ShouldSpeak | ar-model/app.js:456 | speech needs a non-empty label different from the one spoken last, and is silent when the toggle is off or speech is in progress |
| App.Top1IsArgmax | ar-model/app.js:452-455 | the label spoken is the label of the first maximal score |
| App.BytesAfter | ar-model/app.js:238-241 | bytes already cached are kept; new bytes are cached only from an accepted fetch once the runtime is loaded; and there are bytes whenever a session can be created |
| App.Classifier.TryLoadLabels | ar-model/app.js:284-317 | a failed fetch keeps the labels. A JSON table wins. Otherwise a non-empty line table is used, and an empty one keeps the labels |
| App.Classifier.EnsureOrtModule | ar-model/app.js:223-236 | a loaded module is reused. A failed import leaves none. Otherwise the module records the thread count when it has a WebAssembly environment |
| App.Classifier.FetchOnnxBytes | ar-model/app.js:408-425 | cached bytes are returned without fetching. A failed fetch is an error. Otherwise the bytes are returned exactly when the response is acceptable |
| App.Classifier.EnsureSession | ar-model/app.js:238-244 | an existing session is reused. Otherwise the call succeeds exactly when the runtime is loaded or imports, the bytes are cached or the fetched response passes the checks, and creation succeeds. The module afterwards is what `ensureOrtModule` gives. Accepted fetched bytes are cached once the runtime is loaded, even when creation fails; the cache is unchanged when the import fails; cached bytes are kept. The cached bytes afterwards are `BytesAfter` of the old module and bytes. A session exists exactly when the call succeeds |
| App.Classifier.TimerFires | ar-model/app.js:436-439 | a tick is skipped while a cycle runs or without a camera stream. Otherwise a cycle starts, with the session and the in-flight flag set, exactly when a session existed or `ensureSession` can create one; else the tick stops with no session and the flag clear. Past the guard, the module and the cached bytes become what `ensureSession` leaves, so a failed tick keeps bytes already cached |
| App.Classifier.CycleCompletes | ar-model/app.js:440-477 | the flag is cleared in every case. The top-1 label is spoken, and remembered, exactly when speech is on, the label is non-empty and new, and nothing is being spoken |
| App.Classifier.StartCamera | ar-model/app.js:124-141 | a granted camera sets the stream, attempts a session and starts the timer: the session exists exactly when it existed or can be created, and the module and cached bytes are what `ensureSession` leaves. A refusal changes nothing |
| App.Classifier.StopCamera | ar-model/app.js:143-155 | the stream is dropped and the timer stopped, leaving no live interval callback |
| App.Classifier.BeginRealtime | ar-model/app.js:433-435 | the timer is running afterwards, and a new interval callback is registered only when none was running, so there is never more than one |
| App.Classifier.StopRealtime | ar-model/app.js:480-485 | the timer is stopped afterwards, and the one live interval callback, if any, is cleared |
| ServiceWorker.MatchIn | ar-model/sw.js:97 | `caches.match` finds a response exactly when some cache holds the URL, and returns that of the first such cache in creation order |
| ServiceWorker.RequestMatch | ar-model/sw.js:97 | a request other than GET never matches |
| ServiceWorker.AcceptsHtmlListed | ar-model/sw.js:125-126 | an `Accept` header containing `text/html` anywhere asks for HTML; a missing header, or one shorter than `text/html`, does not |
| ServiceWorker.Fetched | ar-model/sw.js:39 | `addAll` stores exactly the manifest's responses |
| ServiceWorker.Survivors | ar-model/sw.js:63-70 | the caches left after activation are exactly the old ones named `ar-demo-v1` or `ar-demo-runtime-v1` |
| ServiceWorker.SurvivorsIdempotent | ar-model/sw.js:57-82 | activating a second time deletes nothing more |
| ServiceWorker.Without | ar-model/sw.js:68 | deleting a cache removes its name and no other |
| ServiceWorker.HitAfterPut | ar-model/sw.js:107-120 | a response put into the runtime cache on a miss is what the next request for that URL finds |
| ServiceWorker.CacheStorage.Install | ar-model/sw.js:32-52 | the precache is opened. It gains the whole manifest when every asset loads with an ok status other than 206, and nothing otherwise. `skipWaiting` is called either way, and a complete precache holds `./index.html` |
| ServiceWorker.CacheStorage.Activate | ar-model/sw.js:57-82 | every cache of another version is deleted. The two current caches survive unchanged, and the clients are claimed |
| ServiceWorker.CacheStorage.Fetch | ar-model/sw.js:87-138 | cross-origin requests are not intercepted. A hit is answered from the cache with storage unchanged. A miss returns the network response and stores it in the runtime cache only for status 200. On network failure an HTML request gets the cached `./index.html`, possibly absent, and any other request fails, with storage unchanged |
| ServiceWorker.CacheStorage.ClearAll | ar-model/sw.js:152-155 | deleting every listed cache leaves storage empty |
| ServiceWorker.CacheStorage.Message | ar-model/sw.js:143-159 | `SKIP_WAITING` only calls `skipWaiting`. `CLEAR_CACHE` empties the storage. Any other message changes nothing |

## Left out

- Softmax (`ar-model/app.js:321-329`): floating point. Scores are integers in this model, so `topK` and `argmax` are modelled on integers and `CycleCompletes` receives the ranked scores directly. NaN scores are not modelled.
- The division by 255 in the packing loops: pixel values are kept as the integer channel values, so the layout is proved but the scaling is not.
- Drawing the video or image onto the canvas, `getImageData`, `loadImage` and the `Canvas 2D context unavailable` error: platform calls. The RGBA frame is a parameter of 224×224×4 values.
- Running the session, the result cards, the FPS moving average, percentage display, status text and the speech-synthesis calls: UI and I/O. Speech is reduced to the gate deciding whether the top label is spoken.
- The sample-image button handler (`ar-model/app.js:488-523`) and `firstInitRequiresNetwork`: UI glue around operations modelled here.
- Interleavings of the asynchronous calls: each operation runs to completion atomically. The real-time tick is split into `TimerFires` (the guard and session set-up) and `CycleCompletes` (ranking, speech, clearing the flag). Two ticks racing on `ensureSession` are not modelled.
- JSON numbers are integers here, and `String(v)` of a JSON number is its decimal integer text.
- NumberOfKey: only decimal integers with an optional sign and surrounding white space, and the blank key, are read as numbers. Any other numeric literal JavaScript's `Number` accepts is treated as `NaN` and its entry is dropped, where JavaScript keeps it: fractions (`1.5`, `.5`, `5.`), exponents, hexadecimal (`0x1`), binary (`0b1`), octal (`0o7`) and `Infinity`. So `{"1.5":"a"}` gives `null` here but `["a"]` in JavaScript, and `{"0x1":"a","0":"b"}` gives `["b"]` here but `["b","a"]` in JavaScript.
- SortByKey: keys are compared as exact integers. JavaScript's `Number(a[0]) - Number(b[0])` loses precision above 2^53, so keys such as `"9007199254740993"` and `"9007199254740992"` tie there and keep their enumeration order, while the model orders them.
- `prettifyLabel` of a non-string value and values other than strings in the label table: every label is a string here.
- Service-worker registration, the model-viewer scaling, `console` logging, and the lifecycle effects of `skipWaiting` and `clients.claim`, which are recorded as flags only.
- Cache API details: URL resolution, `Vary` and header matching, and response cloning. Cache keys are the URLs as given, and a cached response is the response value.
- `ServiceWorker.CacheStorage.Fetch`: the runtime `cache.put` runs after the response is returned in the source. Here it completes within the call.
- `App.Classifier.StartCamera`: the secure-context and `mediaDevices` checks and `getUserMedia` are folded into the `granted` parameter.
