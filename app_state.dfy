/** The module-level state of ar-model/app.js and the operations that update it: the
    label registry, the lazily created inference session with its cached model bytes,
    the camera stream, and the realtime classification loop with its busy flag and
    speech gate. Browser APIs and the inference runtime are parameters: each call
    receives the outcome the browser or the runtime would produce. */
module App {
  import opened Wrappers
  import opened Labels
  import opened LabelLines
  import opened LabelNames
  import opened Ranking
  import opened ModelLoading

  /** What the browser and onnxruntime-web answer during `ensureSession`. */
  datatype Runtime = Runtime(
    crossOriginIsolated: Option<bool>,   // `crossOriginIsolated`, None when undefined
    hardwareConcurrency: Option<int>,    // `navigator.hardwareConcurrency`
    importSucceeds: bool,                // `import('../lib/ort/ort.min.js')` resolves
    hasWasmEnv: bool,                    // the module has `env.wasm`
    modelFetch: Option<Response>,        // `fetch(MODEL_PATH)`, None when it rejects
    createSucceeds: bool)                // `InferenceSession.create` resolves

  /** The loaded onnxruntime-web module: the thread count it was configured with,
      None when it had no `env.wasm` to configure. */
  datatype OrtModule = OrtModule(numThreads: Option<int>)

  /** How many results the realtime loop asks `topK` for. */
  const TopCount: int := 4

  /** The labels the strict JSON path adopts: `normalizeLabels` of the parsed value when
      that is a non-empty list. */
  function JsonLabels(json: Option<Json>): (r: Option<seq<string>>)
    ensures r.Some? ==> r.value != []
    ensures r.Some? <==> json.Some? && NormalizeLabels(json.value).Some? && NormalizeLabels(json.value).value != []
    ensures r.Some? ==> r == NormalizeLabels(json.value)
  {
    if json.Some? && NormalizeLabels(json.value).Some? && NormalizeLabels(json.value).value != [] then
      NormalizeLabels(json.value)
    else None
  }

  /** The labels the line-based fallback finds in a label file. */
  ghost function LineLabels(text: string): seq<string> {
    var a := Table(ParseLines(SplitLines(text)));
    CompactBelow(a.elems, a.length)
  }

  /** The display name of the best class: `getLabel(tops[0].index)`, or the empty
      string when there are no scores. */
  function Top1Label(labels: Option<seq<string>>, probs: seq<int>): (r: string)
    ensures probs == [] ==> r == []
    ensures probs != [] ==> r == GetLabel(labels, Ranking.Ranking(probs)[0])
  {
    var tops := TopKSpec(probs, TopCount);
    if |tops| > 0 then GetLabel(labels, tops[0].index) else ""
  }

  /** The speech gate: speech is on, there is a label, it differs from the one spoken
      last, and nothing is being spoken. */
  predicate ShouldSpeak(speakChecked: bool, top1: string, lastSpoken: string, speaking: bool)
    ensures ShouldSpeak(speakChecked, top1, lastSpoken, speaking) ==> top1 != [] && top1 != lastSpoken
    ensures !speakChecked || speaking ==> !ShouldSpeak(speakChecked, top1, lastSpoken, speaking)
  {
    speakChecked && top1 != [] && top1 != lastSpoken && !speaking
  }

  /** The label just spoken is not spoken again until another one comes first. */
  lemma NoRepeatSpeech(speakChecked: bool, top1: string, speaking: bool)
    ensures !ShouldSpeak(speakChecked, top1, top1, speaking)
  {
  }

  /** The label the realtime loop speaks is that of `argmax` of the scores. */
  lemma Top1IsArgmax(labels: Option<seq<string>>, probs: seq<int>, idx: nat)
    requires probs != [] && IsFirstMax(probs, idx)
    ensures Top1Label(labels, probs) == GetLabel(labels, idx)
  {
    TopKSpecIsTopK(probs, TopCount);
    TopKHeadIsArgmax(probs, TopCount, TopKSpec(probs, TopCount), idx);
  }

  /** The runtime module after `ensureOrtModule`: the one already loaded, else a
      freshly imported one configured as `NumThreads` says, else none. */
  function LoadedModule(m: Option<OrtModule>, rt: Runtime): (r: Option<OrtModule>)
    ensures m.Some? ==> r == m
    ensures r.Some? <==> m.Some? || rt.importSucceeds
  {
    if m.Some? then m
    else if rt.importSucceeds then
      Some(OrtModule(if rt.hasWasmEnv then Some(NumThreads(rt.crossOriginIsolated, rt.hardwareConcurrency)) else None))
    else None
  }

  /** When `ensureSession` creates a session from scratch: the runtime is loaded or
      imports, the model bytes are cached or the fetch passes the checks, and
      `InferenceSession.create` resolves. */
  predicate SessionCreatable(m: Option<OrtModule>, bytes: Option<seq<byte>>, rt: Runtime) {
    && (m.Some? || rt.importSucceeds)
    && (bytes.Some? || (rt.modelFetch.Some? && Acceptable(rt.modelFetch.value)))
    && rt.createSucceeds
  }

  /** The cached model bytes after `ensureSession`: bytes already cached are kept;
      otherwise, once the runtime is loaded, a fetched body that passes the checks
      is cached, whether or not the session is then created; else nothing is. */
  function BytesAfter(m: Option<OrtModule>, bytes: Option<seq<byte>>, rt: Runtime): (r: Option<seq<byte>>)
    ensures bytes.Some? ==> r == bytes
    ensures bytes.None? && r.Some? ==>
              LoadedModule(m, rt).Some? && rt.modelFetch.Some? && Acceptable(rt.modelFetch.value)
              && r.value == rt.modelFetch.value.body
    ensures SessionCreatable(m, bytes, rt) ==> r.Some?
  {
    if bytes.Some? then bytes
    else if LoadedModule(m, rt).Some? && rt.modelFetch.Some? && Acceptable(rt.modelFetch.value) then
      Some(rt.modelFetch.value.body)
    else None
  }

  /** The result of one firing of the realtime interval. */
  datatype TickStep =
    | Skipped       // busy, or no camera stream
    | NoSession     // `ensureSession` failed; the tick returns
    | Started       // the busy flag is set and a classification cycle runs

  /** The mutable state of app.js. */
  class Classifier {
    var labels: Option<seq<string>>
    var ortModule: Option<OrtModule>
    var modelBytes: Option<seq<byte>>
    var session: bool
    var mediaStream: bool
    var classifyTimer: bool
    var classifyInFlight: bool
    var lastSpokenLabel: string
    /** The number of live `setInterval` callbacks of the realtime loop. */
    ghost var intervals: nat

    /** A label table is never empty; cached model bytes passed the checks of
        `fetchOnnxBytes`; a session exists only with a loaded runtime and model bytes;
        a configured thread count lies in 1..4; exactly one interval callback is live
        while the timer runs, and none otherwise. */
    ghost predicate Valid()
      reads this
    {
      && (labels.Some? ==> labels.value != [])
      && (modelBytes.Some? ==> |modelBytes.value| >= MinModelSize && !LooksHtml(modelBytes.value))
      && (session ==> ortModule.Some? && modelBytes.Some?)
      && (ortModule.Some? && ortModule.value.numThreads.Some? ==> 1 <= ortModule.value.numThreads.value <= 4)
      && intervals == (if classifyTimer then 1 else 0)
    }

    /** The state when the page script starts: everything `null`, `false` or empty. */
    constructor ()
      ensures Valid()
      ensures labels.None? && ortModule.None? && modelBytes.None? && !session
      ensures !mediaStream && !classifyTimer && !classifyInFlight && lastSpokenLabel == []
    {
      labels := None;
      ortModule := None;
      modelBytes := None;
      session := false;
      mediaStream := false;
      classifyTimer := false;
      classifyInFlight := false;
      lastSpokenLabel := "";
      intervals := 0;
    }

    /** `tryLoadLabels`: `fetched` says whether the label file arrived with an OK
        status, `text` is its body and `json` its `JSON.parse`, None when that throws.
        The JSON reading wins when it gives a non-empty list; otherwise the line
        parser's result is adopted when it is non-empty; otherwise nothing changes. */
    method TryLoadLabels(fetched: bool, text: string, json: Option<Json>)
      requires Valid()
      modifies this`labels
      ensures Valid()
      ensures !fetched ==> labels == old(labels)
      ensures fetched && JsonLabels(json).Some? ==> labels == JsonLabels(json)
      ensures fetched && JsonLabels(json).None? && LineLabels(text) != [] ==> labels == Some(LineLabels(text))
      ensures fetched && JsonLabels(json).None? && LineLabels(text) == [] ==> labels == old(labels)
    {
      if !fetched {
        return;
      }
      var normalized := JsonLabels(json);
      if normalized.Some? {
        labels := normalized;
        return;
      }
      var compact := ParseLabelLines(text);
      if |compact| > 0 {
        labels := Some(compact);
      }
    }

    /** `ensureOrtModule`: the runtime is imported once and configured with the thread
        count of `NumThreads`. */
    method EnsureOrtModule(rt: Runtime) returns (ok: bool)
      requires Valid()
      modifies this`ortModule
      ensures Valid()
      ensures old(ortModule).Some? ==> ok && ortModule == old(ortModule)
      ensures old(ortModule).None? && !rt.importSucceeds ==> !ok && ortModule.None?
      ensures old(ortModule).None? && rt.importSucceeds ==>
                ok && ortModule == Some(OrtModule(
                  if rt.hasWasmEnv then Some(NumThreads(rt.crossOriginIsolated, rt.hardwareConcurrency)) else None))
      ensures ok <==> ortModule.Some?
      ensures ortModule == LoadedModule(old(ortModule), rt)
    {
      if ortModule.Some? {
        return true;
      }
      if !rt.importSucceeds {
        return false;
      }
      var threads := None;
      if rt.hasWasmEnv {
        threads := Some(NumThreads(rt.crossOriginIsolated, rt.hardwareConcurrency));
      }
      ortModule := Some(OrtModule(threads));
      return true;
    }

    /** `fetchOnnxBytes(MODEL_PATH)`: the cached bytes when there are some, and no
        request; otherwise the fetched body when it passes the checks. */
    method FetchOnnxBytes(rt: Runtime) returns (r: Result<seq<byte>, LoadError>)
      ensures modelBytes.Some? ==> r == Ok(modelBytes.value)
      ensures modelBytes.None? && rt.modelFetch.None? ==> r == Err(FetchFailed)
      ensures modelBytes.None? && rt.modelFetch.Some? ==>
                (r.Ok? <==> Acceptable(rt.modelFetch.value)) &&
                (r.Ok? ==> r.value == rt.modelFetch.value.body)
    {
      if modelBytes.Some? {
        return Ok(modelBytes.value);
      }
      if rt.modelFetch.None? {
        return Err(FetchFailed);
      }
      r := ValidateModelResponse(rt.modelFetch.value);
    }

    /** `ensureSession`: an existing session is kept; otherwise the runtime is loaded,
        the model bytes are fetched unless cached, and a session is created. Bytes
        that were fetched stay cached even when creating the session fails. */
    method EnsureSession(rt: Runtime) returns (ok: bool)
      requires Valid()
      modifies this`ortModule, this`modelBytes, this`session
      ensures Valid()
      ensures ok <==> session
      ensures old(session) ==> ortModule == old(ortModule) && modelBytes == old(modelBytes)
      ensures !old(session) && ok ==> rt.createSucceeds
      ensures old(modelBytes).Some? ==> modelBytes == old(modelBytes)
      ensures old(modelBytes).None? && modelBytes.Some? ==>
                rt.modelFetch.Some? && Acceptable(rt.modelFetch.value) && modelBytes.value == rt.modelFetch.value.body
      ensures ok <==> old(session) || SessionCreatable(old(ortModule), old(modelBytes), rt)
      ensures ortModule == LoadedModule(old(ortModule), rt)
      ensures (&& old(modelBytes).None? && rt.modelFetch.Some? && Acceptable(rt.modelFetch.value)
               && (old(ortModule).Some? || rt.importSucceeds)) ==>
                modelBytes == Some(rt.modelFetch.value.body)
      ensures old(ortModule).None? && !rt.importSucceeds ==> modelBytes == old(modelBytes)
      ensures modelBytes == BytesAfter(old(ortModule), old(modelBytes), rt)
    {
      if session {
        return true;
      }
      ok := EnsureOrtModule(rt);
      if !ok {
        return false;
      }
      if modelBytes.None? {
        var fetched := FetchOnnxBytes(rt);
        if fetched.Err? {
          return false;
        }
        modelBytes := Some(fetched.value);
      }
      if !rt.createSucceeds {
        return false;
      }
      session := true;
      return true;
    }

    /** `beginRealtimeClassification`: start the interval unless one is running, so
        that there is never more than one live callback. */
    method BeginRealtime()
      requires Valid()
      modifies this`classifyTimer, this`intervals
      ensures Valid()
      ensures classifyTimer
      ensures intervals == if old(classifyTimer) then old(intervals) else old(intervals) + 1
    {
      if classifyTimer {
        return;
      }
      classifyTimer := true;
      intervals := intervals + 1;
    }

    /** `stopRealtimeClassification`: clear the interval, if any. */
    method StopRealtime()
      requires Valid()
      modifies this`classifyTimer, this`intervals
      ensures Valid()
      ensures !classifyTimer
      ensures intervals == if old(classifyTimer) then old(intervals) - 1 else old(intervals)
    {
      if classifyTimer {
        classifyTimer := false;
        intervals := intervals - 1;
      }
    }

    /** `startCamera`: `granted` says whether the browser supports cameras here, the
        context is secure and `getUserMedia` resolved. With a stream, a session is
        attempted (its failure is ignored) and the realtime loop started. */
    method StartCamera(granted: bool, rt: Runtime)
      requires Valid()
      modifies this`mediaStream, this`ortModule, this`modelBytes, this`session, this`classifyTimer, this`intervals
      ensures Valid()
      ensures !granted ==> mediaStream == old(mediaStream) && classifyTimer == old(classifyTimer)
      ensures !granted ==> session == old(session) && modelBytes == old(modelBytes) && ortModule == old(ortModule)
      ensures granted ==> mediaStream && classifyTimer
      ensures granted ==> ortModule == LoadedModule(old(ortModule), rt)
      ensures granted ==> modelBytes == BytesAfter(old(ortModule), old(modelBytes), rt)
      ensures granted ==> (session <==> old(session) || SessionCreatable(old(ortModule), old(modelBytes), rt))
    {
      if !granted {
        return;
      }
      mediaStream := true;
      var _ := EnsureSession(rt);
      BeginRealtime();
    }

    /** `stopCamera`: release the stream and stop the realtime loop. */
    method StopCamera()
      requires Valid()
      modifies this`mediaStream, this`classifyTimer, this`intervals
      ensures Valid()
      ensures !mediaStream && !classifyTimer
    {
      mediaStream := false;
      StopRealtime();
    }

    /** The start of one firing of the interval, up to setting the busy flag. A tick
        while a cycle is in flight or without a stream does nothing; without a
        session one is created first (before the flag is set), and a failure ends the
        tick. */
    method TimerFires(rt: Runtime) returns (step: TickStep)
      requires Valid() && classifyTimer
      modifies this`ortModule, this`modelBytes, this`session, this`classifyInFlight
      ensures Valid()
      ensures old(classifyInFlight) || !mediaStream ==>
                step == Skipped && session == old(session) && classifyInFlight == old(classifyInFlight) &&
                ortModule == old(ortModule) && modelBytes == old(modelBytes)
      ensures !old(classifyInFlight) && mediaStream ==> step != Skipped
      ensures !old(classifyInFlight) && mediaStream ==>
                (step == Started <==> old(session) || SessionCreatable(old(ortModule), old(modelBytes), rt))
      ensures !old(classifyInFlight) && mediaStream ==>
                ortModule == LoadedModule(old(ortModule), rt)
                && modelBytes == BytesAfter(old(ortModule), old(modelBytes), rt)
      ensures step == NoSession ==> !session && !classifyInFlight
      ensures step == Started ==> session && classifyInFlight
      ensures old(session) && step != Skipped ==> step == Started
    {
      if classifyInFlight || !mediaStream {
        return Skipped;
      }
      if !session {
        var ok := EnsureSession(rt);
        if !ok {
          return NoSession;
        }
      }
      classifyInFlight := true;
      return Started;
    }

    /** `tops.length > 0 ? getLabel(tops[0].index) : ''` after `topK(probs, 4)`. */
    method TopLabelOf(probs: seq<int>) returns (top1: string)
      ensures top1 == Top1Label(labels, probs)
    {
      var tops := TopK(probs, TopCount);
      top1 := if |tops| > 0 then GetLabel(labels, tops[0].index) else "";
    }

    /** The end of a cycle that `TimerFires` started. `scores` are the class scores
        (None when preprocessing or inference threw); `speakChecked` is the speech
        toggle and `speaking` whether speech is in progress. The top-1 label is spoken
        under the speech gate, and the busy flag is cleared whatever happened. */
    method CycleCompletes(scores: Option<seq<int>>, speakChecked: bool, speaking: bool)
      returns (spoken: Option<string>)
      requires Valid() && classifyInFlight
      modifies this`classifyInFlight, this`lastSpokenLabel
      ensures Valid()
      ensures !classifyInFlight
      ensures scores.None? ==> spoken.None? && lastSpokenLabel == old(lastSpokenLabel)
      ensures scores.Some? ==>
                (spoken.Some? <==> ShouldSpeak(speakChecked, Top1Label(labels, scores.value), old(lastSpokenLabel), speaking))
      ensures scores.Some? && spoken.Some? ==>
                spoken.value == Top1Label(labels, scores.value) && lastSpokenLabel == spoken.value
      ensures spoken.None? ==> lastSpokenLabel == old(lastSpokenLabel)
    {
      spoken := None;
      if scores.Some? {
        var top1 := TopLabelOf(scores.value);
        if ShouldSpeak(speakChecked, top1, lastSpokenLabel, speaking) {
          spoken := Some(top1);
          lastSpokenLabel := top1;
        }
      }
      classifyInFlight := false;
    }
  }
}
