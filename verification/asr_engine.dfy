/** The recognition engine adapter (backend/asr_engine.py): the engine singleton
    and its reload decision, model loading with its device fallback, and the
    normalisation of the external model's output into a uniform result record.
    The speech model itself is outside the model: its output for a file is an input. */
module AsrEngine {
  import opened Wrappers
  import opened Seqs
  import opened PosixPath

  // ---------------------------------------------------------------------------
  // Result records
  // ---------------------------------------------------------------------------

  /** One diarized sentence as the result exposes it. */
  datatype SpeakerSegment = SpeakerSegment(speaker: string, text: string, start: int, end: int)

  /** The speaker fields a result carries when diarization is on. */
  datatype SpeakerInfo = SpeakerInfo(sentences: seq<SpeakerSegment>, speakerCount: nat, speakers: seq<string>)

  /** The dictionary `transcribe` returns. Keys the source only sets on some paths are
      `Option`s: `error` on failures, `speaker_diarization_enabled` on successes,
      and the speaker fields on successes with diarization on. */
  datatype RecognitionResult = RecognitionResult(
    success: bool,
    text: string,
    audioPath: string,
    processTime: real,
    error: Option<string>,
    diarizationEnabled: Option<bool>,
    speakerInfo: Option<SpeakerInfo>)

  // ---------------------------------------------------------------------------
  // The external model's output, as an input
  // ---------------------------------------------------------------------------

  /** One entry of `sentence_info`; a missing key is `None`. `spk` is the speaker
      label already converted by `str`. */
  datatype Sentence = Sentence(spk: Option<string>, text: Option<string>, start: Option<int>, end: Option<int>)

  /** One element of the list `generate` returns. */
  datatype OutputItem = OutputItem(text: Option<string>, sentenceInfo: Option<seq<Sentence>>)

  /** What `self._model.generate(...)` does: raise with a message, return `None`,
      or return a list. */
  datatype ModelOutput = Raised(message: string) | NoOutput | Items(items: seq<OutputItem>)

  /** Everything `transcribe` learns from outside about one path: whether it exists,
      what the model does with it, and the elapsed seconds (already rounded). */
  datatype Probe = Probe(present: bool, output: ModelOutput, elapsed: real)

  /** Exceptions that escape the adapter. */
  datatype EngineError = FileNotFound(path: string) | ModelNotLoaded | LoadFailed(message: string)

  const NoSpeechError: string := "未识别到语音内容"
  const UnknownSpeaker: string := "unknown"

  /** `str(e)` for the adapter's exceptions. */
  function Message(e: EngineError): string {
    match e
    case FileNotFound(p) => "音频文件不存在: " + p
    case ModelNotLoaded => "模型未加载"
    case LoadFailed(m) => m
  }

  // ---------------------------------------------------------------------------
  // Output normalisation (transcribe)
  // ---------------------------------------------------------------------------

  /** One `sentence_info` entry reshaped, with the source's defaults for missing keys. */
  function Segment(s: Sentence): SpeakerSegment {
    SpeakerSegment(s.spk.GetOr(UnknownSpeaker), s.text.GetOr(""), s.start.GetOr(0), s.end.GetOr(0))
  }

  function Segments(info: seq<Sentence>): (segs: seq<SpeakerSegment>)
    ensures |segs| == |info|
    ensures forall k :: 0 <= k < |info| ==> segs[k] == Segment(info[k])
  {
    if |info| == 0 then [] else [Segment(info[0])] + Segments(info[1..])
  }

  function SpeakerLabels(segs: seq<SpeakerSegment>): (labels: seq<string>)
    ensures |labels| == |segs|
    ensures forall k :: 0 <= k < |segs| ==> labels[k] == segs[k].speaker
  {
    seq(|segs|, k requires 0 <= k < |segs| => segs[k].speaker)
  }

  /** `list(set(labels))`, in first-seen order: each label once, and as many as the set has. */
  function DistinctLabels(labels: seq<string>): (speakers: seq<string>)
    ensures NoDuplicates(speakers)
    ensures forall x :: x in speakers <==> x in labels
    ensures |set x | x in labels| == |speakers| <= |labels|
  {
    var speakers := Dedup(labels);
    DistinctCardinality(speakers);
    assert (set x | x in labels) == (set x | x in speakers);
    speakers
  }

  /** The speaker fields for one `sentence_info` list. The source lists the speakers
      from a Python `set`, whose order is unspecified; this model lists them in
      first-seen order, one admissible order, and no contract depends on it. */
  function Diarize(info: seq<Sentence>): (d: SpeakerInfo)
    ensures |d.sentences| == |info|
    ensures forall k :: 0 <= k < |info| ==> d.sentences[k] == Segment(info[k])
    ensures NoDuplicates(d.speakers)
    ensures forall x :: x in d.speakers <==> exists k :: 0 <= k < |info| && d.sentences[k].speaker == x
    ensures d.speakerCount == |d.speakers| <= |d.sentences|
  {
    var segs := Segments(info);
    var labels := SpeakerLabels(segs);
    var speakers := DistinctLabels(labels);
    var count := |set x | x in labels|;
    assert forall x :: x in labels <==> exists k :: 0 <= k < |info| && segs[k].speaker == x by {
      forall x | x in labels ensures exists k :: 0 <= k < |info| && segs[k].speaker == x {
        var k :| 0 <= k < |labels| && labels[k] == x;
      }
    }
    SpeakerInfo(segs, count, speakers)
  }

  /** The body of the `try` in `transcribe`: the record built from the model's output. */
  function Normalize(path: string, diarization: bool, output: ModelOutput, elapsed: real): RecognitionResult {
    match output
    case Raised(m) =>
      RecognitionResult(false, "", path, elapsed, Some(m), None, None)
    case NoOutput =>
      RecognitionResult(false, "", path, elapsed, Some(NoSpeechError), None, None)
    case Items(items) =>
      if |items| == 0 then
        RecognitionResult(false, "", path, elapsed, Some(NoSpeechError), None, None)
      else
        var first := items[0];
        var info := if diarization then Some(Diarize(first.sentenceInfo.GetOr([]))) else None;
        RecognitionResult(true, first.text.GetOr(""), path, elapsed, None, Some(diarization), info)
  }

  /** `ASREngine.transcribe`: a missing file and an unloaded model raise before the model
      is called; anything the model raises is caught and turned into a failed result. */
  function Transcribe(e: EngineInstance, path: string, probe: Probe): (r: Result<RecognitionResult, EngineError>)
    ensures !probe.present ==> r == Err(FileNotFound(path))
    ensures probe.present && e.model.None? ==> r == Err(ModelNotLoaded)
    ensures probe.present && e.model.Some? ==> r.Ok? && r.value.audioPath == path && r.value.processTime == probe.elapsed
    ensures r.Ok? ==> (r.value.success <==> probe.output.Items? && |probe.output.items| > 0)
    ensures r.Ok? && !r.value.success ==>
      && r.value.text == ""
      && r.value.error == Some(if probe.output.Raised? then probe.output.message else NoSpeechError)
      && r.value.diarizationEnabled.None?
      && r.value.speakerInfo.None?
    ensures r.Ok? && r.value.success ==>
      && r.value.text == probe.output.items[0].text.GetOr("")
      && r.value.error.None?
      && r.value.diarizationEnabled == Some(e.diarization)
      && (r.value.speakerInfo.Some? <==> e.diarization)
    ensures r.Ok? && r.value.speakerInfo.Some? ==>
      r.value.speakerInfo.value == Diarize(probe.output.items[0].sentenceInfo.GetOr([]))
  {
    if !probe.present then Err(FileNotFound(path))
    else if e.model.None? then Err(ModelNotLoaded)
    else Ok(Normalize(path, e.diarization, probe.output, probe.elapsed))
  }

  /** One progress callback `callback(i + 1, total, result)`. */
  datatype Progress = Progress(current: nat, total: nat, result: RecognitionResult)

  /** `ASREngine.batch_transcribe`: transcribes the paths in order and reports progress;
      an exception from `transcribe` propagates, so the list is then never returned. */
  method BatchTranscribe(e: EngineInstance, paths: seq<string>, probe: string -> Probe, withCallback: bool)
    returns (results: Result<seq<RecognitionResult>, EngineError>, calls: seq<Progress>)
    ensures results.Ok? <==> forall k :: 0 <= k < |paths| ==> Transcribe(e, paths[k], probe(paths[k])).Ok?
    ensures results.Ok? ==> |results.value| == |paths|
    ensures results.Ok? ==> forall k :: 0 <= k < |paths| ==> Ok(results.value[k]) == Transcribe(e, paths[k], probe(paths[k]))
    ensures results.Err? ==> exists k :: (
      && 0 <= k < |paths|
      && Transcribe(e, paths[k], probe(paths[k])) == Err(results.error)
      && (forall j :: 0 <= j < k ==> Transcribe(e, paths[j], probe(paths[j])).Ok?)
      && |calls| == (if withCallback then k else 0))
    ensures !withCallback ==> calls == []
    ensures forall j :: 0 <= j < |calls| ==> calls[j].current == j + 1 && calls[j].total == |paths|
    ensures |calls| <= |paths|
    ensures forall j :: 0 <= j < |calls| ==> Ok(calls[j].result) == Transcribe(e, paths[j], probe(paths[j]))
    ensures results.Ok? && withCallback ==> forall j :: 0 <= j < |calls| ==> calls[j].result == results.value[j]
  {
    var acc: seq<RecognitionResult> := [];
    calls := [];
    var i := 0;
    while i < |paths|
      invariant 0 <= i <= |paths|
      invariant |acc| == i
      invariant forall k :: 0 <= k < i ==> Ok(acc[k]) == Transcribe(e, paths[k], probe(paths[k]))
      invariant |calls| == (if withCallback then i else 0)
      invariant forall j :: 0 <= j < |calls| ==> calls[j].current == j + 1 && calls[j].total == |paths|
      invariant forall j :: 0 <= j < |calls| ==> calls[j].result == acc[j]
    {
      var r := Transcribe(e, paths[i], probe(paths[i]));
      if r.Err? {
        results := Err(r.error);
        return;
      }
      acc := acc + [r.value];
      if withCallback {
        calls := calls + [Progress(i + 1, |paths|, r.value)];
      }
      i := i + 1;
    }
    results := Ok(acc);
  }

  // ---------------------------------------------------------------------------
  // Model loading and the engine singleton
  // ---------------------------------------------------------------------------

  /** The keyword arguments `_load_model` passes to `AutoModel`; absent keys are `None`. */
  datatype ModelArgs = ModelArgs(model: string, vadModel: string, puncModel: string, spkModel: Option<string>, device: Option<string>)

  /** What the environment decides during a load: whether funasr imported, whether
      torch reports an accelerator, and whether constructing the model raised. */
  datatype Runtime = Runtime(libraryInstalled: bool, cudaAvailable: bool, buildFailure: Option<string>)

  /** The attributes of the one `ASREngine` object: `_device`,
      `_enable_speaker_diarization`, whether `_initialized` was set, `_speaker_enabled`
      (absent before the first successful initialisation) and `_model`. */
  datatype EngineInstance = EngineInstance(
    device: string,
    diarization: bool,
    initialized: bool,
    speakerEnabled: Option<bool>,
    model: Option<ModelArgs>)

  const LibraryMissingError: string := "funasr 库未安装，请先安装: pip install funasr"

  /** `_load_model`: the stored device after the cuda fallback, and the arguments. */
  datatype Load = Load(instance: EngineInstance, failure: Option<string>)

  function LoadModel(e: EngineInstance, rt: Runtime): (l: Load)
    ensures !rt.libraryInstalled ==> l == Load(e, Some(LibraryMissingError))
    ensures rt.libraryInstalled ==>
      && l.instance.device == (if e.device == "cuda" && !rt.cudaAvailable then "cpu" else e.device)
      && l.failure == rt.buildFailure
    ensures l.failure.None? ==> (
      && l.instance.model.Some?
      && l.instance.model.value.model == "paraformer-zh"
      && l.instance.model.value.vadModel == "fsmn-vad"
      && l.instance.model.value.puncModel == "ct-punc"
      && l.instance.model.value.spkModel == (if e.diarization then Some("cam++") else None)
      && l.instance.model.value.device == (if l.instance.device == "cuda" then Some("cuda") else None))
    ensures l.failure.Some? ==> l.instance.model == e.model
    ensures l.instance.diarization == e.diarization && l.instance.initialized == e.initialized
      && l.instance.speakerEnabled == e.speakerEnabled
  {
    if !rt.libraryInstalled then Load(e, Some(LibraryMissingError))
    else
      var device := if e.device == "cuda" && !rt.cudaAvailable then "cpu" else e.device;
      var args := ModelArgs(
        "paraformer-zh", "fsmn-vad", "ct-punc",
        if e.diarization then Some("cam++") else None,
        if device == "cuda" then Some("cuda") else None);
      match rt.buildFailure
      case Some(m) => Load(e.(device := device), Some(m))
      case None => Load(e.(device := device, model := Some(args)), None)
  }

  /** The process-wide engine state: the class attribute `_instance` and whether the
      module global `_asr_engine` has been bound to it (it is only ever that object). */
  datatype Registry = Registry(instance: Option<EngineInstance>, bound: bool)

  const NoEngine := Registry(None, false)

  /** `_asr_engine` as the module sees it. */
  function Global(g: Registry): Option<EngineInstance> {
    if g.bound then g.instance else None
  }

  /** What the states reachable from `NoEngine` satisfy: the global is bound exactly
      after a successful initialisation, and an initialised engine has a model. */
  predicate Valid(g: Registry) {
    && (g.bound ==> g.instance.Some? && g.instance.value.initialized)
    && (g.instance.Some? && g.instance.value.initialized ==> g.bound)
    && (g.instance.Some? ==>
          (g.instance.value.initialized <==> g.instance.value.speakerEnabled.Some?)
          && (g.instance.value.initialized ==> g.instance.value.model.Some?))
  }

  /** `ASREngine(device, diarization)`: `__new__` reuses or creates the one instance,
      then `__init__` reloads unless it is initialised with the same device and flag. */
  datatype Construct = Construct(instance: EngineInstance, failure: Option<string>, loaded: bool)

  function ConstructEngine(existing: Option<EngineInstance>, device: string, diarization: bool, rt: Runtime): Construct {
    var base := if existing.None? then EngineInstance(device, diarization, false, None, None) else existing.value;
    var e := base.(diarization := diarization);
    if !e.initialized || e.device != device || e.speakerEnabled.GetOr(false) != diarization then
      var l := LoadModel(e.(device := device), rt);
      if l.failure.Some? then Construct(l.instance, l.failure, true)
      else Construct(l.instance.(initialized := true, speakerEnabled := Some(diarization)), None, true)
    else Construct(e, None, false)
  }

  /** The outcome of `get_asr_engine`: the new registry, the engine or the load error
      that propagated, and whether `_load_model` ran. */
  datatype Acquire = Acquire(registry: Registry, engine: Result<EngineInstance, EngineError>, loaded: bool)

  /** `get_asr_engine(device, enable_speaker_diarization)`. */
  function GetAsrEngine(g: Registry, device: string, diarization: bool, rt: Runtime): (a: Acquire)
    requires Valid(g)
    ensures Valid(a.registry)
    ensures a.engine.Ok? ==> (
      && Global(a.registry) == Some(a.engine.value)
      && a.engine.value.model.Some?
      && a.engine.value.speakerEnabled == Some(diarization))
    ensures a.engine.Ok? && a.loaded ==> a.engine.value.diarization == diarization
    ensures a.engine.Err? ==> a.loaded && a.registry.bound == g.bound
    ensures a.loaded <==>
      Global(g).None? || Global(g).value.device != device || Global(g).value.speakerEnabled.GetOr(false) != diarization
    ensures !a.loaded ==> a.registry == g && a.engine == Ok(Global(g).value)
  {
    var current := Global(g);
    if current.None? || current.value.device != device || current.value.speakerEnabled.GetOr(false) != diarization then
      var c := ConstructEngine(g.instance, device, diarization, rt);
      match c.failure
      case Some(m) => Acquire(Registry(Some(c.instance), g.bound), Err(LoadFailed(m)), c.loaded)
      case None => Acquire(Registry(Some(c.instance), true), Ok(c.instance), c.loaded)
    else Acquire(g, Ok(current.value), false)
  }

  /** As written: once a cuda request has fallen back to cpu, `_device` holds "cpu",
      so the next identical request differs from it and loads the model again. */
  lemma CudaFallbackReloadsAgain(g: Registry, diarization: bool, rt: Runtime)
    requires Valid(g)
    requires rt.libraryInstalled && !rt.cudaAvailable && rt.buildFailure.None?
    requires Global(g).None? || Global(g).value.device != "cuda"
    ensures GetAsrEngine(g, "cuda", diarization, rt).loaded
    ensures GetAsrEngine(g, "cuda", diarization, rt).engine.Ok?
    ensures GetAsrEngine(GetAsrEngine(g, "cuda", diarization, rt).registry, "cuda", diarization, rt).loaded
  {
    var a := GetAsrEngine(g, "cuda", diarization, rt);
    assert a.engine.value.device == "cpu";
  }

  /** As written: `__init__` stores the new diarization flag before `_load_model` raises,
      but `_speaker_enabled` keeps the old one. After a failed reload with diarization,
      a request without it matches `_speaker_enabled`, is served without a reload, and
      still transcribes with diarization on. */
  lemma FailedReloadKeepsDiarization(g: Registry, rt: Runtime, rt2: Runtime, path: string, probe: Probe)
    requires Valid(g)
    requires Global(g).Some? && Global(g).value.speakerEnabled == Some(false) && Global(g).value.device != "cuda"
    requires rt.libraryInstalled && rt.buildFailure.Some?
    requires probe.present && probe.output.Items? && |probe.output.items| > 0
    ensures var device := Global(g).value.device;
      var first := GetAsrEngine(g, device, true, rt);
      var second := GetAsrEngine(first.registry, device, false, rt2);
      && first.engine.Err?
      && !second.loaded
      && second.engine.Ok?
      && second.engine.value.diarization
      && Transcribe(second.engine.value, path, probe).Ok?
      && Transcribe(second.engine.value, path, probe).value.diarizationEnabled == Some(true)
      && Transcribe(second.engine.value, path, probe).value.speakerInfo.Some?
  {
  }

  /** The reuse policy the comment in `__init__` describes: reload only when the
      requested configuration changed. A cache keyed by the requested device and
      flag, evicted when a load fails. */
  datatype EngineCache = EngineCache(key: Option<(string, bool)>, engine: Option<EngineInstance>)

  /** A cached engine has a model and carries the diarization flag of its key. */
  predicate CacheValid(c: EngineCache) {
    c.engine.Some? ==> c.key.Some? && c.engine.value.model.Some? && c.engine.value.diarization == c.key.value.1
  }

  datatype CachedAcquire = CachedAcquire(cache: EngineCache, engine: Result<EngineInstance, EngineError>, loaded: bool)

  function AcquireKeyed(c: EngineCache, device: string, diarization: bool, rt: Runtime): (a: CachedAcquire)
    requires CacheValid(c)
    ensures CacheValid(a.cache)
    ensures a.loaded <==> c.engine.None? || c.key != Some((device, diarization))
    ensures a.engine.Ok? ==> a.cache.key == Some((device, diarization)) && a.cache.engine == Some(a.engine.value)
    ensures a.engine.Ok? ==> a.engine.value.model.Some?
    ensures a.engine.Ok? ==> a.engine.value.diarization == diarization
    ensures a.engine.Err? ==> a.cache == EngineCache(None, None)
    ensures !a.loaded ==> a.cache == c && a.engine == Ok(c.engine.value)
  {
    if c.engine.Some? && c.key == Some((device, diarization)) then
      CachedAcquire(c, Ok(c.engine.value), false)
    else
      var l := LoadModel(EngineInstance(device, diarization, false, None, None), rt);
      match l.failure
      case Some(m) => CachedAcquire(EngineCache(None, None), Err(LoadFailed(m)), true)
      case None =>
        var e := l.instance.(initialized := true, speakerEnabled := Some(diarization));
        CachedAcquire(EngineCache(Some((device, diarization)), Some(e)), Ok(e), true)
  }

  /** Corrected: after a failed load with diarization, a request without it gets an
      engine without it. */
  lemma FailedLoadThenPlainRequest(c: EngineCache, device: string, rt: Runtime, rt2: Runtime)
    requires CacheValid(c)
    requires rt.libraryInstalled && rt.buildFailure.Some?
    ensures AcquireKeyed(c, device, true, rt).engine.Ok? ==> c.key == Some((device, true))
    ensures var a := AcquireKeyed(AcquireKeyed(c, device, true, rt).cache, device, false, rt2);
      a.engine.Ok? ==> !a.engine.value.diarization
  {
  }

  /** Corrected: a repeated request reuses the engine, whatever device it fell back to. */
  lemma KeyedAcquireReuses(c: EngineCache, device: string, diarization: bool, rt: Runtime)
    requires CacheValid(c)
    ensures var a := AcquireKeyed(c, device, diarization, rt);
      a.engine.Ok? ==> AcquireKeyed(a.cache, device, diarization, rt) == CachedAcquire(a.cache, a.engine, false)
  {
  }
}
