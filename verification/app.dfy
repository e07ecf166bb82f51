/** The batch job behind the web API: the shared `processing_state`, the
    start and stop requests, the background worker, and the export request.
    The worker runs sequentially here; what other threads do while it runs
    comes in as an oracle saying whether a stop request arrived before each
    flag check. */
module App {
  import opened Wrappers
  import opened Seqs
  import opened PosixPath
  import opened AsrEngine
  import opened AudioProcessor
  import opened ResultExporter

  /** `processing_state`. */
  datatype ProcessingState = ProcessingState(
    isProcessing: bool,
    currentIndex: nat,
    total: nat,
    results: seq<RecognitionResult>,
    currentFile: string,
    device: string,
    diarization: bool)

  const DefaultDevice: string := "cpu"

  /** The state at start-up. */
  const InitialState: ProcessingState := ProcessingState(false, 0, 0, [], "", DefaultDevice, false)

  // ---------------------------------------------------------------------------
  // Start and stop
  // ---------------------------------------------------------------------------

  /** The body of a start request; an absent key is `None`. */
  datatype Request = Request(files: seq<AudioFileEntry>, device: Option<string>, diarization: Option<bool>)

  const NoFilesError: string := "没有提供音频文件"
  const BusyError: string := "已有任务在处理中"

  datatype StartOutcome = Rejected(error: string) | Accepted(paths: seq<string>)

  datatype Start = Start(state: ProcessingState, outcome: StartOutcome)

  function PathsOf(files: seq<AudioFileEntry>): (ps: seq<string>)
    ensures |ps| == |files|
    ensures forall k :: 0 <= k < |files| ==> ps[k] == files[k].path
  {
    seq(|files|, k requires 0 <= k < |files| => files[k].path)
  }

  /** The name shown for each path while it is processed, `os.path.basename`. */
  function Names(paths: seq<string>): (ns: seq<string>)
    ensures |ns| == |paths|
    ensures forall k :: 0 <= k < |paths| ==> ns[k] == Basename(paths[k])
  {
    seq(|paths|, k requires 0 <= k < |paths| => Basename(paths[k]))
  }

  /** `start_recognition`: an empty file list is refused first, then a request while a
      job is marked running; otherwise the state is reset for the new job and the
      worker is started on the files' paths. */
  function StartRecognition(s: ProcessingState, req: Request): (st: Start)
    ensures |req.files| == 0 ==> st == Start(s, Rejected(NoFilesError))
    ensures |req.files| > 0 && s.isProcessing ==> st == Start(s, Rejected(BusyError))
    ensures st.outcome.Accepted? <==> |req.files| > 0 && !s.isProcessing
    ensures st.outcome.Accepted? ==>
      && st.state.isProcessing
      && st.state.currentIndex == 0
      && st.state.total == |req.files|
      && st.state.results == []
      && st.state.currentFile == ""
      && st.state.device == req.device.GetOr(DefaultDevice)
      && st.state.diarization == req.diarization.GetOr(false)
      && st.outcome.paths == PathsOf(req.files)
  {
    if |req.files| == 0 then Start(s, Rejected(NoFilesError))
    else if s.isProcessing then Start(s, Rejected(BusyError))
    else
      var device := req.device.GetOr(DefaultDevice);
      var diarization := req.diarization.GetOr(false);
      Start(ProcessingState(true, 0, |req.files|, [], "", device, diarization), Accepted(PathsOf(req.files)))
  }

  /** `stop_recognition`: clears the running flag and nothing else. */
  function StopRecognition(s: ProcessingState): (t: ProcessingState)
    ensures !t.isProcessing
    ensures t.currentIndex == s.currentIndex && t.total == s.total && t.results == s.results
    ensures t.currentFile == s.currentFile && t.device == s.device && t.diarization == s.diarization
  {
    s.(isProcessing := false)
  }

  /** Stopping is idempotent: a second stop changes nothing. */
  lemma StopIdempotent(s: ProcessingState)
    ensures StopRecognition(StopRecognition(s)) == StopRecognition(s)
  {
  }

  /** No single-worker guarantee: right after a stop, whatever the old worker is
      doing, a new non-empty request is accepted and resets the shared state. */
  lemma StopThenResubmitAccepted(s: ProcessingState, req: Request)
    requires |req.files| > 0
    ensures StartRecognition(StopRecognition(s), req).outcome.Accepted?
    ensures StartRecognition(StopRecognition(s), req).state.results == []
  {
  }

  // ---------------------------------------------------------------------------
  // Marking file entries
  // ---------------------------------------------------------------------------

  /** Index of the first entry whose path is `path`. */
  function FirstMatch(files: seq<AudioFileEntry>, path: string): (m: Option<nat>)
    ensures m.Some? ==> m.value < |files| && files[m.value].path == path
    ensures m.Some? ==> forall j :: 0 <= j < m.value ==> files[j].path != path
    ensures m.None? ==> forall j :: 0 <= j < |files| ==> files[j].path != path
  {
    if |files| == 0 then None
    else if files[0].path == path then Some(0)
    else
      match FirstMatch(files[1..], path)
      case None => None
      case Some(k) => Some(k + 1)
  }

  /** The entry marked by the worker: completed on success, failed otherwise, with the result. */
  function Marked(f: AudioFileEntry, r: RecognitionResult): AudioFileEntry {
    f.(status := if r.success then Completed else Failed, result := Some(r))
  }

  /** The worker's marking loop: only the first entry with the processed path changes. */
  function MarkFile(files: seq<AudioFileEntry>, path: string, r: RecognitionResult): (out: seq<AudioFileEntry>)
    ensures |out| == |files|
    ensures forall k :: 0 <= k < |files| ==>
      out[k] == if FirstMatch(files, path) == Some(k) then Marked(files[k], r) else files[k]
  {
    match FirstMatch(files, path)
    case None => files
    case Some(k) => files[k := Marked(files[k], r)]
  }

  /** Marking a path that appears twice leaves its second entry untouched. */
  lemma DuplicatePathMarkedOnce(files: seq<AudioFileEntry>, i: nat, j: nat, r: RecognitionResult)
    requires i < j < |files| && files[i].path == files[j].path
    ensures MarkFile(files, files[j].path, r)[j] == files[j]
  {
    var m := FirstMatch(files, files[j].path);
    assert m.Some? && m.value <= i;
  }

  /** The marking done by the iterations that stored a result: the `k`-th stored result
      marks the entry of the `k`-th path. Nothing reads the entries in between. */
  function MarkAll(files: seq<AudioFileEntry>, paths: seq<string>, results: seq<RecognitionResult>): (out: seq<AudioFileEntry>)
    requires |results| <= |paths|
    ensures |out| == |files|
    decreases |results|
  {
    if |results| == 0 then files
    else MarkAll(MarkFile(files, paths[0], results[0]), paths[1..], results[1..])
  }

  /** An entry whose path was never processed keeps its status and result. */
  lemma {:induction false} UnprocessedEntryUntouched(files: seq<AudioFileEntry>, paths: seq<string>,
                                                     results: seq<RecognitionResult>, k: nat)
    requires |results| <= |paths| && k < |files|
    requires files[k].path !in paths[..|results|]
    ensures MarkAll(files, paths, results)[k] == files[k]
    decreases |results|
  {
    if |results| > 0 {
      assert paths[0] == paths[..|results|][0];
      var marked := MarkFile(files, paths[0], results[0]);
      assert marked[k] == files[k];
      assert paths[1..][..|results| - 1] == paths[..|results|][1..];
      UnprocessedEntryUntouched(marked, paths[1..], results[1..], k);
    }
  }

  /** Only the paths matter to `FirstMatch`. */
  lemma {:induction false} FirstMatchSamePaths(a: seq<AudioFileEntry>, b: seq<AudioFileEntry>, path: string)
    requires |a| == |b| && forall j :: 0 <= j < |a| ==> a[j].path == b[j].path
    ensures FirstMatch(a, path) == FirstMatch(b, path)
  {
    if |a| > 0 && a[0].path != path {
      FirstMatchSamePaths(a[1..], b[1..], path);
    }
  }

  /** The entry of the `k`-th processed path, when no later stored result has that path,
      ends up marked with the `k`-th result: completed exactly when it succeeded. */
  lemma {:induction false} MarkAllLast(files: seq<AudioFileEntry>, paths: seq<string>,
                                       results: seq<RecognitionResult>, k: nat)
    requires |results| <= |paths| && k < |results|
    requires forall j :: k < j < |results| ==> paths[j] != paths[k]
    requires FirstMatch(files, paths[k]).Some?
    ensures var i := FirstMatch(files, paths[k]).value;
      var f := MarkAll(files, paths, results)[i];
      && f.path == paths[k]
      && f.result == Some(results[k])
      && (f.status == Completed <==> results[k].success)
      && f == Marked(files[i], results[k])
    decreases |results|
  {
    var i := FirstMatch(files, paths[k]).value;
    var marked := MarkFile(files, paths[0], results[0]);
    assert marked[i] == files[i] || marked[i] == Marked(files[i], results[0]);
    if k == 0 {
      assert marked[i] == Marked(files[i], results[0]);
      var later := paths[1..][..|results| - 1];
      forall j | 0 <= j < |later|
        ensures later[j] != files[i].path
      {
        assert later[j] == paths[j + 1];
      }
      UnprocessedEntryUntouched(marked, paths[1..], results[1..], i);
    } else {
      FirstMatchSamePaths(marked, files, paths[k]);
      assert paths[1..][k - 1] == paths[k];
      forall j | k - 1 < j < |results[1..]|
        ensures paths[1..][j] != paths[1..][k - 1]
      {
        assert paths[1..][j] == paths[j + 1];
      }
      MarkAllLast(marked, paths[1..], results[1..], k - 1);
    }
  }

  // ---------------------------------------------------------------------------
  // The worker
  // ---------------------------------------------------------------------------

  /** How the worker thread ends: it leaves the loop (finished or stopped), or an
      exception escapes `transcribe` and ends the thread on the spot. */
  datatype WorkerEnd = Finished | Crashed(error: EngineError)

  /** A worker run: the final shared state, the state observed while each file was
      being transcribed, and how the thread ended. */
  datatype Run = Run(state: ProcessingState, trace: seq<ProcessingState>, end: WorkerEnd)

  /** Lines after the loop: the flag is cleared and the index set past the end. */
  function Finish(s: ProcessingState, count: nat): Run {
    Run(s.(isProcessing := false, currentIndex := count), [], Finished)
  }

  /** The loop of `process_batch` from index `i`. `stop(k)` says whether a stop request
      arrived before the flag check of iteration `k`; `transcribe` is the engine's
      outcome per path, an `Err` being an exception that escapes the thread. The
      trace holds one state per iteration that got past the flag check. */
  function Loop(s: ProcessingState, paths: seq<string>, names: seq<string>, i: nat,
                stop: nat -> bool, transcribe: string -> Result<RecognitionResult, EngineError>): (r: Run)
    requires i <= |paths| == |names|
    ensures i + |r.trace| <= |paths|
    ensures r.state.total == s.total && r.state.device == s.device && r.state.diarization == s.diarization
    ensures |r.state.results| == |s.results| + |r.trace| - (if r.end.Crashed? then 1 else 0)
    ensures r.end.Finished? ==> !r.state.isProcessing && r.state.currentIndex == |paths|
    ensures r.end.Crashed? ==>
      && |r.trace| >= 1
      && transcribe(paths[i + |r.trace| - 1]) == Err(r.end.error)
      && r.state == r.trace[|r.trace| - 1]
    ensures forall j :: 0 <= j < |r.trace| ==>
      && r.trace[j].isProcessing
      && r.trace[j].currentIndex == i + j
      && r.trace[j].currentFile == names[i + j]
      && r.trace[j].total == s.total
      && |r.trace[j].results| == |s.results| + j
    decreases |paths| - i
  {
    if i == |paths| then Finish(s, |paths|)
    else
      var checked := if stop(i) then StopRecognition(s) else s;
      if !checked.isProcessing then Finish(checked, |paths|)
      else
        var current := checked.(currentIndex := i, currentFile := names[i]);
        match transcribe(paths[i])
        case Err(e) => Run(current, [current], Crashed(e))
        case Ok(res) =>
          var next := current.(results := current.results + [res]);
          var rest := Loop(next, paths, names, i + 1, stop, transcribe);
          var trace := [current] + rest.trace;
          assert forall j :: 0 < j < |trace| ==> trace[j] == rest.trace[j - 1];
          Run(rest.state, trace, rest.end)
  }

  /** Results are only ever appended. */
  lemma {:induction false} LoopKeepsResults(s: ProcessingState, paths: seq<string>, names: seq<string>, i: nat,
                                            stop: nat -> bool, transcribe: string -> Result<RecognitionResult, EngineError>)
    requires i <= |paths| == |names|
    ensures s.results <= Loop(s, paths, names, i, stop, transcribe).state.results
    decreases |paths| - i
  {
    if i < |paths| {
      var checked := if stop(i) then StopRecognition(s) else s;
      if checked.isProcessing && transcribe(paths[i]).Ok? {
        var current := checked.(currentIndex := i, currentFile := names[i]);
        var res := transcribe(paths[i]).value;
        var next := current.(results := current.results + [res]);
        LoopKeepsResults(next, paths, names, i + 1, stop, transcribe);
        assert s.results <= next.results;
      }
    }
  }

  /** Results are only ever appended: the engine's result for each path the loop got
      through, in path order, each of which the engine returned without raising. */
  lemma {:induction false} LoopResults(s: ProcessingState, paths: seq<string>, names: seq<string>, i: nat,
                                       stop: nat -> bool, transcribe: string -> Result<RecognitionResult, EngineError>)
    requires i <= |paths| == |names|
    ensures var r := Loop(s, paths, names, i, stop, transcribe);
      var m := |r.state.results| - |s.results|;
      && s.results <= r.state.results
      && i + m <= |paths|
      && forall k :: i <= k < i + m ==> transcribe(paths[k]) == Ok(r.state.results[|s.results| + (k - i)])
    decreases |paths| - i
  {
    LoopKeepsResults(s, paths, names, i, stop, transcribe);
    if i < |paths| {
      var checked := if stop(i) then StopRecognition(s) else s;
      if checked.isProcessing && transcribe(paths[i]).Ok? {
        var current := checked.(currentIndex := i, currentFile := names[i]);
        var res := transcribe(paths[i]).value;
        var next := current.(results := current.results + [res]);
        LoopResults(next, paths, names, i + 1, stop, transcribe);
        var r := Loop(s, paths, names, i, stop, transcribe);
        var rest := Loop(next, paths, names, i + 1, stop, transcribe);
        assert r.state == rest.state;
        assert r.state.results[|s.results|] == res;
        var m := |r.state.results| - |s.results|;
        forall k | i < k < i + m
          ensures transcribe(paths[k]) == Ok(r.state.results[|s.results| + (k - i)])
        {
          assert |next.results| + (k - (i + 1)) == |s.results| + (k - i);
        }
      }
    }
  }

  /** No stop request had arrived before any iteration the loop got through. */
  lemma {:induction false} LoopNotStopped(s: ProcessingState, paths: seq<string>, names: seq<string>, i: nat,
                                          stop: nat -> bool, transcribe: string -> Result<RecognitionResult, EngineError>)
    requires i <= |paths| == |names|
    ensures var r := Loop(s, paths, names, i, stop, transcribe);
      forall k :: i <= k < i + |r.trace| ==> !stop(k)
    decreases |paths| - i
  {
    if i < |paths| {
      var checked := if stop(i) then StopRecognition(s) else s;
      if checked.isProcessing && transcribe(paths[i]).Ok? {
        var current := checked.(currentIndex := i, currentFile := names[i]);
        var res := transcribe(paths[i]).value;
        var next := current.(results := current.results + [res]);
        LoopNotStopped(next, paths, names, i + 1, stop, transcribe);
      }
    }
  }

  /** The loop leaves early only because a stop request arrived, or because the job
      was not marked running when the worker first looked. */
  lemma {:induction false} LoopBreak(s: ProcessingState, paths: seq<string>, names: seq<string>, i: nat,
                                     stop: nat -> bool, transcribe: string -> Result<RecognitionResult, EngineError>)
    requires i <= |paths| == |names|
    ensures var r := Loop(s, paths, names, i, stop, transcribe);
      r.end.Finished? && i + |r.trace| < |paths| ==>
        stop(i + |r.trace|) || (|r.trace| == 0 && !s.isProcessing)
    decreases |paths| - i
  {
    if i < |paths| {
      var checked := if stop(i) then StopRecognition(s) else s;
      if checked.isProcessing && transcribe(paths[i]).Ok? {
        var current := checked.(currentIndex := i, currentFile := names[i]);
        var res := transcribe(paths[i]).value;
        var next := current.(results := current.results + [res]);
        LoopBreak(next, paths, names, i + 1, stop, transcribe);
      }
    }
  }

  /** The thread body from the reset state: acquire the engine, then run the loop.
      A load failure in `get_asr_engine` also escapes the thread. */
  datatype Batch = Batch(registry: Registry, run: Run, files: seq<AudioFileEntry>)

  function ProcessBatch(s: ProcessingState, files: seq<AudioFileEntry>, paths: seq<string>, g: Registry, rt: Runtime,
                        stop: nat -> bool, probe: string -> Probe): (b: Batch)
    requires Valid(g)
    ensures Valid(b.registry)
    ensures |b.files| == |files|
    ensures GetAsrEngine(g, s.device, s.diarization, rt).engine.Err? ==>
      b.run == Run(s, [], Crashed(GetAsrEngine(g, s.device, s.diarization, rt).engine.error))
    ensures GetAsrEngine(g, s.device, s.diarization, rt).engine.Ok? ==>
      var e := GetAsrEngine(g, s.device, s.diarization, rt).engine.value;
      b.run == Loop(s, paths, Names(paths), 0, stop, p => Transcribe(e, p, probe(p)))
    ensures s.results <= b.run.state.results && |b.run.state.results| <= |s.results| + |paths|
    ensures b.files == MarkAll(files, paths, b.run.state.results[|s.results|..])
  {
    var a := GetAsrEngine(g, s.device, s.diarization, rt);
    match a.engine
    case Err(err) => Batch(a.registry, Run(s, [], Crashed(err)), files)
    case Ok(e) =>
      var r := Loop(s, paths, Names(paths), 0, stop, p => Transcribe(e, p, probe(p)));
      LoopKeepsResults(s, paths, Names(paths), 0, stop, p => Transcribe(e, p, probe(p)));
      Batch(a.registry, r, MarkAll(files, paths, r.state.results[|s.results|..]))
  }

  /** If the engine loads and every file is still there, the worker ends normally and
      clears the running flag. */
  lemma {:induction false} LoopWithoutErrorsFinishes(s: ProcessingState, paths: seq<string>, names: seq<string>, i: nat,
                                                     stop: nat -> bool, transcribe: string -> Result<RecognitionResult, EngineError>)
    requires i <= |paths| == |names|
    requires forall k :: i <= k < |paths| ==> transcribe(paths[k]).Ok?
    ensures Loop(s, paths, names, i, stop, transcribe).end.Finished?
    decreases |paths| - i
  {
    if i < |paths| {
      var checked := if stop(i) then StopRecognition(s) else s;
      if checked.isProcessing {
        var current := checked.(currentIndex := i, currentFile := names[i]);
        var res := transcribe(paths[i]).value;
        var next := current.(results := current.results + [res]);
        LoopWithoutErrorsFinishes(next, paths, names, i + 1, stop, transcribe);
      }
    }
  }

  lemma PresentFilesFinish(s: ProcessingState, files: seq<AudioFileEntry>, paths: seq<string>, g: Registry, rt: Runtime,
                           stop: nat -> bool, probe: string -> Probe)
    requires Valid(g)
    requires GetAsrEngine(g, s.device, s.diarization, rt).engine.Ok?
    requires forall k :: 0 <= k < |paths| ==> probe(paths[k]).present
    ensures ProcessBatch(s, files, paths, g, rt, stop, probe).run.end.Finished?
    ensures !ProcessBatch(s, files, paths, g, rt, stop, probe).run.state.isProcessing
  {
    var e := GetAsrEngine(g, s.device, s.diarization, rt).engine.value;
    LoopWithoutErrorsFinishes(s, paths, Names(paths), 0, stop, p => Transcribe(e, p, probe(p)));
  }

  /** As written: a file that vanished between the scan and its turn ends the thread
      with the running flag still set, so every later start request is refused as
      busy until someone sends a stop. */
  lemma MissingFileLeavesJobRunning(s: ProcessingState, files: seq<AudioFileEntry>, paths: seq<string>, g: Registry, rt: Runtime,
                                    probe: string -> Probe, req: Request)
    requires Valid(g)
    requires s.isProcessing
    requires GetAsrEngine(g, s.device, s.diarization, rt).engine.Ok?
    requires |paths| > 0 && !probe(paths[0]).present
    requires |req.files| > 0
    ensures ProcessBatch(s, files, paths, g, rt, _ => false, probe).run.end == Crashed(FileNotFound(paths[0]))
    ensures ProcessBatch(s, files, paths, g, rt, _ => false, probe).run.state.isProcessing
    ensures StartRecognition(ProcessBatch(s, files, paths, g, rt, _ => false, probe).run.state, req).outcome
      == Rejected(BusyError)
  {
    var r := ProcessBatch(s, files, paths, g, rt, _ => false, probe).run;
    assert |r.trace| >= 1;
  }

  /** A job started from the reset state and stopped before iteration `k` has exactly
      `k` results, one per path before `k` in order, when nothing raised. */
  lemma StoppedAtKeepsPrefix(s: ProcessingState, paths: seq<string>, names: seq<string>, k: nat,
                             stop: nat -> bool, transcribe: string -> Result<RecognitionResult, EngineError>)
    requires s.isProcessing && s.results == []
    requires k < |paths| == |names| && stop(k)
    requires forall j :: 0 <= j < k ==> !stop(j) && transcribe(paths[j]).Ok?
    ensures |Loop(s, paths, names, 0, stop, transcribe).state.results| == k
    ensures Loop(s, paths, names, 0, stop, transcribe).end.Finished?
  {
    var r := Loop(s, paths, names, 0, stop, transcribe);
    var n := |r.trace|;
    LoopNotStopped(s, paths, names, 0, stop, transcribe);
    LoopBreak(s, paths, names, 0, stop, transcribe);
    if n > k {
      assert false;
    }
    if r.end.Crashed? {
      assert false;
    }
  }

  // ---------------------------------------------------------------------------
  // The corrected worker
  // ---------------------------------------------------------------------------

  /** The failed result recorded for a file whose transcription raised. */
  function FailedResult(path: string, e: EngineError): (r: RecognitionResult)
    ensures !r.success && r.audioPath == path && r.error == Some(Message(e))
  {
    RecognitionResult(false, "", path, 0.0, Some(Message(e)), None, None)
  }

  /** The outcome recorded for one path: the engine's result, or a failed result. */
  function Outcome(path: string, o: Result<RecognitionResult, EngineError>): RecognitionResult {
    match o
    case Ok(res) => res
    case Err(e) => FailedResult(path, e)
  }

  /** The loop with each transcription guarded: an exception becomes a failed result
      for that file, so the loop always reaches the lines after it. */
  function GuardedLoop(s: ProcessingState, paths: seq<string>, names: seq<string>, i: nat,
                       stop: nat -> bool, transcribe: string -> Result<RecognitionResult, EngineError>): (r: Run)
    requires i <= |paths| == |names|
    ensures r.end.Finished?
    ensures !r.state.isProcessing && r.state.currentIndex == |paths|
    ensures i + |r.trace| <= |paths|
    ensures |r.state.results| == |s.results| + |r.trace|
    ensures s.isProcessing && (forall k :: i <= k < |paths| ==> !stop(k)) ==> |r.trace| == |paths| - i
    decreases |paths| - i
  {
    if i == |paths| then Finish(s, |paths|)
    else
      var checked := if stop(i) then StopRecognition(s) else s;
      if !checked.isProcessing then Finish(checked, |paths|)
      else
        var current := checked.(currentIndex := i, currentFile := names[i]);
        var res := Outcome(paths[i], transcribe(paths[i]));
        var next := current.(results := current.results + [res]);
        var rest := GuardedLoop(next, paths, names, i + 1, stop, transcribe);
        Run(rest.state, [current] + rest.trace, rest.end)
  }

  /** The guarded loop records one outcome per path it reached, in path order: the
      engine's result, or a failed result carrying the exception's message. */
  lemma {:induction false} GuardedResults(s: ProcessingState, paths: seq<string>, names: seq<string>, i: nat,
                                          stop: nat -> bool, transcribe: string -> Result<RecognitionResult, EngineError>)
    requires i <= |paths| == |names|
    ensures var r := GuardedLoop(s, paths, names, i, stop, transcribe);
      && s.results <= r.state.results
      && forall k :: i <= k < i + |r.trace| ==>
           r.state.results[|s.results| + (k - i)] == Outcome(paths[k], transcribe(paths[k]))
    decreases |paths| - i
  {
    if i < |paths| {
      var checked := if stop(i) then StopRecognition(s) else s;
      if checked.isProcessing {
        var current := checked.(currentIndex := i, currentFile := names[i]);
        var res := Outcome(paths[i], transcribe(paths[i]));
        var next := current.(results := current.results + [res]);
        GuardedResults(next, paths, names, i + 1, stop, transcribe);
        var r := GuardedLoop(s, paths, names, i, stop, transcribe);
        var rest := GuardedLoop(next, paths, names, i + 1, stop, transcribe);
        assert r.state == rest.state && |r.trace| == 1 + |rest.trace|;
        assert r.state.results[|s.results|] == res;
        forall k | i < k < i + |r.trace|
          ensures r.state.results[|s.results| + (k - i)] == Outcome(paths[k], transcribe(paths[k]))
        {
          assert |next.results| + (k - (i + 1)) == |s.results| + (k - i);
        }
      }
    }
  }

  /** The corrected thread body: the engine comes from a cache keyed by the requested
      configuration, and a load failure ends the job cleanly with no results. */
  datatype GuardedBatch = GuardedBatch(cache: EngineCache, run: Run, files: seq<AudioFileEntry>)

  function GuardedProcessBatch(s: ProcessingState, files: seq<AudioFileEntry>, paths: seq<string>, c: EngineCache, rt: Runtime,
                               stop: nat -> bool, probe: string -> Probe): (b: GuardedBatch)
    requires CacheValid(c)
    ensures CacheValid(b.cache)
    ensures |b.files| == |files|
    ensures b.run.end.Finished? && !b.run.state.isProcessing && b.run.state.currentIndex == |paths|
    ensures s.isProcessing && (forall k :: 0 <= k < |paths| ==> !stop(k)) && AcquireKeyed(c, s.device, s.diarization, rt).engine.Ok? ==>
      |b.run.state.results| == |s.results| + |paths|
  {
    var a := AcquireKeyed(c, s.device, s.diarization, rt);
    match a.engine
    case Err(_) => GuardedBatch(a.cache, Finish(s, |paths|), files)
    case Ok(e) =>
      var r := GuardedLoop(s, paths, Names(paths), 0, stop, p => Transcribe(e, p, probe(p)));
      GuardedBatch(a.cache, r, MarkAll(files, paths, r.state.results[|s.results|..]))
  }

  /** Corrected: after any guarded run, even one where files vanished or the model
      failed to load, the next request is accepted. */
  lemma GuardedRunAcceptsNext(s: ProcessingState, files: seq<AudioFileEntry>, paths: seq<string>, c: EngineCache, rt: Runtime,
                              stop: nat -> bool, probe: string -> Probe, req: Request)
    requires CacheValid(c)
    requires |req.files| > 0
    ensures StartRecognition(GuardedProcessBatch(s, files, paths, c, rt, stop, probe).run.state, req).outcome.Accepted?
  {
  }

  // ---------------------------------------------------------------------------
  // Export request
  // ---------------------------------------------------------------------------

  const NothingToExportError: string := "没有可导出的结果"

  /** The export route: nothing to do for an empty list; otherwise the per-result
      reports, then the summary, whose failed write makes the request fail after
      the reports were written. */
  datatype ExportOutcome =
    | NothingToExport
    | SummaryFailed(written: seq<ReportFile>)
    | Exported(written: seq<ReportFile>, summary: ReportFile, exportedCount: nat)

  function ExportResults(results: seq<RecognitionResult>, dir: string, env: ExportEnv): (o: ExportOutcome)
    ensures |results| == 0 <==> o.NothingToExport?
    ensures o.Exported? ==> o.exportedCount == |o.written| <= Count(Exportable, results)
    ensures o.Exported? ==> o.summary.path == SummaryPath(dir, env.stamp)
    ensures o.Exported? || o.SummaryFailed? ==> o.written == ExportBatch(results, dir, env)
    ensures |results| > 0 ==> (o.Exported? <==> env.writable(SummaryPath(dir, env.stamp)))
  {
    if |results| == 0 then NothingToExport
    else
      var written := ExportBatch(results, dir, env);
      var summary := CreateSummary(results, dir, env);
      if env.writable(summary.path) then Exported(written, summary, |written|)
      else SummaryFailed(written)
  }
}
