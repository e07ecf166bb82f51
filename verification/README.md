# Fun-ASR batch transcription: the job core, in Dafny

The system transcribes a folder of audio recordings through a small web API. A
folder scan lists the audio files. A start request resets the shared
`processing_state` and starts a background worker. The worker feeds the files one
by one to the recognition engine, which wraps an external speech model. The
worker stops early when a stop request clears the running flag. An export
request writes one Markdown report per usable transcript, plus a summary of the
whole batch.

This project models that core as pure functions over immutable data:

- `PosixPath` (posix_path.dfy): `os.path.basename`, `os.path.splitext`,
  `os.path.join` and ASCII `str.lower`, as the other modules use them.
- `Decimal` (decimal.dfy): `str(int)`, two-digit padding, and splitting on `:`.
- `Seqs` (seqs.dfy): filtering, counting and de-duplication.
- `Config` (config.dfy): the extension allow-list.
- `AsrEngine` (asr_engine.dfy): result normalisation in `transcribe`,
  `batch_transcribe`, model loading with its cuda fallback, and the engine
  singleton's reload decision.
- `AudioProcessor` (audio_processor.dfy): the audio-file filter, the folder scan
  over an abstract listing, the file entry, and `format_duration`.
- `ResultExporter` (result_exporter.dfy): report names, report layout, the batch
  export and the summary.
- `App` (app.dfy): `processing_state`, the start and stop requests, the worker
  loop, and the export request.

All `.dfy` files form one program. They verify together with
`dafny verify --resource-limit 2000000 --verification-time-limit 0 *.dfy`. The
proofs are sized by that resource limit, so the time limit is switched off.

The model takes its external inputs as parameters:

- **Worker loop.** The loop is a recursive function over the path index. What
  other threads do comes in as an oracle `stop(i)`, which says whether a stop
  request arrived before the flag check of iteration `i`. The engine's outcome per
  path also comes in: a result, or an exception that escapes the thread.
- **Engine.** The speech model's output, whether a file exists, and the elapsed
  time are inputs, bundled as a `Probe`. Whether funasr imported, whether an
  accelerator is present, and whether building the model failed are also inputs,
  bundled as a `Runtime`.
- **Folder scan.** The scan reads a `Listing`: missing, not a directory, or the
  walked files with their sizes.
- **File writes.** A write returns the path and the content that would be
  written. The clock strings, file-size strings, float rendering, and whether a
  write goes through come from an `ExportEnv`.

Four behaviours of the code that the model keeps as they are:

- **Speaker order.** `transcribe` builds the speaker list from a `set`
  (backend/asr_engine.py:174-176), so its order is unspecified. The model lists
  speakers in first-seen order, one admissible order. No contract depends on it.
- **Exceptions from `transcribe`.** `transcribe` raises for a missing file and for
  an unloaded model (backend/asr_engine.py:129, 132). The worker catches neither,
  so one file can end the whole batch.
- **One worker at a time.** A stop clears the running flag at once. A new batch is
  then accepted while the old worker may still be busy
  (`App.StopThenResubmitAccepted`).
- **Speakers in reports.** The report template has no speaker section, even when
  diarization is on.

## Model

| member | source | states |
|---|---|---|
| AsrEngine.Segments | backend/asr_engine.py:163-169 | one reshaped sentence per `sentence_info` entry, same order, with "unknown"/""/0/0 for missing keys |
| AsrEngine.DistinctLabels | backend/asr_engine.py:174-176 | the speaker list holds each label exactly once, and its length is the size of the label set |
| AsrEngine.Diarize | backend/asr_engine.py:158-176 | the sentences keep length and order; the speaker list has no duplicates and holds exactly the sentences' speakers; the count equals the list's length and is at most the number of sentences |
| AsrEngine.Transcribe | backend/asr_engine.py:128-195 | a missing file raises not-found and an unloaded model raises, before the model runs; otherwise a result for that path: success exactly when the model returned a non-empty list; then the first item's text (default "") and the speaker fields exactly when diarization is on, the speaker fields being the diarization of the first item's `sentence_info` (default empty); a model exception gives its message as the error; empty or no output gives the no-speech error |
| AsrEngine.BatchTranscribe | backend/asr_engine.py:212-222 | returns a list exactly when no path raises; then one result per path in order, each the one `transcribe` gives; otherwise the error of the first raising path, after one callback per earlier path; callbacks carry (i+1, total) and, when a list is returned, the result at the same position |
| AsrEngine.LoadModel | backend/asr_engine.py:67-111 | missing funasr fails and changes nothing; cuda without an accelerator stores "cpu"; a successful load passes the three fixed sub-models, `spk_model="cam++"` exactly when diarization is on, and `device="cuda"` exactly when the stored device is cuda; a failed build keeps the old model |
| AsrEngine.GetAsrEngine | backend/asr_engine.py:234-248 | reloads exactly when no engine is bound, or the device or diarization flag differs from the bound engine's; a returned engine is the bound global, has a model and records the requested flag; a load failure propagates without binding; without a reload, the bound engine is returned as it is and the registry is unchanged; the registry invariant is kept |
| AsrEngine.CudaFallbackReloadsAgain | backend/asr_engine.py:78-86 | as written: a second identical cuda request on a host without an accelerator loads the model again |
| AsrEngine.AcquireKeyed | backend/asr_engine.py:49-55 | corrected cache: loads exactly when nothing is cached under the requested (device, flag); a returned engine is cached under that key and has the requested diarization flag; without a load, the cached engine is returned and the cache is unchanged; a failure empties the cache |
| AsrEngine.KeyedAcquireReuses | backend/asr_engine.py:50-55 | corrected: repeating a successful request reuses the engine without loading |
| AsrEngine.FailedReloadKeepsDiarization | backend/asr_engine.py:49-55 | as written: after a reload with diarization fails, a request without it is served without a reload by an engine that still diarizes |
| AsrEngine.FailedLoadThenPlainRequest | backend/asr_engine.py:49-55 | corrected: after a failed load with diarization, a request without it never gets an engine that diarizes |
| AudioProcessor.FormatsAreExtensions | backend/utils/config.py:16 | every allow-list entry is a dot followed by non-separator, non-dot characters |
| AudioProcessor.AudioFileByName | backend/audio_processor.py:139-140 | the filter depends only on the last path component, and ignores letter case |
| AudioProcessor.AudioFileIff | backend/audio_processor.py:139-140 | a path ending in an allowed extension, in any case, passes exactly when its file name has a non-dot character before the extension |
| AudioProcessor.LeadingDotNameIsNotAudio | backend/audio_processor.py:139-140 | a file named only `.wav` has no extension and is not audio |
| AudioProcessor.LastExtensionDecides | backend/audio_processor.py:139-140 | with several extensions only the last one decides |
| AudioProcessor.GetAudioInfo | backend/audio_processor.py:62-80 | not-found exactly when the file is gone; else a pending entry with no result, the path, its size, its base name, and the lower-cased extension |
| AudioProcessor.EntryExtensionIsAllowed | backend/audio_processor.py:72-80 | the entry's extension is in the allow-list exactly when the path passes `is_audio_file` |
| AudioProcessor.NameIsAudioIsAudioFile | backend/audio_processor.py:39-42 | the scan's test on the walked name agrees with `is_audio_file` on the joined path |
| AudioProcessor.NameFilterIsAudioFilter | backend/audio_processor.py:36-44 | the scan keeps exactly the files `is_audio_file` accepts, and needs a size for exactly those |
| AudioProcessor.CollectSucceeds | backend/audio_processor.py:36-44 | the walk loop succeeds exactly when every kept file could be stat'ed |
| AudioProcessor.CollectPaths | backend/audio_processor.py:36-44 | a successful walk lists the kept paths in walk order |
| AudioProcessor.CollectFresh | backend/audio_processor.py:39-44 | every entry of a successful walk passed the filter, is pending, has no result, is named by its path's base name, and carries the lower-cased extension of its path |
| AudioProcessor.CollectFromStats | backend/audio_processor.py:36-44 | every entry's path and size are those of a walked file's stat |
| AudioProcessor.CollectFails | backend/audio_processor.py:36-44 | a failing walk reports the first kept file that could not be stat'ed |
| AudioProcessor.KeptMembership | backend/audio_processor.py:36-44 | a path is reported exactly when it is in the listing and passes the filter |
| AudioProcessor.ScanFolder | backend/audio_processor.py:26-49 | not-found for a missing folder, a value error for a non-directory; otherwise success exactly when every audio file could be stat'ed, with the audio paths in walk order, all pending with no result and named by their base name; a failure names the first missing audio file |
| AudioProcessor.ScanEntriesAreAudio | backend/audio_processor.py:39-44 | every scanned entry comes from a walked file's stat, and its stored extension is lower-case and in the allow-list |
| AudioProcessor.NoAudioScansEmpty | backend/audio_processor.py:32-49 | a listing without audio files scans to the empty list |
| AudioProcessor.FormatDuration | backend/audio_processor.py:116-117 | `None` renders as the unknown label |
| AudioProcessor.ClockArithmetic | backend/audio_processor.py:119-121 | minutes and seconds are below 60 and recombine with the hours to the input |
| AudioProcessor.ClockFields | backend/audio_processor.py:123-126 | the clock has an hour field exactly when the hours are positive; every field is two-digit padded |
| AudioProcessor.ClockRoundTrip | backend/audio_processor.py:123-126 | reading the clock text back gives the recombined fields |
| AudioProcessor.DurationRoundTrip | backend/audio_processor.py:114-126 | reading back a rendered duration gives the seconds when non-negative, the seconds modulo an hour when negative, and nothing for the unknown label |
| AudioProcessor.HourExample | backend/audio_processor.py:119-124 | 3725 seconds render as "01:02:05" |
| AudioProcessor.MinuteExample | backend/audio_processor.py:125-126 | 65 seconds render as "01:05" |
| ResultExporter.OutputName | backend/result_exporter.py:34-37 | the report name has no path separator, so it lands directly in the output folder |
| ResultExporter.OutputNameCollides | backend/result_exporter.py:34-38 | two results share a report name exactly when their audio names share a stem |
| ResultExporter.SameStemSameReport | backend/result_exporter.py:34-38 | recordings that differ only in extension or folder overwrite each other's report, named stem + ".md" |
| ResultExporter.ReportPathName | backend/result_exporter.py:38 | the report path's last component is the derived name |
| ResultExporter.RenderContainsBody | backend/result_exporter.py:95-129 | the section's text appears verbatim in the rendered report |
| ResultExporter.RenderStart | backend/result_exporter.py:95-98 | a report opens with its title line, a blank line, then its first two fields |
| ResultExporter.RenderEnd | backend/result_exporter.py:101-128 | a report ends with its section heading, its text, then the signature exactly when signed |
| ResultExporter.RenderHasField | backend/result_exporter.py:97-120 | every field has its own `**key**: value` line in the report |
| ResultExporter.FailureReportLayout | backend/result_exporter.py:94-105 | a failure report opens with title, name and path, has the 失败 status line and the time line, and ends with the error section and no signature |
| ResultExporter.SuccessReportLayout | backend/result_exporter.py:106-129 | a success report opens with title, name and path, has the size, 成功 status, time and duration lines, and ends with the transcript and the signature |
| ResultExporter.FormatMarkdown | backend/result_exporter.py:74-131 | the report opens with the title, the file name and the path; its status line says 成功 on success and 失败 on failure; it has the time line; on success also the size line (`未知` for a vanished file) and the duration in seconds; it ends with the transcript and the signature on success, and with the error and nothing after it on failure |
| ResultExporter.ExportedResults | backend/result_exporter.py:63-69 | only results that succeeded with non-empty text and whose write went through, at most as many as are exportable |
| ResultExporter.ExportedIsFilter | backend/result_exporter.py:63-69 | the exported results are exactly the exportable results whose write goes through, in input order: a failed write drops that result and nothing else |
| ResultExporter.ExportBatch | backend/result_exporter.py:50-71 | one report per exported result, in order, written to its derived path |
| ResultExporter.ExportAllWritten | backend/result_exporter.py:63-67 | when every write goes through, exactly the exportable results are exported, in input order |
| ResultExporter.NoReportForEmpty | backend/result_exporter.py:64 | failed results and empty transcripts never get a report |
| ResultExporter.Snippet | backend/result_exporter.py:193 | the first 100 characters, plus "..." exactly when the text is longer; at most 103 characters |
| ResultExporter.Average | backend/result_exporter.py:177 | zero for an empty batch, otherwise the mean time |
| ResultExporter.Summarize | backend/result_exporter.py:161-197 | the success count counts successes and the failed count failures; the two add up to the total; one entry per result numbered from 1 in input order, with a snippet on success and the error on failure |
| ResultExporter.EntriesContainEach | backend/result_exporter.py:183-197 | every entry's block appears in the rendered list |
| ResultExporter.SummaryListsAll | backend/result_exporter.py:167-197 | every entry's block appears in the rendered summary |
| ResultExporter.SummaryPathName | backend/result_exporter.py:159 | the summary is named summary_<stamp>.md inside the output folder |
| ResultExporter.SummaryShowsStats | backend/result_exporter.py:166-176 | a rendered summary opens with its title and generation time and carries a labelled line for each of its five figures |
| ResultExporter.CreateSummary | backend/result_exporter.py:143-200 | the summary goes to the stamped path and opens with its title and time; it shows the number of results, the number that succeeded, the number that failed, the total time and the guarded mean time, each on its labelled line; it lists every result, failures included |
| App.PathsOf | backend/app.py:145 | one path per submitted entry, in order |
| App.Names | backend/app.py:158 | the shown name of each path is its base name |
| App.StartRecognition | backend/app.py:115-142 | an empty list is refused first, then a request while running, both leaving the state unchanged; a request is accepted exactly otherwise, and then resets the state to running, index 0, total = file count, no results, and the requested or default options |
| App.StopRecognition | backend/app.py:322 | clears the running flag and leaves every other field unchanged |
| App.StopIdempotent | backend/app.py:322 | a second stop changes nothing |
| App.StopThenResubmitAccepted | backend/app.py:127-142 | after a stop, a new non-empty request is accepted and wipes the results, whatever the old worker is doing |
| App.FirstMatch | backend/app.py:165-169 | the index of the first entry with the processed path, or none if no entry has it |
| App.MarkFile | backend/app.py:165-169 | only the first entry with the path changes: completed exactly when the result succeeded, failed otherwise, holding the result |
| App.DuplicatePathMarkedOnce | backend/app.py:165-169 | a second entry with the same path stays untouched |
| App.MarkAll | backend/app.py:152-169 | marking keeps the number of entries |
| App.MarkAllLast | backend/app.py:163-169 | the first entry with a processed path, when no later result has that path, ends up with that result, completed exactly when it succeeded and failed otherwise; its other fields are kept |
| App.UnprocessedEntryUntouched | backend/app.py:165-169 | an entry whose path was never processed keeps its status and result |
| App.Loop | backend/app.py:152-173 | each iteration past the flag check runs while marked running, at index i, showing the base name of path i, with i results so far; a finished loop clears the flag and sets the index to the path count; a crash happens on the path whose transcription raised, with the flag still set; total and options are kept |
| App.LoopKeepsResults | backend/app.py:162 | the results present when the loop starts stay, in place, at the front of the list |
| App.LoopResults | backend/app.py:152-162 | results are only appended: the engine's result for each path reached, in path order |
| App.LoopNotStopped | backend/app.py:153-155 | no stop had arrived before any iteration the loop got through |
| App.LoopBreak | backend/app.py:153-155 | the loop leaves early only because a stop arrived, or because the job was not running to begin with |
| App.StoppedAtKeepsPrefix | backend/app.py:152-162 | a job stopped before iteration k finishes with exactly k results |
| App.ProcessBatch | backend/app.py:148-173 | a load failure ends the thread at once; otherwise the loop runs with that engine's `transcribe`; the registry invariant is kept; the results only grow, by at most one per path; the entry list keeps its length and is marked with exactly the results this run stored, in order |
| App.LoopWithoutErrorsFinishes | backend/app.py:152-173 | when no transcription raises, the loop reaches the lines after it |
| App.PresentFilesFinish | backend/app.py:148-173 | when the engine loads and every file exists, the worker finishes and clears the flag |
| App.MissingFileLeavesJobRunning | backend/app.py:161 | as written: a vanished file ends the thread with the flag set, so the next start is refused as busy |
| App.FailedResult | backend/app.py:161 | corrected: a raised exception becomes a failed result for that path carrying its message |
| App.GuardedLoop | backend/app.py:152-173 | corrected: always finishes, clearing the flag and setting the index to the path count; one result per iteration, all paths when running and never stopped |
| App.GuardedResults | backend/app.py:161-162 | corrected: one outcome per reached path, in order: the engine's result or the failed result |
| App.GuardedProcessBatch | backend/app.py:148-173 | corrected: always finishes and clears the flag, even when the model fails to load; one result per path when running and never stopped |
| App.GuardedRunAcceptsNext | backend/app.py:171-173 | corrected: after any guarded run the next non-empty request is accepted |
| App.ExportResults | backend/app.py:230-253 | nothing to export exactly for an empty list; otherwise the batch reports, then the summary; success exactly when the summary write goes through; the exported count is the number of reports written, at most the number of exportable results |

## Left out

- Flask routing, JSON parsing and HTTP status codes: transport glue. A body that is not JSON, and the start route's catch-all handler, are not modelled.
- Threads and races on `processing_state`: the worker runs sequentially here, and another thread's stop request comes in through the `stop` oracle.
- The scan-folder, progress, model-status and device-status routes: each is a thin wrapper. The progress route returns a copy of the state. The model-status route calls `get_asr_engine`. The device-status route asks torch.
- `AutoModel`, the torch accelerator probe and `time.time()`: foreign calls. They are inputs (`Probe`, `Runtime`).
- `get_audio_duration`: it calls librosa, a foreign library.
- `format_size`, `_format_size` and `size_mb`: float formatting. The report's size text comes from `ExportEnv.fileSize`.
- `datetime.now()` and `str()`/`:.2f` of floats: these are `ExportEnv` parameters.
- The `PermissionError` branch of `scan_folder`: `os.walk` drops unreadable folders without raising, and the only other `os` calls run after `os.path.exists` succeeded.
- `ASREngine.is_loaded` and `_current_device`: nothing in the core reads them.
- The browser front end: presentation only.
- PosixPath.Lower: lower-cases ASCII letters only. The allow-list test is still exact, because Python lower-cases no non-ASCII character into a letter the allow-list uses. A stored `extension` with non-ASCII upper-case letters may differ from Python's.
- AsrEngine.Diarize: the speaker order is unspecified in the code. The model fixes first-seen order and states only set equality, no duplicates and the count.
- AsrEngine.Transcribe: `process_time` is the already-rounded elapsed time, an input.
- AudioProcessor.FormatDuration: whole seconds only. A fractional input is truncated field by field in Python, and the model takes the integer seconds.
- ResultExporter.FormatMarkdown: states the opening lines, the field lines and the closing section, not the position of every line. The status line is not stated to be absent on the other branch, because a transcript or an error may itself contain such a line.
- App.FailedResult: records 0.0 as the processing time. The source has no such result, and the corrected worker has to pick one.
- App.Loop: takes the base names of the paths precomputed (`Names`), rather than computing them in the loop.
- App.ProcessBatch: marks the file entries after the loop rather than during it, because nothing reads them in between.
- App.Loop: states the number of results per iteration, not their contents. `App.LoopResults` states the contents of the final list.

## Findings

| source | as written | input that shows it | evidently intended | confidence | as-written member | corrected member |
|---|---|---|---|---|---|---|
| backend/asr_engine.py:246 | a cuda request on a host without an accelerator stores "cpu" as the engine's device, so the reload test compares "cpu" with "cuda" | two `get_asr_engine("cuda")` calls on a host without cuda: the second call loads the model again | load the model once per requested configuration, as the comment at line 50 says | not executed | AsrEngine.CudaFallbackReloadsAgain | AsrEngine.KeyedAcquireReuses |
| backend/app.py:148-173 | the worker has no exception handler, so a raise from `get_asr_engine` or `transcribe` ends the thread before lines 172-173 | a file deleted after the scan: `transcribe` raises not-found, `is_processing` stays true, and every later start gets "已有任务在处理中" until a stop | the job ends and clears the running flag; the file is recorded as failed | not executed | App.MissingFileLeavesJobRunning | App.GuardedRunAcceptsNext |
| backend/asr_engine.py:49-55 | `__init__` stores the new diarization flag before `_load_model` runs, but records `_speaker_enabled` only after it returns | on a cpu engine without diarization, `get_asr_engine("cpu", True)` while the model build raises, then `get_asr_engine("cpu", False)`: the second call does not reload, and `transcribe` still reports diarization as enabled and returns speaker fields | a failed reload leaves the engine's flags as they were, so the next request gets an engine with the flag it asked for | not executed | AsrEngine.FailedReloadKeepsDiarization | AsrEngine.FailedLoadThenPlainRequest |
