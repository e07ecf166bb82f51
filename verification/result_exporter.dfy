/** The Markdown report writer: one report per successful recognition, and a
    summary of a whole batch. Writing a file is modelled as returning the
    path and the content that would be written; the clock, file sizes and
    float rendering come in through `ExportEnv`. */
module ResultExporter {
  import opened Wrappers
  import opened Seqs
  import opened PosixPath
  import opened Decimal
  import opened AsrEngine

  /** What the writer reads from its environment. */
  datatype ExportEnv = ExportEnv(
    now: string,                         // `datetime.now()` as `%Y-%m-%d %H:%M:%S`
    stamp: string,                       // `datetime.now()` as `%Y%m%d_%H%M%S`
    fileSize: string -> Option<string>,  // `_format_size` of an existing audio file, `None` if it is gone
    seconds: real -> string,             // `str()` of a processing time
    fixed2: real -> string,              // `f"{x:.2f}"`
    writable: string -> bool)            // whether creating the directory and writing the path succeed

  /** A file the writer produces. */
  datatype ReportFile = ReportFile(path: string, content: string)

  /** `t` occurs in `s` as a contiguous piece. */
  predicate Contains(s: string, t: string) {
    exists i :: 0 <= i <= |s| && t <= s[i..]
  }

  lemma ContainsMiddle(a: string, b: string, c: string)
    ensures Contains(a + b + c, b)
  {
    assert (a + b + c)[|a|..] == b + c;
  }

  lemma ContainsStart(s: string, u: string)
    ensures Contains(s + u, s)
  {
    assert (s + u)[0..] == s + u;
  }

  lemma ContainsSuffix(u: string, s: string, t: string)
    requires Contains(s, t)
    ensures Contains(u + s, t)
  {
    var i :| 0 <= i <= |s| && t <= s[i..];
    assert (u + s)[|u| + i..] == s[i..];
  }

  // ---------------------------------------------------------------------------
  // Output names
  // ---------------------------------------------------------------------------

  const ReportSuffix: string := ".md"

  /** `export_to_markdown`'s file name: the audio file's name without its extension, plus `.md`. */
  function OutputName(audioPath: string): (name: string)
    ensures Sep !in name
  {
    var stem := SplitExt(Basename(audioPath)).root;
    assert Sep !in stem by {
      assert stem == Basename(audioPath)[..|stem|];
    }
    stem + ReportSuffix
  }

  /** Two results share a report file name exactly when their audio names share a stem. */
  lemma OutputNameCollides(p: string, q: string)
    ensures OutputName(p) == OutputName(q) <==> SplitExt(Basename(p)).root == SplitExt(Basename(q)).root
  {
    var a, b := SplitExt(Basename(p)).root, SplitExt(Basename(q)).root;
    if OutputName(p) == OutputName(q) {
      assert |a| == |b|;
      assert a == OutputName(p)[..|a|];
      assert b == OutputName(q)[..|b|];
    }
  }

  /** Recordings that differ only in their extension, in any folders, overwrite each other's report. */
  lemma SameStemSameReport(dir1: string, dir2: string, stem: string, ext1: string, ext2: string)
    requires Sep !in stem && HasNonDot(stem)
    requires IsExtension(ext1) && IsExtension(ext2)
    ensures OutputName(Join(dir1, stem + ext1)) == OutputName(Join(dir2, stem + ext2)) == stem + ReportSuffix
  {
    NamedReport(dir1, stem, ext1);
    NamedReport(dir2, stem, ext2);
  }

  lemma NamedReport(dir: string, stem: string, ext: string)
    requires Sep !in stem && HasNonDot(stem)
    requires IsExtension(ext)
    ensures OutputName(Join(dir, stem + ext)) == stem + ReportSuffix
  {
    forall k | 0 <= k < |stem + ext|
      ensures (stem + ext)[k] != Sep
    {
      if k < |stem| {
        assert (stem + ext)[k] == stem[k];
      } else {
        assert (stem + ext)[k] == ext[k - |stem|];
      }
    }
    BasenameOfJoin(dir, stem + ext);
    BasenameOfName(stem);
    SplitExtOfExtension(stem, ext);
    var r := SplitExt(stem + ext);
    assert r.root == (r.root + r.ext)[..|r.root|];
    assert (stem + ext)[..|stem|] == stem;
  }

  // ---------------------------------------------------------------------------
  // Single reports
  // ---------------------------------------------------------------------------

  datatype Field = Field(key: string, value: string)

  /** The layout of a report: a title, a block of labelled fields, one section
      and an optional signature. */
  datatype Report = Report(title: string, fields: seq<Field>, heading: string, body: string, signed: bool)

  const ReportTitle: string := "音频识别结果"
  const TranscriptHeading: string := "识别文本"
  const ErrorHeading: string := "错误信息"
  const UnknownSize: string := "未知"
  const Signature: string := "\n---\n\n*本文件由 Fun-ASR 语音识别系统自动生成*\n"

  function RenderField(f: Field): string {
    "**" + f.key + "**: " + f.value + "\n"
  }

  function RenderFields(fs: seq<Field>): string {
    if |fs| == 0 then "" else RenderField(fs[0]) + RenderFields(fs[1..])
  }

  /** The section under the fields: its heading, its text, then the signature when signed. */
  function RenderSection(rep: Report): string {
    "\n## " + rep.heading + "\n\n" + rep.body + "\n" + (if rep.signed then Signature else "")
  }

  function Render(rep: Report): string {
    "# " + rep.title + "\n\n" + RenderFields(rep.fields) + RenderSection(rep)
  }

  /** The section's text appears verbatim in the rendered report. */
  lemma RenderContainsBody(rep: Report)
    ensures Contains(Render(rep), rep.body)
  {
    var before := "\n## " + rep.heading + "\n\n";
    var after := "\n" + (if rep.signed then Signature else "");
    ContainsMiddle(before, rep.body, after);
    assert RenderSection(rep) == before + rep.body + after;
    ContainsSuffix("# " + rep.title + "\n\n" + RenderFields(rep.fields), RenderSection(rep), rep.body);
  }

  /** The fields of a failure report: name, path, status and time. */
  function FailureFields(r: RecognitionResult, env: ExportEnv): seq<Field> {
    [Field("文件名", Basename(r.audioPath)), Field("文件路径", r.audioPath),
     Field("识别状态", "失败"), Field("识别时间", env.now)]
  }

  /** The fields of a success report: name, path, size, status, time and duration. */
  function SuccessFields(r: RecognitionResult, env: ExportEnv): seq<Field> {
    [Field("文件名", Basename(r.audioPath)), Field("文件路径", r.audioPath),
     Field("文件大小", env.fileSize(r.audioPath).GetOr(UnknownSize)),
     Field("识别状态", "成功"), Field("识别时间", env.now),
     Field("处理耗时", env.seconds(r.processTime) + " 秒")]
  }

  /** `_format_markdown`'s two branches as a report: a failure shows its error and is
      unsigned; a success shows its text and is signed. */
  function ReportOf(r: RecognitionResult, env: ExportEnv): Report {
    if !r.success then Report(ReportTitle, FailureFields(r, env), ErrorHeading, r.error.GetOr(""), false)
    else Report(ReportTitle, SuccessFields(r, env), TranscriptHeading, r.text, true)
  }

  /** `s` ends with `t`. */
  predicate EndsWith(s: string, t: string) {
    |t| <= |s| && s[|s| - |t|..] == t
  }

  lemma ContainsEnd(s: string, t: string)
    ensures Contains(s + t, t)
  {
    assert (s + t)[|s|..] == t;
  }

  lemma ContainsExtend(s: string, t: string, u: string)
    requires Contains(s, t)
    ensures Contains(s + u, t)
  {
    var i :| 0 <= i <= |s| && t <= s[i..];
    assert (s + u)[i..] == s[i..] + u;
  }

  /** A report opens with its title and then its first two fields. */
  lemma RenderStart(rep: Report)
    requires |rep.fields| >= 2
    ensures "# " + rep.title + "\n\n" + RenderField(rep.fields[0]) + RenderField(rep.fields[1]) <= Render(rep)
  {
    var fs := rep.fields;
    var start := "# " + rep.title + "\n\n" + RenderField(fs[0]) + RenderField(fs[1]);
    assert fs[1..][1..] == fs[2..];
    assert RenderFields(fs) == RenderField(fs[0]) + (RenderField(fs[1]) + RenderFields(fs[2..]));
    assert Render(rep) == start + (RenderFields(fs[2..]) + RenderSection(rep));
  }

  /** A report closes with its section, then the signature when it is signed. */
  lemma RenderEnd(rep: Report)
    ensures EndsWith(Render(rep), "\n## " + rep.heading + "\n\n" + rep.body + "\n" + (if rep.signed then Signature else ""))
  {
  }

  lemma {:induction false} FieldsContain(fs: seq<Field>, k: nat)
    requires k < |fs|
    ensures Contains(RenderFields(fs), RenderField(fs[k]))
  {
    if k == 0 {
      ContainsStart(RenderField(fs[0]), RenderFields(fs[1..]));
    } else {
      FieldsContain(fs[1..], k - 1);
      ContainsSuffix(RenderField(fs[0]), RenderFields(fs[1..]), RenderField(fs[k]));
    }
  }

  /** Every field of a report has its own line in the rendered text. */
  lemma RenderHasField(rep: Report, k: nat)
    requires k < |rep.fields|
    ensures Contains(Render(rep), RenderField(rep.fields[k]))
  {
    var head := "# " + rep.title + "\n\n";
    FieldsContain(rep.fields, k);
    ContainsSuffix(head, RenderFields(rep.fields), RenderField(rep.fields[k]));
    ContainsExtend(head + RenderFields(rep.fields), RenderField(rep.fields[k]), RenderSection(rep));
  }

  /** The opening lines shared by both branches: title, name and path. */
  function ReportStart(r: RecognitionResult): string {
    "# " + ReportTitle + "\n\n" + RenderField(Field("文件名", Basename(r.audioPath)))
      + RenderField(Field("文件路径", r.audioPath))
  }

  /** The layout of a failure report: start, status and time lines, the error last. */
  lemma FailureReportLayout(r: RecognitionResult, env: ExportEnv)
    requires !r.success
    ensures ReportStart(r) <= Render(ReportOf(r, env))
    ensures Contains(Render(ReportOf(r, env)), RenderField(Field("识别状态", "失败")))
    ensures Contains(Render(ReportOf(r, env)), RenderField(Field("识别时间", env.now)))
    ensures EndsWith(Render(ReportOf(r, env)), "\n## " + ErrorHeading + "\n\n" + r.error.GetOr("") + "\n" + "")
    ensures Contains(Render(ReportOf(r, env)), r.error.GetOr(""))
  {
    var fs := FailureFields(r, env);
    var rep := Report(ReportTitle, fs, ErrorHeading, r.error.GetOr(""), false);
    assert ReportOf(r, env) == rep;
    assert fs[0] == Field("文件名", Basename(r.audioPath)) && fs[1] == Field("文件路径", r.audioPath);
    assert fs[2] == Field("识别状态", "失败") && fs[3] == Field("识别时间", env.now);
    RenderContainsBody(rep);
    RenderStart(rep);
    RenderEnd(rep);
    RenderHasField(rep, 2);
    RenderHasField(rep, 3);
  }

  /** The layout of a success report: start, size, status, time and duration lines,
      then the transcript and the signature last. */
  lemma SuccessReportLayout(r: RecognitionResult, env: ExportEnv)
    requires r.success
    ensures ReportStart(r) <= Render(ReportOf(r, env))
    ensures Contains(Render(ReportOf(r, env)), RenderField(Field("文件大小", env.fileSize(r.audioPath).GetOr(UnknownSize))))
    ensures Contains(Render(ReportOf(r, env)), RenderField(Field("识别状态", "成功")))
    ensures Contains(Render(ReportOf(r, env)), RenderField(Field("识别时间", env.now)))
    ensures Contains(Render(ReportOf(r, env)), RenderField(Field("处理耗时", env.seconds(r.processTime) + " 秒")))
    ensures EndsWith(Render(ReportOf(r, env)), "\n## " + TranscriptHeading + "\n\n" + r.text + "\n" + Signature)
    ensures Contains(Render(ReportOf(r, env)), r.text)
  {
    var fs := SuccessFields(r, env);
    var rep := Report(ReportTitle, fs, TranscriptHeading, r.text, true);
    assert ReportOf(r, env) == rep;
    assert fs[0] == Field("文件名", Basename(r.audioPath)) && fs[1] == Field("文件路径", r.audioPath);
    assert fs[2] == Field("文件大小", env.fileSize(r.audioPath).GetOr(UnknownSize));
    assert fs[3] == Field("识别状态", "成功") && fs[4] == Field("识别时间", env.now);
    assert fs[5] == Field("处理耗时", env.seconds(r.processTime) + " 秒");
    RenderContainsBody(rep);
    RenderStart(rep);
    RenderEnd(rep);
    RenderHasField(rep, 2);
    RenderHasField(rep, 3);
    RenderHasField(rep, 4);
    RenderHasField(rep, 5);
  }

  /** `_format_markdown`: the report opens with the title, the file name and the path;
      it has a status line saying 成功 or 失败 and a line with the time; a success
      report also has the file size (`未知` when the file is gone) and the processing
      time; and it ends with the transcript and the signature on success, or with the
      error and no signature on failure. */
  function FormatMarkdown(r: RecognitionResult, env: ExportEnv): (content: string)
    ensures ReportStart(r) <= content
    ensures Contains(content, RenderField(Field("识别状态", if r.success then "成功" else "失败")))
    ensures Contains(content, RenderField(Field("识别时间", env.now)))
    ensures r.success ==> Contains(content, RenderField(Field("文件大小", env.fileSize(r.audioPath).GetOr(UnknownSize))))
    ensures r.success ==> Contains(content, RenderField(Field("处理耗时", env.seconds(r.processTime) + " 秒")))
    ensures r.success ==> EndsWith(content, "\n## " + TranscriptHeading + "\n\n" + r.text + "\n" + Signature)
    ensures !r.success ==> EndsWith(content, "\n## " + ErrorHeading + "\n\n" + r.error.GetOr("") + "\n" + "")
    ensures Contains(content, if r.success then r.text else r.error.GetOr(""))
  {
    if r.success then SuccessReportLayout(r, env); Render(ReportOf(r, env))
    else FailureReportLayout(r, env); Render(ReportOf(r, env))
  }

  // ---------------------------------------------------------------------------
  // Batch export
  // ---------------------------------------------------------------------------

  /** `export_batch` writes a report for a result that succeeded with non-empty text. */
  predicate Exportable(r: RecognitionResult) {
    r.success && r.text != ""
  }

  /** Where `export_to_markdown` writes the report of `r`. */
  function ReportPath(r: RecognitionResult, dir: string): string {
    Join(dir, OutputName(r.audioPath))
  }

  /** The report is written directly inside `dir` under the derived name. */
  lemma ReportPathName(r: RecognitionResult, dir: string)
    ensures Basename(ReportPath(r, dir)) == OutputName(r.audioPath)
  {
    BasenameOfJoin(dir, OutputName(r.audioPath));
  }

  /** `export_to_markdown` into `dir`. */
  function ReportFor(r: RecognitionResult, dir: string, env: ExportEnv): ReportFile {
    ReportFile(ReportPath(r, dir), FormatMarkdown(r, env))
  }

  function Reports(rs: seq<RecognitionResult>, dir: string, env: ExportEnv): (fs: seq<ReportFile>)
    ensures |fs| == |rs|
    ensures forall k :: 0 <= k < |rs| ==> fs[k] == ReportFor(rs[k], dir, env)
  {
    seq(|rs|, k requires 0 <= k < |rs| => ReportFor(rs[k], dir, env))
  }

  /** The results `export_batch` gets a report written for: exportable ones whose
      write goes through, in input order. */
  function ExportedResults(results: seq<RecognitionResult>, dir: string, env: ExportEnv): (kept: seq<RecognitionResult>)
    ensures |kept| <= Count(Exportable, results)
    ensures forall r :: r in kept ==> r in results && Exportable(r) && env.writable(ReportPath(r, dir))
  {
    if |results| == 0 then []
    else
      var r := results[0];
      var rest := ExportedResults(results[1..], dir, env);
      assert forall x :: x in results[1..] ==> x in results;
      if Exportable(r) && env.writable(ReportPath(r, dir)) then [r] + rest else rest
  }

  /** The write of `r`'s report in `dir` goes through. */
  predicate Written(r: RecognitionResult, dir: string, env: ExportEnv) {
    Exportable(r) && env.writable(ReportPath(r, dir))
  }

  /** The results `export_batch` exports are exactly the exportable results whose write
      goes through, in input order: the per-file `except` drops a result and nothing else. */
  lemma {:induction false} ExportedIsFilter(results: seq<RecognitionResult>, dir: string, env: ExportEnv)
    ensures ExportedResults(results, dir, env) == Filter(r => Written(r, dir, env), results)
  {
    if |results| > 0 {
      ExportedIsFilter(results[1..], dir, env);
    }
  }

  /** `export_batch`: the reports of the exported results. */
  function ExportBatch(results: seq<RecognitionResult>, dir: string, env: ExportEnv): (out: seq<ReportFile>)
    ensures |out| == |ExportedResults(results, dir, env)| <= Count(Exportable, results) <= |results|
    ensures forall k :: 0 <= k < |out| ==>
      var r := ExportedResults(results, dir, env)[k];
      r in results && Exportable(r) && out[k] == ReportFor(r, dir, env) && env.writable(out[k].path)
  {
    Reports(ExportedResults(results, dir, env), dir, env)
  }

  /** When every write succeeds, the batch exports exactly the exportable results,
      one report each, in input order. */
  lemma {:induction false} ExportAllWritten(results: seq<RecognitionResult>, dir: string, env: ExportEnv)
    requires forall r :: r in results ==> env.writable(ReportPath(r, dir))
    ensures ExportedResults(results, dir, env) == Filter(Exportable, results)
    ensures |ExportBatch(results, dir, env)| == Count(Exportable, results)
  {
    if |results| > 0 {
      var r := results[0];
      assert r in results;
      assert forall x :: x in results[1..] ==> x in results;
      ExportAllWritten(results[1..], dir, env);
      assert ExportedResults(results, dir, env) == (if Exportable(r) then [r] else []) + ExportedResults(results[1..], dir, env);
    }
  }

  /** A result that failed, or succeeded with an empty transcript, never gets a report. */
  lemma NoReportForEmpty(results: seq<RecognitionResult>, dir: string, env: ExportEnv)
    requires forall r :: r in results ==> !Exportable(r)
    ensures ExportBatch(results, dir, env) == []
  {
    if |ExportedResults(results, dir, env)| > 0 {
      assert ExportedResults(results, dir, env)[0] in ExportedResults(results, dir, env);
    }
  }

  // ---------------------------------------------------------------------------
  // Summary
  // ---------------------------------------------------------------------------

  const SnippetLength: nat := 100
  const Ellipsis: string := "..."

  /** `text[:100]` followed by `...` when the text is longer than that. */
  function Snippet(text: string): (s: string)
    ensures |s| <= SnippetLength + |Ellipsis|
    ensures |text| <= SnippetLength ==> s == text
    ensures |text| > SnippetLength <==> |s| == SnippetLength + |Ellipsis| && s[SnippetLength..] == Ellipsis
    ensures s[..if |text| < SnippetLength then |text| else SnippetLength] == text[..if |text| < SnippetLength then |text| else SnippetLength]
  {
    if |text| > SnippetLength then text[..SnippetLength] + Ellipsis else text
  }

  /** One item of the summary's list. */
  datatype SummaryEntry = SummaryEntry(number: nat, name: string, succeeded: bool, detail: string)

  datatype Summary = Summary(
    total: nat,
    successCount: nat,
    failedCount: nat,
    totalTime: real,
    averageTime: real,
    entries: seq<SummaryEntry>)

  predicate IsSuccess(r: RecognitionResult) {
    r.success
  }

  predicate IsFailure(r: RecognitionResult) {
    !r.success
  }

  /** The guarded average: the mean time when there is at least one result, else zero. */
  function Average(totalTime: real, total: nat): (a: real)
    ensures total == 0 ==> a == 0.0
    ensures total > 0 ==> a * (total as real) == totalTime
  {
    if total > 0 then totalTime / (total as real) else 0.0
  }

  function TotalTime(rs: seq<RecognitionResult>): real {
    if |rs| == 0 then 0.0 else rs[0].processTime + TotalTime(rs[1..])
  }

  /** The mean processing time of a batch, zero for an empty one. */
  function MeanTime(rs: seq<RecognitionResult>): real {
    Average(TotalTime(rs), |rs|)
  }

  function EntryOf(k: nat, r: RecognitionResult): SummaryEntry {
    SummaryEntry(k + 1, Basename(r.audioPath), r.success, if r.success then Snippet(r.text) else r.error.GetOr(""))
  }

  /** `create_summary`'s figures: the counts, the times and the numbered list. */
  function Summarize(results: seq<RecognitionResult>): (s: Summary)
    ensures s.total == |results|
    ensures s.successCount == Count(IsSuccess, results)
    ensures s.failedCount == Count(IsFailure, results)
    ensures s.successCount + s.failedCount == s.total
    ensures s.totalTime == TotalTime(results) && s.averageTime == Average(s.totalTime, s.total)
    ensures |s.entries| == |results|
    ensures forall k :: 0 <= k < |results| ==>
      && s.entries[k].number == k + 1
      && s.entries[k].name == Basename(results[k].audioPath)
      && s.entries[k].succeeded == results[k].success
      && s.entries[k].detail == (if results[k].success then Snippet(results[k].text) else results[k].error.GetOr(""))
  {
    var total := |results|;
    var successCount := Count(IsSuccess, results);
    CountComplement(IsSuccess, IsFailure, results);
    var totalTime := TotalTime(results);
    var average := Average(totalTime, total);
    Summary(total, successCount, total - successCount, totalTime, average,
      seq(total, k requires 0 <= k < total => EntryOf(k, results[k])))
  }

  const SummaryTitle: string := "批量识别汇总报告"

  function StatusLabel(succeeded: bool): string {
    if succeeded then "✅ 成功" else "❌ 失败"
  }

  function RenderEntry(e: SummaryEntry): string {
    "### " + Digits(e.number) + ". " + e.name + "\n\n"
    + "**状态**: " + StatusLabel(e.succeeded) + "\n\n"
    + (if e.succeeded then "**识别内容**: " else "**错误信息**: ") + e.detail + "\n\n"
    + "---\n\n"
  }

  function RenderEntries(es: seq<SummaryEntry>): string {
    if |es| == 0 then "" else RenderEntry(es[0]) + RenderEntries(es[1..])
  }

  /** One line of the summary's statistics block. */
  function StatLine(key: string, value: string): string {
    "- **" + key + "**: " + value + "\n"
  }

  /** The title, the generation time and the statistics heading. */
  function SummaryIntro(env: ExportEnv): string {
    "# " + SummaryTitle + "\n\n**生成时间**: " + env.now + "\n\n## 统计信息\n\n"
  }

  const ListHeading: string := "\n## 识别结果列表\n\n"

  /** Everything above the list: title and time, then file count, successes,
      failures, total and mean time, then the list heading. */
  function SummaryHead(s: Summary, env: ExportEnv): string {
    SummaryIntro(env)
    + StatLine("总文件数", Digits(s.total))
    + StatLine("成功识别", Digits(s.successCount))
    + StatLine("识别失败", Digits(s.failedCount))
    + StatLine("总耗时", env.fixed2(s.totalTime) + " 秒")
    + StatLine("平均耗时", env.fixed2(s.averageTime) + " 秒/文件")
    + ListHeading
  }

  function RenderSummary(s: Summary, env: ExportEnv): string {
    SummaryHead(s, env) + RenderEntries(s.entries)
  }

  /** Every entry's block appears in the rendered entry list. */
  lemma {:induction false} EntriesContainEach(es: seq<SummaryEntry>, k: nat)
    requires k < |es|
    ensures Contains(RenderEntries(es), RenderEntry(es[k]))
  {
    if k == 0 {
      ContainsStart(RenderEntry(es[0]), RenderEntries(es[1..]));
    } else {
      EntriesContainEach(es[1..], k - 1);
      ContainsSuffix(RenderEntry(es[0]), RenderEntries(es[1..]), RenderEntry(es[k]));
    }
  }

  /** Where `create_summary` writes: `summary_<stamp>.md` inside `dir`. */
  function SummaryPath(dir: string, stamp: string): string {
    Join(dir, "summary_" + stamp + ReportSuffix)
  }

  lemma SummaryPathName(dir: string, stamp: string)
    requires Sep !in stamp
    ensures Basename(SummaryPath(dir, stamp)) == "summary_" + stamp + ReportSuffix
  {
    var name := "summary_" + stamp + ReportSuffix;
    assert Sep !in name by {
      assert forall j :: 0 <= j < |stamp| ==> name[8 + j] == stamp[j];
      assert name[..8] == "summary_";
      assert name[8 + |stamp|..] == ReportSuffix;
    }
    BasenameOfJoin(dir, name);
  }

  /** `create_summary`: the summary opens with its title and time, shows the number
      of results, the number that succeeded, the number that failed, the total time
      and the guarded mean time, and lists every result's entry. */
  function CreateSummary(results: seq<RecognitionResult>, dir: string, env: ExportEnv): (f: ReportFile)
    ensures f.path == SummaryPath(dir, env.stamp)
    ensures SummaryIntro(env) <= f.content
    ensures Contains(f.content, StatLine("总文件数", Digits(|results|)))
    ensures Contains(f.content, StatLine("成功识别", Digits(Count(IsSuccess, results))))
    ensures Contains(f.content, StatLine("识别失败", Digits(Count(IsFailure, results))))
    ensures Contains(f.content, StatLine("总耗时", env.fixed2(TotalTime(results)) + " 秒"))
    ensures Contains(f.content, StatLine("平均耗时", env.fixed2(MeanTime(results)) + " 秒/文件"))
    ensures forall k :: 0 <= k < |results| ==> Contains(f.content, RenderEntry(EntryOf(k, results[k])))
  {
    var s := Summarize(results);
    SummaryListsAll(s, env);
    SummaryShowsStats(s, env);
    forall k | 0 <= k < |results|
      ensures s.entries[k] == EntryOf(k, results[k])
    {
      var e := s.entries[k];
      assert e == SummaryEntry(e.number, e.name, e.succeeded, e.detail);
    }
    ReportFile(SummaryPath(dir, env.stamp), RenderSummary(s, env))
  }

  /** Each statistics line, with the figure it reports, appears in the rendered summary. */
  lemma SummaryShowsStats(s: Summary, env: ExportEnv)
    ensures SummaryIntro(env) <= RenderSummary(s, env)
    ensures Contains(RenderSummary(s, env), StatLine("总文件数", Digits(s.total)))
    ensures Contains(RenderSummary(s, env), StatLine("成功识别", Digits(s.successCount)))
    ensures Contains(RenderSummary(s, env), StatLine("识别失败", Digits(s.failedCount)))
    ensures Contains(RenderSummary(s, env), StatLine("总耗时", env.fixed2(s.totalTime) + " 秒"))
    ensures Contains(RenderSummary(s, env), StatLine("平均耗时", env.fixed2(s.averageTime) + " 秒/文件"))
  {
    LinesInText(SummaryIntro(env),
      StatLine("总文件数", Digits(s.total)),
      StatLine("成功识别", Digits(s.successCount)),
      StatLine("识别失败", Digits(s.failedCount)),
      StatLine("总耗时", env.fixed2(s.totalTime) + " 秒"),
      StatLine("平均耗时", env.fixed2(s.averageTime) + " 秒/文件"),
      ListHeading, RenderEntries(s.entries));
  }

  /** A text made of an opening, five lines, a heading and a tail contains each line. */
  lemma LinesInText(p: string, l0: string, l1: string, l2: string, l3: string, l4: string, h: string, e: string)
    ensures p <= p + l0 + l1 + l2 + l3 + l4 + h + e
    ensures var all := p + l0 + l1 + l2 + l3 + l4 + h + e;
      Contains(all, l0) && Contains(all, l1) && Contains(all, l2) && Contains(all, l3) && Contains(all, l4)
  {
    var p1 := p + l0;
    var p2 := p1 + l1;
    var p3 := p2 + l2;
    var p4 := p3 + l3;
    var p5 := p4 + l4;
    assert p <= p1 <= p2 <= p3 <= p4 <= p5 <= p5 + h <= p5 + h + e;
    ContainsEnd(p, l0);
    ContainsEnd(p1, l1);
    ContainsEnd(p2, l2);
    ContainsEnd(p3, l3);
    ContainsEnd(p4, l4);
    ContainsExtend(p1, l0, l1);
    ContainsExtend(p2, l0, l2);
    ContainsExtend(p2, l1, l2);
    ContainsExtend(p3, l0, l3);
    ContainsExtend(p3, l1, l3);
    ContainsExtend(p3, l2, l3);
    forall t | t in [l0, l1, l2, l3]
      ensures Contains(p5, t)
    {
      ContainsExtend(p4, t, l4);
    }
    forall t | t in [l0, l1, l2, l3, l4]
      ensures Contains(p5 + h + e, t)
    {
      ContainsExtend(p5, t, h);
      ContainsExtend(p5 + h, t, e);
    }
  }

  lemma SummaryListsAll(s: Summary, env: ExportEnv)
    ensures forall k :: 0 <= k < |s.entries| ==> Contains(RenderSummary(s, env), RenderEntry(s.entries[k]))
  {
    forall k | 0 <= k < |s.entries|
      ensures Contains(RenderSummary(s, env), RenderEntry(s.entries[k]))
    {
      EntriesContainEach(s.entries, k);
      ContainsSuffix(SummaryHead(s, env), RenderEntries(s.entries), RenderEntry(s.entries[k]));
    }
  }
}
