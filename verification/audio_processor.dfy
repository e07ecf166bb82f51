/** Audio discovery (backend/audio_processor.py): the extension filter, the folder
    scan over an abstract directory listing, the per-file entry, and the clock
    rendering of a duration. */
module AudioProcessor {
  import opened Wrappers
  import opened PosixPath
  import opened Decimal
  import Config
  import AsrEngine

  datatype FileStatus = Pending | Processing | Completed | Failed

  /** The dictionary `get_audio_info` builds; the batch worker later sets `status`
      and `result`. */
  datatype AudioFileEntry = AudioFileEntry(
    name: string,
    path: string,
    size: nat,
    extension: string,
    status: FileStatus,
    result: Option<AsrEngine.RecognitionResult>)

  /** `is_audio_file`: the lower-cased extension, as `os.path.splitext` finds it,
      is in SUPPORTED_AUDIO_FORMATS. */
  predicate IsAudioFile(path: string) {
    Lower(SplitExt(path).ext) in Config.SupportedAudioFormats
  }

  /** The filter only looks at the last component, and ignores case. */
  lemma AudioFileByName(p: string)
    ensures IsAudioFile(Basename(p)) == IsAudioFile(p)
    ensures IsAudioFile(Lower(p)) == IsAudioFile(p)
  {
    ExtOfBasename(p);
    LowerSplitExt(p);
    LowerIdempotent(SplitExt(p).ext);
  }

  lemma FormatsAreExtensions()
    ensures forall f :: f in Config.SupportedAudioFormats ==> IsExtension(f)
  {
  }

  /** Characterises the filter from the path's shape: a path ending in an allowed
      extension, in any case, is an audio file exactly when the file name in front
      of the extension holds a character other than a dot. */
  lemma AudioFileIff(stem: string, ext: string)
    requires Lower(ext) in Config.SupportedAudioFormats
    ensures IsAudioFile(stem + ext) <==> HasNonDot(Basename(stem))
  {
    FormatsAreExtensions();
    LowerIsExtension(ext);
    SplitExtOfExtension(stem, ext);
    assert Lower([]) == [];
  }

  /** A name made of a leading dot and an allowed extension has no extension. */
  lemma LeadingDotNameIsNotAudio()
    ensures !IsAudioFile("rec/.wav")
  {
    assert Basename("rec/") == "";
    LowerKeepsLowerCase(".wav");
    AudioFileIff("rec/", ".wav");
    assert "rec/" + ".wav" == "rec/.wav";
  }

  /** Only the last of several extensions decides. */
  lemma LastExtensionDecides(stem: string, first: string, last: string)
    requires IsExtension(first) && IsExtension(last)
    requires HasNonDot(Basename(stem))
    ensures IsAudioFile(stem + first + last) <==> Lower(last) in Config.SupportedAudioFormats
  {
    assert Sep !in first by {
      if Sep in first {
        var k :| 0 <= k < |first| && first[k] == Sep;
      }
    }
    BasenameAppend(stem, first);
    assert HasNonDot(Basename(stem + first)) by {
      var k :| 0 <= k < |Basename(stem)| && Basename(stem)[k] != ExtSep;
      assert Basename(stem + first)[k] == Basename(stem)[k];
    }
    SplitExtOfExtension(stem + first, last);
  }

  /** What the file system says about one path `os.walk` yielded: its size from
      `os.stat`, or `None` when `os.path.exists` is false for it. */
  datatype FileStat = FileStat(path: string, size: Option<nat>)

  /** What `os.path.exists`/`os.path.isdir`/`os.walk` find at the scanned folder;
      `files` are the joined paths of all files below it, in walk order. */
  datatype Listing = Missing | NotADirectory | Directory(files: seq<FileStat>)

  datatype ScanError = FolderNotFound(folder: string) | NotAFolder(folder: string) | FileMissing(path: string)

  /** `get_audio_info`: the pending entry for a file, or FileNotFoundError. */
  function GetAudioInfo(path: string, size: Option<nat>): (r: Result<AudioFileEntry, ScanError>)
    ensures size.None? <==> r == Err(FileMissing(path))
    ensures r.Ok? ==> (
      && r.value.path == path
      && r.value.size == size.value
      && r.value.status == Pending
      && r.value.result.None?
      && r.value.name == Basename(path)
      && r.value.extension == Lower(SplitExt(path).ext)
      && (forall k :: 0 <= k < |r.value.extension| ==> !IsUpper(r.value.extension[k])))
  {
    match size
    case None => Err(FileMissing(path))
    case Some(n) =>
      var name := Basename(path);
      ExtOfBasename(path);
      Ok(AudioFileEntry(name, path, n, Lower(SplitExt(name).ext), Pending, None))
  }

  /** The entry's extension is in the allow-list exactly when its path is an audio file. */
  lemma EntryExtensionIsAllowed(path: string, size: nat)
    ensures GetAudioInfo(path, Some(size)).Ok?
    ensures IsAudioFile(path) <==> GetAudioInfo(path, Some(size)).value.extension in Config.SupportedAudioFormats
  {
  }

  /** The test `scan_folder` applies to each walked file: the lower-cased extension
      of the file's own name is in the allow-list. */
  predicate NameIsAudio(path: string) {
    Lower(SplitExt(Basename(path)).ext) in Config.SupportedAudioFormats
  }

  lemma NameIsAudioIsAudioFile(path: string)
    ensures NameIsAudio(path) == IsAudioFile(path)
  {
    AudioFileByName(path);
  }

  /** The paths of `files` that pass `keep`, in walk order. */
  function Kept(keep: string -> bool, files: seq<FileStat>): (ps: seq<string>)
    ensures |ps| <= |files|
    ensures forall p :: p in ps ==> keep(p)
  {
    if |files| == 0 then []
    else (if keep(files[0].path) then [files[0].path] else []) + Kept(keep, files[1..])
  }

  function EntryPaths(es: seq<AudioFileEntry>): seq<string> {
    seq(|es|, k requires 0 <= k < |es| => es[k].path)
  }

  /** Whether every kept file before index `n` could be stat'ed. */
  predicate StatsUpTo(keep: string -> bool, files: seq<FileStat>, n: nat)
    requires n <= |files|
  {
    forall k :: 0 <= k < n && keep(files[k].path) ==> files[k].size.Some?
  }

  /** The first kept file that could not be stat'ed. */
  predicate FirstMissing(keep: string -> bool, files: seq<FileStat>, k: int) {
    && 0 <= k < |files|
    && keep(files[k].path)
    && files[k].size.None?
    && StatsUpTo(keep, files, k)
  }

  /** The loop of `scan_folder` over the walked files: keep those passing `keep` and
      build their entries; the first kept file that vanished raises FileNotFoundError. */
  function Collect(keep: string -> bool, files: seq<FileStat>): (r: Result<seq<AudioFileEntry>, ScanError>)
    ensures r.Ok? ==> |r.value| <= |files|
  {
    if |files| == 0 then Ok([])
    else
      var f := files[0];
      var rest := Collect(keep, files[1..]);
      if keep(f.path) then
        match GetAudioInfo(f.path, f.size)
        case Err(e) => Err(e)
        case Ok(entry) =>
          match rest
          case Err(e) => Err(e)
          case Ok(es) => Ok([entry] + es)
      else rest
  }

  lemma StatsUpToShift(keep: string -> bool, files: seq<FileStat>, n: nat)
    requires 1 <= n <= |files|
    ensures StatsUpTo(keep, files, n) <==>
      (keep(files[0].path) ==> files[0].size.Some?) && StatsUpTo(keep, files[1..], n - 1)
  {
    assert forall j :: 0 <= j < |files| - 1 ==> files[1..][j] == files[j + 1];
  }

  lemma EntryPathsCons(e: AudioFileEntry, es: seq<AudioFileEntry>)
    ensures EntryPaths([e] + es) == [e.path] + EntryPaths(es)
  {
    var l, r := EntryPaths([e] + es), [e.path] + EntryPaths(es);
    assert |l| == |r|;
    forall k | 0 <= k < |l|
      ensures l[k] == r[k]
    {
      if k > 0 {
        assert ([e] + es)[k] == es[k - 1];
      }
    }
  }

  /** The scan succeeds exactly when every kept file could be stat'ed. */
  lemma {:induction false} CollectSucceeds(keep: string -> bool, files: seq<FileStat>)
    ensures Collect(keep, files).Ok? <==> StatsUpTo(keep, files, |files|)
  {
    if |files| > 0 {
      CollectSucceeds(keep, files[1..]);
      StatsUpToShift(keep, files, |files|);
    }
  }

  /** A successful scan lists the kept paths in walk order. */
  lemma {:induction false} CollectPaths(keep: string -> bool, files: seq<FileStat>)
    requires Collect(keep, files).Ok?
    ensures EntryPaths(Collect(keep, files).value) == Kept(keep, files)
  {
    if |files| > 0 {
      var rest := Collect(keep, files[1..]);
      assert rest.Ok?;
      CollectPaths(keep, files[1..]);
      if keep(files[0].path) {
        var entry := GetAudioInfo(files[0].path, files[0].size).value;
        assert Collect(keep, files).value == [entry] + rest.value;
        EntryPathsCons(entry, rest.value);
      }
    }
  }

  /** One step of a successful scan: the first walked file's entry, when it is kept,
      comes in front of the entries of the rest. */
  lemma CollectCons(keep: string -> bool, files: seq<FileStat>)
    requires |files| > 0 && Collect(keep, files).Ok?
    ensures Collect(keep, files[1..]).Ok?
    ensures var out, rest := Collect(keep, files).value, Collect(keep, files[1..]).value;
      if keep(files[0].path) then
        && files[0].size.Some?
        && |out| == |rest| + 1
        && out[0] == GetAudioInfo(files[0].path, files[0].size).value
        && forall k :: 0 < k < |out| ==> out[k] == rest[k - 1]
      else out == rest
  {
  }

  /** The entry a scan makes of a walked file it kept. */
  predicate FreshEntry(keep: string -> bool, e: AudioFileEntry) {
    && e.status == Pending && e.result.None? && e.name == Basename(e.path)
    && e.extension == Lower(SplitExt(e.path).ext)
    && keep(e.path)
  }

  /** Every entry of a successful scan is pending with no result, is named by its
      path's base name, carries the lower-cased `splitext` extension, and passed `keep`. */
  lemma {:induction false} CollectFresh(keep: string -> bool, files: seq<FileStat>)
    requires Collect(keep, files).Ok?
    ensures forall k :: 0 <= k < |Collect(keep, files).value| ==> FreshEntry(keep, Collect(keep, files).value[k])
  {
    if |files| > 0 {
      CollectCons(keep, files);
      CollectFresh(keep, files[1..]);
      var out, rest := Collect(keep, files).value, Collect(keep, files[1..]).value;
      forall k | 0 <= k < |out|
        ensures FreshEntry(keep, out[k])
      {
        if keep(files[0].path) && k > 0 {
          assert out[k] == rest[k - 1];
        }
      }
    }
  }

  /** Whether some walked file has the entry's path and was stat'ed at the entry's size. */
  predicate Walked(files: seq<FileStat>, e: AudioFileEntry) {
    FileStat(e.path, Some(e.size)) in files
  }

  /** Every entry of a successful scan takes its path and size from a walked file's stat. */
  lemma {:induction false} CollectFromStats(keep: string -> bool, files: seq<FileStat>)
    requires Collect(keep, files).Ok?
    ensures forall k :: 0 <= k < |Collect(keep, files).value| ==> Walked(files, Collect(keep, files).value[k])
  {
    if |files| > 0 {
      CollectCons(keep, files);
      CollectFromStats(keep, files[1..]);
      var out, rest := Collect(keep, files).value, Collect(keep, files[1..]).value;
      forall k | 0 <= k < |out|
        ensures Walked(files, out[k])
      {
        if keep(files[0].path) && k == 0 {
          assert files[0] == FileStat(out[0].path, Some(out[0].size));
        } else {
          var j := if keep(files[0].path) then k - 1 else k;
          assert out[k] == rest[j];
          assert Walked(files[1..], rest[j]);
          assert files[1..] <= files[1..] && FileStat(rest[j].path, Some(rest[j].size)) in files[1..];
        }
      }
    }
  }

  /** A failing scan names the first kept file that could not be stat'ed. */
  lemma {:induction false} CollectFails(keep: string -> bool, files: seq<FileStat>)
    requires Collect(keep, files).Err?
    ensures exists k :: FirstMissing(keep, files, k) && Collect(keep, files).error == FileMissing(files[k].path)
  {
    var f := files[0];
    if keep(f.path) && f.size.None? {
      assert FirstMissing(keep, files, 0);
    } else {
      CollectFails(keep, files[1..]);
      var k :| FirstMissing(keep, files[1..], k) && Collect(keep, files[1..]).error == FileMissing(files[1..][k].path);
      StatsUpToShift(keep, files, k + 1);
      assert FirstMissing(keep, files, k + 1);
    }
  }

  /** `scan_folder`: NotFound for a missing path, a value error for a non-directory,
      otherwise the entries of the audio files in walk order. */
  function ScanFolder(folder: string, listing: Listing): (r: Result<seq<AudioFileEntry>, ScanError>)
    ensures listing.Missing? ==> r == Err(FolderNotFound(folder))
    ensures listing.NotADirectory? ==> r == Err(NotAFolder(folder))
    ensures listing.Directory? ==> (r.Ok? <==> StatsUpTo(NameIsAudio, listing.files, |listing.files|))
    ensures listing.Directory? && r.Ok? ==> EntryPaths(r.value) == Kept(NameIsAudio, listing.files)
    ensures listing.Directory? && r.Ok? ==> forall k :: 0 <= k < |r.value| ==>
      r.value[k].status == Pending && r.value[k].result.None? && r.value[k].name == Basename(r.value[k].path)
    ensures listing.Directory? && r.Err? ==>
      exists k :: FirstMissing(NameIsAudio, listing.files, k) && r.error == FileMissing(listing.files[k].path)
  {
    match listing
    case Missing => Err(FolderNotFound(folder))
    case NotADirectory => Err(NotAFolder(folder))
    case Directory(files) =>
      CollectSucceeds(NameIsAudio, files);
      var r := Collect(NameIsAudio, files);
      if r.Err? then CollectFails(NameIsAudio, files); r
      else
        CollectPaths(NameIsAudio, files);
        CollectFresh(NameIsAudio, files);
        r
  }

  /** Every entry of a successful scan comes from a walked file's stat and carries its
      lower-cased extension, which is one of the supported formats. */
  lemma ScanEntriesAreAudio(folder: string, files: seq<FileStat>)
    requires ScanFolder(folder, Directory(files)).Ok?
    ensures var es := ScanFolder(folder, Directory(files)).value;
      forall k :: 0 <= k < |es| ==>
        && Walked(files, es[k])
        && es[k].extension == Lower(SplitExt(es[k].path).ext)
        && es[k].extension in Config.SupportedAudioFormats
  {
    var es := ScanFolder(folder, Directory(files)).value;
    assert es == Collect(NameIsAudio, files).value;
    CollectFresh(NameIsAudio, files);
    CollectFromStats(NameIsAudio, files);
    forall k | 0 <= k < |es|
      ensures es[k].extension in Config.SupportedAudioFormats
    {
      assert FreshEntry(NameIsAudio, es[k]);
      NameIsAudioIsAudioFile(es[k].path);
    }
  }

  /** Filtering on the file name is filtering on the path: the scan keeps exactly
      the paths `is_audio_file` accepts. */
  lemma {:induction false} NameFilterIsAudioFilter(files: seq<FileStat>)
    ensures Kept(NameIsAudio, files) == Kept(IsAudioFile, files)
    ensures StatsUpTo(NameIsAudio, files, |files|) <==> StatsUpTo(IsAudioFile, files, |files|)
  {
    forall k | 0 <= k < |files| {
      NameIsAudioIsAudioFile(files[k].path);
    }
    if |files| > 0 {
      NameFilterIsAudioFilter(files[1..]);
      StatsUpToShift(NameIsAudio, files, |files|);
      StatsUpToShift(IsAudioFile, files, |files|);
    }
  }

  /** A path is reported by the scan exactly when it is in the listing and passes
      the filter; nothing else is reported. */
  lemma {:induction false} KeptMembership(keep: string -> bool, files: seq<FileStat>, p: string)
    ensures p in Kept(keep, files) <==> keep(p) && exists k :: 0 <= k < |files| && files[k].path == p
  {
    if |files| > 0 {
      KeptMembership(keep, files[1..], p);
      assert forall j :: 0 <= j < |files| - 1 ==> files[1..][j] == files[j + 1];
      if p in Kept(keep, files[1..]) {
        var j :| 0 <= j < |files| - 1 && files[1..][j].path == p;
        assert files[j + 1].path == p;
      }
      if keep(p) && exists k :: 0 <= k < |files| && files[k].path == p {
        var k :| 0 <= k < |files| && files[k].path == p;
        if k > 0 {
          assert files[1..][k - 1].path == p;
        }
      }
    }
  }

  /** A listing without any audio file scans to the empty list. */
  lemma NoAudioScansEmpty(folder: string, files: seq<FileStat>)
    requires forall k :: 0 <= k < |files| ==> !IsAudioFile(files[k].path)
    ensures ScanFolder(folder, Directory(files)) == Ok([])
  {
    var r := ScanFolder(folder, Directory(files));
    NameFilterIsAudioFilter(files);
    assert StatsUpTo(IsAudioFile, files, |files|);
    if |Kept(IsAudioFile, files)| > 0 {
      var p := Kept(IsAudioFile, files)[0];
      KeptMembership(IsAudioFile, files, p);
    }
    assert |EntryPaths(r.value)| == 0;
  }

  // ---------------------------------------------------------------------------
  // Durations
  // ---------------------------------------------------------------------------

  const UnknownDuration: string := "未知"

  /** `format_duration` for a whole number of seconds, `None` for Python's `None`.
      Division and remainder by a positive constant agree with Python's floor semantics. */
  function FormatDuration(seconds: Option<int>): (t: string)
    ensures seconds.None? ==> t == UnknownDuration
  {
    match seconds
    case None => UnknownDuration
    case Some(s) =>
      Clock(s / 3600, (s % 3600) / 60, s % 60)
  }

  /** The clock text: the hour field only when the hours are positive. */
  function Clock(hours: int, minutes: nat, secs: nat): string {
    if hours > 0 then Pad2(hours) + ":" + Pad2(minutes) + ":" + Pad2(secs)
    else Pad2(minutes) + ":" + Pad2(secs)
  }

  /** Reads clock fields back: hours, minutes and seconds, or minutes and seconds. */
  function ParseClock(fs: seq<string>): Option<int> {
    if |fs| == 3 && AllDigits(fs[0]) && AllDigits(fs[1]) && AllDigits(fs[2]) then
      Some(ParseDigits(fs[0]) * 3600 + ParseDigits(fs[1]) * 60 + ParseDigits(fs[2]))
    else if |fs| == 2 && AllDigits(fs[0]) && AllDigits(fs[1]) then
      Some(ParseDigits(fs[0]) * 60 + ParseDigits(fs[1]))
    else None
  }

  /** Reads a clock string back: `HH:MM:SS` or `MM:SS` with digit fields. */
  function ParseDuration(t: string): Option<int> {
    ParseClock(Fields(t))
  }

  lemma NoColonInDigits(s: string)
    requires AllDigits(s)
    ensures ':' !in s
  {
  }

  lemma MulBound(k: int, d: int)
    requires d > 0
    ensures k >= 1 ==> k * d >= d
    ensures k <= -1 ==> k * d <= -d
  {
  }

  /** Euclidean division is determined by any quotient and in-range remainder. */
  lemma DivModUnique(s: int, d: int, q: int, r: int)
    requires d > 0 && 0 <= r < d && s == q * d + r
    ensures s / d == q && s % d == r
  {
    var q', r' := s / d, s % d;
    var k := q' - q;
    assert k * d == q' * d - q * d;
    assert k * d == r - r';
    MulBound(k, d);
  }

  /** The clock fields of `format_duration`: minutes and seconds below 60 that
      recombine with the hours to the input. */
  lemma ClockArithmetic(s: int)
    ensures 0 <= (s % 3600) / 60 < 60 && 0 <= s % 60 < 60
    ensures (s / 3600) * 3600 + ((s % 3600) / 60) * 60 + s % 60 == s
  {
    var h, rh := s / 3600, s % 3600;
    var m, r := rh / 60, rh % 60;
    assert s == h * 3600 + rh;
    assert rh == m * 60 + r;
    assert s == (h * 60 + m) * 60 + r;
    DivModUnique(s, 60, h * 60 + m, r);
  }

  lemma Fields2(a: string, b: string)
    requires AllDigits(a) && AllDigits(b)
    ensures Fields(a + ":" + b) == [a, b]
  {
    NoColonInDigits(a);
    NoColonInDigits(b);
    FieldsOfJoined(a, b);
  }

  lemma Fields3(a: string, b: string, c: string)
    requires AllDigits(a) && AllDigits(b) && AllDigits(c)
    ensures Fields(a + ":" + b + ":" + c) == [a, b, c]
  {
    NoColonInDigits(a);
    Fields2(b, c);
    assert a + ":" + b + ":" + c == a + ":" + (b + ":" + c);
    FieldsOfJoined(a, b + ":" + c);
  }

  /** The clock text has an hour field exactly when the hours are positive. */
  lemma ClockFields(h: int, m: nat, sec: nat)
    ensures h > 0 ==> Fields(Clock(h, m, sec)) == [Pad2(h), Pad2(m), Pad2(sec)]
    ensures h <= 0 ==> Fields(Clock(h, m, sec)) == [Pad2(m), Pad2(sec)]
  {
    if h > 0 {
      Fields3(Pad2(h), Pad2(m), Pad2(sec));
    } else {
      Fields2(Pad2(m), Pad2(sec));
    }
  }

  /** The seconds the fields of `Clock(h, m, sec)` stand for: the hours count only when shown. */
  function ClockSeconds(h: int, m: nat, sec: nat): int {
    if h > 0 then h * 3600 + m * 60 + sec else m * 60 + sec
  }

  /** Reading the clock text back recombines its fields. */
  lemma ClockRoundTrip(h: int, m: nat, sec: nat)
    ensures ParseDuration(Clock(h, m, sec)) == Some(ClockSeconds(h, m, sec))
  {
    ClockFields(h, m, sec);
    if h > 0 {
      ParseClockFields3(Clock(h, m, sec), h, m, sec);
    } else {
      ParseClockFields2(Clock(h, m, sec), m, sec);
    }
  }

  lemma UnknownDoesNotParse()
    ensures ParseDuration(UnknownDuration) == None
  {
    assert ':' !in UnknownDuration;
    assert !AllDigits(UnknownDuration) by { assert !IsDigit(UnknownDuration[0]); }
  }

  lemma ParseClockFields3(t: string, h: nat, m: nat, sec: nat)
    requires Fields(t) == [Pad2(h), Pad2(m), Pad2(sec)]
    ensures ParseDuration(t) == Some(h * 3600 + m * 60 + sec)
  {
    var fs := [Pad2(h), Pad2(m), Pad2(sec)];
    assert ParseClock(fs) == Some(h * 3600 + m * 60 + sec);
  }

  lemma ParseClockFields2(t: string, m: nat, sec: nat)
    requires Fields(t) == [Pad2(m), Pad2(sec)]
    ensures ParseDuration(t) == Some(m * 60 + sec)
  {
    var fs := [Pad2(m), Pad2(sec)];
    assert ParseClock(fs) == Some(m * 60 + sec);
  }

  /** Round trip: reading back a rendered duration gives the seconds for a non-negative
      input, the seconds modulo one hour for a negative one, and `None` for the
      unknown label. */
  lemma DurationRoundTrip(seconds: Option<int>)
    ensures ParseDuration(FormatDuration(seconds)) ==
      match seconds
      case None => None
      case Some(s) => Some(if s >= 0 then s else s % 3600)
  {
    match seconds
    case None =>
      UnknownDoesNotParse();
    case Some(s) =>
      SecondsRoundTrip(s);
  }

  lemma SecondsRoundTrip(s: int)
    ensures ParseDuration(FormatDuration(Some(s))) == Some(if s >= 0 then s else s % 3600)
  {
    var h, m, sec := s / 3600, (s % 3600) / 60, s % 60;
    assert FormatDuration(Some(s)) == Clock(h, m, sec);
    ClockRoundTrip(h, m, sec);
    ClockValue(s);
  }

  /** The value read back from the clock fields, by sign of the input. */
  lemma ClockValue(s: int)
    ensures ClockSeconds(s / 3600, (s % 3600) / 60, s % 60) == if s >= 0 then s else s % 3600
  {
    if s / 3600 > 0 {
      ClockArithmetic(s);
    } else {
      WithinHourArithmetic(s);
    }
  }

  lemma WithinHourArithmetic(s: int)
    requires s / 3600 <= 0
    ensures ((s % 3600) / 60) * 60 + s % 60 == if s >= 0 then s else s % 3600
  {
    ClockArithmetic(s);
    assert s == (s / 3600) * 3600 + s % 3600;
    if s >= 0 {
      assert s / 3600 == 0;
    }
  }

  /** `3725` seconds render as one hour, two minutes and five seconds. */
  lemma HourExample()
    ensures FormatDuration(Some(3725)) == "01:02:05"
  {
  }

  /** Below one hour the hour field is dropped. */
  lemma MinuteExample()
    ensures FormatDuration(Some(65)) == "01:05"
  {
  }

  lemma UnknownExample()
    ensures FormatDuration(None) == "未知"
  {
  }
}
