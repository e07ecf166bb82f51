/** The parts of Python's `posixpath` (`os.path` on POSIX) the system relies on:
    `basename`, `splitext` and `join`, plus `str.lower` restricted to ASCII. */
module PosixPath {

  const Sep: char := '/'
  const ExtSep: char := '.'

  /** Python's `str.rfind` for one character: the last index of `c`, or -1. */
  function RFind(s: string, c: char): (i: int)
    ensures -1 <= i < |s|
    ensures 0 <= i ==> s[i] == c
    ensures forall j :: i < j < |s| ==> s[j] != c
  {
    if |s| == 0 then -1
    else if s[|s| - 1] == c then |s| - 1
    else RFind(s[..|s| - 1], c)
  }

  /** The two facts `RFind` ensures pin its value down. */
  lemma RFindUnique(s: string, c: char, i: int)
    requires -1 <= i < |s|
    requires 0 <= i ==> s[i] == c
    requires forall j :: i < j < |s| ==> s[j] != c
    ensures RFind(s, c) == i
  {
  }

  /** Searching a suffix finds the same character, shifted, when it lies in the suffix. */
  lemma RFindSuffix(s: string, k: nat, c: char)
    requires k <= |s|
    ensures RFind(s[k..], c) == if RFind(s, c) >= k then RFind(s, c) - k else -1
  {
    var r := RFind(s, c);
    var t := s[k..];
    var expected := if r >= k then r - k else -1;
    forall j | expected < j < |t|
      ensures t[j] != c
    {
      assert t[j] == s[k + j];
    }
    RFindUnique(t, c, expected);
  }

  /** `os.path.basename`: everything after the last separator. */
  function Basename(p: string): (b: string)
    ensures Sep !in b
    ensures |b| <= |p| && b == p[|p| - |b|..]
    ensures |b| < |p| ==> p[|p| - |b| - 1] == Sep
  {
    var i := RFind(p, Sep);
    var b := p[i + 1..];
    assert forall k :: 0 <= k < |b| ==> b[k] == p[i + 1 + k];
    b
  }

  predicate HasNonDot(s: string) {
    exists k :: 0 <= k < |s| && s[k] != ExtSep
  }

  /** The result of `os.path.splitext`: `root + ext` is the original path. */
  datatype PathSplit = PathSplit(root: string, ext: string)

  /** `os.path.splitext` on POSIX: the extension starts at the last dot after the last
      separator, provided the file name has a non-dot character before that dot (so a
      leading-dot name such as `.wav` has no extension); otherwise it is empty. */
  function SplitExt(p: string): (r: PathSplit)
    ensures r.root + r.ext == p
    ensures r.ext == [] || (r.ext[0] == ExtSep && ExtSep !in r.ext[1..] && Sep !in r.ext)
  {
    var sep := RFind(p, Sep);
    var dot := RFind(p, ExtSep);
    if dot > sep && HasNonDot(p[sep + 1..dot]) then
      var ext := p[dot..];
      assert forall k :: 0 <= k < |ext| ==> ext[k] == p[dot + k];
      assert p[..dot] + ext == p;
      PathSplit(p[..dot], ext)
    else PathSplit(p, [])
  }

  /** `os.path.join(dir, name)` for two components. */
  function Join(dir: string, name: string): string {
    if |name| > 0 && name[0] == Sep then name
    else if |dir| == 0 || dir[|dir| - 1] == Sep then dir + name
    else dir + [Sep] + name
  }

  predicate IsUpper(c: char) {
    'A' <= c <= 'Z'
  }

  function LowerChar(c: char): (l: char)
    ensures !IsUpper(l)
  {
    if 'A' <= c <= 'Z' then (c as int + 32) as char else c
  }

  /** `str.lower` on ASCII letters; every other character is kept. */
  function Lower(s: string): (r: string)
    ensures |r| == |s|
    ensures forall k :: 0 <= k < |s| ==> r[k] == LowerChar(s[k])
    ensures forall k :: 0 <= k < |r| ==> !IsUpper(r[k])
  {
    seq(|s|, k requires 0 <= k < |s| => LowerChar(s[k]))
  }

  lemma LowerKeepsLowerCase(s: string)
    requires forall k :: 0 <= k < |s| ==> !IsUpper(s[k])
    ensures Lower(s) == s
  {
  }

  lemma LowerIdempotent(s: string)
    ensures Lower(Lower(s)) == Lower(s)
  {
  }

  /** A candidate extension: a dot followed by characters that are neither dots
      nor separators. */
  predicate IsExtension(e: string) {
    && |e| >= 1
    && e[0] == ExtSep
    && forall k :: 1 <= k < |e| ==> e[k] != ExtSep && e[k] != Sep
  }

  lemma LowerIsExtension(e: string)
    ensures IsExtension(Lower(e)) <==> IsExtension(e)
  {
    var L := Lower(e);
    assert forall k :: 0 <= k < |e| ==> (L[k] == ExtSep <==> e[k] == ExtSep) && (L[k] == Sep <==> e[k] == Sep);
  }

  lemma RFindBeforeExtension(stem: string, ext: string)
    requires IsExtension(ext)
    ensures RFind(stem + ext, ExtSep) == |stem|
    ensures RFind(stem + ext, Sep) == RFind(stem, Sep)
  {
    var p := stem + ext;
    forall j | |stem| < j < |p|
      ensures p[j] != ExtSep && p[j] != Sep
    {
      assert p[j] == ext[j - |stem|];
    }
    RFindUnique(p, ExtSep, |stem|);
    var sep := RFind(stem, Sep);
    forall j | sep < j < |p|
      ensures p[j] != Sep
    {
      if j < |stem| {
        assert p[j] == stem[j];
      }
    }
    RFindUnique(p, Sep, sep);
  }

  /** Appending separator-free text extends the basename by that text. */
  lemma BasenameAppend(p: string, e: string)
    requires Sep !in e
    ensures Basename(p + e) == Basename(p) + e
  {
    var q := p + e;
    var sep := RFind(p, Sep);
    forall j | sep < j < |q|
      ensures q[j] != Sep
    {
      if j < |p| {
        assert q[j] == p[j];
      } else {
        assert q[j] == e[j - |p|];
      }
    }
    RFindUnique(q, Sep, sep);
    assert q[sep + 1..] == p[sep + 1..] + e;
  }

  /** `splitext` separates a trailing extension exactly when the file name in front
      of it holds a character other than a dot. */
  lemma SplitExtOfExtension(stem: string, ext: string)
    requires IsExtension(ext)
    ensures SplitExt(stem + ext).ext == if HasNonDot(Basename(stem)) then ext else []
  {
    var p := stem + ext;
    RFindBeforeExtension(stem, ext);
    var sep := RFind(stem, Sep);
    assert p[sep + 1..|stem|] == Basename(stem);
    assert p[|stem|..] == ext;
  }

  /** A name without separators is its own basename. */
  lemma BasenameOfName(name: string)
    requires Sep !in name
    ensures Basename(name) == name
  {
    RFindUnique(name, Sep, -1);
    assert name[0..] == name;
  }

  /** Joining a separator-free name and taking the basename gives the name back. */
  lemma BasenameOfJoin(dir: string, name: string)
    requires Sep !in name
    ensures Basename(Join(dir, name)) == name
  {
    var p := Join(dir, name);
    if |dir| == 0 || dir[|dir| - 1] == Sep {
      assert p == dir + name;
    } else {
      assert p == (dir + [Sep]) + name;
    }
    var i := |p| - |name| - 1;
    assert forall j :: i < j < |p| ==> p[j] == name[j - i - 1];
    if i >= 0 {
      if |dir| == 0 || dir[|dir| - 1] == Sep {
        assert p[i] == dir[|dir| - 1];
      }
      RFindUnique(p, Sep, i);
    } else {
      RFindUnique(p, Sep, -1);
    }
  }

  /** The extension depends only on the last path component. */
  lemma {:induction false} ExtOfBasename(p: string)
    ensures SplitExt(Basename(p)).ext == SplitExt(p).ext
  {
    var sep := RFind(p, Sep);
    var dot := RFind(p, ExtSep);
    var b := Basename(p);
    assert b == p[sep + 1..];
    RFindSuffix(p, sep + 1, Sep);
    RFindSuffix(p, sep + 1, ExtSep);
    var bdot := RFind(b, ExtSep);
    assert RFind(b, Sep) == -1;
    if dot > sep {
      assert bdot == dot - sep - 1;
      assert b[0..bdot] == p[sep + 1..dot];
      assert b[bdot..] == p[dot..];
    } else {
      assert bdot == -1;
    }
  }

  lemma LowerKeepsSeparators(p: string, c: char)
    requires c == Sep || c == ExtSep
    ensures RFind(Lower(p), c) == RFind(p, c)
  {
    var r := RFind(p, c);
    var lp := Lower(p);
    forall j | r < j < |lp|
      ensures lp[j] != c
    {
      assert p[j] != c;
    }
    RFindUnique(lp, c, r);
  }

  lemma LowerSlice(p: string, a: nat, b: nat)
    requires a <= b <= |p|
    ensures Lower(p)[a..b] == Lower(p[a..b])
  {
  }

  lemma LowerHasNonDot(s: string)
    ensures HasNonDot(Lower(s)) == HasNonDot(s)
  {
    if HasNonDot(s) {
      var k :| 0 <= k < |s| && s[k] != ExtSep;
      assert Lower(s)[k] != ExtSep;
    }
  }

  /** Lower-casing a path lower-cases its extension and moves nothing:
      the case of a path never decides where its extension starts. */
  lemma LowerSplitExt(p: string)
    ensures SplitExt(Lower(p)).ext == Lower(SplitExt(p).ext)
  {
    var lp := Lower(p);
    LowerKeepsSeparators(p, Sep);
    LowerKeepsSeparators(p, ExtSep);
    var sep := RFind(p, Sep);
    var dot := RFind(p, ExtSep);
    if dot > sep {
      LowerSlice(p, sep + 1, dot);
      LowerHasNonDot(p[sep + 1..dot]);
      assert HasNonDot(lp[sep + 1..dot]) == HasNonDot(p[sep + 1..dot]);
      if HasNonDot(p[sep + 1..dot]) {
        LowerSlice(p, dot, |p|);
        assert p[dot..|p|] == p[dot..];
        assert lp[dot..|p|] == lp[dot..];
        assert SplitExt(p).ext == p[dot..];
        assert SplitExt(lp).ext == lp[dot..];
      } else {
        assert SplitExt(p).ext == [];
        assert SplitExt(lp).ext == [];
      }
    } else {
      assert SplitExt(p).ext == [];
      assert SplitExt(lp).ext == [];
    }
  }
}
