/** Scanning skill directories: finding the main file, deriving the name
    and description, listing the files with their hashes, and scanning a
    parent directory while skipping the subdirectories that fail. The file
    system enters as a snapshot of each directory. */
module SkillDirectoryScanner {
  import opened Wrappers
  import opened Text
  import opened Dict
  import opened Unicode
  import opened Paths
  import opened FrontmatterParser
  import opened SkillTypes

  /** A file below a directory: its path relative to the directory, its
      bytes, and whether opening it for reading succeeds. */
  datatype DiskFile = DiskFile(relativePath: string, bytes: seq<byte>, readable: bool)

  /** A directory as it is on disk: its name, its full path and every file
      below it, in enumeration order. */
  datatype DirectorySnapshot = DirectorySnapshot(name: string, fullName: string, files: seq<DiskFile>)

  datatype ScanError =
    | DirectoryNotFound(path: string)
    | FileNotFound(mainFileName: string, directory: string)
    | IOError(path: string)

  function FullNameOf(dir: DirectorySnapshot, f: DiskFile): string {
    Combine(dir.fullName, f.relativePath)
  }

  /** The file at a full path (`File.Exists` and opening it). */
  function FindFile(dir: DirectorySnapshot, path: string): (r: Option<DiskFile>)
    ensures r.Some? ==> r.value in dir.files && FullNameOf(dir, r.value) == path
    ensures r.None? ==> forall f :: f in dir.files ==> FullNameOf(dir, f) != path
  {
    FindFileIn(dir, dir.files, path)
  }

  function FindFileIn(dir: DirectorySnapshot, fs: seq<DiskFile>, path: string): (r: Option<DiskFile>)
    ensures r.Some? ==> r.value in fs && FullNameOf(dir, r.value) == path
    ensures r.None? ==> forall f :: f in fs ==> FullNameOf(dir, f) != path
    decreases |fs|
  {
    if |fs| == 0 then None
    else if FullNameOf(dir, fs[0]) == path then Some(fs[0])
    else FindFileIn(dir, fs[1..], path)
  }

  /** `GetFiles(pattern, TopDirectoryOnly)`: the files directly in the
      directory whose name matches the pattern, in enumeration order. */
  function TopLevelMatches(host: Host, fs: seq<DiskFile>, pattern: string): (r: seq<DiskFile>)
    ensures forall f :: f in r ==> f in fs && '/' !in f.relativePath && host.globMatch(f.relativePath, pattern)
    decreases |fs|
  {
    if |fs| == 0 then []
    else
      var f := fs[0];
      (if '/' !in f.relativePath && host.globMatch(f.relativePath, pattern) then [f] else [])
      + TopLevelMatches(host, fs[1..], pattern)
  }

  /** `FindMainFile`: the exact name first, then the first pattern match,
      then the lower-cased name. */
  function FindMainFile(host: Host, rules: Rules, dir: DirectorySnapshot, mainFileName: string): (r: Option<string>)
    ensures var exact := Combine(dir.fullName, mainFileName);
      FindFile(dir, exact).Some? ==> r == Some(exact)
    ensures var matches := TopLevelMatches(host, dir.files, mainFileName);
      FindFile(dir, Combine(dir.fullName, mainFileName)).None? && |matches| > 0 ==>
        r == Some(FullNameOf(dir, matches[0]))
    ensures var lower := Combine(dir.fullName, rules.toLowerInvariant(mainFileName));
      (FindFile(dir, Combine(dir.fullName, mainFileName)).None? && TopLevelMatches(host, dir.files, mainFileName) == []
       && FindFile(dir, lower).Some?) ==> r == Some(lower)
    ensures r.None? <==>
              && FindFile(dir, Combine(dir.fullName, mainFileName)).None?
              && TopLevelMatches(host, dir.files, mainFileName) == []
              && FindFile(dir, Combine(dir.fullName, rules.toLowerInvariant(mainFileName))).None?
    ensures r.Some? ==> FindFile(dir, r.value).Some?
  {
    var exactPath := Combine(dir.fullName, mainFileName);
    if FindFile(dir, exactPath).Some? then Some(exactPath)
    else
      var matches := TopLevelMatches(host, dir.files, mainFileName);
      if |matches| > 0 then
        var found := FullNameOf(dir, matches[0]);
        assert matches[0] in dir.files;
        FoundFile(dir, matches[0]);
        Some(found)
      else
        var lowerPath := Combine(dir.fullName, rules.toLowerInvariant(mainFileName));
        if FindFile(dir, lowerPath).Some? then Some(lowerPath) else None
  }

  lemma FoundFile(dir: DirectorySnapshot, f: DiskFile)
    requires f in dir.files
    ensures FindFile(dir, FullNameOf(dir, f)).Some?
  {
  }

  // ---------------------------------------------------------------------
  // Name and description

  /** `GetSkillName`: the frontmatter name when it is a non-blank string,
      otherwise the directory name. */
  function GetSkillName(fm: Frontmatter, directoryName: string): (r: string)
    ensures var v := Get(fm, "name");
      v.Some? && v.value.Str? && !IsBlank(v.value.s) ==> r == v.value.s
    ensures var v := Get(fm, "name");
      !(v.Some? && v.value.Str? && !IsBlank(v.value.s)) ==> r == directoryName
    ensures !IsBlank(directoryName) ==> !IsBlank(r)
  {
    match Get<Value>(fm, "name")
    case Some(Str(name)) => if !IsBlank(name) then name else directoryName
    case _ => directoryName
  }

  const MaxDerivedDescriptionLength := 200
  const DefaultDescription := "A skill"

  /** `Truncate`: the first `maxLength` characters. */
  function Truncate(value: string, maxLength: nat): (r: string)
    ensures |r| <= maxLength && StartsWith(value, r)
    ensures |value| <= maxLength ==> r == value
    ensures |value| > maxLength ==> |r| == maxLength
  {
    if |value| <= maxLength then value else value[..maxLength]
  }

  /** The heading text of a line: after trimming, a line starting with `#`
      loses its `#` run and surrounding blanks; other lines have none. */
  function HeadingText(line: string): string {
    var trimmed := Trim(line);
    if StartsWith(trimmed, "#") then Trim(TrimStartChar(trimmed, '#')) else ""
  }

  /** Index of the first non-empty text, or -1. */
  function FirstNonEmptyIndex(texts: seq<string>): (r: int)
    ensures -1 <= r < |texts|
    ensures r >= 0 ==> texts[r] != "" && forall j :: 0 <= j < r ==> texts[j] == ""
    ensures r == -1 ==> forall j :: 0 <= j < |texts| ==> texts[j] == ""
    decreases |texts|
  {
    if |texts| == 0 then -1
    else if texts[0] != "" then 0
    else
      var k := FirstNonEmptyIndex(texts[1..]);
      assert forall j :: 1 <= j < |texts| ==> texts[j] == texts[1..][j - 1];
      if k < 0 then -1 else k + 1
  }

  function Headings(lines: seq<string>): (r: seq<string>)
    ensures |r| == |lines| && forall i :: 0 <= i < |lines| ==> r[i] == HeadingText(lines[i])
  {
    seq(|lines|, i requires 0 <= i < |lines| => HeadingText(lines[i]))
  }

  function Trimmed(lines: seq<string>): (r: seq<string>)
    ensures |r| == |lines| && forall i :: 0 <= i < |lines| ==> r[i] == Trim(lines[i])
  {
    seq(|lines|, i requires 0 <= i < |lines| => Trim(lines[i]))
  }

  /** Index of the first line with a non-empty heading, or -1. */
  function FirstHeadingIndex(lines: seq<string>): (r: int)
    ensures -1 <= r < |lines|
    ensures r >= 0 ==> HeadingText(lines[r]) != "" && forall j :: 0 <= j < r ==> HeadingText(lines[j]) == ""
    ensures r == -1 ==> forall j :: 0 <= j < |lines| ==> HeadingText(lines[j]) == ""
  {
    FirstNonEmptyIndex(Headings(lines))
  }

  /** Index of the first line that is not blank, or -1. */
  function FirstNonBlankIndex(lines: seq<string>): (r: int)
    ensures -1 <= r < |lines|
    ensures r >= 0 ==> Trim(lines[r]) != "" && forall j :: 0 <= j < r ==> Trim(lines[j]) == ""
    ensures r == -1 ==> forall j :: 0 <= j < |lines| ==> Trim(lines[j]) == ""
  {
    FirstNonEmptyIndex(Trimmed(lines))
  }

  /** `GetDescription`: a non-blank frontmatter description; else the first
      heading of the body; else its first non-blank line; else a default.
      Text taken from the body is cut to 200 characters. */
  function GetDescription(fm: Frontmatter, body: string): (r: string)
    ensures r != ""
    ensures var v := Get(fm, "description");
      v.Some? && v.value.Str? && !IsBlank(v.value.s) ==> r == v.value.s
    ensures var v := Get(fm, "description");
      !(v.Some? && v.value.Str? && !IsBlank(v.value.s)) ==> r == DescriptionFromBody(Split(body, '\n'))
  {
    var lines := Split(body, '\n');
    match Get<Value>(fm, "description")
    case Some(Str(desc)) =>
      if !IsBlank(desc) then desc else DescriptionFromBody(lines)
    case _ => DescriptionFromBody(lines)
  }

  function DescriptionFromBody(lines: seq<string>): (r: string)
    ensures r != "" && |r| <= MaxDerivedDescriptionLength
    ensures var h := FirstHeadingIndex(lines);
      h >= 0 ==> r == Truncate(HeadingText(lines[h]), MaxDerivedDescriptionLength)
    ensures FirstHeadingIndex(lines) < 0 && FirstNonBlankIndex(lines) >= 0 ==>
              r == Truncate(Trim(lines[FirstNonBlankIndex(lines)]), MaxDerivedDescriptionLength)
    ensures FirstHeadingIndex(lines) < 0 && FirstNonBlankIndex(lines) < 0 ==> r == DefaultDescription
  {
    var h := FirstHeadingIndex(lines);
    if h >= 0 then Truncate(HeadingText(lines[h]), MaxDerivedDescriptionLength)
    else
      var k := FirstNonBlankIndex(lines);
      if k >= 0 then Truncate(Trim(lines[k]), MaxDerivedDescriptionLength)
      else DefaultDescription
  }

  // ---------------------------------------------------------------------
  // Hashes

  const HexDigits := "0123456789abcdef"

  predicate IsLowerHexDigit(c: char) {
    ('0' <= c <= '9') || ('a' <= c <= 'f')
  }

  function HexByte(b: byte): (r: string)
    ensures |r| == 2 && IsLowerHexDigit(r[0]) && IsLowerHexDigit(r[1])
  {
    [HexDigits[b / 16], HexDigits[b % 16]]
  }

  /** `Convert.ToHexString(...).ToLowerInvariant()`. */
  function Hex(bs: seq<byte>): (r: string)
    ensures |r| == 2 * |bs|
    ensures forall i :: 0 <= i < |r| ==> IsLowerHexDigit(r[i])
    decreases |bs|
  {
    if |bs| == 0 then "" else HexByte(bs[0]) + Hex(bs[1..])
  }

  /** The value of a lower-case hex digit; any other character reads as 0. */
  function HexValue(c: char): (v: nat)
    ensures v < 16
    ensures IsLowerHexDigit(c) ==> HexDigits[v] == c
  {
    if '0' <= c <= '9' then c as int - '0' as int
    else if 'a' <= c <= 'f' then c as int - 'a' as int + 10
    else 0
  }

  /** Reads hex back into bytes, two digits at a time. */
  function ParseHex(s: string): (r: seq<byte>)
    ensures |r| == |s| / 2
    decreases |s|
  {
    if |s| < 2 then []
    else [HexValue(s[0]) * 16 + HexValue(s[1])] + ParseHex(s[2..])
  }

  /** Hex digits determine the byte they came from. */
  lemma {:induction false} ParseHexOfHex(bs: seq<byte>)
    ensures ParseHex(Hex(bs)) == bs
    decreases |bs|
  {
    if |bs| > 0 {
      var d, t := HexByte(bs[0]), Hex(bs[1..]);
      ParseHexOfHex(bs[1..]);
      HexUnfold(bs);
      HexByteValue(bs[0]);
      ParseHexCons(d, t);
      var v: byte := HexValue(d[0]) * 16 + HexValue(d[1]);
      assert [v] == [bs[0]];
      assert ParseHex(d + t) == [v] + ParseHex(t);
      assert bs == [bs[0]] + bs[1..];
    }
  }

  lemma HexUnfold(bs: seq<byte>)
    requires |bs| > 0
    ensures Hex(bs) == HexByte(bs[0]) + Hex(bs[1..])
  {
  }

  /** Reading two digits in front of more hex. */
  lemma ParseHexCons(d: string, rest: string)
    requires |d| == 2
    ensures ParseHex(d + rest) == [HexValue(d[0]) * 16 + HexValue(d[1])] + ParseHex(rest)
  {
    var s := d + rest;
    assert s[0] == d[0] && s[1] == d[1] && s[2..] == rest;
  }

  /** The two digits of a byte read back as that byte. */
  lemma HexByteValue(b: byte)
    ensures HexValue(HexByte(b)[0]) * 16 + HexValue(HexByte(b)[1]) == b as int
  {
    var h := HexByte(b);
    assert HexValue(h[0]) == b / 16 by {
      HexDigitsDistinct(HexValue(h[0]), b as int / 16);
    }
    assert HexValue(h[1]) == b % 16 by {
      HexDigitsDistinct(HexValue(h[1]), b as int % 16);
    }
  }

  lemma HexDigitsDistinct(i: nat, j: nat)
    requires i < 16 && j < 16 && HexDigits[i] == HexDigits[j]
    ensures i == j
  {
  }

  const HashPrefix := "sha256:"

  /** The hash string of a digest: `sha256:` and 64 lower-case hex digits. */
  function HashString(d: Digest): (r: string)
    ensures |r| == 71
    ensures StartsWith(r, HashPrefix)
    ensures forall i :: 7 <= i < |r| ==> IsLowerHexDigit(r[i])
    ensures ParseHex(r[7..]) == d
  {
    var r := HashPrefix + Hex(d);
    assert r[..7] == HashPrefix && r[7..] == Hex(d);
    ParseHexOfHex(d);
    r
  }

  /** `ComputeFileHash`. */
  function ComputeFileHash(host: Host, dir: DirectorySnapshot, file: DiskFile): (r: Result<string, ScanError>)
    ensures r.Success? <==> file.readable
    ensures r.Success? ==> r.value == HashString(host.sha256(file.bytes))
  {
    if !file.readable then Failure(IOError(FullNameOf(dir, file)))
    else Success(HashString(host.sha256(file.bytes)))
  }

  // ---------------------------------------------------------------------
  // The file list

  function Key(dir: DirectorySnapshot, f: DiskFile): string {
    FullNameOf(dir, f)
  }

  /** Ordinal order on full names, ties allowed. */
  predicate SortedByFullName(dir: DirectorySnapshot, fs: seq<DiskFile>) {
    forall i, j :: 0 <= i < j < |fs| ==> !OrdinalLess(Key(dir, fs[j]), Key(dir, fs[i]))
  }

  function Insert(dir: DirectorySnapshot, f: DiskFile, fs: seq<DiskFile>): (r: seq<DiskFile>)
    requires SortedByFullName(dir, fs)
    ensures SortedByFullName(dir, r)
    ensures multiset(r) == multiset(fs) + multiset{f}
    decreases |fs|
  {
    if |fs| == 0 then [f]
    else if !OrdinalLess(Key(dir, fs[0]), Key(dir, f)) then
      InsertFront(dir, f, fs);
      [f] + fs
    else
      var rest := Insert(dir, f, fs[1..]);
      InsertAfter(dir, f, fs, rest);
      assert fs == [fs[0]] + fs[1..];
      [fs[0]] + rest
  }

  lemma InsertFront(dir: DirectorySnapshot, f: DiskFile, fs: seq<DiskFile>)
    requires SortedByFullName(dir, fs) && |fs| > 0 && !OrdinalLess(Key(dir, fs[0]), Key(dir, f))
    ensures SortedByFullName(dir, [f] + fs)
  {
    var r := [f] + fs;
    forall i, j | 0 <= i < j < |r| ensures !OrdinalLess(Key(dir, r[j]), Key(dir, r[i])) {
      if i == 0 && j > 1 {
        NotLessTransitive(Key(dir, f), Key(dir, fs[0]), Key(dir, fs[j - 1]));
      }
    }
  }

  lemma InsertAfter(dir: DirectorySnapshot, f: DiskFile, fs: seq<DiskFile>, rest: seq<DiskFile>)
    requires SortedByFullName(dir, fs) && |fs| > 0 && OrdinalLess(Key(dir, fs[0]), Key(dir, f))
    requires SortedByFullName(dir, rest) && multiset(rest) == multiset(fs[1..]) + multiset{f}
    ensures SortedByFullName(dir, [fs[0]] + rest)
  {
    var r := [fs[0]] + rest;
    forall i, j | 0 <= i < j < |r| ensures !OrdinalLess(Key(dir, r[j]), Key(dir, r[i])) {
      if i == 0 {
        var x := rest[j - 1];
        assert x in multiset(rest);
        if x == f {
          OrdinalAsymmetric(Key(dir, fs[0]), Key(dir, f));
        } else {
          assert x in multiset(fs[1..]);
          var k :| 0 <= k < |fs[1..]| && fs[1..][k] == x;
          assert fs[k + 1] == x;
        }
      }
    }
  }

  lemma OrdinalAsymmetric(a: string, b: string)
    requires OrdinalLess(a, b)
    ensures !OrdinalLess(b, a)
  {
    if OrdinalLess(b, a) {
      OrdinalTransitive(a, b, a);
      OrdinalIrreflexive(a);
    }
  }

  /** `!(b < a)` and `!(c < b)` give `!(c < a)`. */
  lemma NotLessTransitive(a: string, b: string, c: string)
    requires !OrdinalLess(b, a) && !OrdinalLess(c, b)
    ensures !OrdinalLess(c, a)
  {
    OrdinalTotal(a, b);
    OrdinalTotal(b, c);
    if OrdinalLess(c, a) {
      if a == b {
      } else if b == c {
      } else {
        OrdinalTransitive(a, b, c);
        OrdinalTransitive(c, a, b);
        OrdinalIrreflexive(b);
      }
    }
  }

  /** `OrderBy(f => f.FullName, StringComparer.Ordinal)`. */
  function SortByFullName(dir: DirectorySnapshot, fs: seq<DiskFile>): (r: seq<DiskFile>)
    ensures SortedByFullName(dir, r)
    ensures multiset(r) == multiset(fs)
    decreases |fs|
  {
    if |fs| == 0 then []
    else
      assert fs == fs[..|fs| - 1] + [fs[|fs| - 1]];
      Insert(dir, fs[|fs| - 1], SortByFullName(dir, fs[..|fs| - 1]))
  }

  /** The POSIX form of a relative path. */
  function PosixPath(relativePath: string): (r: string)
    ensures '\\' !in r && |r| == |relativePath|
  {
    ReplaceChar(relativePath, '\\', '/')
  }

  /** The file entries of the given files, in their order, or the first
      read error. */
  function FileInfos(host: Host, dir: DirectorySnapshot, fs: seq<DiskFile>): (r: Result<seq<SkillFileInfo>, ScanError>)
    ensures r.Success? ==> |r.value| == |fs|
    ensures r.Success? ==> forall i :: 0 <= i < |fs| ==>
              r.value[i] == SkillFileInfo(PosixPath(fs[i].relativePath), |fs[i].bytes|, HashString(host.sha256(fs[i].bytes)))
    ensures r.Success? <==> forall i :: 0 <= i < |fs| ==> fs[i].readable
    decreases |fs|
  {
    if |fs| == 0 then Success([])
    else
      var init := FileInfos(host, dir, fs[..|fs| - 1]);
      var last := fs[|fs| - 1];
      ReadableSnoc(fs, fs[..|fs| - 1]);
      if init.Failure? then init
      else match ComputeFileHash(host, dir, last)
        case Failure(e) => Failure(e)
        case Success(hash) =>
          var info := SkillFileInfo(PosixPath(last.relativePath), |last.bytes|, hash);
          InfosSnoc(host, fs, init.value, info);
          Success(init.value + [info])
  }

  lemma ReadableSnoc(fs: seq<DiskFile>, init: seq<DiskFile>)
    requires |fs| > 0 && init == fs[..|fs| - 1]
    ensures (forall i :: 0 <= i < |fs| ==> fs[i].readable)
            <==> (forall i :: 0 <= i < |init| ==> init[i].readable) && fs[|fs| - 1].readable
  {
    assert forall i :: 0 <= i < |init| ==> init[i] == fs[i];
  }

  lemma InfosSnoc(host: Host, fs: seq<DiskFile>, infos: seq<SkillFileInfo>, info: SkillFileInfo)
    requires |fs| > 0 && |infos| == |fs| - 1
    requires forall i :: 0 <= i < |fs| - 1 ==>
               infos[i] == SkillFileInfo(PosixPath(fs[..|fs| - 1][i].relativePath), |fs[..|fs| - 1][i].bytes|,
                                         HashString(host.sha256(fs[..|fs| - 1][i].bytes)))
    requires var f := fs[|fs| - 1];
      info == SkillFileInfo(PosixPath(f.relativePath), |f.bytes|, HashString(host.sha256(f.bytes)))
    ensures forall i :: 0 <= i < |fs| ==>
              (infos + [info])[i] == SkillFileInfo(PosixPath(fs[i].relativePath), |fs[i].bytes|, HashString(host.sha256(fs[i].bytes)))
  {
    forall i | 0 <= i < |fs|
      ensures (infos + [info])[i] == SkillFileInfo(PosixPath(fs[i].relativePath), |fs[i].bytes|, HashString(host.sha256(fs[i].bytes)))
    {
      if i < |fs| - 1 {
        assert fs[..|fs| - 1][i] == fs[i];
      }
    }
  }

  lemma FileInfosSlice(host: Host, dir: DirectorySnapshot, fs: seq<DiskFile>, i: nat)
    requires i < |fs|
    ensures FileInfos(host, dir, fs[..i + 1])
            == var init := FileInfos(host, dir, fs[..i]);
               if init.Failure? then init
               else match ComputeFileHash(host, dir, fs[i])
                 case Failure(e) => Failure(e)
                 case Success(hash) => Success(init.value + [SkillFileInfo(PosixPath(fs[i].relativePath), |fs[i].bytes|, hash)])
  {
    assert fs[..i + 1][..i] == fs[..i];
  }

  /** What `ScanFiles` returns. */
  function ScanFilesResult(host: Host, dir: DirectorySnapshot): Result<seq<SkillFileInfo>, ScanError> {
    FileInfos(host, dir, SortByFullName(dir, dir.files))
  }

  /** `ScanFiles`: every file below the directory, ordered by full path,
      with its POSIX relative path, size and hash. */
  method ScanFiles(host: Host, dir: DirectorySnapshot) returns (r: Result<seq<SkillFileInfo>, ScanError>)
    ensures r == ScanFilesResult(host, dir)
  {
    var files: seq<SkillFileInfo> := [];
    var sorted := SortByFullName(dir, dir.files);
    for i := 0 to |sorted|
      invariant FileInfos(host, dir, sorted[..i]) == Success(files)
    {
      FileInfosSlice(host, dir, sorted, i);
      var file := sorted[i];
      var relativePath := PosixPath(file.relativePath);
      var hash := ComputeFileHash(host, dir, file);
      if hash.Failure? {
        FileInfosFailurePersists(host, dir, sorted, i + 1);
        assert sorted[..|sorted|] == sorted;
        return Failure(hash.error);
      }
      files := files + [SkillFileInfo(relativePath, |file.bytes|, hash.value)];
    }
    assert sorted[..|sorted|] == sorted;
    return Success(files);
  }

  /** Once a read fails, the error stays the first one reported. */
  lemma {:induction false} FileInfosFailurePersists(host: Host, dir: DirectorySnapshot, fs: seq<DiskFile>, n: nat)
    requires n <= |fs| && FileInfos(host, dir, fs[..n]).Failure?
    ensures FileInfos(host, dir, fs) == FileInfos(host, dir, fs[..n])
    decreases |fs| - n
  {
    if n < |fs| {
      assert fs[..n + 1][..n] == fs[..n];
      FileInfosFailurePersists(host, dir, fs, n + 1);
    } else {
      assert fs[..n] == fs;
    }
  }

  /** A successful file list names every file once, by a path without `\`,
      ordered by full path. */
  lemma ScanFilesShape(host: Host, dir: DirectorySnapshot)
    requires ScanFilesResult(host, dir).Success?
    ensures var files := ScanFilesResult(host, dir).value;
      var sorted := SortByFullName(dir, dir.files);
      && |files| == |dir.files|
      && multiset(sorted) == multiset(dir.files)
      && SortedByFullName(dir, sorted)
      && forall i :: 0 <= i < |files| ==>
           '\\' !in files[i].path && files[i].path == PosixPath(sorted[i].relativePath)
           && |files[i].hash| == 71
  {
    var sorted := SortByFullName(dir, dir.files);
    assert |multiset(sorted)| == |multiset(dir.files)|;
  }

  // ---------------------------------------------------------------------
  // One skill, and a parent directory of skills

  /** What `ScanSkill` returns or throws. */
  function ScanSkillResult(host: Host, rules: Rules, dir: Option<DirectorySnapshot>, path: string, mainFileName: string)
    : Result<SkillInfo, ScanError>
  {
    if dir.None? then Failure(DirectoryNotFound(path))
    else
      var d := dir.value;
      match FindMainFile(host, rules, d, mainFileName)
      case None => Failure(FileNotFound(mainFileName, path))
      case Some(mainFilePath) =>
        var f := FindFile(d, mainFilePath).value;
        if !f.readable then Failure(IOError(mainFilePath))
        else
          var (frontmatter, body) := ParseResult(host.decodeUtf8(f.bytes));
          match ScanFilesResult(host, d)
          case Failure(e) => Failure(e)
          case Success(files) =>
            Success(SkillInfo(GetSkillName(frontmatter, d.name), GetDescription(frontmatter, body),
                              d.fullName, GetFileName(mainFilePath), files, frontmatter))
  }

  /** `ScanSkill`. */
  method ScanSkill(host: Host, rules: Rules, dir: Option<DirectorySnapshot>, path: string, mainFileName: string)
    returns (r: Result<SkillInfo, ScanError>)
    ensures r == ScanSkillResult(host, rules, dir, path, mainFileName)
    ensures dir.None? ==> r == Failure(DirectoryNotFound(path))
    ensures dir.Some? && FindMainFile(host, rules, dir.value, mainFileName).None? ==>
              r == Failure(FileNotFound(mainFileName, path))
  {
    if dir.None? {
      return Failure(DirectoryNotFound(path));
    }
    var dirInfo := dir.value;
    var mainFilePath := FindMainFile(host, rules, dirInfo, mainFileName);
    if mainFilePath.None? {
      return Failure(FileNotFound(mainFileName, path));
    }
    var file := FindFile(dirInfo, mainFilePath.value).value;
    if !file.readable {
      return Failure(IOError(mainFilePath.value));
    }
    var content := host.decodeUtf8(file.bytes);
    var frontmatter, body := Parse(content);
    var name := GetSkillName(frontmatter, dirInfo.name);
    var description := GetDescription(frontmatter, body);
    var files := ScanFiles(host, dirInfo);
    if files.Failure? {
      return Failure(files.error);
    }
    return Success(SkillInfo(name, description, dirInfo.fullName, GetFileName(mainFilePath.value),
                             files.value, frontmatter));
  }

  /** The main file is found at a single-segment name under the directory:
      the exact name, a top-level match or the lower-cased name. */
  lemma MainFileNamed(host: Host, rules: Rules, d: DirectorySnapshot, mainFileName: string)
    requires FindMainFile(host, rules, d, mainFileName).Some?
    requires forall f :: f in d.files ==> f.relativePath != "" && !IsPathRooted(f.relativePath)
    requires IsFileName(mainFileName) && IsFileName(rules.toLowerInvariant(mainFileName))
    ensures var p := FindMainFile(host, rules, d, mainFileName).value;
      var f := FindFile(d, p).value;
      IsFileName(f.relativePath) && GetFileName(p) == f.relativePath
  {
    var p := FindMainFile(host, rules, d, mainFileName).value;
    var f := FindFile(d, p).value;
    var matches := TopLevelMatches(host, d.files, mainFileName);
    var n: string;
    if FindFile(d, Combine(d.fullName, mainFileName)).Some? {
      n := mainFileName;
    } else if |matches| > 0 {
      n := matches[0].relativePath;
    } else {
      n := rules.toLowerInvariant(mainFileName);
    }
    assert IsFileName(n) && p == Combine(d.fullName, n);
    CombineInjective(d.fullName, f.relativePath, n);
    FileNameOfCombine(d.fullName, n);
  }

  /** A scanned skill lists its own main file: some entry of its file list
      has the path recorded as the main file name. */
  lemma ScanSkillListsMainFile(host: Host, rules: Rules, d: DirectorySnapshot, mainFileName: string)
    requires ScanSkillResult(host, rules, Some(d), d.fullName, mainFileName).Success?
    requires forall f :: f in d.files ==> f.relativePath != "" && !IsPathRooted(f.relativePath) && '\\' !in f.relativePath
    requires IsFileName(mainFileName) && IsFileName(rules.toLowerInvariant(mainFileName))
    ensures var s := ScanSkillResult(host, rules, Some(d), d.fullName, mainFileName).value;
      exists i :: 0 <= i < |s.files| && s.files[i].path == s.mainFileName
  {
    var s := ScanSkillResult(host, rules, Some(d), d.fullName, mainFileName).value;
    ScanSkillParts(host, rules, d, mainFileName);
    var p := FindMainFile(host, rules, d, mainFileName).value;
    ListedAtItsPath(host, rules, d, mainFileName, FindFile(d, p).value);
  }

  /** The parts of a successful scan that name files. */
  lemma ScanSkillParts(host: Host, rules: Rules, d: DirectorySnapshot, mainFileName: string)
    requires ScanSkillResult(host, rules, Some(d), d.fullName, mainFileName).Success?
    ensures var s := ScanSkillResult(host, rules, Some(d), d.fullName, mainFileName).value;
      && FindMainFile(host, rules, d, mainFileName).Some?
      && ScanFilesResult(host, d).Success?
      && s.files == ScanFilesResult(host, d).value
      && s.mainFileName == GetFileName(FindMainFile(host, rules, d, mainFileName).value)
  {
  }

  lemma ListedAtItsPath(host: Host, rules: Rules, d: DirectorySnapshot, mainFileName: string, f: DiskFile)
    requires FindMainFile(host, rules, d, mainFileName).Some? && ScanFilesResult(host, d).Success?
    requires f == FindFile(d, FindMainFile(host, rules, d, mainFileName).value).value
    requires forall f :: f in d.files ==> f.relativePath != "" && !IsPathRooted(f.relativePath) && '\\' !in f.relativePath
    requires IsFileName(mainFileName) && IsFileName(rules.toLowerInvariant(mainFileName))
    ensures var files := ScanFilesResult(host, d).value;
      exists i :: 0 <= i < |files| && files[i].path == GetFileName(FindMainFile(host, rules, d, mainFileName).value)
  {
    MainFileNamed(host, rules, d, mainFileName);
    var i := FileListed(host, d, f);
    assert PosixPath(f.relativePath) == f.relativePath;
  }

  /** Every file of a successful file list appears in it, by its POSIX path. */
  lemma FileListed(host: Host, d: DirectorySnapshot, f: DiskFile) returns (i: nat)
    requires f in d.files && ScanFilesResult(host, d).Success?
    ensures i < |ScanFilesResult(host, d).value| && ScanFilesResult(host, d).value[i].path == PosixPath(f.relativePath)
  {
    var sorted := SortByFullName(d, d.files);
    assert f in multiset(sorted);
    i :| 0 <= i < |sorted| && sorted[i] == f;
  }

  /** The skills of the given subdirectories, in order, leaving out those
      without a main file and those whose scan fails. */
  function ScanAll(host: Host, rules: Rules, subdirs: seq<DirectorySnapshot>, mainFileName: string): (r: seq<SkillInfo>)
    ensures |r| <= |subdirs|
    decreases |subdirs|
  {
    if |subdirs| == 0 then []
    else
      var d := subdirs[|subdirs| - 1];
      ScanAll(host, rules, subdirs[..|subdirs| - 1], mainFileName)
      + (if FindMainFile(host, rules, d, mainFileName).None? then []
         else match ScanSkillResult(host, rules, Some(d), d.fullName, mainFileName)
           case Success(s) => [s]
           case Failure(_) => [])
  }

  /** `ScanDirectory`: empty for a missing parent; otherwise every
      subdirectory in the listing's (sorted) order. */
  method ScanDirectory(host: Host, rules: Rules, parent: Option<seq<DirectorySnapshot>>, mainFileName: string)
    returns (skills: seq<SkillInfo>)
    ensures parent.None? ==> skills == []
    ensures parent.Some? ==> skills == ScanAll(host, rules, parent.value, mainFileName)
  {
    if parent.None? {
      return [];
    }
    var subdirs := parent.value;
    skills := [];
    for i := 0 to |subdirs|
      invariant skills == ScanAll(host, rules, subdirs[..i], mainFileName)
    {
      assert subdirs[..i + 1][..i] == subdirs[..i];
      var dirInfo := subdirs[i];
      var mainFile := FindMainFile(host, rules, dirInfo, mainFileName);
      if mainFile.None? {
        continue;
      }
      var scanned := ScanSkill(host, rules, Some(dirInfo), dirInfo.fullName, mainFileName);
      if scanned.Success? {
        skills := skills + [scanned.value];
      }
    }
    assert subdirs[..|subdirs|] == subdirs;
  }

  /** The batch scan keeps exactly the subdirectories whose own scan
      succeeds: each result is such a scan, and each such scan is kept. */
  lemma {:induction false} ScanAllExact(host: Host, rules: Rules, subdirs: seq<DirectorySnapshot>, mainFileName: string)
    ensures forall s :: s in ScanAll(host, rules, subdirs, mainFileName) ==>
              exists d :: d in subdirs && ScanSkillResult(host, rules, Some(d), d.fullName, mainFileName) == Success(s)
    ensures forall d :: d in subdirs && ScanSkillResult(host, rules, Some(d), d.fullName, mainFileName).Success? ==>
              ScanSkillResult(host, rules, Some(d), d.fullName, mainFileName).value in ScanAll(host, rules, subdirs, mainFileName)
    decreases |subdirs|
  {
    if |subdirs| > 0 {
      var init := subdirs[..|subdirs| - 1];
      var d := subdirs[|subdirs| - 1];
      ScanAllExact(host, rules, init, mainFileName);
      assert subdirs == init + [d];
      forall s | s in ScanAll(host, rules, subdirs, mainFileName)
        ensures exists d' :: d' in subdirs && ScanSkillResult(host, rules, Some(d'), d'.fullName, mainFileName) == Success(s)
      {
        if s !in ScanAll(host, rules, init, mainFileName) {
          assert ScanSkillResult(host, rules, Some(d), d.fullName, mainFileName) == Success(s);
        } else {
          var d' :| d' in init && ScanSkillResult(host, rules, Some(d'), d'.fullName, mainFileName) == Success(s);
          assert d' in subdirs;
        }
      }
    }
  }
}
