/**
 * The Statistics Canada provider: product-id normalisation and formatting,
 * the Web Data Service (WDS) download URL, ZIP extraction, the manifest
 * precedence rule, the per-file provenance sidecars and the control flow of
 * `download_statcan_table` (skip if present, temporary ZIP always removed,
 * failures wrapped with the product id).
 */
module StatCan {
  import opened Wrappers
  import opened Strings
  import opened Paths
  import opened Common
  import Provenance

  // ---------------------------------------------------------------------------
  // Product ids

  /** An 8-digit product id. */
  predicate IsPid(p: string) { |p| == 8 && AllDigits(p) }

  /** The characters `_normalize_pid` keeps once the id is stripped: all but spaces and hyphens. */
  predicate IdChar(c: char) { c != ' ' && c != '-' }

  /** The id with surrounding whitespace stripped and every space and hyphen dropped. */
  function CleanId(tableId: string): string { FilterChars(Strip(tableId), IdChar) }

  /** `table_id.strip().replace(' ', '').replace('-', '')` keeps exactly the stripped id's characters other than spaces and hyphens. */
  lemma RemovalsClean(tableId: string)
    ensures ReplaceAll(ReplaceAll(Strip(tableId), " ", ""), "-", "") == CleanId(tableId)
  {
    var s := Strip(tableId);
    var all := (x: char) => true;
    var noSpace := (x: char) => x != ' ';
    assert FilterChars(s, all) == s by { assert AllChars(s, all); }
    RemoveCharFiltered(s, ' ', all, noSpace);
    RemoveCharFiltered(s, '-', noSpace, IdChar);
  }

  /**
   * `_normalize_pid(table_id)`: strip surrounding whitespace, drop every space
   * and hyphen, and keep the first 8 characters when they are all digits;
   * otherwise `ValueError` naming the original id.
   */
  function NormalizePid(tableId: string): (r: Result<string>)
    ensures r.Ok? ==> IsPid(r.value)
    ensures r.Err? ==> r.error == InvalidTableId(tableId)
  {
    var pid := ReplaceAll(ReplaceAll(Strip(tableId), " ", ""), "-", "");
    if |pid| >= 8 && AllDigits(pid[..8]) then Ok(pid[..8]) else Err(InvalidTableId(tableId))
  }

  /** An id is accepted exactly when its cleaned form starts with eight digits, which are then the product id. */
  lemma NormalizePidCleans(tableId: string)
    ensures NormalizePid(tableId).Ok? <==> |CleanId(tableId)| >= 8 && AllDigits(CleanId(tableId)[..8])
    ensures NormalizePid(tableId).Ok? ==> NormalizePid(tableId).value == CleanId(tableId)[..8]
  {
    RemovalsClean(tableId);
  }

  /** An id whose cleaned form starts with a product id normalises to that id, whatever follows. */
  lemma NormalizeKeepsLeadingPid(tableId: string, p: string)
    requires IsPid(p) && StartsWith(CleanId(tableId), p)
    ensures NormalizePid(tableId) == Ok(p)
  {
    NormalizePidCleans(tableId);
  }

  /** Ids whose cleaned form is shorter than eight characters or has a non-digit among its first eight are rejected. */
  lemma NormalizePidRejects(tableId: string)
    requires var c := CleanId(tableId); |c| < 8 || exists i :: 0 <= i < 8 && !IsDigit(c[i])
    ensures NormalizePid(tableId) == Err(InvalidTableId(tableId))
  {
    var c := CleanId(tableId);
    NormalizePidCleans(tableId);
    if |c| >= 8 {
      var i :| 0 <= i < 8 && !IsDigit(c[i]);
      assert c[..8][i] == c[i];
    }
  }

  /** A string with neither whitespace nor hyphens comes through stripping and the two deletions unchanged. */
  lemma SeparatorFreeUnchanged(s: string)
    requires forall i :: 0 <= i < |s| ==> !IsSpace(s[i]) && s[i] != '-'
    ensures ReplaceAll(ReplaceAll(Strip(s), " ", ""), "-", "") == s
  {
    if s != [] {
      StripNoSpace(s);
    }
    assert forall i :: 0 <= i < |s| ==> s[i] != ' ' && s[i] != '-';
    NotContainsWithoutHead(s, " ");
    ReplaceAllAbsent(s, " ", "");
    NotContainsWithoutHead(s, "-");
    ReplaceAllAbsent(s, "-", "");
  }

  /** The special case of `NormalizeKeepsLeadingPid` for ids with neither whitespace nor hyphens, proved from the deletions directly. */
  lemma SeparatorFreeKeepsLeadingPid(p: string, suffix: string)
    requires IsPid(p)
    requires forall i :: 0 <= i < |suffix| ==> !IsSpace(suffix[i]) && suffix[i] != '-'
    ensures NormalizePid(p + suffix) == Ok(p)
  {
    var s := p + suffix;
    assert forall i :: 0 <= i < |s| ==> !IsSpace(s[i]) && s[i] != '-' by {
      forall i | 0 <= i < |s| ensures !IsSpace(s[i]) && s[i] != '-' {
        if i < |p| { assert s[i] == p[i] && IsDigit(p[i]); } else { assert s[i] == suffix[i - |p|]; }
      }
    }
    SeparatorFreeUnchanged(s);
    assert s[..8] == p;
  }

  /** The special case of `NormalizePidRejects` for ids with neither whitespace nor hyphens. */
  lemma SeparatorFreeRejects(tableId: string)
    requires forall i :: 0 <= i < |tableId| ==> !IsSpace(tableId[i]) && tableId[i] != '-'
    requires |tableId| < 8 || exists i :: 0 <= i < 8 && !IsDigit(tableId[i])
    ensures NormalizePid(tableId) == Err(InvalidTableId(tableId))
  {
    SeparatorFreeUnchanged(tableId);
    if |tableId| >= 8 {
      var i :| 0 <= i < 8 && !IsDigit(tableId[i]);
      assert tableId[..8][i] == tableId[i];
    }
  }

  /** A product id normalises to itself; so normalising a normalised id changes nothing. */
  lemma NormalizePidIdempotent(tableId: string)
    requires NormalizePid(tableId).Ok?
    ensures NormalizePid(NormalizePid(tableId).value) == NormalizePid(tableId)
  {
    var p := NormalizePid(tableId).value;
    SeparatorFreeKeepsLeadingPid(p, "");
    assert p + "" == p;
  }

  /** `_format_table_number(pid)`: `NN-NN-NNNN` for 8 characters, anything else unchanged. */
  function FormatTableNumber(pid: string): string {
    if |pid| == 8 then pid[..2] + "-" + pid[2..4] + "-" + pid[4..] else pid
  }

  /** The formatted number has hyphens at positions 2 and 5 and the pid's characters everywhere else. */
  lemma FormatTableNumberShape(pid: string)
    requires |pid| == 8
    ensures var t := FormatTableNumber(pid);
      && |t| == 10 && t[2] == '-' && t[5] == '-'
      && t[..2] == pid[..2] && t[3..5] == pid[2..4] && t[6..] == pid[4..]
  {
  }

  /** Removing the hyphens of a formatted table number gives the product id back. */
  lemma FormatHyphensRemoved(pid: string)
    requires IsPid(pid)
    ensures ReplaceAll(FormatTableNumber(pid), "-", "") == pid
  {
    var a, b, c := pid[..2], pid[2..4], pid[4..];
    assert forall i :: 0 <= i < |c| ==> IsDigit(c[i]);
    HyphensBetweenRemoved(a, b, c, '-');
    assert FormatTableNumber(pid) == a + ['-'] + (b + ['-'] + c);
    SliceThree(pid, 2, 4);
  }

  /** Removing the two hyphens between three hyphen-free strings joins them. */
  lemma HyphensBetweenRemoved(a: string, b: string, c: string, h: char)
    requires h !in a && h !in b && h !in c
    ensures ReplaceAll(a + [h] + (b + [h] + c), [h], "") == a + (b + c)
  {
    NotContainsWithoutHead(c, [h]);
    ReplaceAllAbsent(c, [h], "");
    RemoveCharAfter(b, c, h);
    RemoveCharAfter(a, b + [h] + c, h);
  }

  /** A formatted table number has no surrounding whitespace and no spaces. */
  lemma FormatHasNoSpace(pid: string)
    requires IsPid(pid)
    ensures var t := FormatTableNumber(pid); Strip(t) == t && ReplaceAll(t, " ", "") == t
  {
    var t := FormatTableNumber(pid);
    assert IsDigit(t[0]) && IsDigit(t[|t| - 1]);
    StripNoSpace(t);
    assert forall i :: 0 <= i < |t| ==> t[i] != ' ';
    NotContainsWithoutHead(t, " ");
    ReplaceAllAbsent(t, " ", "");
  }

  /** Normalising the formatted table number of a product id gives the id back. */
  lemma NormalizeFormatRoundTrip(pid: string)
    requires IsPid(pid)
    ensures NormalizePid(FormatTableNumber(pid)) == Ok(pid)
  {
    FormatHasNoSpace(pid);
    FormatHyphensRemoved(pid);
    assert pid[..8] == pid;
  }

  /** Three consecutive slices make up the whole sequence. */
  lemma SliceThree(s: string, i: nat, j: nat)
    requires i <= j <= |s|
    ensures s[..i] + s[i..j] + s[j..] == s
  {
  }

  /** The unit tests' already-normalised id is kept. */
  lemma NormalizePidPlainExample()
    ensures NormalizePid("18100004") == Ok("18100004")
  {
    SeparatorFreeKeepsLeadingPid("18100004", "");
    assert "18100004" + "" == "18100004";
  }

  /** The unit tests' 10-digit id keeps its first eight digits. */
  lemma NormalizePidTrailingDigitsExample()
    ensures NormalizePid("1810000401") == Ok("18100004")
  {
    SeparatorFreeKeepsLeadingPid("18100004", "01");
    assert "18100004" + "01" == "1810000401";
  }

  /** The table number the unit tests expect for `18100004`. */
  lemma FormatTableNumberExample()
    ensures FormatTableNumber("18100004") == "18-10-0004"
  {
  }

  /** The unit tests' hyphenated id `18-10-0004` normalises to `18100004`. */
  lemma NormalizePidHyphenatedExample()
    ensures NormalizePid("18-10-0004") == Ok("18100004")
  {
    var p := "18100004";
    NormalizeFormatRoundTrip(p);
    FormatTableNumberExample();
  }

  /** Single spaces between separator-free groups are dropped: `a b c d` cleans to `abcd`. */
  lemma SpacedGroupsJoined(a: string, b: string, c: string, d: string)
    requires a != [] && d != []
    requires forall x :: x in a + b + c + d ==> !IsSpace(x) && x != '-'
    ensures ReplaceAll(ReplaceAll(Strip(a + [' '] + (b + [' '] + (c + [' '] + d))), " ", ""), "-", "") == a + (b + (c + d))
  {
    var t := a + [' '] + (b + [' '] + (c + [' '] + d));
    assert t[0] == a[0] && t[|t| - 1] == d[|d| - 1];
    StripNoSpace(t);
    assert forall x :: x in a ==> x in a + b + c + d;
    assert forall x :: x in b ==> x in a + b + c + d;
    assert forall x :: x in c ==> x in a + b + c + d;
    assert forall x :: x in d ==> x in a + b + c + d;
    RemoveCharAfter(a, b + [' '] + (c + [' '] + d), ' ');
    RemoveCharAfter(b, c + [' '] + d, ' ');
    RemoveCharAfter(c, d, ' ');
    NotContainsWithoutHead(d, " ");
    ReplaceAllAbsent(d, " ", "");
    var pid := a + (b + (c + d));
    assert forall x :: x in pid ==> x in a + b + c + d;
    NotContainsWithoutHead(pid, "-");
    ReplaceAllAbsent(pid, "-", "");
  }

  /** Groups of a product id's digits separated by single spaces normalise to that id. */
  lemma SpacedPidNormalizes(a: string, b: string, c: string, d: string)
    requires a != [] && d != [] && IsPid(a + (b + (c + d)))
    ensures NormalizePid(a + [' '] + (b + [' '] + (c + [' '] + d))) == Ok(a + (b + (c + d)))
  {
    var pid := a + (b + (c + d));
    var t := a + [' '] + (b + [' '] + (c + [' '] + d));
    assert ReplaceAll(ReplaceAll(Strip(t), " ", ""), "-", "") == pid by {
      assert a + b + c + d == pid;
      forall x | x in a + b + c + d ensures !IsSpace(x) && x != '-' {
        var i :| 0 <= i < |pid| && pid[i] == x;
        assert IsDigit(pid[i]);
      }
      SpacedGroupsJoined(a, b, c, d);
    }
    assert pid[..8] == pid;
  }

  /** Spaces between the groups are dropped too: `18 10 00 04` normalises to `18100004`. */
  lemma NormalizePidSpacedExample()
    ensures NormalizePid("18 10 00 04") == Ok("18100004")
  {
    calc {
      NormalizePid("18 10 00 04");
    == { assert "18" + [' '] + ("10" + [' '] + ("00" + [' '] + "04")) == "18 10 00 04"; }
      NormalizePid("18" + [' '] + ("10" + [' '] + ("00" + [' '] + "04")));
    == { assert "18" + ("10" + ("00" + "04")) == "18100004"; SpacedPidNormalizes("18", "10", "00", "04"); }
      Ok("18100004");
    }
  }

  /** The unit tests' rejected word `invalid`. */
  lemma NormalizePidWordExample()
    ensures NormalizePid("invalid").Err?
  {
    assert !IsDigit("invalid"[0]);
    SeparatorFreeRejects("invalid");
  }

  /** The unit tests' too-short id `123`. */
  lemma NormalizePidShortExample()
    ensures NormalizePid("123").Err?
  {
    SeparatorFreeRejects("123");
  }

  /** The unit tests' id with letters in front is rejected. */
  lemma NormalizePidLettersExample()
    ensures NormalizePid("abc12345").Err?
  {
    assert !IsDigit("abc12345"[0]);
    SeparatorFreeRejects("abc12345");
  }

  // ---------------------------------------------------------------------------
  // The WDS endpoint

  const WdsPrefix: string := "https://www150.statcan.gc.ca/t1/wds/rest/getFullTableDownloadCSV/"

  /** `_build_wds_url(pid, language)`. */
  function BuildWdsUrl(pid: string, language: string): string {
    WdsPrefix + language + "/" + pid
  }

  /** Reads the language and the product id back out of a WDS download URL. */
  function ParseWdsUrl(url: string): Option<(string, string)> {
    if !StartsWith(url, WdsPrefix) then None
    else
      var rest := url[|WdsPrefix|..];
      var language := FirstSegment(rest, '/');
      if |language| == |rest| then None else Some((language, rest[|language| + 1..]))
  }

  /** The URL holds exactly the language and the product id, which can be read back. */
  lemma WdsUrlRoundTrip(pid: string, language: string)
    requires '/' !in language
    ensures ParseWdsUrl(BuildWdsUrl(pid, language)) == Some((language, pid))
  {
    var url := BuildWdsUrl(pid, language);
    assert url[..|WdsPrefix|] == WdsPrefix;
    assert StartsWith(url, WdsPrefix);
    var rest := url[|WdsPrefix|..];
    assert rest == language + ("/" + pid);
    FirstSegmentOfPrefix(language, "/" + pid, '/');
    assert FirstSegment(rest, '/') == language;
    assert |language| < |rest|;
    assert rest[|language| + 1..] == pid;
  }

  /** The part before the first `c` of `a + b` is `a` when `a` has no `c` and `b` starts with `c`. */
  lemma {:induction false} FirstSegmentOfPrefix(a: string, b: string, c: char)
    requires c !in a && |b| > 0 && b[0] == c
    ensures FirstSegment(a + b, c) == a
  {
    if a != [] {
      assert (a + b)[1..] == a[1..] + b;
      FirstSegmentOfPrefix(a[1..], b, c);
    }
  }

  /** The two URLs the unit tests expect. */
  lemma WdsUrlExamples()
    ensures BuildWdsUrl("18100004", "en") == WdsPrefix + "en/18100004"
    ensures BuildWdsUrl("18100004", "fr") == WdsPrefix + "fr/18100004"
  {
  }

  // ---------------------------------------------------------------------------
  // _extract_zip

  /** A member of a ZIP archive, as `namelist()` names it, with its uncompressed content. */
  datatype Entry = Entry(name: string, data: Bytes)

  /** `zipfile.ZipFile(path)`: the archive's members in order, or None where it raises `BadZipFile`. */
  type Unzip = Bytes -> Option<seq<Entry>>

  /** Directory members are those whose name ends in `/`. */
  predicate IsDirEntry(e: Entry) { EndsWith(e.name, "/") }

  /** The paths `_extract_zip` reports for the members `es`: `output_dir / name` for each non-directory member, in archive order. */
  function ExtractedPaths(outDir: Path, es: seq<Entry>): seq<Path> {
    if es == [] then []
    else
      var e := es[|es| - 1];
      ExtractedPaths(outDir, es[..|es| - 1]) + (if IsDirEntry(e) then [] else [Child(outDir, e.name)])
  }

  /** The pieces of a member name that `zipfile` keeps in the target path: all but "", "." and "..". */
  function SafeParts(xs: seq<string>): (r: seq<string>)
    requires forall i :: 0 <= i < |xs| ==> '/' !in xs[i]
    ensures forall i :: 0 <= i < |r| ==> ValidPart(r[i]) && r[i] != ".."
  {
    if xs == [] then []
    else (if xs[0] != "" && xs[0] != "." && xs[0] != ".." then [xs[0]] else []) + SafeParts(xs[1..])
  }

  /** The parts of the target path `zipfile` derives from a member name. */
  function MemberParts(name: string): seq<string> {
    SafeParts(Split(name, '/'))
  }

  /**
   * Where `zip_ref.extract(name, output_dir)` writes the member: a leading
   * `/`, empty and `.` pieces and every `..` piece of the name are dropped
   * and the rest is appended to `output_dir`.
   */
  function ExtractTarget(outDir: Path, name: string): Path {
    PurePath(outDir.absolute, outDir.parts + MemberParts(name))
  }

  /** A file member whose name keeps no part (such as `.` or `..`): `zipfile` opens `output_dir` itself for writing, which raises `IsADirectoryError`. */
  predicate Unextractable(e: Entry) { !IsDirEntry(e) && MemberParts(e.name) == [] }

  /** The position of the first unextractable member, or `|es|` when there is none. */
  function FirstUnextractable(es: seq<Entry>): (k: nat)
    ensures k <= |es|
    ensures forall j :: 0 <= j < k ==> !Unextractable(es[j])
    ensures k < |es| ==> Unextractable(es[k])
  {
    if es == [] || Unextractable(es[0]) then 0
    else
      var k := 1 + FirstUnextractable(es[1..]);
      assert forall j :: 1 <= j < k ==> es[j] == es[1..][j - 1];
      k
  }

  /** The content `zip_ref.extract(name)` writes: that of the last member called `name` (`getinfo` reads a dictionary filled in archive order), or `default` when there is none. */
  function MemberData(es: seq<Entry>, name: string, default: Bytes): Bytes {
    if es == [] then default
    else if es[|es| - 1].name == name then es[|es| - 1].data
    else MemberData(es[..|es| - 1], name, default)
  }

  /** The disk after `zip_ref.extract` of every non-directory member of `es`, in order, with the member contents of the archive `all`. */
  function WriteEntries(disk: Disk, outDir: Path, all: seq<Entry>, es: seq<Entry>): Disk {
    if es == [] then disk
    else
      var e := es[|es| - 1];
      var d := WriteEntries(disk, outDir, all, es[..|es| - 1]);
      if IsDirEntry(e) then d else d[ExtractTarget(outDir, e.name) := MemberData(all, e.name, e.data)]
  }

  /** The target paths of the non-directory members of `es`, in archive order. */
  function Targets(outDir: Path, es: seq<Entry>): seq<Path> {
    if es == [] then []
    else
      var e := es[|es| - 1];
      Targets(outDir, es[..|es| - 1]) + (if IsDirEntry(e) then [] else [ExtractTarget(outDir, e.name)])
  }

  /**
   * What `_extract_zip` does with the members `es`: the file members before
   * the first unextractable one are written; that one raises
   * `IsADirectoryError`; when there is none the reported paths are returned.
   */
  function Extracted(disk: Disk, outDir: Path, es: seq<Entry>): (Disk, Result<seq<Path>>) {
    var k := FirstUnextractable(es);
    (WriteEntries(disk, outDir, es, es[..k]), if k < |es| then Err(IsADirectory(outDir)) else Ok(ExtractedPaths(outDir, es)))
  }

  /**
   * `_extract_zip(zip_path, output_dir, pid)`: opens the archive (a missing
   * file raises `FileNotFoundError`, a corrupt one `BadZipFile`), extracts
   * every non-directory member under `output_dir` and lists the paths.
   */
  method ExtractZip(disk: Disk, unzip: Unzip, zipPath: Path, outDir: Path) returns (disk': Disk, r: Result<seq<Path>>)
    ensures zipPath !in disk ==> disk' == disk && r == Err(FileNotFound(zipPath))
    ensures zipPath in disk && unzip(disk[zipPath]).None? ==> disk' == disk && r == Err(BadZipFile(zipPath))
    ensures zipPath in disk && unzip(disk[zipPath]).Some? ==> (disk', r) == Extracted(disk, outDir, unzip(disk[zipPath]).value)
  {
    disk' := disk;
    if zipPath !in disk {
      r := Err(FileNotFound(zipPath));
      return;
    }
    var contents := unzip(disk[zipPath]);
    if contents.None? {
      r := Err(BadZipFile(zipPath));
      return;
    }
    disk', r := ExtractMembers(disk, outDir, contents.value);
  }

  /** The loop of `_extract_zip` over the members of an opened archive. */
  method ExtractMembers(disk: Disk, outDir: Path, entries: seq<Entry>) returns (disk': Disk, r: Result<seq<Path>>)
    ensures disk' == Extracted(disk, outDir, entries).0
    ensures r == Extracted(disk, outDir, entries).1
  {
    disk' := disk;
    var files: seq<Path> := [];
    for i := 0 to |entries|
      invariant disk' == WriteEntries(disk, outDir, entries, entries[..i])
      invariant files == ExtractedPaths(outDir, entries[..i])
      invariant i <= FirstUnextractable(entries)
    {
      ExtractStep(disk, outDir, entries, i);
      var e := entries[i];
      if EndsWith(e.name, "/") {
        continue;
      }
      if MemberParts(e.name) == [] {
        assert Unextractable(e);
        assert FirstUnextractable(entries) == i;
        r := Err(IsADirectory(outDir));
        return;
      }
      disk' := disk'[ExtractTarget(outDir, e.name) := MemberData(entries, e.name, e.data)];
      files := files + [Child(outDir, e.name)];
    }
    assert entries[..|entries|] == entries;
    assert FirstUnextractable(entries) == |entries|;
    r := Ok(files);
  }

  /** One more member extends the written disk and the reported paths by that member's write and path, if it is a file. */
  lemma ExtractStep(disk: Disk, outDir: Path, es: seq<Entry>, i: nat)
    requires i < |es|
    ensures var d := WriteEntries(disk, outDir, es, es[..i]);
      WriteEntries(disk, outDir, es, es[..i + 1])
        == if IsDirEntry(es[i]) then d else d[ExtractTarget(outDir, es[i].name) := MemberData(es, es[i].name, es[i].data)]
    ensures ExtractedPaths(outDir, es[..i + 1])
      == ExtractedPaths(outDir, es[..i]) + if IsDirEntry(es[i]) then [] else [Child(outDir, es[i].name)]
  {
    assert es[..i + 1][..i] == es[..i];
    assert es[..i + 1][i] == es[i];
  }

  /** A single member contributes its path when it is a file and nothing when it is a directory. */
  lemma ExtractedPathsSingle(outDir: Path, e: Entry)
    ensures ExtractedPaths(outDir, [e]) == if IsDirEntry(e) then [] else [Child(outDir, e.name)]
  {
    assert [e][..0] == [];
  }

  /** The paths of a split archive are the paths of its first part followed by those of its second part. */
  lemma {:induction false} ExtractedPathsAppend(outDir: Path, es1: seq<Entry>, es2: seq<Entry>)
    ensures ExtractedPaths(outDir, es1 + es2) == ExtractedPaths(outDir, es1) + ExtractedPaths(outDir, es2)
    decreases |es2|
  {
    if es2 == [] {
      assert es1 + es2 == es1;
    } else {
      var n := |es2| - 1;
      assert (es1 + es2)[..|es1 + es2| - 1] == es1 + es2[..n];
      ExtractedPathsAppend(outDir, es1, es2[..n]);
    }
  }

  /** Extraction adds exactly the target paths to the disk and leaves every other file as it was. */
  lemma {:induction false} WriteEntriesFrame(disk: Disk, outDir: Path, all: seq<Entry>, es: seq<Entry>)
    ensures WriteEntries(disk, outDir, all, es).Keys == disk.Keys + set p | p in Targets(outDir, es)
    ensures forall p :: p in disk && p !in Targets(outDir, es) ==> WriteEntries(disk, outDir, all, es)[p] == disk[p]
  {
    if es != [] {
      WriteEntriesFrame(disk, outDir, all, es[..|es| - 1]);
    }
  }

  /** Every file member's target is among the targets. */
  lemma {:induction false} TargetListed(outDir: Path, es: seq<Entry>, i: nat)
    requires i < |es| && !IsDirEntry(es[i])
    ensures ExtractTarget(outDir, es[i].name) in Targets(outDir, es)
  {
    var n := |es| - 1;
    if i < n {
      assert es[..n][i] == es[i];
      TargetListed(outDir, es[..n], i);
    }
  }

  /** A target with at least one kept part lies strictly inside `output_dir`. */
  lemma ExtractTargetInside(outDir: Path, name: string)
    requires MemberParts(name) != []
    ensures IsProperAncestor(outDir, ExtractTarget(outDir, name))
  {
    assert (outDir.parts + MemberParts(name))[..|outDir.parts|] == outDir.parts;
  }

  /** Before the first unextractable member, extraction writes only strictly inside `output_dir`: every file outside it keeps its content and no file appears outside it. */
  lemma {:induction false} WriteEntriesInside(disk: Disk, outDir: Path, all: seq<Entry>, es: seq<Entry>)
    requires forall j :: 0 <= j < |es| ==> !Unextractable(es[j])
    ensures var d := WriteEntries(disk, outDir, all, es);
      && (forall p :: p in d && p !in disk ==> IsProperAncestor(outDir, p))
      && (forall p :: p in disk && !IsProperAncestor(outDir, p) ==> p in d && d[p] == disk[p])
  {
    if es != [] {
      var n := |es| - 1;
      assert forall j :: 0 <= j < n ==> es[..n][j] == es[j];
      WriteEntriesInside(disk, outDir, all, es[..n]);
      if !IsDirEntry(es[n]) {
        assert !Unextractable(es[n]);
        ExtractTargetInside(outDir, es[n].name);
      }
    }
  }

  /** Whatever the member names, `_extract_zip` never writes outside `output_dir` (the `../b.csv` and `/x.csv` cases included). */
  lemma ExtractionStaysInside(disk: Disk, outDir: Path, es: seq<Entry>)
    ensures var d := Extracted(disk, outDir, es).0;
      && (forall p :: p in d && p !in disk ==> IsProperAncestor(outDir, p))
      && (forall p :: p in disk && !IsProperAncestor(outDir, p) ==> p in d && d[p] == disk[p])
  {
    var k := FirstUnextractable(es);
    assert forall j :: 0 <= j < k ==> es[..k][j] == es[j];
    WriteEntriesInside(disk, outDir, es, es[..k]);
  }

  /** Whatever the default, the content looked up for the name of a member of `es` is that of a member of `es`. */
  lemma {:induction false} MemberDataDefault(es: seq<Entry>, i: nat, d: Bytes)
    requires i < |es|
    ensures MemberData(es, es[i].name, d) == MemberData(es, es[i].name, es[i].data)
  {
    var n := |es| - 1;
    if es[n].name != es[i].name {
      assert es[..n][i] == es[i];
      MemberDataDefault(es[..n], i, d);
    }
  }

  /** The content looked up for a name is that of the last member with the name. */
  lemma {:induction false} MemberDataLast(es: seq<Entry>, i: nat, d: Bytes)
    requires i < |es|
    requires forall j :: i < j < |es| ==> es[j].name != es[i].name
    ensures MemberData(es, es[i].name, d) == es[i].data
  {
    var n := |es| - 1;
    if i < n {
      assert es[..n][i] == es[i];
      assert forall j :: i < j < n ==> es[..n][j] == es[j];
      MemberDataLast(es[..n], i, d);
    }
  }

  /** A file member that no later file member with another name overwrites leaves the content looked up for its name at its target. */
  lemma {:induction false} ExtractedContent(disk: Disk, outDir: Path, all: seq<Entry>, es: seq<Entry>, i: nat)
    requires es <= all
    requires i < |es| && !IsDirEntry(es[i])
    requires forall j :: i < j < |es| && !IsDirEntry(es[j]) && ExtractTarget(outDir, es[j].name) == ExtractTarget(outDir, es[i].name) ==> es[j].name == es[i].name
    ensures ExtractTarget(outDir, es[i].name) in WriteEntries(disk, outDir, all, es)
    ensures WriteEntries(disk, outDir, all, es)[ExtractTarget(outDir, es[i].name)] == MemberData(all, es[i].name, es[i].data)
  {
    var n := |es| - 1;
    assert es == all[..|es|];
    if i < n {
      var init := es[..n];
      assert init[i] == es[i];
      assert init <= all by { assert init == all[..n]; }
      assert forall j :: i < j < n ==> init[j] == es[j];
      ExtractedContent(disk, outDir, all, init, i);
      var e := es[n];
      if !IsDirEntry(e) && ExtractTarget(outDir, e.name) == ExtractTarget(outDir, es[i].name) {
        assert e == all[n] && es[i] == all[i];
        MemberDataDefault(all, n, es[i].data);
      }
    }
  }

  /**
   * A file member written before any unextractable one, with no later file
   * member aiming at its target, leaves exactly its own content there.
   */
  lemma LastMemberAt(disk: Disk, outDir: Path, es: seq<Entry>, i: nat)
    requires i < FirstUnextractable(es) && !IsDirEntry(es[i])
    requires forall j :: i < j < |es| && !IsDirEntry(es[j]) ==> ExtractTarget(outDir, es[j].name) != ExtractTarget(outDir, es[i].name)
    ensures var d := Extracted(disk, outDir, es).0;
      ExtractTarget(outDir, es[i].name) in d && d[ExtractTarget(outDir, es[i].name)] == es[i].data
  {
    var k := FirstUnextractable(es);
    assert es[..k][i] == es[i];
    assert es[..k] <= es;
    LaterNamesDiffer(outDir, es, i);
    ExtractedContent(disk, outDir, es, es[..k], i);
    MemberDataLast(es, i, es[i].data);
  }

  /** No later member shares the name of a file member whose target no later file member aims at. */
  lemma LaterNamesDiffer(outDir: Path, es: seq<Entry>, i: nat)
    requires i < |es| && !IsDirEntry(es[i])
    requires forall j :: i < j < |es| && !IsDirEntry(es[j]) ==> ExtractTarget(outDir, es[j].name) != ExtractTarget(outDir, es[i].name)
    ensures forall j :: i < j < |es| ==> es[j].name != es[i].name
  {
  }

  /** Only `..` is kept by `pathlib` and dropped by `zipfile`. */
  lemma {:induction false} SafeOfKept(xs: seq<string>)
    requires forall i :: 0 <= i < |xs| ==> '/' !in xs[i]
    ensures SafeParts(xs) == SafeParts(KeepParts(xs))
  {
    if xs != [] {
      SafeOfKept(xs[1..]);
      var head := if xs[0] != "" && xs[0] != "." then [xs[0]] else [];
      assert KeepParts(xs) == head + KeepParts(xs[1..]);
      SafeAppend(head, KeepParts(xs[1..]));
      if head != [] {
        assert head[1..] == [];
      }
    }
  }

  lemma {:induction false} SafeAppend(xs: seq<string>, ys: seq<string>)
    requires forall i :: 0 <= i < |xs| ==> '/' !in xs[i]
    requires forall i :: 0 <= i < |ys| ==> '/' !in ys[i]
    ensures SafeParts(xs + ys) == SafeParts(xs) + SafeParts(ys)
  {
    if xs != [] {
      var head := if xs[0] != "" && xs[0] != "." && xs[0] != ".." then [xs[0]] else [];
      assert (xs + ys)[0] == xs[0] && (xs + ys)[1..] == xs[1..] + ys;
      assert SafeParts(xs + ys) == head + SafeParts(xs[1..] + ys);
      SafeAppend(xs[1..], ys);
      assert SafeParts(xs) == head + SafeParts(xs[1..]);
    } else {
      assert xs + ys == ys;
    }
  }

  /** Parts that are valid and not `..` are all kept. */
  lemma {:induction false} SafeOfValid(xs: seq<string>)
    requires forall i :: 0 <= i < |xs| ==> ValidPart(xs[i]) && xs[i] != ".."
    ensures forall i :: 0 <= i < |xs| ==> '/' !in xs[i]
    ensures SafeParts(xs) == xs
  {
    if xs != [] {
      SafeOfValid(xs[1..]);
    }
  }

  /** A relative name without `..` pieces: `zipfile` writes where `_extract_zip` says it does. */
  predicate PlainName(name: string) { !StartsWith(name, "/") && NoDotDot(Parse(name).parts) }

  /** For a plain name the target is the reported `output_dir / name`. */
  lemma PlainNameTarget(outDir: Path, name: string)
    requires PlainName(name)
    ensures ExtractTarget(outDir, name) == Child(outDir, name)
  {
    SafeOfKept(Split(name, '/'));
    SafeOfValid(KeepParts(Split(name, '/')));
  }

  /** A name climbing out with `../` is extracted inside `output_dir`, while the reported path climbs out. */
  lemma ParentRefTarget(outDir: Path, name: string)
    requires ValidPart(name) && name != ".."
    ensures ExtractTarget(outDir, "../" + name) == AddPart(outDir, name)
    ensures Child(outDir, "../" + name) == PurePath(outDir.absolute, outDir.parts + ["..", name])
  {
    ParseTwoParts("..", name);
    assert "../" + name == ".." + "/" + name;
    SafeOfKept(Split("../" + name, '/'));
    assert SafeParts(["..", name]) == [] + SafeParts([name]);
  }

  /** An absolute name is extracted inside `output_dir`, while the reported path is the absolute one. */
  lemma AbsoluteNameTarget(outDir: Path, name: string)
    requires ValidPart(name) && name != ".."
    ensures ExtractTarget(outDir, "/" + name) == AddPart(outDir, name)
    ensures Child(outDir, "/" + name) == PurePath(true, [name])
  {
    var s := "/" + name;
    assert s[0] == '/';
    var k := IndexOf(s, '/');
    assert k == 0 && s[k + 1..] == name;
    assert Split(s, '/') == [""] + Split(name, '/');
    assert Split(name, '/') == [name];
    assert Split(s, '/') == ["", name];
    assert StartsWith(s, "/");
    assert KeepParts(["", name]) == [] + KeepParts([name]);
    assert KeepParts([name]) == [name] + KeepParts([]);
    assert SafeParts(["", name]) == [] + SafeParts([name]);
    assert SafeParts([name]) == [name] + SafeParts([]);
  }

  /** The two escaping names `../b.csv` and `/x.csv` both land directly in `output_dir`. */
  lemma EscapingNamesExample(outDir: Path)
    ensures ExtractTarget(outDir, "../b.csv") == AddPart(outDir, "b.csv")
    ensures ExtractTarget(outDir, "/x.csv") == AddPart(outDir, "x.csv")
  {
    assert "../b.csv" == "../" + "b.csv";
    ParentRefTarget(outDir, "b.csv");
    assert "/x.csv" == "/" + "x.csv";
    AbsoluteNameTarget(outDir, "x.csv");
  }

  /**
   * An archive holding a directory member `dir/` and a file `dir/file` (the
   * shape of the unit tests' `data/`, `data/file.csv`) yields the one file,
   * two levels below the output directory.
   */
  lemma SkipsDirectoryMember(outDir: Path, dir: string, file: string, body: Bytes)
    requires ValidPart(dir) && ValidPart(file)
    ensures ExtractedPaths(outDir, [Entry(dir + "/", []), Entry(dir + "/" + file, body)])
      == [PurePath(outDir.absolute, outDir.parts + [dir, file])]
  {
    var es := [Entry(dir + "/", []), Entry(dir + "/" + file, body)];
    assert es == [es[0]] + [es[1]];
    ExtractedPathsAppend(outDir, [es[0]], [es[1]]);
    ExtractedPathsSingle(outDir, es[0]);
    ExtractedPathsSingle(outDir, es[1]);
    var n := es[1].name;
    assert n[|n| - 1] == file[|file| - 1];
    assert !IsDirEntry(es[1]) by { assert n[|n| - 1] != '/'; }
    ParseTwoParts(dir, file);
  }

  // ---------------------------------------------------------------------------
  // _parse_manifest

  /** The title used when no manifest supplies one. */
  function DefaultTitle(pid: string): string { "StatsCan Table " + pid }

  function ManifestJsonPath(outDir: Path): Path { Child(outDir, "manifest.json") }

  function MetadataCsvPath(outDir: Path, pid: string): Path { Child(outDir, pid + "_MetaData.csv") }

  /** The record noting that only the metadata CSV is present. */
  function MetadataCsvRecord(outDir: Path, pid: string): Json {
    JObject(map["metadata_file" := JString(Render(MetadataCsvPath(outDir, pid))), "title" := JString(DefaultTitle(pid))])
  }

  /**
   * `_parse_manifest(output_dir, pid)`, with `JNull` for Python's `None`:
   * a `manifest.json` that parses is returned as it is (even when it holds
   * `null`); one that is UTF-8 but not JSON is ignored, while one that is
   * not UTF-8 raises `UnicodeDecodeError` (which the `except` does not
   * catch); then an existing `<pid>_MetaData.csv` gives a two-field record;
   * otherwise `None`.
   */
  function ParseManifest(disk: Disk, codec: JsonCodec, outDir: Path, pid: string): (r: Result<Json>)
    ensures r.Err? <==> ManifestJsonPath(outDir) in disk && !Utf8(disk[ManifestJsonPath(outDir)])
    ensures r.Err? ==> r.error == UnicodeDecodeError(ManifestJsonPath(outDir))
  {
    var mj := ManifestJsonPath(outDir);
    var fallback := if MetadataCsvPath(outDir, pid) in disk then Ok(MetadataCsvRecord(outDir, pid)) else Ok(JNull);
    if mj !in disk then fallback
    else match LoadUtf8(codec, mj, disk[mj])
      case Ok(j) => Ok(j)
      case Err(e) => if e.UnicodeDecodeError? then Err(e) else fallback
  }

  /** A `manifest.json` that is UTF-8 but does not parse counts as no `manifest.json` at all. */
  lemma InvalidManifestFallsThrough(disk: Disk, codec: JsonCodec, outDir: Path, pid: string)
    requires IsPid(pid)
    requires var mj := ManifestJsonPath(outDir); mj in disk && Utf8(disk[mj]) && codec.load(disk[mj]).None?
    ensures ParseManifest(disk, codec, outDir, pid) == ParseManifest(disk - {ManifestJsonPath(outDir)}, codec, outDir, pid)
  {
    MetadataCsvPathShape(outDir, pid);
  }

  /** A parseable `manifest.json` wins: the metadata CSV, present or not, makes no difference. */
  lemma ManifestJsonWins(disk: Disk, codec: JsonCodec, outDir: Path, pid: string, csv: Bytes)
    requires var mj := ManifestJsonPath(outDir); mj in disk && Utf8(disk[mj]) && codec.load(disk[mj]).Some?
    requires MetadataCsvPath(outDir, pid) != ManifestJsonPath(outDir)
    ensures ParseManifest(disk, codec, outDir, pid) == Ok(codec.load(disk[ManifestJsonPath(outDir)]).value)
    ensures ParseManifest(disk[MetadataCsvPath(outDir, pid) := csv], codec, outDir, pid) == ParseManifest(disk, codec, outDir, pid)
    ensures ParseManifest(disk - {MetadataCsvPath(outDir, pid)}, codec, outDir, pid) == ParseManifest(disk, codec, outDir, pid)
  {
  }

  /**
   * The result is `None` exactly when there is neither a parseable
   * `manifest.json` nor a metadata CSV (and `manifest.json`, if any, is
   * UTF-8), or when `manifest.json` holds `null`; the metadata-CSV record is
   * truthy and names the CSV.
   */
  lemma ParseManifestNone(disk: Disk, codec: JsonCodec, outDir: Path, pid: string)
    ensures var mj := ManifestJsonPath(outDir);
      var undecodable := mj in disk && !Utf8(disk[mj]);
      var parsed := mj in disk && Utf8(disk[mj]) && codec.load(disk[mj]).Some?;
      (ParseManifest(disk, codec, outDir, pid) == Ok(JNull) <==>
        (parsed && codec.load(disk[mj]).value == JNull) || (!parsed && !undecodable && MetadataCsvPath(outDir, pid) !in disk))
    ensures Truthy(MetadataCsvRecord(outDir, pid))
    ensures MetadataCsvRecord(outDir, pid).fields["metadata_file"] == JString(Render(MetadataCsvPath(outDir, pid)))
  {
    assert "metadata_file" in MetadataCsvRecord(outDir, pid).fields;
  }

  /** The metadata-CSV path is `output_dir / "<pid>_MetaData.csv"`, a direct child distinct from `manifest.json`. */
  lemma MetadataCsvPathShape(outDir: Path, pid: string)
    requires IsPid(pid)
    ensures MetadataCsvPath(outDir, pid) == PurePath(outDir.absolute, outDir.parts + [pid + "_MetaData.csv"])
    ensures MetadataCsvPath(outDir, pid) != ManifestJsonPath(outDir)
  {
    var name := pid + "_MetaData.csv";
    assert forall i :: 0 <= i < |name| ==> name[i] != '/';
    ChildOfPart(outDir, name);
    ChildOfPart(outDir, "manifest.json");
    assert name[0] != "manifest.json"[0];
  }

  // ---------------------------------------------------------------------------
  // _write_statcan_metadata

  /**
   * The fields every StatCan sidecar gets: provider, pid and table number,
   * plus the manifest's `title` when the manifest is truthy and has one.
   * Python's `'title' in manifest_data` and `manifest_data['title']` on a
   * truthy value that is not an object raise `TypeError`, except that a list
   * or a string without `title` among its items or as a substring passes.
   */
  function AdditionalMetadata(pid: string, manifest: Json): (r: Result<map<string, Json>>)
    ensures r.Ok? ==> r.value.Keys == {"provider", "pid", "table_number"} + (if Truthy(manifest) && manifest.JObject? && "title" in manifest.fields then {"title"} else {})
    ensures r.Ok? ==> r.value["provider"] == JString("statcan") && r.value["pid"] == JString(pid) && r.value["table_number"] == JString(FormatTableNumber(pid))
    ensures r.Ok? && "title" in r.value ==> r.value["title"] == manifest.fields["title"]
    ensures r.Err? <==> Truthy(manifest) && match manifest
      case JArray(items) => JString("title") in items
      case JString(str) => Contains(str, "title")
      case JObject(_) => false
      case _ => true
  {
    var base := map["provider" := JString("statcan"), "pid" := JString(pid), "table_number" := JString(FormatTableNumber(pid))];
    if !Truthy(manifest) then Ok(base)
    else match manifest
      case JObject(fields) => if "title" in fields then Ok(base["title" := fields["title"]]) else Ok(base)
      case JArray(items) => if JString("title") in items then Err(TypeErr) else Ok(base)
      case JString(str) => if Contains(str, "title") then Err(TypeErr) else Ok(base)
      case _ => Err(TypeErr)
  }

  /** The sidecar record options `_write_statcan_metadata` passes for every file. */
  const ZipContentType: string := "application/zip"

  const HashAlgorithm: string := "sha256"

  /** One loop step: write the file's sidecar, or skip the file when writing raises. */
  function WriteSidecar(disk: Disk, codec: JsonCodec, hashlib: Provenance.Hashlib, file: Path,
                        sourceUrl: string, downloadedAt: string, additional: map<string, Json>): Disk
  {
    match Provenance.WriteProvenanceMetadata(disk, codec, hashlib, file, sourceUrl, downloadedAt, Some(ZipContentType), additional, HashAlgorithm)
    case Ok((d, _)) => d
    case Err(_) => disk
  }

  /** The loop step for fixed shared fields, as a function of the disk and the file. */
  function Writer(codec: JsonCodec, hashlib: Provenance.Hashlib, sourceUrl: string, downloadedAt: string,
                  additional: map<string, Json>): (Disk, Path) -> Disk
  {
    (d: Disk, f: Path) => WriteSidecar(d, codec, hashlib, f, sourceUrl, downloadedAt, additional)
  }

  /** The sidecar content the loop writes for a file with the given content. */
  function Record(codec: JsonCodec, hashlib: Provenance.Hashlib, sourceUrl: string, downloadedAt: string,
                  additional: map<string, Json>): (Path, Bytes) -> Bytes
  {
    (f: Path, content: Bytes) => codec.dump(JObject(Provenance.ProvenanceRecord(f, content, sourceUrl, downloadedAt,
                                                                                Some(ZipContentType), additional, HashAlgorithm, hashlib)))
  }

  /** The disk after `w` was applied to every file of `files`, in order. */
  function WriteAll(disk: Disk, w: (Disk, Path) -> Disk, files: seq<Path>): Disk {
    if files == [] then disk else w(WriteAll(disk, w, files[..|files| - 1]), files[|files| - 1])
  }

  /** The disk after every file of `files`, in order, got its sidecar. */
  function WriteSidecars(disk: Disk, codec: JsonCodec, hashlib: Provenance.Hashlib, files: seq<Path>,
                         sourceUrl: string, downloadedAt: string, additional: map<string, Json>): Disk
  {
    WriteAll(disk, Writer(codec, hashlib, sourceUrl, downloadedAt, additional), files)
  }

  /**
   * `_write_statcan_metadata(files, source_url, pid, manifest)`: builds the
   * shared fields (which can raise, see `AdditionalMetadata`), then writes a
   * sidecar for each file, swallowing each file's failure.
   */
  method WriteStatcanMetadata(disk: Disk, codec: JsonCodec, hashlib: Provenance.Hashlib, files: seq<Path>,
                              sourceUrl: string, pid: string, manifest: Json, downloadedAt: string)
    returns (disk': Disk, r: Result<()>)
    ensures AdditionalMetadata(pid, manifest).Err? ==> disk' == disk && r == Err(AdditionalMetadata(pid, manifest).error)
    ensures AdditionalMetadata(pid, manifest).Ok? ==>
      r == Ok(()) && disk' == WriteSidecars(disk, codec, hashlib, files, sourceUrl, downloadedAt, AdditionalMetadata(pid, manifest).value)
  {
    disk' := disk;
    var additional := AdditionalMetadata(pid, manifest);
    if additional.Err? {
      r := Err(additional.error);
      return;
    }
    for i := 0 to |files|
      invariant disk' == WriteSidecars(disk, codec, hashlib, files[..i], sourceUrl, downloadedAt, additional.value)
    {
      assert files[..i + 1][..i] == files[..i];
      ghost var before := disk';
      var written := Provenance.WriteProvenanceMetadata(disk', codec, hashlib, files[i], sourceUrl, downloadedAt,
                                                         Some(ZipContentType), additional.value, HashAlgorithm);
      if written.Ok? {
        disk' := written.value.0;
      }
      assert disk' == Writer(codec, hashlib, sourceUrl, downloadedAt, additional.value)(before, files[i]);
    }
    assert files[..|files|] == files;
    r := Ok(());
  }

  /** One step writes the file's sidecar when the file exists and changes nothing else. */
  lemma WriteSidecarStep(disk: Disk, codec: JsonCodec, hashlib: Provenance.Hashlib, file: Path,
                         sourceUrl: string, downloadedAt: string, additional: map<string, Json>)
    ensures var d := WriteSidecar(disk, codec, hashlib, file, sourceUrl, downloadedAt, additional);
      && d.Keys == disk.Keys + (if file in disk then {Provenance.SidecarPath(file)} else {})
      && (forall p :: p in disk && p != Provenance.SidecarPath(file) ==> d[p] == disk[p])
      && (file in disk ==> d[Provenance.SidecarPath(file)] == Record(codec, hashlib, sourceUrl, downloadedAt, additional)(file, disk[file]))
  {
    if file in disk {
      Provenance.GuaranteedUsable(hashlib, HashAlgorithm);
      Provenance.WriteKeepsOtherFiles(disk, codec, hashlib, file, sourceUrl, downloadedAt, Some(ZipContentType), additional, HashAlgorithm);
    }
  }

  /** `w` writes `rec` of an existing file `f` into `side(f)` and changes nothing else; a missing file is skipped. */
  ghost predicate WritesSidecars(w: (Disk, Path) -> Disk, side: Path -> Path, rec: (Path, Bytes) -> Bytes) {
    && (forall d: Disk, f: Path {:trigger w(d, f)} :: w(d, f).Keys == d.Keys + (if f in d then {side(f)} else {}))
    && (forall d: Disk, f: Path, p: Path {:trigger w(d, f)[p]} :: p in d && p != side(f) ==> w(d, f)[p] == d[p])
    && (forall d: Disk, f: Path {:trigger w(d, f)} :: f in d ==> w(d, f)[side(f)] == rec(f, d[f]))
  }

  /** The loop step of `_write_statcan_metadata` is such a writer. */
  lemma WriterWritesSidecars(codec: JsonCodec, hashlib: Provenance.Hashlib, sourceUrl: string, downloadedAt: string,
                             additional: map<string, Json>)
    ensures WritesSidecars(Writer(codec, hashlib, sourceUrl, downloadedAt, additional), Provenance.SidecarPath, Record(codec, hashlib, sourceUrl, downloadedAt, additional))
  {
    forall d: Disk, f: Path {
      WriteSidecarStep(d, codec, hashlib, f, sourceUrl, downloadedAt, additional);
    }
  }

  /** Such a writer keeps every file and adds only sidecars of listed files, one for each listed file that exists. */
  lemma {:induction false} WriteAllKeys(disk: Disk, w: (Disk, Path) -> Disk, side: Path -> Path, rec: (Path, Bytes) -> Bytes, files: seq<Path>)
    requires WritesSidecars(w, side, rec)
    ensures var d := WriteAll(disk, w, files);
      && disk.Keys <= d.Keys
      && (forall p :: p in d && p !in disk ==> exists j :: 0 <= j < |files| && p == side(files[j]))
      && (forall j :: 0 <= j < |files| && files[j] in disk ==> side(files[j]) in d)
  {
    if files != [] {
      var n := |files| - 1;
      var init := files[..n];
      WriteAllKeys(disk, w, side, rec, init);
      var d0 := WriteAll(disk, w, init);
      var d := WriteAll(disk, w, files);
      assert d == w(d0, files[n]);
      assert d.Keys == d0.Keys + (if files[n] in d0 then {side(files[n])} else {});
      forall p | p in d && p !in disk
        ensures exists j :: 0 <= j < |files| && p == side(files[j])
      {
        if p in d0 {
          var j :| 0 <= j < n && p == side(init[j]);
          assert init[j] == files[j];
        } else {
          assert p == side(files[n]);
        }
      }
      forall j | 0 <= j < |files| && files[j] in disk
        ensures side(files[j]) in d
      {
        if j < n {
          assert init[j] == files[j];
        }
      }
    }
  }

  /** Such a writer leaves every file that is not the sidecar of a listed file as it was. */
  lemma {:induction false} WriteAllKeepsOthers(disk: Disk, w: (Disk, Path) -> Disk, side: Path -> Path, rec: (Path, Bytes) -> Bytes, files: seq<Path>, p: Path)
    requires WritesSidecars(w, side, rec)
    requires p in disk
    requires forall j :: 0 <= j < |files| ==> p != side(files[j])
    ensures p in WriteAll(disk, w, files) && WriteAll(disk, w, files)[p] == disk[p]
  {
    if files != [] {
      var n := |files| - 1;
      var init := files[..n];
      assert forall j :: 0 <= j < n ==> init[j] == files[j];
      WriteAllKeepsOthers(disk, w, side, rec, init, p);
      var d0 := WriteAll(disk, w, init);
      assert WriteAll(disk, w, files) == w(d0, files[n]);
      assert w(d0, files[n]).Keys == d0.Keys + (if files[n] in d0 then {side(files[n])} else {});
    }
  }

  /** With no listed file a sidecar of a listed one and no two sharing a sidecar, each existing listed file's sidecar holds its record. */
  lemma {:induction false} WriteAllContent(disk: Disk, w: (Disk, Path) -> Disk, side: Path -> Path, rec: (Path, Bytes) -> Bytes, files: seq<Path>, i: nat)
    requires WritesSidecars(w, side, rec)
    requires i < |files| && files[i] in disk
    requires forall j, k :: 0 <= j < |files| && 0 <= k < |files| ==> files[j] != side(files[k])
    requires forall j :: 0 <= j < |files| && j != i ==> side(files[j]) != side(files[i])
    ensures var d := WriteAll(disk, w, files);
      side(files[i]) in d && d[side(files[i])] == rec(files[i], disk[files[i]])
  {
    var n := |files| - 1;
    var init := files[..n];
    assert forall j :: 0 <= j < n ==> init[j] == files[j];
    var d0 := WriteAll(disk, w, init);
    var d := WriteAll(disk, w, files);
    assert d == w(d0, files[n]);
    var s := side(files[i]);
    if i == n {
      WriteAllKeepsOthers(disk, w, side, rec, init, files[n]);
      assert d[s] == rec(files[n], d0[files[n]]);
    } else {
      WriteAllContent(disk, w, side, rec, init, i);
      assert s in d0 && s != side(files[n]);
      assert d.Keys == d0.Keys + (if files[n] in d0 then {side(files[n])} else {});
    }
  }

  /** Writing the sidecars keeps every file and adds only sidecars of listed files, one for each listed file that exists. */
  lemma WriteSidecarsKeys(disk: Disk, codec: JsonCodec, hashlib: Provenance.Hashlib, files: seq<Path>,
                          sourceUrl: string, downloadedAt: string, additional: map<string, Json>)
    ensures var d := WriteSidecars(disk, codec, hashlib, files, sourceUrl, downloadedAt, additional);
      && disk.Keys <= d.Keys
      && (forall p :: p in d && p !in disk ==> exists j :: 0 <= j < |files| && p == Provenance.SidecarPath(files[j]))
      && (forall j :: 0 <= j < |files| && files[j] in disk ==> Provenance.SidecarPath(files[j]) in d)
  {
    WriterWritesSidecars(codec, hashlib, sourceUrl, downloadedAt, additional);
    WriteAllKeys(disk, Writer(codec, hashlib, sourceUrl, downloadedAt, additional), Provenance.SidecarPath, Record(codec, hashlib, sourceUrl, downloadedAt, additional), files);
  }

  /** Every file that is not the sidecar of a listed file keeps its content. */
  lemma WriteSidecarsKeepsOthers(disk: Disk, codec: JsonCodec, hashlib: Provenance.Hashlib, files: seq<Path>,
                                 sourceUrl: string, downloadedAt: string, additional: map<string, Json>, p: Path)
    requires p in disk
    requires forall j :: 0 <= j < |files| ==> p != Provenance.SidecarPath(files[j])
    ensures var d := WriteSidecars(disk, codec, hashlib, files, sourceUrl, downloadedAt, additional);
      p in d && d[p] == disk[p]
  {
    WriterWritesSidecars(codec, hashlib, sourceUrl, downloadedAt, additional);
    WriteAllKeepsOthers(disk, Writer(codec, hashlib, sourceUrl, downloadedAt, additional), Provenance.SidecarPath, Record(codec, hashlib, sourceUrl, downloadedAt, additional), files, p);
  }

  /**
   * When no listed file is itself a sidecar of a listed file and no other
   * listed file shares its sidecar path, an existing listed file's sidecar
   * holds that file's provenance record: `content_type` `application/zip`,
   * a `sha256` hash of the content, and the shared StatCan fields.
   */
  lemma WriteSidecarsContent(disk: Disk, codec: JsonCodec, hashlib: Provenance.Hashlib, files: seq<Path>,
                             sourceUrl: string, downloadedAt: string, additional: map<string, Json>, i: nat)
    requires i < |files| && files[i] in disk
    requires forall j, k :: 0 <= j < |files| && 0 <= k < |files| ==> files[j] != Provenance.SidecarPath(files[k])
    requires forall j :: 0 <= j < |files| && j != i ==> Provenance.SidecarPath(files[j]) != Provenance.SidecarPath(files[i])
    ensures var d := WriteSidecars(disk, codec, hashlib, files, sourceUrl, downloadedAt, additional);
      && Provenance.SidecarPath(files[i]) in d
      && d[Provenance.SidecarPath(files[i])]
         == codec.dump(JObject(Provenance.ProvenanceRecord(files[i], disk[files[i]], sourceUrl, downloadedAt,
                                                           Some(ZipContentType), additional, HashAlgorithm, hashlib)))
  {
    WriterWritesSidecars(codec, hashlib, sourceUrl, downloadedAt, additional);
    WriteAllContent(disk, Writer(codec, hashlib, sourceUrl, downloadedAt, additional), Provenance.SidecarPath, Record(codec, hashlib, sourceUrl, downloadedAt, additional), files, i);
  }

  // ---------------------------------------------------------------------------
  // download_statcan_table

  /** The `title` of the returned dictionary: the manifest's title when it is a truthy object that has one; `.get` on a truthy non-object raises `AttributeError`. */
  function ResultTitle(pid: string, manifest: Json): (r: Result<Json>)
    ensures r.Err? <==> Truthy(manifest) && !manifest.JObject?
    ensures r.Err? ==> r.error == AttributeErr
  {
    if !Truthy(manifest) then Ok(JString(DefaultTitle(pid)))
    else match manifest
      case JObject(fields) => Ok(if "title" in fields then fields["title"] else JString(DefaultTitle(pid)))
      case _ => Err(AttributeErr)
  }

  /** The returned title and the `title` written into the sidecars agree: both come from the manifest, or the title is the default and the sidecars have none. */
  lemma TitleMatchesSidecars(pid: string, manifest: Json)
    requires AdditionalMetadata(pid, manifest).Ok? && ResultTitle(pid, manifest).Ok?
    ensures var add := AdditionalMetadata(pid, manifest).value;
      ResultTitle(pid, manifest).value == if "title" in add then add["title"] else JString(DefaultTitle(pid))
  {
  }

  /** What the provider's download call does: write the body at the destination, or raise. */
  datatype Fetch = Downloaded(body: Bytes) | FetchFailed(cause: Error)

  /** One call of the download function: URL, destination and retry budget. */
  datatype FetchCall = FetchCall(url: string, dest: Path, maxRetries: int)

  /** The returned dictionary; `manifest` is None where the key is absent. */
  datatype TableResult = TableResult(
    datasetId: string, provider: string, files: seq<Path>, url: string, title: Json,
    pid: string, skipped: bool, manifest: Option<Json>)

  /** One run of `download_statcan_table`: the disk afterwards, the result or exception, and the download calls made. */
  datatype TableRun = TableRun(disk: Disk, result: Result<TableResult>, calls: seq<FetchCall>)

  function MainCsvPath(outDir: Path, pid: string): Path { Child(outDir, pid + ".csv") }

  function TempZipPath(outDir: Path, pid: string): Path { Child(outDir, pid + "_temp.zip") }

  function DatasetId(pid: string): string { "statcan_" + pid }

  /** The result of the skip path. */
  function SkippedResult(outDir: Path, pid: string, url: string): TableResult {
    TableResult(DatasetId(pid), "statcan", [MainCsvPath(outDir, pid)], url, JString(DefaultTitle(pid)), pid, true, None)
  }

  /**
   * The body of the `try`: download the ZIP to the temporary path, extract
   * it, parse the manifest, write the sidecars and build the result, up to
   * the first exception. The disk is the one at the point the result is
   * built or the exception is raised; the temporary ZIP is removed right
   * after the sidecars are written, before the result is built.
   */
  function FetchAndExtract(disk: Disk, codec: JsonCodec, unzip: Unzip, hashlib: Provenance.Hashlib,
                           fetch: FetchCall -> Fetch, outDir: Path, pid: string, url: string,
                           maxRetries: int, downloadedAt: string): (Disk, Result<TableResult>)
  {
    var zip := TempZipPath(outDir, pid);
    match fetch(FetchCall(url, zip, maxRetries))
    case FetchFailed(cause) => (disk, Err(cause))
    case Downloaded(body) =>
      var d1 := disk[zip := body];
      match unzip(body)
      case None => (d1, Err(BadZipFile(zip)))
      case Some(es) =>
        var (d2, extracted) := Extracted(d1, outDir, es);
        match extracted
        case Err(e) => (d2, Err(e))
        case Ok(files) => AfterExtract(d2, codec, hashlib, outDir, pid, url, files, downloadedAt)
  }

  /** The rest of the `try` block once the archive is extracted to `disk` and its files are `files`. */
  function AfterExtract(disk: Disk, codec: JsonCodec, hashlib: Provenance.Hashlib, outDir: Path, pid: string,
                        url: string, files: seq<Path>, downloadedAt: string): (Disk, Result<TableResult>)
  {
    match ParseManifest(disk, codec, outDir, pid)
    case Err(e) => (disk, Err(e))
    case Ok(manifest) =>
      match AdditionalMetadata(pid, manifest)
      case Err(e) => (disk, Err(e))
      case Ok(add) =>
        var d := WriteSidecars(disk, codec, hashlib, files, url, downloadedAt, add) - {TempZipPath(outDir, pid)};
        match ResultTitle(pid, manifest)
        case Err(e) => (d, Err(e))
        case Ok(title) =>
          (d, Ok(TableResult(DatasetId(pid), "statcan", files, url, title, pid, false,
                             if Truthy(manifest) then Some(manifest) else None)))
  }

  /**
   * The reference behaviour of `download_statcan_table`: an invalid id raises
   * `ValueError` before anything happens; with `skip_existing` and
   * `<pid>.csv` present nothing is downloaded; otherwise the temporary ZIP is
   * removed whatever happens and any exception is re-raised as a
   * `RuntimeError` naming the pid.
   */
  function DownloadTable(disk: Disk, codec: JsonCodec, unzip: Unzip, hashlib: Provenance.Hashlib,
                         fetch: FetchCall -> Fetch, tableId: string, outDir: Path, maxRetries: int,
                         skipExisting: bool, language: string, downloadedAt: string): TableRun
  {
    match NormalizePid(tableId)
    case Err(e) => TableRun(disk, Err(e), [])
    case Ok(pid) =>
      var url := BuildWdsUrl(pid, language);
      if skipExisting && MainCsvPath(outDir, pid) in disk then TableRun(disk, Ok(SkippedResult(outDir, pid, url)), [])
      else Download(disk, codec, unzip, hashlib, fetch, outDir, pid, url, maxRetries, downloadedAt)
  }

  /** The path past the skip condition: one download call, the temporary ZIP removed, the exception wrapped. */
  function Download(disk: Disk, codec: JsonCodec, unzip: Unzip, hashlib: Provenance.Hashlib,
                    fetch: FetchCall -> Fetch, outDir: Path, pid: string, url: string,
                    maxRetries: int, downloadedAt: string): TableRun
  {
    var zip := TempZipPath(outDir, pid);
    var (d, r) := FetchAndExtract(disk, codec, unzip, hashlib, fetch, outDir, pid, url, maxRetries, downloadedAt);
    TableRun(d - {zip}, if r.Ok? then r else Err(StatCanFailure(pid, r.error)), [FetchCall(url, zip, maxRetries)])
  }

  /** The `try` block of `download_statcan_table`, up to its first exception. */
  method FetchAndExtractTable(disk: Disk, codec: JsonCodec, unzip: Unzip, hashlib: Provenance.Hashlib,
                              fetch: FetchCall -> Fetch, outDir: Path, pid: string, url: string,
                              maxRetries: int, downloadedAt: string)
    returns (disk': Disk, r: Result<TableResult>)
    ensures (disk', r) == FetchAndExtract(disk, codec, unzip, hashlib, fetch, outDir, pid, url, maxRetries, downloadedAt)
  {
    var zip := TempZipPath(outDir, pid);
    disk' := disk;
    var fetched := fetch(FetchCall(url, zip, maxRetries));
    if fetched.FetchFailed? {
      r := Err(fetched.cause);
      return;
    }
    disk' := disk'[zip := fetched.body];
    var extracted;
    disk', extracted := ExtractZip(disk', unzip, zip, outDir);
    if extracted.Err? {
      r := Err(extracted.error);
      return;
    }
    var files := extracted.value;
    var parsed := ParseManifest(disk', codec, outDir, pid);
    if parsed.Err? {
      r := Err(parsed.error);
      return;
    }
    var manifest := parsed.value;
    var written;
    disk', written := WriteStatcanMetadata(disk', codec, hashlib, files, url, pid, manifest, downloadedAt);
    if written.Err? {
      r := Err(written.error);
      return;
    }
    // `if zip_path.exists(): zip_path.unlink()`
    disk' := disk' - {zip};
    var title := ResultTitle(pid, manifest);
    if title.Err? {
      r := Err(title.error);
      return;
    }
    r := Ok(TableResult(DatasetId(pid), "statcan", files, url, title.value, pid, false,
                        if Truthy(manifest) then Some(manifest) else None));
  }

  /** `download_statcan_table(table_id, output_dir, max_retries, skip_existing, language)`. */
  method DownloadStatcanTable(disk: Disk, codec: JsonCodec, unzip: Unzip, hashlib: Provenance.Hashlib,
                              fetch: FetchCall -> Fetch, tableId: string, outDir: Path, maxRetries: int,
                              skipExisting: bool, language: string, downloadedAt: string)
    returns (disk': Disk, r: Result<TableResult>, calls: seq<FetchCall>)
    ensures TableRun(disk', r, calls)
      == DownloadTable(disk, codec, unzip, hashlib, fetch, tableId, outDir, maxRetries, skipExisting, language, downloadedAt)
  {
    disk' := disk;
    calls := [];
    var normalized := NormalizePid(tableId);
    if normalized.Err? {
      r := Err(normalized.error);
      return;
    }
    var pid := normalized.value;
    var mainCsv := MainCsvPath(outDir, pid);
    var url := BuildWdsUrl(pid, language);
    if skipExisting && mainCsv in disk {
      r := Ok(SkippedResult(outDir, pid, url));
      return;
    }
    var zip := TempZipPath(outDir, pid);
    calls := [FetchCall(url, zip, maxRetries)];
    disk', r := FetchAndExtractTable(disk, codec, unzip, hashlib, fetch, outDir, pid, url, maxRetries, downloadedAt);
    // `if zip_path.exists(): zip_path.unlink()`
    disk' := disk' - {zip};
    if r.Err? {
      r := Err(StatCanFailure(pid, r.error));
    }
  }

  // ---------------------------------------------------------------------------
  // Properties of download_statcan_table

  /** `<pid>.csv` and `<pid>_temp.zip` are distinct direct children of the output directory, and neither is a sidecar. */
  lemma TableFilesShape(outDir: Path, pid: string)
    requires IsPid(pid)
    ensures MainCsvPath(outDir, pid) == PurePath(outDir.absolute, outDir.parts + [pid + ".csv"])
    ensures TempZipPath(outDir, pid) == PurePath(outDir.absolute, outDir.parts + [pid + "_temp.zip"])
    ensures MainCsvPath(outDir, pid) != TempZipPath(outDir, pid)
    ensures !EndsWith(Name(MainCsvPath(outDir, pid)), Provenance.MetaSuffix)
  {
    var csv, zip := pid + ".csv", pid + "_temp.zip";
    assert forall i :: 0 <= i < |csv| ==> csv[i] != '/';
    assert forall i :: 0 <= i < |zip| ==> zip[i] != '/';
    ChildOfPart(outDir, csv);
    ChildOfPart(outDir, zip);
    assert csv[8] != zip[8];
    assert !EndsWith(csv, Provenance.MetaSuffix) by { assert csv[|csv| - 1] == 'v'; }
  }

  /** An id that does not normalise raises its `ValueError` unwrapped, before any download, with the disk untouched. */
  lemma InvalidIdRaisesAtOnce(disk: Disk, codec: JsonCodec, unzip: Unzip, hashlib: Provenance.Hashlib,
                              fetch: FetchCall -> Fetch, tableId: string, outDir: Path, maxRetries: int,
                              skipExisting: bool, language: string, downloadedAt: string)
    requires NormalizePid(tableId).Err?
    ensures DownloadTable(disk, codec, unzip, hashlib, fetch, tableId, outDir, maxRetries, skipExisting, language, downloadedAt)
      == TableRun(disk, Err(InvalidTableId(tableId)), [])
  {
  }

  /**
   * With `skip_existing` and `<pid>.csv` present, nothing is downloaded, the
   * disk (and so the existing file) is unchanged, and the result lists just
   * that file with `skipped` set and the default title.
   */
  lemma SkipExistingTouchesNothing(disk: Disk, codec: JsonCodec, unzip: Unzip, hashlib: Provenance.Hashlib,
                                   fetch: FetchCall -> Fetch, tableId: string, outDir: Path, maxRetries: int,
                                   language: string, downloadedAt: string)
    requires NormalizePid(tableId).Ok? && MainCsvPath(outDir, NormalizePid(tableId).value) in disk
    ensures var pid := NormalizePid(tableId).value;
      var run := DownloadTable(disk, codec, unzip, hashlib, fetch, tableId, outDir, maxRetries, true, language, downloadedAt);
      && run.disk == disk && run.calls == []
      && run.result.Ok? && run.result.value.skipped
      && run.result.value.files == [MainCsvPath(outDir, pid)]
      && run.result.value.title == JString(DefaultTitle(pid))
      && run.result.value.manifest.None?
  {
  }

  /**
   * Past the skip condition the download is made exactly once, to
   * `<pid>_temp.zip` at the WDS URL with the caller's retry budget, and the
   * temporary ZIP is gone afterwards whether the run succeeds or raises.
   */
  lemma TempZipAlwaysRemoved(disk: Disk, codec: JsonCodec, unzip: Unzip, hashlib: Provenance.Hashlib,
                             fetch: FetchCall -> Fetch, tableId: string, outDir: Path, maxRetries: int,
                             skipExisting: bool, language: string, downloadedAt: string)
    requires NormalizePid(tableId).Ok?
    requires !(skipExisting && MainCsvPath(outDir, NormalizePid(tableId).value) in disk)
    ensures var pid := NormalizePid(tableId).value;
      var run := DownloadTable(disk, codec, unzip, hashlib, fetch, tableId, outDir, maxRetries, skipExisting, language, downloadedAt);
      && TempZipPath(outDir, pid) !in run.disk
      && run.calls == [FetchCall(BuildWdsUrl(pid, language), TempZipPath(outDir, pid), maxRetries)]
  {
  }

  /** The temporary ZIP survives a run only when it was already there and the run took the skip path. */
  lemma TempZipOnlyWhenSkipped(disk: Disk, codec: JsonCodec, unzip: Unzip, hashlib: Provenance.Hashlib,
                               fetch: FetchCall -> Fetch, tableId: string, outDir: Path, maxRetries: int,
                               skipExisting: bool, language: string, downloadedAt: string)
    requires NormalizePid(tableId).Ok?
    ensures var pid := NormalizePid(tableId).value;
      var run := DownloadTable(disk, codec, unzip, hashlib, fetch, tableId, outDir, maxRetries, skipExisting, language, downloadedAt);
      TempZipPath(outDir, pid) in run.disk ==> run.disk == disk && run.result.Ok? && run.result.value.skipped
  {
  }

  /** Every exception is the id's `ValueError` or a `RuntimeError` naming the normalised pid. */
  lemma FailuresNamePid(disk: Disk, codec: JsonCodec, unzip: Unzip, hashlib: Provenance.Hashlib,
                        fetch: FetchCall -> Fetch, tableId: string, outDir: Path, maxRetries: int,
                        skipExisting: bool, language: string, downloadedAt: string)
    ensures var run := DownloadTable(disk, codec, unzip, hashlib, fetch, tableId, outDir, maxRetries, skipExisting, language, downloadedAt);
      run.result.Err? ==>
        (NormalizePid(tableId).Err? && run.result.error == InvalidTableId(tableId))
        || (NormalizePid(tableId).Ok? && run.result.error.StatCanFailure? && run.result.error.pid == NormalizePid(tableId).value)
  {
  }

  /** A failed download raises at once, wrapped, and leaves the disk as it was apart from a stale temporary ZIP. */
  lemma FetchFailureWrapped(disk: Disk, codec: JsonCodec, unzip: Unzip, hashlib: Provenance.Hashlib,
                            fetch: FetchCall -> Fetch, tableId: string, outDir: Path, maxRetries: int,
                            skipExisting: bool, language: string, downloadedAt: string)
    requires NormalizePid(tableId).Ok?
    requires var pid := NormalizePid(tableId).value;
      !(skipExisting && MainCsvPath(outDir, pid) in disk)
      && fetch(FetchCall(BuildWdsUrl(pid, language), TempZipPath(outDir, pid), maxRetries)).FetchFailed?
    ensures var pid := NormalizePid(tableId).value;
      var call := FetchCall(BuildWdsUrl(pid, language), TempZipPath(outDir, pid), maxRetries);
      DownloadTable(disk, codec, unzip, hashlib, fetch, tableId, outDir, maxRetries, skipExisting, language, downloadedAt)
        == TableRun(disk - {TempZipPath(outDir, pid)}, Err(StatCanFailure(pid, fetch(call).cause)), [call])
  {
  }

  /** A download that is not a ZIP archive raises `BadZipFile`, wrapped, and the temporary ZIP is removed. */
  lemma BadZipWrapped(disk: Disk, codec: JsonCodec, unzip: Unzip, hashlib: Provenance.Hashlib,
                      fetch: FetchCall -> Fetch, tableId: string, outDir: Path, maxRetries: int,
                      skipExisting: bool, language: string, downloadedAt: string)
    requires NormalizePid(tableId).Ok?
    requires var pid := NormalizePid(tableId).value;
      var f := fetch(FetchCall(BuildWdsUrl(pid, language), TempZipPath(outDir, pid), maxRetries));
      !(skipExisting && MainCsvPath(outDir, pid) in disk) && f.Downloaded? && unzip(f.body).None?
    ensures var pid := NormalizePid(tableId).value;
      var run := DownloadTable(disk, codec, unzip, hashlib, fetch, tableId, outDir, maxRetries, skipExisting, language, downloadedAt);
      run.disk == disk - {TempZipPath(outDir, pid)}
      && run.result == Err(StatCanFailure(pid, BadZipFile(TempZipPath(outDir, pid))))
  {
    var pid := NormalizePid(tableId).value;
    var zip := TempZipPath(outDir, pid);
    var body := fetch(FetchCall(BuildWdsUrl(pid, language), zip, maxRetries)).body;
    assert disk[zip := body] - {zip} == disk - {zip};
  }

  /**
   * A run that returns without skipping downloaded an archive with no
   * unextractable member and reports exactly its file members' paths, under
   * the `statcan_<pid>` dataset id, with the manifest included exactly when
   * it is truthy.
   */
  lemma SuccessReportsArchive(disk: Disk, codec: JsonCodec, unzip: Unzip, hashlib: Provenance.Hashlib,
                              fetch: FetchCall -> Fetch, tableId: string, outDir: Path, maxRetries: int,
                              skipExisting: bool, language: string, downloadedAt: string)
    requires var run := DownloadTable(disk, codec, unzip, hashlib, fetch, tableId, outDir, maxRetries, skipExisting, language, downloadedAt);
      run.result.Ok? && !run.result.value.skipped
    ensures NormalizePid(tableId).Ok?
    ensures var pid := NormalizePid(tableId).value;
      var url := BuildWdsUrl(pid, language);
      var f := fetch(FetchCall(url, TempZipPath(outDir, pid), maxRetries));
      var res := DownloadTable(disk, codec, unzip, hashlib, fetch, tableId, outDir, maxRetries, skipExisting, language, downloadedAt).result.value;
      && !(skipExisting && MainCsvPath(outDir, pid) in disk)
      && f.Downloaded? && unzip(f.body).Some?
      && FirstUnextractable(unzip(f.body).value) == |unzip(f.body).value|
      && res.files == ExtractedPaths(outDir, unzip(f.body).value)
      && res.datasetId == "statcan_" + pid && res.pid == pid && res.provider == "statcan" && res.url == url
      && (res.manifest.Some? ==> Truthy(res.manifest.value))
  {
    var run := DownloadTable(disk, codec, unzip, hashlib, fetch, tableId, outDir, maxRetries, skipExisting, language, downloadedAt);
    var pid := NormalizePid(tableId).value;
    var url := BuildWdsUrl(pid, language);
    DownloadPastSkip(disk, codec, unzip, hashlib, fetch, tableId, outDir, maxRetries, skipExisting, language, downloadedAt);
    var zip := TempZipPath(outDir, pid);
    var f := fetch(FetchCall(url, zip, maxRetries));
    var fe := FetchAndExtract(disk, codec, unzip, hashlib, fetch, outDir, pid, url, maxRetries, downloadedAt);
    assert fe.1.Ok? && run.result == fe.1;
    assert f.Downloaded? && unzip(f.body).Some?;
    DownloadedArchive(disk, codec, unzip, hashlib, fetch, outDir, pid, url, maxRetries, downloadedAt);
    var es := unzip(f.body).value;
    var ex := Extracted(disk[zip := f.body], outDir, es);
    assert ex.1.Ok?;
    AfterExtractResult(ex.0, codec, hashlib, outDir, pid, url, ex.1.value, downloadedAt);
  }

  /** Past the skip condition a run is the download path for the normalised pid. */
  lemma DownloadPastSkip(disk: Disk, codec: JsonCodec, unzip: Unzip, hashlib: Provenance.Hashlib,
                         fetch: FetchCall -> Fetch, tableId: string, outDir: Path, maxRetries: int,
                         skipExisting: bool, language: string, downloadedAt: string)
    requires NormalizePid(tableId).Ok?
    requires !(skipExisting && MainCsvPath(outDir, NormalizePid(tableId).value) in disk)
    ensures var pid := NormalizePid(tableId).value;
      DownloadTable(disk, codec, unzip, hashlib, fetch, tableId, outDir, maxRetries, skipExisting, language, downloadedAt)
        == Download(disk, codec, unzip, hashlib, fetch, outDir, pid, BuildWdsUrl(pid, language), maxRetries, downloadedAt)
  {
  }

  /** A downloaded archive that opens is extracted next to the temporary ZIP; an unextractable member ends the run there, otherwise it continues from the extracted files. */
  lemma DownloadedArchive(disk: Disk, codec: JsonCodec, unzip: Unzip, hashlib: Provenance.Hashlib,
                          fetch: FetchCall -> Fetch, outDir: Path, pid: string, url: string,
                          maxRetries: int, downloadedAt: string)
    requires var f := fetch(FetchCall(url, TempZipPath(outDir, pid), maxRetries));
      f.Downloaded? && unzip(f.body).Some?
    ensures var zip := TempZipPath(outDir, pid);
      var body := fetch(FetchCall(url, zip, maxRetries)).body;
      var ex := Extracted(disk[zip := body], outDir, unzip(body).value);
      FetchAndExtract(disk, codec, unzip, hashlib, fetch, outDir, pid, url, maxRetries, downloadedAt)
        == if ex.1.Err? then (ex.0, Err(ex.1.error))
           else AfterExtract(ex.0, codec, hashlib, outDir, pid, url, ex.1.value, downloadedAt)
  {
  }

  /**
   * After extraction the disk is unchanged when the manifest cannot be read
   * or building the shared fields raises, and otherwise holds the sidecars
   * with the temporary ZIP removed.
   */
  lemma AfterExtractDisk(disk: Disk, codec: JsonCodec, hashlib: Provenance.Hashlib, outDir: Path, pid: string,
                         url: string, files: seq<Path>, downloadedAt: string)
    ensures var pm := ParseManifest(disk, codec, outDir, pid);
      var res := AfterExtract(disk, codec, hashlib, outDir, pid, url, files, downloadedAt);
      && (pm.Err? ==> res == (disk, Err(pm.error)))
      && (pm.Ok? && AdditionalMetadata(pid, pm.value).Err? ==> res.0 == disk && res.1.Err?)
      && (pm.Ok? && AdditionalMetadata(pid, pm.value).Ok? ==>
            res.0 == WriteSidecars(disk, codec, hashlib, files, url, downloadedAt, AdditionalMetadata(pid, pm.value).value) - {TempZipPath(outDir, pid)})
      && (res.1.Ok? ==> res.1.value.files == files)
  {
  }

  /** A result built after extraction reports the extracted files under the `statcan_<pid>` dataset id, unskipped, with a truthy manifest or none. */
  lemma AfterExtractResult(disk: Disk, codec: JsonCodec, hashlib: Provenance.Hashlib, outDir: Path, pid: string,
                           url: string, files: seq<Path>, downloadedAt: string)
    ensures var res := AfterExtract(disk, codec, hashlib, outDir, pid, url, files, downloadedAt).1;
      res.Ok? ==>
        && res.value.files == files && res.value.datasetId == "statcan_" + pid && res.value.pid == pid
        && res.value.provider == "statcan" && res.value.url == url && !res.value.skipped
        && (res.value.manifest.Some? ==> Truthy(res.value.manifest.value))
  {
  }

  /**
   * A successful download path extracted an archive without unextractable
   * members, and every file the extraction left, other than the temporary
   * ZIP, is still there at the end.
   */
  lemma SuccessKeepsExtracted(disk: Disk, codec: JsonCodec, unzip: Unzip, hashlib: Provenance.Hashlib,
                              fetch: FetchCall -> Fetch, outDir: Path, pid: string, url: string,
                              maxRetries: int, downloadedAt: string)
    requires Download(disk, codec, unzip, hashlib, fetch, outDir, pid, url, maxRetries, downloadedAt).result.Ok?
    ensures var zip := TempZipPath(outDir, pid);
      var f := fetch(FetchCall(url, zip, maxRetries));
      && f.Downloaded? && unzip(f.body).Some?
      && var es := unzip(f.body).value;
      && FirstUnextractable(es) == |es|
      && var run := Download(disk, codec, unzip, hashlib, fetch, outDir, pid, url, maxRetries, downloadedAt);
      && forall p :: p in WriteEntries(disk[zip := f.body], outDir, es, es) && p != zip ==> p in run.disk
  {
    var zip := TempZipPath(outDir, pid);
    var f := fetch(FetchCall(url, zip, maxRetries));
    assert f.Downloaded? && unzip(f.body).Some?;
    DownloadedArchive(disk, codec, unzip, hashlib, fetch, outDir, pid, url, maxRetries, downloadedAt);
    var es := unzip(f.body).value;
    var ex := Extracted(disk[zip := f.body], outDir, es);
    var run := Download(disk, codec, unzip, hashlib, fetch, outDir, pid, url, maxRetries, downloadedAt);
    var fe := FetchAndExtract(disk, codec, unzip, hashlib, fetch, outDir, pid, url, maxRetries, downloadedAt);
    assert fe.1.Ok? && run.result == fe.1 && run.disk == fe.0 - {zip};
    assert ex.1.Ok?;
    assert FirstUnextractable(es) == |es| && es[..|es|] == es;
    var d2, files := ex.0, ex.1.value;
    AfterExtractDisk(d2, codec, hashlib, outDir, pid, url, files, downloadedAt);
    var pm := ParseManifest(d2, codec, outDir, pid);
    assert pm.Ok?;
    var add := AdditionalMetadata(pid, pm.value);
    assert add.Ok?;
    WriteSidecarsKeys(d2, codec, hashlib, files, url, downloadedAt, add.value);
  }

  /**
   * After a successful download path every file member's target other than
   * the temporary ZIP is on disk; so is every reported path of a member with
   * a plain name.
   */
  lemma ExtractedFilesPresent(disk: Disk, codec: JsonCodec, unzip: Unzip, hashlib: Provenance.Hashlib,
                              fetch: FetchCall -> Fetch, outDir: Path, pid: string, url: string,
                              maxRetries: int, downloadedAt: string)
    requires Download(disk, codec, unzip, hashlib, fetch, outDir, pid, url, maxRetries, downloadedAt).result.Ok?
    ensures var f := fetch(FetchCall(url, TempZipPath(outDir, pid), maxRetries));
      && f.Downloaded? && unzip(f.body).Some?
      && var es := unzip(f.body).value;
      && var run := Download(disk, codec, unzip, hashlib, fetch, outDir, pid, url, maxRetries, downloadedAt);
      && (forall j :: 0 <= j < |es| && !IsDirEntry(es[j]) && ExtractTarget(outDir, es[j].name) != TempZipPath(outDir, pid) ==>
            ExtractTarget(outDir, es[j].name) in run.disk)
      && (forall j :: 0 <= j < |es| && !IsDirEntry(es[j]) && PlainName(es[j].name) && Child(outDir, es[j].name) != TempZipPath(outDir, pid) ==>
            Child(outDir, es[j].name) in run.disk)
  {
    var zip := TempZipPath(outDir, pid);
    var f := fetch(FetchCall(url, zip, maxRetries));
    SuccessKeepsExtracted(disk, codec, unzip, hashlib, fetch, outDir, pid, url, maxRetries, downloadedAt);
    var es := unzip(f.body).value;
    var d1 := disk[zip := f.body];
    WriteEntriesFrame(d1, outDir, es, es);
    forall j | 0 <= j < |es| && !IsDirEntry(es[j]) && ExtractTarget(outDir, es[j].name) != zip
      ensures ExtractTarget(outDir, es[j].name) in Download(disk, codec, unzip, hashlib, fetch, outDir, pid, url, maxRetries, downloadedAt).disk
    {
      TargetListed(outDir, es, j);
    }
    forall j | 0 <= j < |es| && !IsDirEntry(es[j]) && PlainName(es[j].name) && Child(outDir, es[j].name) != zip
      ensures Child(outDir, es[j].name) in Download(disk, codec, unzip, hashlib, fetch, outDir, pid, url, maxRetries, downloadedAt).disk
    {
      PlainNameTarget(outDir, es[j].name);
      TargetListed(outDir, es, j);
    }
  }

  /**
   * On the download path, an archive whose last file member aiming at
   * `<pid>.csv` holds `data`, and which has no unextractable member before
   * it, leaves exactly `data` in `<pid>.csv`, replacing what was there,
   * whether or not the rest of the run raises.
   */
  lemma RedownloadReplacesMainCsv(disk: Disk, codec: JsonCodec, unzip: Unzip, hashlib: Provenance.Hashlib,
                                  fetch: FetchCall -> Fetch, outDir: Path, pid: string, url: string,
                                  maxRetries: int, downloadedAt: string, i: nat)
    requires IsPid(pid)
    requires var f := fetch(FetchCall(url, TempZipPath(outDir, pid), maxRetries));
      && f.Downloaded? && unzip(f.body).Some?
      && var es := unzip(f.body).value;
      && i < FirstUnextractable(es) && !IsDirEntry(es[i]) && ExtractTarget(outDir, es[i].name) == MainCsvPath(outDir, pid)
      && forall j :: i < j < |es| && !IsDirEntry(es[j]) ==> ExtractTarget(outDir, es[j].name) != MainCsvPath(outDir, pid)
    ensures var f := fetch(FetchCall(url, TempZipPath(outDir, pid), maxRetries));
      var run := Download(disk, codec, unzip, hashlib, fetch, outDir, pid, url, maxRetries, downloadedAt);
      MainCsvPath(outDir, pid) in run.disk && run.disk[MainCsvPath(outDir, pid)] == unzip(f.body).value[i].data
  {
    var zip := TempZipPath(outDir, pid);
    var main := MainCsvPath(outDir, pid);
    var f := fetch(FetchCall(url, zip, maxRetries));
    DownloadedArchive(disk, codec, unzip, hashlib, fetch, outDir, pid, url, maxRetries, downloadedAt);
    var es := unzip(f.body).value;
    var d1 := disk[zip := f.body];
    var ex := Extracted(d1, outDir, es);
    LastMemberAt(d1, outDir, es, i);
    TableFilesShape(outDir, pid);
    if ex.1.Ok? {
      AfterExtractKeepsMainCsv(ex.0, codec, hashlib, outDir, pid, url, ex.1.value, downloadedAt);
    }
  }

  /** Whatever happens after extraction leaves `<pid>.csv` as extraction left it. */
  lemma AfterExtractKeepsMainCsv(disk: Disk, codec: JsonCodec, hashlib: Provenance.Hashlib, outDir: Path, pid: string,
                                 url: string, files: seq<Path>, downloadedAt: string)
    requires IsPid(pid) && MainCsvPath(outDir, pid) in disk
    ensures var d := AfterExtract(disk, codec, hashlib, outDir, pid, url, files, downloadedAt).0;
      MainCsvPath(outDir, pid) in d && d[MainCsvPath(outDir, pid)] == disk[MainCsvPath(outDir, pid)]
  {
    TableFilesShape(outDir, pid);
    AfterExtractDisk(disk, codec, hashlib, outDir, pid, url, files, downloadedAt);
    var pm := ParseManifest(disk, codec, outDir, pid);
    if pm.Ok? && AdditionalMetadata(pid, pm.value).Ok? {
      SidecarsKeepMainCsv(disk, codec, hashlib, outDir, pid, url, files, downloadedAt, AdditionalMetadata(pid, pm.value).value);
    }
  }

  /** `<pid>.csv` is no sidecar, so writing the sidecars leaves it as it was. */
  lemma SidecarsKeepMainCsv(disk: Disk, codec: JsonCodec, hashlib: Provenance.Hashlib, outDir: Path, pid: string,
                            url: string, files: seq<Path>, downloadedAt: string, additional: map<string, Json>)
    requires IsPid(pid) && MainCsvPath(outDir, pid) in disk
    ensures var d := WriteSidecars(disk, codec, hashlib, files, url, downloadedAt, additional);
      MainCsvPath(outDir, pid) in d && d[MainCsvPath(outDir, pid)] == disk[MainCsvPath(outDir, pid)]
  {
    var main := MainCsvPath(outDir, pid);
    TableFilesShape(outDir, pid);
    forall j | 0 <= j < |files| ensures main != Provenance.SidecarPath(files[j]) {
      Provenance.SidecarPathShape(files[j]);
    }
    WriteSidecarsKeepsOthers(disk, codec, hashlib, files, url, downloadedAt, additional, main);
  }

  /** A member that `zipfile` cannot extract (named `.` or `..`, say) raises `IsADirectoryError`, wrapped, after the members before it were written, and the temporary ZIP is removed. */
  lemma UnextractableMemberWrapped(disk: Disk, codec: JsonCodec, unzip: Unzip, hashlib: Provenance.Hashlib,
                                   fetch: FetchCall -> Fetch, outDir: Path, pid: string, url: string,
                                   maxRetries: int, downloadedAt: string)
    requires var f := fetch(FetchCall(url, TempZipPath(outDir, pid), maxRetries));
      f.Downloaded? && unzip(f.body).Some? && FirstUnextractable(unzip(f.body).value) < |unzip(f.body).value|
    ensures var zip := TempZipPath(outDir, pid);
      var f := fetch(FetchCall(url, zip, maxRetries));
      var es := unzip(f.body).value;
      var run := Download(disk, codec, unzip, hashlib, fetch, outDir, pid, url, maxRetries, downloadedAt);
      && run.result == Err(StatCanFailure(pid, IsADirectory(outDir)))
      && run.disk == WriteEntries(disk[zip := f.body], outDir, es, es[..FirstUnextractable(es)]) - {zip}
  {
    DownloadedArchive(disk, codec, unzip, hashlib, fetch, outDir, pid, url, maxRetries, downloadedAt);
  }

  /**
   * A `manifest.json` among the members that is not UTF-8 raises
   * `UnicodeDecodeError`, which the `try` wraps with the pid after removing
   * the temporary ZIP; no sidecar is written.
   */
  lemma UndecodableManifestRaises(disk: Disk, codec: JsonCodec, unzip: Unzip, hashlib: Provenance.Hashlib,
                                  fetch: FetchCall -> Fetch, outDir: Path, pid: string, url: string,
                                  maxRetries: int, downloadedAt: string, i: nat)
    requires var f := fetch(FetchCall(url, TempZipPath(outDir, pid), maxRetries));
      && f.Downloaded? && unzip(f.body).Some?
      && var es := unzip(f.body).value;
      && FirstUnextractable(es) == |es|
      && i < |es| && !IsDirEntry(es[i]) && ExtractTarget(outDir, es[i].name) == ManifestJsonPath(outDir)
      && (forall j :: i < j < |es| && !IsDirEntry(es[j]) ==> ExtractTarget(outDir, es[j].name) != ManifestJsonPath(outDir))
      && !Utf8(es[i].data)
    ensures var zip := TempZipPath(outDir, pid);
      var f := fetch(FetchCall(url, zip, maxRetries));
      var es := unzip(f.body).value;
      var run := Download(disk, codec, unzip, hashlib, fetch, outDir, pid, url, maxRetries, downloadedAt);
      && run.result == Err(StatCanFailure(pid, UnicodeDecodeError(ManifestJsonPath(outDir))))
      && run.disk == WriteEntries(disk[zip := f.body], outDir, es, es) - {zip}
  {
    var zip := TempZipPath(outDir, pid);
    var f := fetch(FetchCall(url, zip, maxRetries));
    var es := unzip(f.body).value;
    var d1 := disk[zip := f.body];
    DownloadedArchive(disk, codec, unzip, hashlib, fetch, outDir, pid, url, maxRetries, downloadedAt);
    LastMemberAt(d1, outDir, es, i);
    assert es[..|es|] == es;
    var ex := Extracted(d1, outDir, es);
    AfterExtractDisk(ex.0, codec, hashlib, outDir, pid, url, ex.1.value, downloadedAt);
  }
}
