/**
 * The CMHC provider: the asset filter, the file-name sanitisation that keeps
 * every download directly inside the output directory, the per-asset
 * download loop in which one failure never stops the others, and the
 * merging of CMHC fields into an existing provenance sidecar.
 *
 * The downloader is a parameter `fetch`: given the call (URL, destination,
 * retry budget, content-type gate) it either saves a body, possibly with the
 * provenance sidecar the downloader records, or fails with a message.
 */
module Cmhc {
  import opened Wrappers
  import opened Strings
  import opened Paths
  import opened Common
  import Provenance
  import Http
  import CmhcLanding

  /** An asset dictionary: the resolver's `url`, `title` and `format`, an optional `rank`, and the `local_path` or `error` the loop adds. */
  datatype Asset = Asset(url: string, title: string, format: string, rank: Option<Json>,
                         localPath: Option<Path>, error: Option<string>)

  /** The dictionary the resolver hands over, before the loop touches it. */
  function FromLink(l: CmhcLanding.Link): (a: Asset)
    ensures a.url == l.url && a.title == l.title && a.format == l.format
    ensures a.rank.None? && a.localPath.None? && a.error.None?
  {
    Asset(l.url, l.title, l.format, None, None, None)
  }

  // ---------------------------------------------------------------------------
  // The filter

  /** `filter_lower in format.lower() or filter_lower in title.lower()`. */
  predicate Matches(filter: string, a: Asset) {
    Contains(Lower(a.format), Lower(filter)) || Contains(Lower(a.title), Lower(filter))
  }

  /** The kept assets, in order, for a non-empty filter. */
  function KeepMatching(filter: string, assets: seq<Asset>): (r: seq<Asset>)
    ensures |r| <= |assets|
  {
    if assets == [] then []
    else
      var last := assets[|assets| - 1];
      KeepMatching(filter, assets[..|assets| - 1]) + if Matches(filter, last) then [last] else []
  }

  /** `if asset_filter:` keeps the assets that match it; no filter or an empty one keeps them all. */
  function FilterAssets(filter: Option<string>, assets: seq<Asset>): (r: seq<Asset>)
    ensures filter.None? || filter.value == "" ==> r == assets
  {
    if filter.None? || filter.value == "" then assets else KeepMatching(filter.value, assets)
  }

  /** An asset survives the filter exactly when it was offered and matches. */
  lemma {:induction false} KeepMatchingMembers(filter: string, assets: seq<Asset>, a: Asset)
    ensures a in KeepMatching(filter, assets) <==> a in assets && Matches(filter, a)
  {
    if assets != [] {
      var init := assets[..|assets| - 1];
      KeepMatchingMembers(filter, init, a);
      assert assets == init + [assets[|assets| - 1]];
    }
  }

  /** Filtering a concatenation filters each part: the survivors keep their relative order. */
  lemma {:induction false} KeepMatchingAppend(filter: string, xs: seq<Asset>, ys: seq<Asset>)
    ensures KeepMatching(filter, xs + ys) == KeepMatching(filter, xs) + KeepMatching(filter, ys)
    decreases |ys|
  {
    if ys == [] {
      assert xs + ys == xs;
    } else {
      var init := ys[..|ys| - 1];
      assert (xs + ys)[..|xs + ys| - 1] == xs + init;
      KeepMatchingAppend(filter, xs, init);
    }
  }

  /** With a non-empty filter, each asset is kept alone or dropped alone. */
  lemma KeepMatchingSingle(filter: string, a: Asset)
    ensures KeepMatching(filter, [a]) == if Matches(filter, a) then [a] else []
  {
    assert [a][..0] == [];
  }

  // ---------------------------------------------------------------------------
  // File names

  /** The one-character string holding a backslash, the Windows path separator. */
  const Backslash: string := [92 as char]

  /** The characters the title sanitiser keeps. */
  predicate TitleChar(c: char) { IsAlnum(c) || c == ' ' || c == '-' || c == '_' }

  /** The characters a sanitised title consists of. */
  predicate SafeChar(c: char) { IsAlnum(c) || c == '-' || c == '_' }

  /** A string of safe characters contains none of the sequences the sanitiser removes. */
  lemma SafeHasNoSeparators(s: string)
    requires AllChars(s, SafeChar)
    ensures !Contains(s, " ") && !Contains(s, "/") && !Contains(s, Backslash) && !Contains(s, "..")
  {
    NotContainsWithoutHead(s, " ");
    NotContainsWithoutHead(s, "/");
    NotContainsWithoutHead(s, Backslash);
    NotContainsWithoutHead(s, "..");
  }

  /** The last four steps of the title sanitiser: spaces to `_`, then `/`, `\` and `..` to `_`. */
  function ReplaceSeparators(s: string): string {
    ReplaceAll(ReplaceAll(ReplaceAll(ReplaceAll(s, " ", "_"), "/", "_"), Backslash, "_"), "..", "_")
  }

  /** On safe characters the separator replacements change nothing. */
  lemma ReplaceSeparatorsSafe(s: string)
    requires AllChars(s, SafeChar)
    ensures ReplaceSeparators(s) == s
  {
    SafeHasNoSeparators(s);
    ReplaceAllAbsent(s, " ", "_");
    ReplaceAllAbsent(s, "/", "_");
    ReplaceAllAbsent(s, Backslash, "_");
    ReplaceAllAbsent(s, "..", "_");
  }

  /**
   * The sanitised title: the allowed characters of `title`, stripped, with
   * spaces turned into `_` and the separator replacements applied, or
   * `asset` when nothing is left. It is one path part without a dot.
   */
  function SafeTitle(title: string): (r: string)
    ensures r != "" && AllChars(r, SafeChar)
    ensures '.' !in r && '/' !in r
  {
    var kept := FilterChars(title, TitleChar);
    var stripped := Strip(kept);
    StripAllChars(kept, TitleChar);
    var spaced := ReplaceAll(stripped, " ", "_");
    ReplaceCharChars(stripped, ' ', '_', SafeChar);
    ReplaceSeparatorsTail(spaced);
    var t := ReplaceAll(ReplaceAll(ReplaceAll(spaced, "/", "_"), Backslash, "_"), "..", "_");
    SafeHasNoDot(t);
    if t == "" then "asset" else t
  }

  /** Safe characters include neither `.` nor `/`. */
  lemma SafeHasNoDot(s: string)
    requires AllChars(s, SafeChar)
    ensures '.' !in s && '/' !in s
  {
    assert !SafeChar('.') && !SafeChar('/');
  }

  /** After the space replacement only safe characters are left, so the remaining replacements change nothing. */
  lemma ReplaceSeparatorsTail(spaced: string)
    requires AllChars(spaced, SafeChar)
    ensures ReplaceAll(ReplaceAll(ReplaceAll(spaced, "/", "_"), Backslash, "_"), "..", "_") == spaced
  {
    SafeHasNoSeparators(spaced);
    ReplaceAllAbsent(spaced, "/", "_");
    ReplaceAllAbsent(spaced, Backslash, "_");
    ReplaceAllAbsent(spaced, "..", "_");
  }

  /** A title that is already safe is kept as it is. */
  lemma SafeTitleKeepsSafe(title: string)
    requires title != "" && AllChars(title, SafeChar)
    ensures SafeTitle(title) == title
  {
    assert AllChars(title, TitleChar);
    StripNoSpace(title);
    ReplaceSeparatorsSafe(title);
  }

  /** Sanitising a sanitised title changes nothing. */
  lemma SafeTitleIdempotent(title: string)
    ensures SafeTitle(SafeTitle(title)) == SafeTitle(title)
  {
    SafeTitleKeepsSafe(SafeTitle(title));
  }

  /** The sanitised format: its alphanumeric characters, or `dat` when there are none. */
  function SafeFormat(format: string): (r: string)
    ensures r != "" && AllChars(r, IsAlnum)
    ensures '.' !in r && '/' !in r
  {
    var f := FilterChars(format, IsAlnum);
    var r := if f == "" then "dat" else f;
    assert forall k :: 0 <= k < |r| ==> IsAlnum(r[k]);
    r
  }

  /** Sanitising a sanitised format changes nothing. */
  lemma SafeFormatIdempotent(format: string)
    ensures SafeFormat(SafeFormat(format)) == SafeFormat(format)
  {
  }

  /** `f"{safe_title}.{safe_format}"`: a single path part. */
  function AssetFileName(a: Asset): (name: string)
    ensures ValidPart(name) && name != ".."
  {
    DottedName(SafeTitle(a.title), SafeFormat(a.format));
    SafeTitle(a.title) + "." + SafeFormat(a.format)
  }

  /** `output_path / file_name`, with the file name added as the last part (`AssetFileNameShape` shows it is one part). */
  function AssetOutput(outDir: Path, a: Asset): (file: Path)
    ensures Parent(file) == outDir && Name(file) == AssetFileName(a)
  {
    AddPart(outDir, AssetFileName(a))
  }

  /** `t + "." + f` for two non-empty parts without dots or slashes: one path part, whose only dot separates them. */
  lemma DottedName(t: string, f: string)
    requires t != "" && '.' !in t && '/' !in t
    requires f != "" && '.' !in f && '/' !in f
    ensures var name := t + "." + f;
      && ValidPart(name) && name != ".."
      && (forall k :: 0 <= k < |name| && name[k] == '.' ==> k == |t|)
      && !EndsWith(name, Provenance.MetaSuffix)
  {
    var name := t + "." + f;
    assert forall k :: 0 <= k < |name| ==> name[k] == if k < |t| then t[k] else if k == |t| then '.' else f[k - |t| - 1];
    CmhcLanding.SuffixChar(name, Provenance.MetaSuffix, 0);
    CmhcLanding.SuffixChar(name, Provenance.MetaSuffix, 5);
    if EndsWith(name, Provenance.MetaSuffix) {
      assert false;
    }
  }

  /**
   * The file name is a single path part with exactly one dot, between
   * the title and the format; it is therefore never a `.meta.json` sidecar
   * name, and the output file is a direct child of the output directory.
   */
  lemma AssetFileNameShape(outDir: Path, a: Asset)
    ensures var name := AssetFileName(a);
      && ValidPart(name) && name != ".."
      && (forall k :: 0 <= k < |name| && name[k] == '.' ==> k == |SafeTitle(a.title)|)
      && !EndsWith(name, Provenance.MetaSuffix)
      && Child(outDir, name) == AssetOutput(outDir, a)
  {
    DottedName(SafeTitle(a.title), SafeFormat(a.format));
    ChildOfPart(outDir, AssetFileName(a));
  }

  /** `(dir / name).relative_to(dir.parent)`: `<dir name>/<name>`, or `<name>` when `dir` has no parts. */
  function RelativeToParent(dir: Path, name: string): (r: Path)
    requires ValidPart(name)
    ensures RelativeTo(AddPart(dir, name), Parent(dir)) == Some(r)
    ensures Join(Parent(dir), r) == AddPart(dir, name)
  {
    var file := AddPart(dir, name);
    var n := |Parent(dir).parts|;
    var r := PurePath(false, (if dir.parts == [] then [] else [Name(dir)]) + [name]);
    assert file.parts[..n] == Parent(dir).parts;
    assert file.parts[n..] == r.parts;
    r
  }

  /** The entry for `files`: the output file relative to the output directory's parent. */
  function ListedPath(outDir: Path, a: Asset): (r: Path)
    ensures RelativeTo(AssetOutput(outDir, a), Parent(outDir)) == Some(r)
    ensures Join(Parent(outDir), r) == AssetOutput(outDir, a)
  {
    RelativeToParent(outDir, AssetFileName(a))
  }

  /** `f"cmhc_{landing_url.split('/')[-1]}"`. */
  function DatasetId(landingUrl: string): (r: string)
    ensures StartsWith(r, "cmhc_")
    ensures var tail := r[5..];
      && '/' !in tail && EndsWith(landingUrl, tail)
      && (|tail| == |landingUrl| || landingUrl[|landingUrl| - |tail| - 1] == '/')
  {
    var tail := LastSegment(landingUrl, '/');
    assert ("cmhc_" + tail)[5..] == tail;
    "cmhc_" + tail
  }

  // ---------------------------------------------------------------------------
  // _add_cmhc_metadata

  /** The sidecar fields after the CMHC fields are set. */
  function CmhcFields(fields: map<string, Json>, a: Asset, landingUrl: string): (r: map<string, Json>)
    ensures r.Keys == fields.Keys + {"provider", "landing_page_url", "asset_title", "asset_format"} +
      (if a.rank.Some? then {"asset_rank"} else {})
    ensures r["provider"] == JString("cmhc") && r["landing_page_url"] == JString(landingUrl)
    ensures r["asset_title"] == JString(a.title) && r["asset_format"] == JString(a.format)
    ensures a.rank.Some? ==> r["asset_rank"] == a.rank.value
    ensures forall k :: k in fields && k !in {"provider", "landing_page_url", "asset_title", "asset_format", "asset_rank"} ==> r[k] == fields[k]
    ensures a.rank.None? && "asset_rank" in fields ==> r["asset_rank"] == fields["asset_rank"]
  {
    var f := fields["provider" := JString("cmhc")]["landing_page_url" := JString(landingUrl)]
      ["asset_title" := JString(a.title)]["asset_format" := JString(a.format)];
    if a.rank.Some? then f["asset_rank" := a.rank.value] else f
  }

  /** Setting the CMHC fields twice is setting them once. */
  lemma CmhcFieldsIdempotent(fields: map<string, Json>, a: Asset, landingUrl: string)
    ensures CmhcFields(CmhcFields(fields, a, landingUrl), a, landingUrl) == CmhcFields(fields, a, landingUrl)
  {
  }

  /**
   * `_add_cmhc_metadata(file, asset, landing_url)`: when the sidecar exists
   * and holds a JSON object, it is rewritten with the CMHC fields set; an
   * absent sidecar, text that is not UTF-8, undecodable JSON or a document
   * that is not an object leaves the disk as it was (the exception is
   * swallowed).
   */
  function AddCmhcMetadata(disk: Disk, codec: JsonCodec, file: Path, a: Asset, landingUrl: string): (d: Disk)
    ensures d.Keys == disk.Keys
    ensures forall p :: p in disk && p != Provenance.SidecarPath(file) ==> d[p] == disk[p]
    ensures Provenance.SidecarPath(file) !in disk ==> d == disk
  {
    var meta := Provenance.SidecarPath(file);
    if meta !in disk then disk
    else match LoadUtf8(codec, meta, disk[meta])
      case Ok(JObject(fields)) => disk[meta := codec.dump(JObject(CmhcFields(fields, a, landingUrl)))]
      case _ => disk
  }

  /**
   * After the merge, reading the provenance back gives the old record with
   * the CMHC fields set; an undecodable or non-object sidecar is kept.
   */
  lemma AddCmhcMetadataRead(disk: Disk, codec: JsonCodec, file: Path, a: Asset, landingUrl: string)
    requires Faithful(codec)
    requires !EndsWith(Name(file), Provenance.MetaSuffix)
    requires Provenance.SidecarPath(file) in disk
    ensures var d := AddCmhcMetadata(disk, codec, file, a, landingUrl);
      var before := Provenance.ReadProvenanceMetadata(disk, codec, file);
      match before
      case Ok(JObject(fields)) => Provenance.ReadProvenanceMetadata(d, codec, file) == Ok(JObject(CmhcFields(fields, a, landingUrl)))
      case _ => d == disk
  {
    Provenance.MetadataPathOfSidecar(file);
  }

  /** Merging the CMHC fields twice is merging them once. */
  lemma AddCmhcMetadataIdempotent(disk: Disk, codec: JsonCodec, file: Path, a: Asset, landingUrl: string)
    requires Faithful(codec)
    ensures var d := AddCmhcMetadata(disk, codec, file, a, landingUrl);
      AddCmhcMetadata(d, codec, file, a, landingUrl) == d
  {
    var meta := Provenance.SidecarPath(file);
    if meta in disk {
      match LoadUtf8(codec, meta, disk[meta])
      case Ok(JObject(fields)) =>
        CmhcFieldsIdempotent(fields, a, landingUrl);
        DumpThenLoad(codec, meta, JObject(CmhcFields(fields, a, landingUrl)));
      case _ =>
    }
  }

  // ---------------------------------------------------------------------------
  // download_cmhc_asset

  /** What the downloader does with one call: it saves the body (and possibly a provenance sidecar), or fails with a message. */
  datatype Download = Saved(body: Bytes, sidecar: Option<Bytes>) | Failed(message: string)

  /** One call of the downloader. */
  datatype DownloadCall = DownloadCall(url: string, dest: Path, maxRetries: int, validateContentType: bool)

  /** The state of the per-asset loop: the disk, `downloaded_files`, the processed assets, `download_errors`, the calls made. */
  datatype AssetRun = AssetRun(disk: Disk, files: seq<Path>, assets: seq<Asset>, errors: seq<string>, calls: seq<DownloadCall>)

  /** The returned dictionary. */
  datatype CmhcResult = CmhcResult(datasetId: string, provider: string, files: seq<Path>, landingUrl: string,
                                   assets: seq<Asset>, errors: seq<string>)

  /** `f"Failed to download '{asset['title']}' from {asset['url']}: {str(e)}"`. */
  function ErrorMessage(a: Asset, message: string): string {
    "Failed to download '" + a.title + "' from " + a.url + ": " + message
  }

  /** The call the loop makes for an asset. */
  function CallFor(outDir: Path, maxRetries: int, a: Asset): DownloadCall {
    DownloadCall(a.url, AssetOutput(outDir, a), maxRetries, true)
  }

  /** The disk after a saved download: the body, then the recorded sidecar if any, then the CMHC merge. */
  function SavedDisk(disk: Disk, codec: JsonCodec, file: Path, body: Bytes, sidecar: Option<Bytes>, a: Asset, landingUrl: string): Disk {
    var d1 := disk[file := body];
    var d2 := if sidecar.Some? then d1[Provenance.SidecarPath(file) := sidecar.value] else d1;
    AddCmhcMetadata(d2, codec, file, a, landingUrl)
  }

  /** The asset dictionary after its download: `local_path` set when saved, `error` set when failed. */
  function Processed(a: Asset, call: DownloadCall, outcome: Download): (r: Asset)
    ensures r.url == a.url && r.title == a.title && r.format == a.format && r.rank == a.rank
    ensures outcome.Saved? ==> r.localPath == Some(call.dest) && r.error == a.error
    ensures outcome.Failed? ==> r.error == Some(outcome.message) && r.localPath == a.localPath
  {
    match outcome
    case Saved(_, _) => a.(localPath := Some(call.dest))
    case Failed(message) => a.(error := Some(message))
  }

  /** One iteration of the loop, for the download call it makes and the `files` entry a saved download adds. */
  function Step(run: AssetRun, codec: JsonCodec, fetch: DownloadCall -> Download,
                call: DownloadCall, listed: Path, landingUrl: string, a: Asset): AssetRun
  {
    var calls := run.calls + [call];
    var done := Processed(a, call, fetch(call));
    match fetch(call)
    case Saved(body, sidecar) =>
      AssetRun(SavedDisk(run.disk, codec, call.dest, body, sidecar, done, landingUrl),
               run.files + [listed], run.assets + [done], run.errors, calls)
    case Failed(message) =>
      AssetRun(run.disk, run.files, run.assets + [done], run.errors + [ErrorMessage(a, message)], calls)
  }

  /** What the loop works out for an asset before downloading it: the call to make and the `files` entry to add if it is saved. */
  datatype Planned = Planned(asset: Asset, call: DownloadCall, listed: Path)

  /** The plan for one asset. */
  function Plan(outDir: Path, maxRetries: int, a: Asset): (p: Planned)
    ensures p.asset == a && p.call == CallFor(outDir, maxRetries, a) && p.listed == ListedPath(outDir, a)
    ensures Parent(p.call.dest) == outDir && Join(Parent(outDir), p.listed) == p.call.dest
  {
    Planned(a, CallFor(outDir, maxRetries, a), ListedPath(outDir, a))
  }

  /** The plans for each asset, in order. */
  function Plans(outDir: Path, maxRetries: int, assets: seq<Asset>): (ps: seq<Planned>)
    ensures |ps| == |assets|
    ensures forall i :: 0 <= i < |assets| ==> ps[i] == Plan(outDir, maxRetries, assets[i])
  {
    seq(|assets|, i requires 0 <= i < |assets| => Plan(outDir, maxRetries, assets[i]))
  }

  /** The loop over the planned assets, from `run`. */
  function RunPlans(run: AssetRun, codec: JsonCodec, fetch: DownloadCall -> Download, landingUrl: string,
                    ps: seq<Planned>): AssetRun
  {
    if ps == [] then run
    else
      var last := ps[|ps| - 1];
      Step(RunPlans(run, codec, fetch, landingUrl, ps[..|ps| - 1]), codec, fetch, last.call, last.listed, landingUrl, last.asset)
  }

  /** The loop over `assets`, from `run`. */
  function ProcessAssets(run: AssetRun, codec: JsonCodec, fetch: DownloadCall -> Download,
                         outDir: Path, landingUrl: string, maxRetries: int, assets: seq<Asset>): AssetRun
  {
    RunPlans(run, codec, fetch, landingUrl, Plans(outDir, maxRetries, assets))
  }

  /** The assets the loop works on: the resolver's, filtered. */
  function Selected(filter: Option<string>, links: seq<CmhcLanding.Link>): (r: seq<Asset>)
    ensures forall i :: 0 <= i < |r| ==> r[i].localPath.None? && r[i].error.None?
  {
    var all := seq(|links|, i requires 0 <= i < |links| => FromLink(links[i]));
    var r := FilterAssets(filter, all);
    forall i | 0 <= i < |r| ensures r[i].localPath.None? && r[i].error.None? {
      if filter.Some? && filter.value != "" {
        KeepMatchingMembers(filter.value, all, r[i]);
      }
    }
    r
  }

  /** The empty loop state on a disk. */
  function Start(disk: Disk): AssetRun { AssetRun(disk, [], [], [], []) }

  /**
   * The body of `download_cmhc_asset`'s loop for one planned asset: download
   * it to its output file; when saved, list the file, set `local_path` and
   * merge the CMHC fields into its metadata; when failed, record the error
   * on the asset and in `errors`.
   */
  method DownloadPlanned(disk: Disk, files: seq<Path>, processed: seq<Asset>, errors: seq<string>, calls: seq<DownloadCall>,
                         codec: JsonCodec, fetch: DownloadCall -> Download, landingUrl: string, p: Planned)
    returns (disk': Disk, files': seq<Path>, processed': seq<Asset>, errors': seq<string>, calls': seq<DownloadCall>)
    ensures AssetRun(disk', files', processed', errors', calls')
      == Step(AssetRun(disk, files, processed, errors, calls), codec, fetch, p.call, p.listed, landingUrl, p.asset)
  {
    var outputFile := p.call.dest;
    calls' := calls + [p.call];
    disk', files', errors' := disk, files, errors;
    match fetch(p.call) {
      case Saved(body, sidecar) =>
        disk' := disk'[outputFile := body];
        if sidecar.Some? {
          disk' := disk'[Provenance.SidecarPath(outputFile) := sidecar.value];
        }
        files' := files + [p.listed];
        var done := p.asset.(localPath := Some(outputFile));
        processed' := processed + [done];
        disk' := AddCmhcMetadata(disk', codec, outputFile, done, landingUrl);
      case Failed(message) =>
        errors' := errors + [ErrorMessage(p.asset, message)];
        processed' := processed + [p.asset.(error := Some(message))];
    }
  }

  /** The loop of `download_cmhc_asset` over the planned assets, in order. */
  method DownloadAll(disk: Disk, codec: JsonCodec, fetch: DownloadCall -> Download, landingUrl: string, ps: seq<Planned>)
    returns (disk': Disk, files: seq<Path>, processed: seq<Asset>, errors: seq<string>, calls: seq<DownloadCall>)
    ensures AssetRun(disk', files, processed, errors, calls) == RunPlans(Start(disk), codec, fetch, landingUrl, ps)
  {
    disk', files, processed, errors, calls := disk, [], [], [], [];
    for i := 0 to |ps|
      invariant AssetRun(disk', files, processed, errors, calls) == RunPlans(Start(disk), codec, fetch, landingUrl, ps[..i])
    {
      assert ps[..i + 1][..i] == ps[..i];
      disk', files, processed, errors, calls :=
        DownloadPlanned(disk', files, processed, errors, calls, codec, fetch, landingUrl, ps[i]);
    }
    assert ps[..|ps|] == ps;
  }

  /**
   * `download_cmhc_asset(landing_url, output_dir, asset_filter, max_retries)`:
   * resolve the landing page, filter, work out each asset's output file,
   * then download the assets in order, collecting files and errors. When
   * fetching the landing page fails its error propagates before any
   * download is attempted.
   */
  method DownloadCmhcAsset(disk: Disk, codec: JsonCodec, fetch: DownloadCall -> Download,
                           net: nat -> Http.Outcome, page: CmhcLanding.Page, scan: Bytes -> CmhcLanding.LinkMatches,
                           outDir: Path, filter: Option<string>, maxRetries: int)
    returns (disk': Disk, result: Result<CmhcResult>, calls: seq<DownloadCall>)
    ensures var fetched := Http.Retry(net, page.landingUrl, CmhcLanding.PageRetries, CmhcLanding.PageRetryDelay).result;
      && (fetched.Err? ==> disk' == disk && calls == [] && result == Err(fetched.error))
      && (fetched.Ok? ==>
            var m := scan(fetched.value);
            var run := ProcessAssets(Start(disk), codec, fetch, outDir, page.landingUrl, maxRetries,
                                     Selected(filter, CmhcLanding.ResolvedAssets(page, m.anchors, m.hrefs)));
            && disk' == run.disk && calls == run.calls
            && result == Ok(CmhcResult(DatasetId(page.landingUrl), "cmhc", run.files, page.landingUrl, run.assets, run.errors)))
  {
    var resolved := CmhcLanding.ResolveLandingPage(net, page, scan);
    if resolved.Err? {
      return disk, Err(resolved.error), [];
    }
    var assets := Selected(filter, resolved.value);
    var files, processed, errors;
    disk', files, processed, errors, calls := DownloadAll(disk, codec, fetch, page.landingUrl, Plans(outDir, maxRetries, assets));
    result := Ok(CmhcResult(DatasetId(page.landingUrl), "cmhc", files, page.landingUrl, processed, errors));
  }

  // ---------------------------------------------------------------------------
  // Properties of the loop

  /**
   * A saved download writes the body at its destination and possibly the
   * sidecar next to it; nothing is removed and nothing outside the
   * destination's directory changes.
   */
  lemma SavedDiskFrame(disk: Disk, codec: JsonCodec, file: Path, body: Bytes, sidecar: Option<Bytes>, a: Asset, landingUrl: string)
    ensures var d := SavedDisk(disk, codec, file, body, sidecar, a, landingUrl);
      && disk.Keys + {file} <= d.Keys
      && d[file] == body
      && (forall p :: p in disk && Parent(p) != Parent(file) ==> d[p] == disk[p])
      && (forall p :: p in d && p !in disk ==> Parent(p) == Parent(file))
      && (sidecar.None? && Provenance.SidecarPath(file) !in disk ==> d == disk[file := body])
  {
    Provenance.SidecarPathShape(file);
  }

  /** One iteration makes one call, processes one asset, and adds one entry to `files` or to `errors`. */
  lemma StepShape(run: AssetRun, codec: JsonCodec, fetch: DownloadCall -> Download,
                  call: DownloadCall, listed: Path, landingUrl: string, a: Asset)
    ensures var next := Step(run, codec, fetch, call, listed, landingUrl, a);
      && next.calls == run.calls + [call]
      && next.assets == run.assets + [Processed(a, call, fetch(call))]
      && (fetch(call).Saved? ==> next.files == run.files + [listed] && next.errors == run.errors)
      && (fetch(call).Failed? ==> next.files == run.files && next.errors == run.errors + [ErrorMessage(a, fetch(call).message)])
  {
  }

  /** One iteration writes only in the directory of its call's destination and removes nothing; a saved destination is then on the disk. */
  lemma StepFrame(run: AssetRun, codec: JsonCodec, fetch: DownloadCall -> Download,
                  call: DownloadCall, listed: Path, landingUrl: string, a: Asset)
    ensures var next := Step(run, codec, fetch, call, listed, landingUrl, a);
      && run.disk.Keys <= next.disk.Keys
      && (fetch(call).Saved? ==> call.dest in next.disk && next.disk[call.dest] == fetch(call).body)
      && (forall p :: p in run.disk && Parent(p) != Parent(call.dest) ==> next.disk[p] == run.disk[p])
      && (forall p :: p in next.disk && p !in run.disk ==> Parent(p) == Parent(call.dest))
  {
    if fetch(call).Saved? {
      SavedDiskFrame(run.disk, codec, call.dest, fetch(call).body, fetch(call).sidecar,
                     a.(localPath := Some(call.dest)), landingUrl);
    }
  }

  /**
   * Every planned asset is processed, in order, with exactly one call: it
   * gets a `local_path` and its entry in `files` when its download is
   * saved, and an `error` and an entry in `errors` when it fails; no
   * failure stops the assets after it.
   */
  lemma {:induction false} RunPlansShape(run: AssetRun, codec: JsonCodec, fetch: DownloadCall -> Download,
                                         landingUrl: string, ps: seq<Planned>)
    ensures var r := RunPlans(run, codec, fetch, landingUrl, ps);
      && |r.assets| == |run.assets| + |ps| && r.assets[..|run.assets|] == run.assets
      && |r.calls| == |run.calls| + |ps| && r.calls[..|run.calls|] == run.calls
      && |r.files| + |r.errors| == |run.files| + |run.errors| + |ps|
      && (forall i :: 0 <= i < |ps| ==> r.calls[|run.calls| + i] == ps[i].call)
      && (forall i :: 0 <= i < |ps| ==> r.assets[|run.assets| + i] == Processed(ps[i].asset, ps[i].call, fetch(ps[i].call)))
  {
    if ps != [] {
      var n := |ps| - 1;
      RunPlansShape(run, codec, fetch, landingUrl, ps[..n]);
      var prev := RunPlans(run, codec, fetch, landingUrl, ps[..n]);
      StepShape(prev, codec, fetch, ps[n].call, ps[n].listed, landingUrl, ps[n].asset);
      var r := RunPlans(run, codec, fetch, landingUrl, ps);
      forall i | 0 <= i < |ps|
        ensures r.calls[|run.calls| + i] == ps[i].call
        ensures r.assets[|run.assets| + i] == Processed(ps[i].asset, ps[i].call, fetch(ps[i].call))
      {
        if i < n {
          assert ps[..n][i] == ps[i];
          assert r.calls[|run.calls| + i] == prev.calls[|run.calls| + i];
          assert r.assets[|run.assets| + i] == prev.assets[|run.assets| + i];
        }
      }
      assert r.assets[..|run.assets|] == prev.assets[..|run.assets|];
      assert r.calls[..|run.calls|] == prev.calls[..|run.calls|];
    }
  }

  /**
   * `download_cmhc_asset`'s loop processes every asset, in order, with one
   * download call to its sanitised output file; each gets a `local_path`
   * when saved and an `error` when failed, and `|files| + |errors|` is the
   * number of assets.
   */
  lemma ProcessAssetsShape(disk: Disk, codec: JsonCodec, fetch: DownloadCall -> Download,
                           outDir: Path, landingUrl: string, maxRetries: int, assets: seq<Asset>)
    ensures var run := ProcessAssets(Start(disk), codec, fetch, outDir, landingUrl, maxRetries, assets);
      && |run.assets| == |assets| && |run.calls| == |assets|
      && |run.files| + |run.errors| == |assets|
      && (forall i :: 0 <= i < |assets| ==> run.calls[i] == CallFor(outDir, maxRetries, assets[i]))
      && (forall i :: 0 <= i < |assets| ==> run.assets[i] == Processed(assets[i], run.calls[i], fetch(run.calls[i])))
  {
    RunPlansShape(Start(disk), codec, fetch, landingUrl, Plans(outDir, maxRetries, assets));
  }

  /** In the processed list, each asset has a `local_path` or an `error`, never both, when it started with neither. */
  lemma LocalPathXorError(disk: Disk, codec: JsonCodec, fetch: DownloadCall -> Download,
                          outDir: Path, landingUrl: string, maxRetries: int, assets: seq<Asset>)
    requires forall i :: 0 <= i < |assets| ==> assets[i].localPath.None? && assets[i].error.None?
    ensures var run := ProcessAssets(Start(disk), codec, fetch, outDir, landingUrl, maxRetries, assets);
      forall i :: 0 <= i < |run.assets| ==> (run.assets[i].localPath.Some? <==> run.assets[i].error.None?)
  {
    ProcessAssetsShape(disk, codec, fetch, outDir, landingUrl, maxRetries, assets);
  }

  /** Plans whose destinations all lie in `dir` and whose `files` entries name those destinations from `base`. */
  predicate PlansIn(ps: seq<Planned>, dir: Path, base: Path) {
    forall i :: 0 <= i < |ps| ==> Parent(ps[i].call.dest) == dir && Join(base, ps[i].listed) == ps[i].call.dest
  }

  /**
   * Running plans that write in `dir` removes nothing, changes nothing
   * outside `dir`, adds files only in `dir`, and leaves every listed file
   * on the disk.
   */
  lemma {:induction false} RunPlansFrame(run: AssetRun, codec: JsonCodec, fetch: DownloadCall -> Download,
                                         landingUrl: string, ps: seq<Planned>, dir: Path, base: Path)
    requires PlansIn(ps, dir, base)
    requires forall j :: 0 <= j < |run.files| ==> Join(base, run.files[j]) in run.disk
    ensures var r := RunPlans(run, codec, fetch, landingUrl, ps);
      && run.disk.Keys <= r.disk.Keys
      && (forall p :: p in run.disk && Parent(p) != dir ==> r.disk[p] == run.disk[p])
      && (forall p :: p in r.disk && p !in run.disk ==> Parent(p) == dir)
      && (forall j :: 0 <= j < |r.files| ==> Join(base, r.files[j]) in r.disk)
  {
    if ps != [] {
      var n := |ps| - 1;
      assert PlansIn(ps[..n], dir, base) by {
        forall i | 0 <= i < n ensures ps[..n][i] == ps[i] { }
      }
      RunPlansFrame(run, codec, fetch, landingUrl, ps[..n], dir, base);
      var prev := RunPlans(run, codec, fetch, landingUrl, ps[..n]);
      StepFrame(prev, codec, fetch, ps[n].call, ps[n].listed, landingUrl, ps[n].asset);
      StepShape(prev, codec, fetch, ps[n].call, ps[n].listed, landingUrl, ps[n].asset);
      var r := RunPlans(run, codec, fetch, landingUrl, ps);
      forall j | 0 <= j < |r.files| ensures Join(base, r.files[j]) in r.disk {
        if j < |prev.files| {
          assert r.files[j] == prev.files[j];
        }
      }
    }
  }

  /**
   * The whole loop writes only inside the output directory, removes nothing,
   * and every entry of `files`, taken from the output directory's parent,
   * is a file on the disk afterwards.
   */
  lemma ProcessAssetsFrame(disk: Disk, codec: JsonCodec, fetch: DownloadCall -> Download,
                           outDir: Path, landingUrl: string, maxRetries: int, assets: seq<Asset>)
    ensures var run := ProcessAssets(Start(disk), codec, fetch, outDir, landingUrl, maxRetries, assets);
      && disk.Keys <= run.disk.Keys
      && (forall p :: p in disk && Parent(p) != outDir ==> run.disk[p] == disk[p])
      && (forall p :: p in run.disk && p !in disk ==> Parent(p) == outDir)
      && (forall j :: 0 <= j < |run.files| ==> Join(Parent(outDir), run.files[j]) in run.disk)
  {
    var ps := Plans(outDir, maxRetries, assets);
    RunPlansFrame(Start(disk), codec, fetch, landingUrl, ps, outDir, Parent(outDir));
  }

  /** After a saved download, the call's destination holds the saved body and the last `files` entry is the listed path. */
  lemma SavedStepWritten(run: AssetRun, codec: JsonCodec, fetch: DownloadCall -> Download,
                         call: DownloadCall, listed: Path, landingUrl: string, a: Asset)
    requires fetch(call).Saved?
    ensures var next := Step(run, codec, fetch, call, listed, landingUrl, a);
      && call.dest in next.disk && next.disk[call.dest] == fetch(call).body
      && next.files != [] && next.files[|next.files| - 1] == listed
  {
    StepFrame(run, codec, fetch, call, listed, landingUrl, a);
    StepShape(run, codec, fetch, call, listed, landingUrl, a);
  }

  /** After a saved download, the asset's output file holds the saved body and its `files` entry names that file. */
  lemma SavedAssetWritten(run: AssetRun, codec: JsonCodec, fetch: DownloadCall -> Download,
                          outDir: Path, landingUrl: string, maxRetries: int, a: Asset)
    requires fetch(CallFor(outDir, maxRetries, a)).Saved?
    ensures var p := Plan(outDir, maxRetries, a);
      var next := Step(run, codec, fetch, p.call, p.listed, landingUrl, a);
      && next.disk[AssetOutput(outDir, a)] == fetch(CallFor(outDir, maxRetries, a)).body
      && Join(Parent(outDir), next.files[|next.files| - 1]) == AssetOutput(outDir, a)
  {
    var p := Plan(outDir, maxRetries, a);
    SavedStepWritten(run, codec, fetch, p.call, p.listed, landingUrl, a);
  }
}
