/**
 * Run manifests: a JSON record of the datasets one download run produced,
 * written next to the data, and the validation that every file it lists exists
 * relative to the manifest's directory.
 */
module Manifest {
  import opened Wrappers
  import opened Paths
  import opened Common

  // ---------------------------------------------------------------------------
  // build_run_manifest and load_manifest

  /**
   * The manifest record: the creation time, the dataset list as given, its
   * length, and the absolute form of the output directory (`createdAt` and
   * `absoluteDir` are what `datetime.utcnow()` and `Path.absolute()` give).
   */
  function ManifestRecord(datasets: seq<Json>, createdAt: string, absoluteDir: string): map<string, Json> {
    map[
      "created_at" := JString(createdAt),
      "datasets" := JArray(datasets),
      "total_datasets" := JInt(|datasets|),
      "output_directory" := JString(absoluteDir)
    ]
  }

  /** The disk after a manifest is written, and the path it was written to. */
  datatype Written = Written(disk: Disk, path: Path)

  /**
   * `build_run_manifest(output_dir, datasets, manifest_name)`: dumps the
   * record into `output_dir / manifest_name` and returns that path.
   */
  function BuildRunManifest(disk: Disk, codec: JsonCodec, outputDir: Path, datasets: seq<Json>,
                            manifestName: string, createdAt: string, absoluteDir: string): (r: Written)
    ensures r.path == Child(outputDir, manifestName)
    ensures r.disk.Keys == disk.Keys + {r.path}
    ensures forall p :: p in disk && p != r.path ==> r.disk[p] == disk[p]
  {
    var path := Child(outputDir, manifestName);
    Written(disk[path := codec.dump(JObject(ManifestRecord(datasets, createdAt, absoluteDir)))], path)
  }

  /** `load_manifest(path)`: the decoded document, or `FileNotFoundError`, `UnicodeDecodeError` or `JSONDecodeError`. */
  function LoadManifest(disk: Disk, codec: JsonCodec, path: Path): (r: Result<Json>)
    ensures path !in disk <==> r == Err(FileNotFound(path))
    ensures path in disk && !Utf8(disk[path]) ==> r == Err(UnicodeDecodeError(path))
    ensures r.Ok? ==> Some(r.value) == codec.load(disk[path])
  {
    if path !in disk then Err(FileNotFound(path)) else LoadUtf8(codec, path, disk[path])
  }

  /** Loading a freshly built manifest gives back the record: the dataset list verbatim and its count. */
  lemma BuildThenLoad(disk: Disk, codec: JsonCodec, outputDir: Path, datasets: seq<Json>,
                      manifestName: string, createdAt: string, absoluteDir: string)
    requires Faithful(codec)
    ensures var built := BuildRunManifest(disk, codec, outputDir, datasets, manifestName, createdAt, absoluteDir);
      var loaded := LoadManifest(built.disk, codec, built.path);
      && loaded == Ok(JObject(ManifestRecord(datasets, createdAt, absoluteDir)))
      && loaded.value.fields["total_datasets"] == JInt(|datasets|)
      && loaded.value.fields["datasets"] == JArray(datasets)
  {
    var built := BuildRunManifest(disk, codec, outputDir, datasets, manifestName, createdAt, absoluteDir);
    DumpThenLoad(codec, built.path, JObject(ManifestRecord(datasets, createdAt, absoluteDir)));
  }

  // ---------------------------------------------------------------------------
  // What validate_manifest walks

  /**
   * What `for x in value` visits: a list's elements, a string's characters,
   * an object's keys in the order the codec decoded them; `null`, numbers
   * and booleans raise `TypeError`.
   */
  function Iterable(codec: JsonCodec, value: Json): (r: Result<seq<Json>>)
    ensures value.JArray? ==> r == Ok(value.items)
    ensures value.JObject? ==>
      && r.Ok? && |r.value| == |codec.keys(value.fields)|
      && forall i :: 0 <= i < |r.value| ==> r.value[i] == JString(codec.keys(value.fields)[i])
    ensures r.Err? <==> value.JNull? || value.JBool? || value.JInt?
  {
    match value
    case JArray(items) => Ok(items)
    case JString(s) => Ok(seq(|s|, i requires 0 <= i < |s| => JString([s[i]])))
    case JObject(fields) =>
      var ks := codec.keys(fields);
      Ok(seq(|ks|, i requires 0 <= i < |ks| => JString(ks[i])))
    case _ => Err(TypeErr)
  }

  /** The full paths named by `files`, in order; the first entry that is not a string raises `TypeError`. */
  function FilePaths(dir: Path, files: seq<Json>): (r: Result<seq<Path>>)
    ensures r.Ok? ==> |r.value| == |files|
  {
    if files == [] then Ok([])
    else match FilePaths(dir, files[..|files| - 1])
      case Err(e) => Err(e)
      case Ok(ps) =>
        var f := files[|files| - 1];
        if f.JString? then Ok(ps + [Child(dir, f.s)]) else Err(TypeErr)
  }

  /** The full paths one dataset entry lists under `files` (none when the key is absent). */
  function DatasetPaths(codec: JsonCodec, dir: Path, dataset: Json): Result<seq<Path>> {
    if !dataset.JObject? then Err(AttributeErr)
    else match Iterable(codec, if "files" in dataset.fields then dataset.fields["files"] else JArray([]))
      case Err(e) => Err(e)
      case Ok(files) => FilePaths(dir, files)
  }

  /** The full paths of all datasets, dataset by dataset; the first malformed entry raises. */
  function ManifestPaths(codec: JsonCodec, dir: Path, datasets: seq<Json>): Result<seq<Path>> {
    if datasets == [] then Ok([])
    else match ManifestPaths(codec, dir, datasets[..|datasets| - 1])
      case Err(e) => Err(e)
      case Ok(ps) =>
        match DatasetPaths(codec, dir, datasets[|datasets| - 1])
        case Err(e) => Err(e)
        case Ok(qs) => Ok(ps + qs)
  }

  /** Every path a loadable manifest at `manifestPath` lists, or the exception validation raises first. */
  function ManifestListing(disk: Disk, codec: JsonCodec, manifestPath: Path): Result<seq<Path>> {
    match LoadManifest(disk, codec, manifestPath)
    case Err(e) => Err(e)
    case Ok(manifest) =>
      if !manifest.JObject? then Err(AttributeErr)
      else match Iterable(codec, if "datasets" in manifest.fields then manifest.fields["datasets"] else JArray([]))
        case Err(e) => Err(e)
        case Ok(datasets) => ManifestPaths(codec, Parent(manifestPath), datasets)
  }

  /** The paths of `ps` missing from `disk`, in order, once per occurrence. */
  function Missing(ps: seq<Path>, disk: Disk): seq<Path> {
    if ps == [] then []
    else Missing(ps[..|ps| - 1], disk) + (if ps[|ps| - 1] in disk then [] else [ps[|ps| - 1]])
  }

  /** Nothing is missing exactly when every path exists. */
  lemma {:induction false} MissingEmptyIff(ps: seq<Path>, disk: Disk)
    ensures Missing(ps, disk) == [] <==> forall i :: 0 <= i < |ps| ==> ps[i] in disk
  {
    if ps != [] {
      MissingEmptyIff(ps[..|ps| - 1], disk);
      assert forall i :: 0 <= i < |ps| - 1 ==> ps[..|ps| - 1][i] == ps[i];
    }
  }

  /** Every missing path is reported once for each time it is listed, and nothing present is reported. */
  lemma {:induction false} MissingCounts(ps: seq<Path>, disk: Disk, p: Path)
    ensures multiset(Missing(ps, disk))[p] == if p in disk then 0 else multiset(ps)[p]
  {
    if ps != [] {
      MissingCounts(ps[..|ps| - 1], disk, p);
      assert ps == ps[..|ps| - 1] + [ps[|ps| - 1]];
    }
  }

  /** An error met on a prefix of the files is the error of the whole list. */
  lemma {:induction false} FilePathsErrorStays(dir: Path, files: seq<Json>, j: nat)
    requires j <= |files| && FilePaths(dir, files[..j]).Err?
    ensures FilePaths(dir, files) == FilePaths(dir, files[..j])
    decreases |files| - j
  {
    if j < |files| {
      assert files[..j + 1][..j] == files[..j];
      FilePathsErrorStays(dir, files, j + 1);
    } else {
      assert files[..j] == files;
    }
  }

  /** An error met on a prefix of the datasets is the error of the whole list. */
  lemma {:induction false} ManifestPathsErrorStays(codec: JsonCodec, dir: Path, datasets: seq<Json>, i: nat)
    requires i <= |datasets| && ManifestPaths(codec, dir, datasets[..i]).Err?
    ensures ManifestPaths(codec, dir, datasets) == ManifestPaths(codec, dir, datasets[..i])
    decreases |datasets| - i
  {
    if i < |datasets| {
      assert datasets[..i + 1][..i] == datasets[..i];
      ManifestPathsErrorStays(codec, dir, datasets, i + 1);
    } else {
      assert datasets[..i] == datasets;
    }
  }

  // ---------------------------------------------------------------------------
  // validate_manifest

  /** Missing paths of a concatenation are the missing paths of each part, in order. */
  lemma {:induction false} MissingAppend(a: seq<Path>, b: seq<Path>, disk: Disk)
    ensures Missing(a + b, disk) == Missing(a, disk) + Missing(b, disk)
    decreases |b|
  {
    if b == [] {
      assert a + b == a;
    } else {
      var init := b[..|b| - 1];
      assert (a + b)[..|a + b| - 1] == a + init;
      MissingAppend(a, init, disk);
    }
  }

  /**
   * One more entry of `files`, after the first `j` gave `seen`: a string adds
   * its full path, reported when it is missing; anything else raises
   * `TypeError` for the whole list.
   */
  lemma FilePathsStep(dir: Path, files: seq<Json>, j: nat, seen: seq<Path>, disk: Disk)
    requires j < |files| && FilePaths(dir, files[..j]) == Ok(seen)
    ensures files[j].JString? ==> FilePaths(dir, files[..j + 1]) == Ok(seen + [Child(dir, files[j].s)])
    ensures files[j].JString? ==>
      Missing(seen + [Child(dir, files[j].s)], disk)
        == Missing(seen, disk) + (if Child(dir, files[j].s) in disk then [] else [Child(dir, files[j].s)])
    ensures !files[j].JString? ==> FilePaths(dir, files) == Err(TypeErr)
  {
    assert files[..j + 1][..j] == files[..j];
    if files[j].JString? {
      var p := Child(dir, files[j].s);
      assert (seen + [p])[..|seen|] == seen;
    } else {
      FilePathsErrorStays(dir, files, j + 1);
    }
  }

  /**
   * The inner loop of `validate_manifest` over one dataset's `files`: each
   * full path that does not exist is appended to `missing` and clears
   * `allExist`; an entry that is not a string raises `TypeError`.
   */
  method ScanFiles(disk: Disk, dir: Path, files: seq<Json>) returns (err: Option<Error>, missing: seq<Path>)
    ensures FilePaths(dir, files).Err? ==> err == Some(FilePaths(dir, files).error)
    ensures FilePaths(dir, files).Ok? ==> err == None && missing == Missing(FilePaths(dir, files).value, disk)
  {
    missing := [];
    ghost var seen: seq<Path> := [];
    for j := 0 to |files|
      invariant FilePaths(dir, files[..j]) == Ok(seen)
      invariant missing == Missing(seen, disk)
    {
      var f := files[j];
      FilePathsStep(dir, files, j, seen, disk);
      if !f.JString? {
        err := Some(TypeErr);
        return;
      }
      var fullPath := Child(dir, f.s);
      if fullPath !in disk {
        missing := missing + [fullPath];
      }
      seen := seen + [fullPath];
    }
    assert files[..|files|] == files;
    err := None;
  }

  /** One more dataset, after the first `i` gave `seen`: its paths are added, or its error is the whole list's. */
  lemma ManifestPathsStep(codec: JsonCodec, dir: Path, datasets: seq<Json>, i: nat, seen: seq<Path>)
    requires i < |datasets| && ManifestPaths(codec, dir, datasets[..i]) == Ok(seen)
    ensures DatasetPaths(codec, dir, datasets[i]).Err? ==> ManifestPaths(codec, dir, datasets) == Err(DatasetPaths(codec, dir, datasets[i]).error)
    ensures DatasetPaths(codec, dir, datasets[i]).Ok? ==> ManifestPaths(codec, dir, datasets[..i + 1]) == Ok(seen + DatasetPaths(codec, dir, datasets[i]).value)
  {
    assert datasets[..i + 1][..i] == datasets[..i];
    if DatasetPaths(codec, dir, datasets[i]).Err? {
      ManifestPathsErrorStays(codec, dir, datasets, i + 1);
    }
  }

  /**
   * The body of `validate_manifest`'s outer loop for one dataset: an entry
   * that is not an object raises `AttributeError`, a `files` value that is
   * not iterable raises, and otherwise its files are scanned.
   */
  method ScanDataset(disk: Disk, codec: JsonCodec, dir: Path, dataset: Json) returns (err: Option<Error>, missing: seq<Path>)
    ensures DatasetPaths(codec, dir, dataset).Err? ==> err == Some(DatasetPaths(codec, dir, dataset).error)
    ensures DatasetPaths(codec, dir, dataset).Ok? ==> err == None && missing == Missing(DatasetPaths(codec, dir, dataset).value, disk)
  {
    missing := [];
    if !dataset.JObject? {
      err := Some(AttributeErr);
      return;
    }
    var fileList := Iterable(codec, if "files" in dataset.fields then dataset.fields["files"] else JArray([]));
    if fileList.Err? {
      err := Some(fileList.error);
      return;
    }
    err, missing := ScanFiles(disk, dir, fileList.value);
  }

  /**
   * The outer loop of `validate_manifest` over the datasets: it walks every
   * dataset's files, collecting each missing full path, and answers whether
   * none was missing; the first malformed dataset raises.
   */
  method ScanDatasets(disk: Disk, codec: JsonCodec, dir: Path, datasets: seq<Json>) returns (r: Result<bool>, missing: seq<Path>)
    ensures ManifestPaths(codec, dir, datasets).Err? ==> r == Err(ManifestPaths(codec, dir, datasets).error)
    ensures ManifestPaths(codec, dir, datasets).Ok? ==> r == Ok(missing == []) && missing == Missing(ManifestPaths(codec, dir, datasets).value, disk)
  {
    missing := [];
    var allExist := true;
    ghost var seen: seq<Path> := [];
    for i := 0 to |datasets|
      invariant ManifestPaths(codec, dir, datasets[..i]) == Ok(seen)
      invariant missing == Missing(seen, disk)
      invariant allExist <==> missing == []
    {
      ManifestPathsStep(codec, dir, datasets, i, seen);
      var err, more := ScanDataset(disk, codec, dir, datasets[i]);
      if err.Some? {
        r := Err(err.value);
        return;
      }
      ghost var qs := DatasetPaths(codec, dir, datasets[i]).value;
      MissingAppend(seen, qs, disk);
      missing := missing + more;
      allExist := allExist && more == [];
      seen := seen + qs;
    }
    assert datasets[..|datasets|] == datasets;
    r := Ok(allExist);
  }

  /**
   * `validate_manifest(manifest_path)`: loads the manifest and walks every
   * file of every dataset, resolving each against the manifest's directory.
   * It does not stop at the first miss: `missing` lists every missing path
   * once per occurrence (the "Missing file" lines), and the answer is true
   * exactly when every listed file exists. Loading failures and malformed
   * entries raise; the filesystem is only read.
   */
  method ValidateManifest(disk: Disk, codec: JsonCodec, manifestPath: Path) returns (r: Result<bool>, missing: seq<Path>)
    ensures var listing := ManifestListing(disk, codec, manifestPath);
      && (listing.Err? ==> r == Err(listing.error))
      && (listing.Ok? ==> r.Ok? && missing == Missing(listing.value, disk))
      && (listing.Ok? ==> (r.value <==> forall i :: 0 <= i < |listing.value| ==> listing.value[i] in disk))
  {
    missing := [];
    var loaded := LoadManifest(disk, codec, manifestPath);
    if loaded.Err? {
      r := Err(loaded.error);
      return;
    }
    var manifest := loaded.value;
    if !manifest.JObject? {
      r := Err(AttributeErr);
      return;
    }
    var listed := Iterable(codec, if "datasets" in manifest.fields then manifest.fields["datasets"] else JArray([]));
    if listed.Err? {
      r := Err(listed.error);
      return;
    }
    r, missing := ScanDatasets(disk, codec, Parent(manifestPath), listed.value);
    if ManifestPaths(codec, Parent(manifestPath), listed.value).Ok? {
      MissingEmptyIff(ManifestPaths(codec, Parent(manifestPath), listed.value).value, disk);
    }
  }

  // ---------------------------------------------------------------------------
  // Properties of validation

  /** Datasets that are objects without `files`, or with an empty `files` list, list nothing and so validate. */
  lemma {:induction false} NoFilesListsNothing(codec: JsonCodec, dir: Path, datasets: seq<Json>)
    requires forall i :: 0 <= i < |datasets| ==>
      datasets[i].JObject? && ("files" !in datasets[i].fields || datasets[i].fields["files"] == JArray([]))
    ensures ManifestPaths(codec, dir, datasets).Ok? && ManifestPaths(codec, dir, datasets).value == []
  {
    if datasets != [] {
      var init := datasets[..|datasets| - 1];
      assert forall i :: 0 <= i < |init| ==> init[i] == datasets[i];
      NoFilesListsNothing(codec, dir, init);
      var last := datasets[|datasets| - 1];
      assert DatasetPaths(codec, dir, last) == Ok([]);
    }
  }

  /** A list of strings names their full paths, one each, in order. */
  lemma {:induction false} FilePathsOfStrings(dir: Path, files: seq<Json>)
    requires forall i :: 0 <= i < |files| ==> files[i].JString?
    ensures FilePaths(dir, files).Ok?
    ensures forall i :: 0 <= i < |files| ==> FilePaths(dir, files).value[i] == Child(dir, files[i].s)
  {
    if files != [] {
      var init := files[..|files| - 1];
      assert forall i :: 0 <= i < |init| ==> init[i] == files[i];
      FilePathsOfStrings(dir, init);
    }
  }

  /**
   * A dataset whose `files` is an object lists one path per key (Python
   * iterates a dict's keys), so it validates exactly when the file named by
   * every key exists, whatever order the keys come in.
   */
  lemma ObjectFilesByKey(codec: JsonCodec, dir: Path, dataset: Json, disk: Disk)
    requires EnumeratesKeys(codec)
    requires dataset.JObject? && "files" in dataset.fields && dataset.fields["files"].JObject?
    ensures DatasetPaths(codec, dir, dataset).Ok?
    ensures var m := dataset.fields["files"].fields;
      var ps := DatasetPaths(codec, dir, dataset).value;
      && (forall k :: k in m ==> Child(dir, k) in ps)
      && (forall i :: 0 <= i < |ps| ==> NamedByKey(dir, m, ps[i]))
      && (Missing(ps, disk) == [] <==> forall k :: k in m ==> Child(dir, k) in disk)
  {
    var m := dataset.fields["files"].fields;
    var ks := codec.keys(m);
    var ps := KeyPaths(codec, dir, dataset);
    assert KeysOf(codec, m);
    KeyPathsCover(dir, ks, m, ps);
    KeyPathsMissing(dir, ks, m, ps, disk);
  }

  /** `p` is the path, under `dir`, of some key of `m`. */
  ghost predicate NamedByKey(dir: Path, m: map<string, Json>, p: Path) {
    exists k :: k in m && p == Child(dir, k)
  }

  /** Paths named by an enumeration of the keys of `m` are the paths of its keys. */
  lemma KeyPathsCover(dir: Path, ks: seq<string>, m: map<string, Json>, ps: seq<Path>)
    requires forall k :: k in ks <==> k in m
    requires |ps| == |ks| && forall i :: 0 <= i < |ks| ==> ps[i] == Child(dir, ks[i])
    ensures forall k :: k in m ==> Child(dir, k) in ps
    ensures forall i :: 0 <= i < |ps| ==> NamedByKey(dir, m, ps[i])
  {
    forall k | k in m ensures Child(dir, k) in ps {
      assert k in ks;
      var i :| 0 <= i < |ks| && ks[i] == k;
      assert ps[i] == Child(dir, k);
    }
    forall i | 0 <= i < |ps| ensures NamedByKey(dir, m, ps[i]) {
      assert ks[i] in ks;
      assert ks[i] in m && ps[i] == Child(dir, ks[i]);
    }
  }

  /** Paths named by an enumeration of the keys of `m` are all on disk exactly when the file of every key is. */
  lemma KeyPathsMissing(dir: Path, ks: seq<string>, m: map<string, Json>, ps: seq<Path>, disk: Disk)
    requires forall k :: k in ks <==> k in m
    requires |ps| == |ks| && forall i :: 0 <= i < |ks| ==> ps[i] == Child(dir, ks[i])
    ensures Missing(ps, disk) == [] <==> forall k :: k in m ==> Child(dir, k) in disk
  {
    MissingEmptyIff(ps, disk);
    if forall k :: k in m ==> Child(dir, k) in disk {
      forall i | 0 <= i < |ps| ensures ps[i] in disk {
        assert ks[i] in ks;
      }
    }
    if Missing(ps, disk) == [] {
      forall k | k in m ensures Child(dir, k) in disk {
        assert k in ks;
        var i :| 0 <= i < |ks| && ks[i] == k;
        assert ps[i] == Child(dir, k);
      }
    }
  }

  /** The paths of a dataset whose `files` is an object: `dir / key` for each key, in the codec's key order. */
  lemma KeyPaths(codec: JsonCodec, dir: Path, dataset: Json) returns (ps: seq<Path>)
    requires dataset.JObject? && "files" in dataset.fields && dataset.fields["files"].JObject?
    ensures DatasetPaths(codec, dir, dataset) == Ok(ps)
    ensures var ks := codec.keys(dataset.fields["files"].fields);
      |ps| == |ks| && forall i :: 0 <= i < |ks| ==> ps[i] == Child(dir, ks[i])
  {
    var files := Iterable(codec, dataset.fields["files"]).value;
    FilePathsOfStrings(dir, files);
    ps := FilePaths(dir, files).value;
  }

  /** A non-empty object as the datasets list raises `AttributeError`: its first key is a string, which has no `.get`. */
  lemma ObjectDatasetsRaise(codec: JsonCodec, dir: Path, datasets: map<string, Json>)
    requires EnumeratesKeys(codec) && datasets != map[]
    ensures Iterable(codec, JObject(datasets)).Ok?
    ensures ManifestPaths(codec, dir, Iterable(codec, JObject(datasets)).value) == Err(AttributeErr)
  {
    var ks := codec.keys(datasets);
    var k :| k in datasets;
    assert KeysOf(codec, datasets);
    assert k in ks;
    var list := Iterable(codec, JObject(datasets)).value;
    assert |list| > 0;
    assert ManifestPaths(codec, dir, list[..1]) == Err(AttributeErr) by {
      assert list[..1][..0] == [];
    }
    ManifestPathsErrorStays(codec, dir, list, 1);
  }

  /**
   * A manifest built over datasets whose files all exist (relative to the
   * output directory) validates right after it is written.
   */
  lemma BuildThenValidate(disk: Disk, codec: JsonCodec, outputDir: Path, datasets: seq<Json>,
                          manifestName: string, createdAt: string, absoluteDir: string, ps: seq<Path>)
    requires Faithful(codec) && ValidPart(manifestName)
    requires ManifestPaths(codec, outputDir, datasets) == Ok(ps)
    requires forall i :: 0 <= i < |ps| ==> ps[i] in disk
    ensures var built := BuildRunManifest(disk, codec, outputDir, datasets, manifestName, createdAt, absoluteDir);
      && ManifestListing(built.disk, codec, built.path) == Ok(ps)
      && Missing(ps, built.disk) == []
  {
    BuildThenLoad(disk, codec, outputDir, datasets, manifestName, createdAt, absoluteDir);
    ChildOfPart(outputDir, manifestName);
    var built := BuildRunManifest(disk, codec, outputDir, datasets, manifestName, createdAt, absoluteDir);
    MissingEmptyIff(ps, built.disk);
  }
}
