/**
 * Provenance sidecars: `<name>.meta.json` next to a data file, holding where
 * the file came from, its size and its hash. The `hashlib` module is a
 * parameter of type `Hashlib`: which names `hashlib.new` accepts, which of
 * them are extendable-output, and the hex digest of the others.
 */
module Provenance {
  import opened Wrappers
  import opened Strings
  import opened Paths
  import opened Common

  const MetaSuffix: string := ".meta.json"

  /** The size of the blocks `calculate_file_hash` reads. */
  const ChunkSize: nat := 8192

  // ---------------------------------------------------------------------------
  // hashlib

  /** `hashlib.algorithms_guaranteed`: the names every Python build accepts. */
  const AlgorithmsGuaranteed: set<string> := {
    "blake2b", "blake2s", "md5", "sha1", "sha224", "sha256", "sha384", "sha512",
    "sha3_224", "sha3_256", "sha3_384", "sha3_512", "shake_128", "shake_256"
  }

  /** The guaranteed extendable-output functions, whose `hexdigest()` needs a length. */
  const Shake: set<string> := {"shake_128", "shake_256"}

  /**
   * The part of `hashlib` the module uses. `available(name)` says whether
   * `hashlib.new(name)` accepts the name (it raises `ValueError` otherwise);
   * `xof(name)` whether the hash object is extendable-output, so that
   * `hexdigest()` without a length raises `TypeError`; `hexdigest(name, data)`
   * is the digest of a fixed-length hash fed with `data`.
   */
  datatype HashlibModule = HashlibModule(available: string -> bool, xof: string -> bool,
                                         hexdigest: (string, Bytes) -> string)

  /** Every build accepts the guaranteed names, and among them only the SHAKE functions are extendable-output. */
  predicate Guarantees(h: HashlibModule) {
    forall a :: a in AlgorithmsGuaranteed ==> h.available(a) && (h.xof(a) <==> a in Shake)
  }

  type Hashlib = h: HashlibModule | Guarantees(h)
    witness HashlibModule(_ => true, a => a in Shake, (_, _) => "")

  /** `hashlib.new(name)` accepts the name and `hexdigest()` then needs no argument. */
  predicate Usable(hashlib: Hashlib, algorithm: string) {
    hashlib.available(algorithm) && !hashlib.xof(algorithm)
  }

  /** Every guaranteed fixed-length name, `sha256` among them, is usable on every build. */
  lemma GuaranteedUsable(hashlib: Hashlib, algorithm: string)
    requires algorithm in AlgorithmsGuaranteed - Shake
    ensures Usable(hashlib, algorithm)
  {
  }

  // ---------------------------------------------------------------------------
  // calculate_file_hash

  /** The chunks concatenated in order. */
  function Flatten(chunks: seq<Bytes>): Bytes {
    if chunks == [] then [] else Flatten(chunks[..|chunks| - 1]) + chunks[|chunks| - 1]
  }

  function Min(a: int, b: int): int { if a < b then a else b }

  /**
   * What `calculate_file_hash(path, algorithm)` returns or raises.
   * `hashlib.new` rejects an unknown name with `ValueError` before the file
   * is opened, so that error wins over a missing file; a missing file raises
   * `FileNotFoundError`; an extendable-output hash raises `TypeError` from
   * `hexdigest()` once the file has been read.
   */
  function FileHash(disk: Disk, path: Path, algorithm: string, hashlib: Hashlib): (r: Result<string>)
    ensures r.Ok? <==> Usable(hashlib, algorithm) && path in disk
    ensures r.Ok? ==> r.value == hashlib.hexdigest(algorithm, disk[path])
    ensures !hashlib.available(algorithm) ==> r == Err(UnsupportedHash(algorithm))
    ensures hashlib.available(algorithm) && path !in disk ==> r == Err(FileNotFound(path))
    ensures hashlib.available(algorithm) && hashlib.xof(algorithm) && path in disk ==> r == Err(TypeErr)
  {
    if !hashlib.available(algorithm) then Err(UnsupportedHash(algorithm))
    else if path !in disk then Err(FileNotFound(path))
    else if hashlib.xof(algorithm) then Err(TypeErr)
    else Ok(hashlib.hexdigest(algorithm, disk[path]))
  }

  /**
   * `calculate_file_hash(path, algorithm)`: creates the hash object, then
   * reads the file in blocks of at most 8192 bytes and feeds each to it. The
   * blocks are non-empty, in order, and together are exactly the file's
   * content, so the digest is that of the whole content.
   */
  method CalculateFileHash(disk: Disk, path: Path, algorithm: string, hashlib: Hashlib)
    returns (r: Result<string>, chunks: seq<Bytes>)
    ensures r == FileHash(disk, path, algorithm, hashlib)
    ensures hashlib.available(algorithm) && path in disk ==> Flatten(chunks) == disk[path]
    ensures !hashlib.available(algorithm) || path !in disk ==> chunks == []
    ensures forall i :: 0 <= i < |chunks| ==> 0 < |chunks[i]| <= ChunkSize
  {
    chunks := [];
    if !hashlib.available(algorithm) {
      r := Err(UnsupportedHash(algorithm));
      return;
    }
    if path !in disk {
      r := Err(FileNotFound(path));
      return;
    }
    var content := disk[path];
    var fed: Bytes := [];
    var pos := 0;
    var chunk := content[pos..Min(pos + ChunkSize, |content|)];
    while chunk != []
      invariant 0 <= pos <= |content|
      invariant fed == content[..pos] && Flatten(chunks) == fed
      invariant chunk == content[pos..Min(pos + ChunkSize, |content|)]
      invariant forall i :: 0 <= i < |chunks| ==> 0 < |chunks[i]| <= ChunkSize
      decreases |content| - pos
    {
      assert content[..pos + |chunk|] == content[..pos] + chunk;
      fed := fed + chunk;
      assert (chunks + [chunk])[..|chunks|] == chunks;
      chunks := chunks + [chunk];
      pos := pos + |chunk|;
      chunk := content[pos..Min(pos + ChunkSize, |content|)];
    }
    assert fed == content;
    if hashlib.xof(algorithm) {
      r := Err(TypeErr);
    } else {
      r := Ok(hashlib.hexdigest(algorithm, fed));
    }
  }

  // ---------------------------------------------------------------------------
  // Sidecar naming

  /** The sidecar's name: the data file's name followed by `.meta.json`, always a single valid part. */
  function SidecarName(file: Path): (name: string)
    ensures ValidPart(name) && name == Name(file) + MetaSuffix
  {
    var name := Name(file) + MetaSuffix;
    assert name[|name| - 1] == 'n';
    assert '/' !in name by {
      assert '/' !in Name(file) by {
        if file.parts != [] { assert ValidPart(file.parts[|file.parts| - 1]); }
      }
      assert forall i :: 0 <= i < |name| ==> name[i] == if i < |Name(file)| then Name(file)[i] else MetaSuffix[i - |Name(file)|];
    }
    name
  }

  /**
   * `file.parent / f"{file.name}.meta.json"`: the sidecar sits in the same
   * directory as its data file, is named after it, and is never the data
   * file itself.
   */
  function SidecarPath(file: Path): (m: Path)
    ensures Parent(m) == Parent(file) && Name(m) == Name(file) + MetaSuffix
    ensures m != file
  {
    var m := AddPart(Parent(file), SidecarName(file));
    assert |Name(m)| > |Name(file)|;
    m
  }

  /** The sidecar path is the data file's directory joined with the sidecar name, as pathlib's `/` builds it. */
  lemma SidecarPathIsChild(file: Path)
    ensures SidecarPath(file) == Child(Parent(file), Name(file) + MetaSuffix)
  {
    ChildOfPart(Parent(file), SidecarName(file));
  }

  /** The sidecar's name ends in `.meta.json`. */
  lemma SidecarPathShape(file: Path)
    ensures EndsWith(Name(SidecarPath(file)), MetaSuffix)
  {
    var name := Name(file) + MetaSuffix;
    assert name[|Name(file)|..] == MetaSuffix;
  }

  /** The metadata file `read_provenance_metadata` opens: a `.meta.json` path itself, otherwise its sidecar. */
  function MetadataPathFor(file: Path): (m: Path)
    ensures EndsWith(Name(m), MetaSuffix)
  {
    SidecarPathShape(file);
    if EndsWith(Name(file), MetaSuffix) then file else SidecarPath(file)
  }

  /** Asking for the metadata of a data file or of its sidecar reads the same file. */
  lemma MetadataPathOfSidecar(file: Path)
    ensures MetadataPathFor(SidecarPath(file)) == SidecarPath(file)
    ensures !EndsWith(Name(file), MetaSuffix) ==> MetadataPathFor(file) == SidecarPath(file)
  {
    SidecarPathShape(file);
  }

  // ---------------------------------------------------------------------------
  // write_provenance_metadata

  /** The base record before `additional_metadata` is merged in. */
  function BaseRecord(file: Path, content: Bytes, sourceUrl: string, downloadedAt: string,
                      contentType: Option<string>, hashAlgorithm: string, hashValue: string): map<string, Json>
  {
    var base := map[
      "file" := JString(Name(file)),
      "source_url" := JString(sourceUrl),
      "downloaded_at" := JString(downloadedAt),
      "file_size_bytes" := JInt(|content|),
      "hash" := JObject(map["algorithm" := JString(hashAlgorithm), "value" := JString(hashValue)])
    ];
    if contentType.Some? && contentType.value != "" then base["content_type" := JString(contentType.value)] else base
  }

  /**
   * The record `write_provenance_metadata` writes: the base fields, then
   * `metadata.update(additional_metadata)`, where a key of the additional
   * fields replaces the base field of the same name.
   */
  function ProvenanceRecord(file: Path, content: Bytes, sourceUrl: string, downloadedAt: string,
                            contentType: Option<string>, additional: map<string, Json>,
                            hashAlgorithm: string, hashlib: Hashlib): map<string, Json>
  {
    BaseRecord(file, content, sourceUrl, downloadedAt, contentType, hashAlgorithm, hashlib.hexdigest(hashAlgorithm, content)) + additional
  }

  /** The additional fields win on a key clash; every other base field stays; `content_type` appears only when given non-empty or added. */
  lemma ProvenanceRecordFields(file: Path, content: Bytes, sourceUrl: string, downloadedAt: string,
                               contentType: Option<string>, additional: map<string, Json>,
                               hashAlgorithm: string, hashlib: Hashlib)
    ensures var rec := ProvenanceRecord(file, content, sourceUrl, downloadedAt, contentType, additional, hashAlgorithm, hashlib);
      && (forall k :: k in additional ==> k in rec && rec[k] == additional[k])
      && ("file" !in additional ==> rec["file"] == JString(Name(file)))
      && ("source_url" !in additional ==> rec["source_url"] == JString(sourceUrl))
      && ("file_size_bytes" !in additional ==> rec["file_size_bytes"] == JInt(|content|))
      && ("hash" !in additional ==> rec["hash"] == JObject(map["algorithm" := JString(hashAlgorithm), "value" := JString(hashlib.hexdigest(hashAlgorithm, content))]))
      && ("content_type" in rec <==> (contentType.Some? && contentType.value != "") || "content_type" in additional)
      && rec.Keys == {"file", "source_url", "downloaded_at", "file_size_bytes", "hash"} + additional.Keys
                     + (if contentType.Some? && contentType.value != "" then {"content_type"} else {})
  {
  }

  /**
   * `write_provenance_metadata(file, source_url, content_type, additional, algorithm)`:
   * a missing data file raises `FileNotFoundError`; otherwise hashing the
   * file raises what `calculate_file_hash` raises for the algorithm; in both
   * cases nothing is written. Otherwise the record is dumped into the sidecar
   * and the sidecar's path is returned. `downloadedAt` is the timestamp of
   * the call.
   */
  function WriteProvenanceMetadata(disk: Disk, codec: JsonCodec, hashlib: Hashlib,
                                   file: Path, sourceUrl: string, downloadedAt: string,
                                   contentType: Option<string>, additional: map<string, Json>,
                                   hashAlgorithm: string): (r: Result<(Disk, Path)>)
    ensures r.Err? <==> file !in disk || !Usable(hashlib, hashAlgorithm)
    ensures file !in disk ==> r == Err(FileNotFound(file))
    ensures file in disk && !hashlib.available(hashAlgorithm) ==> r == Err(UnsupportedHash(hashAlgorithm))
    ensures file in disk && hashlib.available(hashAlgorithm) && hashlib.xof(hashAlgorithm) ==> r == Err(TypeErr)
    ensures r.Ok? ==> r.value.1 == SidecarPath(file) && r.value.0.Keys == disk.Keys + {SidecarPath(file)}
  {
    if file !in disk then Err(FileNotFound(file))
    else match FileHash(disk, file, hashAlgorithm, hashlib)
      case Err(e) => Err(e)
      case Ok(_) =>
        var rec := ProvenanceRecord(file, disk[file], sourceUrl, downloadedAt, contentType, additional, hashAlgorithm, hashlib);
        var meta := SidecarPath(file);
        Ok((disk[meta := codec.dump(JObject(rec))], meta))
  }

  /** Writing a sidecar leaves the data file and every file other than the sidecar as they were. */
  lemma WriteKeepsOtherFiles(disk: Disk, codec: JsonCodec, hashlib: Hashlib,
                             file: Path, sourceUrl: string, downloadedAt: string,
                             contentType: Option<string>, additional: map<string, Json>, hashAlgorithm: string)
    requires file in disk && Usable(hashlib, hashAlgorithm)
    ensures var r := WriteProvenanceMetadata(disk, codec, hashlib, file, sourceUrl, downloadedAt, contentType, additional, hashAlgorithm);
      r.Ok? && r.value.0[file] == disk[file]
      && forall p :: p in disk && p != SidecarPath(file) ==> r.value.0[p] == disk[p]
  {
    SidecarPathShape(file);
  }

  // ---------------------------------------------------------------------------
  // read_provenance_metadata and verify_file_integrity

  /**
   * `read_provenance_metadata(file)`: the sidecar read as UTF-8 text and
   * decoded, or `FileNotFoundError`, `UnicodeDecodeError` or `JSONDecodeError`.
   */
  function ReadProvenanceMetadata(disk: Disk, codec: JsonCodec, file: Path): (r: Result<Json>)
    ensures MetadataPathFor(file) !in disk <==> r == Err(FileNotFound(MetadataPathFor(file)))
    ensures MetadataPathFor(file) in disk ==> r == LoadUtf8(codec, MetadataPathFor(file), disk[MetadataPathFor(file)])
  {
    var meta := MetadataPathFor(file);
    if meta !in disk then Err(FileNotFound(meta))
    else LoadUtf8(codec, meta, disk[meta])
  }

  /** `metadata.get(key, default)` on a JSON object. */
  function GetOr(fields: map<string, Json>, key: string, default: Json): Json {
    if key in fields then fields[key] else default
  }

  /**
   * `verify_file_integrity(file)`: reads the metadata, takes `hash.algorithm`
   * (default "sha256") and `hash.value`, raises `ValueError` when the value is
   * missing or empty, and otherwise answers whether the file's current digest
   * equals the recorded value. `.get` on a non-object raises `AttributeError`,
   * a non-string algorithm makes `hashlib.new` raise `TypeError`, and the
   * hashing itself raises what `calculate_file_hash` raises: `ValueError` for
   * a name `hashlib` does not know, `FileNotFoundError` for a missing data
   * file, `TypeError` for an extendable-output hash.
   */
  function VerifyFileIntegrity(disk: Disk, codec: JsonCodec, hashlib: Hashlib, file: Path): Result<bool> {
    match ReadProvenanceMetadata(disk, codec, file)
    case Err(e) => Err(e)
    case Ok(meta) =>
      if !meta.JObject? then Err(AttributeErr)
      else
        var hashInfo := GetOr(meta.fields, "hash", JObject(map[]));
        if !hashInfo.JObject? then Err(AttributeErr)
        else
          var algorithm := GetOr(hashInfo.fields, "algorithm", JString("sha256"));
          var expected := GetOr(hashInfo.fields, "value", JNull);
          if !Truthy(expected) then Err(NoHashValue)
          else if !algorithm.JString? then Err(TypeErr)
          else match FileHash(disk, file, algorithm.s, hashlib)
            case Err(e) => Err(e)
            case Ok(current) => Ok(JString(current) == expected)
  }

  /** The hash part of a metadata document, with `algorithm` and `value` given as strings. */
  predicate RecordsHash(meta: Json, algorithm: string, value: string) {
    && meta.JObject? && "hash" in meta.fields && meta.fields["hash"].JObject?
    && GetOr(meta.fields["hash"].fields, "algorithm", JString("sha256")) == JString(algorithm)
    && GetOr(meta.fields["hash"].fields, "value", JNull) == JString(value)
  }

  /** With a recorded non-empty hash value, verification answers exactly whether the current digest equals it. */
  lemma VerifyComparesHash(disk: Disk, codec: JsonCodec, hashlib: Hashlib, file: Path, algorithm: string, value: string)
    requires ReadProvenanceMetadata(disk, codec, file).Ok?
    requires RecordsHash(ReadProvenanceMetadata(disk, codec, file).value, algorithm, value)
    requires value != "" && file in disk && Usable(hashlib, algorithm)
    ensures VerifyFileIntegrity(disk, codec, hashlib, file) == Ok(hashlib.hexdigest(algorithm, disk[file]) == value)
  {
  }

  /**
   * A recorded algorithm `hashlib` does not know raises its `ValueError`
   * whether or not the data file exists; a known extendable-output one raises
   * `TypeError` once an existing file has been read.
   */
  lemma VerifyUnusableAlgorithmRaises(disk: Disk, codec: JsonCodec, hashlib: Hashlib, file: Path, algorithm: string, value: string)
    requires ReadProvenanceMetadata(disk, codec, file).Ok?
    requires RecordsHash(ReadProvenanceMetadata(disk, codec, file).value, algorithm, value)
    requires value != "" && !Usable(hashlib, algorithm)
    requires hashlib.available(algorithm) ==> file in disk
    ensures !hashlib.available(algorithm) ==> VerifyFileIntegrity(disk, codec, hashlib, file) == Err(UnsupportedHash(algorithm))
    ensures hashlib.available(algorithm) ==> VerifyFileIntegrity(disk, codec, hashlib, file) == Err(TypeErr)
  {
  }

  /** A hash entry without a value, or with an empty one, raises `ValueError`. */
  lemma VerifyNeedsHashValue(disk: Disk, codec: JsonCodec, hashlib: Hashlib, file: Path)
    requires ReadProvenanceMetadata(disk, codec, file).Ok?
    requires var meta := ReadProvenanceMetadata(disk, codec, file).value;
      meta.JObject? && "hash" in meta.fields && meta.fields["hash"].JObject?
      && GetOr(meta.fields["hash"].fields, "value", JNull) in {JNull, JString("")}
    ensures VerifyFileIntegrity(disk, codec, hashlib, file) == Err(NoHashValue)
  {
  }

  /** Verification of a file without any metadata raises `FileNotFoundError` for the metadata path. */
  lemma VerifyWithoutSidecar(disk: Disk, codec: JsonCodec, hashlib: Hashlib, file: Path)
    requires MetadataPathFor(file) !in disk
    ensures VerifyFileIntegrity(disk, codec, hashlib, file) == Err(FileNotFound(MetadataPathFor(file)))
  {
  }

  /**
   * Verifying right after writing succeeds: when the codec loads what it
   * dumps, `hash` was not overridden and the digest is non-empty, the
   * recorded hash is the file's current hash.
   */
  lemma WriteThenVerify(disk: Disk, codec: JsonCodec, hashlib: Hashlib,
                        file: Path, sourceUrl: string, downloadedAt: string,
                        contentType: Option<string>, additional: map<string, Json>, hashAlgorithm: string)
    requires Faithful(codec)
    requires file in disk && !EndsWith(Name(file), MetaSuffix)
    requires "hash" !in additional && Usable(hashlib, hashAlgorithm)
    requires hashlib.hexdigest(hashAlgorithm, disk[file]) != ""
    ensures var r := WriteProvenanceMetadata(disk, codec, hashlib, file, sourceUrl, downloadedAt, contentType, additional, hashAlgorithm);
      r.Ok? && VerifyFileIntegrity(r.value.0, codec, hashlib, file) == Ok(true)
  {
    WriteKeepsOtherFiles(disk, codec, hashlib, file, sourceUrl, downloadedAt, contentType, additional, hashAlgorithm);
    MetadataPathOfSidecar(file);
    var rec := ProvenanceRecord(file, disk[file], sourceUrl, downloadedAt, contentType, additional, hashAlgorithm, hashlib);
    ProvenanceRecordFields(file, disk[file], sourceUrl, downloadedAt, contentType, additional, hashAlgorithm, hashlib);
    var disk' := WriteProvenanceMetadata(disk, codec, hashlib, file, sourceUrl, downloadedAt, contentType, additional, hashAlgorithm).value.0;
    assert disk'[SidecarPath(file)] == codec.dump(JObject(rec));
    DumpThenLoad(codec, SidecarPath(file), JObject(rec));
    VerifyComparesHash(disk', codec, hashlib, file, hashAlgorithm, hashlib.hexdigest(hashAlgorithm, disk[file]));
  }

  /** A data file changed after writing, to content with a different digest, fails verification. */
  lemma TamperedFileFailsVerify(disk: Disk, codec: JsonCodec, hashlib: Hashlib,
                                file: Path, sourceUrl: string, downloadedAt: string,
                                contentType: Option<string>, additional: map<string, Json>, hashAlgorithm: string,
                                tampered: Bytes)
    requires Faithful(codec)
    requires file in disk && !EndsWith(Name(file), MetaSuffix)
    requires "hash" !in additional && Usable(hashlib, hashAlgorithm)
    requires hashlib.hexdigest(hashAlgorithm, disk[file]) != ""
    requires hashlib.hexdigest(hashAlgorithm, tampered) != hashlib.hexdigest(hashAlgorithm, disk[file])
    ensures var r := WriteProvenanceMetadata(disk, codec, hashlib, file, sourceUrl, downloadedAt, contentType, additional, hashAlgorithm);
      r.Ok? && VerifyFileIntegrity(r.value.0[file := tampered], codec, hashlib, file) == Ok(false)
  {
    WriteKeepsOtherFiles(disk, codec, hashlib, file, sourceUrl, downloadedAt, contentType, additional, hashAlgorithm);
    MetadataPathOfSidecar(file);
    SidecarPathShape(file);
    var rec := ProvenanceRecord(file, disk[file], sourceUrl, downloadedAt, contentType, additional, hashAlgorithm, hashlib);
    ProvenanceRecordFields(file, disk[file], sourceUrl, downloadedAt, contentType, additional, hashAlgorithm, hashlib);
    var disk' := WriteProvenanceMetadata(disk, codec, hashlib, file, sourceUrl, downloadedAt, contentType, additional, hashAlgorithm).value.0;
    var d2 := disk'[file := tampered];
    assert d2[SidecarPath(file)] == codec.dump(JObject(rec));
    DumpThenLoad(codec, SidecarPath(file), JObject(rec));
    VerifyComparesHash(d2, codec, hashlib, file, hashAlgorithm, hashlib.hexdigest(hashAlgorithm, disk[file]));
  }
}
