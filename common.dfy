/**
 * Values shared by every component: bytes, the filesystem as a value, JSON
 * documents, the exceptions the package raises, and a result type for
 * operations that raise them.
 */
module Common {
  import opened Wrappers
  import opened Paths

  type byte = b: int | 0 <= b < 256

  type Bytes = seq<byte>

  /**
   * The files on disk: each path that holds a file maps to its content.
   * Directories are not modelled; `p.exists()` is `p in disk`.
   */
  type Disk = map<Path, Bytes>

  /** A JSON document as `json.load` returns it (numbers are integers). */
  datatype Json =
    | JNull
    | JBool(b: bool)
    | JInt(i: int)
    | JString(s: string)
    | JArray(items: seq<Json>)
    | JObject(fields: map<string, Json>)

  /** Python truthiness of the value `json.load` returns (`if manifest_data:`, `if not expected_hash:`). */
  predicate Truthy(j: Json) {
    match j
    case JNull => false
    case JBool(b) => b
    case JInt(i) => i != 0
    case JString(s) => s != ""
    case JArray(items) => items != []
    case JObject(fields) => fields != map[]
  }

  /** A continuation byte of UTF-8, `10xxxxxx`. */
  predicate Continuation(x: byte) { 0x80 <= x <= 0xBF }

  /** The second byte of a three-byte sequence: no overlong form after `E0`, no surrogate after `ED`. */
  predicate SecondOfThree(lead: byte, x: byte) {
    if lead == 0xE0 then 0xA0 <= x <= 0xBF else if lead == 0xED then 0x80 <= x <= 0x9F else Continuation(x)
  }

  /** The second byte of a four-byte sequence: no overlong form after `F0`, nothing above U+10FFFF after `F4`. */
  predicate SecondOfFour(lead: byte, x: byte) {
    if lead == 0xF0 then 0x90 <= x <= 0xBF else if lead == 0xF4 then 0x80 <= x <= 0x8F else Continuation(x)
  }

  /**
   * The length of the well-formed UTF-8 sequence `b` starts with, or 0 when
   * it starts with none (the well-formed byte sequences of section 3.9 of
   * the Unicode Standard, which Python's strict `utf-8` decoder accepts).
   */
  function Utf8Prefix(b: Bytes): (n: nat)
    ensures n <= |b| && n <= 4
    ensures b != [] && b[0] <= 0x7F ==> n == 1
  {
    if b == [] then 0
    else
      var lead := b[0];
      if lead <= 0x7F then 1
      else if 0xC2 <= lead <= 0xDF then (if |b| >= 2 && Continuation(b[1]) then 2 else 0)
      else if 0xE0 <= lead <= 0xEF then (if |b| >= 3 && SecondOfThree(lead, b[1]) && Continuation(b[2]) then 3 else 0)
      else if 0xF0 <= lead <= 0xF4 then
        (if |b| >= 4 && SecondOfFour(lead, b[1]) && Continuation(b[2]) && Continuation(b[3]) then 4 else 0)
      else 0
  }

  /** `b.decode('utf-8')` succeeds: `b` is a sequence of well-formed UTF-8 sequences. */
  predicate Utf8(b: Bytes)
    decreases |b|
  {
    b == [] || (Utf8Prefix(b) > 0 && Utf8(b[Utf8Prefix(b)..]))
  }

  /** ASCII bytes are valid UTF-8. */
  lemma {:induction false} AsciiIsUtf8(b: Bytes)
    requires forall i :: 0 <= i < |b| ==> b[i] <= 0x7F
    ensures Utf8(b)
    decreases |b|
  {
    if b != [] {
      assert forall i :: 0 <= i < |b[1..]| ==> b[1..][i] == b[i + 1];
      AsciiIsUtf8(b[1..]);
    }
  }

  /** `é` and an emoji decode; a stray `FF`, an overlong `C0 80` and an encoded surrogate `ED A0 80` do not. */
  lemma Utf8Examples()
    ensures Utf8([0xC3, 0xA9]) && Utf8([0xF0, 0x9F, 0x98, 0x80])
    ensures !Utf8([0xFF]) && !Utf8([0xC0, 0x80]) && !Utf8([0xED, 0xA0, 0x80])
  {
    assert [0xC3, 0xA9][2..] == [];
    assert [0xF0, 0x9F, 0x98, 0x80][4..] == [];
  }

  /**
   * `json.dump` and `json.load` on file contents. `load` is `json.load` on
   * the decoded text of a UTF-8 file, None where it raises
   * `JSONDecodeError`. `keys` is the order in which `for key in d` visits
   * a decoded object (the order of the document), which a `map` forgets.
   */
  datatype JsonCodec = JsonCodec(dump: Json -> Bytes, load: Bytes -> Option<Json>, keys: map<string, Json> -> seq<string>)

  /** What is dumped is UTF-8 (`encoding='utf-8'`), and loading it gives the document back. */
  ghost predicate Faithful(codec: JsonCodec) {
    forall j :: Utf8(codec.dump(j)) && codec.load(codec.dump(j)) == Some(j)
  }

  /** Iterating the decoded object `m` visits exactly its keys. */
  ghost predicate KeysOf(codec: JsonCodec, m: map<string, Json>) {
    forall k :: k in codec.keys(m) <==> k in m
  }

  /** Iterating any decoded object visits exactly its keys. */
  ghost predicate EnumeratesKeys(codec: JsonCodec) {
    forall m :: KeysOf(codec, m)
  }

  /**
   * `json.load(f)` on a file opened with `encoding='utf-8'`: bytes that are
   * not UTF-8 raise `UnicodeDecodeError`, text that is not JSON raises
   * `JSONDecodeError`, and otherwise the document is returned.
   */
  function LoadUtf8(codec: JsonCodec, path: Path, content: Bytes): (r: Result<Json>)
    ensures r.Ok? <==> Utf8(content) && codec.load(content).Some?
    ensures r.Ok? ==> Some(r.value) == codec.load(content)
    ensures !Utf8(content) ==> r == Err(UnicodeDecodeError(path))
    ensures Utf8(content) && codec.load(content).None? ==> r == Err(JsonDecodeError(path))
  {
    if !Utf8(content) then Err(UnicodeDecodeError(path))
    else match codec.load(content)
      case None => Err(JsonDecodeError(path))
      case Some(j) => Ok(j)
  }

  /** What a faithful codec dumps loads back as the same document. */
  lemma DumpThenLoad(codec: JsonCodec, path: Path, j: Json)
    requires Faithful(codec)
    ensures LoadUtf8(codec, path, codec.dump(j)) == Ok(j)
  {
    assert Utf8(codec.dump(j)) && codec.load(codec.dump(j)) == Some(j);
  }

  /** The exceptions the modelled code raises, by Python class and message content. */
  datatype Error =
    | InvalidTableId(tableId: string)           // ValueError: "Invalid StatsCan table ID format: ..."
    | FileNotFound(path: Path)                  // FileNotFoundError
    | JsonDecodeError(path: Path)               // json.JSONDecodeError
    | NoHashValue                               // ValueError: "No hash value found in metadata"
    | AttributeErr                              // AttributeError (`.get` on a non-dict)
    | TypeErr                                   // TypeError (`in` or indexing on the wrong JSON type)
    | HttpStatus(code: int)                     // urllib.error.HTTPError
    | UrlFailure(reason: string)                // urllib.error.URLError
    | OtherFailure(reason: string)              // any other exception the network raises
    | RetriesExhausted(url: string, attempts: int) // URLError: "Failed to fetch {url} after {n} attempts"
    | BadZipFile(path: Path)                    // zipfile.BadZipFile
    | DownloadFailure(reason: string)           // a failed download at a provider's call site
    | StatCanFailure(pid: string, cause: Error) // RuntimeError: "Failed to download StatsCan table {pid}: ..."
    | OutsideRawRoot(dest: Path, root: Path)    // ValueError: "Destination ... must live under ..."
    | UnicodeDecodeError(path: Path)            // UnicodeDecodeError: a file read as UTF-8 that is not
    | IsADirectory(path: Path)                  // IsADirectoryError: `open(p, 'wb')` on a directory
    | UnsupportedHash(name: string)             // ValueError from `hashlib.new`: "unsupported hash type"

  /** The outcome of an operation that either returns a value or raises. */
  datatype Result<+T> = Ok(value: T) | Err(error: Error)
}
