/**
 * A lexical model of `pathlib.PurePosixPath`: a path is a flag saying
 * whether it is absolute and the list of its parts. Parsing a string drops
 * empty and `.` parts but keeps `..` (as pathlib does); `Resolve` is the
 * lexical part of `Path.resolve()` on an absolute path.
 */
module Paths {
  import opened Wrappers
  import opened Strings

  /** A part of a parsed path: not empty, not `.`, and free of `/`. */
  predicate ValidPart(s: string) { s != "" && s != "." && '/' !in s }

  datatype PurePath = PurePath(absolute: bool, parts: seq<string>)

  predicate WellFormed(p: PurePath) {
    forall i :: 0 <= i < |p.parts| ==> ValidPart(p.parts[i])
  }

  /** A path as pathlib holds it after parsing. */
  type Path = p: PurePath | WellFormed(p) witness PurePath(false, [])

  /** The pieces of `xs` that pathlib keeps as parts. */
  function KeepParts(xs: seq<string>): (r: seq<string>)
    requires forall i :: 0 <= i < |xs| ==> '/' !in xs[i]
    ensures forall i :: 0 <= i < |r| ==> ValidPart(r[i])
  {
    if xs == [] then []
    else (if xs[0] != "" && xs[0] != "." then [xs[0]] else []) + KeepParts(xs[1..])
  }

  /** `PurePosixPath(s)`. */
  function Parse(s: string): (p: Path)
    ensures p.absolute <==> StartsWith(s, "/")
  {
    PurePath(StartsWith(s, "/"), KeepParts(Split(s, '/')))
  }

  /** A string that is a single valid part parses to the relative path of that one part. */
  lemma ParseSinglePart(name: string)
    requires ValidPart(name)
    ensures Parse(name) == PurePath(false, [name])
  {
    assert !StartsWith(name, "/") by { assert name[0] != '/'; }
    assert Split(name, '/') == [name];
    assert KeepParts([name]) == [name] + KeepParts([]);
  }

  /** A string of two valid parts joined by `/` parses to the relative path of those two parts. */
  lemma ParseTwoParts(a: string, b: string)
    requires ValidPart(a) && ValidPart(b)
    ensures Parse(a + "/" + b) == PurePath(false, [a, b])
  {
    var s := a + "/" + b;
    assert s[|a|] == '/';
    var k := IndexOf(s, '/');
    assert s[..k] == a && s[k + 1..] == b;
    assert Split(s, '/') == [a, b];
    assert !StartsWith(s, "/") by { assert s[0] == a[0]; }
    assert KeepParts([a, b]) == [a] + KeepParts([b]);
    assert KeepParts([b]) == [b] + KeepParts([]);
  }

  /** `str(p)`. */
  function Render(p: Path): string {
    var body := JoinWith(p.parts, '/');
    if p.absolute then "/" + body else if body == "" then "." else body
  }

  /** `a / b`: an absolute right operand replaces the left one. */
  function Join(a: Path, b: Path): (r: Path)
    ensures b.absolute ==> r == b
    ensures !b.absolute ==> r.absolute == a.absolute && r.parts == a.parts + b.parts
  {
    if b.absolute then b else PurePath(a.absolute, a.parts + b.parts)
  }

  /** `dir / name` for a string operand. */
  function Child(dir: Path, name: string): Path {
    Join(dir, Parse(name))
  }

  /** `dir / name` with a single-part name adds exactly that part: the result is a direct child of `dir`. */
  lemma ChildOfPart(dir: Path, name: string)
    requires ValidPart(name)
    ensures Child(dir, name) == PurePath(dir.absolute, dir.parts + [name])
    ensures Parent(Child(dir, name)) == dir && Name(Child(dir, name)) == name
  {
    ParseSinglePart(name);
    assert (dir.parts + [name])[..|dir.parts|] == dir.parts;
  }

  /** `dir / name` for a name that is one part, built directly. */
  function AddPart(dir: Path, name: string): (r: Path)
    requires ValidPart(name)
    ensures r.absolute == dir.absolute && r.parts == dir.parts + [name]
    ensures Parent(r) == dir && Name(r) == name
  {
    var r := PurePath(dir.absolute, dir.parts + [name]);
    assert r.parts[..|dir.parts|] == dir.parts;
    r
  }

  /** `p.name`: the last part, or "" when there is none. */
  function Name(p: Path): string {
    if p.parts == [] then "" else p.parts[|p.parts| - 1]
  }

  /** `p.parent`: the path without its last part; a path without parts is its own parent. */
  function Parent(p: Path): Path {
    if p.parts == [] then p else PurePath(p.absolute, p.parts[..|p.parts| - 1])
  }

  /** `a in d.parents`. */
  predicate IsProperAncestor(a: Path, d: Path) {
    a.absolute == d.absolute && |a.parts| < |d.parts| && a.parts == d.parts[..|a.parts|]
  }

  /** `p.relative_to(base)`, or None where pathlib raises ValueError. */
  function RelativeTo(p: Path, base: Path): (r: Option<Path>)
    ensures r.Some? <==> p.absolute == base.absolute && |base.parts| <= |p.parts| && p.parts[..|base.parts|] == base.parts
    ensures r.Some? ==> Join(base, r.value) == p
  {
    if p.absolute == base.absolute && |base.parts| <= |p.parts| && p.parts[..|base.parts|] == base.parts then
      assert p.parts == base.parts + p.parts[|base.parts|..];
      Some(PurePath(false, p.parts[|base.parts|..]))
    else None
  }

  // ---------------------------------------------------------------------------
  // Lexical resolution

  /** No part is `..`. */
  predicate NoDotDot(parts: seq<string>) {
    forall i :: 0 <= i < |parts| ==> parts[i] != ".."
  }

  /**
   * Walks `rest` onto the already resolved `done`: `..` drops the last
   * resolved part (and stays at the root when there is none), any other part
   * is appended.
   */
  function Collapse(done: seq<string>, rest: seq<string>): (r: seq<string>)
    requires NoDotDot(done)
    ensures NoDotDot(r)
    decreases |rest|
  {
    if rest == [] then done
    else if rest[0] == ".." then Collapse(if done == [] then [] else done[..|done| - 1], rest[1..])
    else Collapse(done + [rest[0]], rest[1..])
  }

  /** Without `..` parts, resolving only appends. */
  lemma {:induction false} CollapseNoDotDot(done: seq<string>, rest: seq<string>)
    requires NoDotDot(done) && NoDotDot(rest)
    ensures Collapse(done, rest) == done + rest
    decreases |rest|
  {
    if rest != [] {
      CollapseNoDotDot(done + [rest[0]], rest[1..]);
      assert done + [rest[0]] + rest[1..] == done + rest;
    }
  }

  /** The lexical part of `Path.resolve()` for an absolute path: every `..` is applied. */
  function Resolve(p: Path): (r: Path)
    requires p.absolute
    ensures r.absolute && NoDotDot(r.parts)
  {
    assert forall i :: 0 <= i < |p.parts| ==> ValidPart(p.parts[i]);
    CollapseValid([], p.parts);
    PurePath(true, Collapse([], p.parts))
  }

  /** Resolution keeps parts valid. */
  lemma {:induction false} CollapseValid(done: seq<string>, rest: seq<string>)
    requires NoDotDot(done)
    requires forall i :: 0 <= i < |done| ==> ValidPart(done[i])
    requires forall i :: 0 <= i < |rest| ==> ValidPart(rest[i])
    ensures forall i :: 0 <= i < |Collapse(done, rest)| ==> ValidPart(Collapse(done, rest)[i])
    decreases |rest|
  {
    if rest != [] {
      if rest[0] == ".." {
        CollapseValid(if done == [] then [] else done[..|done| - 1], rest[1..]);
      } else {
        CollapseValid(done + [rest[0]], rest[1..]);
      }
    }
  }

  /** A path without `..` parts resolves to itself; in particular resolving twice is resolving once. */
  lemma ResolveNoDotDot(p: Path)
    requires p.absolute && NoDotDot(p.parts)
    ensures Resolve(p) == p
  {
    CollapseNoDotDot([], p.parts);
  }
}
