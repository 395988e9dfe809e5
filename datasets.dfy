/**
 * The dataset catalogue's path rules: every destination is pinned under the
 * raw-data root, and the table number of a catalogue entry is the StatCan
 * formatter. The raw-data root is a parameter: an absolute path without `..`
 * parts, as `PROJECT_ROOT / "data" / "raw"` is once `PROJECT_ROOT` was
 * resolved.
 */
module Datasets {
  import opened Wrappers
  import opened Paths
  import opened Common
  import StatCan

  /** What a raw-data root is: absolute and already resolved. */
  predicate IsRawRoot(root: Path) { root.absolute && NoDotDot(root.parts) }

  /** `root` itself or anything below it. */
  predicate Under(root: Path, p: Path) { p == root || IsProperAncestor(root, p) }

  /** The destination before resolution: a relative path is taken under the root. */
  function Anchored(root: Path, dest: Path): (p: Path)
    requires root.absolute
    ensures p.absolute
  {
    if dest.absolute then dest else Join(root, dest)
  }

  /**
   * `ensure_raw_destination(path)`: the resolved destination when it is the
   * root or below it; otherwise `ValueError` naming the resolved path and the
   * root.
   */
  function EnsureRawDestination(root: Path, dest: Path): (r: Result<Path>)
    requires IsRawRoot(root)
    ensures r.Ok? ==> Under(root, r.value) && r.value.absolute && NoDotDot(r.value.parts)
    ensures r.Ok? ==> r.value == Resolve(Anchored(root, dest))
    ensures r.Err? ==> r.error == OutsideRawRoot(Resolve(Anchored(root, dest)), root) && !Under(root, Resolve(Anchored(root, dest)))
  {
    var resolved := Resolve(Anchored(root, dest));
    if !IsProperAncestor(root, resolved) && resolved != root then Err(OutsideRawRoot(resolved, root))
    else Ok(resolved)
  }

  /** A path without `..` parts is its own resolution. */
  lemma ResolveResolved(p: Path)
    requires p.absolute && NoDotDot(p.parts)
    ensures Resolve(p) == p
  {
    CollapseNoDotDot([], p.parts);
    assert [] + p.parts == p.parts;
  }

  /** A relative destination without `..` lands exactly at `root / dest`. */
  lemma RelativeStaysUnder(root: Path, dest: Path)
    requires IsRawRoot(root)
    requires !dest.absolute && NoDotDot(dest.parts)
    ensures EnsureRawDestination(root, dest) == Ok(Join(root, dest))
    ensures Join(root, dest).parts == root.parts + dest.parts
  {
    var j := Join(root, dest);
    assert NoDotDot(j.parts) by {
      forall i | 0 <= i < |j.parts| ensures j.parts[i] != ".." {
        if i < |root.parts| { assert j.parts[i] == root.parts[i]; }
        else { assert j.parts[i] == dest.parts[i - |root.parts|]; }
      }
    }
    ResolveResolved(j);
    if dest.parts != [] {
      assert j.parts[..|root.parts|] == root.parts;
    }
  }

  /** Pinning a pinned destination again gives it back unchanged. */
  lemma EnsureIdempotent(root: Path, dest: Path)
    requires IsRawRoot(root)
    requires EnsureRawDestination(root, dest).Ok?
    ensures EnsureRawDestination(root, EnsureRawDestination(root, dest).value) == EnsureRawDestination(root, dest)
  {
    ResolveResolved(EnsureRawDestination(root, dest).value);
  }

  /** An absolute, resolved destination outside the root is rejected. */
  lemma AbsoluteOutsideRejected(root: Path, dest: Path)
    requires IsRawRoot(root)
    requires dest.absolute && NoDotDot(dest.parts) && !Under(root, dest)
    ensures EnsureRawDestination(root, dest) == Err(OutsideRawRoot(dest, root))
  {
    ResolveResolved(dest);
  }

  /** `..` alone climbs out of any root other than `/`: it is rejected, naming the root's parent. */
  lemma DotDotEscapeRejected(root: Path)
    requires IsRawRoot(root) && root.parts != []
    ensures EnsureRawDestination(root, PurePath(false, [".."])) == Err(OutsideRawRoot(Parent(root), root))
  {
    var j := Join(root, PurePath(false, [".."]));
    var n := |root.parts| - 1;
    var up := root.parts[..n];
    assert j.parts == up + [root.parts[n], ".."];
    assert NoDotDot(up) by { assert forall i :: 0 <= i < n ==> up[i] == root.parts[i]; }
    CollapseNoDotDot([], up);
    assert [] + up == up;
    CollapseSplit([], up, [root.parts[n], ".."]);
    assert (up + [root.parts[n]])[..n] == up;
    assert Collapse(up, [root.parts[n], ".."]) == up;
    assert Resolve(j) == Parent(root);
  }

  /** Resolution of a concatenation resolves the first part, then walks the second from there. */
  lemma {:induction false} CollapseSplit(done: seq<string>, a: seq<string>, b: seq<string>)
    requires NoDotDot(done)
    ensures Collapse(done, a + b) == Collapse(Collapse(done, a), b)
    decreases |a|
  {
    if a == [] {
      assert a + b == b;
    } else {
      assert (a + b)[0] == a[0] && (a + b)[1..] == a[1..] + b;
      if a[0] == ".." {
        CollapseSplit(if done == [] then [] else done[..|done| - 1], a[1..], b);
      } else {
        CollapseSplit(done + [a[0]], a[1..], b);
      }
    }
  }

  // ---------------------------------------------------------------------------
  // The Dataset record

  /** An entry of the dataset catalogue (the `Dataset` dataclass). */
  datatype Dataset = Dataset(
    dataset: string, provider: string, metric: string, pid: Option<string>,
    frequency: string, geoScope: string, delivery: string, targetFile: Option<Path>,
    automationStatus: string, statusNote: string, pageUrl: Option<string>, directUrl: Option<string>)

  /** `Dataset.destination()`: no target gives None; otherwise the pinned target, which may raise. */
  function Destination(root: Path, ds: Dataset): (r: Result<Option<Path>>)
    requires IsRawRoot(root)
    ensures r == Ok(None) <==> ds.targetFile.None?
    ensures ds.targetFile.Some? ==> match EnsureRawDestination(root, ds.targetFile.value)
      case Ok(p) => r == Ok(Some(p))
      case Err(e) => r == Err(e)
  {
    match ds.targetFile
    case None => Ok(None)
    case Some(target) =>
      match EnsureRawDestination(root, target)
      case Ok(p) => Ok(Some(p))
      case Err(e) => Err(e)
  }

  /** `Dataset.table_number`: None for a missing or empty pid, `NN-NN-NNNN` for eight characters, the pid itself otherwise. */
  function TableNumber(ds: Dataset): (r: Option<string>)
    ensures r.None? <==> ds.pid.None? || ds.pid.value == ""
  {
    if ds.pid.None? || ds.pid.value == "" then None
    else
      var pid := ds.pid.value;
      if |pid| == 8 then Some(pid[..2] + "-" + pid[2..4] + "-" + pid[4..]) else Some(pid)
  }

  /** The catalogue's table number is the StatCan provider's, and for a product id it normalises back to the id. */
  lemma TableNumberAgrees(ds: Dataset)
    requires ds.pid.Some? && ds.pid.value != ""
    ensures TableNumber(ds) == Some(StatCan.FormatTableNumber(ds.pid.value))
    ensures StatCan.IsPid(ds.pid.value) ==> StatCan.NormalizePid(TableNumber(ds).value) == Ok(ds.pid.value)
  {
    if StatCan.IsPid(ds.pid.value) {
      StatCan.NormalizeFormatRoundTrip(ds.pid.value);
    }
  }
}
