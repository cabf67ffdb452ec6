/** The package-name memo of one bundle build. */
module BundleOwner {
  import opened Wrappers

  /** A directory: the segments below the filesystem root, which is its own parent. */
  type Directory = seq<string>

  /** What the file tree holds: the manifest of a directory that has one, as the name it declares, if any. */
  type Tree = map<Directory, Option<string>>

  function Dirname(d: Directory): Directory {
    if d == [] then [] else d[..|d| - 1]
  }

  function ManifestName(tree: Tree, d: Directory): Option<string> {
    if d in tree then tree[d] else None
  }

  /** Directory `a` is `d` or lies above it. */
  predicate Above(a: Directory, d: Directory) {
    a <= d
  }

  /** The name the nearest manifest above `d` that has one gives. */
  ghost predicate NearestName(tree: Tree, d: Directory, name: string) {
    exists a: Directory ::
      && Above(a, d) && ManifestName(tree, a) == Some(name)
      && forall b: Directory :: Above(b, d) && |a| < |b| ==> ManifestName(tree, b) == None
  }

  /** The uncached lookup. */
  function Owner(tree: Tree, d: Directory): Option<string>
    decreases |d|
  {
    if ManifestName(tree, d).Some? then ManifestName(tree, d)
    else if Dirname(d) != d then Owner(tree, Dirname(d))
    else None
  }

  lemma SameNearest(tree: Tree, d: Directory, name: string)
    requires d != [] && ManifestName(tree, d) == None
    ensures NearestName(tree, d, name) <==> NearestName(tree, Dirname(d), name)
  {
    var up := Dirname(d);
    assert forall a: Directory :: Above(a, d) <==> a == d || Above(a, up);
    if NearestName(tree, d, name) {
      var a: Directory :| Above(a, d) && ManifestName(tree, a) == Some(name)
        && forall b: Directory :: Above(b, d) && |a| < |b| ==> ManifestName(tree, b) == None;
      assert Above(a, up);
    }
    if NearestName(tree, up, name) {
      var a: Directory :| Above(a, up) && ManifestName(tree, a) == Some(name)
        && forall b: Directory :: Above(b, up) && |a| < |b| ==> ManifestName(tree, b) == None;
      assert Above(a, d);
    }
  }

  /** The uncached lookup answers the nearest named manifest's name, and "none" when no manifest above has a name. */
  lemma {:induction false} OwnerIsNearest(tree: Tree, d: Directory)
    ensures forall name :: Owner(tree, d) == Some(name) <==> NearestName(tree, d, name)
    ensures Owner(tree, d) == None <==> forall a: Directory :: Above(a, d) ==> ManifestName(tree, a) == None
    decreases |d|
  {
    var up := Dirname(d);
    if ManifestName(tree, d).Some? {
      assert Above(d, d);
      forall name | NearestName(tree, d, name) ensures ManifestName(tree, d) == Some(name) {
        var a: Directory :| Above(a, d) && ManifestName(tree, a) == Some(name)
          && forall b: Directory :: Above(b, d) && |a| < |b| ==> ManifestName(tree, b) == None;
        assert Above(d, d) && |a| >= |d|;
        assert a == d;
      }
    } else {
      assert forall a: Directory :: Above(a, d) <==> a == d || (d != [] && Above(a, up));
      if d != [] {
        OwnerIsNearest(tree, up);
        forall name ensures NearestName(tree, d, name) <==> NearestName(tree, up, name) {
          SameNearest(tree, d, name);
        }
      }
    }
  }

  /** Package identities, cached within one build. */
  class BundleInputIsolation {
    var packages: map<Directory, Option<string>>

    /** Every cached answer, "none" included, is the tree's. */
    ghost predicate Valid(tree: Tree)
      reads this
    {
      forall d :: d in packages ==> packages[d] == Owner(tree, d)
    }

    constructor ()
      ensures packages == map[] && forall tree: Tree :: Valid(tree)
    {
      packages := map[];
    }

    /** Discard the answers; whatever the tree now is, the memo agrees with it. */
    method Reset()
      modifies this
      ensures packages == map[] && forall tree: Tree :: Valid(tree)
    {
      packages := map[];
    }

    /** The memoised lookup: the uncached answer, now cached for the directory, and no cached answer lost. */
    method PackageName(tree: Tree, d: Directory) returns (name: Option<string>)
      requires Valid(tree)
      modifies this
      ensures Valid(tree)
      ensures name == Owner(tree, d)
      ensures d in packages
      ensures forall e :: e in old(packages) ==> e in packages && packages[e] == old(packages[e])
      ensures forall e :: e in packages && e !in old(packages) ==> Above(e, d)
      decreases |d|
    {
      if d in packages {
        return packages[d];
      }
      name := ManifestName(tree, d);
      if name == None && Dirname(d) != d {
        name := PackageName(tree, Dirname(d));
      }
      packages := packages[d := name];
    }
  }

  /** One step of a run: a lookup, or a reset after which the tree may have changed. */
  datatype Step = Lookup(directory: Directory) | Reset(tree: Tree)

  /** The answers a run with no memo gives. */
  function Uncached(tree: Tree, steps: seq<Step>): seq<Option<string>>
    decreases |steps|
  {
    if steps == [] then []
    else match steps[0]
      case Lookup(d) => [Owner(tree, d)] + Uncached(tree, steps[1..])
      case Reset(next) => Uncached(next, steps[1..])
  }

  /** Any run of lookups and resets gives the answers of the run with no memo. */
  method Run(isolation: BundleInputIsolation, start: Tree, steps: seq<Step>) returns (answers: seq<Option<string>>)
    requires isolation.Valid(start)
    modifies isolation
    ensures answers == Uncached(start, steps)
  {
    answers := [];
    var tree := start;
    for i := 0 to |steps|
      invariant isolation.Valid(tree)
      invariant answers + Uncached(tree, steps[i..]) == Uncached(start, steps)
    {
      assert steps[i..][1..] == steps[i + 1..];
      match steps[i]
      case Lookup(d) =>
        var name := isolation.PackageName(tree, d);
        answers := answers + [name];
      case Reset(next) =>
        isolation.Reset();
        tree := next;
    }
  }
}
