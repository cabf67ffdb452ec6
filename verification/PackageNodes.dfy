/** The package graph's nodes. */
module PackageNodes {
  import opened Graphs

  /** One harness package and the short names of its in-repo peer dependencies. */
  datatype Package = Package(short: string, name: string, group: string, rel: string, deps: seq<string>)

  /** Packages under their short names. */
  type PackageMap = m: map<string, Package> | forall k :: k in m ==> m[k].short == k

  ghost function Shorts(ps: seq<Package>): set<string> {
    set p | p in ps :: p.short
  }

  ghost predicate Distinct(ps: seq<Package>) {
    forall i, j :: 0 <= i < j < |ps| ==> ps[i].short != ps[j].short
  }

  /** Every package is the one the map holds under its short name. */
  ghost predicate Within(ps: seq<Package>, m: PackageMap) {
    forall i :: 0 <= i < |ps| ==> ps[i].short in m && m[ps[i].short] == ps[i]
  }

  ghost function PeerGraph(m: PackageMap): Graph {
    map k | k in m :: set d | d in m[k].deps
  }

  function Names(ps: seq<Package>): seq<string> {
    seq(|ps|, i requires 0 <= i < |ps| => ps[i].short)
  }
}
