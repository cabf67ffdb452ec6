/** The inventory of adjacent session format migrations, and the codec list rendered from it. */
module SessionFormats {
  import opened Decimal
  import opened Numbers
  import opened Ordering
  import opened Wrappers

  /** One validated migration declaration, with the path its exports are imported from. */
  datatype Migration = Migration(
    packageName: string, importPath: string, from: nat, to: nat, migration: string,
    sourceCodec: string, targetCodec: string, targetHeaderValidator: string, targetRestorer: string)

  /** A JSON value, as far as the checks tell values apart. Negative zero and fractions are no whole numbers. */
  datatype Field = Text(text: string) | Whole(n: int) | Neither

  /** A discovered manifest: its path, its name, its migration metadata, the versions its directory names, and its
      dependencies. */
  datatype Manifest = Manifest(
    rel: string, name: Field, metadata: Option<map<string, Field>>, directory: Option<(nat, nat)>,
    dependencies: set<string>)

  /** The catalog package: whether it shares the session package properly, and its dependencies. */
  datatype Catalog = Catalog(sharesSession: bool, dependencies: set<string>)

  datatype FormatError =
    | LacksMetadata(rel: string)
    | UnknownMember(rel: string)
    | NotAVersion(rel: string, member: string)
    | NotAName(rel: string, member: string)
    | NotAdjacent(rel: string)
    | WrongName(rel: string)
    | WrongDirectory(rel: string)
    | NotExactlyOne(version: nat, found: nat)
    | DoesNotEndAtCurrent
    | SessionNotShared
    | CatalogLacks(packageName: string)
    | CodecBreak(from: nat)
    | LacksPrevious(packageName: string)
    | NoSuchManifest(rel: string)
    | NoCurrentFormat

  function ExpectedName(from: nat, to: nat): string {
    "@deepseek-ai/dsh-session-format-v" + Numeral(from) + "-to-v" + Numeral(to)
  }

  const NUMBERS: set<string> := {"from", "to"}

  const EXPORT := "export"
  const MIGRATION := "migration"
  const SOURCE_CODEC := "sourceCodec"
  const TARGET_CODEC := "targetCodec"
  const TARGET_HEADER_VALIDATOR := "targetHeaderValidator"
  const TARGET_RESTORER := "targetRestorer"

  /** The metadata members that must be non-empty strings, in the order they are read. */
  const NAMES: seq<string> := [EXPORT, MIGRATION, SOURCE_CODEC, TARGET_CODEC, TARGET_HEADER_VALIDATOR, TARGET_RESTORER]

  function Get(metadata: map<string, Field>, key: string): Field {
    if key in metadata then metadata[key] else Neither
  }

  predicate IsVersion(field: Field) {
    field.Whole? && 0 <= field.n <= MAX_SAFE_INTEGER
  }

  predicate IsName(field: Field) {
    field.Text? && field.text != ""
  }

  /** The first of `names` that is not a non-empty string. */
  function FirstUnnamed(metadata: map<string, Field>, names: seq<string>): (r: Option<string>)
    ensures r.None? <==> forall n :: n in names ==> IsName(Get(metadata, n))
    ensures r.Some? ==> r.value in names && !IsName(Get(metadata, r.value))
  {
    if names == [] then None
    else if !IsName(Get(metadata, names[0])) then Some(names[0])
    else FirstUnnamed(metadata, names[1..])
  }

  function ImportPath(packageName: string, exportPath: string): string {
    if exportPath == "." then packageName
    else packageName + "/" + if "./" <= exportPath then exportPath[2..] else exportPath
  }

  function NameIn(metadata: map<string, Field>, key: string): string
    requires IsName(Get(metadata, key))
  {
    Get(metadata, key).text
  }

  function Declaration(packageName: string, from: nat, to: nat, metadata: map<string, Field>): Migration
    requires forall n :: n in NAMES ==> IsName(Get(metadata, n))
  {
    Migration(packageName, ImportPath(packageName, NameIn(metadata, EXPORT)), from, to, NameIn(metadata, MIGRATION),
              NameIn(metadata, SOURCE_CODEC), NameIn(metadata, TARGET_CODEC), NameIn(metadata, TARGET_HEADER_VALIDATOR),
              NameIn(metadata, TARGET_RESTORER))
  }

  /** The declaration a manifest makes, or the first thing wrong with it. */
  function ReadManifest(m: Manifest): Result<Migration, FormatError> {
    if m.metadata.None? then Err(LacksMetadata(m.rel))
    else
      var metadata := m.metadata.value;
      var from, to := Get(metadata, "from"), Get(metadata, "to");
      if exists key :: key in metadata && key !in NUMBERS && key !in NAMES then Err(UnknownMember(m.rel))
      else if !IsName(m.name) then Err(NotAName(m.rel, "name"))
      else if !IsVersion(from) then Err(NotAVersion(m.rel, "from"))
      else if !IsVersion(to) then Err(NotAVersion(m.rel, "to"))
      else if to.n != from.n + 1 then Err(NotAdjacent(m.rel))
      else if m.name.text != ExpectedName(from.n, to.n) then Err(WrongName(m.rel))
      else if m.directory != Some((from.n, to.n)) then Err(WrongDirectory(m.rel))
      else match FirstUnnamed(metadata, NAMES)
        case Some(member) => Err(NotAName(m.rel, member))
        case None => Ok(Declaration(m.name.text, from.n, to.n, metadata))
  }

  ghost predicate HasText(m: Manifest, key: string, text: string) {
    m.metadata.Some? && key in m.metadata.value && m.metadata.value[key] == Text(text) && text != ""
  }

  ghost predicate HasNumber(m: Manifest, key: string, n: int) {
    m.metadata.Some? && key in m.metadata.value && m.metadata.value[key] == Whole(n)
  }

  ghost predicate KnownMembers(m: Manifest) {
    m.metadata.Some? && forall key :: key in m.metadata.value ==>
      key in {"from", "to", "export", "migration", "sourceCodec", "targetCodec", "targetHeaderValidator",
              "targetRestorer"}
  }

  /** The path is that of the package itself for the export ".", and otherwise of the export below the package. */
  ghost predicate ImportedFrom(m: Manifest, packageName: string, path: string) {
    exists exported ::
      && HasText(m, "export", exported)
      && if exported == "." then path == packageName
         else exists below :: path == packageName + "/" + below
                              && (exported == "./" + below || (exported == below && !("./" <= exported)))
  }

  ghost function NameOf(n: nat): string {
    "@deepseek-ai/dsh-session-format-v" + Numeral(n) + "-to-v" + Numeral(n + 1)
  }

  /** The versions, the name and the directory agree. */
  ghost predicate Headed(m: Manifest, from: int, to: int, packageName: string) {
    && KnownMembers(m) && HasNumber(m, "from", from) && HasNumber(m, "to", to)
    && 0 <= from && to == from + 1 <= MAX_SAFE_INTEGER && m.name == Text(packageName) && m.directory == Some((from, to))
    && packageName == NameOf(from)
  }

  ghost predicate HasTexts(m: Manifest, d: Migration) {
    && ImportedFrom(m, d.packageName, d.importPath) && HasText(m, "migration", d.migration)
    && HasText(m, "sourceCodec", d.sourceCodec) && HasText(m, "targetCodec", d.targetCodec)
    && HasText(m, "targetHeaderValidator", d.targetHeaderValidator)
    && HasText(m, "targetRestorer", d.targetRestorer)
  }

  /** The manifest is in order, and the declaration says what its fields say. */
  ghost predicate Declares(m: Manifest, d: Migration) {
    Headed(m, d.from, d.to, d.packageName) && HasTexts(m, d)
  }

  lemma ImportPathIs(m: Manifest, packageName: string, exported: string, path: string)
    requires HasText(m, "export", exported)
    ensures ImportedFrom(m, packageName, path) <==> path == ImportPath(packageName, exported)
  {
    if exported != "." && ImportedFrom(m, packageName, path) {
      var below :| path == packageName + "/" + below
                   && (exported == "./" + below || (exported == below && !("./" <= exported)));
      if "./" <= exported { assert exported[2..] == below; }
    }
    if path == ImportPath(packageName, exported) && exported != "." {
      var below := if "./" <= exported then exported[2..] else exported;
      assert "./" <= exported ==> exported == "./" + below;
    }
  }

  lemma AllNamed(metadata: map<string, Field>)
    ensures (forall n :: n in NAMES ==> IsName(Get(metadata, n))) <==>
              && IsName(Get(metadata, "export")) && IsName(Get(metadata, "migration"))
              && IsName(Get(metadata, "sourceCodec")) && IsName(Get(metadata, "targetCodec"))
              && IsName(Get(metadata, "targetHeaderValidator")) && IsName(Get(metadata, "targetRestorer"))
  {
    hide IsName, Get;
    assert NAMES[0] == "export" && NAMES[1] == "migration" && NAMES[2] == "sourceCodec";
    assert NAMES[3] == "targetCodec" && NAMES[4] == "targetHeaderValidator" && NAMES[5] == "targetRestorer";
  }

  lemma AllKnown(m: Manifest)
    requires m.metadata.Some?
    ensures KnownMembers(m) <==> !exists key :: key in m.metadata.value && key !in NUMBERS && key !in NAMES
  {
  }

  lemma TextsAre(m: Manifest, d: Migration)
    requires m.metadata.Some? && forall n :: n in NAMES ==> IsName(Get(m.metadata.value, n))
    ensures d == Declaration(d.packageName, d.from, d.to, m.metadata.value) <==> HasTexts(m, d)
  {
    AllNamed(m.metadata.value);
    ImportPathIs(m, d.packageName, NameIn(m.metadata.value, EXPORT), d.importPath);
    hide ImportedFrom, ImportPath;
  }

  lemma TextsNamed(m: Manifest, d: Migration)
    requires HasTexts(m, d)
    ensures forall n :: n in NAMES ==> IsName(Get(m.metadata.value, n))
  {
    AllNamed(m.metadata.value);
  }

  lemma NamesDeclared(packageName: string, from: nat, to: nat, metadata: map<string, Field>)
    requires forall n :: n in NAMES ==> IsName(Get(metadata, n))
    ensures var d := Declaration(packageName, from, to, metadata);
            d.packageName == packageName && d.from == from && d.to == to
  {
  }

  lemma ReadsAs(m: Manifest, d: Migration)
    ensures ReadManifest(m) == Ok(d) <==> Declares(m, d)
  {
    hide HasTexts, KnownMembers, Declaration;
    if m.metadata.Some? {
      AllKnown(m);
      if HasTexts(m, d) { TextsNamed(m, d); }
      if forall n :: n in NAMES ==> IsName(Get(m.metadata.value, n)) {
        TextsAre(m, d);
        NamesDeclared(d.packageName, d.from, d.to, m.metadata.value);
        if ReadManifest(m).Ok? {
          NamesDeclared(m.name.text, Get(m.metadata.value, "from").n, Get(m.metadata.value, "to").n, m.metadata.value);
        }
      }
    }
  }

  /** A manifest is read without an error exactly when it is in order, and then as what its fields say. */
  lemma ValidManifest(m: Manifest)
    ensures forall d :: ReadManifest(m) == Ok(d) <==> Declares(m, d)
  {
    forall d ensures ReadManifest(m) == Ok(d) <==> Declares(m, d) { ReadsAs(m, d); }
  }

  /** The members that must be names, in the order they are read. */
  ghost function Members(): seq<string> {
    ["export", "migration", "sourceCodec", "targetCodec", "targetHeaderValidator", "targetRestorer"]
  }

  ghost predicate Named(m: Manifest, key: string) {
    exists text :: HasText(m, key, text)
  }

  /** The first of these members that is not a name. */
  ghost predicate FirstUnnamedMember(m: Manifest, member: string) {
    exists k :: 0 <= k < |Members()| && Members()[k] == member && !Named(m, member)
                && forall j :: 0 <= j < k ==> Named(m, Members()[j])
  }

  ghost predicate Versioned(m: Manifest, key: string) {
    exists n :: 0 <= n <= MAX_SAFE_INTEGER && HasNumber(m, key, n)
  }

  ghost predicate Adjacent(m: Manifest, n: int) {
    0 <= n < MAX_SAFE_INTEGER && HasNumber(m, "from", n) && HasNumber(m, "to", n + 1)
  }

  /** The first thing wrong with the manifest, in the order its fields are read. */
  ghost predicate Refused(m: Manifest, error: FormatError) {
    match error
    case LacksMetadata(rel) => rel == m.rel && m.metadata.None?
    case UnknownMember(rel) => rel == m.rel && m.metadata.Some? && !KnownMembers(m)
    case NotAVersion(rel, member) =>
      && rel == m.rel && KnownMembers(m) && IsName(m.name) && !Versioned(m, member)
      && (member == "from" || (member == "to" && Versioned(m, "from")))
    case NotAdjacent(rel) =>
      && rel == m.rel && KnownMembers(m) && IsName(m.name) && Versioned(m, "from") && Versioned(m, "to")
      && forall n :: HasNumber(m, "from", n) ==> !HasNumber(m, "to", n + 1)
    case WrongName(rel) =>
      rel == m.rel && KnownMembers(m) && exists n: nat :: Adjacent(m, n) && IsName(m.name) && m.name != Text(NameOf(n))
    case WrongDirectory(rel) =>
      && rel == m.rel && KnownMembers(m)
      && exists n: nat :: Adjacent(m, n) && m.name == Text(NameOf(n)) && m.directory != Some((n, n + 1))
    case NotAName(rel, member) =>
      && rel == m.rel && KnownMembers(m)
      && if member == "name" then !IsName(m.name)
         else
           && FirstUnnamedMember(m, member)
           && exists n: nat :: Headed(m, n, n + 1, NameOf(n))
    case _ => false
  }

  lemma NamedIs(m: Manifest, key: string)
    requires m.metadata.Some?
    ensures Named(m, key) <==> IsName(Get(m.metadata.value, key))
    ensures Versioned(m, key) <==> IsVersion(Get(m.metadata.value, key))
  {
    if IsName(Get(m.metadata.value, key)) { assert HasText(m, key, m.metadata.value[key].text); }
    if IsVersion(Get(m.metadata.value, key)) { assert HasNumber(m, key, m.metadata.value[key].n); }
  }

  lemma {:induction false} FirstUnnamedAt(metadata: map<string, Field>, names: seq<string>)
    requires FirstUnnamed(metadata, names).Some?
    ensures exists k :: 0 <= k < |names| && names[k] == FirstUnnamed(metadata, names).value
                        && forall j :: 0 <= j < k ==> IsName(Get(metadata, names[j]))
  {
    if IsName(Get(metadata, names[0])) {
      FirstUnnamedAt(metadata, names[1..]);
      var k :| 0 <= k < |names| - 1 && names[1..][k] == FirstUnnamed(metadata, names).value
               && forall j :: 0 <= j < k ==> IsName(Get(metadata, names[1..][j]));
      assert names[k + 1] == names[1..][k];
      assert forall j :: 0 < j < k + 1 ==> names[j] == names[1..][j - 1];
    }
  }

  lemma FirstUnnamedIs(m: Manifest)
    requires m.metadata.Some? && FirstUnnamed(m.metadata.value, NAMES).Some?
    ensures FirstUnnamedMember(m, FirstUnnamed(m.metadata.value, NAMES).value)
  {
    var metadata := m.metadata.value;
    forall key ensures Named(m, key) <==> IsName(Get(metadata, key)) { NamedIs(m, key); }
    FirstUnnamedAt(metadata, NAMES);
    hide IsName, Get, Named;
    assert NAMES == Members();
  }

  lemma FirstUnnamedOther(m: Manifest, member: string)
    requires FirstUnnamedMember(m, member)
    ensures member != "name"
  {
    var k :| 0 <= k < |Members()| && Members()[k] == member;
  }

  lemma HeadedWhen(m: Manifest)
    requires KnownMembers(m) && IsVersion(Get(m.metadata.value, "from")) && IsVersion(Get(m.metadata.value, "to"))
    requires Get(m.metadata.value, "to").n == Get(m.metadata.value, "from").n + 1
    ensures var n := Get(m.metadata.value, "from").n;
            && Adjacent(m, n) && NameOf(n) == ExpectedName(n, n + 1)
            && (m.name == Text(NameOf(n)) && m.directory == Some((n, n + 1)) ==> Headed(m, n, n + 1, NameOf(n)))
  {
  }

  lemma AdjacentWhen(m: Manifest)
    requires m.metadata.Some? && Get(m.metadata.value, "from").Whole?
    requires Get(m.metadata.value, "to") != Whole(Get(m.metadata.value, "from").n + 1)
    ensures forall n :: HasNumber(m, "from", n) ==> !HasNumber(m, "to", n + 1)
  {
  }

  /** A manifest that is not read is refused for the first thing wrong with it. */
  lemma RefusedFor(m: Manifest)
    requires ReadManifest(m).Err?
    ensures Refused(m, ReadManifest(m).error)
  {
    hide KnownMembers, Named, Versioned, FirstUnnamedMember, FirstUnnamed, Headed, Adjacent, HasNumber, NameOf;
    hide ExpectedName;
    hide Declaration;
    if m.metadata.Some? {
      AllKnown(m);
      NamedIs(m, "from");
      NamedIs(m, "to");
      if FirstUnnamed(m.metadata.value, NAMES).Some? {
        FirstUnnamedIs(m);
        FirstUnnamedOther(m, FirstUnnamed(m.metadata.value, NAMES).value);
      }
      var from, to := Get(m.metadata.value, "from"), Get(m.metadata.value, "to");
      if KnownMembers(m) && IsVersion(from) && IsVersion(to) {
        if to.n == from.n + 1 { HeadedWhen(m); } else { AdjacentWhen(m); }
      }
    }
  }

  predicate AllValid(manifests: seq<Manifest>) {
    forall i :: 0 <= i < |manifests| ==> ReadManifest(manifests[i]).Ok?
  }

  ghost predicate DeclaredBy(manifests: seq<Manifest>, d: Migration) {
    exists m :: m in manifests && Declares(m, d)
  }

  /** One declaration for each manifest, and one for each version below the current one, saying what its manifest
      says. */
  ghost predicate Inventory(manifests: seq<Manifest>, ds: seq<Migration>, current: nat) {
    && |ds| == |manifests| == current
    && (forall i :: 0 <= i < |ds| ==> ds[i].from == i && DeclaredBy(manifests, ds[i]))
    && (forall m :: m in manifests ==> exists d :: d in ds && Declares(m, d))
  }

  function Declared(manifests: seq<Manifest>): (r: seq<Migration>)
    requires AllValid(manifests)
    ensures |r| == |manifests|
  {
    seq(|manifests|, i requires 0 <= i < |manifests| => ReadManifest(manifests[i]).value)
  }

  function ByFrom(): (Migration, Migration) -> int {
    (a: Migration, b: Migration) => a.from - b.from
  }

  /** Declaration `i` goes from version `i` to `i + 1`, for every version below the current one and no other. */
  ghost predicate IsChain(ds: seq<Migration>, current: nat) {
    |ds| == current && forall i :: 0 <= i < |ds| ==> ds[i].from == i && ds[i].to == i + 1
  }

  function ManifestPath(from: nat, to: nat): string {
    "packages/session/session-format-v" + Numeral(from) + "-to-v" + Numeral(to) + "/package.json"
  }

  /** The manifest at a path, when one was discovered there. */
  function ManifestAt(manifests: seq<Manifest>, rel: string): (r: Option<Manifest>)
    ensures r.Some? ==> r.value in manifests && r.value.rel == rel
    ensures r.None? ==> forall m :: m in manifests ==> m.rel != rel
  {
    if manifests == [] then None
    else if manifests[0].rel == rel then Some(manifests[0])
    else ManifestAt(manifests[1..], rel)
  }

  ghost predicate OwnPath(m: Manifest, d: Migration) {
    m.rel == "packages/session/session-format-v" + Numeral(d.from) + "-to-v" + Numeral(d.to) + "/package.json"
  }

  /** The manifest of the declaration's own directory. */
  ghost predicate Own(manifests: seq<Manifest>, d: Migration, m: Manifest) {
    exists i :: 0 <= i < |manifests| && manifests[i] == m && OwnPath(m, d)
                && forall j :: 0 <= j < i ==> !OwnPath(manifests[j], d)
  }

  lemma {:induction false} ManifestAtIs(manifests: seq<Manifest>, rel: string)
    ensures ManifestAt(manifests, rel).Some? ==>
              exists i :: 0 <= i < |manifests| && manifests[i] == ManifestAt(manifests, rel).value
                          && forall j :: 0 <= j < i ==> manifests[j].rel != rel
  {
    if manifests != [] && manifests[0].rel != rel {
      ManifestAtIs(manifests[1..], rel);
      if ManifestAt(manifests, rel).Some? {
        var i :| 0 <= i < |manifests| - 1 && manifests[1..][i] == ManifestAt(manifests, rel).value
                 && forall j :: 0 <= j < i ==> manifests[1..][j].rel != rel;
        assert manifests[i + 1] == manifests[1..][i];
        assert forall j :: 0 < j < i + 1 ==> manifests[j] == manifests[1..][j - 1];
      }
    }
  }

  lemma OwnIs(manifests: seq<Manifest>, d: Migration)
    ensures forall m :: Own(manifests, d, m) <==> ManifestAt(manifests, ManifestPath(d.from, d.to)) == Some(m)
  {
    var rel := ManifestPath(d.from, d.to);
    ManifestAtIs(manifests, rel);
    var own := ManifestAt(manifests, rel);
    assert forall m: Manifest :: OwnPath(m, d) <==> m.rel == rel;
    hide ManifestPath, OwnPath;
    forall m | Own(manifests, d, m) ensures own == Some(m) {
      var i :| 0 <= i < |manifests| && manifests[i] == m && OwnPath(m, d)
               && forall j :: 0 <= j < i ==> !OwnPath(manifests[j], d);
      if own.Some? {
        var k :| 0 <= k < |manifests| && manifests[k] == own.value
                 && forall j :: 0 <= j < k ==> manifests[j].rel != rel;
      }
    }
  }

  /** The manifest of `d`'s own directory depends on `previous`. */
  ghost predicate DependsOn(manifests: seq<Manifest>, d: Migration, previous: Migration) {
    exists m :: Own(manifests, d, m) && previous.packageName in m.dependencies
  }

  /** The catalog depends on each migration, and each continues its predecessor's codec and depends on it. */
  ghost predicate Linked(ds: seq<Migration>, manifests: seq<Manifest>, catalog: Catalog, n: nat)
    requires n <= |ds|
  {
    forall i :: 0 <= i < n ==>
      && ds[i].packageName in catalog.dependencies
      && (i > 0 ==> ds[i].sourceCodec == ds[i - 1].targetCodec && DependsOn(manifests, ds[i], ds[i - 1]))
  }

  function From(ds: seq<Migration>, version: nat): seq<Migration> {
    Filter(ds, (d: Migration) => d.from == version)
  }

  /** How often each version below `n` is declared: once. */
  ghost predicate OnceEach(ds: seq<Migration>, n: nat) {
    forall v: nat :: v < n ==> |From(ds, v)| == 1
  }

  lemma {:induction false} CountOne(ds: seq<Migration>, i: nat)
    requires i < |ds|
    ensures |From(ds, ds[i].from)| >= 1
  {
    assert ds[i] in From(ds, ds[i].from);
  }

  lemma {:induction false} CountTwo(ds: seq<Migration>, i: nat, j: nat)
    requires i < j < |ds| && ds[i].from == ds[j].from
    ensures |From(ds, ds[i].from)| >= 2
  {
    var n := |ds| - 1;
    if j < n {
      CountTwo(ds[..n], i, j);
    } else {
      CountOne(ds[..n], i);
    }
  }

  /** A strictly increasing list of `n` naturals below `n` lists them all. */
  lemma {:induction false} AtLeastIndex(ds: seq<Migration>, i: nat)
    requires i < |ds| && forall a, b :: 0 <= a < b < |ds| ==> ds[a].from < ds[b].from
    ensures ds[i].from >= i
  {
    if i > 0 { AtLeastIndex(ds, i - 1); }
  }

  lemma {:induction false} AtMostIndex(ds: seq<Migration>, i: nat, n: nat)
    requires i < |ds| == n && forall a, b :: 0 <= a < b < |ds| ==> ds[a].from < ds[b].from
    requires forall a :: 0 <= a < |ds| ==> ds[a].from < n
    ensures ds[i].from <= i
    decreases n - i
  {
    if i < n - 1 { AtMostIndex(ds, i + 1, n); }
  }

  lemma {:induction false} ChainCount(ds: seq<Migration>, v: nat)
    requires forall i :: 0 <= i < |ds| ==> ds[i].from == i
    ensures |From(ds, v)| == if v < |ds| then 1 else 0
  {
    if ds != [] { ChainCount(ds[..|ds| - 1], v); }
  }

  /** The counts, the bound and the length together say exactly that the sorted declarations are the chain. */
  lemma ChainIffCounts(ds: seq<Migration>, current: nat)
    requires Ascending(ds, ByFrom()) && forall i :: 0 <= i < |ds| ==> ds[i].to == ds[i].from + 1
    ensures IsChain(ds, current) <==>
            OnceEach(ds, current) && (forall i :: 0 <= i < |ds| ==> ds[i].from < current) && |ds| == current
  {
    if OnceEach(ds, current) && (forall i :: 0 <= i < |ds| ==> ds[i].from < current) && |ds| == current {
      forall i, j | 0 <= i < j < |ds| ensures ds[i].from < ds[j].from {
        assert ByFrom()(ds[i], ds[j]) <= 0;
        if ds[i].from == ds[j].from { CountTwo(ds, i, j); }
      }
      forall i | 0 <= i < |ds| ensures ds[i].from == i {
        AtLeastIndex(ds, i);
        AtMostIndex(ds, i, current);
      }
    }
    if IsChain(ds, current) {
      forall v: nat | v < current ensures |From(ds, v)| == 1 { ChainCount(ds, v); }
    }
  }

  ghost predicate InOrder(m: Manifest) {
    exists d :: Declares(m, d)
  }

  /** `error` is what is wrong with the first manifest that is not in order. */
  ghost predicate FirstInvalid(manifests: seq<Manifest>, error: FormatError) {
    exists i :: 0 <= i < |manifests| && Refused(manifests[i], error) && forall j :: 0 <= j < i ==> InOrder(manifests[j])
  }

  /** The declarations of the manifests, or the first thing wrong with one. */
  method GatherDeclarations(manifests: seq<Manifest>) returns (r: Result<seq<Migration>, FormatError>)
    ensures r.Ok? <==> AllValid(manifests)
    ensures r.Ok? ==> r.value == Declared(manifests)
    ensures r.Err? ==> FirstInvalid(manifests, r.error)
  {
    hide ReadManifest, Declares, Refused;
    var declarations: seq<Migration> := [];
    for i := 0 to |manifests|
      invariant AllValid(manifests[..i]) && declarations == Declared(manifests[..i])
      invariant forall j :: 0 <= j < i ==> InOrder(manifests[j])
    {
      var declared := ReadManifest(manifests[i]);
      ValidManifest(manifests[i]);
      if declared.Err? {
        RefusedFor(manifests[i]);
        return Err(declared.error);
      }
      declarations := declarations + [declared.value];
    }
    assert manifests[..|manifests|] == manifests;
    r := Ok(declarations);
  }

  /** `error` is the first version below the current one not declared once or, when there is none, a declaration too
      many. */
  ghost predicate ChainError(ds: seq<Migration>, current: nat, error: FormatError) {
    match error
    case NotExactlyOne(version, found) =>
      version < current && OnceEach(ds, version) && found == |From(ds, version)| && found != 1
    case DoesNotEndAtCurrent => OnceEach(ds, current) && !IsChain(ds, current)
    case _ => false
  }

  lemma NoExtra(ds: seq<Migration>, extra: seq<Migration>, current: nat)
    requires forall d :: d in extra <==> d in ds && d.from >= current
    ensures (forall i :: 0 <= i < |ds| ==> ds[i].from < current) <==> extra == []
  {
    if extra != [] { assert extra[0] in extra; }
    if i :| 0 <= i < |ds| && ds[i].from >= current { assert ds[i] in extra; }
  }

  /** Nothing when every version below the current one is declared once and no other is; otherwise what is wrong. */
  method CheckChain(declarations: seq<Migration>, current: nat) returns (wrong: Option<FormatError>)
    requires Ascending(declarations, ByFrom())
    requires forall i :: 0 <= i < |declarations| ==> declarations[i].to == declarations[i].from + 1
    ensures wrong.None? <==> IsChain(declarations, current)
    ensures wrong.Some? ==> ChainError(declarations, current, wrong.value)
  {
    ChainIffCounts(declarations, current);
    hide From, Ascending, IsChain, ByFrom;
    for version := 0 to current
      invariant OnceEach(declarations, version)
    {
      var matches := From(declarations, version);
      if |matches| != 1 {
        return Some(NotExactlyOne(version, |matches|));
      }
    }
    var extra := Filter(declarations, (d: Migration) => d.from >= current);
    NoExtra(declarations, extra, current);
    wrong := if extra != [] || |declarations| != current then Some(DoesNotEndAtCurrent) else None;
  }

  ghost predicate BreaksAt(ds: seq<Migration>, manifests: seq<Manifest>, catalog: Catalog, i: nat, error: FormatError)
    requires i < |ds|
  {
    match error
    case CatalogLacks(name) => name == ds[i].packageName && name !in catalog.dependencies
    case CodecBreak(from) =>
      && ds[i].packageName in catalog.dependencies && i > 0 && from == ds[i].from
      && ds[i].sourceCodec != ds[i - 1].targetCodec
    case LacksPrevious(name) =>
      && ds[i].packageName in catalog.dependencies && i > 0 && name == ds[i].packageName
      && ds[i].sourceCodec == ds[i - 1].targetCodec
      && exists m :: Own(manifests, ds[i], m) && ds[i - 1].packageName !in m.dependencies
    case NoSuchManifest(rel) =>
      && ds[i].packageName in catalog.dependencies && i > 0 && ds[i].sourceCodec == ds[i - 1].targetCodec
      && rel == "packages/session/session-format-v" + Numeral(ds[i].from) + "-to-v" + Numeral(ds[i].to)
                + "/package.json"
      && forall m :: m in manifests ==> m.rel != rel
    case _ => false
  }

  /** `error` is the first link that fails; the declarations before it are linked. */
  ghost predicate FirstBreak(ds: seq<Migration>, manifests: seq<Manifest>, catalog: Catalog, error: FormatError) {
    exists i :: 0 <= i < |ds| && Linked(ds, manifests, catalog, i) && BreaksAt(ds, manifests, catalog, i, error)
  }

  /** Nothing when the catalog and the declarations are linked; otherwise the first break. */
  method CheckLinks(declarations: seq<Migration>, manifests: seq<Manifest>, catalog: Catalog)
    returns (wrong: Option<FormatError>)
    ensures wrong.None? <==> Linked(declarations, manifests, catalog, |declarations|)
    ensures wrong.Some? ==> FirstBreak(declarations, manifests, catalog, wrong.value)
  {
    hide Own, ManifestAt;
    for i := 0 to |declarations|
      invariant Linked(declarations, manifests, catalog, i)
    {
      if declarations[i].packageName !in catalog.dependencies {
        return Some(CatalogLacks(declarations[i].packageName));
      }
      if i > 0 {
        if declarations[i].sourceCodec != declarations[i - 1].targetCodec {
          return Some(CodecBreak(declarations[i].from));
        }
        var rel := ManifestPath(declarations[i].from, declarations[i].to);
        var manifest := ManifestAt(manifests, rel);
        OwnIs(manifests, declarations[i]);
        if manifest.None? {
          return Some(NoSuchManifest(rel));
        }
        if declarations[i - 1].packageName !in manifest.value.dependencies {
          return Some(LacksPrevious(declarations[i].packageName));
        }
      }
    }
    wrong := None;
  }

  /** The first check that fails, in the order the checks are made. */
  ghost predicate FirstError(manifests: seq<Manifest>, catalog: Catalog, current: nat, error: FormatError) {
    || FirstInvalid(manifests, error)
    || (AllValid(manifests) &&
        var sorted := Sort(Declared(manifests), ByFrom());
        || ChainError(sorted, current, error)
        || (IsChain(sorted, current) && if catalog.sharesSession then FirstBreak(sorted, manifests, catalog, error)
                                      else error == SessionNotShared))
  }

  lemma IsFirstError(manifests: seq<Manifest>, catalog: Catalog, current: nat, error: FormatError)
    requires AllValid(manifests)
    requires var sorted := Sort(Declared(manifests), ByFrom());
             || ChainError(sorted, current, error)
             || (IsChain(sorted, current) && if catalog.sharesSession then FirstBreak(sorted, manifests, catalog, error)
                                           else error == SessionNotShared)
    ensures FirstError(manifests, catalog, current, error)
  {
  }

  lemma InvalidFirst(manifests: seq<Manifest>, catalog: Catalog, current: nat, error: FormatError)
    requires FirstInvalid(manifests, error)
    ensures FirstError(manifests, catalog, current, error)
  {
  }

  lemma ValidAdjacent(m: Manifest)
    requires ReadManifest(m).Ok?
    ensures ReadManifest(m).value.to == ReadManifest(m).value.from + 1
  {
  }

  lemma FromOrder()
    ensures Consistent(ByFrom())
  {
  }

  lemma SortedDeclarations(manifests: seq<Manifest>)
    requires AllValid(manifests)
    ensures var sorted := Sort(Declared(manifests), ByFrom());
            Ascending(sorted, ByFrom()) && forall i :: 0 <= i < |sorted| ==> sorted[i].to == sorted[i].from + 1
  {
    FromOrder();
    hide Consistent, Ascending, ByFrom, Sort, ReadManifest;
    var ds := Declared(manifests);
    var sorted := Sort(ds, ByFrom());
    SortSorts(ds, ByFrom());
    SortMembers(ds, ByFrom());
    forall d | d in ds ensures d.to == d.from + 1 {
      var i :| 0 <= i < |ds| && ds[i] == d;
      ValidAdjacent(manifests[i]);
    }
    assert forall i :: 0 <= i < |sorted| ==> sorted[i] in sorted;
  }

  lemma IsInventory(manifests: seq<Manifest>, current: nat)
    requires AllValid(manifests) && IsChain(Sort(Declared(manifests), ByFrom()), current)
    ensures Inventory(manifests, Sort(Declared(manifests), ByFrom()), current)
  {
    hide ReadManifest, Declares, ByFrom, Sort;
    FromOrder();
    var ds, sorted := Declared(manifests), Sort(Declared(manifests), ByFrom());
    SortMembers(ds, ByFrom());
    forall i | 0 <= i < |manifests| ensures Declares(manifests[i], ds[i]) && ds[i] in sorted {
      ValidManifest(manifests[i]);
    }
    forall i | 0 <= i < |sorted| ensures DeclaredBy(manifests, sorted[i]) {
      assert sorted[i] in sorted;
      var k :| 0 <= k < |ds| && ds[k] == sorted[i];
      assert manifests[k] in manifests;
    }
    forall m | m in manifests ensures exists d :: d in sorted && Declares(m, d) {
      var k :| 0 <= k < |manifests| && manifests[k] == m;
    }
  }

  /** Collect the declarations in version order, or the first error. */
  method CollectSessionFormatMigrations(manifests: seq<Manifest>, catalog: Catalog, current: nat)
    returns (r: Result<seq<Migration>, FormatError>)
    ensures r.Ok? <==>
            && AllValid(manifests)
            && var sorted := Sort(Declared(manifests), ByFrom());
               IsChain(sorted, current) && catalog.sharesSession && Linked(sorted, manifests, catalog, |sorted|)
    ensures r.Ok? ==> r.value == Sort(Declared(manifests), ByFrom()) && Inventory(manifests, r.value, current)
    ensures r.Err? ==> FirstError(manifests, catalog, current, r.error)
  {
    hide *;
    r := GatherDeclarations(manifests);
    if r.Err? {
      InvalidFirst(manifests, catalog, current, r.error);
      return;
    }
    var declarations := Sort(r.value, ByFrom());
    SortedDeclarations(manifests);
    var wrong := CheckChain(declarations, current);
    if wrong.Some? {
      IsFirstError(manifests, catalog, current, wrong.value);
      return Err(wrong.value);
    }
    if !catalog.sharesSession {
      IsFirstError(manifests, catalog, current, SessionNotShared);
      return Err(SessionNotShared);
    }
    wrong := CheckLinks(declarations, manifests, catalog);
    if wrong.Some? {
      IsFirstError(manifests, catalog, current, wrong.value);
      return Err(wrong.value);
    }
    IsInventory(manifests, current);
    r := Ok(declarations);
  }

  // ---------- The rendered codec list ----------

  /** The catalog's codecs: the first source, then every target. */
  function Codecs(ds: seq<Migration>): seq<string> {
    if ds == [] then [] else [ds[0].sourceCodec] + seq(|ds|, i requires 0 <= i < |ds| => ds[i].targetCodec)
  }

  /** The codecs, and the codec, restorer and header validator of the current format, which an empty inventory lacks. */
  datatype Rendered = Rendered(codecs: seq<string>, currentCodec: string, restorer: string, headerValidator: string)

  function Render(ds: seq<Migration>): Result<Rendered, FormatError> {
    if ds == [] then Err(NoCurrentFormat)
    else
      var last := ds[|ds| - 1];
      Ok(Rendered(Codecs(ds), last.targetCodec, last.targetRestorer, last.targetHeaderValidator))
  }

  /** Codec `v` is what migration `v - 1` writes and migration `v` reads, and the last is the current one. */
  lemma CodecBetween(ds: seq<Migration>, manifests: seq<Manifest>, catalog: Catalog, current: nat, v: nat)
    requires IsChain(ds, current) && Linked(ds, manifests, catalog, |ds|) && current > 0 && v <= current
    ensures Render(ds).Ok?
    ensures var codecs := Render(ds).value.codecs;
            && |codecs| == current + 1 && codecs[current] == Render(ds).value.currentCodec
            && Render(ds).value.restorer == ds[current - 1].targetRestorer
            && Render(ds).value.headerValidator == ds[current - 1].targetHeaderValidator
            && (v > 0 ==> ds[v - 1].to == v && codecs[v] == ds[v - 1].targetCodec)
            && (v < current ==> ds[v].from == v && codecs[v] == ds[v].sourceCodec)
  {
    hide DependsOn;
  }

  /** The names the rendered catalog imports from a migration's package. */
  function ImportedNames(d: Migration, current: nat): set<string> {
    {d.targetCodec, d.migration}
    + (if d.from == 0 then {d.sourceCodec} else {})
    + (if d.to == current then {d.targetRestorer, d.targetHeaderValidator} else {})
  }

  /** Every name the rendered catalog uses is imported from the package that declares it: the first codec from the first
      migration's package, each later one from that of the migration it is the target of. */
  lemma UsedNamesImported(ds: seq<Migration>, current: nat)
    requires IsChain(ds, current) && current > 0
    ensures |Codecs(ds)| == current + 1 && Codecs(ds)[0] in ImportedNames(ds[0], current)
    ensures forall v :: 0 < v <= current ==> Codecs(ds)[v] in ImportedNames(ds[v - 1], current)
    ensures forall i :: 0 <= i < current ==> ds[i].migration in ImportedNames(ds[i], current)
    ensures Render(ds).value.restorer in ImportedNames(ds[current - 1], current)
    ensures Render(ds).value.headerValidator in ImportedNames(ds[current - 1], current)
  {
  }

  /** And the catalog uses every name imported. */
  lemma ImportedNamesUsed(ds: seq<Migration>, current: nat, i: nat, name: string)
    requires IsChain(ds, current) && i < current && name in ImportedNames(ds[i], current)
    ensures name == ds[i].migration || name in Codecs(ds) || name == Render(ds).value.restorer ||
            name == Render(ds).value.headerValidator
  {
    var codecs := Codecs(ds);
    assert codecs[0] == ds[0].sourceCodec && codecs[i + 1] == ds[i].targetCodec;
  }

  /** No name is imported from two packages. */
  ghost predicate NamesApart(ds: seq<Migration>, current: nat) {
    forall i, j :: 0 <= i < j < |ds| ==> ImportedNames(ds[i], current) !! ImportedNames(ds[j], current)
  }

  function OwnNames(d: Migration): set<string> {
    {d.targetCodec, d.migration}
  }

  /** No name is imported from two packages exactly when the packages' targets and migrations are apart, the first
      source is none of the others', and the current restorer and header validator are neither the first source nor the
      others'. */
  lemma NamesApartWhen(ds: seq<Migration>, current: nat)
    requires IsChain(ds, current)
    ensures NamesApart(ds, current) <==>
            && (forall i, j :: 0 <= i < j < |ds| ==> OwnNames(ds[i]) !! OwnNames(ds[j]))
            && (forall j :: 0 < j < |ds| ==> ds[0].sourceCodec !in OwnNames(ds[j]))
            && (|ds| > 1 ==>
                  var last := ds[|ds| - 1];
                  {ds[0].sourceCodec} !! {last.targetRestorer, last.targetHeaderValidator}
                  && forall i :: 0 <= i < |ds| - 1 ==>
                    OwnNames(ds[i]) !! {last.targetRestorer, last.targetHeaderValidator})
  {
    forall d | d in ds ensures ImportedNames(d, current) == OwnNames(d) + (if d.from == 0 then {d.sourceCodec} else {})
      + (if d.to == current then {d.targetRestorer, d.targetHeaderValidator} else {}) { }
    hide ImportedNames;
    assert forall i :: 0 <= i < |ds| ==> ds[i] in ds;
    if NamesApart(ds, current) && |ds| > 1 {
      assert ImportedNames(ds[0], current) !! ImportedNames(ds[|ds| - 1], current);
    }
  }

  /** Two linked migrations that give their implementations one name. */
  lemma NamesCanClash()
    ensures var ds := [Migration("p", "p", 0, 1, "migrate", "v0", "v1", "check", "restore"),
                       Migration("q", "q", 1, 2, "migrate", "v1", "v2", "check", "restore")];
            IsChain(ds, 2) && ds[1].sourceCodec == ds[0].targetCodec && !NamesApart(ds, 2)
  {
    var ds := [Migration("p", "p", 0, 1, "migrate", "v0", "v1", "check", "restore"),
               Migration("q", "q", 1, 2, "migrate", "v1", "v2", "check", "restore")];
    assert "migrate" in ImportedNames(ds[0], 2) && "migrate" in ImportedNames(ds[1], 2);
  }
}
