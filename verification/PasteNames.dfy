/** What a type name means in a file of a package. */
module PasteNames {
  import opened Text

  datatype Import = Import(imported: string, specifier: string)

  /** A type declaration: its line, the type names it references, and whether its members are documented. */
  datatype Declaration = Declaration(line: nat, references: seq<string>, documented: bool)

  datatype SourceFile = SourceFile(rel: string, decls: map<string, Declaration>, imports: map<string, Import>)

  /** The files by absolute path, where each relative specifier leads, and the global type names. */
  datatype World = World(files: map<string, SourceFile>, targets: map<(string, string), string>, globals: set<string>)

  /** What a file calls an imported type, and where it is imported from under which name. */
  datatype TypeRef = TypeRef(alias: string, imported: string, specifier: string)

  datatype Violation =
    | MissingExtension(rel: string, specifier: string)
    | AliasedImport(rel: string, name: string)
    | Undeclared(name: string, rel: string)
    | ConfigTypeImported(name: string)
    | LocalAndImported(name: string)
    | TwoImports(name: string)
    | TwoDeclarations(name: string)
    | Undocumented(name: string)

  /** What a type name means in a file. The last two end the script: a file that cannot be read, and a circle of
      imports. */
  datatype Resolution =
    | Declared(file: string)
    | Imported(ref: TypeRef)
    | Nothing
    | Refused(violation: Violation)
    | Unreadable
    | Endless

  predicate IsRelative(specifier: string) {
    specifier != [] && specifier[0] == '.'
  }

  /** Follow package-local relative imports to the declaration, or stop at the import that brings the name in. */
  function Resolve(world: World, file: string, name: string, visited: set<string>): (r: Resolution)
    requires file in world.files
    ensures r.Declared? ==> r.file in world.files && name in world.files[r.file].decls
    ensures r.Refused? ==> r.violation.MissingExtension? || r.violation.AliasedImport?
    decreases |world.files.Keys - visited|
  {
    var source := world.files[file];
    if name in source.decls then Declared(file)
    else if name !in source.imports then Nothing
    else
      var imp := source.imports[name];
      if !IsRelative(imp.specifier) then Imported(TypeRef(name, imp.imported, imp.specifier))
      else if !EndsWith(imp.specifier, ".ts") then Refused(MissingExtension(source.rel, imp.specifier))
      else if imp.imported != name then Refused(AliasedImport(source.rel, name))
      else if (file, imp.specifier) !in world.targets then Unreadable
      else
        var target := world.targets[(file, imp.specifier)];
        if target !in world.files then Unreadable
        else if file in visited then Endless
        else
          assert world.files.Keys - (visited + {file}) == world.files.Keys - visited - {file};
          Resolve(world, target, name, visited + {file})
  }

  /** A name to resolve, and the file it is referenced from. */
  datatype Item = Item(name: string, from: string)

  /** The position that identifies a declaration. */
  datatype DeclKey = DeclKey(rel: string, line: nat)

  function KeyOf(world: World, file: string, name: string): DeclKey
    requires file in world.files && name in world.files[file].decls
  {
    DeclKey(world.files[file].rel, world.files[file].decls[name].line)
  }

  ghost predicate DistinctRels(world: World) {
    forall a, b :: a in world.files && b in world.files && world.files[a].rel == world.files[b].rel ==> a == b
  }

  function Meaning(world: World, item: Item): (r: Resolution)
    requires item.from in world.files
    ensures r.Declared? ==> r.file in world.files && item.name in world.files[r.file].decls
    ensures r.Refused? ==> r.violation.MissingExtension? || r.violation.AliasedImport?
  {
    Resolve(world, item.from, item.name, {})
  }

  // ---------- What it means, without following ----------

  ghost predicate IsLocal(imp: Import) {
    imp.specifier != [] && imp.specifier[0] == '.'
  }

  ghost predicate Readable(world: World, file: string, imp: Import) {
    (file, imp.specifier) in world.targets && world.targets[(file, imp.specifier)] in world.files
  }

  /** The file has the name from `next`: it does not declare it, and imports it under its own name from there. */
  ghost predicate HandsOn(world: World, name: string, file: string, next: string) {
    && file in world.files && name !in world.files[file].decls && name in world.files[file].imports
    && var imp := world.files[file].imports[name];
       && IsLocal(imp) && EndsWith(imp.specifier, ".ts") && imp.imported == name
       && Readable(world, file, imp) && next == world.targets[(file, imp.specifier)]
  }

  /** What the name means in a file that does not have it from another. */
  ghost predicate MeansAt(world: World, name: string, file: string, r: Resolution) {
    && file in world.files
    && var source := world.files[file];
       match r
       case Declared(place) => place == file && name in source.decls
       case Nothing => name !in source.decls && name !in source.imports
       case Endless => false
       case _ =>
         && name !in source.decls && name in source.imports
         && var imp := source.imports[name];
            match r
            case Imported(ref) =>
              !IsLocal(imp) && ref.alias == name && ref.imported == imp.imported && ref.specifier == imp.specifier
            case Refused(MissingExtension(rel, specifier)) =>
              IsLocal(imp) && !EndsWith(imp.specifier, ".ts") && rel == source.rel && specifier == imp.specifier
            case Refused(AliasedImport(rel, alias)) =>
              && IsLocal(imp) && EndsWith(imp.specifier, ".ts") && imp.imported != name
              && rel == source.rel && alias == name
            case Unreadable =>
              IsLocal(imp) && EndsWith(imp.specifier, ".ts") && imp.imported == name && !Readable(world, file, imp)
            case _ => false
  }

  ghost predicate IsChain(world: World, name: string, file: string, chain: seq<string>, last: string)
    decreases |chain|
  {
    if chain == [] then file == last
    else HandsOn(world, name, file, chain[0]) && IsChain(world, name, chain[0], chain[1..], last)
  }

  ghost predicate MeansOver(world: World, name: string, file: string, chain: seq<string>, last: string, r: Resolution) {
    IsChain(world, name, file, chain, last) && MeansAt(world, name, last, r)
  }

  /** The files that hand the name on from `file` come to one where it has the meaning. */
  ghost predicate Means(world: World, name: string, file: string, r: Resolution) {
    exists chain, last :: MeansOver(world, name, file, chain, last, r)
  }

  lemma {:induction false} ChainMore(world: World, name: string, file: string, chain: seq<string>, last: string,
                                     next: string)
    requires IsChain(world, name, file, chain, last) && HandsOn(world, name, last, next)
    ensures IsChain(world, name, file, chain + [next], next)
    decreases |chain|
  {
    hide HandsOn;
    if chain == [] {
      assert [next][1..] == [];
    } else {
      ChainMore(world, name, chain[0], chain[1..], last, next);
      assert (chain + [next])[1..] == chain[1..] + [next];
    }
  }

  lemma HandsOnOnce(world: World, name: string, file: string, a: string, b: string)
    requires HandsOn(world, name, file, a) && HandsOn(world, name, file, b)
    ensures a == b
  {
  }

  lemma NotHandedOn(world: World, name: string, file: string, next: string, r: Resolution)
    requires MeansAt(world, name, file, r)
    ensures !HandsOn(world, name, file, next)
  {
  }

  /** A circle of imports leads nowhere else. */
  lemma {:induction false} CircleStays(world: World, name: string, file: string, circle: seq<string>,
                                       chain: seq<string>, last: string, r: Resolution)
    requires IsChain(world, name, file, circle, file) && circle != []
    ensures !MeansOver(world, name, file, chain, last, r)
    decreases |chain|
  {
    hide HandsOn, MeansAt;
    if MeansOver(world, name, file, chain, last, r) {
      if chain == [] {
        NotHandedOn(world, name, file, circle[0], r);
      } else {
        HandsOnOnce(world, name, file, circle[0], chain[0]);
        ChainMore(world, name, chain[0], circle[1..], file, chain[0]);
        CircleStays(world, name, chain[0], circle[1..] + [chain[0]], chain[1..], last, r);
      }
    }
  }

  ghost predicate LeadsTo(world: World, name: string, from: string, file: string) {
    exists chain :: chain != [] && IsChain(world, name, from, chain, file)
  }

  /** The files visited have led here. */
  ghost predicate Behind(world: World, name: string, visited: set<string>, file: string) {
    forall v :: v in visited ==> LeadsTo(world, name, v, file)
  }

  lemma OneLink(world: World, name: string, file: string, next: string)
    requires HandsOn(world, name, file, next)
    ensures IsChain(world, name, file, [next], next)
  {
    assert [next][1..] == [];
  }

  lemma BehindNext(world: World, name: string, visited: set<string>, file: string, next: string)
    requires Behind(world, name, visited, file) && HandsOn(world, name, file, next)
    ensures Behind(world, name, visited + {file}, next)
  {
    hide HandsOn, IsChain;
    forall v | v in visited + {file} ensures LeadsTo(world, name, v, next) {
      if v in visited {
        assert LeadsTo(world, name, v, file);
        var chain :| chain != [] && IsChain(world, name, v, chain, file);
        ChainMore(world, name, v, chain, file, next);
      } else {
        assert IsChain(world, name, file, [next], next) by { OneLink(world, name, file, next); }
      }
    }
  }

  lemma {:induction false} ResolveMeans(world: World, file: string, name: string, visited: set<string>)
    requires file in world.files && !Resolve(world, file, name, visited).Endless?
    ensures Means(world, name, file, Resolve(world, file, name, visited))
    decreases |world.files.Keys - visited|
  {
    var r := Resolve(world, file, name, visited);
    if MeansAt(world, name, file, r) {
      assert MeansOver(world, name, file, [], file, r);
    } else {
      var target := world.targets[(file, world.files[file].imports[name].specifier)];
      assert world.files.Keys - (visited + {file}) == world.files.Keys - visited - {file};
      assert HandsOn(world, name, file, target);
      ResolveMeans(world, target, name, visited + {file});
      var chain, last :| MeansOver(world, name, target, chain, last, r);
      assert ([target] + chain)[1..] == chain;
      assert MeansOver(world, name, file, [target] + chain, last, r);
    }
  }

  lemma {:induction false} MeansResolve(world: World, file: string, name: string, visited: set<string>,
                                        chain: seq<string>, last: string, r: Resolution)
    requires file in world.files && MeansOver(world, name, file, chain, last, r) && Behind(world, name, visited, file)
    ensures Resolve(world, file, name, visited) == r
    decreases |chain|
  {
    if chain != [] {
      var target := chain[0];
      assert HandsOn(world, name, file, target);
      if file in visited {
        assert LeadsTo(world, name, file, file);
        var circle :| circle != [] && IsChain(world, name, file, circle, file);
        CircleStays(world, name, file, circle, chain, last, r);
      }
      BehindNext(world, name, visited, file, target);
      MeansResolve(world, target, name, visited + {file}, chain[1..], last, r);
    }
  }

  lemma NotEndless(world: World, name: string, file: string, r: Resolution)
    requires MeansAt(world, name, file, r)
    ensures !r.Endless?
  {
  }

  /** A name means just what it does at the end of the files that hand it on; it is without end when they do not end. */
  lemma MeaningIs(world: World, item: Item, r: Resolution)
    requires item.from in world.files
    ensures !r.Endless? ==> (Meaning(world, item) == r <==> Means(world, item.name, item.from, r))
    ensures Meaning(world, item) == Endless <==> forall s :: !Means(world, item.name, item.from, s)
  {
    hide Resolve, IsChain, MeansAt;
    if !Meaning(world, item).Endless? { ResolveMeans(world, item.from, item.name, {}); }
    forall s | Means(world, item.name, item.from, s) ensures Meaning(world, item) == s && !s.Endless? {
      var chain, last :| MeansOver(world, item.name, item.from, chain, last, s);
      MeansResolve(world, item.from, item.name, {}, chain, last, s);
      NotEndless(world, item.name, last, s);
    }
  }
}
