/** Key paths as text, and the check of the keys a package's schema accepts against its config type. */
module ConfigKeys {
  import opened ComposedKeys
  import opened ConfigGuard
  import opened ConfigLookup
  import opened ConfigMarks
  import opened ConfigMeaning
  import opened Graphs
  import opened Text
  import opened Wrappers

  /** One dot-separated part of a key path: a name and the `[]` marks after it. */
  datatype Key = Key(name: string, arrays: nat)

  function StripArrays(segment: string): Key
    decreases |segment|
  {
    if EndsWith(segment, "[]") then
      var rest := StripArrays(segment[..|segment| - 2]);
      Key(rest.name, rest.arrays + 1)
    else Key(segment, 0)
  }

  function Marks(n: nat): string {
    if n == 0 then "" else Marks(n - 1) + "[]"
  }

  function RenderKey(key: Key): string {
    key.name + Marks(key.arrays)
  }

  function Keys(path: string): seq<Key> {
    var parts := Split(path, '.');
    seq(|parts|, i requires 0 <= i < |parts| => StripArrays(parts[i]))
  }

  function Rendered(keys: seq<Key>): seq<string> {
    seq(|keys|, i requires 0 <= i < |keys| => RenderKey(keys[i]))
  }

  function RenderPath(keys: seq<Key>): string {
    Join(Rendered(keys), '.')
  }

  function KeySteps(key: Key): seq<Step> {
    [Member(key.name)] + seq(key.arrays, _ => Element)
  }

  function StepsOf(keys: seq<Key>): seq<Step> {
    if keys == [] then [] else StepsOf(keys[..|keys| - 1]) + KeySteps(keys[|keys| - 1])
  }

  /** `StepsOf` the keys, computed part by part. */
  method ParsePath(path: string) returns (steps: seq<Step>)
    ensures steps == StepsOf(Keys(path))
  {
    var segments := Split(path, '.');
    steps := [];
    for k := 0 to |segments|
      invariant steps == StepsOf(Keys(path)[..k])
    {
      var name, arrays := segments[k], 0;
      while EndsWith(name, "[]")
        invariant StripArrays(segments[k]) == Key(StripArrays(name).name, StripArrays(name).arrays + arrays)
        decreases |name|
      {
        name := name[..|name| - 2];
        arrays := arrays + 1;
      }
      ghost var before := steps;
      steps := steps + [Member(name)];
      for i := 0 to arrays
        invariant steps == before + [Member(name)] + seq(i, _ => Element)
      {
        steps := steps + [Element];
      }
      assert Keys(path)[..k + 1][..k] == Keys(path)[..k];
      assert steps == before + KeySteps(Key(name, arrays));
    }
    assert Keys(path)[..|segments|] == Keys(path);
  }

  lemma {:induction false} RenderStripped(segment: string)
    ensures RenderKey(StripArrays(segment)) == segment && !EndsWith(StripArrays(segment).name, "[]")
    decreases |segment|
  {
    if EndsWith(segment, "[]") {
      RenderStripped(segment[..|segment| - 2]);
      assert segment == segment[..|segment| - 2] + "[]";
    }
  }

  lemma {:induction false} StripRendered(key: Key)
    requires !EndsWith(key.name, "[]")
    ensures StripArrays(RenderKey(key)) == key
    decreases key.arrays
  {
    if key.arrays > 0 {
      var less := Key(key.name, key.arrays - 1);
      StripRendered(less);
      assert RenderKey(key) == RenderKey(less) + "[]";
      assert RenderKey(key)[..|RenderKey(key)| - 2] == RenderKey(less);
    } else {
      assert RenderKey(key) == key.name;
    }
  }

  /** Every path is the rendering of the keys parsed from it. */
  lemma ParseThenRender(path: string)
    ensures RenderPath(Keys(path)) == path
  {
    JoinSplit(path, '.');
    var parts := Split(path, '.');
    forall i | 0 <= i < |parts| ensures Rendered(Keys(path))[i] == parts[i] {
      RenderStripped(parts[i]);
    }
    assert Rendered(Keys(path)) == parts;
  }

  /** The path that steps spell, each name after a dot and each element as `[]`. */
  function Spelled(steps: seq<Step>): string {
    if steps == [] then ""
    else
      var last := steps[|steps| - 1];
      Spelled(steps[..|steps| - 1]) + if last.Member? then "." + last.name else "[]"
  }

  lemma {:induction false} SpelledConcat(a: seq<Step>, b: seq<Step>)
    ensures Spelled(a + b) == Spelled(a) + Spelled(b)
  {
    if b == [] {
      assert a + b == a;
    } else {
      assert (a + b)[..|a + b| - 1] == a + b[..|b| - 1];
      SpelledConcat(a, b[..|b| - 1]);
    }
  }

  lemma {:induction false} SpelledKey(name: string, arrays: nat)
    ensures Spelled(KeySteps(Key(name, arrays))) == "." + RenderKey(Key(name, arrays))
    decreases arrays
  {
    var steps := KeySteps(Key(name, arrays));
    if arrays == 0 {
      assert steps == [Member(name)];
      assert steps[..0] == [];
    } else {
      assert steps[..|steps| - 1] == KeySteps(Key(name, arrays - 1));
      SpelledKey(name, arrays - 1);
    }
  }

  lemma SpelledOne(key: Key)
    ensures Spelled([]) == "" && StepsOf([]) == [] && RenderPath([key]) == RenderKey(key)
  {
    assert Rendered([key]) == [RenderKey(key)];
  }

  lemma {:induction false} SpelledKeys(keys: seq<Key>)
    requires keys != []
    ensures Spelled(StepsOf(keys)) == "." + RenderPath(keys)
  {
    hide Spelled, KeySteps, RenderKey, Join;
    var n := |keys| - 1;
    var rest, last := keys[..n], keys[n];
    SpelledConcat(StepsOf(rest), KeySteps(last));
    SpelledKey(last.name, last.arrays);
    if n == 0 {
      SpelledOne(last);
      assert keys == [last] && rest == [];
    } else {
      SpelledKeys(rest);
      assert Rendered(keys) == Rendered(rest) + [RenderKey(last)];
      JoinPush(Rendered(rest), RenderKey(last), '.');
    }
  }

  lemma {:induction false} StepNames(keys: seq<Key>)
    ensures forall s :: s in StepsOf(keys) && s.Member? ==> exists k :: k in keys && k.name == s.name
  {
    if keys != [] {
      var n := |keys| - 1;
      StepNames(keys[..n]);
      assert keys[n] in keys && forall k :: k in keys[..n] ==> k in keys;
    }
  }

  lemma NameWithin(key: Key)
    ensures forall c :: c in key.name ==> c in RenderKey(key)
  {
  }

  /** The steps of every path spell it, and no name in them holds a dot or an array mark at its end. */
  lemma StepsReadBack(path: string)
    ensures Spelled(StepsOf(Keys(path))) == "." + path
    ensures forall s :: s in StepsOf(Keys(path)) && s.Member? ==> '.' !in s.name && !EndsWith(s.name, "[]")
  {
    var keys := Keys(path);
    ParseThenRender(path);
    SpelledKeys(keys);
    StepNames(keys);
    JoinSplit(path, '.');
    var parts := Split(path, '.');
    hide StripArrays, RenderKey, Split, Join;
    forall k | k in keys ensures '.' !in k.name && !EndsWith(k.name, "[]") {
      var i :| 0 <= i < |parts| && k == StripArrays(parts[i]);
      assert parts[i] in parts;
      RenderStripped(parts[i]);
      NameWithin(k);
    }
  }

  lemma {:induction false} NoDotInMarks(n: nat)
    ensures '.' !in Marks(n)
  {
    if n > 0 { NoDotInMarks(n - 1); }
  }

  /** Parsing takes back the rendering of any keys whose names hold no dot and do not end in `[]`. */
  lemma RenderThenParse(keys: seq<Key>)
    requires keys != [] && forall k :: k in keys ==> '.' !in k.name && !EndsWith(k.name, "[]")
    ensures Keys(RenderPath(keys)) == keys
  {
    forall i | 0 <= i < |keys| ensures '.' !in Rendered(keys)[i] && StripArrays(Rendered(keys)[i]) == keys[i] {
      assert keys[i] in keys;
      NoDotInMarks(keys[i].arrays);
      StripRendered(keys[i]);
    }
    SplitJoin(Rendered(keys), '.');
  }

  // ---------- The gate ----------

  /** When the walk of each key path ends, one number of nested calls suffices for all of them. */
  lemma {:induction false} EnoughForAll(world: World, id: DeclId, keyPaths: seq<string>) returns (fuel: nat)
    requires id in world.decls && forall k :: k in keyPaths ==> Ends(world, id, StepsOf(Keys(k)))
    ensures forall k :: k in keyPaths ==> LookupDecl(world, id, StepsOf(Keys(k)), {}, fuel).Some?
  {
    hide LookupDecl, Keys, StepsOf;
    if keyPaths == [] {
      fuel := 0;
    } else {
      assert keyPaths[0] in keyPaths && Ends(world, id, StepsOf(Keys(keyPaths[0])));
      var first: nat :| LookupDecl(world, id, StepsOf(Keys(keyPaths[0])), {}, first).Some?;
      var rest := EnoughForAll(world, id, keyPaths[1..]);
      fuel := first + rest;
      forall k | k in keyPaths ensures LookupDecl(world, id, StepsOf(Keys(k)), {}, fuel).Some? {
        DeclStable(world, id, StepsOf(Keys(k)), {}, if k == keyPaths[0] then first else rest, fuel);
      }
    }
  }

  /** The path must be reported: the unguarded walk ends without repeating itself, and no choice of one branch for each
      union provides the path, as the program is read by the walk. */
  ghost predicate MustReport(world: World, id: DeclId, steps: seq<Step>, fuel: nat)
    requires id in world.decls
  {
    Unrepeated(world, id, steps, fuel) && !Provides(world, Walked(true), id, steps)
  }

  /** The path is never there, unless a `keyof` crossed or a method, an accessor or an index signature skipped by the
      walk leaves it possible. */
  ghost predicate RightUnlessSkipped(world: World, id: DeclId, steps: seq<Step>, fuel: nat)
    requires id in world.decls
  {
    && PlainDecl(world, id, steps, fuel).Some?
    && (Never(world, id, steps) <==> !PlainDecl(world, id, steps, fuel).value.verdict.possible)
  }

  lemma ReportedWhen(world: World, id: DeclId, steps: seq<Step>, fuel: nat)
    requires id in world.decls && LookupDecl(world, id, steps, {}, fuel).Some?
    ensures LookupDecl(world, id, steps, {}, fuel).value.0 == Missing <==> MustReport(world, id, steps, fuel)
    ensures MustReport(world, id, steps, fuel) ==> RightUnlessSkipped(world, id, steps, fuel)
  {
    hide LookupDecl, PlainDecl, Never, Provides, Unrepeated;
    AnswersWhen(world, id, steps, fuel);
    DefiniteAnswers(world, id, steps, fuel);
  }

  /** Report each schema key the walk of the declared type answers missing. */
  method MissingKeys(world: World, id: DeclId, keyPaths: seq<string>, fuel: nat) returns (reported: seq<string>)
    requires id in world.decls
    requires forall k :: k in keyPaths ==> LookupDecl(world, id, StepsOf(Keys(k)), {}, fuel).Some?
    ensures forall k :: k in reported <==> k in keyPaths && MustReport(world, id, StepsOf(Keys(k)), fuel)
    ensures forall k :: k in reported ==> RightUnlessSkipped(world, id, StepsOf(Keys(k)), fuel)
  {
    hide LookupDecl, Keys, StepsOf, MustReport, RightUnlessSkipped;
    reported := [];
    for i := 0 to |keyPaths|
      invariant forall k :: k in reported ==>
                  && k in keyPaths && MustReport(world, id, StepsOf(Keys(k)), fuel)
                  && RightUnlessSkipped(world, id, StepsOf(Keys(k)), fuel)
      invariant forall j :: 0 <= j < i && keyPaths[j] !in reported ==>
                  !MustReport(world, id, StepsOf(Keys(keyPaths[j])), fuel)
    {
      assert keyPaths[i] in keyPaths;
      var steps := ParsePath(keyPaths[i]);
      ReportedWhen(world, id, steps, fuel);
      if LookupDecl(world, id, steps, {}, fuel).value.0 == Missing {
        reported := reported + [keyPaths[i]];
      }
    }
  }

  lemma {:induction false} KeysOfMembers(m: EntryMap, order: seq<string>)
    requires forall n :: n in order ==> n in m
    ensures forall k :: k in KeysOf(m, order) <==> exists n :: n in order && k in m[n].keys
  {
    if order != [] {
      assert order == [order[0]] + order[1..];
      KeysOfMembers(m, order[1..]);
    }
  }

  /** Check a package's schema, composed schemas included, against its config type. */
  method CheckSchema(byName: EntryMap, start: string, world: World, id: DeclId, fuel: nat)
    returns (reported: seq<string>, unknown: seq<string>)
    requires start in byName && id in world.decls
    requires forall n, k :: Reach(ComposeGraph(byName), start, n) && n in byName && k in byName[n].keys
               ==> LookupDecl(world, id, StepsOf(Keys(k)), {}, fuel).Some?
    ensures forall k :: k in reported <==>
              exists n :: Reach(ComposeGraph(byName), start, n) && n in byName && k in byName[n].keys
                          && MustReport(world, id, StepsOf(Keys(k)), fuel)
    ensures forall k :: k in reported ==> RightUnlessSkipped(world, id, StepsOf(Keys(k)), fuel)
    ensures forall c :: c in unknown <==> exists n :: Reach(ComposeGraph(byName), start, n) && UnknownFrom(byName, n, c)
  {
    hide LookupDecl, PlainDecl, Keys, StepsOf, Reach, ComposeGraph, KeysOf, UnknownFrom, RightUnlessSkipped, MustReport;
    var keys;
    keys, unknown := FoldSchema(byName, start);
    ghost var order :| Composed(byName, start, order) && keys == KeysOf(byName, order);
    KeysOfMembers(byName, order);
    reported := MissingKeys(world, id, keys, fuel);
  }
}
