/** The package-local closure of a config type, pasted as declarations that share one namespace. */
module PasteClosure {
  import opened PasteNames
  import opened PasteOrder
  import opened Wrappers

  /** `next` is a non-global name referenced by the declaration that `item` means, seen from that declaration's file. */
  ghost predicate References(world: World, item: Item, next: Item) {
    && item.from in world.files && Meaning(world, item).Declared? && next.from == Meaning(world, item).file
    && next.name in world.files[next.from].decls[item.name].references && next.name !in world.globals
  }

  ghost predicate IsTrail(world: World, trail: seq<Item>, start: Item, end: Item) {
    if trail == [] then start == end
    else References(world, trail[|trail| - 1], end) && IsTrail(world, trail[..|trail| - 1], start, trail[|trail| - 1])
  }

  /** `item` is in the closure of `start`. */
  ghost predicate InClosure(world: World, start: Item, item: Item) {
    exists trail :: IsTrail(world, trail, start, item)
  }

  lemma ClosureGrows(world: World, start: Item, item: Item, next: Item)
    requires InClosure(world, start, item) && References(world, item, next)
    ensures InClosure(world, start, next)
  {
    var trail :| IsTrail(world, trail, start, item);
    assert (trail + [item])[..|trail|] == trail;
    assert IsTrail(world, trail + [item], start, next);
  }

  /** A set that holds the start and every reference from its members holds the whole closure. */
  lemma {:induction false} ClosureWithin(world: World, start: Item, done: set<Item>, trail: seq<Item>, item: Item)
    requires start in done && IsTrail(world, trail, start, item)
    requires forall a, b :: a in done && References(world, a, b) ==> b in done
    ensures item in done
  {
    if trail != [] {
      ClosureWithin(world, start, done, trail[..|trail| - 1], trail[|trail| - 1]);
    }
  }

  /** What the worklist has recorded. */
  datatype Record = Record(pasted: map<string, DeclKey>, order: seq<string>, refs: map<string, TypeRef>,
                           violations: seq<Violation>)

  /** The item's meaning is what is recorded under its name. */
  ghost predicate Recorded(world: World, record: Record, item: Item) {
    item.from in world.files &&
    match Meaning(world, item)
    case Declared(file) => item.name in record.pasted && record.pasted[item.name] == KeyOf(world, file, item.name)
    case Imported(ref) => item.name in record.refs && record.refs[item.name] == ref
    case _ => false
  }

  /** Names are recorded once, either as a declaration or as an import. */
  ghost predicate Unambiguous(record: Record) {
    && record.pasted.Keys !! record.refs.Keys
    && (forall i, j :: 0 <= i < j < |record.order| ==> record.order[i] != record.order[j])
    && (forall n :: n in record.order <==> n in record.pasted)
  }

  ghost predicate Wanted(world: World, start: Item, items: set<Item>) {
    forall i :: i in items ==> i.from in world.files && InClosure(world, start, i)
  }

  /** The item gives no cause for a violation of its own: a documented declaration, or an import of another type. */
  ghost predicate Proper(world: World, typeName: string, item: Item) {
    item.from in world.files &&
    match Meaning(world, item)
    case Declared(file) => world.files[file].decls[item.name].documented
    case Imported(_) => item.name != typeName
    case _ => false
  }

  ghost predicate AllRecorded(world: World, start: Item, record: Record, done: set<Item>) {
    forall i :: i in done ==> Recorded(world, record, i) && Proper(world, start.name, i)
  }

  /** Every reference from an item done is done or waiting. */
  ghost predicate Followed(world: World, done: set<Item>, queue: seq<Item>) {
    forall a, b :: a in done && References(world, a, b) ==> b in done || b in queue
  }

  ghost predicate SourcedBy(world: World, record: Record, done: set<Item>, name: string) {
    exists i :: i in done && i.name == name && Recorded(world, record, i)
  }

  /** Every recorded name was recorded for an item done. */
  ghost predicate Sourced(world: World, record: Record, done: set<Item>) {
    forall n :: n in record.pasted || n in record.refs ==> SourcedBy(world, record, done, n)
  }

  /** The worklist's invariant. `done` are the items taken off the queue. */
  ghost predicate Inv(world: World, start: Item, record: Record, queue: seq<Item>, done: set<Item>) {
    && (start in done || start in queue)
    && Wanted(world, start, done) && Wanted(world, start, set i | i in queue)
    && Unambiguous(record) && Sourced(world, record, done)
    && (record.violations == [] ==> AllRecorded(world, start, record, done) && Followed(world, done, queue))
  }

  function Report(record: Record, violation: Violation): Record {
    record.(violations := record.violations + [violation])
  }

  /** The references of a declaration that need resolving, each once, in order. */
  function Enqueued(world: World, file: string, references: seq<string>): (r: seq<Item>)
    ensures forall i :: i in r <==> i.from == file && i.name in references && i.name !in world.globals
  {
    if references == [] then []
    else
      var rest := Enqueued(world, file, references[..|references| - 1]);
      var last := references[|references| - 1];
      if last in world.globals || Item(last, file) in rest then rest else rest + [Item(last, file)]
  }

  /** A name that means an import. */
  function HandleRef(record: Record, typeName: string, item: Item, ref: TypeRef): Record {
    if item.name == typeName then Report(record, ConfigTypeImported(item.name))
    else if item.name in record.pasted then Report(record, LocalAndImported(item.name))
    else if item.name in record.refs && record.refs[item.name] != ref then Report(record, TwoImports(item.name))
    else record.(refs := record.refs[item.name := ref])
  }

  /** A name that means a declaration not yet recorded under it. */
  function Paste(world: World, record: Record, item: Item, file: string): Record
    requires file in world.files && item.name in world.files[file].decls
  {
    var pasted := record.(pasted := record.pasted[item.name := KeyOf(world, file, item.name)],
                          order := record.order + [item.name]);
    if world.files[file].decls[item.name].documented then pasted else Report(pasted, Undocumented(item.name))
  }

  /** The loop body: the record after one item, and the items it adds to the queue. */
  function Handle(world: World, record: Record, typeName: string, item: Item): (Record, seq<Item>)
    requires item.from in world.files
  {
    match Meaning(world, item)
    case Nothing => (Report(record, Undeclared(item.name, world.files[item.from].rel)), [])
    case Refused(violation) =>
      (Report(Report(record, violation), Undeclared(item.name, world.files[item.from].rel)), [])
    case Imported(ref) => (HandleRef(record, typeName, item, ref), [])
    case Declared(file) =>
      if item.name in record.pasted then
        if record.pasted[item.name] == KeyOf(world, file, item.name) then (record, [])
        else (Report(record, TwoDeclarations(item.name)), [])
      else if item.name in record.refs then (Report(record, LocalAndImported(item.name)), [])
      else (Paste(world, record, item, file), Enqueued(world, file, world.files[file].decls[item.name].references))
    case Unreadable => (record, [])
    case Endless => (record, [])
  }

  /** Taking an item off the queue and adding others from the closure. */
  lemma QueueMoves(world: World, start: Item, item: Item, queue: seq<Item>, added: seq<Item>, done: set<Item>)
    requires start in done || start in [item] + queue
    requires Wanted(world, start, done) && Wanted(world, start, set i | i in [item] + queue)
    requires Wanted(world, start, set i | i in added)
    ensures start in done + {item} || start in queue + added
    ensures Wanted(world, start, done + {item}) && Wanted(world, start, set i | i in queue + added)
  {
    hide InClosure;
    assert forall i :: i in [item] + queue <==> i == item || i in queue;
    assert forall i :: i in queue + added <==> i in queue || i in added;
  }

  /** What was recorded stays recorded when records are only added. */
  lemma RecordGrows(world: World, start: Item, record: Record, more: Record, done: set<Item>, item: Item)
    requires forall n :: n in record.pasted ==> n in more.pasted && more.pasted[n] == record.pasted[n]
    requires forall n :: n in record.refs ==> n in more.refs && more.refs[n] == record.refs[n]
    ensures forall i :: Recorded(world, record, i) ==> Recorded(world, more, i)
    ensures (AllRecorded(world, start, record, done) && Recorded(world, more, item) &&
             Proper(world, start.name, item)) ==>
              AllRecorded(world, start, more, done + {item})
    ensures forall n :: SourcedBy(world, record, done, n) ==> SourcedBy(world, more, done + {item}, n)
    ensures Recorded(world, more, item) ==> SourcedBy(world, more, done + {item}, item.name)
  {
    hide Meaning, Proper;
    forall n | SourcedBy(world, record, done, n) ensures SourcedBy(world, more, done + {item}, n) {
      var i :| i in done && i.name == n && Recorded(world, record, i);
      assert i in done + {item};
    }
    assert item in done + {item};
  }

  lemma FollowedMore(world: World, item: Item, queue: seq<Item>, added: seq<Item>, done: set<Item>)
    requires Followed(world, done, [item] + queue)
    requires forall b :: References(world, item, b) ==> b in added || b in done || b in [item] + queue
    ensures Followed(world, done + {item}, queue + added)
  {
    hide References;
    assert forall i :: i in [item] + queue <==> i == item || i in queue;
    assert forall i :: i in queue + added <==> i in queue || i in added;
  }

  lemma WantedNone(world: World, start: Item)
    ensures Wanted(world, start, set i | i in [])
  {
  }

  /** Reporting a violation suspends what the invariant says of the items done. */
  lemma KeepAfterReport(world: World, start: Item, record: Record, more: Record, item: Item, queue: seq<Item>,
                        done: set<Item>)
    requires Inv(world, start, record, [item] + queue, done)
    requires more.violations != [] && more.pasted == record.pasted && more.refs == record.refs
    requires more.order == record.order
    ensures Inv(world, start, more, queue + [], done + {item})
  {
    hide Wanted, Recorded, SourcedBy;
    QueueMoves(world, start, item, queue, [], done) by { WantedNone(world, start); }
    RecordGrows(world, start, record, more, done, item);
  }

  lemma KeepAfterRef(world: World, start: Item, record: Record, item: Item, ref: TypeRef, queue: seq<Item>,
                     done: set<Item>)
    requires Inv(world, start, record, [item] + queue, done) && item.from in world.files
    requires Meaning(world, item) == Imported(ref)
    requires item.name != start.name && item.name !in record.pasted
    requires item.name in record.refs ==> record.refs[item.name] == ref
    ensures Inv(world, start, record.(refs := record.refs[item.name := ref]), queue + [], done + {item})
  {
    hide Wanted, SourcedBy, Meaning, AllRecorded, Followed;
    var more := record.(refs := record.refs[item.name := ref]);
    QueueMoves(world, start, item, queue, [], done) by { WantedNone(world, start); }
    RecordGrows(world, start, record, more, done, item);
    if record.violations == [] { FollowedMore(world, item, queue, [], done); }
  }

  lemma SameProper(world: World, start: Item, record: Record, item: Item, file: string, done: set<Item>)
    requires DistinctRels(world) && item.from in world.files && Meaning(world, item) == Declared(file)
    requires item.name in record.pasted && record.pasted[item.name] == KeyOf(world, file, item.name)
    requires Unambiguous(record) && SourcedBy(world, record, done, item.name) && AllRecorded(world, start, record, done)
    ensures Proper(world, start.name, item)
  {
    hide Meaning;
    var prior :| prior in done && prior.name == item.name && Recorded(world, record, prior);
    assert Meaning(world, prior) == Declared(file);
  }

  /** The same declaration reached again has the references that were queued the first time. */
  lemma SameReferences(world: World, record: Record, item: Item, file: string, done: set<Item>, queue: seq<Item>)
    requires DistinctRels(world) && item.from in world.files && Meaning(world, item) == Declared(file)
    requires item.name in record.pasted && record.pasted[item.name] == KeyOf(world, file, item.name)
    requires Unambiguous(record) && SourcedBy(world, record, done, item.name) && Followed(world, done, queue)
    ensures forall b :: References(world, item, b) ==> b in done || b in queue
  {
    hide Meaning;
    var prior :| prior in done && prior.name == item.name && Recorded(world, record, prior);
    assert Meaning(world, prior) == Declared(file);
    assert forall b :: References(world, item, b) ==> References(world, prior, b);
  }

  lemma KeepAfterAgain(world: World, start: Item, record: Record, item: Item, file: string, queue: seq<Item>,
                       done: set<Item>)
    requires Inv(world, start, record, [item] + queue, done) && DistinctRels(world) && item.from in world.files
    requires Meaning(world, item) == Declared(file)
    requires item.name in record.pasted && record.pasted[item.name] == KeyOf(world, file, item.name)
    ensures Inv(world, start, record, queue + [], done + {item})
  {
    hide Wanted, Meaning, AllRecorded, Followed;
    QueueMoves(world, start, item, queue, [], done) by { WantedNone(world, start); }
    RecordGrows(world, start, record, record, done, item);
    if record.violations == [] {
      SameProper(world, start, record, item, file, done);
      SameReferences(world, record, item, file, done, [item] + queue);
      FollowedMore(world, item, queue, [], done);
    }
  }

  lemma PasteUnambiguous(record: Record, more: Record, name: string)
    requires Unambiguous(record) && name !in record.pasted && name !in record.refs
    requires more.refs == record.refs && more.order == record.order + [name]
    requires more.pasted.Keys == record.pasted.Keys + {name}
    ensures Unambiguous(more)
  {
  }

  lemma PasteWanted(world: World, start: Item, item: Item, file: string, added: seq<Item>, queue: seq<Item>)
    requires file in world.files && item.from in world.files && Meaning(world, item) == Declared(file)
    requires Wanted(world, start, set i | i in queue) && item in queue
    requires forall b :: b in added ==> References(world, item, b) && b.from == file
    ensures Wanted(world, start, set i | i in added)
  {
    hide InClosure;
    forall i | i in added ensures InClosure(world, start, i) { ClosureGrows(world, start, item, i); }
  }

  lemma KeepAfterPaste(world: World, start: Item, record: Record, item: Item, file: string, queue: seq<Item>,
                       done: set<Item>)
    requires Inv(world, start, record, [item] + queue, done) && item.from in world.files
    requires Meaning(world, item) == Declared(file)
    requires file in world.files && item.name in world.files[file].decls
    requires item.name !in record.pasted && item.name !in record.refs
    ensures Inv(world, start, Paste(world, record, item, file),
                queue + Enqueued(world, file, world.files[file].decls[item.name].references), done + {item})
  {
    hide Meaning, Wanted, SourcedBy, AllRecorded, Followed;
    var more := Paste(world, record, item, file);
    var added := Enqueued(world, file, world.files[file].decls[item.name].references);
    assert Unambiguous(more) by { PasteUnambiguous(record, more, item.name); }
    PasteWanted(world, start, item, file, added, [item] + queue);
    QueueMoves(world, start, item, queue, added, done);
    RecordGrows(world, start, record, more, done, item);
    if more.violations == [] { FollowedMore(world, item, queue, added, done); }
  }

  /** One turn of the loop keeps the invariant. */
  lemma HandleKeeps(world: World, start: Item, record: Record, item: Item, queue: seq<Item>, done: set<Item>)
    requires Inv(world, start, record, [item] + queue, done) && DistinctRels(world) && item.from in world.files
    requires !Meaning(world, item).Unreadable? && !Meaning(world, item).Endless?
    ensures var (more, added) := Handle(world, record, start.name, item);
            Inv(world, start, more, queue + added, done + {item})
  {
    hide Inv, Meaning, DistinctRels, InClosure;
    var (more, added) := Handle(world, record, start.name, item);
    assert queue + [] == queue;
    match Meaning(world, item)
    case Nothing => KeepAfterReport(world, start, record, more, item, queue, done);
    case Refused(_) => KeepAfterReport(world, start, record, more, item, queue, done);
    case Imported(ref) =>
      if more.violations != record.violations {
        KeepAfterReport(world, start, record, more, item, queue, done);
      } else {
        KeepAfterRef(world, start, record, item, ref, queue, done);
      }
    case Declared(file) =>
      if item.name in record.pasted && record.pasted[item.name] == KeyOf(world, file, item.name) {
        KeepAfterAgain(world, start, record, item, file, queue, done);
      } else if item.name in record.pasted || item.name in record.refs {
        KeepAfterReport(world, start, record, more, item, queue, done);
      } else {
        KeepAfterPaste(world, start, record, item, file, queue, done);
      }
  }

  // ---------- What is reported ----------

  /** A name of the closure, and the files it is referenced from. */
  ghost predicate Met(world: World, start: Item, item: Item, name: string) {
    item.name == name && item.from in world.files && InClosure(world, start, item)
  }

  ghost predicate MetTwice(world: World, start: Item, a: Item, b: Item, name: string) {
    Met(world, start, a, name) && Met(world, start, b, name)
  }

  /** The closure gives cause for the violation. */
  ghost predicate Justified(world: World, start: Item, violation: Violation) {
    match violation
    case MissingExtension(_, _) =>
      exists i: Item :: Met(world, start, i, i.name) && Meaning(world, i) == Refused(violation)
    case AliasedImport(_, _) =>
      exists i: Item :: Met(world, start, i, i.name) && Meaning(world, i) == Refused(violation)
    case Undeclared(name, rel) =>
      exists i :: Met(world, start, i, name) && world.files[i.from].rel == rel
                  && (Meaning(world, i).Nothing? || Meaning(world, i).Refused?)
    case ConfigTypeImported(name) =>
      name == start.name && exists i :: Met(world, start, i, name) && Meaning(world, i).Imported?
    case LocalAndImported(name) =>
      exists i, j :: MetTwice(world, start, i, j, name) && Meaning(world, i).Declared? && Meaning(world, j).Imported?
    case TwoImports(name) =>
      exists i, j :: MetTwice(world, start, i, j, name) && Meaning(world, i).Imported? && Meaning(world, j).Imported?
                     && Meaning(world, i) != Meaning(world, j)
    case TwoDeclarations(name) =>
      exists i, j :: MetTwice(world, start, i, j, name) && Meaning(world, i).Declared? && Meaning(world, j).Declared?
                     && Meaning(world, i) != Meaning(world, j)
    case Undocumented(name) =>
      exists i :: Met(world, start, i, name) && Meaning(world, i).Declared?
                  && !world.files[Meaning(world, i).file].decls[name].documented
  }

  ghost predicate AllJustified(world: World, start: Item, violations: seq<Violation>) {
    forall v :: v in violations ==> Justified(world, start, v)
  }

  /** A recorded name is one of the closure, with the meaning recorded. */
  lemma RecordedMet(world: World, start: Item, record: Record, queue: seq<Item>, done: set<Item>, name: string)
    returns (item: Item)
    requires Inv(world, start, record, queue, done) && (name in record.pasted || name in record.refs)
    ensures Met(world, start, item, name)
    ensures name in record.pasted ==>
              Meaning(world, item).Declared? && record.pasted[name] == KeyOf(world, Meaning(world, item).file, name)
    ensures name in record.refs ==> Meaning(world, item) == Imported(record.refs[name])
  {
    hide InClosure, AllRecorded, Followed, Meaning;
    assert SourcedBy(world, record, done, name);
    item :| item in done && item.name == name && Recorded(world, record, item);
  }

  lemma JustifiedPush(world: World, start: Item, violations: seq<Violation>, violation: Violation)
    requires AllJustified(world, start, violations) && Justified(world, start, violation)
    ensures AllJustified(world, start, violations + [violation])
  {
    hide Justified;
  }

  lemma MetJustifies(world: World, start: Item, item: Item)
    requires Met(world, start, item, item.name)
    ensures Meaning(world, item).Nothing? || Meaning(world, item).Refused? ==>
              Justified(world, start, Undeclared(item.name, world.files[item.from].rel))
    ensures Meaning(world, item).Refused? ==> Justified(world, start, Meaning(world, item).violation)
    ensures Meaning(world, item).Imported? && item.name == start.name ==>
              Justified(world, start, ConfigTypeImported(item.name))
    ensures Meaning(world, item).Declared? && !world.files[Meaning(world, item).file].decls[item.name].documented ==>
              Justified(world, start, Undocumented(item.name))
  {
    hide Meaning, InClosure;
  }

  lemma PairJustifies(world: World, start: Item, a: Item, b: Item, name: string)
    requires Met(world, start, a, name) && Met(world, start, b, name) && Meaning(world, a) != Meaning(world, b)
    ensures Meaning(world, a).Declared? && Meaning(world, b).Imported? ==>
              Justified(world, start, LocalAndImported(name))
    ensures Meaning(world, a).Imported? && Meaning(world, b).Imported? ==> Justified(world, start, TwoImports(name))
    ensures Meaning(world, a).Declared? && Meaning(world, b).Declared? ==>
              Justified(world, start, TwoDeclarations(name))
  {
    hide Meaning, Met;
    assert MetTwice(world, start, a, b, name);
  }

  lemma InvUnambiguous(world: World, start: Item, record: Record, queue: seq<Item>, done: set<Item>)
    requires Inv(world, start, record, queue, done)
    ensures Unambiguous(record)
  {
  }

  lemma RefJustified(world: World, start: Item, record: Record, item: Item, ref: TypeRef, queue: seq<Item>,
                     done: set<Item>)
    requires Inv(world, start, record, [item] + queue, done) && AllJustified(world, start, record.violations)
    requires Met(world, start, item, item.name) && Meaning(world, item) == Imported(ref)
    ensures AllJustified(world, start, HandleRef(record, start.name, item, ref).violations)
  {
    hide Inv, Met, Meaning, AllJustified, Justified;
    MetJustifies(world, start, item);
    if item.name == start.name {
      JustifiedPush(world, start, record.violations, ConfigTypeImported(item.name));
    } else if item.name in record.pasted {
      var prior := RecordedMet(world, start, record, [item] + queue, done, item.name);
      PairJustifies(world, start, prior, item, item.name);
      JustifiedPush(world, start, record.violations, LocalAndImported(item.name));
    } else if item.name in record.refs && record.refs[item.name] != ref {
      var prior := RecordedMet(world, start, record, [item] + queue, done, item.name);
      PairJustifies(world, start, prior, item, item.name);
      JustifiedPush(world, start, record.violations, TwoImports(item.name));
    }
  }

  lemma DeclJustified(world: World, start: Item, record: Record, item: Item, file: string, queue: seq<Item>,
                      done: set<Item>)
    requires Inv(world, start, record, [item] + queue, done) && AllJustified(world, start, record.violations)
    requires Met(world, start, item, item.name) && Meaning(world, item) == Declared(file)
    ensures AllJustified(world, start, Handle(world, record, start.name, item).0.violations)
  {
    hide Inv, Met, Meaning, AllJustified, Justified, Enqueued, HandleRef;
    MetJustifies(world, start, item);
    if item.name in record.pasted {
      if record.pasted[item.name] != KeyOf(world, file, item.name) {
        var prior := RecordedMet(world, start, record, [item] + queue, done, item.name);
        PairJustifies(world, start, prior, item, item.name);
        JustifiedPush(world, start, record.violations, TwoDeclarations(item.name));
      }
    } else if item.name in record.refs {
      var prior := RecordedMet(world, start, record, [item] + queue, done, item.name);
      PairJustifies(world, start, item, prior, item.name);
      JustifiedPush(world, start, record.violations, LocalAndImported(item.name));
    } else if !world.files[file].decls[item.name].documented {
      JustifiedPush(world, start, record.violations, Undocumented(item.name));
    }
  }

  /** A turn reports only what the closure gives cause for. */
  lemma HandleJustified(world: World, start: Item, record: Record, item: Item, queue: seq<Item>, done: set<Item>)
    requires Inv(world, start, record, [item] + queue, done) && AllJustified(world, start, record.violations)
    requires item.from in world.files && InClosure(world, start, item)
    ensures AllJustified(world, start, Handle(world, record, start.name, item).0.violations)
  {
    hide Inv, InClosure, Meaning, AllJustified, Justified, Enqueued, HandleRef, Paste;
    assert Met(world, start, item, item.name);
    hide Met;
    MetJustifies(world, start, item);
    match Meaning(world, item)
    case Nothing =>
      JustifiedPush(world, start, record.violations, Undeclared(item.name, world.files[item.from].rel));
    case Refused(violation) =>
      JustifiedPush(world, start, record.violations, violation);
      JustifiedPush(world, start, record.violations + [violation],
                    Undeclared(item.name, world.files[item.from].rel));
    case Imported(ref) => RefJustified(world, start, record, item, ref, queue, done);
    case Declared(file) => DeclJustified(world, start, record, item, file, queue, done);
    case Unreadable =>
    case Endless =>
  }

  // ---------- In which order names are pasted ----------

  function ItemNames(items: seq<Item>): seq<string> {
    seq(|items|, i requires 0 <= i < |items| => items[i].name)
  }

  lemma PickedStill(names: seq<string>, references: seq<string>, places: seq<nat>, r: nat)
    requires r + 1 < |references| && PickedFor(names, references[..|references| - 1], places, r)
    ensures PickedFor(names, references, places, r)
  {
  }

  lemma AgainLast(world: World, file: string, before: seq<Item>, references: seq<string>, places: seq<nat>)
    requires references != [] && |places| == |before| && Item(references[|references| - 1], file) in before
    requires forall i :: 0 <= i < |places| ==> places[i] < |references| - 1
    ensures PickedFor(ItemNames(before), references, places, |references| - 1)
  {
    var i :| 0 <= i < |before| && before[i] == Item(references[|references| - 1], file);
    assert ItemNames(before)[i] == references[|references| - 1];
  }

  lemma AgainPicked(world: World, file: string, before: seq<Item>, references: seq<string>, places: seq<nat>)
    requires references != []
    requires Picks(ItemNames(before), references[..|references| - 1], places, world.globals)
    requires references[|references| - 1] in world.globals || Item(references[|references| - 1], file) in before
    ensures Picks(ItemNames(before), references, places, world.globals)
  {
    var n, names := |references| - 1, ItemNames(before);
    forall r | 0 <= r < |references| && references[r] !in world.globals
      ensures PickedFor(names, references, places, r)
    {
      hide PickedFor;
      if r < n {
        assert PickedFor(names, references[..n], places, r) by { assert references[..n][r] == references[r]; }
        PickedStill(names, references, places, r);
      } else {
        AgainLast(world, file, before, references, places);
      }
    }
  }

  lemma PickedMore(names: seq<string>, references: seq<string>, places: seq<nat>, name: string, place: nat, r: nat)
    requires 0 < |references| && r < |references| - 1 && PickedFor(names, references[..|references| - 1], places, r)
    ensures PickedFor(names + [name], references, places + [place], r)
  {
    var i :| 0 <= i < |places| && places[i] <= r && names[i] == references[..|references| - 1][r];
    assert (places + [place])[i] == places[i] && (names + [name])[i] == names[i];
  }

  lemma PickedLast(names: seq<string>, references: seq<string>, places: seq<nat>)
    requires references != [] && |names| == |places|
    ensures PickedFor(names + [references[|references| - 1]], references, places + [|references| - 1], |references| - 1)
  {
    var n := |references| - 1;
    assert (places + [n])[|places|] == n && (names + [references[n]])[|names|] == references[n];
  }

  lemma NewPicked(names: seq<string>, references: seq<string>, places: seq<nat>, skipped: set<string>)
    requires references != [] && references[|references| - 1] !in skipped
    requires Picks(names, references[..|references| - 1], places, skipped)
    ensures Picks(names + [references[|references| - 1]], references, places + [|references| - 1], skipped)
  {
    hide PickedFor;
    var n := |references| - 1;
    forall r | 0 <= r < |references| && references[r] !in skipped
      ensures PickedFor(names + [references[n]], references, places + [n], r)
    {
      if r < n {
        assert references[..n][r] == references[r];
        PickedMore(names, references, places, references[n], n, r);
      } else {
        PickedLast(names, references, places);
      }
    }
  }

  /** Where the references put on the queue stand. */
  lemma {:induction false} EnqueuedPlaces(world: World, file: string, references: seq<string>)
    returns (places: seq<nat>)
    ensures Picks(ItemNames(Enqueued(world, file, references)), references, places, world.globals)
  {
    if references == [] {
      places := [];
    } else {
      var n := |references| - 1;
      var rest, last := references[..n], references[n];
      places := EnqueuedPlaces(world, file, rest);
      var before := Enqueued(world, file, rest);
      var names := ItemNames(before);
      if last in world.globals || Item(last, file) in before {
        assert Enqueued(world, file, references) == before;
        AgainPicked(world, file, before, references, places);
      } else {
        assert ItemNames(Enqueued(world, file, references)) == names + [last];
        NewPicked(names, references, places, world.globals);
        places := places + [n];
      }
    }
  }

  ghost predicate DeclarationAt(world: World, record: Record, file: string, list: seq<string>, name: string) {
    && file in world.files && name in world.files[file].decls && list == world.files[file].decls[name].references
    && name in record.pasted && record.pasted[name] == KeyOf(world, file, name)
  }

  /** The files of the pasted declarations, in order, and what each mentions. */
  ghost predicate DeclarationsOf(world: World, record: Record, files: seq<string>, lists: seq<seq<string>>) {
    && |files| == |lists| == |record.order|
    && forall k :: 0 <= k < |files| ==> DeclarationAt(world, record, files[k], lists[k], record.order[k])
  }

  /** Names are pasted in the order in which a breadth-first search from the config type meets them. */
  ghost predicate InMeetingOrder(world: World, typeName: string, record: Record) {
    exists files, lists :: DeclarationsOf(world, record, files, lists) && BreadthFirst(typeName, record.order, lists)
  }

  /** The trace of a clean run so far. */
  ghost predicate Following(world: World, typeName: string, record: Record, queue: seq<Item>, trace: Trace,
                            files: seq<string>, lists: seq<seq<string>>)
  {
    && Traced(trace, typeName, record.order, lists, world.globals) && DeclarationsOf(world, record, files, lists)
    && trace.taken <= |trace.all| && trace.all[trace.taken..] == ItemNames(queue)
    && forall t :: 0 <= t < trace.taken ==> trace.all[t] in record.pasted || trace.all[t] in record.refs
  }

  lemma FollowingStarts(world: World, file: string, typeName: string)
    ensures Following(world, typeName, Record(map[], [], map[], []), [Item(typeName, file)],
                      Trace([typeName], [(0, 0)], 0, []), [], [])
  {
    StartTraced(typeName, world.globals);
  }

  /** The front of the queue is the next name of the trace. */
  lemma NextTaken(trace: Trace, item: Item, queue: seq<Item>)
    requires trace.taken <= |trace.all| && trace.all[trace.taken..] == ItemNames([item] + queue)
    ensures trace.taken < |trace.all| && trace.all[trace.taken] == item.name
    ensures trace.all[trace.taken + 1..] == ItemNames(queue)
  {
    var names := ItemNames([item] + queue);
    assert names[0] == item.name && names[1..] == ItemNames(queue);
    assert trace.all[trace.taken] == trace.all[trace.taken..][0];
    assert trace.all[trace.taken + 1..] == trace.all[trace.taken..][1..];
  }

  lemma FirstPasted(world: World, typeName: string, record: Record, queue: seq<Item>, trace: Trace,
                    files: seq<string>, lists: seq<seq<string>>)
    requires Following(world, typeName, record, queue, trace, files, lists) && queue != [] && Unambiguous(record)
    requires queue[0].name in record.pasted || queue[0].name != typeName
    ensures record.order != [] && record.order[0] == typeName
  {
    assert trace.all[trace.taken] == ItemNames(queue)[0];
    if queue[0].name in record.pasted {
      assert queue[0].name in record.order;
      assert trace.at[0] < trace.taken;
    }
  }

  lemma FollowAgain(world: World, typeName: string, record: Record, more: Record, item: Item, queue: seq<Item>,
                    trace: Trace, files: seq<string>, lists: seq<seq<string>>)
    requires Following(world, typeName, record, [item] + queue, trace, files, lists)
    requires more.order == record.order && more.pasted == record.pasted
    requires forall n :: n in record.refs ==> n in more.refs
    requires item.name in more.pasted || (item.name in more.refs && item.name != typeName)
    requires Unambiguous(record)
    ensures Following(world, typeName, more, queue, trace.(taken := trace.taken + 1), files, lists)
  {
    hide Traced, Unambiguous, ItemNames;
    NextTaken(trace, item, queue);
    FirstPasted(world, typeName, record, [item] + queue, trace, files, lists);
    TakeAgain(trace, typeName, record.order, lists, world.globals);
  }

  lemma DeclarationsMore(world: World, record: Record, item: Item, file: string, files: seq<string>,
                         lists: seq<seq<string>>)
    requires DeclarationsOf(world, record, files, lists) && file in world.files && item.name in world.files[file].decls
    requires item.name !in record.pasted
    ensures DeclarationsOf(world, Paste(world, record, item, file), files + [file],
                           lists + [world.files[file].decls[item.name].references])
  {
    var references, more := world.files[file].decls[item.name].references, Paste(world, record, item, file);
    forall k | 0 <= k < |record.order|
      ensures DeclarationAt(world, more, (files + [file])[k], (lists + [references])[k], more.order[k])
    {
      assert DeclarationAt(world, record, files[k], lists[k], record.order[k]);
    }
  }

  lemma FollowNew(world: World, typeName: string, record: Record, item: Item, file: string, queue: seq<Item>,
                  trace: Trace, files: seq<string>, lists: seq<seq<string>>)
    returns (after: Trace)
    requires Following(world, typeName, record, [item] + queue, trace, files, lists)
    requires file in world.files && item.name in world.files[file].decls
    requires item.name !in record.pasted && item.name !in record.refs
    ensures var references := world.files[file].decls[item.name].references;
            Following(world, typeName, Paste(world, record, item, file), queue + Enqueued(world, file, references),
                      after,
                      files + [file], lists + [references])
  {
    hide Traced, Enqueued, DeclarationsOf;
    var references := world.files[file].decls[item.name].references;
    var added := Enqueued(world, file, references);
    var places := EnqueuedPlaces(world, file, references);
    NextTaken(trace, item, queue);
    after := AfterNew(trace, |lists|, ItemNames(added), places);
    TakeNew(trace, typeName, record.order, lists, references, ItemNames(added), places, world.globals);
    DeclarationsMore(world, record, item, file, files, lists);
    assert after.all[after.taken..] == ItemNames(queue) + ItemNames(added);
    assert ItemNames(queue) + ItemNames(added) == ItemNames(queue + added);
  }

  /** A clean turn goes on with the trace. */
  lemma HandleFollows(world: World, typeName: string, record: Record, item: Item, queue: seq<Item>, trace: Trace,
                      files: seq<string>, lists: seq<seq<string>>)
    returns (after: Trace, moreFiles: seq<string>, moreLists: seq<seq<string>>)
    requires item.from in world.files && Unambiguous(record)
    requires !Meaning(world, item).Unreadable? && !Meaning(world, item).Endless?
    requires Following(world, typeName, record, [item] + queue, trace, files, lists)
    ensures var (more, added) := Handle(world, record, typeName, item);
            more.violations == [] ==> Following(world, typeName, more, queue + added, after, moreFiles, moreLists)
  {
    hide Meaning, Following;
    var (more, added) := Handle(world, record, typeName, item);
    assert queue + [] == queue;
    after, moreFiles, moreLists := trace.(taken := trace.taken + 1), files, lists;
    if more.violations == [] {
      var meaning := Meaning(world, item);
      if meaning.Declared? && item.name !in record.pasted {
        after := FollowNew(world, typeName, record, item, meaning.file, queue, trace, files, lists);
        moreFiles := files + [meaning.file];
        moreLists := lists + [world.files[meaning.file].decls[item.name].references];
      } else {
        FollowAgain(world, typeName, record, more, item, queue, trace, files, lists);
      }
    }
  }

  lemma FollowingEnds(world: World, typeName: string, record: Record, trace: Trace, files: seq<string>,
                      lists: seq<seq<string>>)
    requires Following(world, typeName, record, [], trace, files, lists)
    ensures InMeetingOrder(world, typeName, record)
  {
    assert trace.taken == |trace.all| > 0 by { assert |trace.all[trace.taken..]| == 0; }
    hide Traced, BreadthFirst, DeclarationsOf;
    TracedBreadthFirst(trace, typeName, record.order, lists, world.globals);
  }

  // ---------- The closure ----------

  datatype Failure = UnreadableFile | EndlessImports

  /** Every name any file declares. */
  ghost function DeclaredNames(world: World): set<string> {
    set f, n | f in world.files && n in world.files[f].decls :: n
  }

  /** A turn of the loop either records a new declaration or adds nothing to the queue. */
  lemma HandleShrinks(world: World, record: Record, typeName: string, item: Item)
    requires item.from in world.files
    ensures var (more, added) := Handle(world, record, typeName, item);
            if item.name in more.pasted && item.name !in record.pasted
            then more.pasted.Keys == record.pasted.Keys + {item.name} && item.name in DeclaredNames(world)
            else more.pasted.Keys == record.pasted.Keys && added == []
  {
    hide Meaning;
    var meaning := Meaning(world, item);
    if meaning.Declared? { assert item.name in world.files[meaning.file].decls; }
  }

  lemma NamesLeft(names: set<string>, before: set<string>, after: set<string>, name: string)
    requires after == before || (after == before + {name} && name in names && name !in before)
    ensures if after == before then |names - after| == |names - before| else |names - after| < |names - before|
  {
    if after != before {
      assert names - before == (names - after) + {name};
    }
  }

  /** How many declared names are not pasted yet. */
  ghost function Left(world: World, record: Record): nat {
    |DeclaredNames(world) - record.pasted.Keys|
  }

  /** An item either pastes a new name or leaves no more to handle. */
  lemma LeftShrinks(world: World, record: Record, typeName: string, item: Item)
    requires item.from in world.files
    ensures var (more, added) := Handle(world, record, typeName, item);
            Left(world, more) < Left(world, record) || (Left(world, more) == Left(world, record) && added == [])
  {
    HandleShrinks(world, record, typeName, item);
    hide Handle, DeclaredNames;
    var (more, added) := Handle(world, record, typeName, item);
    NamesLeft(DeclaredNames(world), record.pasted.Keys, more.pasted.Keys, item.name);
  }

  /** `record` holds, for every item of the closure and no other name, its one meaning. */
  ghost predicate IsClosure(world: World, start: Item, record: Record) {
    && Unambiguous(record)
    && (forall i :: InClosure(world, start, i) ==> Recorded(world, record, i) && Proper(world, start.name, i))
    && (forall n :: n in record.pasted || n in record.refs ==>
          exists i :: InClosure(world, start, i) && i.name == n && Recorded(world, record, i))
  }

  lemma InvEnds(world: World, start: Item, record: Record, done: set<Item>)
    requires Inv(world, start, record, [], done) && record.violations == []
    ensures IsClosure(world, start, record)
  {
    hide References, Recorded, Proper;
    forall i | InClosure(world, start, i) ensures i in done {
      var trail :| IsTrail(world, trail, start, i);
      ClosureWithin(world, start, done, trail, i);
    }
    forall n | n in record.pasted || n in record.refs
      ensures exists i :: InClosure(world, start, i) && i.name == n && Recorded(world, record, i)
    {
      assert SourcedBy(world, record, done, n);
      var i :| i in done && i.name == n && Recorded(world, record, i);
      assert InClosure(world, start, i);
    }
  }

  /** Some assignment of one meaning to each name fits the whole closure. */
  ghost predicate Fits(world: World, start: Item, all: Record) {
    && all.pasted.Keys !! all.refs.Keys
    && forall i :: InClosure(world, start, i) ==> Recorded(world, all, i) && Proper(world, start.name, i)
  }

  ghost predicate CanFit(world: World, start: Item) {
    exists all :: Fits(world, start, all)
  }

  ghost predicate PartOf(record: Record, all: Record) {
    && record.violations == []
    && (forall n :: n in record.pasted ==> n in all.pasted && all.pasted[n] == record.pasted[n])
    && (forall n :: n in record.refs ==> n in all.refs && all.refs[n] == record.refs[n])
  }

  /** The record is clean and part of every fitting assignment. */
  ghost predicate Agrees(world: World, start: Item, record: Record) {
    forall all :: Fits(world, start, all) ==> PartOf(record, all)
  }

  /** While the record agrees with a fitting assignment, nothing is reported. */
  lemma HandleClean(world: World, start: Item, record: Record, item: Item, all: Record)
    requires Fits(world, start, all) && PartOf(record, all) && InClosure(world, start, item) && item.from in world.files
    ensures PartOf(Handle(world, record, start.name, item).0, all)
    ensures !Meaning(world, item).Unreadable? && !Meaning(world, item).Endless?
  {
    hide Meaning;
    assert Recorded(world, all, item) && Proper(world, start.name, item);
  }

  lemma FirstItem(world: World, start: Item)
    requires start.from in world.files
    ensures Inv(world, start, Record(map[], [], map[], []), [start], {}) && InClosure(world, start, start)
  {
    assert IsTrail(world, [], start, start);
  }

  /** A name of the closure whose resolution ends the script, and how. */
  ghost predicate StopsAt(world: World, start: Item, item: Item, failure: Failure) {
    && InClosure(world, start, item) && item.from in world.files
    && match failure
       case UnreadableFile => Meaning(world, item).Unreadable?
       case EndlessImports => Meaning(world, item).Endless?
  }

  lemma NothingRecorded(world: World, start: Item)
    ensures Agrees(world, start, Record(map[], [], map[], []))
  {
    hide Fits;
  }

  lemma AgreesHandle(world: World, start: Item, record: Record, item: Item)
    requires Agrees(world, start, record) && InClosure(world, start, item) && item.from in world.files
    ensures Agrees(world, start, Handle(world, record, start.name, item).0)
    ensures Meaning(world, item).Unreadable? || Meaning(world, item).Endless? ==> !CanFit(world, start)
  {
    hide Fits, PartOf, InClosure, Meaning, Handle;
    forall all | Fits(world, start, all)
      ensures PartOf(Handle(world, record, start.name, item).0, all) && !Meaning(world, item).Unreadable?
      ensures !Meaning(world, item).Endless?
    {
      HandleClean(world, start, record, item, all);
    }
  }

  lemma ClosureFits(world: World, start: Item, record: Record)
    requires IsClosure(world, start, record)
    ensures Fits(world, start, record)
  {
    hide InClosure, Recorded, Proper;
  }

  lemma AgreesEnds(world: World, start: Item, record: Record, done: set<Item>)
    requires Inv(world, start, record, [], done) && Agrees(world, start, record)
    ensures record.violations == [] ==> IsClosure(world, start, record)
    ensures record.violations == [] <==> CanFit(world, start)
  {
    hide Fits, IsClosure, Inv;
    if record.violations == [] {
      InvEnds(world, start, record, done);
      ClosureFits(world, start, record);
    }
  }

  lemma FrontWanted(world: World, start: Item, record: Record, item: Item, rest: seq<Item>, done: set<Item>)
    requires Inv(world, start, record, [item] + rest, done)
    ensures item.from in world.files && InClosure(world, start, item)
  {
    hide InClosure, Recorded, References;
    assert item in [item] + rest;
  }

  lemma HandleGrows(world: World, record: Record, typeName: string, item: Item)
    requires item.from in world.files
    ensures record.violations <= Handle(world, record, typeName, item).0.violations
  {
    hide Meaning;
  }

  /** Collect the declarations and imports the config type's paste needs. Violations are recorded, not thrown. */
  method CollectPastes(world: World, file: string, typeName: string) returns (r: Result<Record, Failure>)
    requires file in world.files && DistinctRels(world)
    ensures r.Ok? && r.value.violations == [] ==> IsClosure(world, Item(typeName, file), r.value)
    ensures r.Ok? && r.value.violations == [] ==> InMeetingOrder(world, typeName, r.value)
    ensures r.Ok? ==> AllJustified(world, Item(typeName, file), r.value.violations)
    ensures (r.Ok? && r.value.violations == []) <==> CanFit(world, Item(typeName, file))
    ensures r.Err? ==> exists i :: StopsAt(world, Item(typeName, file), i, r.error)
  {
    hide Inv, InClosure, Meaning, DistinctRels, CanFit, IsClosure, Agrees, Handle, Left, Following, Justified;
    hide Unambiguous;
    hide InMeetingOrder;
    ghost var start := Item(typeName, file);
    ghost var done: set<Item> := {};
    ghost var trace, files, lists := Trace([typeName], [(0, 0)], 0, []), [], [];
    var record := Record(map[], [], map[], []);
    var queue := [Item(typeName, file)];
    FirstItem(world, start);
    NothingRecorded(world, start);
    FollowingStarts(world, file, typeName);
    while queue != []
      invariant Inv(world, start, record, queue, done)
      invariant Agrees(world, start, record) && AllJustified(world, start, record.violations)
      invariant record.violations == [] ==> Following(world, typeName, record, queue, trace, files, lists)
      decreases Left(world, record), |queue|
    {
      var item, rest := queue[0], queue[1..];
      assert queue == [item] + rest;
      FrontWanted(world, start, record, item, rest, done);
      LeftShrinks(world, record, typeName, item);
      AgreesHandle(world, start, record, item);
      var meaning := Meaning(world, item);
      if meaning.Unreadable? {
        assert StopsAt(world, start, item, UnreadableFile);
        return Err(UnreadableFile);
      }
      if meaning.Endless? {
        assert StopsAt(world, start, item, EndlessImports);
        return Err(EndlessImports);
      }
      HandleKeeps(world, start, record, item, rest, done);
      HandleJustified(world, start, record, item, rest, done);
      InvUnambiguous(world, start, record, queue, done);
      HandleGrows(world, record, typeName, item);
      if record.violations == [] {
        trace, files, lists := HandleFollows(world, typeName, record, item, rest, trace, files, lists);
      }
      var (more, added) := Handle(world, record, typeName, item);
      record, queue := more, rest + added;
      done := done + {item};
    }
    AgreesEnds(world, start, record, done);
    if record.violations == [] { FollowingEnds(world, typeName, record, trace, files, lists); }
    r := Ok(record);
  }

  /** In a clean paste, a name referenced by a pasted declaration means, from that declaration's own file, what is
      recorded under it. */
  lemma NamesResolve(world: World, start: Item, record: Record, item: Item, next: Item)
    requires IsClosure(world, start, record) && InClosure(world, start, item) && References(world, item, next)
    ensures next.from in world.files
    ensures match Meaning(world, next)
            case Declared(file) =>
              next.name in record.pasted && next.name !in record.refs &&
              record.pasted[next.name] == KeyOf(world, file, next.name)
            case Imported(ref) =>
              next.name in record.refs && next.name !in record.pasted && record.refs[next.name] == ref
            case _ => false
  {
    hide Meaning, InClosure;
    ClosureGrows(world, start, item, next);
  }
}
