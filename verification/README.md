# Harness script models

The gate and build scripts under `harness/scripts` order packages, run gates, schedule coverage runs, check
configuration schemas against declared types, fingerprint build output and generate catalogs. This project models the
algorithms in those scripts and proves what the scripts rely on them for.

- **Package order** (`Graphs`, `Ordering`, `PackageNodes`, `ComponentTraversal`, `PackageGraph`). The specification is
  an order defined on the peer graph alone: each layer is the set of ready packages or, when there is none, the sink
  cycle that holds the least name, and each layer is listed in comparator order; `PackageGraph.Precedes` says what that order is in terms of the group order and the locale. `ComponentTraversal.Traversal` is
  Tarjan's algorithm with its mutable maps and stack; its two "lost" throws and the final "could not order" throw are
  `Result` values whose success is a proof obligation at every use, so they are proved unreachable.
- **Coverage partitions** (`Sums`, `GreedySchedule`, `ScheduleBounds`, `FilledBuckets`, `BucketHeap`,
  `CoveragePartitions`). The specification `Greedy` says only that each file in turn goes to some least bucket;
  conservation, balance and the approximation bounds are proved about it, and the method with the in-place heap of
  bucket indices is proved to follow it. Its result carries the buckets as a ghost witness of that.
- **Gates** (`GateGraph`, `GateRunner`). The graph check is a depth-first search over an explicit path. A run leaves a
  log of what starts, settles and aborts; `May` says what may happen after a log, `Now` when it does, and the
  scheduler is proved to produce a log of such events whatever its gates and the host do. Its "stalled" and "missing
  result" throws are `Result` values proved unreachable.
- **Schema paths and pastes** (`ConfigLookup`, `ConfigGuard`, `ConfigMeaning`, `ConfigMarks`, `ConfigEnds`,
  `ConfigDiverges`, `ExportSearch`, `ComposedKeys`, `ConfigKeys`, `PasteNames`, `PasteOrder`, `PasteClosure`). Types are trees with named
  references into a finite table of declarations. `ConfigLookup` is the walk: it threads the one shared set of visited
  declarations, as the script does, and is a function of a number of nested calls, answering nothing when they do not
  suffice. `ConfigGuard` sets beside it the walk that never stops at a declaration, which also lists the declarations
  it goes through. In `ConfigMeaning` what the walk cannot see into is a hole, and a filling says which paths each
  hole provides; the answers are judged under every filling, and the walk's own answer is characterised by two fillings and the choice of one branch for each union. `ConfigMarks`, `ConfigEnds` and `ConfigDiverges` say when
  some number of nested calls suffices. `ExportSearch` is the search through re-exports that name resolution relies
  on.
- **Streams** (`Numbers`, `Text`, `Decimal`, `ByteStrings`, `ArtifactDigest`, `GitBatch`). The bytes fed to the
  artifact hash are uniquely decodable, and the batch reader inverts the batch format and refuses every truncation of
  it.
- **Search, matching, concurrency and memo** (`BenchmarkCandidates`, `VariantMatching`, `ConcurrentMap`,
  `BundleOwner`). The concurrent map is a state machine whose steps run from one await to the next; its theorems hold
  for every schedule of the workers.
- **Markdown and formats** (`MarkdownLines`, `MarkdownDerivatives`, `SessionFormats`).

Points where the code does not do what is said of it, each with a lemma that names an input and one that says when it
does:

- `assignWeightedPartitions` documents that every returned partition is non-empty. It is so exactly when there are at
  least as many files as partitions, and no more partitions than one plus the number of files of weight zero or more
  (`FilledBuckets.AllFilledWhen`); `CoveragePartitions.NegativeWeightsLeaveEmpty` is an input with enough files that
  fails.
- The recursion guard of `lookupPath` is documented as a bail-out for recursive types, but one visited set is shared
  between all branches, so the second branch of a diamond of interfaces answers "unknown" where no branch has the
  member (`ConfigMeaning.SharedGuardHidesMissing`). "Missing" survives the guard exactly when the walk goes through no
  declaration twice with as much of the path left (`ConfigGuard.GuardKeepsMissing`).
- `lookupPath` is documented never to answer "missing" for what it cannot see, but its member scan passes over
  methods, accessors and index signatures (`ConfigMeaning.SkippedMethodMissing`), and it looks through `keyof` as
  through any operator. "Missing" is right exactly when the unguarded walk, which then ends, leaves the path no
  possibility by way of a `keyof` or of such a member that could answer to the name. "Found" is right as far as
  `keyof` means its operand, and so in every program without `keyof` (`ConfigMeaning.FoundAlways`); it is right
  altogether exactly when some derivation of the path uses no hole and crosses no `keyof`
  (`ConfigMeaning.DefiniteAnswers`). `ConfigMeaning.KeyofFound` is an alias for which it is wrong.
- The guard counts the steps left, and an indexed access adds a step, so an alias defined by indexing itself is
  followed forever (`ConfigDiverges.IndexedCycleDiverges`). The walk ends exactly when the keys it marks are bounded
  in length (`ConfigMarks.EndsExactlyIfMarksBounded`). It therefore ends if the paths it can come to are bounded
  (`ConfigEnds.EndsIfBounded`), and where the guard tells all calls apart only then
  (`ConfigDiverges.EndsExactlyIfBounded`); where it takes one path for another of the same length it can end a walk
  whose paths are not bounded (`ConfigDiverges.ConflatedEnds`). Two tests on the declarations alone go with this: a
  rank that no cycle of references raises is enough for the walk of every path to end (`ConfigEnds.TameEnds`), and a
  cycle of aliases that uses up no step and adds one is enough for no walk that comes to it to end
  (`ConfigDiverges.ClimbingDiverges`). Neither test decides the programs in between (`ConfigEnds.NestedIndexEnds` is
  one, and ends).
- The session format catalog is rendered from names each of which is imported from the package that declares it
  (`SessionFormats.UsedNamesImported`), but nothing checks that no name is imported from two packages
  (`SessionFormats.NamesCanClash`); `SessionFormats.NamesApartWhen` says exactly when none is.

Weights are real numbers and `localeCompare` is any given comparator, required to be linear where the script needs
distinct names not to tie. Files, manifests, git output, parsed comments and durations are parameters.

## Model

| member | source | states |
|---|---|---|
| Graphs.SinkCycleExists | harness/scripts/package-graph.ts:76-81 | In a non-empty graph where every package waits for another one, some cyclic component has no edge leaving it, so there is always a cycle to place |
| Graphs.ComponentIsScc | harness/scripts/package-graph.ts:94-137 | The packages mutually reachable with one package are a strongly connected component |
| Graphs.CyclicComponent | harness/scripts/package-graph.ts:140-141 | A component holds a cycle exactly when it has a second member or its one member depends on itself |
| ComponentTraversal.Enter | harness/scripts/package-graph.ts:102-109 | Numbering and stacking a package keeps the traversal invariant |
| ComponentTraversal.AfterVisitInv | harness/scripts/package-graph.ts:113-115 | After the recursive visit of a new dependency, taking the smaller low link keeps the invariant and what the low link says about reachable stacked packages |
| ComponentTraversal.AfterStacked | harness/scripts/package-graph.ts:116-117 | A dependency on the stack bounds the low link by its number |
| ComponentTraversal.AfterOther | harness/scripts/package-graph.ts:111-112 | A dependency outside the graph or in a finished component may be skipped |
| ComponentTraversal.Leave | harness/scripts/package-graph.ts:120 | A package whose low link is smaller than its number stays stacked, anchored to an earlier open visit |
| ComponentTraversal.CutIsScc | harness/scripts/package-graph.ts:120-132 | The packages from a root up to the top of the stack are a whole strongly connected component |
| ComponentTraversal.CutIsClosed | harness/scripts/package-graph.ts:120-132 | No edge leads from the packages cut off to the rest of the stack |
| ComponentTraversal.Close | harness/scripts/package-graph.ts:120-132 | Popping a root's packages into a component keeps the invariant and ends the visit |
| ComponentTraversal.Traversal.Visit | harness/scripts/package-graph.ts:102-133 | A visit keeps the invariant, extends the numbering, leaves the older stack in place, and bounds the edges from what it left stacked; its two "lost" throws are unreachable |
| ComponentTraversal.Traversal.Pop | harness/scripts/package-graph.ts:121-123 | Takes the top of the stack and its name out of the stacked set, or throws on an empty stack |
| ComponentTraversal.Traversal.PopComponent | harness/scripts/package-graph.ts:121-131 | Pops exactly the packages down to the given one, last first, leaving the rest of the stack |
| ComponentTraversal.Components | harness/scripts/package-graph.ts:94-137 | The components built are exactly the strongly connected components of the graph on the remaining packages, each once |
| ComponentTraversal.FilterMeaning | harness/scripts/package-graph.ts:138-143 | The final filter keeps a component exactly when it contains a cycle and no edge leaves it inside the remaining packages |
| ComponentTraversal.SinkCycles | harness/scripts/package-graph.ts:94-144 | The result is exactly the cyclic components that no edge leaves, pairwise disjoint |
| Ordering.FilterConcat | harness/scripts/package-graph.ts:74 | Filtering two lists one after the other filters each and keeps them in that order |
| Ordering.FilterOne | harness/scripts/package-graph.ts:74 | Filtering one element keeps it, once, exactly if the test says so |
| Ordering.SortStable | harness/scripts/coverage-partitions.ts:538 | Sorting lists the elements ascending, those that tie as they stood |
| PackageGraph.ComparisonsLinear | harness/scripts/package-graph.ts:152-158 | Ranking by group order, group and name never ties distinct names and is consistent |
| PackageGraph.ComparedPrecedes | harness/scripts/package-graph.ts:152-158 | One package compares below another exactly when its group stands in the group order and the other's not before it; or neither group is earlier, and the locale puts its group first, or else its name |
| PackageGraph.ByNameLatest | harness/scripts/package-graph.ts:61 | The index holds, for every name listed, the last package listed under it |
| PackageGraph.LayerUnique | harness/scripts/package-graph.ts:73-81 | For the packages placed so far there is one next layer, whatever order the cycles were found in |
| PackageGraph.LayerExists | harness/scripts/package-graph.ts:73-81 | While packages remain and all peers exist there is a non-empty next layer, so the "could not order" throw is unreachable |
| PackageGraph.FirstOfSorted | harness/scripts/package-graph.ts:77-79 | The first of the sorted components is the sink cycle that holds the least name of all sink cycles |
| PackageGraph.FirstCycleOf | harness/scripts/package-graph.ts:76-81 | When nothing is ready a cycle is found, and it is the canonical first one, in comparator order |
| PackageGraph.NextReady | harness/scripts/package-graph.ts:73-81 | The packages chosen are the canonical next layer in comparator order, and never empty |
| PackageGraph.Place | harness/scripts/package-graph.ts:83-87 | Placing a layer appends it, marks it placed and removes exactly it from what remains |
| PackageGraph.PlaceLayer | harness/scripts/package-graph.ts:72-88 | A pass of the loop extends the promised order by exactly its next layer |
| PackageGraph.PlaceAll | harness/scripts/package-graph.ts:69-89 | The loop ends without a throw and emits the promised order |
| PackageGraph.OrderCorrect | harness/scripts/package-graph.ts:60-90 | The promised order lists every package once, and each dependency precedes its dependent unless both lie in one cycle |
| PackageGraph.AcyclicOrder | harness/scripts/package-graph.ts:60-90 | In an acyclic graph every dependency strictly precedes its dependent |
| PackageGraph.PromisedOrderCorrect | harness/scripts/package-graph.ts:60-90 | The same two promises for a list of packages all of whose peers are listed |
| PackageGraph.OrderInLayers | harness/scripts/package-graph.ts:69-89 | The order is made of layers: each holds all that is ready or, when nothing is, the sink cycle whose first package precedes those of all sink cycles; within a layer each package precedes the next |
| PackageGraph.TopoSort | harness/scripts/package-graph.ts:60-90 | Fails exactly when some peer is missing, naming the first one; otherwise returns the promised order, which holds the last package listed under each name, once, and is made of layers in each of which packages of an earlier group come first, then of a group and a name the locale puts first |
| PackageGraph.EnumerationIrrelevant | harness/scripts/package-graph.ts:73-88 | The promised order is the same however the packages and their peers are enumerated |
| GreedySchedule.GreedyConserves | harness/scripts/coverage-partitions.ts:314-327 | The buckets together hold exactly the files, with multiplicity, and every recorded sum is the weight of its files |
| GreedySchedule.GreedyBalanced | harness/scripts/coverage-partitions.ts:318-326 | Before its last file each bucket weighed no more than any other bucket finally does |
| GreedySchedule.GreedyCertified | harness/scripts/coverage-partitions.ts:311-326 | With heavier files first, each bucket's last file is its lightest and the rest weighs no more than any other bucket's files at least that heavy |
| GreedySchedule.SpreadAtMostLast | harness/scripts/coverage-partitions.ts:298-303 | No bucket exceeds another by more than the weight of the last file placed in it |
| ScheduleBounds.ScoreCases | harness/scripts/coverage-partitions.ts:298-303 | What a bucket's count of large files says about its load when three of them exceed the bound |
| ScheduleBounds.LargeFilesFit | harness/scripts/coverage-partitions.ts:298-303 | When the last file weighs more than a third of a bound that another assignment meets, the bucket meets the bound too |
| ScheduleBounds.AverageBound | harness/scripts/coverage-partitions.ts:298-303 | A bucket without its last file weighs at most an average bucket of any other assignment |
| ScheduleBounds.ListSchedulingBound | harness/scripts/coverage-partitions.ts:305-328 | In any order of files, the heaviest bucket is at most 2 - 1/m times that of any other assignment |
| ScheduleBounds.LongestFirstBound | harness/scripts/coverage-partitions.ts:305-328 | With heavier files first, the heaviest bucket is at most 4/3 - 1/(3m) times that of any other assignment |
| FilledBuckets.FilledCount | harness/scripts/coverage-partitions.ts:318-326 | For weights of any sign, how many buckets hold files after descending placement |
| FilledBuckets.AllFilledWhen | harness/scripts/coverage-partitions.ts:303-328 | Every partition gets a file exactly when there are enough files and at most one partition more than files of weight zero or more |
| FilledBuckets.AllFilledWhenEnough | harness/scripts/coverage-partitions.ts:303-328 | For non-negative weights, every partition gets a file exactly when there are at least as many files as partitions |
| FilledBuckets.EqualWeightsEvenSizes | harness/scripts/coverage-partitions.ts:315-317 | Files that all weigh the same, as without recorded durations, are spread so that sizes differ by at most one |
| BucketHeap.RootIsLeast | harness/scripts/coverage-partitions.ts:319 | In an ordered heap that lists every bucket the root is a bucket no other is less than |
| BucketHeap.SwapDown | harness/scripts/coverage-partitions.ts:351-357 | Swapping the hole with its smaller child moves the only disorder to that child |
| BucketHeap.GrowRoot | harness/scripts/coverage-partitions.ts:319-325 | Growing the root's bucket leaves only the root out of order |
| BucketHeap.SiftDown | harness/scripts/coverage-partitions.ts:331-359 | Restores the heap order by total weight then file count, still listing every bucket once, from any starting hole |
| CoveragePartitions.RecordedWeight | harness/scripts/coverage-partitions.ts:310-312 | A file weighs what was recorded for it, or one |
| CoveragePartitions.WeightOrder | harness/scripts/coverage-partitions.ts:311-313 | The placement order is a permutation of the files in descending weight, and files of one weight are in the order of their names |
| CoveragePartitions.AssignWeightedPartitions | harness/scripts/coverage-partitions.ts:305-328 | Throws only for files without partitions; otherwise the partitions come from giving each file in placement order to a least bucket |
| CoveragePartitions.ScheduleBound | harness/scripts/coverage-partitions.ts:305-328 | For non-negative weights the assignment made is within 4/3 - 1/(3m) of every assignment of the same files |
| CoveragePartitions.NegativeWeightsLeaveEmpty | harness/scripts/coverage-partitions.ts:303 | Two files of negative weight leave one of two partitions empty |
| CoveragePartitions.FirstEmpty | harness/scripts/coverage-partitions.ts:494-502 | The refusal names the first partition without files, and fires exactly when there is one |
| CoveragePartitions.SortedPartitions | harness/scripts/coverage-partitions.ts:538 | Sorting lists the same partitions, no total weight of files before a greater one, and those of one weight as they stood |
| CoveragePartitions.AssignFiles | harness/scripts/coverage-partitions.ts:494-541 | Refused exactly when some partition must stay empty, naming the first empty one of the sorted schedule; otherwise the partitions are that schedule's, hold all files, no total weight before a greater one, none empty, within the bound of every other assignment |
| CoveragePartitions.RefusedAfterFiles | harness/scripts/coverage-partitions.ts:494-541 | When every file has a positive weight the empty partition named comes right after one partition for each file |
| GateGraph.CycleNotAcyclic | harness/scripts/run-gates.ts:865-868 | A graph with a closed walk has a cyclic dependency |
| GateGraph.FinishedAcyclic | harness/scripts/run-gates.ts:873-881 | A graph whose vertices all finish after those they wait for has no cycle |
| GateGraph.CycleSearch.Visit | harness/scripts/run-gates.ts:865-882 | A visit returns a closed walk of the graph, or completes the gate after all it waits for and restores the path |
| GateGraph.FindDependencyCycle | harness/scripts/run-gates.ts:859-889 | Finds a closed walk exactly when the gates depend on each other in a circle |
| GateGraph.ValidateGateGraph | harness/scripts/run-gates.ts:834-857 | Accepts exactly the non-empty lists with distinct ids, known dependencies and no cycle; otherwise names the first fault in the order the checks are made |
| GateRunner.StartsAfterNeeds | harness/scripts/run-gates.ts:953-962 | No gate starts before all it needs were observed to pass and all it comes after to settle, or once the aggregate is aborted |
| GateRunner.SkippedForNeeds | harness/scripts/run-gates.ts:975-992 | A gate is skipped unrun only for an abort, or for needs that had failed or been skipped, which are named without exception |
| GateRunner.OneResult | harness/scripts/run-gates.ts:964-1017 | No gate has two results |
| GateRunner.OneStart | harness/scripts/run-gates.ts:953-962 | No gate starts twice |
| GateRunner.ActiveBound | harness/scripts/run-gates.ts:954 | Never more gates run than the concurrency allows |
| GateRunner.NotStalled | harness/scripts/run-gates.ts:977-978 | On a valid graph, when nothing runs and nothing can start, a pending gate has a failed need, so the "stalled" throw is unreachable |
| GateRunner.BeginGood | harness/scripts/run-gates.ts:955-958 | Starting the first gate that can start keeps the maps, the running list and the log in agreement |
| GateRunner.RecordGood | harness/scripts/run-gates.ts:1001-1002 | Recording a result due to a gate keeps them in agreement |
| GateRunner.EventWork | harness/scripts/run-gates.ts:951-1018 | Each start and each result leaves less to do, so the scheduler ends |
| GateRunner.StartReady | harness/scripts/run-gates.ts:952-962 | Starts gates in their order until the limit is reached or none can start |
| GateRunner.SkipBlocked | harness/scripts/run-gates.ts:975-992 | Skips the first pending gate with a failed need, naming those that failed |
| GateRunner.AwaitFirst | harness/scripts/run-gates.ts:995-1017 | Observes a running gate that settles, as skipped when the abort ended it, and aborts at once for a blocking failure or an interruption |
| GateRunner.RunDetermined | harness/scripts/run-gates.ts:951-1018 | What the gates and the host do and the order in which gates settle determine the whole run |
| GateRunner.RunGates | harness/scripts/run-gates.ts:917-1029 | Fails only for what it checks beforehand; otherwise ends with a whole run, each gate started, skipped or aborted as and when due, and one result for each gate in order |
| ConfigLookup.LookupStable | harness/scripts/gen-config-catalog.ts:393-479 | An answer does not depend on how many nested calls are allowed |
| ConfigGuard.WalkRelated | harness/scripts/gen-config-catalog.ts:393-479 | For every type and visited set, the guarded walk answers as the unguarded one while its visits are fresh, and otherwise turns missing into unknown |
| ConfigGuard.DeclRelated | harness/scripts/gen-config-catalog.ts:398-402 | The same for declarations, where the guard acts |
| ConfigGuard.GuardKeepsMissing | harness/scripts/gen-config-catalog.ts:398-402 | The walk answers missing exactly when the unguarded walk does and goes through no declaration twice with as much of the path left; if it does go through one twice, that answer becomes unknown |
| ConfigMeaning.LookupSound | harness/scripts/gen-config-catalog.ts:393-479 | For every type and visited set, found means provided under every filling that reads through `keyof`, or in a program without `keyof` under every filling |
| ConfigMeaning.DeclSound | harness/scripts/gen-config-catalog.ts:398-437 | The same for interfaces with heritage, aliases and enums behind the recursion guard |
| ConfigMeaning.AllSound | harness/scripts/gen-config-catalog.ts:443-452 | The same for each branch of a union or intersection, with the visited set threaded through |
| ConfigMeaning.ReferenceSound | harness/scripts/gen-config-catalog.ts:464-477 | The same for references through wrappers, array types and resolved names |
| ConfigMeaning.WalkDecides | harness/scripts/gen-config-catalog.ts:393-479 | For every type, the verdict and the answer of the unguarded walk each say whether the emptiest and the fullest filling, for the answer read as the walk reads the program, provide the path |
| ConfigMeaning.ExtremesDecide | harness/scripts/gen-config-catalog.ts:381-393 | A path is there under every filling exactly when under the emptiest, and under none exactly when not under the fullest |
| ConfigMeaning.PlainVerdict | harness/scripts/gen-config-catalog.ts:393-479 | Where the unguarded walk ends, a path is there under every filling exactly when the walk is sure of it, and under none exactly when the walk leaves it no possibility |
| ConfigMeaning.PlainAnswer | harness/scripts/gen-config-catalog.ts:393-479 | Where the unguarded walk ends, it answers missing exactly when no choice of one branch for each union provides the path even if the holes hold everything, and found exactly when the path is provided though they hold nothing, as the walk reads `keyof` and members that are not properties |
| ConfigMeaning.AnswersWhen | harness/scripts/gen-config-catalog.ts:393-479 | The walk answers missing exactly when the unguarded walk ends without repeating a visit and no choice of branches provides the path; without a repetition it answers found exactly when the path is provided |
| ConfigMeaning.DefiniteAnswers | harness/scripts/gen-config-catalog.ts:381-393 | A found path exists if `keyof` means its operand, however unresolved types are filled in, and under every filling exactly when some derivation uses no hole and crosses no `keyof`; a missing path exists under no filling exactly when the unguarded walk leaves it no possibility by way of a `keyof` or a member passed over |
| ConfigMeaning.FoundAlways | harness/scripts/gen-config-catalog.ts:381-393 | In a program without `keyof` a found path exists under every filling |
| ConfigMeaning.KeyofFound | harness/scripts/gen-config-catalog.ts:456 | An alias of `keyof` a type with a property answers found for the property, which not every filling provides |
| ConfigMeaning.SharedGuardHidesMissing | harness/scripts/gen-config-catalog.ts:398-402 | On a diamond of interfaces the shared visited set answers unknown for a member no filling provides |
| ConfigMeaning.SkippedMethodMissing | harness/scripts/gen-config-catalog.ts:411-424 | A method is reported missing although every filling provides it |
| ConfigMarks.WalkGrows | harness/scripts/gen-config-catalog.ts:393-479 | The keys seen and marked only grow along the walk and with the nested calls allowed, and an answer marks what it has visited |
| ConfigMarks.WalkAnswers | harness/scripts/gen-config-catalog.ts:393-479 | Given nested calls for each bounded key not yet seen, the walk of a type whose marks are bounded answers |
| ConfigMarks.EndsExactlyIfMarksBounded | harness/scripts/gen-config-catalog.ts:395-402 | For every program, the walk ends exactly when the keys it marks, however many nested calls are allowed, are bounded in length |
| ConfigEnds.MarksTraced | harness/scripts/gen-config-catalog.ts:393-479 | Every key the walk of a type marks is of a declaration reached through calls with a path of that length |
| ConfigEnds.EndsIfBounded | harness/scripts/gen-config-catalog.ts:395-402 | The walk ends, recursive types included, when the paths it can come to are bounded in length |
| ConfigEnds.TameCalls | harness/scripts/gen-config-catalog.ts:457-460 | What a ranked type calls, with the path it calls it with, stays within the type's bound |
| ConfigEnds.TameEnds | harness/scripts/gen-config-catalog.ts:395-402 | When some rank is raised by no cycle of references, steps used up and added taken together, the walk of every path ends |
| ConfigEnds.OwnPropertyTypeTame | harness/scripts/gen-config-catalog.ts:411-418 | A property typed by an indexed access into its own interface has such a rank |
| ConfigEnds.NestedIndexEnds | harness/scripts/gen-config-catalog.ts:411-418 | A property typed by a nested indexed access into its own interface has no such rank, and its walk ends all the same |
| ConfigDiverges.WalkSettles | harness/scripts/gen-config-catalog.ts:393-479 | A walk that ends has visited all that each of its visits calls |
| ConfigDiverges.EndsExactlyIfBounded | harness/scripts/gen-config-catalog.ts:395-402 | When no declaration is reached with two paths of one length, the walk ends exactly when the paths it can come to are bounded in length |
| ConfigDiverges.ConflatedEnds | harness/scripts/gen-config-catalog.ts:399-400 | On a union of two accesses into one interface the guard, which does not tell the two paths apart, ends a walk whose paths are not bounded |
| ConfigDiverges.ClimbingDiverges | harness/scripts/gen-config-catalog.ts:398-402 | A walk that comes, through aliases, parentheses, operators, wrappers, unions and intersections, to a cycle of them with a string-indexed access never ends |
| ConfigDiverges.IndexedCycleDiverges | harness/scripts/gen-config-catalog.ts:457-460 | An alias that indexes itself is followed without end |
| ExportSearch.LeadsToIs | harness/scripts/gen-config-catalog.ts:329-339 | A clause leads to what it re-exports: the same name for all, or the original of the first element exported under the name |
| ExportSearch.Search.FindExported | harness/scripts/gen-config-catalog.ts:323-343 | One call of the search finds the first declaration in clause order, or nothing is found through the place and everything that follows it has been seen but for the places under way |
| ExportSearch.FindExportedTypeDecl | harness/scripts/gen-config-catalog.ts:321-345 | The search ends however the re-exports circle; when the files met can be read it finds a declaration exactly when a place that declares the name is reached through the export clauses, and it is the one that no route sooner in clause order comes to |
| ComposedKeys.Folding.FoldComposed | harness/scripts/gen-config-catalog.ts:834-849 | One call of the fold lists the keys of each package newly seen once, and keeps what is seen closed under composing but for the packages being folded |
| ComposedKeys.FoldSchema | harness/scripts/gen-config-catalog.ts:833-850 | The fold ends on circles and gives the keys of exactly the packages reached by composing, each once, and exactly the composed packages that were not collected |
| ConfigKeys.ParsePath | harness/scripts/gen-config-catalog.ts:299-312 | Each dot-separated part becomes a member step followed by one element step for each `[]` mark |
| ConfigKeys.ParseThenRender | harness/scripts/gen-config-catalog.ts:299-312 | Every path is the rendering of the keys parsed from it |
| ConfigKeys.StepsReadBack | harness/scripts/gen-config-catalog.ts:299-312 | The steps of every path spell it, and no member name in them holds a dot or ends in `[]` |
| ConfigKeys.RenderThenParse | harness/scripts/gen-config-catalog.ts:299-312 | Keys whose names hold no dot and do not end in `[]` are parsed back from their rendering |
| ConfigKeys.EnoughForAll | harness/scripts/gen-config-catalog.ts:856-860 | When the walk of each key ends, one number of nested calls suffices for all of them |
| ConfigKeys.MissingKeys | harness/scripts/gen-config-catalog.ts:856-860 | A key is reported exactly when the unguarded walk ends without repeating a visit and no choice of union branches provides the key's path, and wrongly so exactly when a `keyof` crossed or a member passed over leaves it possible |
| ConfigKeys.CheckSchema | harness/scripts/gen-config-catalog.ts:828-860 | The keys reported are exactly those that must be, among the keys of the package and of all it composes |
| PasteNames.MeaningIs | harness/scripts/gen-config-catalog.ts:150-175 | A name means what it does in the file at the end of the files that import it from one another under its own name, and has no end exactly when there is no such file |
| PasteClosure.HandleKeeps | harness/scripts/gen-config-catalog.ts:771-814 | One turn of the worklist keeps its invariant, or records a violation |
| PasteClosure.LeftShrinks | harness/scripts/gen-config-catalog.ts:797-814 | A turn either pastes a declaration of a new name or queues nothing, so the worklist ends on cyclic types |
| PasteClosure.HandleClean | harness/scripts/gen-config-catalog.ts:771-804 | While some assignment of one meaning per name fits the closure, a turn records no violation and stays part of it |
| PasteClosure.HandleJustified | harness/scripts/gen-config-catalog.ts:771-804 | A turn reports only violations that references of the closure give cause for |
| PasteClosure.HandleFollows | harness/scripts/gen-config-catalog.ts:797-813 | A clean turn goes on with the breadth-first trace of names met and declarations pasted |
| PasteOrder.TakeNew | harness/scripts/gen-config-catalog.ts:803-813 | Pasting a name and queueing what its declaration mentions keeps the trace: names queued in the order met, each first taken where first queued |
| PasteOrder.TracedBreadthFirst | harness/scripts/gen-config-catalog.ts:768-814 | At the end the names are in the order met: the config type first, each other name mentioned by an earlier declaration, and names first mentioned earlier standing earlier |
| PasteClosure.CollectPastes | harness/scripts/gen-config-catalog.ts:760-814 | Ends without violation exactly when one meaning per name fits the whole closure, and then records exactly the closure, pasted in the breadth-first order of first mention from the config type; every violation is one the closure gives cause for; an ending failure comes from a name of the closure |
| PasteClosure.NamesResolve | harness/scripts/gen-config-catalog.ts:766-804 | In a clean paste a name referenced by a pasted declaration means, from that declaration's file, the one declaration or import recorded under it |
| Decimal.NumeralValue | harness/scripts/client-build-environment.ts:341-343 | A number's decimal numeral has the number as its value |
| Decimal.ParseNumeral | harness/scripts/benchmark-npm-resolution.ts:158 | Parsing a numeral, whatever non-digit follows, gives the number back |
| Decimal.SpacesAre | harness/scripts/benchmark-npm-resolution.ts:98 | The characters skipped as spaces are the white space and line ends of JavaScript |
| Decimal.ParseSigned | harness/scripts/benchmark-npm-resolution.ts:158 | A numeral after a plus or a minus sign parses to the number or its negative |
| Decimal.ParseNumberText | harness/scripts/benchmark-npm-resolution.ts:98-99 | The text of every number, negative ones included, parses to the number, whatever spaces stand before it |
| Decimal.AcceptsExactlyNumerals | harness/scripts/benchmark-npm-resolution.ts:96-103 | An option is accepted exactly when it is the numeral of a positive safe integer, which is the result |
| ArtifactDigest.ClientArtifactStream | harness/scripts/client-build-environment.ts:336-346 | Refuses an empty build; otherwise counts the artifacts and hashes their length-prefixed stream |
| ArtifactDigest.DecodeStream | harness/scripts/client-build-environment.ts:338-345 | The stream decodes to the artifacts it was made from, whatever bytes paths and contents hold |
| ArtifactDigest.StreamInjective | harness/scripts/client-build-environment.ts:338-345 | Lists of artifacts with the same stream are equal |
| ArtifactDigest.UnnoticedChangeIsCollision | harness/scripts/client-build-environment.ts:321-326 | Changed artifacts that still match the build record are two different byte strings with one hash |
| GitBatch.IndexOfIsFirst | harness/scripts/benchmark-npm-resolution.ts:154 | The search for the header's end finds the first line break at or after the offset |
| GitBatch.ReadGitFiles | harness/scripts/benchmark-npm-resolution.ts:151-168 | The loop with a moving offset reads one header and body for each path, or stops at the first error |
| GitBatch.OneReadsBack | harness/scripts/benchmark-npm-resolution.ts:154-166 | One written object is read back and the offset lands on the next header; a missing one is refused by name |
| GitBatch.BatchReadsBack | harness/scripts/benchmark-npm-resolution.ts:151-168 | Reading inverts writing for any contents, including line breaks and header-like bytes |
| GitBatch.CutBatchRefused | harness/scripts/benchmark-npm-resolution.ts:155-164 | A batch cut short at any byte is refused |
| VariantMatching.TakeFree | harness/scripts/persistence-changes.ts:326-329 | A former variant takes a free current one and no other loses its own |
| VariantMatching.TakeOver | harness/scripts/persistence-changes.ts:326-329 | A former variant takes a current one whose owner has moved on, and no other loses its own |
| VariantMatching.NoMatching | harness/scripts/persistence-changes.ts:322-335 | When a variant explores all it can without finding a place, more former variants share the current ones it met than there are of those, so there is no matching |
| VariantMatching.Matcher.Assign | harness/scripts/persistence-changes.ts:322-333 | Places the variant without displacing another for good, or has explored all that alternating paths reach and changed no owner |
| VariantMatching.MatchUnionVariants | harness/scripts/persistence-changes.ts:320-340 | Gives each former variant a candidate of its own when that is possible, and nothing exactly when it is not |
| ConcurrentMap.SettleInv | harness/scripts/benchmark-next-package-dependency.ts:195 | Storing a result, or a rejection that ends its worker, keeps the invariant |
| ConcurrentMap.LoopHeadInv | harness/scripts/benchmark-next-package-dependency.ts:190-194 | Claiming an index and starting its operation, or returning, keeps the invariant |
| ConcurrentMap.RunsInv | harness/scripts/benchmark-next-package-dependency.ts:187-197 | Every step of every interleaving keeps the invariant |
| ConcurrentMap.InFlightBound | harness/scripts/benchmark-next-package-dependency.ts:189 | At any time no operation has been started twice and at most the smaller of jobs and inputs are in flight |
| ConcurrentMap.CompletedRun | harness/scripts/benchmark-next-package-dependency.ts:187-198 | In a completed run each result is its own index's; an operation has rejected exactly if one of those started does; without a rejection every index has a result exactly when no input is undefined; and all do exactly when no input is undefined and no operation rejects, each having run once |
| ConcurrentMap.Progress | harness/scripts/benchmark-next-package-dependency.ts:189-197 | A run that has not completed can go on |
| ConcurrentMap.RunsEnd | harness/scripts/benchmark-next-package-dependency.ts:190-196 | No run has more steps than the inputs plus two for each worker |
| BenchmarkCandidates.VisitKeeps | harness/scripts/benchmark-next-package-dependency.ts:148-157 | Reaching a package and queueing what it installs keeps the search invariant |
| BenchmarkCandidates.SearchEnds | harness/scripts/benchmark-next-package-dependency.ts:142-158 | When the queue is exhausted exactly the reachable packages have been reached |
| BenchmarkCandidates.Search | harness/scripts/benchmark-next-package-dependency.ts:140-158 | The search ends although its queue grows and repeats names, and reaches each package with a manifest on an installed path exactly once |
| BenchmarkCandidates.CandidateIs | harness/scripts/benchmark-next-package-dependency.ts:159-164 | The filter keeps exactly the released packages outside the policy whose published manifest has a peer other than Cordis |
| BenchmarkCandidates.DiscoverBenchmarkCandidates | harness/scripts/benchmark-next-package-dependency.ts:134-165 | The result is the sorted list of reachable release packages outside the policy with a peer other than Cordis |
| MarkdownLines.HtmlCommentRanges | harness/scripts/markdown.ts:218-235 | Each line gets the columns of the comments that touch it, and lines no comment touches get none |
| MarkdownLines.OnLineMeaning | harness/scripts/markdown.ts:223-227 | A comment is recorded for a line exactly when it overlaps the line or crosses an empty one, in the columns it covers |
| MarkdownLines.HasRenderedTextOutsideComments | harness/scripts/markdown.ts:238-248 | A line with ranges is rendered exactly when skipping them in order of their starts leaves text |
| MarkdownLines.VisibleMeaning | harness/scripts/markdown.ts:240-247 | That text is there exactly when some non-space column lies outside every range, overlapping and nested ones included |
| MarkdownLines.DroppedMeaning | harness/scripts/markdown.ts:218-248 | A line is dropped exactly when a comment overlaps it and every non-space character on it lies inside a comment |
| MarkdownLines.LineInSource | harness/scripts/markdown.ts:218-233 | The running line offset is where the line stands in the source |
| MarkdownLines.MarkdownProseLines | harness/scripts/markdown.ts:255-271 | The lines kept are those outside code blocks of which more than comments is left, in order with their numbers |
| MarkdownDerivatives.SiblingIs | harness/scripts/paired-markdown-derivatives.ts:16-18 | The sibling of a path is the one with the `.zh` before its extension taken off, and there is one exactly when the path ends so |
| MarkdownDerivatives.PartitionPairedMarkdownDerivatives | harness/scripts/paired-markdown-derivatives.ts:30-63 | Blocks are split, in order, by whether their document repeats its unsuffixed sibling block for block |
| MarkdownDerivatives.DerivativeDocs | harness/scripts/paired-markdown-derivatives.ts:43-56 | The set of documents found holds a block's document exactly when it repeats its sibling |
| MarkdownDerivatives.CoveredByPrimary | harness/scripts/paired-markdown-derivatives.ts:20-25 | However many suffixes are stacked, a derivative's blocks have position by position the fingerprints of a primary ancestor document |
| MarkdownDerivatives.SplitConserves | harness/scripts/paired-markdown-derivatives.ts:58-62 | Every block lands in exactly one of the two parts |
| SessionFormats.ChainIffCounts | harness/scripts/gen-session-format-catalog.ts:126-135 | The counts, the upper bound and the total together hold exactly when sorted declaration i goes from version i to i + 1, for every version below the current one |
| SessionFormats.CheckChain | harness/scripts/gen-session-format-catalog.ts:126-135 | The two checks pass exactly on the complete chain; otherwise the first version not declared once is reported, or else a declaration too many |
| SessionFormats.RefusedFor | harness/scripts/gen-session-format-catalog.ts:88-123 | A manifest that is not accepted is refused for the first thing wrong with it, in the order its fields are read |
| SessionFormats.CollectSessionFormatMigrations | harness/scripts/gen-session-format-catalog.ts:82-168 | Succeeds exactly when every manifest is valid, the sorted declarations are the chain, and each is linked to the catalog and its predecessor; then declaration i is that of version i, each field the text its manifest holds under that key, one for each manifest; otherwise reports the first check that fails |
| SessionFormats.ValidManifest | harness/scripts/gen-session-format-catalog.ts:88-123 | A manifest is read as a declaration exactly when it has no unknown member, name, versions and directory say one adjacent pair of versions, the declaration's names are the texts under their keys, and its import path is the package, or the export below it without a leading `./` |
| SessionFormats.CodecBetween | harness/scripts/gen-session-format-catalog.ts:186-197 | Rendered codec v is the target of migration v - 1 and the source of migration v, and the last is the current codec |
| SessionFormats.UsedNamesImported | harness/scripts/gen-session-format-catalog.ts:180-197 | Codecs 0 and 1 are imported from the package of migration 0, codec v from that of migration v - 1, each migration from its own, the restorer and the validator from the last |
| SessionFormats.ImportedNamesUsed | harness/scripts/gen-session-format-catalog.ts:180-197 | The rendered catalog uses every name it imports |
| SessionFormats.NamesApartWhen | harness/scripts/gen-session-format-catalog.ts:180-197 | No name is imported from two packages exactly when the targets and migrations are pairwise apart, the first source is apart from all but the first package's own names, and the current restorer and validator from the names of all packages before |
| SessionFormats.NamesCanClash | harness/scripts/gen-session-format-catalog.ts:126-135 | Two declarations that form the chain and import one name from two packages |
| BundleOwner.OwnerIsNearest | harness/scripts/bundle-input-isolation.ts:62-73 | The uncached lookup answers the name of the nearest ancestor manifest that has one, and none exactly when no ancestor has |
| BundleOwner.BundleInputIsolation.PackageName | harness/scripts/bundle-input-isolation.ts:62-73 | The memoised lookup answers as the uncached one, cached "none" included, and only adds answers for the directory and its ancestors |
| BundleOwner.BundleInputIsolation.Reset | harness/scripts/bundle-input-isolation.ts:18-19 | After a reset the memo agrees with any file tree |
| BundleOwner.Run | harness/scripts/bundle-input-isolation.ts:8-73 | Any run of lookups and resets, the tree changing only at resets, gives the answers of a run without a memo |

## Left out

- ConfigMeaning.DefiniteAnswers: merged declarations and generic parameters that shadow a type name are not in the type trees; what `keyof` yields is a hole; what a method, an accessor or an index signature holds beyond its own name is a hole.
- ConfigKeys.MissingKeys: the resolution of a type name to its declaration (lines 350-380) is a table; of what fills it, only the search through re-exports is modelled.
- ExportSearch.FindExportedTypeDecl: where a specifier leads and what a file declares and exports are inputs; a file that cannot be read ends the script and is a failure result here.
- VariantMatching.MatchUnionVariants: which variants may be matched is an input.
- GateRunner.RunGates: processes, signals, durations and captured output are inputs; which running gate settles first is any given choice; an interruption is noticed at a wait; an optional list that is absent is an empty one.
- ConfigKeys.CheckSchema: finding the schema expression and reading its keys is an input.
- CoveragePartitions.AssignWeightedPartitions: weights are real numbers, so floating-point rounding is not modelled; a bucket is a value in an array rather than a shared object.
- CoveragePartitions.AssignFiles: collecting the inventory and reading recorded durations are inputs.
- PackageGraph.TopoSort: the direction of the group order is stated for lists no longer than the greatest safe integer, which a JavaScript array never exceeds; `localeCompare` is a given comparator under which only equal strings tie; a locale that ties distinct names is outside the model.
- ComponentTraversal.Traversal.Pop: packages are compared by value, where the script compares object identity; the two agree because the stack holds no name twice.
- PasteClosure.CollectPastes: the pasted text, the member documentation check (one flag per declaration) and the schema walk are not modelled; a file that cannot be read or a circle of imports ends the script and is a failure result here.
- ArtifactDigest.UnnoticedChangeIsCollision: the hash is an arbitrary function; file discovery and sorting are inputs.
- GitBatch.ReadGitFiles: the subprocess and UTF-8 decoding are parameters; decoding is assumed to read ASCII bytes as themselves.
- MarkdownLines.HtmlCommentRanges: the Markdown parser and the search for comment delimiters inside its nodes are not part of this model; comments are given offset ranges.
- MarkdownLines.MarkdownProseLines: the lines of code blocks are a given set.
- SessionFormats.CollectSessionFormatMigrations: which of several unknown members an error names is not modelled; a file's text is the JSON value it holds.
- BundleOwner.BundleInputIsolation.PackageName: a directory is its list of segments below one root, and a manifest is the name it declares, if any.
- The gate's label in error messages, rendered catalog text and curated tables: data and formatting.
- The coordinator's child processes, timeouts and report merging: input and output.
- Manifest policy checks and package invariants: independent tests of single fields.
