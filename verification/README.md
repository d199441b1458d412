# writ: a verified model

writ is a replicated log of operations. Each writer appends immutable commits to a chain of their own, every
reader folds the causal graph of commits into the same objects, and the result is cached and kept up to date
incrementally. This project models the parts of writ on which those promises rest, and proves them:

* **Order and fold** (`CausalGraph`, `EffectiveTimes`, `TotalOrder`, `Reachability`, `FoldRules`, `Strategies`,
  `Fold`, `FoldLaws`). Effective times by depth-first search, Kahn's algorithm under (effective time, id),
  reachability over shared marks, quarantine, and nine merge strategies. The fold is a function of the *set* of
  ops: Go's map order and the order of the input are arbitrary choices in the methods, and provably do not show.
  `OpBodies`, `OrderMeaning`, `FoldMeaning` and `FoldSequence` read the result off the ops: their types, parents and
  bodies alone say who comes before whom, which op counts, and what each strategy leaves under a key.
* **The engine's fast form of the same** (`EngineOrder`, `EngineReach`). One pass that works out effective times as
  it emits ops from a heap, and one forward pass that builds the happens-before oracle. It refines the order above,
  and on a cycle it names exactly the ops a cycle holds up.
* **Identifiers** (`CanonicalOrder`, `Composition`). The Canonical Ordering and Composition Algorithms of the
  Unicode Standard (version 15.0, section 3.11, definitions D108, D109 and D115), sorted by two different sorts.
  Two spellings get one normal form exactly when they are canonically equivalent.
* **Cache** (`Enumerate`, `Refresh`, `CacheRuns`). The walk from the current tips down to the cursors, refolding
  of touched objects, and the anchor-resolution table, against the tables of a cold rebuild, over all runs.
* **Appending** (`Append`, `Frontier`, `OrderedOps`, `SectionFold`, `DocumentFold`). The compare-and-swap loop under
  every interleaving, the observed frontier, the typed folds of sections and documents from ops listed in any order,
  and what an op appended on the frontier does to the folded object. `FrontierMeaning`, `TypedReading`,
  `SectionMeaning` and `DocumentMeaning` read that off the bodies.
* **Sections** (`FractionalIndex`, `Sections`). Position keys that can be subdivided forever, and where adding or
  moving a section puts it in the document's listing.
* **Comments and events** (`Ladder`, `LadderText`, `Threads`, `Watch`). Where an anchored comment is in another version of the
  files, the reply forest with its cycles cut, and the bounded event stream with its overflow latch.

`Sorting`, `Strings` and `Options` hold what the others need of Go's `sort` package, string order and absent values.
A method is proved against a description of its result that does not repeat its body, most often a predicate that at
most one result satisfies; lemmas beside it say what the description means to a reader who has only the input: the
commits, bodies, lines or comments themselves. `dafny verify dfyconfig.toml` checks the project.

The model follows the code. Four things the code does are worth knowing:

* A ref's first-parent chain is exactly the writer's appends only if the first append named no causal parents;
  otherwise its first causal parent takes the chain parent's place (`Append.ChainEndsExactly`).
* A refresh does not always leave what a rebuild would. An op commit fetched only after the cache recorded a tip
  that leads to it is found when the walk from a moved tip meets it by another path (`CacheRuns.AwaitedCommitFound`),
  and is otherwise missed (`CacheRuns.AwaitedCommitMissed`) until a later walk meets it or the cache is rebuilt.
  `CacheRuns.RefreshEqualsRebuild` gives the exact condition for every refresh of every run.
* After an overflow a subscriber is told to re-query not "once capacity becomes available" (`engine/watch.go:87-88`)
  but only by the next emit that finds room; one that drains its channel with the gap open does not know of the loss
  (`Watch.DrainedKnowsAll`, `Watch.Subscriber.Receive`).
* Only ranges of more than 64 lines have their context elided (`spec/anchors.md:178-181`); the ladder's indexing is
  safe for an elided context as soon as the range has 32 lines, and that is all the model asks (`Ladder.Readable`).

## Model

| member | source | states |
|---|---|---|
| EffectiveTimes.EffectiveTimesInSet | spec/reffold.go:429-477 | terminates on every input; succeeds exactly when the restricted graph has no directed cycle, and then gives every op the maximum time over itself and all its in-set ancestors |
| EffectiveTimes.Search.Visit | spec/reffold.go:437-468 | one visit memoises right times only, and an error names a real cycle through the ops under visit |
| EffectiveTimes.EffectiveTimeUnique | spec/reffold.go:429-477 | the map of effective times is determined by the graph, so map iteration order cannot show |
| EffectiveTimes.EffectiveTimeMonotone | spec/reffold.go:416-428 | effective times never decrease along causality |
| TotalOrder.Order | spec/reffold.go:483-559 | an error exactly on a cycle; otherwise the one canonical order of the object's graph |
| TotalOrder.CanonicalOrderUnique | spec/reffold.go:479-482 | a graph has only one canonical order, for every input permutation and every map iteration order |
| TotalOrder.LexicographicallyLeast | spec/reffold.go:517-553 | at the first place where another linear extension differs, the canonical order has the smaller (effective time, id) |
| TotalOrder.TimesNeverDecrease | spec/reffold.go:479-482 | along the canonical order effective times never decrease |
| TotalOrder.PickBest | spec/reffold.go:526-538 | the scan finds the ready op that is least under (effective time, id) |
| OrderMeaning.ListsAll | spec/reffold.go:483-500 | the object's ops are listed, all of them and no other, each once |
| OrderMeaning.ParentsComeFirst | spec/reffold.go:500-516 | an op named as a parent comes before the op that names it |
| OrderMeaning.TiesByTimeThenId | spec/reffold.go:526-538 | an op listed before another whose parents were all out has the earlier effective time, or the same and the smaller id |
| OrderMeaning.RootsByTimeThenId | spec/reffold.go:517-538 | of two ops without parents in the object the one with the earlier clock comes first, and at the same clock the one with the smaller id |
| OrderMeaning.TimeFromParents | spec/reffold.go:416-428 | an op's effective time is the latest of its own clock and the effective times of its parents in the object |
| Reachability.BuildReachabilityMap | spec/reffold.go:562-597 | for every op exactly its strict causal past, on cyclic graphs too |
| Reachability.Oracle.Dfs | spec/reffold.go:574-588 | one search adds only ancestors of its target and leaves the marks it made closed under parents |
| Reachability.MarksArePast | spec/reffold.go:574-595 | sound marks that are closed under parents are the whole strict past |
| EngineOrder.OrderWithTStar | engine/internal/fold/order.go:89-175 | fails at the first op of another object or with a repeated id, and otherwise exactly on a cycle; else lists the canonical order, each op with the maximum time over itself and its ancestors |
| EngineOrder.EmitChild | engine/internal/fold/order.go:140-156 | counting a child down and telling it its parent's time keeps every count, and an op is pushed only when all its parents are out, with its effective time |
| EngineOrder.StuckExact | engine/internal/fold/order.go:159-172 | when the heap runs empty, the ops not emitted are exactly those on a cycle or after one |
| EngineOrder.EngineAgrees | engine/internal/fold/order.go:61-71 | on valid ops the engine's order and the specification's agree: both fail, or both give the same order |
| EngineOrder.OutcomeUnique | engine/internal/fold/order.go:89-175 | the ops determine the order with every time, the first fault, or the list of ops a cycle holds up |
| EngineReach.BuildReachability | engine/internal/fold/reach.go:19-74 | the oracle of one forward pass answers happens-before for every pair of ids, listed or not |
| EngineReach.RowComplete | engine/internal/fold/reach.go:38-50 | the rows of an op's listed parents, with the parents themselves, are its whole strict past |
| Strategies.ReduceLww | spec/reffold.go:933-949 | the value of the last non-null write in total order, normalized; no key without one |
| Strategies.ReduceCreateOnce | spec/reffold.go:951-963 | the first non-null write in total order |
| Strategies.ReduceSetUnion | spec/reffold.go:965-1014 | the sorted union of every write's cleaned items |
| Strategies.ReduceObservedRemove | spec/reffold.go:1016-1112 | an item is present exactly when some add of it strictly precedes no remove of it, so concurrent and same-op adds win |
| Strategies.ObservedRemoveUnordered | spec/reffold.go:1020-1075 | the arm that walks the unordered input gives the same for every listing of the same writes |
| Strategies.ReduceAppend | spec/reffold.go:1114-1141 | all entries in total order |
| Strategies.ReduceTombstone | spec/reffold.go:1143-1180 | deleted exactly when some delete strictly precedes no undelete |
| Strategies.TombstoneUnordered | spec/reffold.go:1146-1165 | the same verdict for every listing of the same writes |
| Strategies.ReduceLattice | spec/reffold.go:1182-1217 | the highest-ranked value written |
| Strategies.ReduceKeyedLww | spec/reffold.go:1219-1295 | one register a key tuple, each holding its last write, listed in key order, whenever no key begins with another |
| Strategies.ReduceMultiValue | spec/reffold.go:1297-1346 | exactly the texts of causally maximal writes, one as itself and several as a sorted list |
| Strategies.MultiValueUnique | spec/reffold.go:1297-1346 | the register's value is determined by the set of writes and the graph |
| OpBodies.SidesMean | spec/reffold.go:1033-1058 | which items an op adds and removes, member by member of its body and by its type |
| OpBodies.CountsMeans | spec/reffold.go:637-660 | an op is reduced exactly when some rule governs it and every rule that does can consume its body, by the table of strategies and values |
| OpBodies.SawMeans | spec/reffold.go:562-597 | happening before is being reached by following parents inside the object |
| FoldMeaning.UnionMeans | spec/reffold.go:965-1014 | set-union from bodies: the key is there when some op writes it, and lists every non-empty item any op carries, sorted |
| FoldMeaning.ObservedMeans | spec/reffold.go:1016-1112 | set-observed-remove from bodies: lists every non-empty item that some op adds and no op whose author had seen that one removes |
| FoldMeaning.TombstoneMeans | spec/reffold.go:1143-1180 | tombstone from types and bodies: true exactly when the author of no undelete had seen some delete |
| FoldMeaning.LatticeMeans | spec/reffold.go:1182-1217 | lattice from bodies: the element written that is declared last |
| FoldMeaning.MultiValueMeans | spec/reffold.go:1297-1346 | multi-value from bodies: the texts nobody wrote over after seeing them, one as itself and several sorted |
| FoldSequence.LwwMeans | spec/reffold.go:933-949 | lww from bodies: the value that is not null of the last op in total order, and in it of the last rule, normalized if that rule says so |
| FoldSequence.CreateOnceMeans | spec/reffold.go:951-963 | create-once from bodies: the first such value |
| FoldSequence.ValueThere | spec/reffold.go:933-963 | under both the key is there exactly when some op carries a value that is not null |
| FoldSequence.AppendMeans | spec/reffold.go:1114-1141 | append from bodies: the entries of every op in total order, and a written empty list is a list |
| FoldSequence.KeyedMeans | spec/reffold.go:1219-1295 | keyed-lww from bodies: each register written is listed with the last value written to it, an approval speaking for its author |
| FoldSequence.KeyedOnly | spec/reffold.go:1277-1294 | nothing else is listed |
| FoldSequence.KeyedSorted | spec/reffold.go:1281-1289 | registers come in the order of their keys, each once |
| FoldSequence.FirstRuleDecides | spec/reffold.go:887-932 | where the rules of a key differ in strategy the first declared one that some op touches decides how its writes merge, and a key no op touches is not there |
| FoldMeaning.UnknownMeans | spec/reffold.go:875-885 | recorded as unknown are exactly the object's ops that do not count, with commit, type and version |
| Fold.Quarantine | spec/reffold.go:860-885 | splits the total order into the ops that reduce and the records of those that do not |
| Fold.MatchRules | spec/reffold.go:887-914 | a rule feeds its state key exactly when some op that is not rejected makes it relevant, in declaration order |
| Fold.Fold | spec/reffold.go:820-1350 | an error exactly on a causal cycle; otherwise the fold of the set of ops, arm by arm |
| Fold.FoldUnique | spec/reffold.go:820-1350 | a set of ops has only one fold |
| Strings.TupleStrictTotal | spec/reffold.go:1281-1289 | the comparison of key tuples orders them strictly exactly when no tuple begins with another |
| Fold.UniformCompare | spec/reffold.go:1243-1263 | rules that feed one keyed-lww state key with keys of one length write only comparable keys, whatever the ops |
| FoldLaws.PermutationInvariant | spec/reffold.go:820-1350 | State and UnknownOps are the same for every permutation of the ops, across all nine strategies |
| FoldLaws.QuarantineParts | spec/reffold.go:853-885 | reduced and unknown ops partition the total order, each in order |
| FoldLaws.QuarantineNonInterfering | spec/reffold.go:853-885 | replacing a quarantined op's body by any other quarantined body changes nothing in the result |
| CanonicalOrder.SortByCcc | spec/reffold.go:307-338 | the run is sorted by class in place, the rest untouched, and the text stays canonically equivalent |
| CanonicalOrder.InsertMark | spec/reffold.go:312-319 | shifting one mark back is a chain of exchanges of reorderable pairs |
| CanonicalOrder.CountingSort | spec/reffold.go:322-337 | histogram, offsets and distribution give the run stably sorted |
| CanonicalOrder.PlaceNext | spec/reffold.go:332-335 | putting a mark at its class's next place keeps every class's marks already put, in order |
| CanonicalOrder.SortsAgree | spec/reffold.go:307-338 | a run has one stable sort, so the two sorts agree at every length |
| CanonicalOrder.Order | spec/reffold.go:283-296 | the result is what exchanging reorderable pairs ends with, and every starter stays where it was |
| CanonicalOrder.OneCanonicalOrdering | spec/reffold.go:273-282 | any maximal chain of exchanges of reorderable pairs (D109) ends with the same text: the one ordered, equivalent text |
| CanonicalOrder.OrderUnique | spec/reffold.go:273-282 | two ordered texts that are equivalent are equal |
| CanonicalOrder.OrderShown | spec/reffold.go:283-296 | ordered text has the same marks, every starter where it was, and classes that ascend between starters |
| Composition.FlagsDecide | spec/reffold.go:361-370 | the two flags decide exactly D115's blocking by any mark kept in between |
| Composition.Compose | spec/reffold.go:353-385 | composes each mark that D115 does not block onto the base and keeps the others in order |
| Composition.TwoMarks | spec/reffold.go:353-385 | a mark composes onto the starter before it exactly when the tables have the composite |
| Composition.ThreeMarks | spec/reffold.go:361-370 | past a mark that stays, another composes exactly when the first is no starter and has the smaller class |
| Composition.CompositionKeepsMeaning | spec/reffold.go:340-385 | what is composed decomposes to text canonically equivalent to what was given |
| Composition.NormalizeSegment | spec/reffold.go:240-271 | decomposes, orders and composes a segment of text into its normal form, and returns malformed bytes untouched |
| Composition.SameFormIffEquivalent | spec/reffold.go:240-271 | two segments have the same normal form exactly when they are canonically equivalent text or the same malformed bytes |
| Composition.DecomposedMeans | spec/reffold.go:255-271 | a text decomposes rune by rune |
| Composition.SomeTables | spec/reffold.go:387-403 | there are tables that meet what is required of them |
| Enumerate.IsAncestor | engine/dag/enumerate.go:202-231 | true exactly when the candidate is the tip or an ancestor of it, with missing commits having no edges |
| Enumerate.Analyze | engine/dag/enumerate.go:65-104 | which tips start the walk, where it stops, and that a ref is rewound exactly when its old tip is not an ancestor of its new one |
| Enumerate.Walk | engine/dag/enumerate.go:106-150 | visits each fresh commit exactly once and nothing else |
| Enumerate.OldPlusFresh | engine/dag/enumerate.go:61-150 | with no vanished or rewound ref, what is below the old tips and what the walk visits are together exactly what is below the current tips |
| Enumerate.EnumerateSince | engine/dag/enumerate.go:49-199 | the ops of exactly the fresh commits, listed by object in id order; every other fresh commit with the reason it was rejected; the decoded count; the current tips as cursors; the rewound refs, sorted |
| Enumerate.EnumerationUnique | engine/dag/enumerate.go:49-199 | store, refs and cursors determine everything returned |
| Refresh.Materialize | engine/projection/materialize.go:19-27 | every touched object is refolded from all its stored ops, no other row changes, and it fails only if a reducer does |
| Refresh.ResolveAgainst | engine/projection/materialize.go:668-745 | every anchored comment gets its entries at this commit, entries elsewhere stay |
| Refresh.MaterializeAnchors | engine/projection/materialize.go:615-748 | the table equals full recomputation over every anchored comment and every tip, and it fails exactly when some anchor cannot be resolved |
| Refresh.Projection.Refresh | engine/projection/refresh.go:71-189 | for a cache that may lack ops below its tips: succeeds exactly when the ops it ends with can be read, and then leaves the tables of a cold rebuild exactly when it rebuilt or its walk met every op missed; otherwise changes nothing |
| Refresh.NextOpsExact | engine/projection/refresh.go:132-179 | stored and fresh ops together are the ops below the current tips exactly when the walk meets every op commit the cache missed |
| Refresh.Projection.Rebuild | engine/projection/refresh.go:265-331 | the same from scratch |
| Refresh.ColdUnique | engine/projection/refresh.go:265-331 | current refs and code tips determine the tables |
| Refresh.DeltaFolds | engine/projection/refresh.go:170-179 | objects outside the delta need no refold |
| Refresh.ColdRows | engine/projection/refresh.go:309-320 | after a rebuild an object has a row exactly when a commit at or below a tip carries an op of it, folded from all those ops and no other |
| Refresh.RefreshedRows | engine/projection/refresh.go:170-179 | after a refresh each row is folded from exactly its object's ops: those stored before and those the walk met, or all below the tips after a fall-through |
| Refresh.ColdResolutions | engine/projection/materialize.go:615-748 | an anchored comment has at each code tip exactly the sides its anchor resolves to |
| Refresh.ColdResolutionsOnly | engine/projection/materialize.go:570-607 | no other entry is there |
| CacheRuns.AlwaysCoherent | engine/projection/refresh.go:71-189 | in a run where no arriving commit was awaited, the cache at every point holds all ops below the tips it recorded |
| CacheRuns.RefreshEqualsRebuild | engine/projection/refresh.go:71-331 | in every run, whatever arrives when: after a refresh the tables are those of any cold rebuild exactly when the refresh rebuilt or its walk met every op commit missed before |
| CacheRuns.AlwaysHonest | engine/projection/refresh.go:71-189 | at every point of every run, every stored op is below the recorded tips, and rows and resolutions are exactly those of the stored ops |
| CacheRuns.MissedExact | engine/projection/refresh.go:132-179 | after a refresh an op is missed exactly when it was before, chains only moved forward, and the walk did not meet it |
| CacheRuns.SettledRefresh | engine/projection/refresh.go:71-331 | in a run where no arriving commit was awaited, every refresh leaves what a rebuild would |
| CacheRuns.RunGoesOn | engine/projection/refresh.go:71-331 | a run starts with an empty cache and goes on by any event |
| CacheRuns.EventsCanHappen | engine/projection/refresh.go:71-331 | commits may arrive, refs may be set to anything, and a refresh or rebuild may leave whatever it promises |
| CacheRuns.ArrivalExact | engine/dag/enumerate.go:78-82 | arriving op commits leave the ops below the recorded tips what they were exactly when none was awaited there |
| CacheRuns.AwaitedCommitMissed | engine/dag/enumerate.go:78-82 | a concrete late parent below an unmoved tip, which the next refresh loses |
| CacheRuns.AwaitedCommitFound | engine/dag/enumerate.go:106-150 | a concrete late parent that the walk from a moved tip finds, so nothing is lost |
| Append.ChainIsHistory | engine/dag/append.go:61-105 | under every interleaving the ref's first parents are exactly the successful appends, last first, then what the first was built on |
| Append.ChainEndsExactly | engine/dag/append.go:67-75 | nothing follows exactly when the first append named no causal parents |
| Append.SuccessesDistinct | engine/dag/append.go:88-105 | distinct successes are distinct commits |
| Append.FailureIsCharged | engine/dag/append.go:94-110 | a lost swap means other processes, and not this one, succeeded since the read |
| Append.ExhaustionMeansContention | engine/dag/append.go:61-112 | giving up takes at least sixteen successes of other processes during the call |
| Append.AppendGoesThrough | engine/dag/append.go:61-93 | left alone, a call moves the ref to a commit on the tip it found and its causal parents, and returns it |
| Append.SwapLoses | engine/dag/append.go:94-110 | with the ref moved since it was read a call reads again, and after its sixteenth attempt returns empty-handed |
| Append.CallFails | engine/dag/append.go:97-105 | any other error ends the call and leaves the ref alone |
| Append.RunGoesOn | engine/dag/append.go:61-112 | a run starts with nothing appended and goes on by any step of any process |
| Frontier.FrontierOf | engine/projection/query.go:1177-1222 | the sorted list of the ops no stored op names as a parent |
| Frontier.FrontierIsMaximal | engine/projection/query.go:1175-1176 | those are the causally maximal ops |
| Frontier.ReachesFrontier | engine/projection/query.go:1175-1176 | every op of the object is below or on the frontier |
| Frontier.AppendedComesLast | engine/projection/query.go:1177-1222 | an op appended on the frontier is last in the total order whatever its clock says, and the others keep their order |
| Frontier.AppendedIsFrontier | engine/documents.go:191-195 | an op appended on the frontier is the whole new frontier, so the next op may name it alone |
| Frontier.LwwDominates | spec/reffold.go:933-949 | every last-writer-wins key such an op carries a value for takes the last value it carries, whichever rules wrote it |
| Frontier.MultiValueCollapses | spec/reffold.go:1297-1346 | a conflicted register collapses to exactly the texts such an op carries, and to its text if it carries one |
| FrontierMeaning.KeyRulesMean | spec/reffold.go:887-915 | the rules that feed a key after an append on the frontier are those of that key that some op touches |
| FrontierMeaning.LwwOnTop | spec/reffold.go:933-949 | from the body: a last-writer-wins key takes the last value the op on the frontier carries |
| FrontierMeaning.MultiValueOnTop | spec/reffold.go:1297-1346 | from the body: a conflicted register becomes the one text such an op carries |
| FrontierMeaning.RowsOfList | engine/projection/query.go:1183-1200 | the rows of an object's ops are those the frontier is taken from |
| SectionFold.Apply | engine/state/document.go:210-286 | what one op changes in the section, arm by arm, or that it is set aside |
| SectionFold.Settle | engine/state/document.go:288-318 | the body holds exactly the texts nobody has written over |
| SectionFold.FoldSection | engine/state/document.go:187-322 | from ops in any order: an error exactly for foreign or repeated ops or a cycle; else first non-empty document, last position and title, surviving texts, deletion and the ops set aside |
| SectionFold.SectionConverges | engine/state/document.go:187-322 | two listings of the same ops fold to the same section, or both fail |
| SectionFold.OneSection | engine/state/document.go:187-322 | the ordered ops determine the section |
| SectionFold.BodyStays | engine/state/document.go:288-318 | a body once written is never lost: some text is written over by none |
| SectionMeaning.AcceptedMeans | engine/state/document.go:210-286 | an op is set aside exactly when its type, version or a value of its body is not what a section takes |
| SectionMeaning.FieldsShown | engine/state/document.go:242-281 | position and title are those last written by an op of a type that carries them, and the document is the first one that is not empty |
| SectionMeaning.FieldsUnset | engine/state/document.go:199-206 | what nobody wrote is empty |
| SectionMeaning.BodyShown | engine/state/document.go:288-318 | the body shows exactly the texts of creates and edits that no author wrote over after seeing them |
| SectionMeaning.DeletedShown | engine/state/document.go:282-286 | deleted exactly when some op deletes it |
| SectionMeaning.UnknownShown | engine/state/document.go:210-241 | recorded as unknown are exactly the ops that are set aside |
| SectionMeaning.EditAndMove | engine/documents.go:426-472 | an edit from the frontier settles the body to exactly the text it carries and changes nothing else; a move changes the position to the one it carries and nothing else |
| SectionMeaning.EditedOrMoved | engine/documents.go:426-472 | the same for lists of ops: folding one more op whose parents include every op no other names |
| OrderedOps.AppendOnTop | engine/projection/query.go:1175-1176 | an op appended on the frontier saw every op, is seen by none, and changes no causality among them |
| OrderedOps.OrderAndReach | engine/state/document.go:192-197 | orders the ops and builds an oracle that tells their causality, exactly when they are of one object, with ids of their own and no cycle |
| OrderedOps.SameVerdict | engine/internal/fold/order.go:94-104 | whether ops can be ordered does not depend on how they are listed |
| DocumentFold.ApplyLink | engine/state/document.go:109-123 | a link op writes type and relation to the link of the target it names, and to no other |
| DocumentFold.Labels | engine/state/document.go:148-167 | a label is listed exactly when some add of it was seen by no remove of it |
| DocumentFold.ListLinks | engine/state/document.go:169-179 | every target whose last relation is a real one is listed once, in order of target |
| DocumentFold.FoldDocument | engine/state/document.go:42-183 | from ops in any order: an error exactly for foreign or repeated ops or a cycle; else the last title, the labels, the links and the ops set aside |
| DocumentFold.DocumentConverges | engine/state/document.go:42-183 | two listings of the same ops fold to the same document, or both fail |
| DocumentFold.OneDocument | engine/state/document.go:42-183 | the ordered ops determine the document, so map order cannot show |
| DocumentFold.LabelAndLink | engine/documents.go:170-286 | an op from the frontier does what it says: labels become the old ones less its removes plus its adds, a written link has its relation or is gone, everything else is as it was |
| DocumentMeaning.AcceptedMeans | engine/state/document.go:69-101 | an op is set aside exactly when its type, version or a value of its body is not what a document takes |
| DocumentMeaning.TitleShown | engine/state/document.go:103-107 | the title is the one last written by a create or update |
| DocumentMeaning.LabelsShown | engine/state/document.go:125-167 | listed are exactly the labels some op adds and no op whose author had seen that one removes, sorted |
| DocumentMeaning.LinksShown | engine/state/document.go:109-179 | a link is listed exactly when the last relation written to its target is neither empty nor `none`, with that relation and the last type written |
| DocumentMeaning.LinksInOrder | engine/state/document.go:176-178 | links come in the order of their targets, each once |
| DocumentMeaning.UnknownShown | engine/state/document.go:69-100 | recorded as unknown are exactly the ops that are set aside |
| DocumentMeaning.OpOnTop | engine/documents.go:170-286 | an op from the frontier does what its body says: the title, the labels it adds and removes, the relation of the link it names or its removal |
| DocumentMeaning.OpInList | engine/documents.go:170-286 | the same for lists of ops |
| FractionalIndex.AlphabetIndex | engine/order/order.go:19-21 | indexing the alphabet inverts the character index |
| FractionalIndex.IndexIsOrder | engine/order/order.go:188-199 | index order is byte order |
| FractionalIndex.Validate | engine/order/order.go:52-66 | valid exactly for canonical keys, with the first thing wrong otherwise |
| FractionalIndex.OneExplanation | engine/order/order.go:52-66 | the first thing wrong is one thing, and nothing is wrong exactly with a canonical key |
| FractionalIndex.KeyBelow | engine/order/order.go:98-115 | the key midway below a bound |
| FractionalIndex.KeyAbove | engine/order/order.go:117-132 | the key midway above a bound |
| FractionalIndex.KeyInside | engine/order/order.go:134-160 | the key midway between two bounds |
| FractionalIndex.MidwayUnique | engine/order/order.go:93-161 | one reference description covers every case and fits one key only |
| FractionalIndex.MidwayFits | engine/order/order.go:68-71 | that key is canonical, strictly between the bounds, and at most one character longer than the longer |
| FractionalIndex.Between | engine/order/order.go:72-91 | a key exactly when both bounds are canonical or empty and in order; otherwise the first error |
| FractionalIndex.FirstKey | engine/order/order.go:93-96 | without bounds the key is "V" |
| FractionalIndex.NarrowForever | engine/order/order.go:72-161 | a run of insertions into either half never gets stuck, stays within the first bounds, and costs a character a step at most |
| FractionalIndex.CompareSigns | engine/order/order.go:167-181 | comparison is antisymmetric and zero on equal pairs only |
| FractionalIndex.PairsStrictTotal | engine/order/order.go:163-186 | position then op id is a strict total order |
| Sections.SlotAfter | engine/documents.go:340-357 | the slot behind the last section tied with the neighbour |
| Sections.SlotBefore | engine/documents.go:358-376 | the slot in front of the first section tied with the neighbour |
| Sections.SlotBetween | engine/documents.go:321-339 | both neighbours' positions, or the first of them that is missing |
| Sections.ChoosePosition | engine/documents.go:319-381 | one neighbour always finds a place next to its ties; two find one exactly when their positions are strictly in order |
| Sections.AddSection | engine/documents.go:313-392 | an explicit position if canonical, else the chosen one, else behind every section |
| Sections.MoveSection | engine/documents.go:487-576 | the chosen position among the other sections; no neighbour or the section itself as neighbour is refused |
| Sections.ListedAtCut | engine/projection/query.go:2276-2281 | the next listing shows the section at its cut whatever its op id, the others in the order they had |
| Sections.PlacedBeside | engine/documents.go:340-376 | a place after a section is behind all sections tied with it and before all greater ones, and a place before it the other way round |
| Sections.PlacedBetween | engine/documents.go:321-339 | between two sections a place is found exactly when the first has the smaller position, and a neighbour that is not there is named |
| Sections.OthersStay | engine/documents.go:540-560 | what is left to move among is the other sections, in the order they had |
| Sections.ListingShown | engine/projection/query.go:2276-2281 | a listing ascends by position, then by op id |
| Threads.MarkCycles | engine/projection/query.go:1041-1075 | marks exactly the comments lying on a reply cycle |
| Threads.PathMeetsItself | engine/projection/query.go:1053-1064 | when a walk meets its own path, the part from there on is on a cycle and what led there is not |
| Threads.CutAcyclic | engine/projection/query.go:1077-1079 | cutting the marked links leaves no cycle |
| Threads.BuildTree | engine/projection/query.go:1109-1124 | terminates, and hangs below each comment exactly its replies in sibling order |
| Threads.EveryCommentOnce | engine/projection/query.go:1126-1131 | a forest over acyclic parents shows every comment exactly once |
| Threads.Threads | engine/projection/query.go:1002-1132 | the reply forest, with cycle members, self-replies and replies to absent comments as roots |
| Threads.SiblingsInOrder | engine/projection/query.go:1092-1105 | among roots and among the replies to one comment the older comes first, and of two of the same age the one listed first |
| Threads.RootsMean | engine/projection/query.go:1031-1090 | a comment is a root exactly when it replies to no other comment of the listing or following replies leads back to it |
| Threads.RepliesMean | engine/projection/query.go:1081-1124 | below a comment hang exactly the comments that reply to it and lie on no reply loop |
| Ladder.ResolveWholeFileSide | engine/resolve/ladder.go:65-97 | its own path if unchanged, else the first path with the blob, else an orphan with its reason |
| Ladder.FindMoved | engine/resolve/ladder.go:110-120 | the least other path in byte order with the blob, exactly when there is one |
| Ladder.IsMatch | engine/resolve/ladder.go:164-195 | a window matches exactly when every context line is at its place |
| Ladder.WindowScore | engine/resolve/ladder.go:266-303 | two points a matching anchored line and one a matching collar line |
| Ladder.PickExact | engine/resolve/ladder.go:221-242 | the matching window that beats every other by collar, distance, start and path, under any unstable sort |
| Ladder.SortedTop | engine/resolve/ladder.go:319-339 | after any unstable sort the first window is highest, and the second as high exactly when the best is not alone |
| Ladder.PickFuzzy | engine/resolve/ladder.go:312-347 | the one highest window if it is alone and has 60 per cent of the points there are, else the reason why not |
| Ladder.ResolveRangedSide | engine/resolve/ladder.go:99-348 | the four rungs in turn |
| Ladder.ResolveSide | engine/resolve/ladder.go:45-63 | version and kind of anchor decide the ladder |
| Ladder.OneOutcome | engine/resolve/ladder.go:30-43 | the outcome is a function of anchor and tree |
| Ladder.WhichRung | engine/resolve/ladder.go:221-347 | context-exact exactly when some window matches; fuzzy exactly when none does and one window alone is best with at least 60 per cent |
| Ladder.FuzzyMisses | engine/resolve/ladder.go:266-347 | a place found fuzzily has at least 60 per cent of the points there are and misses some anchored line |
| Ladder.RangeInsideFile | engine/resolve/ladder.go:236-241 | a range found by context lies inside the file and has the anchored length |
| Ladder.FollowsText | engine/resolve/ladder.go:149-242 | unchanged text that occurs once in its file is found where it is |
| LadderText.ScoreCounts | engine/resolve/ladder.go:266-303 | a window's points, counted on the lines: two for each anchored line in place, one for each line around it in place, the first and last 32 lines of an elided text |
| LadderText.MatchesMean | engine/resolve/ladder.go:164-195 | a window matches exactly when the anchored text, or both its kept ends, stand there |
| LadderText.FullCollar | engine/resolve/ladder.go:198-210 | the collar is full exactly when the lines above end with those that were above and the lines below begin with those that were below |
| LadderText.ChosenPlace | engine/resolve/ladder.go:221-242 | of all places where the text stands, the one with the most lines around it as they were; of those the nearest, then the first, then the one in the first path |
| LadderText.FollowsSurroundings | engine/resolve/ladder.go:149-242 | text that occurs several times but once with all its surroundings is found there |
| LadderText.FuzzyPlace | engine/resolve/ladder.go:244-348 | where the text stands nowhere whole, a window is chosen exactly when it alone has the most points and at least 60 per cent of them |
| LadderText.FollowsBlob | engine/resolve/ladder.go:65-120 | an anchor stays while its path holds its blob, and else goes to the first other path that does |
| LadderText.OrphanReasons | engine/resolve/ladder.go:45-97 | why a whole file, or anything of an unknown version, is an orphan |
| Watch.Subscriber.Emit | engine/watch.go:50-77 | the buffer never exceeds its bound; an event is dropped only when the buffer is full, and a gap ends exactly when there is room for the reset and for an event behind it |
| Watch.Subscriber.Receive | engine/watch.go:79-91 | taking the oldest event closes no gap and sends nothing; a closed channel gives up what it holds, then nothing |
| Watch.GapIsUnannounced | engine/watch.go:45-48 | the latch is set exactly while something dropped has no reset after it |
| Watch.ResetBeforeMore | engine/watch.go:85-87 | nothing is delivered past a drop without a reset in between, and no reset for drops is spurious |
| Watch.ReadsEverything | engine/watch.go:85-87 | between resets a subscriber reads exactly what was emitted, in order |
| Watch.DrainedKnowsAll | engine/watch.go:85-88 | a subscriber that has drained its channel has read every event emitted, or a reset sent after it or along with it, exactly when no gap is open |
| Watch.Store.EmitStats | engine/watch.go:139-177 | every subscriber is told of the whole refresh in order, by one reset after a rebuild |
| Watch.ToldMeans | engine/watch.go:139-177 | after a rebuild one reset; otherwise for each changed object in order that it was created, if it was, else that it changed |
| Watch.Store.Unsubscribe | engine/watch.go:122-137 | removes one subscriber, closes its channel and keeps the order of the others; an unknown one changes nothing |
| Watch.Store.Subscribe | engine/watch.go:91-120 | a new subscriber with nothing sent to it, or a closed channel once the store is closed |
| Watch.Store.Close | engine/store.go:97-105 | closes every channel once and drops all subscribers, so nothing is sent to a closed channel |

## Left out

- Fold.Fold: requires distinct op ids, and that under no keyed-lww state key one register's key begins with another's; the code then indexes past the end of the shorter one. Op bodies are decoded JSON values, so Go-typed bodies such as `[]string` do not occur.
- Strategies.ReduceKeyedLww: requires comparable keys, for the same reason.
- EngineReach.BuildReachability: a row of 64-bit words is the set of positions whose bits are on.
- EngineOrder.OrderWithTStar: the heap is a list from which a least item is taken, with its time kept beside it; how `container/heap` sifts is not modelled.
- TotalOrder.Order: op ids are integers that are only compared, standing for commit hashes under byte order.
- CanonicalOrder.Order: the parallel slices of runes and classes are one array of pairs.
- CanonicalOrder.CountingSort: its four loops are separate methods, and the run is copied before it is counted.
- Composition.NormalizeSegment: the Unicode tables are parameters, with full decompositions and the guard on composites (`spec/reffold.go:387-403`) as requirements; whether a segment is valid UTF-8 is given with it, and cutting a string into segments and case folding are not modelled.
- Refresh.Projection.Refresh: one snapshot of the refs serves the whole call and a transaction is one step; the reducers and the resolver are functions that may fail, and the statistics, the change list and the tree cache are not modelled.
- Enumerate.EnumerateSince: what a commit decodes to, or why it does not, is given with it.
- Append.ChainIsHistory: validation of causal parents, signing and the mutex inside one process are not modelled; the swap is atomic, and only appends move the ref.
- Frontier.LwwDominates: commit ids are content addresses, so no stored op names the new one as a parent.
- SectionFold.FoldSection: decoding failures of bodies are not modelled.
- FoldSequence.AppendMeans: stated for a key that one rule feeds; `Strategies.ReduceAppend` has the general case.
- FoldMeaning.LatticeMeans: stated for rules of one key that share a lattice; `Strategies.ReduceLattice` has the general case.
- FoldMeaning.UnionMeans: like the other lemmas on bodies, stated for a key whose rules all use one strategy; `Fold.Fold` has the general case, and `FoldSequence.FirstRuleDecides` says which rule decides.
- FractionalIndex.Validate: a key's bytes are characters of a Dafny string.
- Sections.MoveSection: the section is known to be in the document; stored positions are canonical, and no two sections share position and op id.
- Threads.Threads: comment ids are distinct and not empty; the last comparison among siblings, by id, is not reached because listing places differ.
- Ladder.ResolveRangedSide: rungs three and four are methods of their own; blob hashes and line splitting are given with the tree.
- Watch.Store.EmitStats: each emit and each receive is one step; waiting for a context to be cancelled is not modelled, only the removal it causes.
- DocumentFold.FoldDocument: decoding failures of bodies are not modelled.
- The other typed reducers: their labels, links and registers are those above again.
- Claims that typed reducers equal the generic fold on arbitrary bodies: they skip non-string values that last-writer-wins keeps.
- SQL text, SQLite settings, schema versions, JSON decoding and schema validation, canonical JSON.
- Network sync, git subprocesses, signing and verification, object encoding and hashing.
- Command line, help, completion, scenarios, settings, label resolution and reference helpers, which would only add easy members.
