# The holder, modelled in Dafny

`Holder` is a small orchestration engine for a program's long-lived
resources (database clients, servers, caches). It takes item definitions.
Each definition has a name, an optional `need` (one name or a list of
names) and a builder. `load` checks that no two definitions share a name,
sorts them so that every definition comes after the ones it needs, and
builds them in that order. Each builder gets the items built before it.
A builder may hand back a pack: the item, plus an optional `stop` hook and
an optional `destroy` hook. A *per-item* definition is never built on its
own. Instead it is built once for every later standard definition that
needs it, and each result goes only into that consumer's copy of the
items. `close` runs every stop hook, then every destroy hook, each list in
reverse build order.

The model is split into these modules:

- `Definitions`: the definition record and `need` normalisation. It also
  holds the uniqueness check, a loop over a set of names seen so far.
- `TopoSort`: the topological sort that the holder gets from a library.
  Here it is Kahn's algorithm that places the first ready node in list
  order. It is proved sound (the result respects every edge and is a
  permutation of the nodes) and complete (it fails on a cycle only when
  no order respects the edges).
- `Sorting`: `sortDefinitions`, the node and edge lists it hands to the
  sort, and the lookup of each sorted name back to its definition.
- `Lifecycle`: the `Holder` class. It has fields for the two hook lists,
  a `loaded` flag, and a `log` of every call into user code: builders,
  per-item builders and hooks. `Load` and `Close` are loops. They are
  proved equal to specification functions: `Run`, a left fold of `Step`
  over the sorted definitions, and `Teardown`.
- `LoadProperties`: what those specification functions guarantee.
  Standard builders run in sorted order. The hook lists hold exactly the
  names whose packs carried that hook, in build order. Every standard
  builder sees exactly the items built before it, with the results of its
  own per-item builds written over them in call order. Each per-item
  builder sees the same, up to the per-item builds made before it.
- `Examples`: the scenarios of the repository's tests, worked out on the
  model. They cover the four-definition ordering, the close order, a
  cycle, a duplicate, the first item reaching its dependant, per-item
  builds, and closing before any load.

Builders are user code. They are modelled as functions that the caller
passes to `Load`. A `Call` result is either `Returned(value)` or `Threw`.
A throwing builder ends the load with `BuilderThrew(name)`.

## Model

| member | source | states |
|---|---|---|
| Definitions.GetNeed | index.js:116-120 | An absent or empty-string need gives no names. A non-empty single name gives the one-element list of it. An array is returned unchanged. |
| Definitions.Names | index.js:100 | The node list has one name per definition, the k-th being the k-th definition's name. |
| Definitions.CheckUniqueDefinitions | index.js:106-114 | Passes exactly when all names are distinct. Otherwise it fails with `Duplicated` on the first name that repeats an earlier one. |
| TopoSort.UnknownEndpoint | index.js:102 | Finds no name exactly when both ends of every edge are nodes. A name it does find is not a node but is an end of some edge. |
| TopoSort.UnknownEndpointFirst | index.js:102 | The name found belongs to the first edge with an unknown end: every earlier edge is known, and the source is reported when it is the unknown end. |
| TopoSort.Kahn | index.js:102 | No contract; defines the sort itself: repeatedly place the first remaining node whose dependencies are all placed, and fail with a cycle when none is. Its properties are `KahnSound` and `KahnComplete`. |
| TopoSort.Sort | index.js:102 | No contract; defines the library call: refuse the first edge naming a non-node, otherwise run `Kahn` from nothing placed. Its properties are `SortSound` and `SortFailures`. |
| TopoSort.FirstReadyFirst | index.js:102 | The index the ready-node search returns is the first remaining node whose dependencies are all placed. It finds none only when no remaining node is ready. |
| TopoSort.KahnSound | index.js:102 | The sort fails only on a cycle. A success respects every edge and is a permutation of the nodes. |
| TopoSort.KahnComplete | index.js:102 | When every dependency is a known node and the sort fails, no sequence holding all the nodes respects the edges. |
| TopoSort.NoneReady | index.js:102 | When no remaining node is ready, no sequence holding every node respects the edges. |
| TopoSort.SortSound | index.js:102 | A sorted list is a permutation of the nodes in which each node comes after every node it points to. |
| TopoSort.SortFailures | index.js:102 | Fails on an unknown node exactly when an edge names a non-node, and reports that name. Fails on a cycle only when no permutation respects the edges. |
| Sorting.EdgesMembers | index.js:101 | The edge list holds exactly the pairs (x, y) such that definition x needs y. |
| Sorting.EdgeSource | index.js:101 | Every edge leaves some definition and points at one of its needs. |
| Sorting.DefEdges | index.js:101 | One edge per need of the definition, in need order, each from the definition's name to that need. |
| Sorting.Edges | index.js:101 | No contract; defines the flattened edge list, definitions taken in order. Its properties are `EdgesMembers` and `EdgeSource`. |
| Sorting.Find | index.js:103 | The definition found carries the name. Among distinct names it is the only one that does. |
| Sorting.MapBack | index.js:103 | Mapping sorted names back to definitions keeps the names, in order. |
| Sorting.SortDefinitions | index.js:98-104 | Fails with `Duplicated` exactly when names repeat, naming the first repeat. Otherwise its result is the need-order sort of the definitions. |
| Sorting.SortByNeed | index.js:100-103 | A failure is an unknown need or a cycle, nothing else. Defines the sort of distinct definitions; its properties are `SortByNeedSound` and `SortByNeedFailures`. |
| Sorting.SortByNeedSound | index.js:100-103 | A successful sort is a permutation of the definitions in which every need comes before its dependant. |
| Sorting.SortByNeedFailures | index.js:100-103 | Fails on an unknown need exactly when some need names no definition, and reports that name. Fails on a cycle only when no arrangement puts every need first. |
| Sorting.MapBackPermutation | index.js:103 | Mapping a permutation of the names back gives a permutation of the definitions. |
| Sorting.ApplyPermutation | index.js:103 | Mapping a function over a permutation gives a permutation of the mapped list. |
| Sorting.MapBackNeedsFirst | index.js:100-103 | An order of the names that respects the edges maps back to definitions whose needs all come first. |
| Sorting.NeedsFirstRespects | index.js:100-103 | An arrangement of the definitions that puts needs first, read as names, respects the edges. |
| Sorting.EdgeNeededBefore | index.js:100-103 | In an arrangement that puts needs first, the target of every edge leaving a definition comes before it. |
| Sorting.NeedBefore | index.js:100-103 | In the definitions mapped back from an order that respects the edges, every need of a definition names an earlier one. |
| Lifecycle.NeededPerItemsMembers | index.js:56 | Keeps exactly the per-item definitions seen so far whose name the consumer needs. |
| Lifecycle.Reverse | index.js:72-73 | The hook lists are reversed: same length, with element k taken from the other end. |
| Lifecycle.Teardown | index.js:80-91 | Every stop hook is called, in list order, before every destroy hook, in list order. |
| Lifecycle.RunAfterThrow | index.js:63 | Once a builder has thrown, later definitions change nothing. |
| Lifecycle.PerItemRunAfterThrow | index.js:59 | Once a per-item builder has thrown, the remaining per-item definitions change nothing. |
| Lifecycle.NeededPerItems | index.js:56 | No contract; defines the filter of the per-item definitions seen so far by the consumer's needs, keeping their order. Its property is `NeededPerItemsMembers`. |
| Lifecycle.PerItemRun | index.js:55-61 | No contract; defines the inner loop for one consumer: each needed per-item builder is called on the context built so far, its result is written into that context, and the first throw stops the loop. Its properties are in `LoadProperties`. |
| Lifecycle.Record | index.js:63-69 | No contract; defines what one standard build adds to the load state: the call, and for a returned pack its item and the name on each hook list whose hook it carries; a throw ends the load. |
| Lifecycle.Step | index.js:51-70 | No contract; one iteration of the build loop on the load state: a per-item definition is remembered, a standard one runs its per-item builds and then its builder. |
| Lifecycle.Run | index.js:45-71 | No contract; the build loop as a left fold of `Step` over the sorted definitions, from empty items, lists and trace. `Holder.Load` is proved equal to it and its properties are in `LoadProperties`. |
| Lifecycle.Holder.constructor | index.js:35-41 | A new holder is not loaded, since its hook lists are only assigned when a load completes, and it has made no calls yet. |
| Lifecycle.Holder.Load | index.js:43-75 | Fails before any build on a duplicate, an unknown need or a cycle, leaving the state unchanged. Otherwise its calls are those of the fold over the sorted definitions. When none throws, it marks the holder loaded and stores both hook lists reversed. A throw reports the definition and leaves the hook lists as they were. |
| Lifecycle.Holder.BuildDefinition | index.js:51-70 | One loop iteration matches one step of the fold: a per-item definition is only remembered, and a standard one records its per-item calls, its build and its pack. |
| Lifecycle.Holder.BuildPerItems | index.js:55-61 | The consumer's context and calls match the per-item fold, stopping at the first throw. |
| Lifecycle.Holder.BuildStandard | index.js:62-69 | The consumer's builder is called once on its context. The hook lists and the items it leaves are those of recording that call's result in the fold. |
| Lifecycle.Holder.Close | index.js:77-93 | After a completed load it calls every stop hook and then every destroy hook. Before any load it fails and calls nothing. |
| LoadProperties.ItemsOf | index.js:68 | Every item recorded belongs to a definition whose standard builder was called. |
| LoadProperties.NoStandardBuilds | index.js:57-61 | Per-item calls add nothing to the built names, hook lists or items. |
| LoadProperties.PerItemRunCalls | index.js:57-60 | There is one call per needed per-item definition, in order, each for this consumer. The last call is the one that threw, if any did. |
| LoadProperties.PerItemRunNames | index.js:56-60 | Without a throw, the per-item calls name exactly the needed per-item definitions. |
| LoadProperties.PerItemRunContext | index.js:55-60 | Without a throw, the consumer's context is the shared items plus one entry per needed per-item definition, and is unchanged everywhere else. |
| LoadProperties.OverlayLast | index.js:59 | Writing per-item results over a map leaves, under each name, the value of the last call for that name. |
| LoadProperties.OverlayOthers | index.js:55 | A name no per-item call is made for keeps its entry, or its absence, from the shared items. |
| LoadProperties.PerItemRunOverlay | index.js:55-60 | The consumer's context is the shared items with the results of its per-item builds written over them, in call order. |
| LoadProperties.PerItemCallContexts | index.js:57-59 | Each per-item builder is given the shared items with the results of the per-item builds made before it, for the same consumer, written over them. |
| LoadProperties.PerItemRunValues | index.js:59 | Without a throw, the context holds under each needed per-item name the result that the last build for that name returned. |
| LoadProperties.StepTrace | index.js:57-64 | One standard step appends its per-item calls and then its build call. |
| LoadProperties.StepBuilds | index.js:51-64 | A step without a throw adds the build of a standard definition to the trace, or remembers a per-item definition. |
| LoadProperties.RunBuildsInOrder | index.js:50-64 | Without a throw, the standard builders are called once each, in sorted order. The per-item definitions are remembered in order. |
| LoadProperties.RecordKeepsReadings | index.js:65-69 | Recording one build keeps the hook lists and items equal to what the trace says. |
| LoadProperties.RunRecordsPacks | index.js:65-69 | The stop list and the destroy list hold exactly the names whose pack carried that hook, in build order. The items are exactly those packed. |
| LoadProperties.TrailingAfterBuild | index.js:57-61 | The per-item calls at the end of the trace, right after a build, are exactly those just made. |
| LoadProperties.ContextsExtend | index.js:55-63 | Appending per-item calls and one build on the right context keeps every context right. |
| LoadProperties.StepContexts | index.js:51-63 | One step of a load that has not failed keeps every builder's context right. |
| LoadProperties.RunContexts | index.js:55-63 | Every standard builder gets exactly the items recorded before it, with the values its own per-item builds returned written over them in call order. No per-item result leaks into the shared items or into another consumer's context. |
| Examples.SortExample | test/holder.test.js:27-42 | d needing c, a needing nothing, c needing b and a, and b needing a are sorted a, b, c, d. |
| Examples.SortExampleBuilds | test/holder.test.js:27-42 | Whatever the builders return, a load of that scenario in which none throws calls the builders of a, b, c and d, in that order. |
| Examples.CycleExample | test/holder.test.js:119-133 | Two definitions a and b that need each other are refused as cyclic. |
| Examples.HookRun | test/holder.test.js:44-91 | Building that scenario records stops for a then c, and destroys for a then d. |
| Examples.HookLists | test/holder.test.js:44-91 | That scenario sorts, builds without a throw, and its hook lists reversed are stops c, a and destroys d, a. |
| Examples.CloseScenario | test/holder.test.js:44-91 | Load then close calls stop c, stop a, destroy d, destroy a. |
| Examples.DuplicateScenario | test/holder.test.js:135-149 | Two definitions named a fail on a before any builder runs. |
| Examples.CycleScenario | test/holder.test.js:119-133 | The cyclic pair fails before any builder runs. |
| Examples.CloseBeforeLoad | index.js:77-80 | Closing before any load fails and calls no hook. |
| Examples.PairSort | test/holder.test.js:4-25 | An item and its single-name dependant are built in that order. |
| Examples.ItemScenario | test/holder.test.js:4-25 | The first builder gets an empty context. The dependant's builder gets the first item. |
| Examples.PerItemSort | test/holder.test.js:93-117 | A base, a per-item definition needing it, and two consumers of the per-item definition are sorted in that order. The order of the two consumers is the model's tie-break; the library may put the second consumer first, and the test asserts no order between them. |
| Examples.PerItemRunExample | test/holder.test.js:93-117 | The per-item definition is built once per consumer on the base item. Each consumer sees its own result, and the shared items hold only the base. The calls follow the model's sort order, so the consumers' turns may be swapped in the program. |
| Examples.PerItemScenario | test/holder.test.js:93-117 | Loading that scenario completes, with exactly those five calls, in the model's sort order of the two consumers. |
| Examples.WrongPerItemValue | index.js:59 | A trace in which a consumer sees a value other than the one its per-item build returned breaks the context property. |
| Examples.ConsumerStep | index.js:55-63 | A consumer of one per-item definition is built on the shared items plus its own per-item result. |

## Left out

- Logging: the `logger` option and every `logger.info` call are left out. They write to an output the model does not have.
- The constructor's `options` handling (`clean-options`) is not part of this model. `Holder.constructor` only sets the empty state.
- Promises and `await`: the model runs one call after another. So it does not capture a `close` that runs while a `load` is still awaiting. The repository's tests show that interruption, but `index.js` has no code for it.
- The `toposort` library is not part of this model. `TopoSort.Sort` fixes one order: the first ready node in list order. The library may order independent nodes differently. Every property of `Sorting` and `LoadProperties` holds for any order that respects the needs, but the exact call sequences in `Examples` follow the model's order. The library's unknown-node error names no node; `UnknownNeed` carries the unknown end of the first such edge.
- Builders and hooks are user code. A builder is a function of the definition and its context, so the model does not capture builders with side effects of their own. A hook is identified by the name of its definition, and calling it is a `Stopped` or `Destroyed` entry in the log.
- Lifecycle.Holder.Close: a stop or destroy hook that throws is not modelled. In `index.js` it aborts the rest of `close`; here every hook returns.
- Truthiness: a pack that is any falsy value is `Returned(None)`. A pack's `stop` and `destroy` are only present or absent. An item is any value of the type parameter, including JavaScript's `undefined`.
- Per-item context: `itemItems` is a copy of the shared items, modelled as a value. The model does not capture the per-item builder receiving the very object that the consumer later gets.
- `getItem`, adapters and custom definition types appear only in `test.js` and are not part of `index.js`. They are not part of this model. The same goes for the builder signature `build(items, definition)` that `test.js` uses: `index.js` passes the builder the items alone.
