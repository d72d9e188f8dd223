/**
 * The holder itself: `load` builds every definition in need order and
 * records the stop and destroy hooks the builders hand back; `close` runs
 * every stop hook, then every destroy hook, both in reverse build order.
 *
 * Builders are user code and are modelled as functions supplied to the
 * load: `build(definition, context)` for a standard definition, and
 * `buildPerItem(perItemDefinition, context, consumer)` for a per-item one.
 * Every call into user code is recorded in the holder's `log`, together
 * with the context it was given and what it returned.
 */
module Lifecycle {
  import opened Wrappers
  import opened Definitions
  import Sorting

  /** What a standard builder may hand back: the item and which hooks it carries. */
  datatype Pack<Item> = Pack(item: Item, hasStop: bool, hasDestroy: bool)

  /** Why `close` failed: no load has completed, so there are no hook lists to walk. */
  datatype CloseError = NotLoaded

  /** The outcome of a call into user code: it returned a value, or it threw. */
  datatype Call<T> = Returned(value: T) | Threw

  /** A standard builder; `Returned(None)` is a builder that returns nothing (or anything falsy). */
  type Builder<!Item> = (Definition, map<string, Item>) -> Call<Option<Pack<Item>>>

  /** A per-item builder, given the per-item definition, the context and the consumer. */
  type PerItemBuilder<!Item> = (Definition, map<string, Item>, Definition) -> Call<Item>

  /** One call into user code, in the order the holder makes them. */
  datatype Event<Item> =
    | Built(name: string, context: map<string, Item>, result: Call<Option<Pack<Item>>>)
    | BuiltPerItem(name: string, consumer: string, context: map<string, Item>, value: Call<Item>)
    | Stopped(name: string)
    | Destroyed(name: string)

  /** The per-item definitions seen so far that `consumer` needs, in the order they were seen. */
  function NeededPerItems(perItemDefs: seq<Definition>, consumer: Definition): seq<Definition>
  {
    if perItemDefs == [] then []
    else
      var p := perItemDefs[0];
      (if p.name in GetNeed(consumer) then [p] else []) + NeededPerItems(perItemDefs[1..], consumer)
  }

  /** The filter keeps exactly the per-item definitions whose name the consumer needs. */
  lemma {:induction false} NeededPerItemsMembers(perItemDefs: seq<Definition>, consumer: Definition)
    ensures forall p :: p in NeededPerItems(perItemDefs, consumer) <==> p in perItemDefs && p.name in GetNeed(consumer)
  {
    if perItemDefs != [] {
      NeededPerItemsMembers(perItemDefs[1..], consumer);
      assert forall p :: p in perItemDefs <==> p == perItemDefs[0] || p in perItemDefs[1..];
    }
  }

  /** The state of the per-item builds made for one consumer. */
  datatype PerItemState<Item> = PerItemState(context: map<string, Item>, events: seq<Event<Item>>, threw: Option<string>)

  /**
   * Builds the needed per-item definitions for `consumer` one after the
   * other, each on a context holding the shared items and the per-item
   * results built so far, and stops at the first builder that throws.
   */
  function PerItemRun<Item>(needed: seq<Definition>, consumer: Definition, items: map<string, Item>,
                            buildPerItem: PerItemBuilder<Item>): PerItemState<Item>
    decreases |needed|
  {
    if needed == [] then PerItemState(items, [], None)
    else
      var s := PerItemRun(needed[..|needed| - 1], consumer, items, buildPerItem);
      if s.threw.Some? then s
      else
        var p := needed[|needed| - 1];
        var result := buildPerItem(p, s.context, consumer);
        var event := BuiltPerItem(p.name, consumer.name, s.context, result);
        match result
        case Threw => PerItemState(s.context, s.events + [event], Some(p.name))
        case Returned(v) => PerItemState(s.context[p.name := v], s.events + [event], None)
  }

  /**
   * The local state of `load`: the shared items map, the per-item
   * definitions seen so far, the stop and destroy lists in build order,
   * the calls made, and the name whose builder threw, if one did.
   */
  datatype LoadState<Item> = LoadState(
    items: map<string, Item>,
    perItemDefs: seq<Definition>,
    stops: seq<string>,
    destroys: seq<string>,
    trace: seq<Event<Item>>,
    threw: Option<string>)

  function InitialState<Item>(): LoadState<Item>
  {
    LoadState(map[], [], [], [], [], None)
  }

  /**
   * Records what the builder of standard definition `d` did, after the
   * per-item calls `events`: a throw ends the load; a pack adds the item to
   * the shared items and the name to each hook list whose hook it carries;
   * nothing returned records nothing.
   */
  function Record<Item>(s: LoadState<Item>, d: Definition, context: map<string, Item>,
                        events: seq<Event<Item>>, result: Call<Option<Pack<Item>>>): LoadState<Item>
  {
    var trace := s.trace + events + [Built(d.name, context, result)];
    match result
    case Threw => s.(trace := trace, threw := Some(d.name))
    case Returned(None) => s.(trace := trace)
    case Returned(Some(pack)) =>
      s.(items := s.items[d.name := pack.item],
         stops := if pack.hasStop then s.stops + [d.name] else s.stops,
         destroys := if pack.hasDestroy then s.destroys + [d.name] else s.destroys,
         trace := trace)
  }

  /** One iteration of the build loop, on definition `d`. */
  function Step<Item>(s: LoadState<Item>, d: Definition, build: Builder<Item>,
                      buildPerItem: PerItemBuilder<Item>): LoadState<Item>
  {
    if s.threw.Some? then s
    else if d.perItem then s.(perItemDefs := s.perItemDefs + [d])
    else
      var pre := PerItemRun(NeededPerItems(s.perItemDefs, d), d, s.items, buildPerItem);
      if pre.threw.Some? then s.(trace := s.trace + pre.events, threw := pre.threw)
      else Record(s, d, pre.context, pre.events, build(d, pre.context))
  }

  /** The build loop over the sorted definitions. */
  function Run<Item>(order: seq<Definition>, build: Builder<Item>, buildPerItem: PerItemBuilder<Item>): LoadState<Item>
    decreases |order|
  {
    if order == [] then InitialState()
    else Step(Run(order[..|order| - 1], build, buildPerItem), order[|order| - 1], build, buildPerItem)
  }

  function Reverse<T>(s: seq<T>): (r: seq<T>)
    ensures |r| == |s|
    ensures forall k :: 0 <= k < |s| ==> r[k] == s[|s| - 1 - k]
  {
    if s == [] then [] else Reverse(s[1..]) + [s[0]]
  }

  /** The calls `close` makes: every stop hook in list order, then every destroy hook in list order. */
  function Teardown<Item>(stops: seq<string>, destroys: seq<string>): (r: seq<Event<Item>>)
    ensures |r| == |stops| + |destroys|
    ensures forall k :: 0 <= k < |stops| ==> r[k] == Stopped(stops[k])
    ensures forall k :: 0 <= k < |destroys| ==> r[|stops| + k] == Destroyed(destroys[k])
  {
    seq(|stops|, k requires 0 <= k < |stops| => Stopped(stops[k]))
      + seq(|destroys|, k requires 0 <= k < |destroys| => Destroyed(destroys[k]))
  }

  /** Walking one more stop hook appends its call. */
  lemma TeardownNextStop<Item>(stops: seq<string>, i: nat)
    requires i < |stops|
    ensures Teardown<Item>(stops[..i + 1], []) == Teardown<Item>(stops[..i], []) + [Stopped(stops[i])]
  {
  }

  /** Walking one more destroy hook appends its call. */
  lemma TeardownNextDestroy<Item>(stops: seq<string>, destroys: seq<string>, j: nat)
    requires j < |destroys|
    ensures Teardown<Item>(stops, destroys[..j + 1]) == Teardown<Item>(stops, destroys[..j]) + [Destroyed(destroys[j])]
  {
  }

  /** Once a builder has thrown, later definitions change nothing. */
  lemma {:induction false} RunAfterThrow<Item>(order: seq<Definition>, k: nat, build: Builder<Item>,
                                               buildPerItem: PerItemBuilder<Item>)
    requires k <= |order| && Run(order[..k], build, buildPerItem).threw.Some?
    ensures Run(order, build, buildPerItem) == Run(order[..k], build, buildPerItem)
    decreases |order| - k
  {
    if k < |order| {
      var next := order[..k + 1];
      assert next[..k] == order[..k];
      RunAfterThrow(order, k + 1, build, buildPerItem);
    } else {
      assert order[..k] == order;
    }
  }

  /** Once a per-item builder has thrown, the remaining per-item definitions change nothing. */
  lemma {:induction false} PerItemRunAfterThrow<Item>(needed: seq<Definition>, k: nat, consumer: Definition,
                                                       items: map<string, Item>, buildPerItem: PerItemBuilder<Item>)
    requires k <= |needed| && PerItemRun(needed[..k], consumer, items, buildPerItem).threw.Some?
    ensures PerItemRun(needed, consumer, items, buildPerItem) == PerItemRun(needed[..k], consumer, items, buildPerItem)
    decreases |needed| - k
  {
    if k < |needed| {
      var next := needed[..k + 1];
      assert next[..k] == needed[..k];
      PerItemRunAfterThrow(needed, k + 1, consumer, items, buildPerItem);
    } else {
      assert needed[..k] == needed;
    }
  }

  class Holder<Item> {
    /** The names whose builders returned a stop hook, in the order `close` runs them. */
    var stops: seq<string>
    /** The names whose builders returned a destroy hook, in the order `close` runs them. */
    var destroys: seq<string>
    /** Whether a load has completed and assigned the two hook lists. */
    var loaded: bool
    /** Every call into user code so far. */
    var log: seq<Event<Item>>

    constructor ()
      ensures stops == [] && destroys == [] && !loaded && log == []
    {
      stops, destroys, loaded, log := [], [], false, [];
    }

    /**
     * Sorts the definitions (failing, before any builder runs, on a
     * repeated name, an unknown need or a cycle), then builds them in that
     * order. A per-item definition is only remembered; every later standard
     * definition gets a copy of the shared items, extended with one fresh
     * build of each per-item definition it needs, and its builder's pack, if
     * any, is recorded. Only a load that completes assigns the hook lists,
     * reversed.
     */
    method Load(defs: seq<Definition>, build: Builder<Item>, buildPerItem: PerItemBuilder<Item>)
      returns (r: Outcome<LoadError>)
      modifies this
      ensures !NamesDistinct(defs) ==> r.Fail? && r.error.Duplicated? && IsFirstRepeat(defs, r.error.name)
      ensures NamesDistinct(defs) && Sorting.SortByNeed(defs).Failure? ==> r == Fail(Sorting.SortByNeed(defs).error)
      ensures r.Fail? && !r.error.BuilderThrew? ==>
        log == old(log) && stops == old(stops) && destroys == old(destroys) && loaded == old(loaded)
      ensures NamesDistinct(defs) && Sorting.SortByNeed(defs).Success? ==>
        var run := Run(Sorting.SortByNeed(defs).value, build, buildPerItem);
        && log == old(log) + run.trace
        && (run.threw.None? ==>
              r == Pass && loaded && stops == Reverse(run.stops) && destroys == Reverse(run.destroys))
        && (run.threw.Some? ==>
              r == Fail(BuilderThrew(run.threw.value))
              && stops == old(stops) && destroys == old(destroys) && loaded == old(loaded))
    {
      var sorted := Sorting.SortDefinitions(defs);
      if sorted.Failure? {
        return Fail(sorted.error);
      }
      var order := sorted.value;
      var items: map<string, Item> := map[];
      var perItemDefs: seq<Definition> := [];
      var stopList: seq<string> := [];
      var destroyList: seq<string> := [];
      var i := 0;
      while i < |order|
        invariant 0 <= i <= |order|
        invariant Run(order[..i], build, buildPerItem)
          == LoadState(items, perItemDefs, stopList, destroyList, Run(order[..i], build, buildPerItem).trace, None)
        invariant log == old(log) + Run(order[..i], build, buildPerItem).trace
        invariant stops == old(stops) && destroys == old(destroys) && loaded == old(loaded)
      {
        assert order[..i + 1][..i] == order[..i];
        var threw;
        items, perItemDefs, stopList, destroyList, threw :=
          BuildDefinition(order[i], items, perItemDefs, stopList, destroyList, build, buildPerItem,
                          old(log), Run(order[..i], build, buildPerItem).trace);
        if threw.Some? {
          RunAfterThrow(order, i + 1, build, buildPerItem);
          return Fail(BuilderThrew(threw.value));
        }
        i := i + 1;
      }
      assert order[..i] == order;
      destroys := Reverse(destroyList);
      stops := Reverse(stopList);
      loaded := true;
      r := Pass;
    }

    /**
     * One iteration of the build loop: remembers a per-item definition, or
     * builds a standard one on a copy of the shared items extended with its
     * per-item builds, and records its pack.
     */
    method BuildDefinition(d: Definition, items: map<string, Item>, perItemDefs: seq<Definition>,
                           stopList: seq<string>, destroyList: seq<string>,
                           build: Builder<Item>, buildPerItem: PerItemBuilder<Item>,
                           ghost base: seq<Event<Item>>, ghost trace: seq<Event<Item>>)
      returns (items': map<string, Item>, perItemDefs': seq<Definition>,
               stopList': seq<string>, destroyList': seq<string>, threw: Option<string>)
      requires log == base + trace
      modifies this`log
      ensures var s := Step(LoadState(items, perItemDefs, stopList, destroyList, trace, None), d, build, buildPerItem);
        && s == LoadState(items', perItemDefs', stopList', destroyList', s.trace, threw)
        && log == base + s.trace
    {
      items', perItemDefs', stopList', destroyList', threw := items, perItemDefs, stopList, destroyList, None;
      ghost var s := LoadState(items, perItemDefs, stopList, destroyList, trace, None);
      if d.perItem {
        perItemDefs' := perItemDefs + [d];
        return;
      }
      ghost var pre := PerItemRun(NeededPerItems(perItemDefs, d), d, items, buildPerItem);
      var itemItems;
      itemItems, threw := BuildPerItems(NeededPerItems(perItemDefs, d), d, items, buildPerItem);
      if threw.Some? {
        return;
      }
      items', stopList', destroyList', threw :=
        BuildStandard(d, itemItems, items, stopList, destroyList, build, s, pre.events);
      assert Step(s, d, build, buildPerItem) == Record(s, d, itemItems, pre.events, build(d, itemItems));
    }

    /**
     * Calls the builder of standard definition `d` on `context` and records
     * its pack: the item goes into the shared items, and the name onto each
     * hook list whose hook the pack carries.
     */
    method BuildStandard(d: Definition, context: map<string, Item>, items: map<string, Item>,
                         stopList: seq<string>, destroyList: seq<string>, build: Builder<Item>,
                         ghost s: LoadState<Item>, ghost events: seq<Event<Item>>)
      returns (items': map<string, Item>, stopList': seq<string>, destroyList': seq<string>, threw: Option<string>)
      requires s.items == items && s.stops == stopList && s.destroys == destroyList && s.threw.None?
      modifies this`log
      ensures log == old(log) + [Built(d.name, context, build(d, context))]
      ensures Record(s, d, context, events, build(d, context))
        == s.(items := items', stops := stopList', destroys := destroyList',
              trace := s.trace + events + [Built(d.name, context, build(d, context))], threw := threw)
    {
      items', stopList', destroyList', threw := items, stopList, destroyList, None;
      var result := build(d, context);
      log := log + [Built(d.name, context, result)];
      match result
      case Threw =>
        threw := Some(d.name);
      case Returned(None) =>
      case Returned(Some(pack)) =>
        if pack.hasStop {
          stopList' := stopList + [d.name];
        }
        if pack.hasDestroy {
          destroyList' := destroyList + [d.name];
        }
        items' := items[d.name := pack.item];
    }

    /**
     * Builds the per-item definitions `consumer` needs, one after the other,
     * each result going into the consumer's own copy of the items only.
     */
    method BuildPerItems(needed: seq<Definition>, consumer: Definition, items: map<string, Item>,
                         buildPerItem: PerItemBuilder<Item>)
      returns (context: map<string, Item>, threw: Option<string>)
      modifies this`log
      ensures var run := PerItemRun(needed, consumer, items, buildPerItem);
        context == run.context && threw == run.threw && log == old(log) + run.events
    {
      context, threw := items, None;
      var j := 0;
      while j < |needed|
        invariant 0 <= j <= |needed|
        invariant PerItemRun(needed[..j], consumer, items, buildPerItem)
          == PerItemState(context, PerItemRun(needed[..j], consumer, items, buildPerItem).events, None)
        invariant log == old(log) + PerItemRun(needed[..j], consumer, items, buildPerItem).events
      {
        var p := needed[j];
        assert needed[..j + 1][..j] == needed[..j];
        var result := buildPerItem(p, context, consumer);
        log := log + [BuiltPerItem(p.name, consumer.name, context, result)];
        if result.Threw? {
          PerItemRunAfterThrow(needed, j + 1, consumer, items, buildPerItem);
          return context, Some(p.name);
        }
        context := context[p.name := result.value];
        j := j + 1;
      }
      assert needed[..j] == needed;
    }

    /**
     * Runs every stop hook in the order of `stops`, and only then every
     * destroy hook in the order of `destroys`. Before any load has
     * completed the two lists are unassigned and closing fails at once.
     */
    method Close() returns (r: Outcome<CloseError>)
      modifies this`log
      ensures !loaded ==> r == Fail(NotLoaded) && log == old(log)
      ensures loaded ==> r == Pass && log == old(log) + Teardown(stops, destroys)
    {
      if !loaded {
        return Fail(NotLoaded);
      }
      var i := 0;
      while i < |stops|
        invariant 0 <= i <= |stops|
        invariant log == old(log) + Teardown(stops[..i], [])
      {
        TeardownNextStop<Item>(stops, i);
        log := log + [Stopped(stops[i])];
        i := i + 1;
      }
      assert stops[..i] == stops;
      var j := 0;
      while j < |destroys|
        invariant 0 <= j <= |destroys|
        invariant log == old(log) + Teardown(stops, destroys[..j])
      {
        TeardownNextDestroy<Item>(stops, destroys, j);
        log := log + [Destroyed(destroys[j])];
        j := j + 1;
      }
      assert destroys[..j] == destroys;
      r := Pass;
    }
  }
}
