/**
 * What the build loop promises, read off its trace of calls: standard
 * definitions are built once each in sorted order, per-item definitions
 * never on their own; the hook lists and the shared items hold exactly what
 * the builders returned; per-item results reach only their consumer's
 * context.
 */
module LoadProperties {
  import opened Wrappers
  import opened Definitions
  import opened Lifecycle

  /** The names of the standard (not per-item) definitions, in order. */
  function StandardNames(order: seq<Definition>): seq<string>
    decreases |order|
  {
    if order == [] then []
    else
      var d := order[|order| - 1];
      StandardNames(order[..|order| - 1]) + (if d.perItem then [] else [d.name])
  }

  /** The per-item definitions, in order. */
  function PerItemDefsOf(order: seq<Definition>): seq<Definition>
    decreases |order|
  {
    if order == [] then []
    else
      var d := order[|order| - 1];
      PerItemDefsOf(order[..|order| - 1]) + (if d.perItem then [d] else [])
  }

  /** The names of the standard builds in a trace, in call order. */
  function BuiltNames<Item>(trace: seq<Event<Item>>): seq<string>
    decreases |trace|
  {
    if trace == [] then []
    else
      var e := trace[|trace| - 1];
      BuiltNames(trace[..|trace| - 1]) + (if e.Built? then [e.name] else [])
  }

  /** The names whose builder returned a pack carrying a stop hook, in call order. */
  function StopOwners<Item>(trace: seq<Event<Item>>): seq<string>
    decreases |trace|
  {
    if trace == [] then []
    else
      var e := trace[|trace| - 1];
      StopOwners(trace[..|trace| - 1])
        + (if e.Built? && e.result.Returned? && e.result.value.Some? && e.result.value.value.hasStop
           then [e.name] else [])
  }

  /** The names whose builder returned a pack carrying a destroy hook, in call order. */
  function DestroyOwners<Item>(trace: seq<Event<Item>>): seq<string>
    decreases |trace|
  {
    if trace == [] then []
    else
      var e := trace[|trace| - 1];
      DestroyOwners(trace[..|trace| - 1])
        + (if e.Built? && e.result.Returned? && e.result.value.Some? && e.result.value.value.hasDestroy
           then [e.name] else [])
  }

  /**
   * The items the standard builders returned in packs, later calls
   * overriding earlier ones; its keys are names of standard builds.
   */
  function ItemsOf<Item>(trace: seq<Event<Item>>): (r: map<string, Item>)
    ensures forall n :: n in r ==> n in BuiltNames(trace)
    decreases |trace|
  {
    if trace == [] then map[]
    else
      var e := trace[|trace| - 1];
      var m := ItemsOf(trace[..|trace| - 1]);
      if e.Built? && e.result.Returned? && e.result.value.Some? then m[e.name := e.result.value.value.item]
      else m
  }

  /** Calls that are not standard builds add nothing to any of the readings above. */
  lemma {:induction false} NoStandardBuilds<Item>(a: seq<Event<Item>>, b: seq<Event<Item>>)
    requires forall k :: 0 <= k < |b| ==> !b[k].Built?
    ensures BuiltNames(a + b) == BuiltNames(a)
    ensures StopOwners(a + b) == StopOwners(a)
    ensures DestroyOwners(a + b) == DestroyOwners(a)
    ensures ItemsOf(a + b) == ItemsOf(a)
    decreases |b|
  {
    if b != [] {
      var b' := b[..|b| - 1];
      assert (a + b)[..|a + b| - 1] == a + b';
      NoStandardBuilds(a, b');
    } else {
      assert a + b == a;
    }
  }

  /**
   * The per-item builds for one consumer: one call per needed per-item
   * definition, in order, each for that consumer, until one throws, whose
   * name is then reported.
   */
  lemma {:induction false} PerItemRunCalls<Item>(needed: seq<Definition>, consumer: Definition,
                                                 items: map<string, Item>, buildPerItem: PerItemBuilder<Item>)
    ensures var run := PerItemRun(needed, consumer, items, buildPerItem);
      && |run.events| <= |needed|
      && (forall k :: 0 <= k < |run.events| ==>
            run.events[k].BuiltPerItem? && run.events[k].name == needed[k].name
            && run.events[k].consumer == consumer.name)
      && (run.threw.Some? ==>
            |run.events| > 0 && run.events[|run.events| - 1].value.Threw?
            && run.threw.value == run.events[|run.events| - 1].name)
      && (run.threw.None? ==>
            |run.events| == |needed| && forall k :: 0 <= k < |needed| ==> run.events[k].value.Returned?)
    decreases |needed|
  {
    if needed != [] {
      var front := needed[..|needed| - 1];
      PerItemRunCalls(front, consumer, items, buildPerItem);
      assert forall k :: 0 <= k < |front| ==> front[k] == needed[k];
    }
  }

  /** When no per-item builder throws, the per-item calls name exactly the needed definitions. */
  lemma PerItemRunNames<Item>(needed: seq<Definition>, consumer: Definition,
                              items: map<string, Item>, buildPerItem: PerItemBuilder<Item>)
    requires PerItemRun(needed, consumer, items, buildPerItem).threw.None?
    ensures var events := PerItemRun(needed, consumer, items, buildPerItem).events;
      NameSet(needed) == EventNames(events)
  {
    var events := PerItemRun(needed, consumer, items, buildPerItem).events;
    PerItemRunCalls(needed, consumer, items, buildPerItem);
    forall p | p in needed ensures p.name in EventNames(events) {
      var k :| 0 <= k < |needed| && needed[k] == p;
      assert events[k].name == p.name;
    }
  }

  /** The names of a list of definitions, as a set. */
  function NameSet(defs: seq<Definition>): set<string>
  {
    set p | p in defs :: p.name
  }

  /**
   * When no per-item builder throws, the consumer's context is the shared
   * items plus one entry per needed per-item definition, and agrees with
   * the shared items everywhere else.
   */
  lemma {:induction false} PerItemRunContext<Item>(needed: seq<Definition>, consumer: Definition,
                                                   items: map<string, Item>, buildPerItem: PerItemBuilder<Item>)
    requires PerItemRun(needed, consumer, items, buildPerItem).threw.None?
    ensures var run := PerItemRun(needed, consumer, items, buildPerItem);
      && run.context.Keys == items.Keys + NameSet(needed)
      && forall n :: n in items && n !in NameSet(needed) ==> run.context[n] == items[n]
    decreases |needed|
  {
    if needed != [] {
      var front := needed[..|needed| - 1];
      PerItemRunContext(front, consumer, items, buildPerItem);
      assert forall p :: p in needed <==> p in front || p == needed[|needed| - 1];
      assert NameSet(needed) == NameSet(front) + {needed[|needed| - 1].name};
    }
  }

  /** The trace of the build loop, spelled out for one step. */
  lemma StepTrace<Item>(s: LoadState<Item>, d: Definition, build: Builder<Item>, buildPerItem: PerItemBuilder<Item>)
    requires s.threw.None? && !d.perItem
    ensures var pre := PerItemRun(NeededPerItems(s.perItemDefs, d), d, s.items, buildPerItem);
      && (forall k :: 0 <= k < |pre.events| ==> !pre.events[k].Built?)
      && (pre.threw.Some? ==> Step(s, d, build, buildPerItem).trace == s.trace + pre.events)
      && (pre.threw.None? ==>
            Step(s, d, build, buildPerItem).trace
            == s.trace + pre.events + [Built(d.name, pre.context, build(d, pre.context))])
  {
    var needed := NeededPerItems(s.perItemDefs, d);
    var pre := PerItemRun(needed, d, s.items, buildPerItem);
    PerItemRunCalls(needed, d, s.items, buildPerItem);
    if pre.threw.None? {
      assert Step(s, d, build, buildPerItem) == Record(s, d, pre.context, pre.events, build(d, pre.context));
    }
  }

  /**
   * A load that completes builds every standard definition exactly once,
   * in sorted order, and never builds a per-item definition on its own.
   */
  lemma {:induction false} RunBuildsInOrder<Item>(order: seq<Definition>, build: Builder<Item>,
                                                  buildPerItem: PerItemBuilder<Item>)
    requires Run(order, build, buildPerItem).threw.None?
    ensures BuiltNames(Run(order, build, buildPerItem).trace) == StandardNames(order)
    ensures Run(order, build, buildPerItem).perItemDefs == PerItemDefsOf(order)
    decreases |order|
  {
    if order != [] {
      var front, d := order[..|order| - 1], order[|order| - 1];
      var s := Run(front, build, buildPerItem);
      assert Run(order, build, buildPerItem) == Step(s, d, build, buildPerItem);
      assert s.threw.None?;
      RunBuildsInOrder(front, build, buildPerItem);
      StepBuilds(s, d, build, buildPerItem);
    }
  }

  /** A step that does not throw adds the build of a standard definition, or remembers a per-item one. */
  lemma StepBuilds<Item>(s: LoadState<Item>, d: Definition, build: Builder<Item>,
                         buildPerItem: PerItemBuilder<Item>)
    requires s.threw.None? && Step(s, d, build, buildPerItem).threw.None?
    ensures var r := Step(s, d, build, buildPerItem);
      && BuiltNames(r.trace) == BuiltNames(s.trace) + (if d.perItem then [] else [d.name])
      && r.perItemDefs == s.perItemDefs + (if d.perItem then [d] else [])
  {
    if !d.perItem {
      StepTrace(s, d, build, buildPerItem);
      var pre := PerItemRun(NeededPerItems(s.perItemDefs, d), d, s.items, buildPerItem);
      var e := Built(d.name, pre.context, build(d, pre.context));
      NoStandardBuilds(s.trace, pre.events);
      assert (s.trace + pre.events + [e])[..|s.trace + pre.events|] == s.trace + pre.events;
    }
  }

  /** Recording one standard build keeps the hook lists and the items equal to their readings of the trace. */
  lemma RecordKeepsReadings<Item>(s: LoadState<Item>, d: Definition, context: map<string, Item>,
                                  events: seq<Event<Item>>, result: Call<Option<Pack<Item>>>)
    requires forall k :: 0 <= k < |events| ==> !events[k].Built?
    requires s.stops == StopOwners(s.trace) && s.destroys == DestroyOwners(s.trace) && s.items == ItemsOf(s.trace)
    ensures var r := Record(s, d, context, events, result);
      r.stops == StopOwners(r.trace) && r.destroys == DestroyOwners(r.trace) && r.items == ItemsOf(r.trace)
  {
    NoStandardBuilds(s.trace, events);
    var t := s.trace + events;
    var e := Built(d.name, context, result);
    assert (t + [e])[..|t|] == t;
    assert Record(s, d, context, events, result).trace == t + [e];
  }

  /**
   * Whether or not a builder throws, the stop and destroy lists hold
   * exactly the names whose builder returned a pack with that hook, in
   * call order, and the shared items hold exactly the items of the packs
   * returned; nothing returned, and no per-item result, adds to any of them.
   */
  lemma {:induction false} RunRecordsPacks<Item>(order: seq<Definition>, build: Builder<Item>,
                                                 buildPerItem: PerItemBuilder<Item>)
    ensures var run := Run(order, build, buildPerItem);
      && run.stops == StopOwners(run.trace)
      && run.destroys == DestroyOwners(run.trace)
      && run.items == ItemsOf(run.trace)
    decreases |order|
  {
    if order != [] {
      var front, d := order[..|order| - 1], order[|order| - 1];
      var s := Run(front, build, buildPerItem);
      RunRecordsPacks(front, build, buildPerItem);
      if s.threw.None? && !d.perItem {
        var pre := PerItemRun(NeededPerItems(s.perItemDefs, d), d, s.items, buildPerItem);
        PerItemRunCalls(NeededPerItems(s.perItemDefs, d), d, s.items, buildPerItem);
        NoStandardBuilds(s.trace, pre.events);
        if pre.threw.None? {
          RecordKeepsReadings(s, d, pre.context, pre.events, build(d, pre.context));
        }
      }
    }
  }

  /** The names of a list of calls, as a set. */
  function EventNames<Item>(events: seq<Event<Item>>): set<string>
  {
    set k | 0 <= k < |events| :: events[k].name
  }

  /**
   * `m` with the result of every per-item call in `events` that returned
   * written over it, one call after the other.
   */
  function Overlay<Item>(m: map<string, Item>, events: seq<Event<Item>>): map<string, Item>
    decreases |events|
  {
    if events == [] then m
    else
      var e := events[|events| - 1];
      var r := Overlay(m, events[..|events| - 1]);
      if e.BuiltPerItem? && e.value.Returned? then r[e.name := e.value.value] else r
  }

  /** The value the last call for a name returned is the one the overlay holds for it. */
  lemma {:induction false} OverlayLast<Item>(m: map<string, Item>, events: seq<Event<Item>>, k: nat)
    requires k < |events| && events[k].BuiltPerItem? && events[k].value.Returned?
    requires forall j :: k < j < |events| ==> events[j].name != events[k].name
    ensures events[k].name in Overlay(m, events) && Overlay(m, events)[events[k].name] == events[k].value.value
    decreases |events|
  {
    if k < |events| - 1 {
      var front := events[..|events| - 1];
      assert front[k] == events[k];
      OverlayLast(m, front, k);
    }
  }

  /** A name no call is made for keeps its entry, or its absence, from `m`. */
  lemma {:induction false} OverlayOthers<Item>(m: map<string, Item>, events: seq<Event<Item>>, n: string)
    requires n !in EventNames(events)
    ensures n in Overlay(m, events) <==> n in m
    ensures n in m ==> Overlay(m, events)[n] == m[n]
    decreases |events|
  {
    if events != [] {
      var front := events[..|events| - 1];
      assert EventNames(front) <= EventNames(events) by {
        forall x | x in EventNames(front) ensures x in EventNames(events) {
          var j :| 0 <= j < |front| && front[j].name == x;
          assert events[j] == front[j];
        }
      }
      assert events[|events| - 1].name in EventNames(events);
      OverlayOthers(m, front, n);
    }
  }

  /** The consumer's context is the shared items with the results of its per-item builds written over them. */
  lemma {:induction false} PerItemRunOverlay<Item>(needed: seq<Definition>, consumer: Definition,
                                                   items: map<string, Item>, buildPerItem: PerItemBuilder<Item>)
    ensures var run := PerItemRun(needed, consumer, items, buildPerItem);
      run.context == Overlay(items, run.events)
    decreases |needed|
  {
    if needed != [] {
      var front := needed[..|needed| - 1];
      var s := PerItemRun(front, consumer, items, buildPerItem);
      PerItemRunOverlay(front, consumer, items, buildPerItem);
      if s.threw.None? {
        var run := PerItemRun(needed, consumer, items, buildPerItem);
        assert run.events[..|s.events|] == s.events;
      }
    }
  }

  /**
   * Each per-item builder is given the shared items with the results of
   * the per-item builds made before it, for the same consumer, written
   * over them.
   */
  lemma {:induction false} PerItemCallContexts<Item>(needed: seq<Definition>, consumer: Definition,
                                                     items: map<string, Item>, buildPerItem: PerItemBuilder<Item>)
    ensures var run := PerItemRun(needed, consumer, items, buildPerItem);
      forall k :: 0 <= k < |run.events| ==>
        run.events[k].BuiltPerItem? && run.events[k].context == Overlay(items, run.events[..k])
    decreases |needed|
  {
    if needed != [] {
      var front := needed[..|needed| - 1];
      var s := PerItemRun(front, consumer, items, buildPerItem);
      PerItemCallContexts(front, consumer, items, buildPerItem);
      if s.threw.None? {
        PerItemRunOverlay(front, consumer, items, buildPerItem);
        var run := PerItemRun(needed, consumer, items, buildPerItem);
        assert run.events[..|s.events|] == s.events;
        assert forall k :: 0 <= k < |s.events| ==> run.events[k] == s.events[k] && run.events[..k] == s.events[..k];
      }
    }
  }

  /**
   * When no per-item builder throws, the consumer's context holds under
   * each needed per-item name the result of the last build for that name.
   */
  lemma PerItemRunValues<Item>(needed: seq<Definition>, consumer: Definition,
                               items: map<string, Item>, buildPerItem: PerItemBuilder<Item>, k: nat)
    requires PerItemRun(needed, consumer, items, buildPerItem).threw.None?
    requires k < |needed| && forall j :: k < j < |needed| ==> needed[j].name != needed[k].name
    ensures var run := PerItemRun(needed, consumer, items, buildPerItem);
      && k < |run.events| && run.events[k].BuiltPerItem? && run.events[k].value.Returned?
      && needed[k].name in run.context && run.context[needed[k].name] == run.events[k].value.value
  {
    var run := PerItemRun(needed, consumer, items, buildPerItem);
    PerItemRunCalls(needed, consumer, items, buildPerItem);
    PerItemRunOverlay(needed, consumer, items, buildPerItem);
    OverlayLast(items, run.events, k);
  }

  /** The per-item calls at the very end of a trace. */
  function Trailing<Item>(trace: seq<Event<Item>>): seq<Event<Item>>
    decreases |trace|
  {
    if trace == [] || !trace[|trace| - 1].BuiltPerItem? then []
    else Trailing(trace[..|trace| - 1]) + [trace[|trace| - 1]]
  }

  /** Right after a build, the per-item calls at the end are exactly those just made. */
  lemma {:induction false} TrailingAfterBuild<Item>(t: seq<Event<Item>>, events: seq<Event<Item>>)
    requires t == [] || t[|t| - 1].Built?
    requires forall k :: 0 <= k < |events| ==> events[k].BuiltPerItem?
    ensures Trailing(t + events) == events
    decreases |events|
  {
    if events == [] {
      assert t + events == t;
    } else {
      var front := events[..|events| - 1];
      assert (t + events)[..|t + events| - 1] == t + front;
      TrailingAfterBuild(t, front);
    }
  }

  /**
   * The context each standard builder in a trace is given: the items
   * recorded before it, with the results of the per-item builds made just
   * before it written over them in call order.
   */
  ghost predicate ContextsAreItemsSoFar<Item>(t: seq<Event<Item>>)
  {
    forall k :: 0 <= k < |t| && t[k].Built? ==> t[k].context == Overlay(ItemsOf(t[..k]), Trailing(t[..k]))
  }

  /** Calls that are not standard builds, then a standard build on the right context, keep the contexts right. */
  lemma ContextsExtend<Item>(t: seq<Event<Item>>, events: seq<Event<Item>>, e: Event<Item>)
    requires ContextsAreItemsSoFar(t)
    requires forall k :: 0 <= k < |events| ==> !events[k].Built?
    requires e.Built? && e.context == Overlay(ItemsOf(t + events), Trailing(t + events))
    ensures ContextsAreItemsSoFar(t + events + [e])
  {
    var t' := t + events + [e];
    forall k | 0 <= k < |t'| && t'[k].Built?
      ensures t'[k].context == Overlay(ItemsOf(t'[..k]), Trailing(t'[..k]))
    {
      if k < |t| {
        assert t'[k] == t[k] && t'[..k] == t[..k];
      } else if k == |t'| - 1 {
        assert t'[..k] == t + events;
      }
    }
  }

  /** One step of a load that has not failed keeps every builder's context right. */
  lemma StepContexts<Item>(s: LoadState<Item>, d: Definition, build: Builder<Item>,
                           buildPerItem: PerItemBuilder<Item>)
    requires s.threw.None? && Step(s, d, build, buildPerItem).threw.None?
    requires s.items == ItemsOf(s.trace)
    requires (s.trace == [] || s.trace[|s.trace| - 1].Built?) && ContextsAreItemsSoFar(s.trace)
    ensures var t := Step(s, d, build, buildPerItem).trace;
      (t == [] || t[|t| - 1].Built?) && ContextsAreItemsSoFar(t)
  {
    if d.perItem {
      return;
    }
    var needed := NeededPerItems(s.perItemDefs, d);
    var pre := PerItemRun(needed, d, s.items, buildPerItem);
    StepTrace(s, d, build, buildPerItem);
    PerItemRunCalls(needed, d, s.items, buildPerItem);
    PerItemRunOverlay(needed, d, s.items, buildPerItem);
    NoStandardBuilds(s.trace, pre.events);
    TrailingAfterBuild(s.trace, pre.events);
    ContextsExtend(s.trace, pre.events, Built(d.name, pre.context, build(d, pre.context)));
  }

  /**
   * Every standard builder is given a copy of the items recorded before
   * it, with the results of the per-item builds made for it just before
   * written over them in call order; the per-item results go nowhere else.
   */
  lemma {:induction false} RunContexts<Item>(order: seq<Definition>, build: Builder<Item>,
                                             buildPerItem: PerItemBuilder<Item>)
    requires Run(order, build, buildPerItem).threw.None?
    ensures var t := Run(order, build, buildPerItem).trace;
      (t == [] || t[|t| - 1].Built?) && ContextsAreItemsSoFar(t)
    decreases |order|
  {
    if order != [] {
      var front, d := order[..|order| - 1], order[|order| - 1];
      var s := Run(front, build, buildPerItem);
      assert Run(order, build, buildPerItem) == Step(s, d, build, buildPerItem);
      assert s.threw.None?;
      RunContexts(front, build, buildPerItem);
      RunRecordsPacks(front, build, buildPerItem);
      StepContexts(s, d, build, buildPerItem);
    }
  }
}
