/**
 * The scenarios the repository's tests exercise, worked out on the model.
 */
module Examples {
  import opened Wrappers
  import opened Definitions
  import Sorting
  import TopoSort
  import opened Lifecycle
  import LoadProperties

  function Def(name: string, need: Need): Definition
  {
    Definition(name, need, false)
  }

  /** Four distinct names. */
  predicate Distinct4(a: string, b: string, c: string, d: string)
  {
    a != b && a != c && a != d && b != c && b != d && c != d
  }

  /** Four definitions with four distinct names have distinct names. */
  lemma FourDistinct(defs: seq<Definition>)
    requires |defs| == 4 && Distinct4(defs[0].name, defs[1].name, defs[2].name, defs[3].name)
    ensures NamesDistinct(defs)
  {
  }

  /**
   * The definitions of the ordering scenario, listed out of order: `d` needs
   * c, `a` needs nothing, `c` needs b and a, `b` needs a.
   */
  function Chain(a: string, b: string, c: string, d: string): seq<Definition>
  {
    [Def(d, List([c])), Def(a, Absent), Def(c, List([b, a])), Def(b, List([a]))]
  }

  /** The definitions of the ordering scenario sort to a, b, c, d. */
  lemma {:induction false} SortExample(a: string, b: string, c: string, d: string)
    requires Distinct4(a, b, c, d)
    ensures NamesDistinct(Chain(a, b, c, d))
    ensures Sorting.SortByNeed(Chain(a, b, c, d))
         == Success([Def(a, Absent), Def(b, List([a])), Def(c, List([b, a])), Def(d, List([c]))])
  {
    var defs := Chain(a, b, c, d);
    var nodes := [d, a, c, b];
    FourDistinct(defs);
    assert Names(defs) == nodes;
    ChainEdges(a, b, c, d);
    ChainKnown(a, b, c, d);
    ChainKahn(a, b, c, d);
    ChainMapBack(a, b, c, d);
  }

  /**
   * Whatever the builders return, a load of the ordering scenario in which
   * no builder throws calls them for a, b, c and d, in that order.
   */
  lemma SortExampleBuilds<Item>(a: string, b: string, c: string, d: string,
                                build: Builder<Item>, buildPerItem: PerItemBuilder<Item>)
    requires Distinct4(a, b, c, d)
    requires Run(Ordered(a, b, c, d), build, buildPerItem).threw.None?
    ensures Sorting.SortByNeed(Chain(a, b, c, d)) == Success(Ordered(a, b, c, d))
    ensures LoadProperties.BuiltNames(Run(Ordered(a, b, c, d), build, buildPerItem).trace) == [a, b, c, d]
  {
    SortExample(a, b, c, d);
    LoadProperties.RunBuildsInOrder(Ordered(a, b, c, d), build, buildPerItem);
    OrderedStandard(a, b, c, d);
  }

  lemma OrderedStandard(a: string, b: string, c: string, d: string)
    ensures LoadProperties.StandardNames(Ordered(a, b, c, d)) == [a, b, c, d]
  {
    var o := Ordered(a, b, c, d);
    assert o[..1][..0] == [] && o[..2][..1] == o[..1] && o[..3][..2] == o[..2] && o[..|o| - 1] == o[..3];
    assert LoadProperties.StandardNames(o[..1]) == [a];
    assert LoadProperties.StandardNames(o[..2]) == [a, b];
    assert LoadProperties.StandardNames(o[..3]) == [a, b, c];
  }

  lemma ChainEdges(a: string, b: string, c: string, d: string)
    ensures Sorting.Edges(Chain(a, b, c, d)) == [(d, c), (c, b), (c, a), (b, a)]
  {
    var defs := Chain(a, b, c, d);
    assert [(d, c)] + [(c, b), (c, a), (b, a)] == [(d, c), (c, b), (c, a), (b, a)];
    ChainTailEdges(a, b, c, d);
    assert Sorting.Edges(defs[1..]) == [(c, b), (c, a), (b, a)];
    assert Sorting.DefEdges(defs[0]) == [(d, c)];
    EdgesCons(defs, [(d, c)], [(c, b), (c, a), (b, a)], [(d, c), (c, b), (c, a), (b, a)]);
  }

  lemma ChainTailEdges(a: string, b: string, c: string, d: string)
    ensures Sorting.Edges(Chain(a, b, c, d)[1..]) == [(c, b), (c, a), (b, a)]
  {
    var defs := Chain(a, b, c, d);
    assert Sorting.Edges(defs[3..]) == [(b, a)] by {
      assert defs[3..][1..] == [];
    }
    EdgesCons(defs[2..], [(c, b), (c, a)], [(b, a)], [(c, b), (c, a), (b, a)]);
    EdgesCons(defs[1..], [], [(c, b), (c, a), (b, a)], [(c, b), (c, a), (b, a)]);
  }

  /** The edges of a list are those of its head followed by those of its tail. */
  lemma EdgesCons(defs: seq<Definition>, head: seq<TopoSort.Edge>, tail: seq<TopoSort.Edge>,
                  whole: seq<TopoSort.Edge>)
    requires defs != [] && Sorting.DefEdges(defs[0]) == head && Sorting.Edges(defs[1..]) == tail
    requires whole == head + tail
    ensures Sorting.Edges(defs) == whole
  {
  }

  lemma ChainKnown(a: string, b: string, c: string, d: string)
    ensures TopoSort.UnknownEndpoint([d, a, c, b], [(d, c), (c, b), (c, a), (b, a)]).None?
  {
  }

  lemma ChainKahn(a: string, b: string, c: string, d: string)
    requires Distinct4(a, b, c, d)
    ensures TopoSort.Kahn([d, a, c, b], [(d, c), (c, b), (c, a), (b, a)], []) == Success([a, b, c, d])
  {
    var edges := [(d, c), (c, b), (c, a), (b, a)];
    ChainKahnAfterA(a, b, c, d);
    assert !TopoSort.ReadyAfter(d, edges, []) by {
      assert edges[0] == (d, c);
    }
    Placed([d, a, c, b], 1, [d, c, b], edges, [], [a]);
  }

  lemma ChainKahnAfterA(a: string, b: string, c: string, d: string)
    requires Distinct4(a, b, c, d)
    ensures TopoSort.Kahn([d, c, b], [(d, c), (c, b), (c, a), (b, a)], [a]) == Success([a, b, c, d])
  {
    var edges := [(d, c), (c, b), (c, a), (b, a)];
    ChainKahnAfterB(a, b, c, d);
    assert !TopoSort.ReadyAfter(d, edges, [a]) by {
      assert edges[0] == (d, c);
    }
    assert !TopoSort.ReadyAfter(c, edges, [a]) by {
      assert edges[1] == (c, b);
    }
    Placed([d, c, b], 2, [d, c], edges, [a], [a, b]);
  }

  lemma ChainKahnAfterB(a: string, b: string, c: string, d: string)
    requires Distinct4(a, b, c, d)
    ensures TopoSort.Kahn([d, c], [(d, c), (c, b), (c, a), (b, a)], [a, b]) == Success([a, b, c, d])
  {
    var edges := [(d, c), (c, b), (c, a), (b, a)];
    assert TopoSort.Kahn([], edges, [a, b, c, d]) == Success([a, b, c, d]);
    Placed([d], 0, [], edges, [a, b, c], [a, b, c, d]);
    assert !TopoSort.ReadyAfter(d, edges, [a, b]) by {
      assert edges[0] == (d, c);
    }
    Placed([d, c], 1, [d], edges, [a, b], [a, b, c]);
  }

  /** Kahn places `remaining[i]` when it is the first ready node. */
  lemma Placed(remaining: seq<string>, i: nat, rest: seq<string>, edges: seq<TopoSort.Edge>,
               placed: seq<string>, placed': seq<string>)
    requires i < |remaining| && TopoSort.ReadyAfter(remaining[i], edges, placed)
    requires forall j :: 0 <= j < i ==> !TopoSort.ReadyAfter(remaining[j], edges, placed)
    requires rest == remaining[..i] + remaining[i + 1..] && placed' == placed + [remaining[i]]
    ensures TopoSort.Kahn(remaining, edges, placed) == TopoSort.Kahn(rest, edges, placed')
  {
    TopoSort.FirstReadyFirst(remaining, edges, placed);
  }

  lemma ChainMapBack(a: string, b: string, c: string, d: string)
    requires Distinct4(a, b, c, d)
    ensures Names(Chain(a, b, c, d)) == [d, a, c, b]
    ensures Sorting.MapBack([a, b, c, d], Chain(a, b, c, d))
         == [Def(a, Absent), Def(b, List([a])), Def(c, List([b, a])), Def(d, List([c]))]
  {
    var defs := Chain(a, b, c, d);
    assert Names(defs) == [d, a, c, b];
    MapBackOf([a, b, c, d], defs, [defs[1], defs[3], defs[2], defs[0]]);
  }

  /** With distinct names, mapping names back gives the definitions that carry them. */
  lemma MapBackOf(sorted: seq<string>, defs: seq<Definition>, s: seq<Definition>)
    requires NamesDistinct(defs)
    requires |s| == |sorted| && forall k :: 0 <= k < |s| ==> s[k] in defs && s[k].name == sorted[k]
    ensures forall n :: n in sorted ==> n in Names(defs)
    ensures Sorting.MapBack(sorted, defs) == s
  {
    forall n | n in sorted ensures n in Names(defs) {
      var k :| 0 <= k < |sorted| && sorted[k] == n;
      var i :| 0 <= i < |defs| && defs[i] == s[k];
      assert Names(defs)[i] == n;
    }
    forall k | 0 <= k < |s| ensures Sorting.MapBack(sorted, defs)[k] == s[k] {
      var i :| 0 <= i < |defs| && defs[i] == s[k];
    }
  }

  /** `a` needs b and `b` needs a: the sort reports a cycle. */
  lemma CycleExample(a: string, b: string)
    requires a != b && a != "" && b != ""
    ensures NamesDistinct([Def(a, Single(b)), Def(b, Single(a))])
    ensures Sorting.SortByNeed([Def(a, Single(b)), Def(b, Single(a))]) == Failure(Cyclic)
  {
    var defs := [Def(a, Single(b)), Def(b, Single(a))];
    CycleNames(a, b);
    CycleEdges(a, b);
    CycleKahn(a, b);
    CyclicSort(defs);
  }

  lemma CycleNames(a: string, b: string)
    requires a != b
    ensures NamesDistinct([Def(a, Single(b)), Def(b, Single(a))])
    ensures Names([Def(a, Single(b)), Def(b, Single(a))]) == [a, b]
  {
  }

  /** The need-order sort reports the cycle the topological sort finds. */
  lemma CyclicSort(defs: seq<Definition>)
    requires NamesDistinct(defs)
    requires TopoSort.Sort(Names(defs), Sorting.Edges(defs)) == Failure(TopoSort.CyclicDependency)
    ensures Sorting.SortByNeed(defs) == Failure(Cyclic)
  {
  }

  lemma CycleEdges(a: string, b: string)
    requires a != "" && b != ""
    ensures Sorting.Edges([Def(a, Single(b)), Def(b, Single(a))]) == [(a, b), (b, a)]
  {
    var defs := [Def(a, Single(b)), Def(b, Single(a))];
    assert defs[1..][1..] == [];
    assert Sorting.Edges(defs[1..]) == [(b, a)];
  }

  lemma CycleKahn(a: string, b: string)
    requires a != b
    ensures TopoSort.Sort([a, b], [(a, b), (b, a)]) == Failure(TopoSort.CyclicDependency)
  {
    var edges := [(a, b), (b, a)];
    assert TopoSort.UnknownEndpoint([a, b], edges).None?;
    assert !TopoSort.ReadyAfter(a, edges, []) by {
      assert edges[0] == (a, b);
    }
    assert !TopoSort.ReadyAfter(b, edges, []) by {
      assert edges[1] == (b, a);
    }
    TopoSort.FirstReadyFirst([a, b], edges, []);
  }

  /** The definitions of the ordering scenario in build order. */
  function Ordered(a: string, b: string, c: string, d: string): seq<Definition>
  {
    [Def(a, Absent), Def(b, List([a])), Def(c, List([b, a])), Def(d, List([c]))]
  }

  /** `a` hands back a stop and a destroy hook, `b` nothing, `c` a stop hook, `d` a destroy hook. */
  function HookBuilder(a: string, c: string, d: string): Builder<int>
  {
    (def: Definition, context: map<string, int>) =>
      if def.name == a then Returned(Some(Pack(0, true, true)))
      else if def.name == c then Returned(Some(Pack(0, true, false)))
      else if def.name == d then Returned(Some(Pack(0, false, true)))
      else Returned(None)
  }

  /** A per-item builder that is never called in these scenarios. */
  function NoPerItem(): PerItemBuilder<int>
  {
    (p: Definition, context: map<string, int>, consumer: Definition) => Returned(0)
  }

  /** Building the scenario records stop hooks for a then c and destroy hooks for a then d. */
  lemma HookRun(a: string, b: string, c: string, d: string)
    requires Distinct4(a, b, c, d)
    ensures var run := Run(Ordered(a, b, c, d), HookBuilder(a, c, d), NoPerItem());
      run.threw.None? && run.stops == [a, c] && run.destroys == [a, d]
  {
    var order, build, none := Ordered(a, b, c, d), HookBuilder(a, c, d), NoPerItem();
    var r0 := Run(order[..0], build, none);
    assert r0 == InitialState();
    var r1 := Run(order[..1], build, none);
    assert order[..1][..0] == order[..0];
    PlainStep(r0, order[0], build, none);
    assert r1.threw.None? && r1.perItemDefs == [] && r1.stops == [a] && r1.destroys == [a];
    var r2 := Run(order[..2], build, none);
    assert order[..2][..1] == order[..1];
    PlainStep(r1, order[1], build, none);
    assert r2.threw.None? && r2.perItemDefs == [] && r2.stops == [a] && r2.destroys == [a];
    var r3 := Run(order[..3], build, none);
    assert order[..3][..2] == order[..2];
    PlainStep(r2, order[2], build, none);
    assert r3.threw.None? && r3.perItemDefs == [] && r3.stops == [a, c] && r3.destroys == [a];
    assert order[..4][..3] == order[..3];
    PlainStep(r3, order[3], build, none);
    assert order[..4] == order;
  }

  /** With no per-item definition seen, a standard definition is built on the shared items alone. */
  lemma PlainStep<Item>(s: LoadState<Item>, d: Definition, build: Builder<Item>, buildPerItem: PerItemBuilder<Item>)
    requires s.threw.None? && s.perItemDefs == [] && !d.perItem
    ensures Step(s, d, build, buildPerItem) == Record(s, d, s.items, [], build(d, s.items))
  {
    assert NeededPerItems(s.perItemDefs, d) == [];
  }

  /** The hook lists a load of the scenario stores, in the order `close` walks them. */
  lemma HookLists(a: string, b: string, c: string, d: string)
    requires Distinct4(a, b, c, d)
    ensures NamesDistinct(Chain(a, b, c, d)) && Sorting.SortByNeed(Chain(a, b, c, d)).Success?
    ensures var run := Run(Sorting.SortByNeed(Chain(a, b, c, d)).value, HookBuilder(a, c, d), NoPerItem());
      run.threw.None? && Reverse(run.stops) == [c, a] && Reverse(run.destroys) == [d, a]
  {
    SortExample(a, b, c, d);
    HookRun(a, b, c, d);
    assert Sorting.SortByNeed(Chain(a, b, c, d)).value == Ordered(a, b, c, d);
    ReverseTwo(a, c);
    ReverseTwo(a, d);
  }

  lemma ReverseTwo(x: string, y: string)
    ensures Reverse([x, y]) == [y, x]
  {
  }

  /**
   * Loading the scenario and closing the holder stops c, then a, and then
   * destroys d, then a.
   */
  method CloseScenario(a: string, b: string, c: string, d: string) returns (closing: seq<Event<int>>)
    requires Distinct4(a, b, c, d)
    ensures closing == [Stopped(c), Stopped(a), Destroyed(d), Destroyed(a)]
  {
    var holder := new Holder<int>();
    HookLists(a, b, c, d);
    var loaded := holder.Load(Chain(a, b, c, d), HookBuilder(a, c, d), NoPerItem());
    assert holder.loaded && holder.stops == [c, a] && holder.destroys == [d, a];
    var before := holder.log;
    var closed := holder.Close();
    assert holder.log == before + Teardown([c, a], [d, a]);
    closing := holder.log[|before|..];
    assert closing == Teardown([c, a], [d, a]);
    TeardownTwoTwo(c, a, d, a);
  }

  lemma TeardownTwoTwo(s0: string, s1: string, d0: string, d1: string)
    ensures Teardown<int>([s0, s1], [d0, d1]) == [Stopped(s0), Stopped(s1), Destroyed(d0), Destroyed(d1)]
  {
  }

  /** Loading two definitions with the same name fails on that name before any builder runs. */
  method DuplicateScenario(a: string) returns (r: Outcome<LoadError>, calls: seq<Event<int>>)
    ensures r == Fail(Duplicated(a)) && calls == []
  {
    var holder := new Holder<int>();
    r := holder.Load([Def(a, Absent), Def(a, Absent)], HookBuilder(a, a, a), NoPerItem());
    calls := holder.log;
  }

  /** Loading two definitions that need each other fails on the cycle before any builder runs. */
  method CycleScenario(a: string, b: string) returns (r: Outcome<LoadError>, calls: seq<Event<int>>)
    requires a != b && a != "" && b != ""
    ensures r == Fail(Cyclic) && calls == []
  {
    var holder := new Holder<int>();
    CycleExample(a, b);
    r := holder.Load([Def(a, Single(b)), Def(b, Single(a))], HookBuilder(a, b, b), NoPerItem());
    calls := holder.log;
  }

  /** Closing a holder that never completed a load fails and calls no hook. */
  method CloseBeforeLoad() returns (r: Outcome<CloseError>, calls: seq<Event<int>>)
    ensures r == Fail(NotLoaded) && calls == []
  {
    var holder := new Holder<int>();
    r := holder.Close();
    calls := holder.log;
  }

  /** `x` needs nothing; `y` needs x as a single name. */
  lemma PairSort(x: string, y: string)
    requires x != y && x != ""
    ensures NamesDistinct([Def(x, Absent), Def(y, Single(x))])
    ensures Sorting.SortByNeed([Def(x, Absent), Def(y, Single(x))]) == Success([Def(x, Absent), Def(y, Single(x))])
  {
    var defs := [Def(x, Absent), Def(y, Single(x))];
    assert Names(defs) == [x, y];
    PairEdges(x, y);
    PairKahn(x, y);
    assert Sorting.MapBack([x, y], defs) == defs;
  }

  lemma PairEdges(x: string, y: string)
    requires x != ""
    ensures Sorting.Edges([Def(x, Absent), Def(y, Single(x))]) == [(y, x)]
  {
    var defs := [Def(x, Absent), Def(y, Single(x))];
    assert defs[1..][1..] == [];
    assert Sorting.Edges(defs[1..]) == [(y, x)];
  }

  lemma PairKahn(x: string, y: string)
    requires x != y
    ensures TopoSort.Sort([x, y], [(y, x)]) == Success([x, y])
  {
    var edges := [(y, x)];
    assert TopoSort.UnknownEndpoint([x, y], edges).None?;
    Placed([y], 0, [], edges, [x], [x, y]);
    assert !TopoSort.ReadyAfter(y, edges, []) by {
      assert edges[0] == (y, x);
    }
    Placed([x, y], 0, [y], edges, [], [x]);
  }

  /** The item builder for the pair: x hands back its item, y returns nothing. */
  function ItemBuilder(x: string, item: string): Builder<string>
  {
    (def: Definition, context: map<string, string>) =>
      if def.name == x then Returned(Some(Pack(item, false, false))) else Returned(None)
  }

  /**
   * Loading `x`, which hands back `item`, and `y`, which needs x: the
   * builder of x gets an empty context and the builder of y gets x's item.
   */
  method ItemScenario(x: string, y: string, item: string) returns (calls: seq<Event<string>>)
    requires x != y && x != ""
    ensures calls == [Built(x, map[], Returned(Some(Pack(item, false, false)))),
                      Built(y, map[x := item], Returned(None))]
  {
    var holder := new Holder<string>();
    var defs := [Def(x, Absent), Def(y, Single(x))];
    var build, none := ItemBuilder(x, item), (p: Definition, context: map<string, string>, consumer: Definition) => Returned("");
    PairSort(x, y);
    var run := Run(defs, build, none);
    assert defs[..1][..0] == [] && defs[..2][..1] == defs[..1] && defs[..2] == defs;
    var s1 := Run(defs[..1], build, none);
    assert Run(defs[..1][..0], build, none) == InitialState();
    PlainStep(InitialState(), defs[0], build, none);
    assert build(defs[0], map[]) == Returned(Some(Pack(item, false, false)));
    assert s1.perItemDefs == [] && s1.threw.None? && s1.items == map[x := item];
    PlainStep(s1, defs[1], build, none);
    assert build(defs[1], s1.items) == Returned(None);
    var r := holder.Load(defs, build, none);
    calls := holder.log;
  }

  /**
   * The per-item scenario: `b` is a standard definition, `n` a per-item
   * definition needing b, and `x` and `y` two consumers of n.
   */
  function PerItemDefs(b: string, n: string, x: string, y: string): seq<Definition>
  {
    [Def(b, Absent), Definition(n, Single(b), true), Def(x, Single(n)), Def(y, Single(n))]
  }

  /**
   * The per-item scenario sorts in list order. Between the two consumers x
   * and y the order is the model's tie-break: the library may place y
   * first, and the scenario below then makes y's calls before x's.
   */
  lemma PerItemSort(b: string, n: string, x: string, y: string)
    requires Distinct4(b, n, x, y) && b != "" && n != ""
    ensures NamesDistinct(PerItemDefs(b, n, x, y))
    ensures Sorting.SortByNeed(PerItemDefs(b, n, x, y)) == Success(PerItemDefs(b, n, x, y))
  {
    var defs := PerItemDefs(b, n, x, y);
    FourDistinct(defs);
    assert Names(defs) == [b, n, x, y];
    PerItemEdges(b, n, x, y);
    PerItemKahn(b, n, x, y);
    Sorting.MapBackNames(defs);
  }

  lemma PerItemEdges(b: string, n: string, x: string, y: string)
    requires b != "" && n != ""
    ensures Sorting.Edges(PerItemDefs(b, n, x, y)) == [(n, b), (x, n), (y, n)]
  {
    var defs := PerItemDefs(b, n, x, y);
    assert Sorting.Edges(defs[3..]) == [(y, n)] by {
      assert defs[3..][1..] == [];
    }
    EdgesCons(defs[2..], [(x, n)], [(y, n)], [(x, n), (y, n)]);
    EdgesCons(defs[1..], [(n, b)], [(x, n), (y, n)], [(n, b), (x, n), (y, n)]);
    EdgesCons(defs, [], [(n, b), (x, n), (y, n)], [(n, b), (x, n), (y, n)]);
  }

  lemma PerItemKnown(b: string, n: string, x: string, y: string)
    ensures TopoSort.UnknownEndpoint([b, n, x, y], [(n, b), (x, n), (y, n)]).None?
  {
  }

  lemma PerItemKahn(b: string, n: string, x: string, y: string)
    requires Distinct4(b, n, x, y)
    ensures TopoSort.Sort([b, n, x, y], [(n, b), (x, n), (y, n)]) == Success([b, n, x, y])
  {
    var edges := [(n, b), (x, n), (y, n)];
    PerItemKnown(b, n, x, y);
    PerItemKahnAfterB(b, n, x, y);
    Placed([b, n, x, y], 0, [n, x, y], edges, [], [b]);
  }

  lemma PerItemKahnAfterB(b: string, n: string, x: string, y: string)
    requires Distinct4(b, n, x, y)
    ensures TopoSort.Kahn([n, x, y], [(n, b), (x, n), (y, n)], [b]) == Success([b, n, x, y])
  {
    var edges := [(n, b), (x, n), (y, n)];
    Placed([y], 0, [], edges, [b, n, x], [b, n, x, y]);
    Placed([x, y], 0, [y], edges, [b, n], [b, n, x]);
    Placed([n, x, y], 0, [x, y], edges, [b], [b, n]);
  }

  /** `b` hands back `base`; every other standard builder returns nothing. */
  function BaseBuilder(b: string, base: string): Builder<string>
  {
    (def: Definition, context: map<string, string>) =>
      if def.name == b then Returned(Some(Pack(base, false, false))) else Returned(None)
  }

  /** The per-item builder returns the name of the consumer it is built for. */
  function ConsumerName(): PerItemBuilder<string>
  {
    (p: Definition, context: map<string, string>, consumer: Definition) => Returned(consumer.name)
  }

  /**
   * Building the per-item scenario: n is built once for x and once for y,
   * each time on a context holding b's item, and each consumer sees its own
   * per-item result; the shared items never get n.
   */
  lemma PerItemRunExample(b: string, n: string, x: string, y: string, base: string)
    requires Distinct4(b, n, x, y) && b != "" && n != ""
    ensures var run := Run(PerItemDefs(b, n, x, y), BaseBuilder(b, base), ConsumerName());
      && run.threw.None? && run.items == map[b := base]
      && run.trace == [
        Built(b, map[], Returned(Some(Pack(base, false, false)))),
        BuiltPerItem(n, x, map[b := base], Returned(x)),
        Built(x, map[b := base, n := x], Returned(None)),
        BuiltPerItem(n, y, map[b := base], Returned(y)),
        Built(y, map[b := base, n := y], Returned(None))]
  {
    var defs, build, perItem := PerItemDefs(b, n, x, y), BaseBuilder(b, base), ConsumerName();
    PerItemAfterX(b, n, x, base);
    assert defs[..3] == [Def(b, Absent), Definition(n, Single(b), true), Def(x, Single(n))];
    assert defs[..3] + [defs[3]] == defs;
    RunSnoc(defs[..3], defs[3], build, perItem);
    ConsumerStep(Run(defs[..3], build, perItem), defs[3], build, perItem);
  }

  /** The state after the first consumer x is built on its own per-item result. */
  lemma PerItemAfterX(b: string, n: string, x: string, base: string)
    requires b != n && b != x && n != x && b != "" && n != ""
    ensures Run([Def(b, Absent), Definition(n, Single(b), true), Def(x, Single(n))], BaseBuilder(b, base), ConsumerName())
         == LoadState(map[b := base], [Definition(n, Single(b), true)], [], [],
                      [Built(b, map[], Returned(Some(Pack(base, false, false)))),
                       BuiltPerItem(n, x, map[b := base], Returned(x)),
                       Built(x, map[b := base, n := x], Returned(None))], None)
  {
    var build, perItem := BaseBuilder(b, base), ConsumerName();
    var two := [Def(b, Absent), Definition(n, Single(b), true)];
    PerItemBase(b, n, base);
    RunSnoc(two, Def(x, Single(n)), build, perItem);
    assert two + [Def(x, Single(n))] == [Def(b, Absent), Definition(n, Single(b), true), Def(x, Single(n))];
    ConsumerStep(Run(two, build, perItem), Def(x, Single(n)), build, perItem);
  }

  /** The state after building b and remembering the per-item definition n. */
  lemma PerItemBase(b: string, n: string, base: string)
    requires b != n
    ensures Run([Def(b, Absent), Definition(n, Single(b), true)], BaseBuilder(b, base), ConsumerName())
         == LoadState(map[b := base], [Definition(n, Single(b), true)], [], [],
                      [Built(b, map[], Returned(Some(Pack(base, false, false))))], None)
  {
    var build, perItem := BaseBuilder(b, base), ConsumerName();
    var first := Def(b, Absent);
    RunSnoc([], first, build, perItem);
    PlainStep(InitialState(), first, build, perItem);
    assert build(first, map[]) == Returned(Some(Pack(base, false, false)));
    RunSnoc([first], Definition(n, Single(b), true), build, perItem);
  }

  /** Running one more definition is one more step. */
  lemma RunSnoc<Item>(order: seq<Definition>, d: Definition, build: Builder<Item>, buildPerItem: PerItemBuilder<Item>)
    ensures Run(order + [d], build, buildPerItem) == Step(Run(order, build, buildPerItem), d, build, buildPerItem)
  {
    assert (order + [d])[..|order|] == order;
  }

  /**
   * Loading the per-item scenario: each consumer's builder gets its own
   * per-item result, and the holder completes the load. The calls for x
   * come before those for y because of the model's sort order.
   */
  method PerItemScenario(b: string, n: string, x: string, y: string, base: string)
    returns (r: Outcome<LoadError>, calls: seq<Event<string>>)
    requires Distinct4(b, n, x, y) && b != "" && n != ""
    ensures r == Pass
    ensures calls == [
      Built(b, map[], Returned(Some(Pack(base, false, false)))),
      BuiltPerItem(n, x, map[b := base], Returned(x)),
      Built(x, map[b := base, n := x], Returned(None)),
      BuiltPerItem(n, y, map[b := base], Returned(y)),
      Built(y, map[b := base, n := y], Returned(None))]
  {
    var holder := new Holder<string>();
    PerItemSort(b, n, x, y);
    PerItemRunExample(b, n, x, y, base);
    r := holder.Load(PerItemDefs(b, n, x, y), BaseBuilder(b, base), ConsumerName());
    calls := holder.log;
  }

  /**
   * A consumer of the one per-item definition seen so far, whose builder
   * returns nothing: one per-item build on the shared items, then the
   * consumer's build on them plus the per-item result.
   */
  lemma ConsumerStep(s: LoadState<string>, d: Definition, build: Builder<string>, perItem: PerItemBuilder<string>)
    requires s.threw.None? && |s.perItemDefs| == 1 && !d.perItem && GetNeed(d) == [s.perItemDefs[0].name]
    requires perItem(s.perItemDefs[0], s.items, d).Returned?
    requires build(d, s.items[s.perItemDefs[0].name := perItem(s.perItemDefs[0], s.items, d).value]) == Returned(None)
    ensures var p, v := s.perItemDefs[0], perItem(s.perItemDefs[0], s.items, d).value;
      Step(s, d, build, perItem)
        == s.(trace := s.trace + [BuiltPerItem(p.name, d.name, s.items, Returned(v)),
                                  Built(d.name, s.items[p.name := v], Returned(None))])
  {
    var p := s.perItemDefs[0];
    assert s.perItemDefs[1..] == [];
    assert NeededPerItems(s.perItemDefs, d) == [p];
    assert [p][..0] == [];
    assert PerItemRun([p][..0], d, s.items, perItem) == PerItemState(s.items, [], None);
    var pre := PerItemRun([p], d, s.items, perItem);
    assert pre.context == s.items[p.name := perItem(p, s.items, d).value];
    assert pre.events == [BuiltPerItem(p.name, d.name, s.items, perItem(p, s.items, d))];
  }

  /**
   * A consumer whose context holds something other than the value its
   * per-item build returned breaks the context property of a load.
   */
  lemma WrongPerItemValue(n: string, x: string)
    ensures !LoadProperties.ContextsAreItemsSoFar<int>(
      [BuiltPerItem(n, x, map[], Returned(1)), Built(x, map[n := 999], Returned(None))])
  {
    var t: seq<Event<int>> := [BuiltPerItem(n, x, map[], Returned(1)), Built(x, map[n := 999], Returned(None))];
    var first := t[..1];
    assert first[..0] == [];
    assert LoadProperties.ItemsOf(first) == map[];
    assert LoadProperties.Trailing(first) == first;
    assert LoadProperties.Overlay(map[], first)[n] == 1;
  }
}
