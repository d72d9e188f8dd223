/**
 * Orders a definition list by need: the node and edge lists handed to the
 * topological sort, the lookup of each sorted name back to its definition,
 * and the whole `sortDefinitions` step including the uniqueness check.
 */
module Sorting {
  import opened Wrappers
  import opened Definitions
  import TopoSort

  /** One edge (d.name, y) for every name y that d needs, in need order. */
  function DefEdges(d: Definition): (r: seq<TopoSort.Edge>)
    ensures |r| == |GetNeed(d)|
    ensures forall k :: 0 <= k < |r| ==> r[k] == (d.name, GetNeed(d)[k])
  {
    seq(|GetNeed(d)|, k requires 0 <= k < |GetNeed(d)| => (d.name, GetNeed(d)[k]))
  }

  /**
   * All dependency edges of a definition list: an edge (x, y) whenever
   * definition x needs y, definitions taken in order.
   */
  function Edges(defs: seq<Definition>): seq<TopoSort.Edge>
  {
    if defs == [] then [] else DefEdges(defs[0]) + Edges(defs[1..])
  }

  /** The edges are exactly the pairs (x, y) where definition x needs y. */
  lemma {:induction false} EdgesMembers(defs: seq<Definition>)
    ensures forall e :: e in Edges(defs) ==> exists d :: d in defs && e.0 == d.name && e.1 in GetNeed(d)
    ensures forall d, n :: d in defs && n in GetNeed(d) ==> (d.name, n) in Edges(defs)
  {
    if defs != [] {
      EdgesMembers(defs[1..]);
      assert forall d :: d in defs ==> d == defs[0] || d in defs[1..];
      assert forall n :: n in GetNeed(defs[0]) ==> (defs[0].name, n) in DefEdges(defs[0]);
    }
  }

  /** Definition d needing n gives the edge (d.name, n). */
  lemma EdgeOf(defs: seq<Definition>, d: Definition, n: string)
    requires d in defs && n in GetNeed(d)
    ensures (d.name, n) in Edges(defs)
  {
    EdgesMembers(defs);
  }

  /** Every edge leaves a definition and points at one of its needs. */
  lemma EdgeSource(defs: seq<Definition>, k: nat) returns (d: Definition)
    requires k < |Edges(defs)|
    ensures d in defs && Edges(defs)[k].0 == d.name && Edges(defs)[k].1 in GetNeed(d)
  {
    assert Edges(defs)[k] in Edges(defs);
    EdgesMembers(defs);
    d :| d in defs && Edges(defs)[k].0 == d.name && Edges(defs)[k].1 in GetNeed(d);
  }

  /** The first definition carrying `name`; the list is known to hold one. */
  function Find(defs: seq<Definition>, name: string): (r: Definition)
    requires name in Names(defs)
    ensures r in defs && r.name == name
    ensures NamesDistinct(defs) ==> forall k :: 0 <= k < |defs| && defs[k].name == name ==> r == defs[k]
  {
    if defs[0].name == name then defs[0]
    else
      assert Names(defs) == [defs[0].name] + Names(defs[1..]);
      assert forall k :: 1 <= k < |defs| ==> defs[k] == defs[1..][k - 1];
      Find(defs[1..], name)
  }

  /** Maps every sorted name back to its definition. */
  function MapBack(sorted: seq<string>, defs: seq<Definition>): (r: seq<Definition>)
    requires forall n :: n in sorted ==> n in Names(defs)
    ensures |r| == |sorted|
    ensures Names(r) == sorted
  {
    seq(|sorted|, k requires 0 <= k < |sorted| => Find(defs, sorted[k]))
  }

  /** Every need of every definition names a definition of the list. */
  predicate AllNeedsKnown(defs: seq<Definition>)
  {
    forall i :: 0 <= i < |defs| ==> forall n :: n in GetNeed(defs[i]) ==> n in Names(defs)
  }

  /** Every name a definition needs is the name of an earlier definition. */
  predicate NeedsFirst(s: seq<Definition>)
  {
    forall k :: 0 <= k < |s| ==> forall n :: n in GetNeed(s[k]) ==> n in Names(s[..k])
  }

  /**
   * The part of `sortDefinitions` after the uniqueness check: the sorted
   * node names, mapped back to their definitions.
   */
  function SortByNeed(defs: seq<Definition>): (r: Result<seq<Definition>, LoadError>)
    requires NamesDistinct(defs)
    ensures r.Failure? ==> r.error.UnknownNeed? || r.error == Cyclic
  {
    match TopoSort.Sort(Names(defs), Edges(defs))
    case Failure(e) => if e.UnknownNode? then Failure(UnknownNeed(e.name)) else Failure(Cyclic)
    case Success(sorted) =>
      TopoSort.SortSound(Names(defs), Edges(defs));
      assert forall n :: n in sorted ==> n in multiset(Names(defs));
      Success(MapBack(sorted, defs))
  }

  /**
   * `sortDefinitions`: rejects a repeated name first, then orders the
   * definitions by need.
   */
  method SortDefinitions(defs: seq<Definition>) returns (r: Result<seq<Definition>, LoadError>)
    ensures r.Failure? && r.error.Duplicated? <==> !NamesDistinct(defs)
    ensures r.Failure? && r.error.Duplicated? ==> IsFirstRepeat(defs, r.error.name)
    ensures NamesDistinct(defs) ==> r == SortByNeed(defs)
  {
    var unique := CheckUniqueDefinitions(defs);
    if unique.Fail? {
      return Failure(unique.error);
    }
    r := SortByNeed(defs);
  }

  /** `f` applied to every element of `s`. */
  ghost function Apply<A, B>(f: A -> B, s: seq<A>): (r: seq<B>)
    ensures |r| == |s| && forall k :: 0 <= k < |s| ==> r[k] == f(s[k])
  {
    seq(|s|, k requires 0 <= k < |s| => f(s[k]))
  }

  lemma ApplyConcat<A, B>(f: A -> B, u: seq<A>, v: seq<A>)
    ensures Apply(f, u + v) == Apply(f, u) + Apply(f, v)
  {
    var l, r := Apply(f, u + v), Apply(f, u) + Apply(f, v);
    forall k | 0 <= k < |u + v| ensures l[k] == r[k] {
      if k < |u| {
        assert (u + v)[k] == u[k];
      } else {
        assert (u + v)[k] == v[k - |u|];
      }
    }
  }

  /** Taking out the element at position j takes its image out of the mapped sequence. */
  lemma ApplyWithout<A, B>(f: A -> B, b: seq<A>, j: nat)
    requires j < |b|
    ensures multiset(Apply(f, b)) == multiset{f(b[j])} + multiset(Apply(f, b[..j] + b[j + 1..]))
  {
    var fx, front, back := Apply(f, [b[j]]), Apply(f, b[..j]), Apply(f, b[j + 1..]);
    assert b == b[..j] + ([b[j]] + b[j + 1..]);
    ApplyConcat(f, b[..j], [b[j]] + b[j + 1..]);
    ApplyConcat(f, [b[j]], b[j + 1..]);
    ApplyConcat(f, b[..j], b[j + 1..]);
    assert fx == [f(b[j])];
    assert Apply(f, b) == front + (fx + back);
  }

  /** Applying a function to two arrangements of the same elements gives two arrangements of the same results. */
  lemma {:induction false} ApplyPermutation<A, B>(f: A -> B, a: seq<A>, b: seq<A>)
    requires multiset(a) == multiset(b)
    ensures multiset(Apply(f, a)) == multiset(Apply(f, b))
    decreases |a|
  {
    if a == [] {
      assert |b| == |multiset(b)| == 0;
    } else {
      var x := a[0];
      assert x in multiset(b);
      var j :| 0 <= j < |b| && b[j] == x;
      var b' := b[..j] + b[j + 1..];
      assert b == b[..j] + [x] + b[j + 1..];
      assert a == [x] + a[1..];
      assert multiset(a[1..]) == multiset(a) - multiset{x};
      assert multiset(b') == multiset(b) - multiset{x};
      ApplyPermutation(f, a[1..], b');
      ApplyWithout(f, b, j);
      ApplyWithout(f, a, 0);
      assert a[..0] + a[1..] == a[1..];
      assert multiset(Apply(f, a)) == multiset{f(x)} + multiset(Apply(f, a[1..]));
      assert multiset(Apply(f, b)) == multiset{f(x)} + multiset(Apply(f, b'));
    }
  }

  /** Mapping two arrangements of the same names back gives two arrangements of the same definitions. */
  lemma MapBackPermutation(a: seq<string>, b: seq<string>, defs: seq<Definition>)
    requires forall n :: n in a ==> n in Names(defs)
    requires multiset(a) == multiset(b)
    ensures forall n :: n in b ==> n in Names(defs)
    ensures multiset(MapBack(a, defs)) == multiset(MapBack(b, defs))
  {
    assert forall n :: n in b ==> n in multiset(a);
    var f := (n: string) => if n in Names(defs) then Find(defs, n) else Definition(n, Absent, false);
    assert MapBack(a, defs) == Apply(f, a);
    assert MapBack(b, defs) == Apply(f, b);
    ApplyPermutation(f, a, b);
  }

  /** With distinct names, mapping the names of a list back gives the list itself. */
  lemma MapBackNames(defs: seq<Definition>)
    requires NamesDistinct(defs)
    ensures forall n :: n in Names(defs) ==> n in Names(defs)
    ensures MapBack(Names(defs), defs) == defs
  {
    var m := MapBack(Names(defs), defs);
    forall k | 0 <= k < |defs| ensures m[k] == defs[k] {
      assert Names(defs)[k] == defs[k].name;
    }
  }

  /** Mapping a dependency-respecting order of the names back puts every need first. */
  lemma MapBackNeedsFirst(sorted: seq<string>, defs: seq<Definition>)
    requires forall n :: n in sorted ==> n in Names(defs)
    requires TopoSort.Respects(sorted, Edges(defs))
    ensures NeedsFirst(MapBack(sorted, defs))
  {
    var s, edges := MapBack(sorted, defs), Edges(defs);
    forall k, n | 0 <= k < |s| && n in GetNeed(s[k]) ensures n in Names(s[..k]) {
      NeedBefore(sorted, defs, k, n);
    }
  }

  lemma NeedBefore(sorted: seq<string>, defs: seq<Definition>, k: nat, n: string)
    requires forall n :: n in sorted ==> n in Names(defs)
    requires TopoSort.Respects(sorted, Edges(defs))
    requires k < |sorted| && n in GetNeed(MapBack(sorted, defs)[k])
    ensures n in Names(MapBack(sorted, defs)[..k])
  {
    var s, edges := MapBack(sorted, defs), Edges(defs);
    var d := s[k];
    assert d == Find(defs, sorted[k]);
    EdgeOf(defs, d, n);
    var e :| 0 <= e < |edges| && edges[e] == (d.name, n);
    assert TopoSort.ReadyAfter(sorted[k], edges, sorted[..k]);
    assert n in sorted[..k];
    assert Names(s[..k]) == sorted[..k];
  }

  /** A successful sort is a permutation of the definitions in which needs come first. */
  lemma SortByNeedSound(defs: seq<Definition>)
    requires NamesDistinct(defs)
    ensures SortByNeed(defs).Success? ==>
      var s := SortByNeed(defs).value;
      multiset(s) == multiset(defs) && NeedsFirst(s)
  {
    var nodes, edges := Names(defs), Edges(defs);
    TopoSort.SortSound(nodes, edges);
    if SortByNeed(defs).Success? {
      var sorted := TopoSort.Sort(nodes, edges).value;
      assert forall n :: n in sorted ==> n in multiset(nodes);
      assert SortByNeed(defs).value == MapBack(sorted, defs);
      MapBackNeedsFirst(sorted, defs);
      MapBackPermutation(sorted, nodes, defs);
      MapBackNames(defs);
    }
  }

  /** A needs-first arrangement of the definitions is an order of the names that respects the edges. */
  lemma NeedsFirstRespects(s: seq<Definition>, defs: seq<Definition>)
    requires NamesDistinct(defs) && multiset(s) == multiset(defs)
    ensures forall n :: n in Names(defs) ==> n in Names(s)
    ensures NeedsFirst(s) ==> TopoSort.Respects(Names(s), Edges(defs))
  {
    forall n | n in Names(defs) ensures n in Names(s) {
      var m :| 0 <= m < |defs| && defs[m].name == n;
      assert defs[m] in multiset(s);
      var p :| 0 <= p < |s| && s[p] == defs[m];
    }
    if NeedsFirst(s) {
      var edges, o := Edges(defs), Names(s);
      forall i | 0 <= i < |o| ensures TopoSort.ReadyAfter(o[i], edges, o[..i]) {
        forall k | 0 <= k < |edges| && edges[k].0 == o[i] ensures edges[k].1 in o[..i] {
          EdgeNeededBefore(s, defs, i, k);
        }
      }
    }
  }

  /** In a needs-first arrangement, the target of an edge leaving the i-th name comes before it. */
  lemma EdgeNeededBefore(s: seq<Definition>, defs: seq<Definition>, i: nat, k: nat)
    requires NamesDistinct(defs) && multiset(s) == multiset(defs) && NeedsFirst(s)
    requires i < |s| && k < |Edges(defs)| && Edges(defs)[k].0 == s[i].name
    ensures Edges(defs)[k].1 in Names(s)[..i]
  {
    var d := EdgeSource(defs, k);
    assert s[i] in multiset(defs);
    var p :| 0 <= p < |defs| && defs[p] == s[i];
    var m :| 0 <= m < |defs| && defs[m] == d;
    assert d == s[i];
    assert Names(s[..i]) == Names(s)[..i];
  }

  /**
   * The sort fails on an unknown need exactly when some need names no
   * definition, and fails on a cycle only when no arrangement of the
   * definitions puts every need first.
   */
  lemma SortByNeedFailures(defs: seq<Definition>)
    requires NamesDistinct(defs)
    ensures SortByNeed(defs).Failure? && SortByNeed(defs).error.UnknownNeed? <==> !AllNeedsKnown(defs)
    ensures SortByNeed(defs).Failure? && SortByNeed(defs).error.UnknownNeed? ==>
      SortByNeed(defs).error.name !in Names(defs)
    ensures SortByNeed(defs) == Failure(Cyclic) ==>
      forall s :: multiset(s) == multiset(defs) ==> !NeedsFirst(s)
  {
    var nodes, edges := Names(defs), Edges(defs);
    TopoSort.SortFailures(nodes, edges);
    if !AllNeedsKnown(defs) {
      var i, n :| 0 <= i < |defs| && n in GetNeed(defs[i]) && n !in nodes;
      EdgeOf(defs, defs[i], n);
    }
    forall k | 0 <= k < |edges| && (edges[k].0 !in nodes || edges[k].1 !in nodes)
      ensures !AllNeedsKnown(defs)
    {
      var d := EdgeSource(defs, k);
      var i :| 0 <= i < |defs| && defs[i] == d;
      assert nodes[i] == d.name;
    }
    if SortByNeed(defs) == Failure(Cyclic) {
      forall s | multiset(s) == multiset(defs) ensures !NeedsFirst(s) {
        NeedsFirstRespects(s, defs);
      }
    }
  }
}
