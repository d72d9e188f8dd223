/**
 * A deterministic topological sort over named nodes and dependency edges,
 * standing in for the external `toposort` package. An edge (x, y) says
 * that x needs y, so y must come before x. Kahn's algorithm is used:
 * repeatedly place the first remaining node, in input order, whose every
 * dependency has already been placed.
 */
module TopoSort {
  import opened Wrappers

  type Edge = (string, string)

  datatype SortError = UnknownNode(name: string) | CyclicDependency

  /** Every dependency of node x is among `before`. */
  predicate ReadyAfter(x: string, edges: seq<Edge>, before: seq<string>)
  {
    forall k :: 0 <= k < |edges| && edges[k].0 == x ==> edges[k].1 in before
  }

  /** Every node of `order` comes after all of its dependencies. */
  ghost predicate Respects(order: seq<string>, edges: seq<Edge>)
  {
    forall i :: 0 <= i < |order| ==> ReadyAfter(order[i], edges, order[..i])
  }

  /** The first endpoint of an edge, scanning the edges in order, that is not a node. */
  function UnknownEndpoint(nodes: seq<string>, edges: seq<Edge>): (r: Option<string>)
    ensures r.None? <==> forall k :: 0 <= k < |edges| ==> edges[k].0 in nodes && edges[k].1 in nodes
    ensures r.Some? ==>
      r.value !in nodes && exists k :: 0 <= k < |edges| && (edges[k].0 == r.value || edges[k].1 == r.value)
  {
    if edges == [] then None
    else if edges[0].0 !in nodes then Some(edges[0].0)
    else if edges[0].1 !in nodes then Some(edges[0].1)
    else
      var r := UnknownEndpoint(nodes, edges[1..]);
      assert forall k :: 1 <= k < |edges| ==> edges[k] == edges[1..][k - 1];
      r
  }

  /** Both ends of each of the first k edges are nodes. */
  predicate KnownBefore(nodes: seq<string>, edges: seq<Edge>, k: nat)
  {
    forall j :: 0 <= j < k && j < |edges| ==> edges[j].0 in nodes && edges[j].1 in nodes
  }

  /**
   * The name UnknownEndpoint reports belongs to the first edge with an end
   * that is not a node, and is that edge's source when the source is unknown.
   */
  lemma {:induction false} UnknownEndpointFirst(nodes: seq<string>, edges: seq<Edge>)
    ensures UnknownEndpoint(nodes, edges).Some? ==>
      exists k :: 0 <= k < |edges| && KnownBefore(nodes, edges, k)
        && UnknownEndpoint(nodes, edges).value == (if edges[k].0 !in nodes then edges[k].0 else edges[k].1)
  {
    if edges == [] {
    } else if edges[0].0 !in nodes || edges[0].1 !in nodes {
      assert KnownBefore(nodes, edges, 0);
    } else {
      var rest := edges[1..];
      UnknownEndpointFirst(nodes, rest);
      if UnknownEndpoint(nodes, rest).Some? {
        var k :| 0 <= k < |rest| && KnownBefore(nodes, rest, k)
          && UnknownEndpoint(nodes, rest).value == (if rest[k].0 !in nodes then rest[k].0 else rest[k].1);
        ShiftKnown(nodes, edges, k);
        assert edges[k + 1] == rest[k];
      }
    }
  }

  /** Prefixing a known edge keeps the first edges known. */
  lemma ShiftKnown(nodes: seq<string>, edges: seq<Edge>, k: nat)
    requires edges != [] && edges[0].0 in nodes && edges[0].1 in nodes && KnownBefore(nodes, edges[1..], k)
    ensures KnownBefore(nodes, edges, k + 1)
  {
    forall j | 1 <= j < k + 1 && j < |edges| ensures edges[j].0 in nodes && edges[j].1 in nodes {
      assert edges[j] == edges[1..][j - 1];
    }
  }

  /** The position of the first node of `remaining` that is ready after `placed`. */
  function FirstReady(remaining: seq<string>, edges: seq<Edge>, placed: seq<string>): (r: Option<nat>)
    ensures r.Some? ==> r.value < |remaining|
  {
    if remaining == [] then None
    else if ReadyAfter(remaining[0], edges, placed) then Some(0)
    else
      match FirstReady(remaining[1..], edges, placed)
      case None => None
      case Some(i) => Some(i + 1)
  }

  /**
   * FirstReady finds the first ready node: the one at the index it returns
   * is ready and none before it is; when it finds none, no node is ready.
   */
  lemma {:induction false} FirstReadyFirst(remaining: seq<string>, edges: seq<Edge>, placed: seq<string>)
    ensures var r := FirstReady(remaining, edges, placed);
      r.Some? ==> (ReadyAfter(remaining[r.value], edges, placed)
        && forall j :: 0 <= j < r.value ==> !ReadyAfter(remaining[j], edges, placed))
    ensures FirstReady(remaining, edges, placed).None? ==>
      forall j :: 0 <= j < |remaining| ==> !ReadyAfter(remaining[j], edges, placed)
  {
    if remaining != [] && !ReadyAfter(remaining[0], edges, placed) {
      FirstReadyFirst(remaining[1..], edges, placed);
      assert forall j :: 1 <= j < |remaining| ==> remaining[j] == remaining[1..][j - 1];
    }
  }

  /** Kahn's algorithm: `placed` is the order so far, `remaining` the nodes still to place. */
  function Kahn(remaining: seq<string>, edges: seq<Edge>, placed: seq<string>): Result<seq<string>, SortError>
    decreases |remaining|
  {
    if remaining == [] then Success(placed)
    else
      match FirstReady(remaining, edges, placed)
      case None => Failure(CyclicDependency)
      case Some(i) => Kahn(remaining[..i] + remaining[i + 1..], edges, placed + [remaining[i]])
  }

  /**
   * Sorts `nodes` so that every node comes after the nodes it needs. Edges
   * naming an unknown node are refused first; a cycle is refused next.
   */
  function Sort(nodes: seq<string>, edges: seq<Edge>): Result<seq<string>, SortError>
  {
    match UnknownEndpoint(nodes, edges)
    case Some(n) => Failure(UnknownNode(n))
    case None => Kahn(nodes, edges, [])
  }

  /** Kahn only ever fails on a cycle, and a success is a dependency-respecting permutation. */
  lemma {:induction false} KahnSound(remaining: seq<string>, edges: seq<Edge>, placed: seq<string>)
    requires Respects(placed, edges)
    ensures Kahn(remaining, edges, placed).Failure? ==> Kahn(remaining, edges, placed).error == CyclicDependency
    ensures Kahn(remaining, edges, placed).Success? ==>
      var order := Kahn(remaining, edges, placed).value;
      Respects(order, edges) && multiset(order) == multiset(placed + remaining)
    decreases |remaining|
  {
    if remaining != [] {
      match FirstReady(remaining, edges, placed)
      case None =>
      case Some(i) =>
        FirstReadyFirst(remaining, edges, placed);
        var x := remaining[i];
        var rest := remaining[..i] + remaining[i + 1..];
        var placed' := placed + [x];
        forall j | 0 <= j < |placed'| ensures ReadyAfter(placed'[j], edges, placed'[..j]) {
          if j < |placed| {
            assert placed'[..j] == placed[..j];
          } else {
            assert placed'[..j] == placed;
          }
        }
        KahnSound(rest, edges, placed');
        assert remaining == remaining[..i] + [x] + remaining[i + 1..];
        assert multiset(placed' + rest) == multiset(placed + remaining);
    }
  }

  /**
   * No sequence that contains every remaining node and every placed node
   * respects the edges.
   */
  ghost predicate Blocked(remaining: seq<string>, edges: seq<Edge>, placed: seq<string>)
  {
    forall order :: (forall n :: n in remaining ==> n in order) ==>
      !Respects(order, edges) || exists n :: n in placed && n !in order
  }

  /**
   * When every dependency is a known node, Kahn fails only if no sequence
   * containing all the nodes respects the edges.
   */
  lemma {:induction false} KahnComplete(remaining: seq<string>, edges: seq<Edge>, placed: seq<string>)
    requires forall k :: 0 <= k < |edges| ==> edges[k].1 in placed || edges[k].1 in remaining
    requires Kahn(remaining, edges, placed).Failure?
    ensures Blocked(remaining, edges, placed)
    decreases |remaining|
  {
    match FirstReady(remaining, edges, placed)
    case None =>
      FirstReadyFirst(remaining, edges, placed);
      NoneReady(remaining, edges, placed);
    case Some(i) =>
      StillKnown(remaining, edges, placed, i);
      KahnComplete(remaining[..i] + remaining[i + 1..], edges, placed + [remaining[i]]);
      WidenOrders(remaining, edges, placed, i);
  }

  /**
   * What holds for orders covering the rest after placing the i-th node
   * holds for orders covering every remaining node.
   */
  lemma WidenOrders(remaining: seq<string>, edges: seq<Edge>, placed: seq<string>, i: nat)
    requires i < |remaining|
    requires Blocked(remaining[..i] + remaining[i + 1..], edges, placed + [remaining[i]])
    ensures Blocked(remaining, edges, placed)
  {
    var rest := remaining[..i] + remaining[i + 1..];
    forall order | forall n :: n in remaining ==> n in order
      ensures !Respects(order, edges) || exists n :: n in placed && n !in order
    {
      assert forall n :: n in rest ==> n in remaining;
      assert remaining[i] in order;
    }
  }

  /**
   * When no remaining node is ready, no order holding every node respects
   * the edges: the earliest remaining node of the order needs another
   * remaining node, which cannot come earlier.
   */
  lemma NoneReady(remaining: seq<string>, edges: seq<Edge>, placed: seq<string>)
    requires forall k :: 0 <= k < |edges| ==> edges[k].1 in placed || edges[k].1 in remaining
    requires remaining != [] && forall j :: 0 <= j < |remaining| ==> !ReadyAfter(remaining[j], edges, placed)
    ensures Blocked(remaining, edges, placed)
  {
    forall order | forall n :: n in remaining ==> n in order
      ensures !Respects(order, edges) || exists n :: n in placed && n !in order
    {
      if forall n :: n in placed ==> n in order {
        assert remaining[0] in order;
        var k := EarliestIn(order, remaining);
        var j :| 0 <= j < |remaining| && remaining[j] == order[k];
        assert !ReadyAfter(remaining[j], edges, placed);
        var e :| 0 <= e < |edges| && edges[e].0 == order[k] && edges[e].1 !in placed;
        assert edges[e].1 in remaining;
        assert edges[e].1 !in order[..k];
        assert !ReadyAfter(order[k], edges, order[..k]);
      }
    }
  }

  /** Placing the i-th remaining node keeps every dependency a known node. */
  lemma StillKnown(remaining: seq<string>, edges: seq<Edge>, placed: seq<string>, i: nat)
    requires i < |remaining|
    requires forall k :: 0 <= k < |edges| ==> edges[k].1 in placed || edges[k].1 in remaining
    ensures forall k :: 0 <= k < |edges| ==>
      edges[k].1 in placed + [remaining[i]] || edges[k].1 in remaining[..i] + remaining[i + 1..]
  {
    var x, rest := remaining[i], remaining[..i] + remaining[i + 1..];
    assert remaining == remaining[..i] + [x] + remaining[i + 1..];
    forall k | 0 <= k < |edges| ensures edges[k].1 in placed + [x] || edges[k].1 in rest {
      if edges[k].1 in remaining && edges[k].1 != x {
        assert edges[k].1 in remaining[..i] || edges[k].1 in remaining[i + 1..];
      }
    }
  }

  /** The position of the first element of `order` that belongs to `pool`. */
  lemma EarliestIn(order: seq<string>, pool: seq<string>) returns (k: nat)
    requires exists n :: n in pool && n in order
    ensures k < |order| && order[k] in pool
    ensures forall j :: 0 <= j < k ==> order[j] !in pool
  {
    k := 0;
    while order[k] !in pool
      invariant k < |order|
      invariant forall j :: 0 <= j < k ==> order[j] !in pool
      decreases |order| - k
    {
      if k + 1 == |order| {
        var n :| n in pool && n in order;
        var m :| 0 <= m < |order| && order[m] == n;
        assert false;
      }
      k := k + 1;
    }
  }

  /** A successful sort is a dependency-respecting permutation of the nodes. */
  lemma SortSound(nodes: seq<string>, edges: seq<Edge>)
    ensures Sort(nodes, edges).Success? ==>
      var order := Sort(nodes, edges).value;
      Respects(order, edges) && multiset(order) == multiset(nodes)
  {
    if UnknownEndpoint(nodes, edges).None? {
      KahnSound(nodes, edges, []);
    }
  }

  /**
   * Sort fails on an unknown endpoint exactly when an edge names something
   * that is not a node, and fails on a cycle only when no order of the
   * nodes respects the edges.
   */
  lemma SortFailures(nodes: seq<string>, edges: seq<Edge>)
    ensures Sort(nodes, edges).Failure? && Sort(nodes, edges).error.UnknownNode? <==>
      exists k :: 0 <= k < |edges| && (edges[k].0 !in nodes || edges[k].1 !in nodes)
    ensures Sort(nodes, edges).Failure? && Sort(nodes, edges).error.UnknownNode? ==>
      Sort(nodes, edges).error.name !in nodes
    ensures Sort(nodes, edges) == Failure(CyclicDependency) ==>
      forall order :: (forall n :: n in nodes ==> n in order) ==> !Respects(order, edges)
  {
    if UnknownEndpoint(nodes, edges).None? {
      KahnSound(nodes, edges, []);
      if Kahn(nodes, edges, []).Failure? {
        KahnComplete(nodes, edges, []);
      }
    }
  }
}
