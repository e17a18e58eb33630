/** Next hops along routes given as edge lists (controller/src/utils.rs): when a route has several
    destinations, and what every node is told. */
module UnicastRoutes {
  import opened Wrappers
  import opened Arborescences
  import opened RouteTables
  import opened GroupRoutes
  import HopPaths

  datatype Route = Route(routeId: nat, src: nat, dst: nat, edges: seq<Edge>)

  // ---------- reachability ----------

  /** The neighbours of every node. */
  function Along(edges: seq<Edge>): HopPaths.Next {
    (n: nat) => OutNeighbours(edges, n)
  }

  ghost predicate Reaches(edges: seq<Edge>, a: nat, v: nat) {
    HopPaths.Reaches(Along(edges), a, v)
  }

  /** A set that no edge leaves holds everything its members reach. */
  lemma ClosedHolds(edges: seq<Edge>, nodes: set<nat>, a: nat, v: nat)
    requires a in nodes && Reaches(edges, a, v) && forall e :: e in edges && e.0 in nodes ==> e.1 in nodes
    ensures v in nodes
  {
    forall b: nat, c: nat | b in nodes && c in Along(edges)(b) ensures c in nodes {
      assert (b, c) in edges && (b, c).1 == c;
    }
    HopPaths.ClosedReaches(Along(edges), (n: nat) => n in nodes, a, v);
  }

  // ---------- several destinations ----------

  predicate HasOutgoing(edges: seq<Edge>, v: nat) {
    exists e :: e in edges && e.0 == v
  }

  predicate HasIncoming(edges: seq<Edge>, v: nat) {
    exists e :: e in edges && e.1 == v
  }

  predicate IsSink(edges: seq<Edge>, v: nat) {
    !HasOutgoing(edges, v) && HasIncoming(edges, v)
  }

  ghost predicate SeveralDestinations(edges: seq<Edge>, src: nat) {
    exists a: nat, b: nat ::
      a != b && Reaches(edges, src, a) && Reaches(edges, src, b) && IsSink(edges, a) && IsSink(edges, b)
  }

  function NodesOf(edges: seq<Edge>): set<nat> {
    (set e | e in edges :: e.0) + (set e | e in edges :: e.1)
  }

  /** Visited and stacked nodes are reachable, and every edge from a visited node leads to one. */
  ghost predicate SearchOk(edges: seq<Edge>, src: nat, reachable: set<nat>, stack: seq<nat>) {
    && reachable <= NodesOf(edges) && (forall v :: v in stack ==> v in NodesOf(edges))
    && (forall v :: v in reachable || v in stack ==> Reaches(edges, src, v))
    && (src in reachable || src in stack)
    && (forall e :: e in edges && e.0 in reachable ==> e.1 in reachable || e.1 in stack)
  }

  lemma PushNeighbours(edges: seq<Edge>, src: nat, node: nat, neighbours: seq<nat>)
    requires Reaches(edges, src, node) && neighbours == OutNeighbours(edges, node)
    ensures forall v :: v in neighbours ==> v in NodesOf(edges) && Reaches(edges, src, v)
  {
    forall v | v in neighbours ensures v in NodesOf(edges) && Reaches(edges, src, v) {
      assert (node, v) in edges && (node, v).1 == v;
      HopPaths.ReachesThen(Along(edges), src, node, v);
    }
  }

  lemma VisitKeeps(edges: seq<Edge>, src: nat, reachable: set<nat>, rest: seq<nat>, node: nat)
    requires SearchOk(edges, src, reachable, rest + [node]) && node !in reachable
    ensures SearchOk(edges, src, reachable + {node}, rest + OutNeighbours(edges, node))
    ensures NodesOf(edges) - (reachable + {node}) < NodesOf(edges) - reachable
  {
    var neighbours, stack := OutNeighbours(edges, node), rest + OutNeighbours(edges, node);
    assert node in rest + [node];
    PushNeighbours(edges, src, node, neighbours);
    forall e | e in edges && e.0 in reachable + {node} ensures e.1 in reachable + {node} || e.1 in stack {
      if e.0 == node {
        assert e == (node, e.1) && e.1 in neighbours;
      } else {
        assert e.1 in reachable || e.1 in rest + [node];
      }
    }
    forall v | v in reachable + {node} || v in stack ensures Reaches(edges, src, v) {
      if v in rest {
        assert v in rest + [node];
      }
    }
    forall v | v in stack ensures v in NodesOf(edges) {
      if v in rest {
        assert v in rest + [node];
      }
    }
  }

  /** The depth-first search with an explicit stack: finds exactly the reachable nodes. */
  method ReachableNodes(edges: seq<Edge>, src: nat) returns (reachable: set<nat>)
    requires src in NodesOf(edges)
    ensures forall v :: v in reachable <==> Reaches(edges, src, v)
  {
    reachable := {};
    var stack := [src];
    HopPaths.ReachesItself(Along(edges), src);
    assert src in stack;
    while stack != []
      invariant SearchOk(edges, src, reachable, stack)
      decreases NodesOf(edges) - reachable, |stack|
    {
      var node := stack[|stack| - 1];
      var rest := stack[..|stack| - 1];
      assert stack == rest + [node];
      if node in reachable {
        stack := rest;
      } else {
        VisitKeeps(edges, src, reachable, rest, node);
        reachable, stack := reachable + {node}, rest + OutNeighbours(edges, node);
      }
    }
    forall v | Reaches(edges, src, v) ensures v in reachable {
      ClosedHolds(edges, reachable, src, v);
    }
  }

  lemma TwoMembers(s: set<nat>, a: nat, b: nat)
    requires a in s && b in s && a != b
    ensures |s| >= 2
  {
    assert s == {a, b} + (s - {a, b});
  }

  /** The counting loop stops at the second sink. */
  method CountsTwo(edges: seq<Edge>, reachable: set<nat>) returns (r: bool)
    ensures r <==> exists a, b :: a in reachable && b in reachable && a != b && IsSink(edges, a) && IsSink(edges, b)
  {
    var rest, count := reachable, 0;
    ghost var sinks: set<nat> := {};
    while rest != {}
      invariant rest <= reachable && count == |sinks| <= 1
      invariant forall v :: v in sinks <==> v in reachable - rest && IsSink(edges, v)
      decreases rest
    {
      var v :| v in rest;
      rest := rest - {v};
      if IsSink(edges, v) {
        count := count + 1;
        if count > 1 {
          ghost var a :| a in sinks;
          assert a != v;
          return true;
        }
        sinks := sinks + {v};
      }
    }
    if exists a, b :: a in reachable && b in reachable && a != b && IsSink(edges, a) && IsSink(edges, b) {
      ghost var a, b :| a in reachable && b in reachable && a != b && IsSink(edges, a) && IsSink(edges, b);
      TwoMembers(sinks, a, b);
    }
    r := false;
  }

  /** `route_has_multiple_destinations`. */
  method RouteHasMultipleDestinations(route: Route) returns (r: bool)
    ensures r <==> SeveralDestinations(route.edges, route.src)
  {
    if route.src !in NodesOf(route.edges) {
      OnlyItself(route.edges, route.src);
      return false;
    }
    var reachable := ReachableNodes(route.edges, route.src);
    r := CountsTwo(route.edges, reachable);
  }

  lemma OnlyItself(edges: seq<Edge>, src: nat)
    requires src !in NodesOf(edges)
    ensures !SeveralDestinations(edges, src)
  {
    forall c: nat ensures (src, c) !in edges {
      assert (src, c) in edges ==> (src, c).0 in NodesOf(edges);
    }
    forall a: nat | Reaches(edges, src, a) ensures a == src {
      HopPaths.ReachesFirst(Along(edges), src, a);
    }
  }

  // ---------- next hops of one node ----------

  /** The elements of `ns` that are new, in order of first appearance. */
  function Unique(seen: seq<nat>, ns: seq<nat>): seq<nat>
    decreases ns
  {
    if ns == [] then seen else Unique(if ns[0] in seen then seen else seen + [ns[0]], ns[1..])
  }

  /** The hops of a node on a route: its neighbours, or itself at a sink; none off the route. */
  function RouteHopsAt(edges: seq<Edge>, n: nat): Option<Hops> {
    if OutNeighbours(edges, n) != [] then Some(Unique([], OutNeighbours(edges, n)))
    else if IsSink(edges, n) then Some([n])
    else None
  }

  method UniqueNeighbours(edges: seq<Edge>, n: nat) returns (hops: Hops)
    ensures hops == Unique([], OutNeighbours(edges, n))
  {
    var ns := OutNeighbours(edges, n);
    hops := [];
    var i := 0;
    while i < |ns|
      invariant 0 <= i <= |ns|
      invariant Unique(hops, ns[i..]) == Unique([], ns)
    {
      assert ns[i..][1..] == ns[i + 1..];
      if ns[i] !in hops {
        hops := hops + [ns[i]];
      }
      i := i + 1;
    }
  }

  lemma {:induction false} UniqueSets(seen: seq<nat>, ns: seq<nat>)
    requires Distinct(seen)
    ensures Distinct(Unique(seen, ns))
    ensures forall m :: m in Unique(seen, ns) <==> m in seen || m in ns
    decreases ns
  {
    if ns != [] {
      UniqueSets(if ns[0] in seen then seen else seen + [ns[0]], ns[1..]);
    }
  }

  /** A neighbour is added at the end when it appears for the first time. */
  lemma {:induction false} UniqueNext(seen: seq<nat>, ns: seq<nat>, m: nat)
    ensures Unique(seen, []) == seen
    ensures Unique(seen, ns + [m]) == Unique(seen, ns) + if m in seen || m in ns then [] else [m]
    decreases ns
  {
    if ns == [] {
      assert ns + [m] == [m] && [m][1..] == [];
    } else {
      assert (ns + [m])[1..] == ns[1..] + [m] && (ns + [m])[0] == ns[0];
      UniqueNext(if ns[0] in seen then seen else seen + [ns[0]], ns[1..], m);
    }
  }

  /** Node ids have 32 bits. */
  ghost predicate SmallIds(edges: seq<Edge>) {
    forall e :: e in edges ==> e.0 < 0x1_0000_0000 && e.1 < 0x1_0000_0000
  }

  datatype BuiltEntry = BuiltEntry(entry: RouteEntry, multicast: bool)

  /** The entry of a node for one route, if it has any hops there. */
  ghost function EntriesOf(r: Route, n: nat): seq<BuiltEntry> {
    match RouteHopsAt(r.edges, n)
    case Some(hops) => [BuiltEntry(RouteEntry(r.routeId, r.src, r.dst, hops), SeveralDestinations(r.edges, r.src))]
    case None => []
  }

  ghost function EntriesFor(routes: seq<Route>, n: nat): seq<BuiltEntry>
    decreases routes
  {
    if routes == [] then [] else EntriesOf(routes[0], n) + EntriesFor(routes[1..], n)
  }

  lemma EntriesStep(entries: seq<BuiltEntry>, routes: seq<Route>, n: nat, i: nat)
    requires i < |routes|
    ensures entries + EntriesFor(routes[i..], n) == entries + EntriesOf(routes[i], n) + EntriesFor(routes[i + 1..], n)
  {
    assert routes[i..][1..] == routes[i + 1..];
  }

  lemma SmallSink(edges: seq<Edge>, n: nat)
    requires SmallIds(edges)
    ensures IsSink(edges, n) ==> n in NodesOf(edges) && n != INVALID
  {
    if IsSink(edges, n) {
      var e :| e in edges && e.1 == n;
    }
  }

  /** The next hops of one route; a list with only the invalid marker means none. */
  method NextHops(edges: seq<Edge>, n: nat) returns (hops: Hops)
    requires SmallIds(edges)
    ensures hops == if RouteHopsAt(edges, n).Some? then RouteHopsAt(edges, n).value else [INVALID]
    ensures RouteHopsAt(edges, n).Some? ==> hops != [INVALID]
  {
    hops := UniqueNeighbours(edges, n);
    UniqueSets([], OutNeighbours(edges, n));
    if hops == [] {
      assert forall m :: m in OutNeighbours(edges, n) ==> m in hops;
      SmallSink(edges, n);
      if n in NodesOf(edges) && IsSink(edges, n) {
        hops := [n];
      } else {
        hops := [INVALID];
      }
    } else {
      assert (n, hops[0]) in edges && (n, hops[0]).1 == hops[0];
    }
  }

  method EntryOf(route: Route, n: nat) returns (entries: seq<BuiltEntry>)
    requires SmallIds(route.edges)
    ensures entries == EntriesOf(route, n)
  {
    var multicast := RouteHasMultipleDestinations(route);
    var hops := NextHops(route.edges, n);
    entries := if hops == [INVALID] then [] else
      [BuiltEntry(RouteEntry(route.routeId, route.src, route.dst, hops), multicast)];
  }

  /** `build_routes_for_node`. */
  method BuildRoutesForNode(routes: seq<Route>, n: nat) returns (r: Option<seq<BuiltEntry>>)
    requires forall route :: route in routes ==> SmallIds(route.edges)
    ensures r == if EntriesFor(routes, n) == [] then None else Some(EntriesFor(routes, n))
  {
    var entries: seq<BuiltEntry> := [];
    var i := 0;
    while i < |routes|
      invariant 0 <= i <= |routes|
      invariant entries + EntriesFor(routes[i..], n) == EntriesFor(routes, n)
    {
      EntriesStep(entries, routes, n, i);
      var more := EntryOf(routes[i], n);
      entries := entries + more;
      i := i + 1;
    }
    assert routes[i..] == [] && entries + [] == entries;
    r := if entries == [] then None else Some(entries);
  }
}
