/** Where packets on unicast routes end up: the entries that the controller builds for every node
    (controller/src/utils.rs), installed and looked up at every node (dataplane/src/node/route.rs). */
module RouteDelivery {
  import opened Wrappers
  import opened Arborescences
  import opened FlowIds
  import opened FlowLookups
  import opened RouteTables
  import opened GroupRoutes
  import opened HopPaths
  import opened MulticastDelivery
  import opened UnicastRoutes

  // ---------- forwarding towards lower ranks ----------

  /** On these nodes packets go to nodes of lower rank, or end: the only hop of a node where they
      end is the node itself. */
  ghost predicate Descends(next: Next, on: nat -> bool, rank: nat -> nat) {
    forall v: nat {:trigger on(v)} :: on(v) ==> DescendsAt(next, on, rank, v)
  }

  ghost predicate DescendsAt(next: Next, on: nat -> bool, rank: nat -> nat, v: nat) {
    && Distinct(next(v)) && next(v) != []
    && (next(v) == [v] || forall c :: c in next(v) ==> on(c) && rank(c) < rank(v))
  }

  ghost predicate Uses(hopsAt: nat -> Lookup, next: Next, on: nat -> bool) {
    forall v: nat {:trigger on(v)} :: on(v) ==> hopsAt(v) == Found(next(v))
  }

  /** `d` has one delivery for every path from `n` to a node where packets end, and no other. */
  ghost predicate OnePerPath(d: Option<multiset<nat>>, next: Next, n: nat) {
    d.Some? && forall v: nat {:trigger d.value[v]} ::
      if next(v) == [v] then PathCount(next, n, v, d.value[v]) else d.value[v] == 0
  }

  ghost predicate OnePerPathVia(d: Option<multiset<nat>>, next: Next, n: nat, hops: Hops) {
    d.Some? && forall v: nat {:trigger d.value[v]} ::
      if next(v) == [v] then ViaCount(next, n, hops, v, d.value[v]) else d.value[v] == 0
  }

  lemma CombineHops(next: Next, n: nat, hops: Hops, first: Option<multiset<nat>>, rest: Option<multiset<nat>>)
    requires hops != [] && Distinct(hops) && IsStep(next, n, hops[0])
    requires OnePerPath(first, next, hops[0]) && OnePerPathVia(rest, next, n, hops[1..])
    ensures OnePerPathVia(Some(first.value + rest.value), next, n, hops)
  {
    var both := first.value + rest.value;
    forall v: nat ensures if next(v) == [v] then ViaCount(next, n, hops, v, both[v]) else both[v] == 0 {
      assert both[v] == first.value[v] + rest.value[v];
      if next(v) == [v] {
        AddHop(next, n, hops, v, first.value[v], rest.value[v]);
      }
    }
  }

  lemma {:induction false} FanOutCounts(hopsAt: nat -> Lookup, next: Next, on: nat -> bool, rank: nat -> nat,
                                        n: nat, hops: Hops, ttl: nat)
    requires Descends(next, on, rank) && Uses(hopsAt, next, on)
    requires Distinct(hops) && forall c :: c in hops ==> IsStep(next, n, c) && on(c) && rank(c) < ttl
    ensures OnePerPathVia(FanOut(hopsAt, n, hops, ttl), next, n, hops)
    decreases ttl, 1 + |hops|
  {
    if hops == [] {
      forall v: nat ensures ViaCount(next, n, [], v, 0) {
        NoHopNoPath(next, n, v);
      }
    } else {
      FanOutCounts(hopsAt, next, on, rank, n, hops[1..], ttl);
      ForwardCounts(hopsAt, next, on, rank, hops[0], ttl);
      CombineHops(next, n, hops, Forward(hopsAt, hops[0], ttl), FanOut(hopsAt, n, hops[1..], ttl));
    }
  }

  lemma EndCounts(next: Next, n: nat)
    requires next(n) == [n]
    ensures OnePerPath(Some(multiset{n}), next, n)
  {
    forall v: nat | next(v) == [v] ensures PathCount(next, n, v, multiset{n}[v]) {
      EndPaths(next, n, v);
    }
  }

  lemma AllHopsCount(next: Next, n: nat, d: Option<multiset<nat>>)
    requires OnePerPathVia(d, next, n, next(n)) && next(n) != [n]
    ensures OnePerPath(d, next, n)
  {
    forall v: nat | next(v) == [v] ensures PathCount(next, n, v, d.value[v]) {
      AllHops(next, n, v, d.value[v]);
    }
  }

  /** Forwarding ends within the rank of the node, with one delivery per path. */
  lemma {:induction false} ForwardCounts(hopsAt: nat -> Lookup, next: Next, on: nat -> bool, rank: nat -> nat,
                                         n: nat, ttl: nat)
    requires Descends(next, on, rank) && Uses(hopsAt, next, on) && on(n) && rank(n) < ttl
    ensures OnePerPath(Forward(hopsAt, n, ttl), next, n)
    decreases ttl, 0
  {
    if next(n) == [n] {
      EndCounts(next, n);
      SelfDelivery(hopsAt, n, ttl - 1);
    } else {
      assert forall c :: c in next(n) ==> c != n;
      FanOutCounts(hopsAt, next, on, rank, n, next(n), ttl - 1);
      AllHopsCount(next, n, FanOut(hopsAt, n, next(n), ttl - 1));
    }
  }

  /** Packets cannot leave the nodes. */
  lemma StaysOn(next: Next, on: nat -> bool, rank: nat -> nat, n: nat, v: nat)
    requires Descends(next, on, rank) && on(n) && HopPaths.Reaches(next, n, v)
    ensures on(v)
  {
    forall a: nat, b: nat | on(a) && b in next(a) ensures on(b) {
    }
    ClosedReaches(next, on, n, v);
  }

  /** Where every node has one hop, a packet arrives exactly once. */
  lemma {:induction false} ChainDelivers(hopsAt: nat -> Lookup, next: Next, on: nat -> bool, rank: nat -> nat,
                                         n: nat, ttl: nat) returns (v: nat)
    requires Descends(next, on, rank) && Uses(hopsAt, next, on) && on(n) && rank(n) < ttl
    requires forall u: nat {:trigger on(u)} :: on(u) ==> |next(u)| == 1
    ensures on(v) && next(v) == [v] && Forward(hopsAt, n, ttl) == Some(multiset{v})
    decreases ttl
  {
    if next(n) == [n] {
      v := n;
      SelfDelivery(hopsAt, n, ttl - 1);
    } else {
      var c := next(n)[0];
      assert c in next(n) && on(c) && rank(c) < rank(n);
      v := ChainDelivers(hopsAt, next, on, rank, c, ttl - 1);
      assert next(n) == [c] && next(n)[1..] == [];
      assert FanOut(hopsAt, n, [], ttl - 1) == Some(multiset{});
      assert multiset{v} + multiset{} == multiset{v};
    }
  }

  // ---------- one route ----------

  /** Every edge leads to a node of lower rank. */
  ghost predicate Acyclic(edges: seq<Edge>, rank: nat -> nat) {
    forall e :: e in edges ==> rank(e.1) < rank(e.0)
  }

  /** Every node of the route forwards as it was told. */
  ghost predicate Follows(hopsAt: nat -> Lookup, edges: seq<Edge>) {
    forall n: nat {:trigger hopsAt(n)} :: RouteHopsAt(edges, n).Some? ==>
      hopsAt(n) == Found(RouteHopsAt(edges, n).value)
  }

  function HopsOf(edges: seq<Edge>): Next {
    (n: nat) => if RouteHopsAt(edges, n).Some? then RouteHopsAt(edges, n).value else []
  }

  function OnEdges(edges: seq<Edge>): nat -> bool {
    (n: nat) => RouteHopsAt(edges, n).Some?
  }

  lemma OnRoute(edges: seq<Edge>, n: nat, c: nat)
    requires (n, c) in edges
    ensures RouteHopsAt(edges, n).Some? && RouteHopsAt(edges, c).Some?
  {
    assert c in OutNeighbours(edges, n);
    if OutNeighbours(edges, c) == [] {
      assert (n, c).1 == c;
      forall e | e in edges ensures e.0 != c {
        assert e == (e.0, e.1) && e.1 in OutNeighbours(edges, e.0);
      }
    }
  }

  /** What a node of an acyclic route is told: itself at a sink, otherwise nodes of lower rank. */
  lemma RouteHopsDescend(edges: seq<Edge>, rank: nat -> nat, v: nat)
    requires Acyclic(edges, rank) && RouteHopsAt(edges, v).Some?
    ensures var hops := RouteHopsAt(edges, v).value;
            && Distinct(hops) && hops != []
            && (hops == [v] <==> IsSink(edges, v))
            && (hops == [v] || forall c :: c in hops <==> (v, c) in edges)
            && (hops == [v] || forall c :: c in hops ==> RouteHopsAt(edges, c).Some? && rank(c) < rank(v))
  {
    var ns := OutNeighbours(edges, v);
    UniqueSets([], ns);
    if ns != [] {
      assert ns[0] in Unique([], ns) && (v, ns[0]) in edges && (v, ns[0]).0 == v;
      forall c | c in Unique([], ns) ensures RouteHopsAt(edges, c).Some? && rank(c) < rank(v) {
        assert (v, c) in edges && rank((v, c).1) < rank((v, c).0);
        OnRoute(edges, v, c);
      }
    }
  }

  lemma RouteDescends(edges: seq<Edge>, rank: nat -> nat)
    requires Acyclic(edges, rank)
    ensures Descends(HopsOf(edges), OnEdges(edges), rank)
  {
    forall v: nat | OnEdges(edges)(v) ensures DescendsAt(HopsOf(edges), OnEdges(edges), rank, v) {
      RouteHopsDescend(edges, rank, v);
    }
  }

  /** The steps of packets are the edges of the route. */
  lemma StepsAreEdges(edges: seq<Edge>, rank: nat -> nat, a: nat, b: nat)
    requires Acyclic(edges, rank)
    ensures IsStep(HopsOf(edges), a, b) <==> IsStep(Along(edges), a, b)
  {
    if RouteHopsAt(edges, a).Some? {
      RouteHopsDescend(edges, rank, a);
    }
    if (a, b) in edges {
      OnRoute(edges, a, b);
    }
    assert (a, b) in edges && IsSink(edges, a) ==> (a, b).0 == a;
  }

  /** `d` has one delivery at a sink for every path of edges from `n` to it, and none elsewhere. */
  ghost predicate AtSinks(d: Option<multiset<nat>>, edges: seq<Edge>, n: nat) {
    d.Some? && forall v: nat {:trigger d.value[v]} ::
      if IsSink(edges, v) then PathCount(Along(edges), n, v, d.value[v]) else d.value[v] == 0
  }

  lemma SinkHops(edges: seq<Edge>, rank: nat -> nat, v: nat)
    requires Acyclic(edges, rank)
    ensures HopsOf(edges)(v) == [v] <==> IsSink(edges, v)
  {
    if RouteHopsAt(edges, v).Some? {
      RouteHopsDescend(edges, rank, v);
    } else if IsSink(edges, v) {
      var e :| e in edges && e.1 == v;
      OnRoute(edges, e.0, v);
    }
  }

  lemma PathsOfEdges(edges: seq<Edge>, rank: nat -> nat, n: nat, d: Option<multiset<nat>>)
    requires Acyclic(edges, rank) && OnePerPath(d, HopsOf(edges), n)
    ensures AtSinks(d, edges, n)
  {
    forall a: nat, b: nat ensures IsStep(HopsOf(edges), a, b) <==> IsStep(Along(edges), a, b) {
      StepsAreEdges(edges, rank, a, b);
    }
    forall v: nat ensures if IsSink(edges, v) then PathCount(Along(edges), n, v, d.value[v]) else d.value[v] == 0 {
      SinkHops(edges, rank, v);
      if IsSink(edges, v) {
        SameCount(HopsOf(edges), Along(edges), n, v, d.value[v]);
      }
    }
  }

  lemma OnRouteIsNode(edges: seq<Edge>, n: nat)
    ensures RouteHopsAt(edges, n).Some? <==> n in NodesOf(edges)
  {
    if OutNeighbours(edges, n) != [] {
      assert (n, OutNeighbours(edges, n)[0]) in edges && (n, OutNeighbours(edges, n)[0]).0 == n;
    }
    assert forall e :: e in edges ==> e == (e.0, e.1) && e.1 in OutNeighbours(edges, e.0);
  }

  lemma ReachedIsOnRoute(edges: seq<Edge>, n: nat, v: nat)
    requires RouteHopsAt(edges, n).Some? && UnicastRoutes.Reaches(edges, n, v)
    ensures RouteHopsAt(edges, v).Some? && (IsSink(edges, v) || HasOutgoing(edges, v))
  {
    OnRouteIsNode(edges, n);
    OnRouteIsNode(edges, v);
    UnicastRoutes.ClosedHolds(edges, NodesOf(edges), n, v);
    if OutNeighbours(edges, v) != [] {
      assert (v, OutNeighbours(edges, v)[0]) in edges && (v, OutNeighbours(edges, v)[0]).0 == v;
    }
  }

  /** On an acyclic route, forwarding from any of its nodes ends within the node's rank.  It never
      meets a node without an entry, a node where it cannot go on is a sink, and every sink gets one
      delivery for each path from the node to it: at least one exactly if the node reaches it. */
  lemma ForwardReachesSinks(hopsAt: nat -> Lookup, edges: seq<Edge>, rank: nat -> nat, n: nat, ttl: nat)
    requires Acyclic(edges, rank) && Follows(hopsAt, edges) && rank(n) < ttl && RouteHopsAt(edges, n).Some?
    ensures forall v: nat :: UnicastRoutes.Reaches(edges, n, v) ==>
              hopsAt(v).Found? && (IsSink(edges, v) || HasOutgoing(edges, v))
    ensures var d := Forward(hopsAt, n, ttl);
            && AtSinks(d, edges, n)
            && forall v: nat {:trigger d.value[v]} ::
                 d.value[v] > 0 <==> IsSink(edges, v) && UnicastRoutes.Reaches(edges, n, v)
  {
    forall v: nat | UnicastRoutes.Reaches(edges, n, v)
      ensures hopsAt(v).Found? && (IsSink(edges, v) || HasOutgoing(edges, v))
    {
      ReachedIsOnRoute(edges, n, v);
      assert hopsAt(v) == Found(RouteHopsAt(edges, v).value);
    }
    forall v: nat | OnEdges(edges)(v) ensures hopsAt(v) == Found(HopsOf(edges)(v)) {
    }
    RouteDescends(edges, rank);
    ForwardCounts(hopsAt, HopsOf(edges), OnEdges(edges), rank, n, ttl);
    var d := Forward(hopsAt, n, ttl);
    PathsOfEdges(edges, rank, n, d);
    forall v: nat ensures d.value[v] > 0 <==> IsSink(edges, v) && UnicastRoutes.Reaches(edges, n, v) {
      if IsSink(edges, v) {
        CountPositive(Along(edges), n, v, d.value[v]);
      }
    }
  }

  // ---------- from built entries to deliveries ----------

  /** The entries as they are sent to a node. */
  ghost function Plain(entries: seq<BuiltEntry>): (r: seq<RouteEntry>)
    ensures |r| == |entries| && forall i :: 0 <= i < |r| ==> r[i] == entries[i].entry
  {
    seq(|entries|, i requires 0 <= i < |entries| => entries[i].entry)
  }

  /** Node `n` has installed what the controller built for it; pins may have been set since. */
  ghost predicate Installed(t: Table, before: Table, routes: seq<Route>, n: nat) {
    var installed := InstallRoutes(before, Plain(EntriesFor(routes, n)));
    t.hops == installed.hops && t.available == installed.available && t.groupDir == installed.groupDir
  }

  lemma {:induction false} EntryOf(routes: seq<Route>, n: nat, e: BuiltEntry) returns (i: nat)
    requires e in EntriesFor(routes, n)
    ensures i < |routes| && e in EntriesOf(routes[i], n)
    decreases routes
  {
    if e in EntriesOf(routes[0], n) {
      i := 0;
    } else {
      i := EntryOf(routes[1..], n, e);
      i := i + 1;
    }
  }

  lemma {:induction false} EntryKept(routes: seq<Route>, n: nat, i: nat, e: BuiltEntry)
    requires i < |routes| && e in EntriesOf(routes[i], n)
    ensures e in EntriesFor(routes, n)
    decreases routes
  {
    if i > 0 {
      EntryKept(routes[1..], n, i - 1, e);
    }
  }

  /** If all entries with an id have the same hops, these are the hops found for it. */
  lemma {:induction false} AddRoutesHops(t: Table, entries: seq<RouteEntry>, id: nat, hops: Hops)
    requires forall e :: e in entries && e.routeId == id ==> e.nextHops == hops
    requires (exists e :: e in entries && e.routeId == id) || (id in t.hops && t.hops[id] == hops)
    ensures var t' := AddRoutes(t, entries); id in t'.hops && t'.hops[id] == hops
    decreases entries
  {
    if entries != [] {
      assert entries == [entries[0]] + entries[1..];
      AddRoutesHops(AddRoute(t, entries[0]), entries[1..], id, hops);
    }
  }

  ghost predicate DistinctRouteIds(routes: seq<Route>) {
    forall i, j :: 0 <= i < j < |routes| ==> routes[i].routeId != routes[j].routeId
  }

  lemma OwnEntry(routes: seq<Route>, i: nat, n: nat, e: BuiltEntry)
    requires DistinctRouteIds(routes) && i < |routes|
    requires e in EntriesFor(routes, n) && e.entry.routeId == routes[i].routeId
    ensures RouteHopsAt(routes[i].edges, n) == Some(e.entry.nextHops)
  {
    var j := EntryOf(routes, n, e);
    assert j == i by { assert !(i < j) && !(j < i); }
  }

  lemma NoInvalidNext(edges: seq<Edge>, n: nat)
    requires SmallIds(edges) && RouteHopsAt(edges, n).Some?
    ensures INVALID !in RouteHopsAt(edges, n).value
  {
    UniqueSets([], OutNeighbours(edges, n));
    SmallSink(edges, n);
    assert (n, INVALID) in edges ==> (n, INVALID).1 == INVALID;
  }

  /** Among routes with distinct ids, the id of a route gives exactly the hops it was built with. */
  lemma InstalledRouteHops(t: Table, before: Table, routes: seq<Route>, i: nat, n: nat)
    requires Installed(t, before, routes, n) && DistinctRouteIds(routes) && i < |routes| && SmallIds(routes[i].edges)
    requires RouteHopsAt(routes[i].edges, n).Some?
    ensures RouteHops(t.hops, routes[i].routeId) == Found(RouteHopsAt(routes[i].edges, n).value)
  {
    var built, hops := EntriesFor(routes, n), RouteHopsAt(routes[i].edges, n).value;
    var own := EntriesOf(routes[i], n)[0];
    EntryKept(routes, n, i, own);
    var k :| 0 <= k < |built| && built[k] == own;
    assert Plain(built)[k] in Plain(built) && Plain(built)[k].routeId == routes[i].routeId;
    forall e | e in Plain(built) && e.routeId == routes[i].routeId ensures e.nextHops == hops {
      var j :| 0 <= j < |built| && e == built[j].entry;
      OwnEntry(routes, i, n, built[j]);
    }
    AddRoutesHops(Purge(before, UnicastKeys(before.available)), Plain(built), routes[i].routeId, hops);
    NoInvalidNext(routes[i].edges, n);
  }

  /** The flow resolves to route `id` at a node: it is pinned to it, or the hash chooses it. */
  ghost predicate Selects(c: Config, t: Table, flow: nat, id: nat) {
    var src, dst := c.nodeOf(Unpack(flow).srcIp), c.nodeOf(Unpack(flow).dstIp);
    && NodeFlow(c, t, flow, src, dst)
    && if flow in t.pins then t.pins[flow] == id else Choice(c, t.available, Unicast(src, dst)) == Some(id)
  }

  /** The whole path of a unicast flow: entries built for every node of an acyclic route, installed
      there whatever the tables held, and looked up for a flow that resolves to the route.  From any
      node of the route, every sink gets one delivery for each path to it, and nobody else any. */
  lemma RouteDelivery(configs: nat -> Config, tables: nat -> Table, before: nat -> Table, routes: seq<Route>, i: nat,
                      rank: nat -> nat, flow: nat, n: nat, ttl: nat)
    requires DistinctRouteIds(routes) && i < |routes| && SmallIds(routes[i].edges) && Acyclic(routes[i].edges, rank)
    requires forall v: nat {:trigger tables(v)} :: RouteHopsAt(routes[i].edges, v).Some? ==>
               Installed(tables(v), before(v), routes, v) && Selects(configs(v), tables(v), flow, routes[i].routeId)
    requires RouteHopsAt(routes[i].edges, n).Some? && rank(n) < ttl
    ensures AtSinks(Forward((v: nat) => CacheFree(configs(v), tables(v), flow, None), n, ttl), routes[i].edges, n)
  {
    var edges := routes[i].edges;
    var hopsAt := (v: nat) => CacheFree(configs(v), tables(v), flow, None);
    forall v: nat | RouteHopsAt(edges, v).Some? ensures hopsAt(v) == Found(RouteHopsAt(edges, v).value) {
      assert Installed(tables(v), before(v), routes, v);
      InstalledRouteHops(tables(v), before(v), routes, i, v);
      SelectedHops(configs(v), tables(v), flow, routes[i].routeId);
    }
    assert Follows(hopsAt, edges);
    ForwardReachesSinks(hopsAt, edges, rank, n, ttl);
  }

  lemma SelectedHops(c: Config, t: Table, flow: nat, id: nat)
    requires Selects(c, t, flow, id)
    ensures CacheFree(c, t, flow, None) == RouteHops(t.hops, id)
  {
    NodeLookup(c, t, flow, c.nodeOf(Unpack(flow).srcIp), c.nodeOf(Unpack(flow).dstIp), None);
  }

  // ---------- the only route of its pair ----------

  ghost function IdsOfPair(entries: seq<RouteEntry>, src: nat, dst: nat): seq<nat>
    decreases entries
  {
    if entries == [] then []
    else
      (if entries[0].src == src && entries[0].dst == dst then [entries[0].routeId] else [])
      + IdsOfPair(entries[1..], src, dst)
  }

  /** The ids filed for a pair. */
  ghost function Filed(t: Table, src: nat, dst: nat): seq<nat> {
    if Unicast(src, dst) in t.available then t.available[Unicast(src, dst)] else []
  }

  lemma AddRouteFiles(t: Table, e: RouteEntry, src: nat, dst: nat)
    ensures Filed(AddRoute(t, e), src, dst)
            == Filed(t, src, dst) + (if e.src == src && e.dst == dst then [e.routeId] else [])
  {
  }

  lemma {:induction false} AddRoutesFiles(t: Table, entries: seq<RouteEntry>, src: nat, dst: nat)
    ensures Filed(AddRoutes(t, entries), src, dst) == Filed(t, src, dst) + IdsOfPair(entries, src, dst)
    decreases entries
  {
    if entries != [] {
      AddRouteFiles(t, entries[0], src, dst);
      AddRoutesFiles(AddRoute(t, entries[0]), entries[1..], src, dst);
    }
  }

  lemma {:induction false} PairAppend(a: seq<RouteEntry>, b: seq<RouteEntry>, src: nat, dst: nat)
    ensures IdsOfPair(a + b, src, dst) == IdsOfPair(a, src, dst) + IdsOfPair(b, src, dst)
    decreases a
  {
    if a == [] {
      assert a + b == b;
    } else {
      PairAppend(a[1..], b, src, dst);
      assert (a + b)[1..] == a[1..] + b && (a + b)[0] == a[0];
    }
  }

  lemma PlainAppend(a: seq<BuiltEntry>, b: seq<BuiltEntry>)
    ensures Plain(a + b) == Plain(a) + Plain(b)
  {
  }

  lemma PairStep(routes: seq<Route>, n: nat, src: nat, dst: nat)
    requires routes != []
    ensures IdsOfPair(Plain(EntriesFor(routes, n)), src, dst)
            == (if routes[0].src == src && routes[0].dst == dst && RouteHopsAt(routes[0].edges, n).Some?
                then [routes[0].routeId] else [])
               + IdsOfPair(Plain(EntriesFor(routes[1..], n)), src, dst)
  {
    var first, rest := EntriesOf(routes[0], n), EntriesFor(routes[1..], n);
    PlainAppend(first, rest);
    PairAppend(Plain(first), Plain(rest), src, dst);
    if first != [] {
      assert Plain(first)[1..] == [];
    }
  }

  lemma {:induction false} NoneOfPair(routes: seq<Route>, n: nat, src: nat, dst: nat)
    requires forall r :: r in routes ==> r.src != src || r.dst != dst
    ensures IdsOfPair(Plain(EntriesFor(routes, n)), src, dst) == []
    decreases routes
  {
    if routes != [] {
      PairStep(routes, n, src, dst);
      NoneOfPair(routes[1..], n, src, dst);
    }
  }

  ghost predicate OnlyOfPair(routes: seq<Route>, i: nat)
    requires i < |routes|
  {
    forall j :: 0 <= j < |routes| && j != i ==> routes[j].src != routes[i].src || routes[j].dst != routes[i].dst
  }

  lemma {:induction false} OneOfPair(routes: seq<Route>, i: nat, n: nat)
    requires i < |routes| && OnlyOfPair(routes, i) && RouteHopsAt(routes[i].edges, n).Some?
    ensures IdsOfPair(Plain(EntriesFor(routes, n)), routes[i].src, routes[i].dst) == [routes[i].routeId]
    decreases routes
  {
    var rest := routes[1..];
    PairStep(routes, n, routes[i].src, routes[i].dst);
    if i == 0 {
      forall r | r in rest ensures r.src != routes[0].src || r.dst != routes[0].dst {
        var j :| 0 <= j < |rest| && rest[j] == r;
        assert routes[j + 1] == r;
      }
      NoneOfPair(rest, n, routes[0].src, routes[0].dst);
    } else {
      forall j | 0 <= j < |rest| && j != i - 1
        ensures rest[j].src != rest[i - 1].src || rest[j].dst != rest[i - 1].dst
      {
        assert rest[j] == routes[j + 1];
      }
      OneOfPair(rest, i - 1, n);
    }
  }

  /** A flow between the end nodes of the only route that joins them resolves to that route, at
      every node where the route has hops, right after the install. */
  lemma OnlyRouteSelected(c: Config, t: Table, routes: seq<Route>, i: nat, n: nat, flow: nat)
    requires i < |routes| && OnlyOfPair(routes, i) && RouteHopsAt(routes[i].edges, n).Some?
    requires NodeFlow(c, t, flow, routes[i].src, routes[i].dst)
    ensures var t' := InstallRoutes(t, Plain(EntriesFor(routes, n)));
            Installed(t', t, routes, n) && Selects(c, t', flow, routes[i].routeId)
  {
    var purged, entries := Purge(t, UnicastKeys(t.available)), Plain(EntriesFor(routes, n));
    AddRoutesFiles(purged, entries, routes[i].src, routes[i].dst);
    OneOfPair(routes, i, n);
    AddRoutesDirectory(purged, entries);
  }

  lemma {:induction false} AddRoutesDirectory(t: Table, entries: seq<RouteEntry>)
    ensures AddRoutes(t, entries).groupDir == t.groupDir
    decreases entries
  {
    if entries != [] {
      AddRoutesDirectory(AddRoute(t, entries[0]), entries[1..]);
    }
  }
}
