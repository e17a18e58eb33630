/** Several routes for one pair of nodes: every node picks one of those it lies on
    (dataplane/src/node/route.rs), and different nodes can pick different ones. */
module PairDelivery {
  import opened Wrappers
  import opened FlowLookups
  import opened RouteTables
  import opened HopPaths
  import opened MulticastDelivery
  import opened UnicastRoutes
  import opened RouteDelivery

  predicate OfPair(r: Route, src: nat, dst: nat) {
    r.src == src && r.dst == dst
  }

  /** Route `i` is one of the pair, and the node has hops on it. */
  predicate CanPick(routes: seq<Route>, src: nat, dst: nat, v: nat, i: nat) {
    i < |routes| && OfPair(routes[i], src, dst) && RouteHopsAt(routes[i].edges, v).Some?
  }

  /** The nodes that have hops on some route of the pair. */
  ghost function OnPair(routes: seq<Route>, src: nat, dst: nat): nat -> bool {
    (v: nat) => exists i: nat :: CanPick(routes, src, dst, v, i)
  }

  /** The hops of every node on the route that it picks. */
  function PairNext(routes: seq<Route>, pick: nat -> nat): Next {
    (v: nat) => if pick(v) < |routes| then HopsOf(routes[pick(v)].edges)(v) else []
  }

  ghost predicate Picks(routes: seq<Route>, src: nat, dst: nat, pick: nat -> nat) {
    forall v: nat {:trigger pick(v)} :: OnPair(routes, src, dst)(v) ==> CanPick(routes, src, dst, v, pick(v))
  }

  /** No cycle runs along the edges of the pair's routes taken together. */
  ghost predicate PairAcyclic(routes: seq<Route>, src: nat, dst: nat, rank: nat -> nat) {
    forall i :: 0 <= i < |routes| && OfPair(routes[i], src, dst) ==> Acyclic(routes[i].edges, rank)
  }

  lemma PairDescendsAt(routes: seq<Route>, src: nat, dst: nat, pick: nat -> nat, rank: nat -> nat, v: nat)
    requires PairAcyclic(routes, src, dst, rank) && CanPick(routes, src, dst, v, pick(v))
    ensures DescendsAt(PairNext(routes, pick), OnPair(routes, src, dst), rank, v)
  {
    var next := PairNext(routes, pick);
    RouteHopsDescend(routes[pick(v)].edges, rank, v);
    if next(v) != [v] {
      forall c | c in next(v) ensures OnPair(routes, src, dst)(c) && rank(c) < rank(v) {
        assert CanPick(routes, src, dst, c, pick(v));
      }
    }
  }

  lemma PairDescends(routes: seq<Route>, src: nat, dst: nat, pick: nat -> nat, rank: nat -> nat)
    requires PairAcyclic(routes, src, dst, rank) && Picks(routes, src, dst, pick)
    ensures Descends(PairNext(routes, pick), OnPair(routes, src, dst), rank)
  {
    forall v: nat | OnPair(routes, src, dst)(v)
      ensures DescendsAt(PairNext(routes, pick), OnPair(routes, src, dst), rank, v)
    {
      assert CanPick(routes, src, dst, v, pick(v));
      PairDescendsAt(routes, src, dst, pick, rank, v);
    }
  }

  /** A node where packets end is a sink of the route it picked. */
  lemma EndIsSink(routes: seq<Route>, src: nat, dst: nat, pick: nat -> nat, rank: nat -> nat, v: nat)
    requires PairAcyclic(routes, src, dst, rank) && Picks(routes, src, dst, pick)
    requires OnPair(routes, src, dst)(v) && PairNext(routes, pick)(v) == [v]
    ensures CanPick(routes, src, dst, v, pick(v)) && IsSink(routes[pick(v)].edges, v)
  {
    assert CanPick(routes, src, dst, v, pick(v));
    RouteHopsDescend(routes[pick(v)].edges, rank, v);
  }

  lemma {:induction false} EndReached(next: Next, on: nat -> bool, rank: nat -> nat, n: nat) returns (v: nat)
    requires Descends(next, on, rank) && on(n)
    ensures on(v) && next(v) == [v] && HopPaths.Reaches(next, n, v)
    decreases rank(n)
  {
    if next(n) == [n] {
      v := n;
    } else {
      assert next(n)[0] in next(n);
      v := EndReached(next, on, rank, next(n)[0]);
    }
    ReachesFirst(next, n, v);
  }

  /** At least one copy arrives, and only at sinks. */
  ghost predicate ArrivesAtSinks(d: Option<multiset<nat>>, routes: seq<Route>, src: nat, dst: nat) {
    && d.Some? && d.value != multiset{}
    && forall v: nat {:trigger d.value[v]} :: d.value[v] > 0 ==>
         exists i :: 0 <= i < |routes| && OfPair(routes[i], src, dst) && IsSink(routes[i].edges, v)
  }

  lemma CountsArrive(routes: seq<Route>, src: nat, dst: nat, pick: nat -> nat, rank: nat -> nat, n: nat,
                     d: Option<multiset<nat>>)
    requires PairAcyclic(routes, src, dst, rank) && Picks(routes, src, dst, pick) && OnPair(routes, src, dst)(n)
    requires OnePerPath(d, PairNext(routes, pick), n)
    ensures ArrivesAtSinks(d, routes, src, dst)
  {
    var next, on := PairNext(routes, pick), OnPair(routes, src, dst);
    PairDescends(routes, src, dst, pick, rank);
    var end := EndReached(next, on, rank, n);
    CountPositive(next, n, end, d.value[end]);
    assert d.value[end] > 0;
    forall v: nat | d.value[v] > 0
      ensures exists i :: 0 <= i < |routes| && OfPair(routes[i], src, dst) && IsSink(routes[i].edges, v)
    {
      CountPositive(next, n, v, d.value[v]);
      StaysOn(next, on, rank, n, v);
      EndIsSink(routes, src, dst, pick, rank, v);
    }
  }

  /** Every node on the pair's routes has installed what was built for it, and the flow resolves
      there to the route it picks. */
  ghost predicate PairInstalled(configs: nat -> Config, tables: nat -> Table, before: nat -> Table, routes: seq<Route>,
                                src: nat, dst: nat, pick: nat -> nat, flow: nat)
  {
    forall v: nat {:trigger tables(v)} :: OnPair(routes, src, dst)(v) ==>
      && Installed(tables(v), before(v), routes, v)
      && CanPick(routes, src, dst, v, pick(v))
      && Selects(configs(v), tables(v), flow, routes[pick(v)].routeId)
  }

  ghost predicate PairSmall(routes: seq<Route>, src: nat, dst: nat) {
    forall i :: 0 <= i < |routes| && OfPair(routes[i], src, dst) ==> SmallIds(routes[i].edges)
  }

  ghost function Lookups(configs: nat -> Config, tables: nat -> Table, flow: nat): nat -> Lookup {
    (v: nat) => CacheFree(configs(v), tables(v), flow, None)
  }

  lemma PairUses(configs: nat -> Config, tables: nat -> Table, before: nat -> Table, routes: seq<Route>,
                 src: nat, dst: nat, pick: nat -> nat, flow: nat)
    requires DistinctRouteIds(routes) && PairSmall(routes, src, dst)
    requires PairInstalled(configs, tables, before, routes, src, dst, pick, flow)
    ensures Picks(routes, src, dst, pick)
    ensures Uses(Lookups(configs, tables, flow), PairNext(routes, pick), OnPair(routes, src, dst))
  {
    var on := OnPair(routes, src, dst);
    forall v: nat | on(v) ensures CanPick(routes, src, dst, v, pick(v)) {
      assert Installed(tables(v), before(v), routes, v);
    }
    forall v: nat | on(v) ensures Lookups(configs, tables, flow)(v) == Found(PairNext(routes, pick)(v)) {
      assert Installed(tables(v), before(v), routes, v);
      InstalledRouteHops(tables(v), before(v), routes, pick(v), v);
      SelectedHops(configs(v), tables(v), flow, routes[pick(v)].routeId);
    }
  }

  /** Whatever route of the pair every node picks, if the routes have no cycle together: forwarding
      ends, one copy arrives for each path along the picked hops, at least one arrives, and copies
      arrive at sinks of the pair's routes only. */
  lemma PairDelivery(configs: nat -> Config, tables: nat -> Table, before: nat -> Table, routes: seq<Route>,
                     src: nat, dst: nat, pick: nat -> nat, rank: nat -> nat, flow: nat, n: nat, ttl: nat)
    requires DistinctRouteIds(routes) && PairSmall(routes, src, dst) && PairAcyclic(routes, src, dst, rank)
    requires PairInstalled(configs, tables, before, routes, src, dst, pick, flow)
    requires OnPair(routes, src, dst)(n) && rank(n) < ttl
    ensures var d := Forward(Lookups(configs, tables, flow), n, ttl);
            OnePerPath(d, PairNext(routes, pick), n) && ArrivesAtSinks(d, routes, src, dst)
  {
    PairUses(configs, tables, before, routes, src, dst, pick, flow);
    PairDescends(routes, src, dst, pick, rank);
    ForwardCounts(Lookups(configs, tables, flow), PairNext(routes, pick), OnPair(routes, src, dst), rank, n, ttl);
    CountsArrive(routes, src, dst, pick, rank, n, Forward(Lookups(configs, tables, flow), n, ttl));
  }

  /** The routes are paths to the destination: one hop at every node, and no other sink. */
  ghost predicate PairOfPaths(routes: seq<Route>, src: nat, dst: nat) {
    forall i :: 0 <= i < |routes| && OfPair(routes[i], src, dst) ==>
      && (forall v: nat :: RouteHopsAt(routes[i].edges, v).Some? ==> |RouteHopsAt(routes[i].edges, v).value| == 1)
      && (forall v: nat :: IsSink(routes[i].edges, v) ==> v == dst)
  }

  /** If the routes are paths, the packet arrives exactly once, at the destination, however the
      nodes along the way pick. */
  lemma PairArrivesOnce(configs: nat -> Config, tables: nat -> Table, before: nat -> Table, routes: seq<Route>,
                        src: nat, dst: nat, pick: nat -> nat, rank: nat -> nat, flow: nat, n: nat, ttl: nat)
    requires DistinctRouteIds(routes) && PairSmall(routes, src, dst) && PairAcyclic(routes, src, dst, rank)
    requires PairInstalled(configs, tables, before, routes, src, dst, pick, flow) && PairOfPaths(routes, src, dst)
    requires OnPair(routes, src, dst)(n) && rank(n) < ttl
    ensures Forward(Lookups(configs, tables, flow), n, ttl) == Some(multiset{dst})
  {
    var next, on := PairNext(routes, pick), OnPair(routes, src, dst);
    PairUses(configs, tables, before, routes, src, dst, pick, flow);
    PairDescends(routes, src, dst, pick, rank);
    forall u: nat | on(u) ensures |next(u)| == 1 {
      assert CanPick(routes, src, dst, u, pick(u));
    }
    var v := ChainDelivers(Lookups(configs, tables, flow), next, on, rank, n, ttl);
    EndIsSink(routes, src, dst, pick, rank, v);
  }

  // ---------- what the hash can pick ----------

  lemma {:induction false} IdsMembers(routes: seq<Route>, n: nat, src: nat, dst: nat, id: nat)
    ensures id in IdsOfPair(Plain(EntriesFor(routes, n)), src, dst)
            <==> exists i: nat :: CanPick(routes, src, dst, n, i) && routes[i].routeId == id
    decreases routes
  {
    if routes != [] {
      var rest := routes[1..];
      PairStep(routes, n, src, dst);
      IdsMembers(rest, n, src, dst, id);
      forall i: nat ensures CanPick(routes, src, dst, n, i + 1) <==> CanPick(rest, src, dst, n, i) {
      }
      if exists i: nat :: CanPick(rest, src, dst, n, i) && rest[i].routeId == id {
        var i: nat :| CanPick(rest, src, dst, n, i) && rest[i].routeId == id;
        assert CanPick(routes, src, dst, n, i + 1) && routes[i + 1].routeId == id;
      }
      if exists i: nat :: i > 0 && CanPick(routes, src, dst, n, i) && routes[i].routeId == id {
        var i: nat :| i > 0 && CanPick(routes, src, dst, n, i) && routes[i].routeId == id;
        assert CanPick(rest, src, dst, n, i - 1) && rest[i - 1].routeId == id;
      }
    }
  }

  lemma ChosenMember(c: Config, available: map<RouteKey, seq<nat>>, key: RouteKey)
    requires ValidConfig(c) && key in available && available[key] != []
    ensures Choice(c, available, key).Some? && Choice(c, available, key).value in available[key]
  {
  }

  /** The ids that the install files for the pair. */
  lemma PairFiled(t: Table, routes: seq<Route>, src: nat, dst: nat, n: nat, i: nat)
    requires CanPick(routes, src, dst, n, i)
    ensures var t', key := InstallRoutes(t, Plain(EntriesFor(routes, n))), Unicast(src, dst);
            && key in t'.available && t'.available[key] != [] && t'.groupDir == t.groupDir
            && t'.available[key] == IdsOfPair(Plain(EntriesFor(routes, n)), src, dst)
  {
    var purged, entries := Purge(t, UnicastKeys(t.available)), Plain(EntriesFor(routes, n));
    AddRoutesFiles(purged, entries, src, dst);
    AddRoutesDirectory(purged, entries);
    IdsMembers(routes, n, src, dst, routes[i].routeId);
  }

  /** Right after the install, a flow of the pair resolves, at every node on the pair's routes, to
      one of those routes that the node lies on. */
  lemma PairSelected(c: Config, t: Table, routes: seq<Route>, src: nat, dst: nat, n: nat, flow: nat) returns (i: nat)
    requires ValidConfig(c) && OnPair(routes, src, dst)(n) && NodeFlow(c, t, flow, src, dst)
    ensures var t' := InstallRoutes(t, Plain(EntriesFor(routes, n)));
            && Installed(t', t, routes, n) && CanPick(routes, src, dst, n, i)
            && Selects(c, t', flow, routes[i].routeId)
  {
    var j: nat :| CanPick(routes, src, dst, n, j);
    PairFiled(t, routes, src, dst, n, j);
    var available := InstallRoutes(t, Plain(EntriesFor(routes, n))).available;
    ChosenMember(c, available, Unicast(src, dst));
    var id := Choice(c, available, Unicast(src, dst)).value;
    IdsMembers(routes, n, src, dst, id);
    i :| CanPick(routes, src, dst, n, i) && routes[i].routeId == id;
  }
}
