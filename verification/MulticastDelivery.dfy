/** What the nodes of a network do together: forwarding one multicast packet with the tables that
    the controller's entries produce (dataplane/src/node/processor.rs). */
module MulticastDelivery {
  import opened Wrappers
  import opened Arborescences
  import opened FlowLookups
  import opened RouteIds
  import opened RouteTables
  import opened TableProperties
  import opened GroupRoutes

  // ---------- fan-out at one node ----------

  /** The fan-out loop of `process_packet`: clones for every hop but the last, which takes the
      packet itself.  Each hop gets exactly one copy, and the packet is there when it is due. */
  method FanOutPacket<P>(packet: P, hops: Hops) returns (sent: seq<(nat, P)>)
    ensures |sent| == |hops| && forall i :: 0 <= i < |hops| ==> sent[i] == (hops[i], packet)
  {
    sent := [];
    var primary: Option<P> := Some(packet);
    for i := 0 to |hops|
      invariant |sent| == i && forall j :: 0 <= j < i ==> sent[j] == (hops[j], packet)
      invariant primary == if i < |hops| || hops == [] then Some(packet) else None
    {
      sent := sent + [(hops[i], primary.value)];
      if i == |hops| - 1 {
        primary := None;
      }
    }
  }

  // ---------- forwarding through the network ----------

  /** The local deliveries caused by a packet that arrives at node `n`; `None` if it is still
      under way after `ttl` hops. */
  ghost function Forward(hopsAt: nat -> Lookup, n: nat, ttl: nat): Option<multiset<nat>>
    decreases ttl, 0
  {
    if ttl == 0 then None
    else
      match hopsAt(n)
      case Failed(_) => Some(multiset{})
      case Found(hops) => FanOut(hopsAt, n, hops, ttl - 1)
  }

  /** `send_packet` for every hop: the node itself means local delivery. */
  ghost function FanOut(hopsAt: nat -> Lookup, n: nat, hops: Hops, ttl: nat): Option<multiset<nat>>
    decreases ttl, 1 + |hops|
  {
    if hops == [] then Some(multiset{})
    else
      var first := if hops[0] == n then Some(multiset{n}) else Forward(hopsAt, hops[0], ttl);
      var rest := FanOut(hopsAt, n, hops[1..], ttl);
      if first.Some? && rest.Some? then Some(first.value + rest.value) else None
  }

  lemma SelfDelivery(hopsAt: nat -> Lookup, n: nat, ttl: nat)
    ensures FanOut(hopsAt, n, [n], ttl) == Some(multiset{n})
  {
    assert [n][1..] == [];
    assert FanOut(hopsAt, n, [n][1..], ttl) == Some(multiset{});
    assert multiset{n} + multiset{} == multiset{n};
  }

  // ---------- one tree at one node ----------

  lemma NeighboursInit(edges: seq<Edge>, n: nat)
    requires edges != []
    ensures var init, last := edges[..|edges| - 1], edges[|edges| - 1];
            OutNeighbours(edges, n) == if last.0 == n then [last.1] + OutNeighbours(init, n) else OutNeighbours(init, n)
  {
    var init := edges[..|edges| - 1];
    assert [] + OutNeighbours(init, n) == OutNeighbours(init, n);
  }

  lemma LastTargetNew(edges: seq<Edge>, n: nat)
    requires edges != [] && forall i, j :: 0 <= i < j < |edges| ==> edges[i].1 != edges[j].1
    ensures edges[|edges| - 1].1 !in OutNeighbours(edges[..|edges| - 1], n)
  {
    var init, last := edges[..|edges| - 1], edges[|edges| - 1];
    forall i | 0 <= i < |init| ensures init[i].1 != last.1 {
      assert edges[i] == init[i];
    }
  }

  lemma {:induction false} NeighboursDistinct(edges: seq<Edge>, n: nat)
    requires forall i, j :: 0 <= i < j < |edges| ==> edges[i].1 != edges[j].1
    ensures Distinct(OutNeighbours(edges, n))
  {
    if edges != [] {
      NeighboursDistinct(edges[..|edges| - 1], n);
      NeighboursInit(edges, n);
      LastTargetNew(edges, n);
    }
  }

  // ---------- exactly one copy per member ----------

  /** The nodes use the tree: each has the hops the controller computed, or none. */
  ghost predicate Serves(hopsAt: nat -> Lookup, edges: seq<Edge>, depth: map<nat, nat>, members: set<nat>) {
    forall n: nat {:trigger hopsAt(n)} :: n in depth ==>
      if NodeHops(edges, n, members) == [] then hopsAt(n).Failed? else hopsAt(n) == Found(NodeHops(edges, n, members))
  }

  /** `m` is served through one of `hops` of node `n`. */
  ghost predicate Served(edges: seq<Edge>, depth: map<nat, nat>, n: nat, hops: Hops, m: nat) {
    (n in hops && m == n) || exists c :: c in hops && c != n && InSub(edges, depth, c, m)
  }

  /** `d` counts one delivery for every member served through `hops`, none for others. */
  ghost predicate DeliversVia(d: Option<multiset<nat>>, edges: seq<Edge>, depth: map<nat, nat>, members: set<nat>,
                              n: nat, hops: Hops)
  {
    d.Some? && forall m: nat {:trigger d.value[m]} ::
      d.value[m] == if m in members && Served(edges, depth, n, hops, m) then 1 else 0
  }

  /** `d` counts one delivery for every member in the subtree of `n`, none for others. */
  ghost predicate DeliversSub(d: Option<multiset<nat>>, edges: seq<Edge>, depth: map<nat, nat>, members: set<nat>,
                              n: nat)
  {
    d.Some? && forall m: nat {:trigger d.value[m]} ::
      d.value[m] == if m in members && InSub(edges, depth, n, m) then 1 else 0
  }

  /** Combining the first hop with the others. */
  lemma CombineHops(edges: seq<Edge>, root: nat, depth: map<nat, nat>, members: set<nat>, n: nat, hops: Hops,
                    first: Option<multiset<nat>>, rest: Option<multiset<nat>>)
    requires Branching(edges, root, depth) && hops != [] && n in depth
    requires Distinct(hops)
    requires forall c :: c in hops ==> (c == n && n in members) || (n, c) in edges
    requires if hops[0] == n then first == Some(multiset{n}) else DeliversSub(first, edges, depth, members, hops[0])
    requires DeliversVia(rest, edges, depth, members, n, hops[1..])
    ensures DeliversVia(Some(first.value + rest.value), edges, depth, members, n, hops)
  {
    forall m: nat
      ensures (first.value + rest.value)[m] == if m in members && Served(edges, depth, n, hops, m) then 1 else 0
    {
      ServedSplit(edges, root, depth, n, hops, m);
    }
  }

  /** No node lies more than `k` levels below `n`. */
  ghost predicate Within(depth: map<nat, nat>, n: nat, k: nat)
    requires n in depth
  {
    forall v :: v in depth ==> depth[v] - depth[n] <= k
  }

  lemma WithinChild(edges: seq<Edge>, root: nat, depth: map<nat, nat>, n: nat, c: nat, k: nat)
    requires Branching(edges, root, depth) && n in depth && (n, c) in edges && Within(depth, n, k)
    ensures c in depth && k > 0 && Within(depth, c, k - 1)
  {
    assert depth[c] == depth[n] + 1;
  }

  lemma {:induction false} FanOutDelivers(hopsAt: nat -> Lookup, edges: seq<Edge>, root: nat, depth: map<nat, nat>,
                                          members: set<nat>, n: nat, hops: Hops, ttl: nat)
    requires Branching(edges, root, depth) && Serves(hopsAt, edges, depth, members)
    requires n in depth && Within(depth, n, ttl)
    requires Distinct(hops)
    requires forall c :: c in hops ==> (c == n && n in members) || (n, c) in edges
    ensures DeliversVia(FanOut(hopsAt, n, hops, ttl), edges, depth, members, n, hops)
    decreases ttl, 1 + |hops|
  {
    if hops != [] {
      var c, rest := hops[0], hops[1..];
      FanOutDelivers(hopsAt, edges, root, depth, members, n, rest, ttl);
      if c != n {
        assert (n, c) in edges;
        WithinChild(edges, root, depth, n, c, ttl);
        ForwardDelivers(hopsAt, edges, root, depth, members, c, ttl);
      }
      CombineHops(edges, root, depth, members, n, hops,
                  if c == n then Some(multiset{n}) else Forward(hopsAt, c, ttl), FanOut(hopsAt, n, rest, ttl));
    }
  }

  /** A node is served either through the first hop or through the others, not both. */
  lemma ServedSplit(edges: seq<Edge>, root: nat, depth: map<nat, nat>, n: nat, hops: Hops, m: nat)
    requires Branching(edges, root, depth) && hops != [] && n in depth
    requires Distinct(hops)
    requires forall c :: c in hops ==> c == n || (n, c) in edges
    ensures var first := if hops[0] == n then m == n else InSub(edges, depth, hops[0], m);
            && (Served(edges, depth, n, hops, m) <==> first || Served(edges, depth, n, hops[1..], m))
            && !(first && Served(edges, depth, n, hops[1..], m))
  {
    var c, rest := hops[0], hops[1..];
    assert hops == [c] + rest;
    assert c !in rest;
    if c != n && InSub(edges, depth, c, m) {
      ChildSub(edges, root, depth, n, c, m);
    }
    if exists c' :: c' in rest && c' != n && InSub(edges, depth, c', m) {
      var c' :| c' in rest && c' != n && InSub(edges, depth, c', m);
      assert c' in hops;
      ChildSub(edges, root, depth, n, c', m);
      if c != n && InSub(edges, depth, c, m) {
        SubDisjoint(edges, root, depth, c, c', m);
      }
    }
  }

  /** What the hops deliver is what the node delivers. */
  lemma ForwardFromHops(hopsAt: nat -> Lookup, edges: seq<Edge>, root: nat, depth: map<nat, nat>,
                        members: set<nat>, n: nat, ttl: nat)
    requires Branching(edges, root, depth) && Serves(hopsAt, edges, depth, members) && n in depth && ttl > 0
    requires var hops := NodeHops(edges, n, members);
             DeliversVia(FanOut(hopsAt, n, hops, ttl - 1), edges, depth, members, n, hops)
    ensures DeliversSub(Forward(hopsAt, n, ttl), edges, depth, members, n)
  {
    var hops := NodeHops(edges, n, members);
    ViaIsSub(edges, root, depth, members, n, FanOut(hopsAt, n, hops, ttl - 1));
    assert Forward(hopsAt, n, ttl) == if hops == [] then Some(multiset{}) else FanOut(hopsAt, n, hops, ttl - 1);
  }

  lemma {:induction false} ForwardDelivers(hopsAt: nat -> Lookup, edges: seq<Edge>, root: nat, depth: map<nat, nat>,
                                           members: set<nat>, n: nat, ttl: nat)
    requires Branching(edges, root, depth) && Serves(hopsAt, edges, depth, members)
    requires n in depth && ttl > 0 && Within(depth, n, ttl - 1)
    ensures DeliversSub(Forward(hopsAt, n, ttl), edges, depth, members, n)
    decreases ttl, 0
  {
    HopsDistinct(edges, root, depth, n, members);
    FanOutDelivers(hopsAt, edges, root, depth, members, n, NodeHops(edges, n, members), ttl - 1);
    ForwardFromHops(hopsAt, edges, root, depth, members, n, ttl);
  }

  lemma HopsDistinct(edges: seq<Edge>, root: nat, depth: map<nat, nat>, n: nat, members: set<nat>)
    requires Branching(edges, root, depth) && n in depth
    ensures var hops := NodeHops(edges, n, members);
            && Distinct(hops)
            && (forall c :: c in hops ==> (c == n && n in members) || (n, c) in edges)
  {
    NeighboursDistinct(edges, n);
    assert n !in OutNeighbours(edges, n);
  }

  lemma ViaIsSub(edges: seq<Edge>, root: nat, depth: map<nat, nat>, members: set<nat>, n: nat, d: Option<multiset<nat>>)
    requires Branching(edges, root, depth) && n in depth
    requires DeliversVia(d, edges, depth, members, n, NodeHops(edges, n, members))
    ensures DeliversSub(d, edges, depth, members, n)
    ensures NodeHops(edges, n, members) == [] ==> DeliversSub(Some(multiset{}), edges, depth, members, n)
  {
    forall m: nat | m in members
      ensures Served(edges, depth, n, NodeHops(edges, n, members), m) <==> InSub(edges, depth, n, m)
    {
      ServedIsSub(edges, root, depth, members, n, m);
    }
  }

  lemma ServedIsSub(edges: seq<Edge>, root: nat, depth: map<nat, nat>, members: set<nat>, n: nat, m: nat)
    requires Branching(edges, root, depth) && n in depth && m in members
    ensures Served(edges, depth, n, NodeHops(edges, n, members), m) <==> InSub(edges, depth, n, m)
  {
    var hops := NodeHops(edges, n, members);
    if InSub(edges, depth, n, m) && m != n {
      var c := SubViaChild(edges, root, depth, n, m);
      assert c in OutNeighbours(edges, n);
      assert c in hops && c != n;
    }
    if exists c :: c in hops && c != n && InSub(edges, depth, c, m) {
      var c :| c in hops && c != n && InSub(edges, depth, c, m);
      assert (n, c) in edges;
      ChildSub(edges, root, depth, n, c, m);
    }
  }

  /** Forwarding along a tree ends within its height and delivers exactly one local copy at each
      member in the tree and none anywhere else. */
  lemma TreeDelivery(hopsAt: nat -> Lookup, edges: seq<Edge>, root: nat, depth: map<nat, nat>,
                     members: set<nat>, ttl: nat)
    requires IsArborescence(edges, root, depth) && Serves(hopsAt, edges, depth, members)
    requires forall v :: v in depth ==> depth[v] < ttl
    ensures var d := Forward(hopsAt, root, ttl);
            d.Some? && forall m: nat :: d.value[m] == if m in members && m in depth then 1 else 0
  {
    ForwardDelivers(hopsAt, edges, root, depth, members, root, ttl);
    forall m: nat ensures InSub(edges, depth, root, m) <==> m in depth {
      if m in depth {
        SubOfRoot(edges, root, depth, m);
      }
    }
  }

  // ---------- from accepted trees to deliveries ----------

  /** The nodes of the overlay: their configurations and their tables. */
  datatype Overlay = Overlay(config: nat -> Config, table: nat -> Table)

  /** A node's table after it installed the entries the controller built for it. */
  ghost function TableAfter(t: Table, group: nat, source: nat, ordered: seq<Tree>, n: nat, members: set<nat>): Table {
    InstallTrees(t, group, source, NodeRoutes(group, ordered, n, members))
  }

  /** The lookups of all nodes then, for a packet that asks for a tree or for none. */
  ghost function HopsAfterInstall(overlay: Overlay, group: nat, source: nat, ordered: seq<Tree>, members: set<nat>,
                                  flow: nat, asked: Option<nat>): nat -> Lookup
  {
    (n: nat) =>
      CacheFree(overlay.config(n), TableAfter(overlay.table(n), group, source, ordered, n, members), flow, asked)
  }

  /** The node can serve the group: an orderly table, 32-bit node ids, and a flow it can resolve. */
  ghost predicate NodeReady(overlay: Overlay, owner: nat -> nat, group: nat, ordered: seq<Tree>, flow: nat, n: nat) {
    && TableOk(overlay.table(n), owner) && SmallNodes(ordered, n)
    && GroupFlow(overlay.config(n), overlay.table(n), flow, owner(group), group)
  }

  lemma {:induction false} AddTreesDirectory(t: Table, group: nat, source: nat, routes: seq<GroupRoute>)
    ensures AddTrees(t, group, source, routes).groupDir == t.groupDir
    decreases routes
  {
    if routes != [] {
      AddTreesDirectory(AddTree(t, group, source, routes[0]), group, source, routes[1..]);
    }
  }

  lemma InstallKeepsFlow(c: Config, t: Table, flow: nat, source: nat, group: nat, routes: seq<GroupRoute>)
    requires GroupFlow(c, t, flow, source, group)
    ensures GroupFlow(c, InstallTrees(t, group, source, routes), flow, source, group)
  {
    AddTreesDirectory(Purge(t, TreeKeys(t.available, source, group)), group, source, routes);
  }

  lemma InstalledHops(t: Table, owner: nat -> nat, group: nat, ordered: seq<Tree>, members: set<nat>, i: nat, n: nat)
    requires TableOk(t, owner) && StrictlyAscending(ordered) && i < |ordered|
    requires forall j :: 0 <= j < |ordered| ==> TreeSlot(group, ordered[j].id).Some?
    requires SmallNodes(ordered, n)
    ensures var hops := NodeHops(ordered[i].edges, n, members);
            TreeHops(TableAfter(t, group, owner(group), ordered, n, members).hops, group, ordered[i].id)
            == if hops == [] then Failed(UnknownTree) else Found(hops)
  {
    var routes := NodeRoutes(group, ordered, n, members);
    BuiltHops(group, ordered, n, members, ordered[i].id);
    OwnerInstallExact(t, owner, group, routes, ordered[i].id);
    var found := LastFor(routes, group, ordered[i].id);
    if found.Some? {
      var j :| 0 <= j < |ordered| && ordered[j].id == ordered[i].id && NodeHops(ordered[j].edges, n, members) != []
        && found == Some(NodeHops(ordered[j].edges, n, members));
      assert j == i by { assert !(i < j) && !(j < i); }
      NoInvalidHop(ordered[i].edges, n, members);
    }
  }

  lemma NoInvalidHop(edges: seq<Edge>, n: nat, members: set<nat>)
    requires n < 0x1_0000_0000 && forall j :: 0 <= j < |edges| ==> edges[j].1 < 0x1_0000_0000
    ensures INVALID !in NodeHops(edges, n, members)
  {
    assert (n, INVALID) !in edges;
  }

  /** The lookup of a packet that names its tree. */
  lemma AskedHops(overlay: Overlay, owner: nat -> nat, group: nat, ordered: seq<Tree>, members: set<nat>,
                  flow: nat, i: nat, n: nat)
    requires StrictlyAscending(ordered) && i < |ordered| && NodeReady(overlay, owner, group, ordered, flow, n)
    requires forall j :: 0 <= j < |ordered| ==> TreeSlot(group, ordered[j].id).Some?
    ensures var hops := NodeHops(ordered[i].edges, n, members);
            HopsAfterInstall(overlay, group, owner(group), ordered, members, flow, Some(ordered[i].id))(n)
            == if hops == [] then Failed(UnknownTree) else Found(hops)
  {
    var t, c := overlay.table(n), overlay.config(n);
    InstallKeepsFlow(c, t, flow, owner(group), group, NodeRoutes(group, ordered, n, members));
    GroupLookup(c, TableAfter(t, group, owner(group), ordered, n, members), flow, owner(group), group,
                Some(ordered[i].id));
    InstalledHops(t, owner, group, ordered, members, i, n);
  }

  /** One copy at every member in `nodes`, none elsewhere. */
  ghost predicate DeliversOnce(d: Option<multiset<nat>>, members: set<nat>, nodes: set<nat>) {
    d.Some? && forall m: nat :: d.value[m] == if m in members && m in nodes then 1 else 0
  }

  /** The whole path: trees the controller accepts, entries it builds for every node, tables that
      install them, lookups and fan-out at every node.  If a tree is an arborescence from the
      source, a packet that asks for it is delivered exactly once at every member in the tree, and
      nowhere else, whatever else the tables hold. */
  lemma GroupDelivery(overlay: Overlay, owner: nat -> nat, group: nat, trees: seq<Tree>, members: set<nat>,
                      flow: nat, i: nat, depth: map<nat, nat>, ttl: nat)
    requires Canonical(group, trees).Accepted? && i < |Canonical(group, trees).trees|
    requires forall n: nat :: n in depth ==> NodeReady(overlay, owner, group, Canonical(group, trees).trees, flow, n)
    requires IsArborescence(Canonical(group, trees).trees[i].edges, owner(group), depth)
    requires forall v :: v in depth ==> depth[v] < ttl
    ensures var ordered := Canonical(group, trees).trees;
            var hopsAt := HopsAfterInstall(overlay, group, owner(group), ordered, members, flow, Some(ordered[i].id));
            DeliversOnce(Forward(hopsAt, owner(group), ttl), members, depth.Keys)
  {
    CanonicalExact(group, trees);
    var ordered := Canonical(group, trees).trees;
    var hopsAt := HopsAfterInstall(overlay, group, owner(group), ordered, members, flow, Some(ordered[i].id));
    forall n: nat | n in depth
      ensures var hops := NodeHops(ordered[i].edges, n, members);
              if hops == [] then hopsAt(n).Failed? else hopsAt(n) == Found(hops)
    {
      AskedHops(overlay, owner, group, ordered, members, flow, i, n);
    }
    TreeDelivery(hopsAt, ordered[i].edges, owner(group), depth, members, ttl);
  }
}
