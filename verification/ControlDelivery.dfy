/** Packets that ask for no tree: every node sends them on its least installed tree
    (dataplane/src/node/route.rs), which need not be the same one everywhere. */
module ControlDelivery {
  import opened Wrappers
  import opened Arborescences
  import opened FlowLookups
  import opened RouteIds
  import opened RouteTables
  import opened SortedSets
  import opened TableProperties
  import opened GroupRoutes
  import opened MulticastDelivery

  /** The trees are in order and have slots, as accepted trees do. */
  ghost predicate Fits(group: nat, ordered: seq<Tree>) {
    StrictlyAscending(ordered) && forall j :: 0 <= j < |ordered| ==> TreeSlot(group, ordered[j].id).Some?
  }

  // ---------- the tree a node chooses ----------

  /** The first tree in which the node has hops. */
  function FirstTree(ordered: seq<Tree>, n: nat, members: set<nat>): (r: Option<nat>)
    ensures r.Some? ==> r.value < |ordered| && NodeHops(ordered[r.value].edges, n, members) != []
    ensures forall j: nat :: j < |ordered| && NodeHops(ordered[j].edges, n, members) != [] ==> r.Some? && r.value <= j
    decreases ordered
  {
    if ordered == [] then None
    else if NodeHops(ordered[0].edges, n, members) != [] then Some(0)
    else
      var rest := FirstTree(ordered[1..], n, members);
      assert forall j: nat :: 0 < j < |ordered| ==> ordered[j] == ordered[1..][j - 1];
      if rest.Some? then Some(rest.value + 1) else None
  }

  /** A tree is installed for the source exactly if the node has hops in it. */
  lemma InstalledTrees(t: Table, owner: nat -> nat, group: nat, ordered: seq<Tree>, members: set<nat>, n: nat,
                       tree: nat)
    requires TableOk(t, owner) && Fits(group, ordered)
    ensures tree in Trees(TableAfter(t, group, owner(group), ordered, n, members).available, owner(group), group)
            <==> exists j: nat ::
                   j < |ordered| && ordered[j].id == tree && NodeHops(ordered[j].edges, n, members) != []
  {
    var routes, key := NodeRoutes(group, ordered, n, members), Multicast(owner(group), group, tree);
    var after := TableAfter(t, group, owner(group), ordered, n, members);
    InstallTreesOk(t, owner, group, routes);
    assert tree in Trees(after.available, owner(group), group) <==> key in after.available by {
      assert key in after.available ==> KeyOk(after, owner, key);
    }
    if TreeSlot(group, tree).Some? {
      KeyIffHops(after, owner, group, tree);
      InstalledSlot(t, owner, group, routes, tree);
      BuiltHops(group, ordered, n, members, tree);
    }
  }

  lemma InstalledSlot(t: Table, owner: nat -> nat, group: nat, routes: seq<GroupRoute>, tree: nat)
    requires TableOk(t, owner) && TreeSlot(group, tree).Some?
    ensures TreeSlot(group, tree).value in InstallTrees(t, group, owner(group), routes).hops
            <==> LastFor(routes, group, tree).Some?
  {
    var id := TreeSlot(group, tree).value;
    AddTreesAt(Purge(t, TreeKeys(t.available, owner(group), group)), group, owner(group), routes, tree);
    KeyIffHops(t, owner, group, tree);
    TreeIdsOwn(t, owner, group, id);
  }

  /** The least installed tree is the first one in which the node has hops. */
  lemma LeastTree(t: Table, owner: nat -> nat, group: nat, ordered: seq<Tree>, members: set<nat>, n: nat)
    requires TableOk(t, owner) && Fits(group, ordered)
    ensures var first := FirstTree(ordered, n, members);
            Least(Trees(TableAfter(t, group, owner(group), ordered, n, members).available, owner(group), group))
            == if first.Some? then Some(ordered[first.value].id) else None
  {
    var first := FirstTree(ordered, n, members);
    var s := Trees(TableAfter(t, group, owner(group), ordered, n, members).available, owner(group), group);
    var r := if first.Some? then Some(ordered[first.value].id) else None;
    forall tree: nat
      ensures tree in s <==> exists j: nat ::
                j < |ordered| && ordered[j].id == tree && NodeHops(ordered[j].edges, n, members) != []
    {
      InstalledTrees(t, owner, group, ordered, members, n, tree);
    }
    LeastUnique(r, Least(s), s);
  }

  /** The lookup of a packet that asks for no tree. */
  lemma ControlHops(overlay: Overlay, owner: nat -> nat, group: nat, ordered: seq<Tree>, members: set<nat>,
                    flow: nat, n: nat)
    requires Fits(group, ordered) && NodeReady(overlay, owner, group, ordered, flow, n)
    ensures var first := FirstTree(ordered, n, members);
            HopsAfterInstall(overlay, group, owner(group), ordered, members, flow, None)(n)
            == if first.Some? then Found(NodeHops(ordered[first.value].edges, n, members)) else Failed(NoControlTree)
  {
    var t, c := overlay.table(n), overlay.config(n);
    var first := FirstTree(ordered, n, members);
    InstallKeepsFlow(c, t, flow, owner(group), group, NodeRoutes(group, ordered, n, members));
    LeastTree(t, owner, group, ordered, members, n);
    GroupLookup(c, TableAfter(t, group, owner(group), ordered, n, members), flow, owner(group), group, None);
    if first.Some? {
      InstalledHops(t, owner, group, ordered, members, first.value, n);
    }
  }

  // ---------- delivery ----------

  /** A node that has no hops in the least tree has none in any tree. */
  ghost predicate Agrees(ordered: seq<Tree>, members: set<nat>, n: nat)
    requires ordered != []
  {
    NodeHops(ordered[0].edges, n, members) == [] ==>
      forall j: nat :: j < |ordered| ==> NodeHops(ordered[j].edges, n, members) == []
  }

  /** Both lookups give the same hops, or neither gives any. */
  ghost predicate SameHops(a: Lookup, b: Lookup) {
    a == b || (a.Failed? && b.Failed?)
  }

  /** Exactly when a node treats a packet without a tree like one that asks for the least tree. */
  lemma ControlExact(overlay: Overlay, owner: nat -> nat, group: nat, ordered: seq<Tree>, members: set<nat>,
                     flow: nat, n: nat)
    requires ordered != [] && Fits(group, ordered) && NodeReady(overlay, owner, group, ordered, flow, n)
    ensures SameHops(
              HopsAfterInstall(overlay, group, owner(group), ordered, members, flow, None)(n),
              HopsAfterInstall(overlay, group, owner(group), ordered, members, flow, Some(ordered[0].id))(n))
            <==> Agrees(ordered, members, n)
  {
    ControlHops(overlay, owner, group, ordered, members, flow, n);
    AskedHops(overlay, owner, group, ordered, members, flow, 0, n);
  }

  /** If every node of the least tree agrees, a packet that asks for no tree is delivered like one
      on the least tree: exactly once at every member in it and nowhere else. */
  lemma ControlDelivery(overlay: Overlay, owner: nat -> nat, group: nat, trees: seq<Tree>, members: set<nat>,
                        flow: nat, depth: map<nat, nat>, ttl: nat)
    requires Canonical(group, trees).Accepted? && Canonical(group, trees).trees != []
    requires forall n: nat :: n in depth ==> NodeReady(overlay, owner, group, Canonical(group, trees).trees, flow, n)
    requires IsArborescence(Canonical(group, trees).trees[0].edges, owner(group), depth)
    requires forall n: nat :: n in depth ==> Agrees(Canonical(group, trees).trees, members, n)
    requires forall v :: v in depth ==> depth[v] < ttl
    ensures var ordered := Canonical(group, trees).trees;
            var hopsAt := HopsAfterInstall(overlay, group, owner(group), ordered, members, flow, None);
            DeliversOnce(Forward(hopsAt, owner(group), ttl), members, depth.Keys)
  {
    CanonicalExact(group, trees);
    var ordered := Canonical(group, trees).trees;
    var hopsAt := HopsAfterInstall(overlay, group, owner(group), ordered, members, flow, None);
    forall n: nat | n in depth
      ensures var hops := NodeHops(ordered[0].edges, n, members);
              if hops == [] then hopsAt(n).Failed? else hopsAt(n) == Found(hops)
    {
      assert Agrees(ordered, members, n);
      ControlHops(overlay, owner, group, ordered, members, flow, n);
    }
    TreeDelivery(hopsAt, ordered[0].edges, owner(group), depth, members, ttl);
  }

  /** All nodes agree on a tree whose leaves are members. */
  lemma MemberLeavesAgree(ordered: seq<Tree>, members: set<nat>, n: nat)
    requires ordered != []
    requires n in members || OutNeighbours(ordered[0].edges, n) != []
    ensures Agrees(ordered, members, n)
  {
  }

  // ---------- a detour ----------

  const SHORT: seq<Edge> := [(1, 2), (1, 3)]
  const LONG: seq<Edge> := [(1, 2), (2, 3), (2, 4)]

  function TwoTrees(): seq<Tree> { [Tree(0, SHORT), Tree(1, LONG)] }

  lemma ShortHops()
    ensures NodeHops(SHORT, 1, {3, 4}) == [3, 2] && NodeHops(SHORT, 2, {3, 4}) == []
    ensures NodeHops(SHORT, 3, {3, 4}) == [3] && NodeHops(SHORT, 4, {3, 4}) == [4]
  {
    assert SHORT[..1] == [(1, 2)] && SHORT[..1][..0] == [];
    forall n: nat ensures OutNeighbours(SHORT, n)
      == (if n == 1 then [3] else []) + ((if n == 1 then [2] else []) + OutNeighbours([], n))
    {
    }
  }

  lemma LongHops()
    ensures NodeHops(LONG, 2, {3, 4}) == [4, 3]
  {
    assert LONG[..2] == [(1, 2), (2, 3)] && LONG[..2][..1] == [(1, 2)] && [(1, 2)][..0] == [];
    assert OutNeighbours([(1, 2)], 2) == [];
    assert OutNeighbours([(1, 2), (2, 3)], 2) == [3];
  }

  lemma ForwardPair(hopsAt: nat -> Lookup, n: nat, a: nat, b: nat, ttl: nat, x: multiset<nat>, y: multiset<nat>)
    requires ttl > 0 && hopsAt(n) == Found([a, b]) && a != n && b != n
    requires Forward(hopsAt, a, ttl - 1) == Some(x) && Forward(hopsAt, b, ttl - 1) == Some(y)
    ensures Forward(hopsAt, n, ttl) == Some(x + y)
  {
    assert [a, b][1..] == [b] && [b][1..] == [];
    assert FanOut(hopsAt, n, [], ttl - 1) == Some(multiset{});
    assert FanOut(hopsAt, n, [b], ttl - 1) == Some(y + multiset{}) && y + multiset{} == y;
  }

  lemma ForwardSelf(hopsAt: nat -> Lookup, n: nat, ttl: nat)
    requires ttl > 0 && hopsAt(n) == Found([n])
    ensures Forward(hopsAt, n, ttl) == Some(multiset{n})
  {
    SelfDelivery(hopsAt, n, ttl - 1);
  }

  lemma DetourForward(hopsAt: nat -> Lookup, ttl: nat)
    requires hopsAt(1) == Found([3, 2]) && hopsAt(2) == Found([4, 3])
    requires hopsAt(3) == Found([3]) && hopsAt(4) == Found([4]) && ttl >= 3
    ensures Forward(hopsAt, 1, ttl) == Some(multiset{3, 3, 4})
  {
    ForwardSelf(hopsAt, 3, ttl - 1);
    ForwardSelf(hopsAt, 3, ttl - 2);
    ForwardSelf(hopsAt, 4, ttl - 2);
    ForwardPair(hopsAt, 2, 4, 3, ttl - 1, multiset{4}, multiset{3});
    ForwardPair(hopsAt, 1, 3, 2, ttl, multiset{3}, multiset{4} + multiset{3});
    assert multiset{3} + (multiset{4} + multiset{3}) == multiset{3, 3, 4};
  }

  /** With two trees, a node takes its hops in the first, or else in the second. */
  ghost predicate TakesHops(ordered: seq<Tree>, members: set<nat>, n: nat, hops: Hops)
    requires |ordered| == 2
  {
    && hops != []
    && if NodeHops(ordered[0].edges, n, members) != [] then hops == NodeHops(ordered[0].edges, n, members)
       else hops == NodeHops(ordered[1].edges, n, members)
  }

  lemma TakenHops(overlay: Overlay, owner: nat -> nat, group: nat, ordered: seq<Tree>, members: set<nat>,
                  flow: nat, n: nat, hops: Hops)
    requires |ordered| == 2 && Fits(group, ordered) && NodeReady(overlay, owner, group, ordered, flow, n)
    requires TakesHops(ordered, members, n, hops)
    ensures HopsAfterInstall(overlay, group, owner(group), ordered, members, flow, None)(n) == Found(hops)
  {
    ControlHops(overlay, owner, group, ordered, members, flow, n);
  }

  lemma DetourHops(ordered: seq<Tree>)
    requires ordered == TwoTrees()
    ensures TakesHops(ordered, {3, 4}, 1, [3, 2]) && TakesHops(ordered, {3, 4}, 2, [4, 3])
    ensures TakesHops(ordered, {3, 4}, 3, [3]) && TakesHops(ordered, {3, 4}, 4, [4])
    ensures !Agrees(ordered, {3, 4}, 2)
  {
    ShortHops();
    LongHops();
    assert NodeHops(ordered[1].edges, 2, {3, 4}) != [];
  }

  lemma DetourFits(group: nat, ordered: seq<Tree>)
    requires ordered == TwoTrees() && TreeSlot(group, 0).Some? && TreeSlot(group, 1).Some?
    ensures |ordered| == 2 && Fits(group, ordered)
  {
  }

  lemma DetourTaken(overlay: Overlay, owner: nat -> nat, group: nat, ordered: seq<Tree>, flow: nat, ttl: nat)
    requires |ordered| == 2 && Fits(group, ordered) && owner(group) == 1 && ttl >= 3
    requires NodeReady(overlay, owner, group, ordered, flow, 1) && NodeReady(overlay, owner, group, ordered, flow, 2)
    requires NodeReady(overlay, owner, group, ordered, flow, 3) && NodeReady(overlay, owner, group, ordered, flow, 4)
    requires TakesHops(ordered, {3, 4}, 1, [3, 2]) && TakesHops(ordered, {3, 4}, 2, [4, 3])
    requires TakesHops(ordered, {3, 4}, 3, [3]) && TakesHops(ordered, {3, 4}, 4, [4])
    ensures var hopsAt := HopsAfterInstall(overlay, group, 1, ordered, {3, 4}, flow, None);
            Forward(hopsAt, 1, ttl) == Some(multiset{3, 3, 4})
  {
    TakenHops(overlay, owner, group, ordered, {3, 4}, flow, 1, [3, 2]);
    TakenHops(overlay, owner, group, ordered, {3, 4}, flow, 2, [4, 3]);
    TakenHops(overlay, owner, group, ordered, {3, 4}, flow, 3, [3]);
    TakenHops(overlay, owner, group, ordered, {3, 4}, flow, 4, [4]);
    DetourForward(HopsAfterInstall(overlay, group, 1, ordered, {3, 4}, flow, None), ttl);
  }

  /** Two trees of source 1 for members 3 and 4.  Node 2 is a leaf of the first tree and no member,
      so it has no entry for it and sends the packet on along the second: member 3 gets two copies,
      and member 4 gets one, which the first tree does not reach. */
  lemma DetourDoubles(overlay: Overlay, owner: nat -> nat, group: nat, ordered: seq<Tree>, flow: nat, ttl: nat)
    requires ordered == TwoTrees() && owner(group) == 1 && TreeSlot(group, 0).Some? && TreeSlot(group, 1).Some?
    requires forall n: nat :: 1 <= n <= 4 ==> NodeReady(overlay, owner, group, ordered, flow, n)
    requires ttl >= 3
    ensures var hopsAt := HopsAfterInstall(overlay, group, 1, ordered, {3, 4}, flow, None);
            !Agrees(ordered, {3, 4}, 2) && Forward(hopsAt, 1, ttl) == Some(multiset{3, 3, 4})
  {
    DetourFits(group, ordered);
    DetourHops(ordered);
    DetourTaken(overlay, owner, group, ordered, flow, ttl);
  }
}
