/** From a computed tree to delivered packets: the tree builders of the optimizer, the routes of
    the controller and the tables and fan-out of the nodes, put together. */
module TreeDeployment {
  import opened Wrappers
  import opened Arborescences
  import opened GroupRoutes
  import opened MulticastDelivery
  import opened ControlDelivery
  import opened PathFinder
  import CfTree
  import TreePacking

  /** Every node of the tree has installed its entries for all trees of the group. */
  ghost predicate Deployable(overlay: Overlay, owner: nat -> nat, group: nat, trees: seq<Tree>, flow: nat,
                             nodes: map<nat, nat>)
  {
    && Canonical(group, trees).Accepted?
    && forall n: nat :: n in nodes ==> NodeReady(overlay, owner, group, Canonical(group, trees).trees, flow, n)
  }

  /** One copy at each member, none elsewhere. */
  ghost predicate OnceEach(d: Option<multiset<nat>>, members: set<nat>) {
    DeliversOnce(d, members, members)
  }

  lemma OnceAtMembers(d: Option<multiset<nat>>, members: set<nat>, nodes: set<nat>)
    requires DeliversOnce(d, members, nodes) && members <= nodes
    ensures OnceEach(d, members)
  {
  }

  lemma DeployedTreeDelivers(overlay: Overlay, owner: nat -> nat, group: nat, trees: seq<Tree>, flow: nat, i: nat,
                             nodes: map<nat, nat>, members: set<nat>, ttl: nat)
    requires Deployable(overlay, owner, group, trees, flow, nodes) && i < |Canonical(group, trees).trees|
    requires IsArborescence(Canonical(group, trees).trees[i].edges, owner(group), nodes)
    requires members <= nodes.Keys && forall v :: v in nodes ==> nodes[v] < ttl
    ensures var ordered := Canonical(group, trees).trees;
            var hopsAt := HopsAfterInstall(overlay, group, owner(group), ordered, members, flow, Some(ordered[i].id));
            OnceEach(Forward(hopsAt, owner(group), ttl), members)
  {
    GroupDelivery(overlay, owner, group, trees, members, flow, i, nodes, ttl);
    var ordered := Canonical(group, trees).trees;
    var hopsAt := HopsAfterInstall(overlay, group, owner(group), ordered, members, flow, Some(ordered[i].id));
    OnceAtMembers(Forward(hopsAt, owner(group), ttl), members, nodes.Keys);
  }

  /** The same for packets that ask for no tree, if all leaves of the least tree are members. */
  lemma DeployedControlDelivers(overlay: Overlay, owner: nat -> nat, group: nat, trees: seq<Tree>, flow: nat,
                                nodes: map<nat, nat>, members: set<nat>, ttl: nat)
    requires Deployable(overlay, owner, group, trees, flow, nodes) && Canonical(group, trees).trees != []
    requires IsArborescence(Canonical(group, trees).trees[0].edges, owner(group), nodes)
    requires members <= nodes.Keys && forall v :: v in nodes ==> nodes[v] < ttl
    requires forall v :: v in nodes ==>
               v in members || OutNeighbours(Canonical(group, trees).trees[0].edges, v) != []
    ensures var ordered := Canonical(group, trees).trees;
            var hopsAt := HopsAfterInstall(overlay, group, owner(group), ordered, members, flow, None);
            OnceEach(Forward(hopsAt, owner(group), ttl), members)
  {
    forall n: nat | n in nodes ensures Agrees(Canonical(group, trees).trees, members, n) {
      MemberLeavesAgree(Canonical(group, trees).trees, members, n);
    }
    ControlDelivery.ControlDelivery(overlay, owner, group, trees, members, flow, nodes, ttl);
    var hopsAt := HopsAfterInstall(overlay, group, owner(group), Canonical(group, trees).trees, members, flow, None);
    OnceAtMembers(Forward(hopsAt, owner(group), ttl), members, nodes.Keys);
  }

  /** A tree that the hop-limited builder returned delivers within its hop limit, exactly once to
      each of its members. */
  lemma CfTreeDelivers(overlay: Overlay, owner: nat -> nat, group: nat, trees: seq<Tree>, flow: nat, i: nat,
                       adj: Adjacency, hopLimit: nat, nodes: map<nat, nat>, members: set<nat>)
    requires Deployable(overlay, owner, group, trees, flow, nodes) && i < |Canonical(group, trees).trees|
    requires CfTree.TreeOk(adj, owner(group), hopLimit, Canonical(group, trees).trees[i].edges, nodes)
    requires members <= nodes.Keys
    ensures var ordered := Canonical(group, trees).trees;
            var hopsAt := HopsAfterInstall(overlay, group, owner(group), ordered, members, flow, Some(ordered[i].id));
            OnceEach(Forward(hopsAt, owner(group), hopLimit + 1), members)
  {
    DeployedTreeDelivers(overlay, owner, group, trees, flow, i, nodes, members, hopLimit + 1);
  }

  /** The tree is the `j`-th one that was packed from the flows of the group's source. */
  ghost predicate Packed(flows: seq<TreePacking.Flow>, source: nat, j: nat, paths: seq<TreePacking.Path>,
                         edges: seq<Edge>)
  {
    && (forall f :: f in flows ==> Distinct(f.path))
    && j < |TreePacking.Session(flows, source)| && paths == TreePacking.Session(flows, source)[j].paths
    && TreePacking.ListsEdges(edges, paths)
  }

  lemma PackedShape(flows: seq<TreePacking.Flow>, source: nat, j: nat, paths: seq<TreePacking.Path>, edges: seq<Edge>)
    requires Packed(flows, source, j, paths, edges)
    ensures var nodes := TreePacking.Depths(paths);
            && IsArborescence(edges, source, nodes) && TreePacking.Destinations(paths) <= nodes.Keys
            && forall v :: v in nodes ==> nodes[v] < TreePacking.Longest(paths)
  {
    TreePacking.SessionTrees(flows, source, j, paths, edges);
    forall v | v in TreePacking.Depths(paths) ensures TreePacking.Depths(paths)[v] < TreePacking.Longest(paths) {
      TreePacking.DepthBelowLongest(paths, v);
    }
  }

  /** A tree that was packed from paths delivers exactly once to each destination of its paths, and
      within as many hops as the longest of them takes. */
  lemma PackedTreeDelivers(overlay: Overlay, owner: nat -> nat, group: nat, trees: seq<Tree>, flow: nat, i: nat,
                           flows: seq<TreePacking.Flow>, j: nat, paths: seq<TreePacking.Path>)
    requires Deployable(overlay, owner, group, trees, flow, TreePacking.Depths(paths))
    requires i < |Canonical(group, trees).trees|
    requires Packed(flows, owner(group), j, paths, Canonical(group, trees).trees[i].edges)
    ensures var ordered, members := Canonical(group, trees).trees, TreePacking.Destinations(paths);
            var hopsAt := HopsAfterInstall(overlay, group, owner(group), ordered, members, flow, Some(ordered[i].id));
            OnceEach(Forward(hopsAt, owner(group), TreePacking.Longest(paths)), members)
  {
    PackedShape(flows, owner(group), j, paths, Canonical(group, trees).trees[i].edges);
    DeployedTreeDelivers(overlay, owner, group, trees, flow, i, TreePacking.Depths(paths),
                         TreePacking.Destinations(paths), TreePacking.Longest(paths));
  }

  /** In a packed tree only destinations are leaves. */
  lemma PackedLeaves(paths: seq<TreePacking.Path>, edges: seq<Edge>, v: nat)
    requires TreePacking.ListsEdges(edges, paths) && v in TreePacking.Depths(paths)
    ensures v in TreePacking.Destinations(paths) || OutNeighbours(edges, v) != []
  {
    var p: TreePacking.Path :| p in paths && v in p;
    var i :| 0 <= i < |p| && p[i] == v;
    if i + 1 < |p| {
      assert (p[i], p[i + 1]) in TreePacking.PathEdges(p);
      assert (p[i], p[i + 1]) in edges;
      assert p[i + 1] in OutNeighbours(edges, v);
    } else {
      assert TreePacking.Last(p) == v;
    }
  }

  /** If the least tree was packed from paths, packets that ask for no tree are delivered on it,
      exactly once to each destination of its paths, whatever the other trees are. */
  lemma PackedControlDelivers(overlay: Overlay, owner: nat -> nat, group: nat, trees: seq<Tree>, flow: nat,
                              flows: seq<TreePacking.Flow>, j: nat, paths: seq<TreePacking.Path>)
    requires Deployable(overlay, owner, group, trees, flow, TreePacking.Depths(paths))
    requires Canonical(group, trees).trees != []
    requires Packed(flows, owner(group), j, paths, Canonical(group, trees).trees[0].edges)
    ensures var ordered, members := Canonical(group, trees).trees, TreePacking.Destinations(paths);
            var hopsAt := HopsAfterInstall(overlay, group, owner(group), ordered, members, flow, None);
            OnceEach(Forward(hopsAt, owner(group), TreePacking.Longest(paths)), members)
  {
    var edges := Canonical(group, trees).trees[0].edges;
    PackedShape(flows, owner(group), j, paths, edges);
    forall v: nat | v in TreePacking.Depths(paths)
      ensures v in TreePacking.Destinations(paths) || OutNeighbours(edges, v) != []
    {
      PackedLeaves(paths, edges, v);
    }
    DeployedControlDelivers(overlay, owner, group, trees, flow, TreePacking.Depths(paths),
                            TreePacking.Destinations(paths), TreePacking.Longest(paths));
  }
}
