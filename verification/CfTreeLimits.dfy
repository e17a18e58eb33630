/** When the tree builder gives up (examples/lp/cf_tree.py).  Its documentation promises an error if
    a terminal is out of reach within the hop limit; the code can also give up earlier. */
module CfTreeLimits {
  import opened Arborescences
  import opened PathFinder
  import opened LayeredSearch
  import opened HopEstimates
  import opened CfTree
  import LayeredDijkstra

  ghost predicate Unreached(adj: Adjacency, src: nat, t: nat) {
    forall k: nat :: !InHops(adj, src, t, k)
  }

  /** Every node of the tree is reached by a walk as long as its depth. */
  lemma {:induction false} TreeNodesReached(adj: Adjacency, src: nat, hopLimit: int, edges: seq<Edge>,
                                            nodes: map<nat, nat>, v: nat)
    requires TreeOk(adj, src, hopLimit, edges, nodes) && v in nodes
    ensures InHops(adj, src, v, nodes[v])
    decreases nodes[v]
  {
    if v != src {
      assert Entered(edges, v);
      var u :| (u, v) in edges;
      assert (u, v).1 in Neighbours(adj, (u, v).0);
      TreeNodesReached(adj, src, hopLimit, edges, nodes, u);
    } else {
      assert nodes[v] == 0;
    }
  }

  /** The documented half: with a terminal out of reach within the hop limit the builder gives up. */
  lemma OutOfReachGivesUp(adj: Adjacency, weights: Weights, src: nat, terminals: seq<nat>, hopLimit: int,
                          r: TreeResult, ordered: seq<nat>, tree: Growth, t: nat)
    requires IsOutcome(adj, weights, src, terminals, hopLimit, r, ordered, tree)
    requires t in terminals && t != src && forall k: nat :: k <= hopLimit ==> !InHops(adj, src, t, k)
    ensures r.Unreachable?
  {
    if r.Built? {
      AllTerminals(adj, weights, src, terminals, hopLimit, ordered, tree);
      TreeNodesReached(adj, src, hopLimit, tree.edges, tree.nodes, t);
    }
  }

  /** The other half, at the first terminal the builder gives up on, while tree nodes lie at their
      shortest distance. */
  lemma ShallowTreeReaches(s: Search, src: nat, k: nat)
    requires src in s.tree && forall v :: v in s.tree ==> NotBefore(s.adj, src, v, s.tree[v])
    requires k <= s.hopLimit && InHops(s.adj, src, s.terminal, k)
    ensures exists q :: Graft(s, q)
  {
    var q := ShallowBranch(s, src, s.terminal, k);
    assert Graft(s, q);
  }

  lemma {:induction false} ShallowBranch(s: Search, src: nat, v: nat, k: nat) returns (q: seq<nat>)
    requires src in s.tree && forall u :: u in s.tree ==> NotBefore(s.adj, src, u, s.tree[u])
    requires k <= s.hopLimit && InHops(s.adj, src, v, k)
    ensures Branch(s, q) && q[|q| - 1] == v && s.tree[q[0]] + |q| - 1 <= k
    decreases k
  {
    if v in s.tree {
      q := [v];
      assert NotBefore(s.adj, src, v, s.tree[v]);
    } else {
      var u: nat :| InHops(s.adj, src, u, k - 1) && v in Neighbours(s.adj, u);
      var q' := ShallowBranch(s, src, u, k - 1);
      q := q' + [v];
      BranchPush(s, q', v);
    }
  }

  // ---------- a hop limit that cannot matter ----------

  lemma {:induction false} SubsetSize(a: set<nat>, b: set<nat>)
    requires a <= b
    ensures |a| <= |b|
    decreases a
  {
    if a != {} {
      var x :| x in a;
      SubsetSize(a - {x}, b - {x});
    }
  }

  lemma {:induction false} DistinctSize(q: seq<nat>)
    requires Distinct(q)
    ensures |Nodes(q)| == |q|
  {
    if q != [] {
      var init, last := q[..|q| - 1], q[|q| - 1];
      DistinctSize(init);
      assert Nodes(q) == Nodes(init) + {last};
      assert last !in Nodes(init);
    }
  }

  /** A node at depth `d` has `d` ancestors in the tree. */
  lemma {:induction false} Ancestors(adj: Adjacency, src: nat, hopLimit: int, edges: seq<Edge>, nodes: map<nat, nat>,
                                     v: nat)
    returns (above: set<nat>)
    requires TreeOk(adj, src, hopLimit, edges, nodes) && v in nodes
    ensures above <= nodes.Keys && |above| == nodes[v] + 1 && forall a :: a in above ==> nodes[a] <= nodes[v]
    decreases nodes[v]
  {
    if v == src {
      above := {src};
    } else {
      assert Entered(edges, v);
      var u :| (u, v) in edges;
      assert nodes[(u, v).1] == nodes[(u, v).0] + 1;
      var more := Ancestors(adj, src, hopLimit, edges, nodes, u);
      assert v !in more;
      above := more + {v};
    }
  }

  lemma TreeInGraph(adj: Adjacency, src: nat, hopLimit: int, edges: seq<Edge>, nodes: map<nat, nat>)
    requires TreeOk(adj, src, hopLimit, edges, nodes)
    ensures nodes.Keys <= AllNodes(adj, src)
  {
    forall v | v in nodes ensures v in AllNodes(adj, src) {
      if v != src {
        assert Entered(edges, v);
        var u :| (u, v) in edges;
        assert (u, v).1 in Neighbours(adj, (u, v).0);
      }
    }
  }

  /** Whatever a walk from the source reaches hangs on to the tree. */
  lemma {:induction false} WalkTail(s: Search, src: nat, v: nat, k: nat) returns (q: seq<nat>)
    requires src in s.tree && InHops(s.adj, src, v, k)
    ensures Tail(s, q) && q[|q| - 1] == v
    decreases k
  {
    if v in s.tree {
      q := [v];
    } else {
      var u: nat :| InHops(s.adj, src, u, k - 1) && v in Neighbours(s.adj, u);
      var q' := WalkTail(s, src, u, k - 1);
      q := q' + [v];
      TailPush(s, q', v);
    }
  }

  lemma CutLoop(s: Search, q: seq<nat>, i: nat, j: nat)
    requires Tail(s, q) && i < j < |q| && q[i] == q[j]
    ensures Tail(s, q[..i] + q[j..]) && (q[..i] + q[j..])[|q| - (j - i) - 1] == q[|q| - 1]
  {
    var p := q[..i] + q[j..];
    assert i > 0 by {
      assert q[j] in Neighbours(s.adj, q[j - 1]) && q[j] !in s.tree;
    }
    forall a, b | 0 <= a < |p| && 0 <= b < |p| && b == a + 1
      ensures p[b] in Neighbours(s.adj, p[a]) && p[b] !in s.tree
    {
      if b < i {
        assert p[a] == q[a] && p[b] == q[b];
      } else if b == i {
        assert p[a] == q[i - 1] && p[b] == q[i];
      } else {
        assert p[a] == q[a + (j - i)] && p[b] == q[b + (j - i)];
      }
    }
  }

  lemma {:induction false} SimpleTail(s: Search, q: seq<nat>) returns (p: seq<nat>)
    requires Tail(s, q)
    ensures Tail(s, p) && Distinct(p) && p[|p| - 1] == q[|q| - 1]
    decreases |q|
  {
    if Distinct(q) {
      p := q;
    } else {
      var i: nat, j: nat :| i < j < |q| && q[i] == q[j];
      CutLoop(s, q, i, j);
      p := SimpleTail(s, q[..i] + q[j..]);
    }
  }

  /** The new nodes of a simple tail. */
  lemma TailSize(s: Search, src: nat, p: seq<nat>)
    requires Tail(s, p) && Distinct(p) && s.tree.Keys <= AllNodes(s.adj, src)
    ensures |s.tree.Keys| + |p| - 1 <= |AllNodes(s.adj, src)|
  {
    TailNodes(s, src, p);
    DistinctSize(p[1..]);
    UnionSize(s.tree.Keys, Nodes(p[1..]), AllNodes(s.adj, src));
  }

  lemma TailNodes(s: Search, src: nat, p: seq<nat>)
    requires Tail(s, p)
    ensures Nodes(p[1..]) <= AllNodes(s.adj, src) && Nodes(p[1..]) !! s.tree.Keys
  {
    var added := p[1..];
    forall v | v in Nodes(added) ensures v in AllNodes(s.adj, src) && v !in s.tree {
      var j :| 0 <= j < |added| && added[j] == v;
      assert p[j + 1] in Neighbours(s.adj, p[j]) && p[j + 1] !in s.tree;
    }
  }

  lemma UnionSize(a: set<nat>, b: set<nat>, c: set<nat>)
    requires a <= c && b <= c && a !! b
    ensures |a| + |b| <= |c|
  {
    SubsetSize(a + b, c);
  }

  /** With a hop limit of at least the number of nodes less one, every terminal that the source
      reaches can be connected to every tree. */
  lemma RoomyTreeReaches(s: Search, src: nat, edges: seq<Edge>, k: nat)
    requires TreeOk(s.adj, src, s.hopLimit, edges, s.tree) && |AllNodes(s.adj, src)| - 1 <= s.hopLimit
    requires InHops(s.adj, src, s.terminal, k)
    ensures exists q :: Graft(s, q)
  {
    var q := WalkTail(s, src, s.terminal, k);
    var p := SimpleTail(s, q);
    TreeInGraph(s.adj, src, s.hopLimit, edges, s.tree);
    TailSize(s, src, p);
    var above := Ancestors(s.adj, src, s.hopLimit, edges, s.tree, p[0]);
    SubsetSize(above, s.tree.Keys);
    assert Graft(s, p);
  }

  /** For such a hop limit the documentation is right: the builder gives up if and only if some
      terminal cannot be reached from the source at all. */
  lemma RoomyOutcome(adj: Adjacency, weights: Weights, src: nat, terminals: seq<nat>, hopLimit: int,
                     r: TreeResult, ordered: seq<nat>, tree: Growth)
    requires IsOutcome(adj, weights, src, terminals, hopLimit, r, ordered, tree)
    requires |AllNodes(adj, src)| - 1 <= hopLimit
    ensures r.Unreachable? <==> exists t :: t in terminals && Unreached(adj, src, t)
  {
    if exists t :: t in terminals && Unreached(adj, src, t) {
      var t :| t in terminals && Unreached(adj, src, t);
      assert InHops(adj, src, src, 0);
      OutOfReachGivesUp(adj, weights, src, terminals, hopLimit, r, ordered, tree, t);
    }
    if r.Unreachable? {
      GivenUpUnreached(adj, weights, src, terminals, hopLimit, r, ordered, tree);
    }
  }

  lemma GivenUpUnreached(adj: Adjacency, weights: Weights, src: nat, terminals: seq<nat>, hopLimit: int,
                         r: TreeResult, ordered: seq<nat>, tree: Growth)
    requires IsOutcome(adj, weights, src, terminals, hopLimit, r, ordered, tree)
    requires |AllNodes(adj, src)| - 1 <= hopLimit && r.Unreachable?
    ensures r.terminal in terminals && Unreached(adj, src, r.terminal)
  {
    var k :| 0 <= k < |ordered| && ordered[k] == r.terminal && r.terminal !in tree.nodes
      && Grows(adj, weights, src, hopLimit, ordered[..k], tree)
      && forall q :: !Graft(Search(adj, weights, tree.nodes, r.terminal, hopLimit), q);
    OthersMembers(terminals, src);
    assert r.terminal in multiset(ordered);
    GrowsOk(adj, weights, src, hopLimit, ordered[..k], tree);
    forall j: nat ensures !InHops(adj, src, r.terminal, j) {
      if InHops(adj, src, r.terminal, j) {
        RoomyTreeReaches(Search(adj, weights, tree.nodes, r.terminal, hopLimit), src, tree.edges, j);
      }
    }
  }

  // ---------- a hop limit that matters ----------

  const DIAMOND: Adjacency := map[0 := [1, 2], 1 := [2], 2 := [3], 3 := []]
  const DETOUR: Weights :=
    map[(0, 1) := Finite(1.0), (1, 2) := Finite(1.0), (0, 2) := Finite(5.0), (2, 3) := Finite(1.0)]

  function ToTwo(): Search { Search(DIAMOND, DETOUR, map[0 := 0], 2, 2) }

  function ToThree(): Search { Search(DIAMOND, DETOUR, map[0 := 0, 1 := 1, 2 := 2], 3, 2) }

  lemma SecondNode(s: Search, q: seq<nat>)
    requires Branch(s, q) && |q| > 1
    ensures q[1] in Neighbours(s.adj, q[0]) && q[1] !in s.tree && s.tree[q[0]] < s.hopLimit
  {
  }

  lemma ThirdNode(s: Search, q: seq<nat>)
    requires Branch(s, q) && |q| > 2
    ensures q[2] in Neighbours(s.adj, q[1]) && s.tree[q[0]] + |q| - 1 <= s.hopLimit
  {
  }

  lemma TwoWays(q: seq<nat>)
    requires Graft(ToTwo(), q)
    ensures q == [0, 1, 2] || (q == [0, 2] && CostOf(DETOUR, q) == Finite(5.0))
  {
    assert q[0] == 0 && |q| >= 2;
    SecondNode(ToTwo(), q);
    if |q| > 2 {
      ThirdNode(ToTwo(), q);
      assert |q| == 3 && q == [0, q[1], 2];
    } else {
      assert q == [0, 2] && q[..1] == [0];
    }
  }

  lemma DetourIsWay()
    ensures Graft(ToTwo(), [0, 1, 2]) && CostOf(DETOUR, [0, 1, 2]) == Finite(2.0)
  {
    assert Neighbours(DIAMOND, 0)[0] == 1 && Neighbours(DIAMOND, 1)[0] == 2;
    assert [0, 1, 2][..2] == [0, 1] && [0, 1][..1] == [0];
  }

  lemma NothingLeft(q: seq<nat>)
    ensures !Graft(ToThree(), q)
  {
    if Branch(ToThree(), q) && |q| > 1 {
      SecondNode(ToThree(), q);
    }
  }

  /** With only the source in the tree, a found path is itself a connection. */
  lemma FoundIsGraft(s: Search, src: nat, path: seq<nat>)
    requires FoundPath(s, path) && s.tree == map[src := 0]
    ensures Graft(s, path)
  {
    var visits: seq<Visit> :| PathOk(s, visits) && visits[|visits| - 1].0 == s.terminal && path == NodesOf(visits);
    VisitFacts(s, visits, 0);
    LayerIsIndex(s, visits, |visits| - 1);
    forall i, j | 0 <= i < |path| && 0 <= j < |path| && j == i + 1
      ensures path[j] in Neighbours(s.adj, path[i]) && path[j] !in s.tree
    {
      VisitFacts(s, visits, j);
      assert visits[0].0 != visits[j].0;
    }
    if |path| > 1 {
      VisitFacts(s, visits, |visits| - 1);
    }
  }

  lemma {:induction false} LayerIsIndex(s: Search, path: seq<Visit>, i: nat)
    requires PathOk(s, path) && i < |path|
    ensures path[i].1 == path[0].1 + i
  {
    if i > 0 {
      VisitFacts(s, path, i);
      LayerIsIndex(s, path, i - 1);
    }
  }

  /** Node 2 can only be attached by way of node 1. */
  lemma TwoIsDeep(path: seq<nat>)
    requires FoundPath(ToTwo(), path)
    ensures AttachFrom(Growth([], map[0 := 0]), path, 0) == Growth([(0, 1), (1, 2)], map[0 := 0, 1 := 1, 2 := 2])
  {
    FoundIsGraft(ToTwo(), 0, path);
    TwoWays(path);
    DetourIsWay();
    assert NonNegative(DETOUR);
    assert path == [0, 1, 2];
    ChainAttached();
  }

  lemma ChainAttached()
    ensures AttachFrom(Growth([], map[0 := 0]), [0, 1, 2], 0) == Growth([(0, 1), (1, 2)], map[0 := 0, 1 := 1, 2 := 2])
  {
    var path := [0, 1, 2];
    var t0 := Growth([], map[0 := 0]);
    var t1 := Growth([(0, 1)], map[0 := 0, 1 := 1]);
    var t2 := Growth([(0, 1), (1, 2)], map[0 := 0, 1 := 1, 2 := 2]);
    assert Attach(t0, 0, 1) == t1 && Attach(t1, 1, 2) == t2;
    assert AttachFrom(t2, path, 2) == t2 && AttachFrom(t1, path, 1) == t2;
  }

  /** Both terminals are within the hop limit of two, node 2 is the nearer one. */
  lemma HopsToThem()
    ensures InHops(DIAMOND, 0, 2, 1) && InHops(DIAMOND, 0, 3, 2)
    ensures !InHops(DIAMOND, 0, 3, 0) && !InHops(DIAMOND, 0, 3, 1)
  {
    assert Neighbours(DIAMOND, 0)[1] == 2 && Neighbours(DIAMOND, 2)[0] == 3;
    assert InHops(DIAMOND, 0, 0, 0) && InHops(DIAMOND, 0, 2, 1);
    assert forall u: nat :: InHops(DIAMOND, 0, u, 0) ==> u == 0;
  }

  lemma TheOrder(ordered: seq<nat>)
    requires IsOrder(DIAMOND, 0, [2, 3], ordered)
    ensures ordered == [2, 3]
  {
    BothOthers();
    PairOrder(ordered);
    ThreeNotNearer();
    assert Nearer(DIAMOND, 0, ordered[0], ordered[1]);
  }

  lemma BothOthers()
    ensures Others([2, 3], 0) == [2, 3]
  {
    assert [2, 3][1..] == [3] && [3][1..] == [];
    assert Others([3], 0) == [3];
  }

  lemma ThreeNotNearer()
    ensures !Nearer(DIAMOND, 0, 3, 2)
  {
    HopsToThem();
  }

  lemma PairOrder(ordered: seq<nat>)
    requires multiset(ordered) == multiset([2, 3])
    ensures ordered == [2, 3] || ordered == [3, 2]
  {
    assert |ordered| == |multiset(ordered)| == 2;
    assert ordered == [ordered[0], ordered[1]];
    assert ordered[0] in multiset(ordered) && ordered[1] in multiset(ordered);
    assert multiset([2, 3])[2] == 1 && multiset([2, 3])[3] == 1;
  }

  lemma GrownToTwo(tree: Growth)
    requires Grows(DIAMOND, DETOUR, 0, 2, [2], tree)
    ensures tree.nodes == map[0 := 0, 1 := 1, 2 := 2]
  {
    assert [2][..0] == [];
    var before :| Grows(DIAMOND, DETOUR, 0, 2, [2][..0], before) && GrowStep(DIAMOND, DETOUR, 2, before, 2, tree);
    assert before == Growth([], map[0 := 0]);
    var path :| FoundPath(Search(DIAMOND, DETOUR, before.nodes, 2, 2), path) && tree == AttachFrom(before, path, 0);
    TwoIsDeep(path);
  }

  lemma NeverGrown(tree: Growth)
    ensures !Grows(DIAMOND, DETOUR, 0, 2, [2, 3], tree)
  {
    if Grows(DIAMOND, DETOUR, 0, 2, [2, 3], tree) {
      assert [2, 3][..1] == [2];
      var before :| Grows(DIAMOND, DETOUR, 0, 2, [2], before) && GrowStep(DIAMOND, DETOUR, 2, before, 3, tree);
      GrownToTwo(before);
      var path :| FoundPath(ToThree(), path);
      NoneFound(path);
    }
  }

  lemma NoneFound(path: seq<nat>)
    ensures !FoundPath(ToThree(), path)
  {
    if FoundPath(ToThree(), path) {
      var visits: seq<Visit> :| PathOk(ToThree(), visits) && visits[|visits| - 1].0 == 3 && path == NodesOf(visits);
      NoPathLeft(visits);
    }
  }

  lemma NoPathLeft(visits: seq<Visit>)
    requires PathOk(ToThree(), visits)
    ensures visits[|visits| - 1].0 != 3
  {
    var q := LayeredDijkstra.SuffixGraft(ToThree(), visits);
    NothingLeft(q);
  }

  /** Two terminals within the hop limit of two, and yet the builder always gives up at node 3:
      node 2 is cheapest by way of node 1, and once it lies at depth 2 nothing within two hops
      connects node 3, although 0, 2, 3 does. */
  lemma HopLimitMissed(r: TreeResult, ordered: seq<nat>, tree: Growth)
    requires IsOutcome(DIAMOND, DETOUR, 0, [2, 3], 2, r, ordered, tree)
    ensures InHops(DIAMOND, 0, 2, 1) && InHops(DIAMOND, 0, 3, 2)
    ensures r == Unreachable(3)
  {
    TheOrder(ordered);
    HopsToThem();
    if r.Built? {
      NeverGrown(tree);
    } else {
      GivenUpAtThree(r.terminal, tree);
    }
  }

  lemma TwoConnects(tree: Growth)
    requires Grows(DIAMOND, DETOUR, 0, 2, [], tree)
    ensures Graft(Search(DIAMOND, DETOUR, tree.nodes, 2, 2), [0, 1, 2])
  {
    DetourIsWay();
  }

  lemma GivenUpAtThree(terminal: nat, tree: Growth)
    requires exists k :: 0 <= k < 2 && [2, 3][k] == terminal && terminal !in tree.nodes
                         && Grows(DIAMOND, DETOUR, 0, 2, [2, 3][..k], tree)
                         && forall q :: !Graft(Search(DIAMOND, DETOUR, tree.nodes, terminal, 2), q)
    ensures terminal == 3
  {
    assert [2, 3][..0] == [];
    if Grows(DIAMOND, DETOUR, 0, 2, [], tree) {
      TwoConnects(tree);
    }
  }
}
