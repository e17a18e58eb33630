/** Grouping the paths of an LP solution into multicast trees (examples/lp/tree_conversion.py).
    Rates are whole numbers of 1e-5, the precision the algorithm rounds to. */
module TreePacking {
  import opened Arborescences
  import opened SortedSets
  import opened StableSort

  /** A path has at least its source. */
  type Path = p: seq<nat> | p != [] witness [0]

  datatype Flow = Flow(path: Path, rate: int)

  datatype Packed = Packed(paths: seq<Path>, rate: int)

  ghost predicate SimpleFrom(p: Path, src: nat) {
    p[0] == src && Distinct(p)
  }

  function Last(p: Path): nat {
    p[|p| - 1]
  }

  function Destinations(tree: seq<Path>): set<nat> {
    set p: Path | p in tree :: Last(p)
  }

  /** The directed edges a path runs along. */
  function PathEdges(p: seq<nat>): set<Edge> {
    set i, j | 0 <= i < |p| && 0 <= j < |p| && j == i + 1 :: (p[i], p[j])
  }

  function TreeEdges(tree: seq<Path>): set<Edge> {
    set q, e | q in tree && e in PathEdges(q) :: e
  }

  /** The edges never enter a node from different parents. */
  ghost predicate Agree(a: set<Edge>, b: set<Edge>) {
    forall e, f :: e in a && f in b && e.1 == f.1 ==> e.0 == f.0
  }

  lemma PathEdgesStep(p: Path, i: nat)
    requires i + 1 < |p|
    ensures PathEdges(p[..i + 2]) == PathEdges(p[..i + 1]) + {(p[i], p[i + 1])}
    ensures (p[i], p[i + 1]) in PathEdges(p)
  {
    var longer, shorter := p[..i + 2], p[..i + 1];
    forall e ensures e in PathEdges(longer) <==> e in PathEdges(shorter) || e == (p[i], p[i + 1]) {
      if e in PathEdges(longer) {
        var k :| 0 <= k < |longer| - 1 && e == (longer[k], longer[k + 1]);
        if k < i {
          assert e == (shorter[k], shorter[k + 1]);
        }
      }
      if e in PathEdges(shorter) {
        var k :| 0 <= k < |shorter| - 1 && e == (shorter[k], shorter[k + 1]);
        assert e == (longer[k], longer[k + 1]);
      }
      assert (longer[i], longer[i + 1]) in PathEdges(longer);
    }
  }

  lemma ShortPath(p: Path)
    ensures |p| < 2 ==> PathEdges(p) == {}
    ensures |p| > 0 ==> PathEdges(p[..1]) == {} && p[..|p|] == p
  {
  }

  /** The position at which a path takes an edge. */
  lemma EdgeAt(p: Path, e: Edge) returns (i: nat)
    requires e in PathEdges(p)
    ensures i + 1 < |p| && p[i] == e.0 && p[i + 1] == e.1
  {
    i :| i + 1 < |p| && e == (p[i], p[i + 1]);
  }

  lemma SimpleAgrees(p: Path)
    requires Distinct(p)
    ensures Agree(PathEdges(p), PathEdges(p))
  {
    forall e, f | e in PathEdges(p) && f in PathEdges(p) && e.1 == f.1 ensures e.0 == f.0 {
      var i := EdgeAt(p, e);
      var j := EdgeAt(p, f);
      assert !(i < j) && !(j < i);
    }
  }

  lemma TreeEdgesPush(tree: seq<Path>, p: Path)
    ensures TreeEdges(tree + [p]) == TreeEdges(tree) + PathEdges(p)
  {
    forall e ensures e in TreeEdges(tree + [p]) <==> e in TreeEdges(tree) || e in PathEdges(p) {
      if e in PathEdges(p) {
        assert p in tree + [p];
      }
      if e in TreeEdges(tree) {
        var q :| q in tree && e in PathEdges(q);
        assert q in tree + [p];
      }
    }
  }

  // ---------- the greedy packing, as functions ----------

  /** A path may join if its destination is new and it agrees with every path of the tree. */
  ghost predicate Joins(tree: seq<Path>, p: Path) {
    (forall q :: q in tree ==> Last(q) != Last(p)) && Agree(TreeEdges(tree), PathEdges(p))
  }

  ghost function Grow(tree: seq<Path>, flows: seq<Flow>): (grown: seq<Path>)
    ensures tree <= grown
    decreases |flows|
  {
    if flows == [] then tree
    else Grow(if Joins(tree, flows[0].path) then tree + [flows[0].path] else tree, flows[1..])
  }

  /** The paths of the tree have received `rate`; covered ones leave. */
  function Prune(flows: seq<Flow>, tree: seq<Path>, rate: int): (left: seq<Flow>)
    ensures |left| <= |flows|
  {
    if flows == [] then []
    else
      var f, rest := flows[0], Prune(flows[1..], tree, rate);
      if f.path !in tree then [f] + rest
      else if f.rate - rate <= 0 then rest
      else [Flow(f.path, f.rate - rate)] + rest
  }

  ghost function Pack(flows: seq<Flow>): seq<Packed>
    decreases |flows|
  {
    if flows == [] then []
    else
      var base := flows[0];
      var tree := Grow([base.path], flows[1..]);
      [Packed(tree, base.rate)] + Pack(Prune(flows[1..], tree, base.rate))
  }

  // ---------- the packing loop ----------

  /** `parents` records for every entered node the one node it is entered from. */
  ghost predicate ParentsOf(parents: map<nat, nat>, edges: set<Edge>) {
    && (forall e :: e in edges ==> e.1 in parents && parents[e.1] == e.0)
    && (forall v :: v in parents ==> (parents[v], v) in edges)
  }

  /** The compatibility test: no node of `p` already has another parent. */
  method Compatible(parents: map<nat, nat>, ghost edges: set<Edge>, p: Path) returns (r: bool)
    requires ParentsOf(parents, edges)
    ensures r <==> Agree(edges, PathEdges(p))
  {
    ShortPath(p);
    var i := 0;
    while i + 1 < |p|
      invariant 0 <= i && (|p| > 0 ==> i < |p|)
      invariant |p| > 0 ==> Agree(edges, PathEdges(p[..i + 1]))
    {
      PathEdgesStep(p, i);
      if p[i + 1] in parents && parents[p[i + 1]] != p[i] {
        return false;
      }
      i := i + 1;
    }
    assert |p| > 0 ==> p[..i + 1] == p;
    r := true;
  }

  /** Enters the edges of `p`; a node that has a parent keeps it. */
  method AddParents(parents: map<nat, nat>, ghost edges: set<Edge>, p: Path) returns (r: map<nat, nat>)
    requires ParentsOf(parents, edges) && Distinct(p) && Agree(edges, PathEdges(p))
    ensures ParentsOf(r, edges + PathEdges(p))
  {
    ShortPath(p);
    SimpleAgrees(p);
    r := parents;
    var i := 0;
    ghost var done := {};
    while i + 1 < |p|
      invariant 0 <= i && (|p| > 0 ==> i < |p|)
      invariant done == if |p| > 0 then PathEdges(p[..i + 1]) else {}
      invariant done <= PathEdges(p)
      invariant ParentsOf(r, edges + done)
    {
      PathEdgesStep(p, i);
      ParentsStep(r, edges, done, p, i);
      if p[i + 1] !in r {
        r := r[p[i + 1] := p[i]];
      }
      done := done + {(p[i], p[i + 1])};
      i := i + 1;
    }
    assert |p| > 0 ==> p[..i + 1] == p;
  }

  lemma ParentsStep(parents: map<nat, nat>, edges: set<Edge>, done: set<Edge>, p: Path, i: nat)
    requires ParentsOf(parents, edges + done) && i + 1 < |p| && (p[i], p[i + 1]) in PathEdges(p)
    requires done <= PathEdges(p) && Agree(edges, PathEdges(p)) && Agree(PathEdges(p), PathEdges(p))
    ensures var u, v := p[i], p[i + 1];
            ParentsOf(if v in parents then parents else parents[v := u], edges + (done + {(u, v)}))
  {
    var u, v := p[i], p[i + 1];
    if v in parents {
      assert (parents[v], v) in edges + done;
      assert parents[v] == u;
    } else {
      forall e | e in edges + done ensures e.1 != v {
      }
    }
  }

  /** One tree: starts from the base path and takes every later path that still fits. */
  method GrowTree(base: Path, flows: seq<Flow>) returns (tree: seq<Path>)
    requires Distinct(base)
    requires forall f :: f in flows ==> Distinct(f.path)
    ensures tree == Grow([base], flows)
  {
    var parents := AddParents(map[], {}, base);
    tree := [base];
    TreeEdgesPush([], base);
    assert {} + PathEdges(base) == TreeEdges(tree);
    var dsts := {Last(base)};
    var i := 0;
    while i < |flows|
      invariant 0 <= i <= |flows|
      invariant ParentsOf(parents, TreeEdges(tree))
      invariant DestinationsOf(dsts, tree)
      invariant Grow(tree, flows[i..]) == Grow([base], flows)
    {
      assert flows[i..][1..] == flows[i + 1..];
      parents, dsts, tree := TryPath(parents, dsts, tree, flows[i].path);
      i := i + 1;
    }
  }

  ghost predicate DestinationsOf(dsts: set<nat>, tree: seq<Path>) {
    && (forall q :: q in tree ==> Last(q) in dsts)
    && (forall d :: d in dsts ==> exists q :: q in tree && Last(q) == d)
  }

  /** One candidate of the loop. */
  method TryPath(parents: map<nat, nat>, dsts: set<nat>, tree: seq<Path>, p: Path)
    returns (parents': map<nat, nat>, dsts': set<nat>, tree': seq<Path>)
    requires ParentsOf(parents, TreeEdges(tree))
    requires DestinationsOf(dsts, tree) && Distinct(p)
    ensures tree' == if Joins(tree, p) then tree + [p] else tree
    ensures ParentsOf(parents', TreeEdges(tree'))
    ensures DestinationsOf(dsts', tree')
  {
    parents', dsts', tree' := parents, dsts, tree;
    if Last(p) in dsts {
      return;
    }
    var compatible := Compatible(parents, TreeEdges(tree), p);
    if compatible {
      parents' := AddParents(parents, TreeEdges(tree), p);
      TreeEdgesPush(tree, p);
      dsts' := dsts + {Last(p)};
      tree' := tree + [p];
      DestinationsPush(dsts, tree, p);
    }
  }

  lemma DestinationsPush(dsts: set<nat>, tree: seq<Path>, p: Path)
    requires DestinationsOf(dsts, tree)
    ensures DestinationsOf(dsts + {Last(p)}, tree + [p])
  {
    assert p in tree + [p];
    forall d | d in dsts ensures exists q :: q in tree + [p] && Last(q) == d {
      var q :| q in tree && Last(q) == d;
      assert q in tree + [p];
    }
  }

  /** One step of the backward loop. */
  lemma PruneStep(flows: seq<Flow>, tree: seq<Path>, rate: int, i: nat, current: seq<Flow>)
    requires i < |flows| && current == flows[..i + 1] + Prune(flows[i + 1..], tree, rate)
    ensures i < |current| && current[i] == flows[i]
    ensures flows[..i] + Prune(flows[i..], tree, rate)
            == if flows[i].path !in tree then current
               else if flows[i].rate - rate <= 0 then current[..i] + current[i + 1..]
               else current[i := Flow(flows[i].path, flows[i].rate - rate)]
  {
    assert flows[i..][1..] == flows[i + 1..];
    assert flows[..i + 1] == flows[..i] + [flows[i]];
    assert current[..i] == flows[..i] && current[i + 1..] == Prune(flows[i + 1..], tree, rate);
  }

  /** The pruning loop runs backwards and removes in place. */
  method PruneFlows(flows: seq<Flow>, tree: seq<Path>, rate: int) returns (current: seq<Flow>)
    ensures current == Prune(flows, tree, rate)
  {
    current := flows;
    var i := |flows|;
    while i > 0
      invariant 0 <= i <= |flows|
      invariant current == flows[..i] + Prune(flows[i..], tree, rate)
    {
      i := i - 1;
      PruneStep(flows, tree, rate, i, current);
      var f := current[i];
      if f.path in tree {
        if f.rate - rate <= 0 {
          current := current[..i] + current[i + 1..];
        } else {
          current := current[i := Flow(f.path, f.rate - rate)];
        }
      }
    }
  }

  /** The loop over one session. */
  method PackSession(flows: seq<Flow>) returns (trees: seq<Packed>)
    requires forall f :: f in flows ==> Distinct(f.path)
    ensures trees == Pack(flows)
  {
    trees := [];
    var current := flows;
    while current != []
      invariant forall f :: f in current ==> Distinct(f.path)
      invariant trees + Pack(current) == Pack(flows)
      decreases |current|
    {
      var base := current[0];
      var tree := GrowTree(base.path, current[1..]);
      PruneFrom(current[1..], tree, base.rate);
      current := PruneFlows(current[1..], tree, base.rate);
      trees := trees + [Packed(tree, base.rate)];
    }
  }

  lemma {:induction false} PruneFrom(flows: seq<Flow>, tree: seq<Path>, rate: int)
    ensures forall f :: f in Prune(flows, tree, rate) ==> exists g :: g in flows && g.path == f.path
  {
    if flows != [] {
      PruneFrom(flows[1..], tree, rate);
      forall f | f in Prune(flows, tree, rate) ensures exists g :: g in flows && g.path == f.path {
        if f.path == flows[0].path {
          assert flows[0] in flows;
        } else {
          assert f in Prune(flows[1..], tree, rate);
          var g :| g in flows[1..] && g.path == f.path;
          assert g in flows;
        }
      }
    }
  }

  // ---------- what the packing achieves ----------

  /** The rate that a path receives from the trees containing it. */
  function Total(trees: seq<Packed>, p: Path): int {
    if trees == [] then 0 else (if p in trees[0].paths then trees[0].rate else 0) + Total(trees[1..], p)
  }

  lemma {:induction false} GrowMembers(tree: seq<Path>, flows: seq<Flow>, p: Path)
    requires p in Grow(tree, flows)
    ensures p in tree || exists f :: f in flows && f.path == p
    decreases |flows|
  {
    if flows != [] {
      var next := if Joins(tree, flows[0].path) then tree + [flows[0].path] else tree;
      GrowMembers(next, flows[1..], p);
      if p !in tree {
        if p == flows[0].path {
          assert flows[0] in flows;
        } else {
          var f :| f in flows[1..] && f.path == p;
          assert f in flows;
        }
      }
    }
  }

  /** What is left of an entry after one tree. */
  lemma {:induction false} PruneMember(flows: seq<Flow>, tree: seq<Path>, rate: int, f: Flow)
    requires f in flows
    ensures f.path !in tree ==> f in Prune(flows, tree, rate)
    ensures f.path in tree && f.rate > rate ==> Flow(f.path, f.rate - rate) in Prune(flows, tree, rate)
  {
    if f != flows[0] {
      PruneMember(flows[1..], tree, rate, f);
    }
  }

  /** Every entry receives at least its rate. */
  lemma {:induction false} PackCovers(flows: seq<Flow>, f: Flow)
    requires f in flows
    requires forall g :: g in flows ==> g.rate > 0
    ensures Total(Pack(flows), f.path) >= f.rate
    decreases |flows|
  {
    var base := flows[0];
    var tree := Grow([base.path], flows[1..]);
    var rest := Prune(flows[1..], tree, base.rate);
    PrunePositive(flows[1..], tree, base.rate);
    TotalNonNegative(rest, f.path);
    assert base.path in tree;
    if f != base {
      PruneMember(flows[1..], tree, base.rate, f);
      if f.path !in tree {
        PackCovers(rest, f);
      } else if f.rate > base.rate {
        PackCovers(rest, Flow(f.path, f.rate - base.rate));
      }
    }
  }

  lemma {:induction false} PrunePositive(flows: seq<Flow>, tree: seq<Path>, rate: int)
    requires forall g :: g in flows ==> g.rate > 0
    ensures forall g :: g in Prune(flows, tree, rate) ==> g.rate > 0
  {
    if flows != [] {
      PrunePositive(flows[1..], tree, rate);
    }
  }

  lemma {:induction false} TotalNonNegative(flows: seq<Flow>, p: Path)
    requires forall g :: g in flows ==> g.rate > 0
    ensures Total(Pack(flows), p) >= 0
    decreases |flows|
  {
    if flows != [] {
      var tree := Grow([flows[0].path], flows[1..]);
      PrunePositive(flows[1..], tree, flows[0].rate);
      TotalNonNegative(Prune(flows[1..], tree, flows[0].rate), p);
    }
  }

  /** There is at most one tree per path. */
  lemma {:induction false} AtMostOneTreePerPath(flows: seq<Flow>)
    ensures |Pack(flows)| <= |flows|
    decreases |flows|
  {
    if flows != [] {
      AtMostOneTreePerPath(Prune(flows[1..], Grow([flows[0].path], flows[1..]), flows[0].rate));
    }
  }

  lemma JoinsLess(tree: seq<Path>, q: Path, p: Path)
    requires Joins(tree + [q], p)
    ensures Joins(tree, p)
  {
    TreeEdgesPush(tree, q);
    forall r | r in tree ensures Last(r) != Last(p) {
      assert r in tree + [q];
    }
  }

  lemma {:induction false} JoinsEarlier(tree: seq<Path>, flows: seq<Flow>, p: Path)
    requires Joins(Grow(tree, flows), p)
    ensures Joins(tree, p)
    decreases |flows|
  {
    if flows != [] {
      if Joins(tree, flows[0].path) {
        JoinsEarlier(tree + [flows[0].path], flows[1..], p);
        JoinsLess(tree, flows[0].path, p);
      } else {
        JoinsEarlier(tree, flows[1..], p);
      }
    }
  }

  /** No path that was left out of a tree could still join it. */
  lemma {:induction false} GrowMaximal(tree: seq<Path>, flows: seq<Flow>, f: Flow)
    requires f in flows && f.path !in Grow(tree, flows)
    ensures !Joins(Grow(tree, flows), f.path)
    decreases |flows|
  {
    var next := if Joins(tree, flows[0].path) then tree + [flows[0].path] else tree;
    assert Joins(tree, flows[0].path) ==> flows[0].path in next;
    if f == flows[0] {
      if Joins(Grow(tree, flows), f.path) {
        JoinsEarlier(tree, flows, f.path);
      }
    } else {
      GrowMaximal(next, flows[1..], f);
    }
  }

  // ---------- nothing is sent for a covered path ----------

  ghost predicate PathsDiffer(flows: seq<Flow>) {
    forall i, j :: 0 <= i < j < |flows| ==> flows[i].path != flows[j].path
  }

  lemma {:induction false} PruneDiffer(flows: seq<Flow>, tree: seq<Path>, rate: int)
    requires PathsDiffer(flows)
    ensures PathsDiffer(Prune(flows, tree, rate))
  {
    if flows != [] {
      PruneDiffer(flows[1..], tree, rate);
      PruneFrom(flows[1..], tree, rate);
    }
  }

  /** A path left after pruning has the rest of its own rate. */
  lemma {:induction false} PruneRest(flows: seq<Flow>, tree: seq<Path>, rate: int, f: Flow, g: Flow)
    requires PathsDiffer(flows) && f in flows && g in Prune(flows, tree, rate) && g.path == f.path
    ensures g.rate == f.rate - (if f.path in tree then rate else 0)
    ensures f.path in tree ==> f.rate > rate
  {
    PruneFrom(flows[1..], tree, rate);
    if f != flows[0] {
      PruneRest(flows[1..], tree, rate, f, g);
    }
  }

  /** What the first tree leaves of the entry of a path that a later tree contains. */
  lemma LeftFor(flows: seq<Flow>, f: Flow, j: nat) returns (g: Flow)
    requires PathsDiffer(flows) && f in flows && 0 < j < |Pack(flows)| && f.path in Pack(flows)[j].paths
    ensures var tree := Grow([flows[0].path], flows[1..]);
            && g in Prune(flows[1..], tree, flows[0].rate) && g.path == f.path
            && g.rate == f.rate - (if f.path in tree then flows[0].rate else 0)
  {
    var base, rest := flows[0], flows[1..];
    var tree := Grow([base.path], rest);
    g := PackedFrom(Prune(rest, tree, base.rate), f.path, j - 1);
    PruneFrom(rest, tree, base.rate);
    var h :| h in rest && h.path == g.path;
    assert h in flows && h == f by {
      SameEntry(flows, h, f);
    }
    PruneRest(rest, tree, base.rate, f, g);
  }

  lemma SameEntry(flows: seq<Flow>, f: Flow, g: Flow)
    requires PathsDiffer(flows) && f in flows && g in flows && f.path == g.path
    ensures f == g
  {
  }

  lemma TotalPrefix(first: Packed, rest: seq<Packed>, j: nat, p: Path)
    requires 0 < j <= 1 + |rest|
    ensures Total(([first] + rest)[..j], p) == (if p in first.paths then first.rate else 0) + Total(rest[..j - 1], p)
  {
    assert ([first] + rest)[..j][1..] == rest[..j - 1];
  }

  /** With different paths, a path joins a tree only while the earlier trees have not covered it. */
  lemma {:induction false} PackTight(flows: seq<Flow>, f: Flow, j: nat)
    requires (forall g :: g in flows ==> g.rate > 0) && PathsDiffer(flows) && f in flows
    requires j < |Pack(flows)| && f.path in Pack(flows)[j].paths
    ensures Total(Pack(flows)[..j], f.path) < f.rate
    decreases |flows|
  {
    if j > 0 {
      var base, rest := flows[0], flows[1..];
      var tree := Grow([base.path], rest);
      var left := Prune(rest, tree, base.rate);
      PrunePositive(rest, tree, base.rate);
      PruneDiffer(rest, tree, base.rate);
      var g := LeftFor(flows, f, j);
      PackTight(left, g, j - 1);
      TotalPrefix(Packed(tree, base.rate), Pack(left), j, f.path);
    }
  }

  /** Every path of a tree belongs to an entry. */
  lemma {:induction false} PackedFrom(flows: seq<Flow>, p: Path, j: nat) returns (f: Flow)
    requires j < |Pack(flows)| && p in Pack(flows)[j].paths
    ensures f in flows && f.path == p
    decreases |flows|
  {
    var base, rest := flows[0], flows[1..];
    var tree := Grow([base.path], rest);
    if j == 0 {
      GrowMembers([base.path], rest, p);
      f :| f in flows && f.path == p;
    } else {
      f := PackedFrom(Prune(rest, tree, base.rate), p, j - 1);
      PruneFrom(rest, tree, base.rate);
      f :| f in rest && f.path == p;
    }
  }

  // ---------- every packed tree is a tree ----------

  ghost predicate DifferentEnds(tree: seq<Path>) {
    forall i, j :: 0 <= i < j < |tree| ==> Last(tree[i]) != Last(tree[j])
  }

  /** Its paths end at different nodes and its edges agree. */
  ghost predicate TreeLike(tree: seq<Path>) {
    DifferentEnds(tree) && Agree(TreeEdges(tree), TreeEdges(tree))
  }

  lemma JoinTreeLike(tree: seq<Path>, p: Path)
    requires TreeLike(tree)
    requires Distinct(p) && Joins(tree, p)
    ensures TreeLike(tree + [p])
  {
    TreeEdgesPush(tree, p);
    SimpleAgrees(p);
  }

  lemma {:induction false} GrowTreeLike(tree: seq<Path>, flows: seq<Flow>)
    requires TreeLike(tree)
    requires forall f :: f in flows ==> Distinct(f.path)
    ensures TreeLike(Grow(tree, flows))
    decreases |flows|
  {
    if flows != [] {
      if Joins(tree, flows[0].path) {
        JoinTreeLike(tree, flows[0].path);
        GrowTreeLike(tree + [flows[0].path], flows[1..]);
      } else {
        GrowTreeLike(tree, flows[1..]);
      }
    }
  }

  ghost predicate AllFrom(tree: seq<Path>, src: nat) {
    forall q :: q in tree ==> SimpleFrom(q, src)
  }

  lemma StepInTree(tree: seq<Path>, p: Path, i: nat)
    requires p in tree && i + 1 < |p|
    ensures (p[i], p[i + 1]) in TreeEdges(tree)
  {
    assert (p[i], p[i + 1]) in PathEdges(p);
  }

  /** A node has the same distance from the source on every path of the tree. */
  lemma {:induction false} SameDepth(tree: seq<Path>, src: nat, p: Path, q: Path, i: nat, j: nat)
    requires AllFrom(tree, src) && Agree(TreeEdges(tree), TreeEdges(tree)) && p in tree && q in tree
    requires i < |p| && j < |q| && p[i] == q[j]
    ensures i == j
  {
    assert SimpleFrom(p, src) && SimpleFrom(q, src);
    if i > 0 && j > 0 {
      StepInTree(tree, p, i - 1);
      StepInTree(tree, q, j - 1);
      SameDepth(tree, src, p, q, i - 1, j - 1);
    }
  }

  function TreeNodes(tree: seq<Path>): set<nat> {
    set q, n | q in tree && n in q :: n
  }

  ghost predicate IsPosition(tree: seq<Path>, n: nat, i: nat) {
    exists q :: q in tree && i < |q| && q[i] == n
  }

  lemma HasPosition(tree: seq<Path>, n: nat)
    requires n in TreeNodes(tree)
    ensures exists i :: IsPosition(tree, n, i)
  {
    var q :| q in tree && n in q;
    var i: nat :| i < |q| && q[i] == n;
    assert IsPosition(tree, n, i);
  }

  /** The distance of every node of the tree from the source. */
  ghost function Depths(tree: seq<Path>): map<nat, nat> {
    map n: nat | n in TreeNodes(tree) :: (HasPosition(tree, n); var i :| IsPosition(tree, n, i); i)
  }

  /** The number of nodes of the longest path. */
  function Longest(tree: seq<Path>): nat
    decreases tree
  {
    if tree == [] then 0
    else
      var rest := Longest(tree[1..]);
      if |tree[0]| >= rest then |tree[0]| else rest
  }

  lemma {:induction false} LongestBound(tree: seq<Path>, p: Path)
    requires p in tree
    ensures |p| <= Longest(tree)
    decreases tree
  {
    if p != tree[0] {
      LongestBound(tree[1..], p);
    }
  }

  lemma DepthBelowLongest(tree: seq<Path>, v: nat)
    requires v in Depths(tree)
    ensures Depths(tree)[v] < Longest(tree)
  {
    HasPosition(tree, v);
    var i := Depths(tree)[v];
    assert IsPosition(tree, v, i);
    var q :| q in tree && i < |q| && q[i] == v;
    LongestBound(tree, q);
  }

  lemma DepthOnPath(tree: seq<Path>, src: nat, p: Path, i: nat)
    requires AllFrom(tree, src) && Agree(TreeEdges(tree), TreeEdges(tree)) && p in tree && i < |p|
    ensures p[i] in Depths(tree) && Depths(tree)[p[i]] == i
  {
    assert p[i] in p;
    var j := Depths(tree)[p[i]];
    HasPosition(tree, p[i]);
    assert IsPosition(tree, p[i], j);
    var q :| q in tree && j < |q| && q[j] == p[i];
    SameDepth(tree, src, p, q, i, j);
  }

  ghost predicate ListsEdges(edges: seq<Edge>, tree: seq<Path>) {
    (forall e :: e in edges <==> e in TreeEdges(tree)) && (forall i, j :: 0 <= i < j < |edges| ==> edges[i] != edges[j])
  }

  lemma EdgeOnPath(tree: seq<Path>, e: Edge) returns (p: Path, i: nat)
    requires e in TreeEdges(tree)
    ensures p in tree && i + 1 < |p| && p[i] == e.0 && p[i + 1] == e.1
  {
    p :| p in tree && e in PathEdges(p);
    i := EdgeAt(p, e);
  }

  lemma EdgesDescend(tree: seq<Path>, src: nat, e: Edge)
    requires AllFrom(tree, src) && Agree(TreeEdges(tree), TreeEdges(tree)) && e in TreeEdges(tree)
    ensures e.0 in Depths(tree) && e.1 in Depths(tree) && Depths(tree)[e.1] == Depths(tree)[e.0] + 1
  {
    var p, i := EdgeOnPath(tree, e);
    DepthOnPath(tree, src, p, i);
    DepthOnPath(tree, src, p, i + 1);
  }

  lemma HasParent(tree: seq<Path>, src: nat, v: nat) returns (u: nat)
    requires AllFrom(tree, src) && v in TreeNodes(tree) && v != src
    ensures (u, v) in TreeEdges(tree)
  {
    var q :| q in tree && v in q;
    var i :| 0 <= i < |q| && q[i] == v;
    assert SimpleFrom(q, src);
    StepInTree(tree, q, i - 1);
    u := q[i - 1];
  }

  /** The edges of paths that start at the source and agree form a tree directed away from it. */
  lemma AgreeingPathsFormTree(tree: seq<Path>, edges: seq<Edge>, src: nat)
    requires tree != [] && AllFrom(tree, src) && Agree(TreeEdges(tree), TreeEdges(tree)) && ListsEdges(edges, tree)
    ensures IsArborescence(edges, src, Depths(tree))
  {
    assert SimpleFrom(tree[0], src);
    DepthOnPath(tree, src, tree[0], 0);
    forall e | e in edges
      ensures e.0 in Depths(tree) && e.1 in Depths(tree) && Depths(tree)[e.1] == Depths(tree)[e.0] + 1
    {
      EdgesDescend(tree, src, e);
    }
    forall i, j | 0 <= i < j < |edges| ensures edges[i].1 != edges[j].1 {
      assert edges[i] in TreeEdges(tree) && edges[j] in TreeEdges(tree);
    }
    forall v | v in Depths(tree) && v != src ensures Entered(edges, v) {
      var u := HasParent(tree, src, v);
      assert (u, v) in edges;
    }
  }

  // ---------- the whole conversion ----------

  const BY_RATE := (a: Flow, b: Flow) => a.rate >= b.rate

  /** Falling rates; equal ones keep their order. */
  function SortByRate(flows: seq<Flow>): seq<Flow> {
    Sort(BY_RATE, flows)
  }

  /** The paths of one session. */
  function FlowsFrom(flows: seq<Flow>, src: nat): seq<Flow> {
    if flows == [] then []
    else (if flows[0].rate != 0 && flows[0].path[0] == src then [flows[0]] else []) + FlowsFrom(flows[1..], src)
  }

  ghost function Session(flows: seq<Flow>, src: nat): seq<Packed> {
    Pack(SortByRate(FlowsFrom(flows, src)))
  }

  lemma {:induction false} SessionMembers(flows: seq<Flow>, src: nat)
    ensures forall f :: f in FlowsFrom(flows, src) <==> f in flows && f.rate != 0 && f.path[0] == src
  {
    if flows != [] {
      SessionMembers(flows[1..], src);
    }
  }

  lemma SortedSessionMembers(flows: seq<Flow>, src: nat)
    ensures forall f :: f in SortByRate(FlowsFrom(flows, src)) <==> f in flows && f.rate != 0 && f.path[0] == src
  {
    var session := FlowsFrom(flows, src);
    SessionMembers(flows, src);
    SortSorts(BY_RATE, session);
    forall f ensures f in SortByRate(session) <==> f in session {
      assert f in SortByRate(session) <==> f in multiset(SortByRate(session));
      assert f in session <==> f in multiset(session);
    }
  }

  /** The flows from `src` with rate `r`, in order. */
  function OfRate(flows: seq<Flow>, src: nat, r: int): seq<Flow> {
    if flows == [] then []
    else (if flows[0].path[0] == src && flows[0].rate == r then [flows[0]] else []) + OfRate(flows[1..], src, r)
  }

  /** The flows from `src` with non-zero rates: greater rates first, equal ones in their old order. */
  ghost predicate IsSessionOrder(order: seq<Flow>, flows: seq<Flow>, src: nat) {
    && (forall f :: f in order ==> f.path[0] == src && f.rate != 0)
    && (forall i, j :: 0 <= i < j < |order| ==> order[i].rate >= order[j].rate)
    && (forall r: int :: r != 0 ==> OfRate(order, src, r) == OfRate(flows, src, r))
  }

  lemma {:induction false} FlowsOfRate(flows: seq<Flow>, src: nat, r: int)
    requires r != 0
    ensures OfRate(FlowsFrom(flows, src), src, r) == OfRate(flows, src, r)
    decreases flows
  {
    if flows != [] {
      FlowsOfRate(flows[1..], src, r);
      var rest := FlowsFrom(flows[1..], src);
      assert ([flows[0]] + rest)[1..] == rest && [] + rest == rest;
    }
  }

  lemma {:induction false} TiesOfRate(x: Flow, flows: seq<Flow>, src: nat)
    requires forall f :: f in flows ==> f.path[0] == src
    ensures Ties(BY_RATE, x, flows) == OfRate(flows, src, x.rate)
    decreases flows
  {
    if flows != [] {
      TiesOfRate(x, flows[1..], src);
    }
  }

  lemma RatesFall(flows: seq<Flow>)
    ensures var order := SortByRate(flows);
            forall i, j :: 0 <= i < j < |order| ==> order[i].rate >= order[j].rate
  {
    SortSorts(BY_RATE, flows);
    assert forall i, j :: 0 <= i < j < |SortByRate(flows)| ==> BY_RATE(SortByRate(flows)[i], SortByRate(flows)[j]);
  }

  lemma SessionOrdered(flows: seq<Flow>, src: nat)
    ensures IsSessionOrder(SortByRate(FlowsFrom(flows, src)), flows, src)
  {
    var session := FlowsFrom(flows, src);
    SessionMembers(flows, src);
    SortedSessionMembers(flows, src);
    RatesFall(session);
    forall r: int | r != 0 ensures OfRate(SortByRate(session), src, r) == OfRate(flows, src, r) {
      var x := Flow([src], r);
      SortStable(BY_RATE, x, session);
      TiesOfRate(x, session, src);
      TiesOfRate(x, SortByRate(session), src);
      FlowsOfRate(flows, src, r);
    }
  }

  /** The first tree of a session has the greatest rate of the session. */
  ghost predicate StartsGreatest(trees: seq<Packed>, flows: seq<Flow>, src: nat) {
    && trees != [] && trees[0].paths != []
    && (forall f :: f in flows && f.rate != 0 && f.path[0] == src ==> f.rate <= trees[0].rate)
    && (exists f :: f in flows && f.path[0] == src && f.rate == trees[0].rate && trees[0].paths[0] == f.path)
  }

  lemma SessionStarts(flows: seq<Flow>, src: nat, f: Flow)
    requires f in flows && f.rate != 0 && f.path[0] == src
    ensures StartsGreatest(Session(flows, src), flows, src)
  {
    var order := SortByRate(FlowsFrom(flows, src));
    SortedSessionMembers(flows, src);
    RatesFall(FlowsFrom(flows, src));
    assert f in order;
    assert order[0] in order;
    forall h | h in flows && h.rate != 0 && h.path[0] == src ensures h.rate <= order[0].rate {
      var i :| 0 <= i < |order| && order[i] == h;
    }
    assert Grow([order[0].path], order[1..])[0] == order[0].path;
  }

  /** The trees are those of first-fit packing in that order. */
  ghost predicate PacksInOrder(trees: seq<Packed>, flows: seq<Flow>, src: nat) {
    exists order :: IsSessionOrder(order, flows, src) && trees == Pack(order)
  }

  lemma SessionPromises(flows: seq<Flow>, src: nat)
    requires exists f :: f in flows && f.rate != 0 && f.path[0] == src
    ensures PacksInOrder(Session(flows, src), flows, src) && StartsGreatest(Session(flows, src), flows, src)
  {
    var f :| f in flows && f.rate != 0 && f.path[0] == src;
    SessionOrdered(flows, src);
    SessionStarts(flows, src, f);
  }

  lemma AllPromises(flows: seq<Flow>, sources: seq<nat>)
    requires forall s: nat :: s in sources ==> exists f :: f in flows && f.rate != 0 && f.path[0] == s
    ensures forall i :: 0 <= i < |sources| ==>
              && PacksInOrder(Session(flows, sources[i]), flows, sources[i])
              && StartsGreatest(Session(flows, sources[i]), flows, sources[i])
  {
    forall i | 0 <= i < |sources|
      ensures PacksInOrder(Session(flows, sources[i]), flows, sources[i])
      ensures StartsGreatest(Session(flows, sources[i]), flows, sources[i])
    {
      assert sources[i] in sources;
      SessionPromises(flows, sources[i]);
    }
  }

  /** `convert_to_multicast_trees`: one session per source, in the order of the sources. */
  method ConvertToMulticastTrees(flows: seq<Flow>) returns (sources: seq<nat>, sessions: seq<seq<Packed>>)
    requires forall f :: f in flows ==> Distinct(f.path)
    ensures forall i, j :: 0 <= i < j < |sources| ==> sources[i] < sources[j]
    ensures forall s: nat :: s in sources <==> exists f :: f in flows && f.rate != 0 && f.path[0] == s
    ensures |sessions| == |sources|
    ensures forall i :: 0 <= i < |sources| ==>
              && sessions[i] == Session(flows, sources[i])
              && PacksInOrder(sessions[i], flows, sources[i])
              && StartsGreatest(sessions[i], flows, sources[i])
  {
    sources := SortedKeys(set f | f in flows && f.rate != 0 :: f.path[0]);
    sessions := [];
    for i := 0 to |sources|
      invariant |sessions| == i && forall j :: 0 <= j < i ==> sessions[j] == Session(flows, sources[j])
    {
      SortedSessionMembers(flows, sources[i]);
      var trees := PackSession(SortByRate(FlowsFrom(flows, sources[i])));
      sessions := sessions + [trees];
    }
    AllPromises(flows, sources);
  }

  /** `paths_to_edges`: the edges of a tree, sorted. */
  method PathsToEdges(tree: seq<Path>) returns (edges: seq<Edge>)
    ensures ListsEdges(edges, tree)
    ensures forall i, j :: 0 <= i < j < |edges| ==>
              edges[i].0 < edges[j].0 || (edges[i].0 == edges[j].0 && edges[i].1 < edges[j].1)
  {
    var all := TreeEdges(tree);
    var parents := SortedKeys(set e | e in all :: e.0);
    edges := [];
    for i := 0 to |parents|
      invariant forall e :: e in edges <==> e in all && e.0 in parents[..i]
      invariant forall k, l :: 0 <= k < l < |edges| ==> EdgeBefore(edges[k], edges[l])
    {
      var more := EdgesFrom(all, parents[i]);
      assert parents[..i + 1] == parents[..i] + [parents[i]];
      edges := edges + more;
    }
    assert parents[..|parents|] == parents;
  }

  predicate EdgeBefore(e: Edge, f: Edge) {
    e.0 < f.0 || (e.0 == f.0 && e.1 < f.1)
  }

  method EdgesFrom(all: set<Edge>, u: nat) returns (edges: seq<Edge>)
    ensures forall e :: e in edges <==> e in all && e.0 == u
    ensures forall k, l :: 0 <= k < l < |edges| ==> EdgeBefore(edges[k], edges[l])
  {
    var children := SortedKeys(set e | e in all && e.0 == u :: e.1);
    edges := [];
    for i := 0 to |children|
      invariant |edges| == i && forall k :: 0 <= k < i ==> edges[k] == (u, children[k])
    {
      edges := edges + [(u, children[i])];
    }
    forall e ensures e in edges <==> e in all && e.0 == u {
      if e in all && e.0 == u {
        assert e.1 in children;
        var k :| 0 <= k < |children| && children[k] == e.1;
        assert edges[k] == e;
      }
      if e in edges {
        var k :| 0 <= k < |edges| && edges[k] == e;
        assert children[k] in children;
      }
    }
  }

  // ---------- the promises of the conversion ----------

  /** Each tree of a session has simple paths of that session only, with different destinations,
      and its edges form a tree directed away from the source. */
  lemma {:induction false} PackedTrees(flows: seq<Flow>, src: nat, j: nat)
    requires (forall f :: f in flows ==> SimpleFrom(f.path, src)) && j < |Pack(flows)|
    ensures var tree := Pack(flows)[j].paths;
            tree != [] && AllFrom(tree, src) && TreeLike(tree)
    decreases |flows|
  {
    var base, rest := flows[0], flows[1..];
    var tree := Grow([base.path], rest);
    if j == 0 {
      SimpleAgrees(base.path);
      TreeEdgesPush([], base.path);
      assert [] + [base.path] == [base.path] && TreeEdges([base.path]) == PathEdges(base.path);
      GrowTreeLike([base.path], rest);
      forall p | p in tree ensures SimpleFrom(p, src) {
        GrowMembers([base.path], rest, p);
      }
    } else {
      PruneFrom(rest, tree, base.rate);
      PackedTrees(Prune(rest, tree, base.rate), src, j - 1);
    }
  }

  lemma DestinationsInTree(tree: seq<Path>, src: nat)
    requires AllFrom(tree, src) && Agree(TreeEdges(tree), TreeEdges(tree))
    ensures Destinations(tree) <= Depths(tree).Keys
  {
    forall d | d in Destinations(tree) ensures d in Depths(tree) {
      var p: Path :| p in tree && d == Last(p);
      DepthOnPath(tree, src, p, |p| - 1);
    }
  }

  lemma TreeShape(tree: seq<Path>, edges: seq<Edge>, src: nat)
    requires tree != [] && AllFrom(tree, src) && TreeLike(tree) && ListsEdges(edges, tree)
    ensures IsArborescence(edges, src, Depths(tree))
    ensures Destinations(tree) <= Depths(tree).Keys
    ensures DifferentEnds(tree)
  {
    AgreeingPathsFormTree(tree, edges, src);
    DestinationsInTree(tree, src);
  }

  lemma SessionTrees(flows: seq<Flow>, src: nat, j: nat, tree: seq<Path>, edges: seq<Edge>)
    requires forall f :: f in flows ==> Distinct(f.path)
    requires j < |Session(flows, src)| && tree == Session(flows, src)[j].paths && ListsEdges(edges, tree)
    ensures IsArborescence(edges, src, Depths(tree))
    ensures Destinations(tree) <= Depths(tree).Keys
    ensures DifferentEnds(tree)
  {
    SortedSessionMembers(flows, src);
    PackedTrees(SortByRate(FlowsFrom(flows, src)), src, j);
    TreeShape(tree, edges, src);
  }

  /** Over the trees of its session every path is given at least its rate. */
  lemma SessionCovers(flows: seq<Flow>, f: Flow)
    requires (forall g :: g in flows ==> g.rate >= 0) && f in flows
    ensures Total(Session(flows, f.path[0]), f.path) >= f.rate
  {
    SortedSessionMembers(flows, f.path[0]);
    var session := SortByRate(FlowsFrom(flows, f.path[0]));
    if f.rate > 0 {
      PackCovers(session, f);
    } else {
      TotalNonNegative(session, f.path);
    }
  }
}
