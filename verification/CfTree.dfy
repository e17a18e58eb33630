/** The hop-limited multicast tree builder (examples/lp/cf_tree.py, `build_cf_tree`). */
module CfTree {
  import opened Wrappers
  import opened Arborescences
  import opened PathFinder
  import opened LayeredSearch
  import opened HopEstimates
  import opened StableSort
  import LayeredDijkstra

  /** A tree of graph edges directed away from the source, no deeper than the hop limit. */
  ghost predicate TreeOk(adj: Adjacency, src: nat, hopLimit: int, edges: seq<Edge>, nodes: map<nat, nat>) {
    && IsArborescence(edges, src, nodes)
    && (forall e :: e in edges ==> e.1 in Neighbours(adj, e.0))
    && (forall v :: v in nodes && v != src ==> nodes[v] <= hopLimit)
  }

  // ---------- adding a path ----------

  /** What the search promises about each visit of a path. */
  lemma {:induction false} VisitFacts(s: Search, path: seq<Visit>, i: nat)
    requires PathOk(s, path) && i < |path|
    ensures path[i].0 in s.tree ==> s.tree[path[i].0] == path[i].1
    ensures if i == 0 then path[i].0 in s.tree else Step(s, path[i - 1], path[i])
    ensures forall j :: 0 <= j < i ==> path[j].0 != path[i].0
    decreases |path|
  {
    var rest := path[..|path| - 1];
    if i < |path| - 1 {
      VisitFacts(s, rest, i);
    } else if i > 0 {
      forall j | 0 <= j < i ensures path[j].0 != path[i].0 {
        assert NodesOf(rest)[j] == path[j].0;
      }
    }
  }

  /** The tree after the first `i` steps of the path. */
  ghost predicate Attached(s: Search, src: nat, edges: seq<Edge>, nodes: map<nat, nat>, path: seq<Visit>, i: nat)
    requires i < |path|
  {
    && TreeOk(s.adj, src, s.hopLimit, edges, nodes)
    && Entries(s, nodes, path, i)
  }

  /** The nodes are those of the tree and those of the path so far, at their depths. */
  ghost predicate Entries(s: Search, nodes: map<nat, nat>, path: seq<Visit>, i: nat)
    requires i < |path|
  {
    && (forall v :: v in s.tree ==> v in nodes && nodes[v] == s.tree[v])
    && (forall j :: 0 <= j <= i ==> path[j].0 in nodes && nodes[path[j].0] == path[j].1)
    && (forall v :: v in nodes ==> v in s.tree || exists j :: 0 <= j <= i && path[j].0 == v)
  }


  /** A tree under construction. */
  datatype Growth = Growth(edges: seq<Edge>, nodes: map<nat, nat>)

  /** Enters `v` below `u`, unless it is in the tree. */
  function Attach(t: Growth, u: nat, v: nat): Growth {
    if u !in t.nodes || v in t.nodes then t else Growth(t.edges + [(u, v)], t.nodes[v := t.nodes[u] + 1])
  }

  lemma NewLeaf(adj: Adjacency, src: nat, hopLimit: int, t: Growth, u: nat, v: nat)
    requires TreeOk(adj, src, hopLimit, t.edges, t.nodes) && u in t.nodes && v !in t.nodes
    requires v in Neighbours(adj, u) && t.nodes[u] + 1 <= hopLimit
    ensures var r := Attach(t, u, v); TreeOk(adj, src, hopLimit, r.edges, r.nodes)
  {
    var r := Attach(t, u, v);
    forall e | e in t.edges ensures e.1 != v && e.0 != v {
    }
    forall w | w in r.nodes && w != src ensures Entered(r.edges, w) {
      if w == v {
        assert (u, v) in r.edges;
      } else {
        assert Entered(t.edges, w);
        var p :| (p, w) in t.edges;
        assert (p, w) in r.edges;
      }
    }
  }

  /** The next node is in the tree already, at the right depth. */
  lemma AttachOld(s: Search, src: nat, t: Growth, path: seq<Visit>, i: nat)
    requires PathOk(s, path) && i + 1 < |path| && Attached(s, src, t.edges, t.nodes, path, i)
    requires path[i + 1].0 in t.nodes
    ensures Attached(s, src, t.edges, t.nodes, path, i + 1)
  {
    VisitFacts(s, path, i + 1);
  }

  lemma EntriesGrow(s: Search, t: Growth, path: seq<Visit>, i: nat)
    requires i + 1 < |path| && Entries(s, t.nodes, path, i)
    requires path[i + 1].0 !in t.nodes && path[i + 1].1 == path[i].1 + 1
    ensures Entries(s, Attach(t, path[i].0, path[i + 1].0).nodes, path, i + 1)
  {
    var r := Attach(t, path[i].0, path[i + 1].0);
    forall w | w in r.nodes && w !in s.tree ensures exists j :: 0 <= j <= i + 1 && path[j].0 == w {
      assert path[i + 1].0 == path[i + 1].0;
    }
  }

  lemma StepFits(s: Search, path: seq<Visit>, i: nat)
    requires PathOk(s, path) && i + 1 < |path| && path[i + 1].0 !in s.tree
    ensures path[i + 1].0 in Neighbours(s.adj, path[i].0)
    ensures path[i + 1].1 == path[i].1 + 1 <= s.hopLimit
  {
    VisitFacts(s, path, i + 1);
  }

  lemma AttachNew(s: Search, src: nat, t: Growth, path: seq<Visit>, i: nat)
    requires PathOk(s, path) && i + 1 < |path| && Attached(s, src, t.edges, t.nodes, path, i)
    requires path[i + 1].0 !in t.nodes
    ensures var r := Attach(t, path[i].0, path[i + 1].0); Attached(s, src, r.edges, r.nodes, path, i + 1)
  {
    StepFits(s, path, i);
    NewLeaf(s.adj, src, s.hopLimit, t, path[i].0, path[i + 1].0);
    EntriesGrow(s, t, path, i);
  }

  lemma AttachedStart(s: Search, src: nat, edges: seq<Edge>, path: seq<Visit>)
    requires PathOk(s, path) && TreeOk(s.adj, src, s.hopLimit, edges, s.tree)
    ensures Attached(s, src, edges, s.tree, path, 0)
  {
    VisitFacts(s, path, 0);
  }

  /** Enters the nodes of a path after its `i`-th one. */
  function AttachFrom(t: Growth, path: seq<nat>, i: nat): Growth
    decreases |path| - i
  {
    if i + 1 >= |path| then t else AttachFrom(Attach(t, path[i], path[i + 1]), path, i + 1)
  }

  lemma AttachKeeps(s: Search, src: nat, t: Growth, path: seq<Visit>, i: nat)
    requires PathOk(s, path) && i + 1 < |path| && Attached(s, src, t.edges, t.nodes, path, i)
    ensures var r := Attach(t, path[i].0, path[i + 1].0); Attached(s, src, r.edges, r.nodes, path, i + 1)
  {
    if path[i + 1].0 in t.nodes {
      AttachOld(s, src, t, path, i);
      assert Attach(t, path[i].0, path[i + 1].0) == t;
    } else {
      AttachNew(s, src, t, path, i);
    }
  }

  lemma {:induction false} AttachFromKeeps(s: Search, src: nat, t: Growth, path: seq<Visit>, i: nat)
    requires PathOk(s, path) && i < |path| && Attached(s, src, t.edges, t.nodes, path, i)
    ensures var r := AttachFrom(t, NodesOf(path), i);
            Attached(s, src, r.edges, r.nodes, path, |path| - 1)
    decreases |path| - i
  {
    if i + 1 < |path| {
      AttachKeeps(s, src, t, path, i);
      AttachFromKeeps(s, src, Attach(t, path[i].0, path[i + 1].0), path, i + 1);
    }
  }

  lemma AttachedNodes(s: Search, src: nat, edges: seq<Edge>, nodes: map<nat, nat>, path: seq<Visit>)
    requires path != [] && Attached(s, src, edges, nodes, path, |path| - 1)
    ensures forall v :: v in nodes <==> v in s.tree || v in NodesOf(path)
  {
    forall v ensures v in nodes <==> v in s.tree || v in NodesOf(path) {
      if v in nodes && v !in s.tree {
        var j :| 0 <= j < |path| && path[j].0 == v;
        assert NodesOf(path)[j] == v;
      }
      if v in NodesOf(path) {
        var j :| 0 <= j < |path| && NodesOf(path)[j] == v;
        assert path[j].0 in nodes;
      }
    }
  }

  /** Adding a path that the search may return keeps the tree in order and adds exactly its nodes. */
  lemma PathAttached(s: Search, src: nat, edges: seq<Edge>, path: seq<Visit>)
    requires PathOk(s, path) && TreeOk(s.adj, src, s.hopLimit, edges, s.tree)
    ensures var t := AttachFrom(Growth(edges, s.tree), NodesOf(path), 0);
            && TreeOk(s.adj, src, s.hopLimit, t.edges, t.nodes)
            && (forall v :: v in s.tree ==> v in t.nodes && t.nodes[v] == s.tree[v])
            && (forall v :: v in t.nodes <==> v in s.tree || v in NodesOf(path))
  {
    var t := AttachFrom(Growth(edges, s.tree), NodesOf(path), 0);
    AttachedStart(s, src, edges, path);
    AttachFromKeeps(s, src, Growth(edges, s.tree), path, 0);
    AttachedNodes(s, src, t.edges, t.nodes, path);
  }

  /** The loop that adds the edges and nodes of a found path. */
  method AttachPath(t: Growth, path: seq<nat>) returns (r: Growth)
    requires path != [] && path[0] in t.nodes
    ensures r == AttachFrom(t, path, 0)
  {
    var edges, nodes := t.edges, t.nodes;
    var i := 0;
    while i < |path| - 1
      invariant 0 <= i < |path| && path[i] in nodes
      invariant AttachFrom(Growth(edges, nodes), path, i) == AttachFrom(t, path, 0)
    {
      var u, v := path[i], path[i + 1];
      if v !in nodes {
        nodes := nodes[v := nodes[u] + 1];
        edges := edges + [(u, v)];
      }
      i := i + 1;
    }
    r := Growth(edges, nodes);
  }

  // ---------- the order of the terminals ----------

  predicate HopLe(a: Option<nat>, b: Option<nat>) {
    b.None? || (a.Some? && a.value <= b.value)
  }

  function ByHops(hops: nat -> Option<nat>): (nat, nat) -> bool {
    (a: nat, b: nat) => HopLe(hops(a), hops(b))
  }

  function Others(terminals: seq<nat>, src: nat): seq<nat> {
    if terminals == [] then []
    else (if terminals[0] != src then [terminals[0]] else []) + Others(terminals[1..], src)
  }

  lemma {:induction false} OthersMembers(terminals: seq<nat>, src: nat)
    ensures forall t :: t in Others(terminals, src) <==> t in terminals && t != src
  {
    if terminals != [] {
      OthersMembers(terminals[1..], src);
    }
  }

  /** Repeats and the order are kept. */
  lemma {:induction false} OthersNext(terminals: seq<nat>, t: nat, src: nat)
    ensures Others([], src) == []
    ensures Others(terminals + [t], src) == Others(terminals, src) + if t == src then [] else [t]
  {
    var more := terminals + [t];
    if terminals == [] {
      assert more[1..] == [];
    } else {
      OthersNext(terminals[1..], t, src);
      var first, last := if terminals[0] == src then [] else [terminals[0]], if t == src then [] else [t];
      assert more[0] == terminals[0] && more[1..] == terminals[1..] + [t];
      assert Others(more, src) == first + (Others(terminals[1..], src) + last);
    }
  }

  /** Whatever number of hops reaches `b`, as few reach `a`. */
  ghost predicate Nearer(adj: Adjacency, src: nat, a: nat, b: nat) {
    forall k: nat :: InHops(adj, src, b, k) ==> exists j: nat :: j <= k && InHops(adj, src, a, j)
  }

  /** Those of `ts` that are as far from `src` as `x`, in order. */
  ghost function AsFar(adj: Adjacency, src: nat, x: nat, ts: seq<nat>): seq<nat> {
    if ts == [] then []
    else (if Nearer(adj, src, x, ts[0]) && Nearer(adj, src, ts[0], x) then [ts[0]] else [])
         + AsFar(adj, src, x, ts[1..])
  }

  /** The terminals other than the source, nearest first, equally near ones in their old order. */
  ghost predicate IsOrder(adj: Adjacency, src: nat, terminals: seq<nat>, ordered: seq<nat>) {
    && multiset(ordered) == multiset(Others(terminals, src))
    && (forall i, j :: 0 <= i < j < |ordered| ==> Nearer(adj, src, ordered[i], ordered[j]))
    && (forall x :: x in ordered ==> AsFar(adj, src, x, ordered) == AsFar(adj, src, x, Others(terminals, src)))
  }

  ghost predicate IsDistance(adj: Adjacency, src: nat, t: nat, hops: Option<nat>) {
    if hops.Some? then InHops(adj, src, t, hops.value) && NotBefore(adj, src, t, hops.value)
    else forall k: nat :: !InHops(adj, src, t, k)
  }

  lemma DistancesOrder(adj: Adjacency, src: nat, a: nat, b: nat, ha: Option<nat>, hb: Option<nat>)
    requires IsDistance(adj, src, a, ha) && IsDistance(adj, src, b, hb) && HopLe(ha, hb)
    ensures Nearer(adj, src, a, b)
  {
    forall k: nat | InHops(adj, src, b, k) ensures exists j: nat :: j <= k && InHops(adj, src, a, j) {
      assert hb.Some? && hb.value <= k;
      assert ha.value <= k && InHops(adj, src, a, ha.value);
    }
  }

  lemma DistancesEqual(adj: Adjacency, src: nat, a: nat, b: nat, ha: Option<nat>, hb: Option<nat>)
    requires IsDistance(adj, src, a, ha) && IsDistance(adj, src, b, hb)
    ensures Nearer(adj, src, a, b) <==> HopLe(ha, hb)
  {
    if HopLe(ha, hb) {
      DistancesOrder(adj, src, a, b, ha, hb);
    } else {
      assert InHops(adj, src, b, hb.value);
      forall j: nat | InHops(adj, src, a, j) ensures j > hb.value {
        assert ha.Some? && ha.value <= j;
      }
    }
  }

  /** Equal distances are ties of the sort. */
  lemma {:induction false} AsFarIsTies(adj: Adjacency, src: nat, hopsOf: nat -> Option<nat>, x: nat, ts: seq<nat>)
    requires IsDistance(adj, src, x, hopsOf(x)) && forall t :: t in ts ==> IsDistance(adj, src, t, hopsOf(t))
    ensures AsFar(adj, src, x, ts) == Ties(ByHops(hopsOf), x, ts)
  {
    if ts != [] {
      DistancesEqual(adj, src, x, ts[0], hopsOf(x), hopsOf(ts[0]));
      DistancesEqual(adj, src, ts[0], x, hopsOf(ts[0]), hopsOf(x));
      AsFarIsTies(adj, src, hopsOf, x, ts[1..]);
    }
  }

  method OrderTerminals(adj: Adjacency, src: nat, terminals: seq<nat>) returns (ordered: seq<nat>)
    ensures IsOrder(adj, src, terminals, ordered)
  {
    var others := Others(terminals, src);
    var estimates: map<nat, Option<nat>> := map[];
    for i := 0 to |others|
      invariant forall j :: 0 <= j < i ==> others[j] in estimates
      invariant forall t :: t in estimates ==> IsDistance(adj, src, t, estimates[t])
    {
      var hops := EstimateHops(adj, src, others[i]);
      estimates := estimates[others[i] := hops];
    }
    var hopsOf := (t: nat) => if t in estimates then estimates[t] else None;
    ordered := Sort(ByHops(hopsOf), others);
    SortedTerminals(adj, src, others, hopsOf, ordered);
  }

  lemma SameTies(adj: Adjacency, src: nat, others: seq<nat>, hopsOf: nat -> Option<nat>, ordered: seq<nat>, x: nat)
    requires forall t :: t in others ==> IsDistance(adj, src, t, hopsOf(t))
    requires ordered == Sort(ByHops(hopsOf), others) && multiset(ordered) == multiset(others) && x in ordered
    ensures x in others && AsFar(adj, src, x, ordered) == AsFar(adj, src, x, others)
  {
    forall t | t in ordered ensures t in others {
      assert t in multiset(ordered);
    }
    AsFarIsTies(adj, src, hopsOf, x, ordered);
    AsFarIsTies(adj, src, hopsOf, x, others);
    SortStable(ByHops(hopsOf), x, others);
  }

  lemma SortedTerminals(adj: Adjacency, src: nat, others: seq<nat>, hopsOf: nat -> Option<nat>, ordered: seq<nat>)
    requires forall t :: t in others ==> IsDistance(adj, src, t, hopsOf(t))
    requires ordered == Sort(ByHops(hopsOf), others)
    ensures multiset(ordered) == multiset(others)
    ensures forall i, j :: 0 <= i < j < |ordered| ==> Nearer(adj, src, ordered[i], ordered[j])
    ensures forall x :: x in ordered ==> AsFar(adj, src, x, ordered) == AsFar(adj, src, x, others)
  {
    SortSorts(ByHops(hopsOf), others);
    forall x | x in ordered ensures x in others && AsFar(adj, src, x, ordered) == AsFar(adj, src, x, others) {
      SameTies(adj, src, others, hopsOf, ordered, x);
    }
    forall i, j | 0 <= i < j < |ordered| ensures Nearer(adj, src, ordered[i], ordered[j]) {
      assert ByHops(hopsOf)(ordered[i], ordered[j]);
      assert ordered[i] in multiset(ordered) && ordered[j] in multiset(ordered);
      DistancesOrder(adj, src, ordered[i], ordered[j], hopsOf(ordered[i]), hopsOf(ordered[j]));
    }
  }

  // ---------- the builder ----------

  /** A path that the search may return: it connects the terminal and, if no weight is negative,
      costs no more than any connection. */
  ghost predicate FoundPath(s: Search, path: seq<nat>) {
    && (exists visits: seq<Visit> ::
          PathOk(s, visits) && visits[|visits| - 1].0 == s.terminal && path == NodesOf(visits))
    && (NonNegative(s.weights) ==> forall q :: Graft(s, q) ==> Le(CostOf(s.weights, path), CostOf(s.weights, q)))
  }

  /** One terminal: nothing if the tree has it, else one found path is attached. */
  ghost predicate GrowStep(adj: Adjacency, weights: Weights, hopLimit: int, before: Growth, terminal: nat,
                           after: Growth)
  {
    if terminal in before.nodes then after == before
    else exists path ::
      && FoundPath(Search(adj, weights, before.nodes, terminal, hopLimit), path)
      && after == AttachFrom(before, path, 0)
  }

  /** The tree after all of `ordered`, built terminal by terminal from the source alone. */
  ghost predicate Grows(adj: Adjacency, weights: Weights, src: nat, hopLimit: int, ordered: seq<nat>, after: Growth) {
    if ordered == [] then after == Growth([], map[src := 0])
    else exists before {:trigger GrowStep(adj, weights, hopLimit, before, ordered[|ordered| - 1], after)} ::
      && Grows(adj, weights, src, hopLimit, ordered[..|ordered| - 1], before)
      && GrowStep(adj, weights, hopLimit, before, ordered[|ordered| - 1], after)
  }

  datatype TreeResult = Built(edges: seq<Edge>, nodes: map<nat, nat>) | Unreachable(terminal: nat)

  /** What the builder may answer.  It grows the tree along the ordered terminals; it gives up at
      the first terminal that nothing connects to the tree built so far, and only there. */
  ghost predicate IsOutcome(adj: Adjacency, weights: Weights, src: nat, terminals: seq<nat>, hopLimit: int,
                            r: TreeResult, ordered: seq<nat>, tree: Growth)
  {
    && IsOrder(adj, src, terminals, ordered)
    && match r
       case Built(edges, nodes) => tree == Growth(edges, nodes) && Grows(adj, weights, src, hopLimit, ordered, tree)
       case Unreachable(terminal) =>
         exists k ::
           && 0 <= k < |ordered| && ordered[k] == terminal && terminal !in tree.nodes
           && Grows(adj, weights, src, hopLimit, ordered[..k], tree)
           && forall q :: !Graft(Search(adj, weights, tree.nodes, terminal, hopLimit), q)
  }

  lemma StartOk(adj: Adjacency, src: nat, hopLimit: int)
    ensures TreeOk(adj, src, hopLimit, [], map[src := 0])
  {
  }

  lemma FoundStarts(s: Search, path: seq<nat>)
    requires FoundPath(s, path)
    ensures path != [] && path[0] in s.tree && path[|path| - 1] == s.terminal
  {
    var visits: seq<Visit> :| PathOk(s, visits) && visits[|visits| - 1].0 == s.terminal && path == NodesOf(visits);
    VisitFacts(s, visits, 0);
  }

  lemma GrowStepOk(adj: Adjacency, weights: Weights, src: nat, hopLimit: int, before: Growth, terminal: nat,
                   after: Growth)
    requires TreeOk(adj, src, hopLimit, before.edges, before.nodes)
    requires GrowStep(adj, weights, hopLimit, before, terminal, after)
    ensures TreeOk(adj, src, hopLimit, after.edges, after.nodes) && terminal in after.nodes
    ensures forall v :: v in before.nodes ==> v in after.nodes
  {
    if terminal !in before.nodes {
      var s := Search(adj, weights, before.nodes, terminal, hopLimit);
      var path :| FoundPath(s, path) && after == AttachFrom(before, path, 0);
      var visits: seq<Visit> :| PathOk(s, visits) && visits[|visits| - 1].0 == s.terminal && path == NodesOf(visits);
      PathAttached(s, src, before.edges, visits);
      assert NodesOf(visits)[|visits| - 1] == terminal;
    }
  }

  /** A grown tree is a tree of graph edges within the hop limit and has every terminal so far. */
  lemma {:induction false} GrowsOk(adj: Adjacency, weights: Weights, src: nat, hopLimit: int, ordered: seq<nat>,
                                   after: Growth)
    requires Grows(adj, weights, src, hopLimit, ordered, after)
    ensures TreeOk(adj, src, hopLimit, after.edges, after.nodes)
    ensures forall t :: t in ordered ==> t in after.nodes
    decreases |ordered|
  {
    if ordered == [] {
      StartOk(adj, src, hopLimit);
    } else {
      var init, last := ordered[..|ordered| - 1], ordered[|ordered| - 1];
      var before :| Grows(adj, weights, src, hopLimit, init, before)
        && GrowStep(adj, weights, hopLimit, before, last, after);
      GrowsOk(adj, weights, src, hopLimit, init, before);
      GrowStepOk(adj, weights, src, hopLimit, before, last, after);
      assert ordered == init + [last];
    }
  }

  lemma GrowsMore(adj: Adjacency, weights: Weights, src: nat, hopLimit: int, ordered: seq<nat>, k: nat,
                  before: Growth, after: Growth)
    requires k < |ordered| && Grows(adj, weights, src, hopLimit, ordered[..k], before)
    requires GrowStep(adj, weights, hopLimit, before, ordered[k], after)
    ensures Grows(adj, weights, src, hopLimit, ordered[..k + 1], after)
  {
    assert ordered[..k + 1][..k] == ordered[..k] && ordered[..k + 1][k] == ordered[k];
  }

  /** One terminal of the builder's loop. */
  method GrowTerminal(adj: Adjacency, weights: Weights, hopLimit: int, t: Growth, terminal: nat)
    returns (r: Option<Growth>)
    requires terminal !in t.nodes
    ensures r.Some? ==> GrowStep(adj, weights, hopLimit, t, terminal, r.value)
    ensures r.None? ==> forall q :: !Graft(Search(adj, weights, t.nodes, terminal, hopLimit), q)
  {
    var s := Search(adj, weights, t.nodes, terminal, hopLimit);
    var found, visits := LayeredDijkstra.DijkstraToTerminal(s);
    if found.None? {
      return None;
    }
    assert FoundPath(s, found.value.0);
    FoundStarts(s, found.value.0);
    var next := AttachPath(t, found.value.0);
    r := Some(next);
  }

  /** Builds the tree terminal by terminal. */
  method BuildCfTree(adj: Adjacency, weights: Weights, src: nat, terminals: seq<nat>, hopLimit: int)
    returns (r: TreeResult, ghost ordered: seq<nat>, ghost tree: Growth)
    ensures IsOutcome(adj, weights, src, terminals, hopLimit, r, ordered, tree)
    ensures TreeOk(adj, src, hopLimit, tree.edges, tree.nodes)
    ensures r.Built? ==> forall t :: t in terminals ==> t in r.nodes
  {
    var order := OrderTerminals(adj, src, terminals);
    ordered := order;
    var t := Growth([], map[src := 0]);
    assert order[..0] == [];
    for i := 0 to |order|
      invariant Grows(adj, weights, src, hopLimit, order[..i], t)
    {
      ghost var before := t;
      if order[i] !in t.nodes {
        var next := GrowTerminal(adj, weights, hopLimit, t, order[i]);
        if next.None? {
          GrowsOk(adj, weights, src, hopLimit, order[..i], t);
          return Unreachable(order[i]), order, t;
        }
        t := next.value;
      }
      GrowsMore(adj, weights, src, hopLimit, order, i, before, t);
    }
    assert order[..|order|] == order;
    AllTerminals(adj, weights, src, terminals, hopLimit, order, t);
    r, tree := Built(t.edges, t.nodes), t;
  }

  lemma AllTerminals(adj: Adjacency, weights: Weights, src: nat, terminals: seq<nat>, hopLimit: int,
                     ordered: seq<nat>, t: Growth)
    requires IsOrder(adj, src, terminals, ordered) && Grows(adj, weights, src, hopLimit, ordered, t)
    ensures TreeOk(adj, src, hopLimit, t.edges, t.nodes)
    ensures forall v :: v in terminals ==> v in t.nodes
  {
    GrowsOk(adj, weights, src, hopLimit, ordered, t);
    OthersMembers(terminals, src);
    forall v | v in terminals ensures v in t.nodes {
      if v != src {
        assert v in multiset(Others(terminals, src));
        assert v in multiset(ordered);
      }
    }
  }
}
