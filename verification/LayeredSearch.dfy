/** The hop-limited search from a tree to a terminal (examples/lp/cf_tree.py, `LayeredGraph`).
    Costs are exact numbers or infinite. */
module LayeredSearch {
  import opened Arborescences
  import opened PathFinder

  // ---------- costs ----------

  datatype Cost = Finite(value: real) | Infinite

  const ZERO := Finite(0.0)

  function Plus(a: Cost, b: Cost): Cost {
    if a.Finite? && b.Finite? then Finite(a.value + b.value) else Infinite
  }

  predicate Le(a: Cost, b: Cost) {
    b.Infinite? || (a.Finite? && a.value <= b.value)
  }

  type Weights = map<Edge, Cost>

  function Weight(weights: Weights, u: nat, v: nat): Cost {
    if (u, v) in weights then weights[(u, v)] else Infinite
  }

  /** The weight builders only produce such weights. */
  ghost predicate NonNegative(weights: Weights) {
    forall u, v :: Le(ZERO, Weight(weights, u, v))
  }

  ghost function CostOf(weights: Weights, q: seq<nat>): Cost {
    if |q| < 2 then ZERO
    else Plus(CostOf(weights, q[..|q| - 1]), Weight(weights, q[|q| - 2], q[|q| - 1]))
  }

  lemma CostPush(weights: Weights, q: seq<nat>, v: nat)
    requires q != []
    ensures CostOf(weights, q + [v]) == Plus(CostOf(weights, q), Weight(weights, q[|q| - 1], v))
  {
    assert (q + [v])[..|q|] == q;
  }

  /** The cost of a path is the sum of its weights; an edge without a weight makes it infinite. */
  lemma CostIsSum(weights: Weights, q: seq<nat>, v: nat)
    requires q != []
    ensures CostOf(weights, [v]) == Finite(0.0)
    ensures var cost, e := CostOf(weights, q), (q[|q| - 1], v);
            CostOf(weights, q + [v])
            == if cost.Finite? && e in weights && weights[e].Finite? then Finite(cost.value + weights[e].value)
               else Infinite
  {
    CostPush(weights, q, v);
  }

  lemma {:induction false} PrefixCheaper(weights: Weights, q: seq<nat>, i: nat)
    requires NonNegative(weights) && i <= |q|
    ensures Le(CostOf(weights, q[..i]), CostOf(weights, q))
    decreases |q|
  {
    if i == |q| {
      assert q[..i] == q;
    } else {
      PrefixCheaper(weights, q[..|q| - 1], i);
      assert q[..|q| - 1][..i] == q[..i];
      if |q| >= 2 {
        assert Le(ZERO, Weight(weights, q[|q| - 2], q[|q| - 1]));
      }
    }
  }

  // ---------- the search problem ----------

  datatype Search = Search(adj: Adjacency, weights: Weights, tree: map<nat, nat>, terminal: nat, hopLimit: int)

  function Neighbours(adj: Adjacency, n: nat): seq<nat> {
    if n in adj then adj[n] else []
  }

  /** Runs from a tree node through new nodes. */
  ghost predicate Tail(s: Search, q: seq<nat>) {
    && q != [] && q[0] in s.tree
    && (forall i, j :: 0 <= i < |q| && 0 <= j < |q| && j == i + 1 ==>
          q[j] in Neighbours(s.adj, q[i]) && q[j] !in s.tree)
  }

  /** Does so within the hop limit. */
  ghost predicate Branch(s: Search, q: seq<nat>) {
    Tail(s, q) && (|q| > 1 ==> s.tree[q[0]] + |q| - 1 <= s.hopLimit)
  }

  /** The node at `j` is new and in the adjacency list of the one before it. */
  ghost predicate StepsTo(s: Search, q: seq<nat>, j: nat)
    requires 1 <= j < |q|
  {
    q[j - 1] in s.adj && q[j] in s.adj[q[j - 1]] && q[j] !in s.tree
  }

  lemma TailExact(s: Search, q: seq<nat>)
    ensures Tail(s, q) <==> q != [] && q[0] in s.tree && forall j :: 1 <= j < |q| ==> StepsTo(s, q, j)
  {
    if Tail(s, q) {
      forall j | 1 <= j < |q| ensures StepsTo(s, q, j) {
        assert q[j] in Neighbours(s.adj, q[j - 1]);
      }
    } else if q != [] && q[0] in s.tree {
      var i, j :| 0 <= i < |q| && 0 <= j < |q| && j == i + 1 && !(q[j] in Neighbours(s.adj, q[i]) && q[j] !in s.tree);
      assert !StepsTo(s, q, j);
    }
  }

  lemma TailPush(s: Search, q: seq<nat>, v: nat)
    requires Tail(s, q) && v in Neighbours(s.adj, q[|q| - 1]) && v !in s.tree
    ensures Tail(s, q + [v])
  {
    var q' := q + [v];
    forall i, j | 0 <= i < |q'| && 0 <= j < |q'| && j == i + 1
      ensures q'[j] in Neighbours(s.adj, q'[i]) && q'[j] !in s.tree
    {
      if j < |q| {
        assert q'[i] == q[i] && q'[j] == q[j];
      } else {
        assert q'[i] == q[|q| - 1] && q'[j] == v;
      }
    }
  }

  lemma BranchPush(s: Search, q: seq<nat>, v: nat)
    requires Branch(s, q) && v in Neighbours(s.adj, q[|q| - 1]) && v !in s.tree
    requires s.tree[q[0]] + |q| <= s.hopLimit
    ensures Branch(s, q + [v])
  {
    TailPush(s, q, v);
  }

  /** A way to connect the terminal. */
  ghost predicate Graft(s: Search, q: seq<nat>) {
    Branch(s, q) && q[|q| - 1] == s.terminal
  }

  /** A node together with the layer it is reached in. */
  type Visit = (nat, nat)

  function NodesOf(path: seq<Visit>): (nodes: seq<nat>)
    ensures |nodes| == |path| && forall i :: 0 <= i < |path| ==> nodes[i] == path[i].0
  {
    seq(|path|, i requires 0 <= i < |path| => path[i].0)
  }

  lemma NodesPush(path: seq<Visit>, v: Visit)
    ensures NodesOf(path + [v]) == NodesOf(path) + [v.0]
  {
  }

  ghost predicate Step(s: Search, u: Visit, v: Visit) {
    v.1 == u.1 + 1 && u.1 < s.hopLimit && v.0 in Neighbours(s.adj, u.0)
  }

  /** Starts in the tree, visits no node twice and meets tree nodes only at their depth. */
  ghost predicate PathOk(s: Search, path: seq<Visit>) {
    path != [] &&
    var v := path[|path| - 1];
    && (v.0 in s.tree ==> s.tree[v.0] == v.1)
    && if |path| == 1 then v.0 in s.tree
       else
         var rest := path[..|path| - 1];
         PathOk(s, rest) && Step(s, rest[|rest| - 1], v) && v.0 !in NodesOf(rest)
  }

  datatype Entry = Entry(cost: Cost, layer: nat, node: nat, path: seq<Visit>)

  ghost predicate EntryOk(s: Search, e: Entry) {
    PathOk(s, e.path) && e.path[|e.path| - 1] == (e.node, e.layer) && e.cost == CostOf(s.weights, NodesOf(e.path))
  }

  // ---------- the heap ----------

  predicate PathBefore(p: seq<Visit>, q: seq<Visit>) {
    q != [] && (p == [] || p[0].0 < q[0].0 || (p[0].0 == q[0].0
      && (p[0].1 < q[0].1 || (p[0].1 == q[0].1 && PathBefore(p[1..], q[1..])))))
  }

  /** Tuples compare by cost, layer, node and path. */
  predicate Before(a: Entry, b: Entry) {
    !Le(b.cost, a.cost) || (a.cost == b.cost
      && (a.layer < b.layer || (a.layer == b.layer
      && (a.node < b.node || (a.node == b.node && PathBefore(a.path, b.path))))))
  }

  lemma {:induction false} PathBeforeTransitive(p: seq<Visit>, q: seq<Visit>, r: seq<Visit>)
    requires PathBefore(p, q) && PathBefore(q, r)
    ensures PathBefore(p, r)
  {
    if p != [] && p[0] == q[0] && q[0] == r[0] {
      PathBeforeTransitive(p[1..], q[1..], r[1..]);
    }
  }

  lemma BeforeTransitive(a: Entry, b: Entry, c: Entry)
    requires Before(a, b) && Before(b, c)
    ensures Before(a, c)
  {
    if a.cost == b.cost == c.cost && a.layer == b.layer == c.layer && a.node == b.node == c.node {
      PathBeforeTransitive(a.path, b.path, c.path);
    }
  }

  /** `p` and `q` agree on their first `k` visits; there `p` ends or has the smaller visit. */
  ghost predicate DiffersAt(p: seq<Visit>, q: seq<Visit>, k: nat) {
    && k <= |p| && k < |q| && p[..k] == q[..k]
    && (k == |p| || p[k].0 < q[k].0 || (p[k].0 == q[k].0 && p[k].1 < q[k].1))
  }

  /** Paths compare visit by visit, a proper prefix first. */
  lemma {:induction false} PathBeforeExact(p: seq<Visit>, q: seq<Visit>)
    ensures PathBefore(p, q) <==> exists k: nat :: DiffersAt(p, q, k)
  {
    if PathBefore(p, q) {
      if p == [] || p[0] != q[0] {
        assert DiffersAt(p, q, 0);
      } else {
        PathBeforeExact(p[1..], q[1..]);
        var k: nat :| DiffersAt(p[1..], q[1..], k);
        assert p[..k + 1] == [p[0]] + p[1..][..k] && q[..k + 1] == [q[0]] + q[1..][..k];
        assert DiffersAt(p, q, k + 1);
      }
    } else if k: nat :| DiffersAt(p, q, k) {
      DiffersBefore(p, q, k);
    }
  }

  lemma {:induction false} DiffersBefore(p: seq<Visit>, q: seq<Visit>, k: nat)
    requires DiffersAt(p, q, k)
    ensures PathBefore(p, q)
  {
    if k > 0 {
      assert p[0] == p[..k][0] && q[0] == q[..k][0];
      assert p[1..][..k - 1] == p[..k][1..] && q[1..][..k - 1] == q[..k][1..];
      DiffersBefore(p[1..], q[1..], k - 1);
    }
  }

  /** The tuple order: a smaller cost goes first whatever the rest, then the smaller layer, then the smaller
      node, and last the path; an infinite cost goes after every finite one. */
  lemma BeforeExact(a: Entry, b: Entry)
    ensures a.cost.Finite? && b.cost.Infinite? ==> Before(a, b) && !Before(b, a)
    ensures a.cost.Finite? && b.cost.Finite? && a.cost.value < b.cost.value ==> Before(a, b) && !Before(b, a)
    ensures a.cost == b.cost && a.layer < b.layer ==> Before(a, b) && !Before(b, a)
    ensures a.cost == b.cost && a.layer == b.layer && a.node < b.node ==> Before(a, b) && !Before(b, a)
    ensures a.cost == b.cost && a.layer == b.layer && a.node == b.node ==>
              (Before(a, b) <==> exists k: nat :: DiffersAt(a.path, b.path, k))
  {
    PathBeforeExact(a.path, b.path);
  }

  lemma PathNotBeforeItself(p: seq<Visit>)
    ensures !PathBefore(p, p)
  {
    if p != [] {
      PathNotBeforeItself(p[1..]);
    }
  }

  ghost predicate IsLeast(e: Entry, pq: seq<Entry>) {
    forall x :: x in pq ==> !Before(x, e)
  }

  /** `heappop`: removes a least entry. */
  method PopLeast(pq: seq<Entry>) returns (e: Entry, rest: seq<Entry>, ghost at: nat)
    requires pq != []
    ensures at < |pq| && e == pq[at] && rest == pq[..at] + pq[at + 1..] && IsLeast(e, pq)
  {
    var m := 0;
    PathNotBeforeItself(pq[0].path);
    for i := 1 to |pq|
      invariant 0 <= m < i
      invariant forall k :: 0 <= k < i ==> !Before(pq[k], pq[m])
    {
      if Before(pq[i], pq[m]) {
        forall k | 0 <= k <= i ensures !Before(pq[k], pq[i]) {
          if k == i {
            PathNotBeforeItself(pq[i].path);
          } else if Before(pq[k], pq[i]) {
            BeforeTransitive(pq[k], pq[i], pq[m]);
          }
        }
        m := i;
      } else {
        PathNotBeforeItself(pq[i].path);
      }
    }
    e, rest, at := pq[m], pq[..m] + pq[m + 1..], m;
  }

  // ---------- termination ----------

  ghost function Times(n: nat, k: nat): nat {
    if n == 0 then 0 else Times(n - 1, k) + k
  }

  lemma {:induction false} TimesMonotone(n: nat, m: nat, k: nat)
    requires n <= m
    ensures Times(n, k) <= Times(m, k)
  {
    if n < m {
      TimesMonotone(n, m - 1, k);
    }
  }

  /** How many pops an entry of layer `l` can cause when every node has at most `d` neighbours. */
  ghost function Room(h: int, d: nat, l: nat): nat
    decreases if l < h then h - l else 0
  {
    if l >= h then 1 else 1 + Times(d, Room(h, d, l + 1))
  }

  ghost function Potential(h: int, d: nat, pq: seq<Entry>): nat {
    if pq == [] then 0 else Potential(h, d, pq[..|pq| - 1]) + Room(h, d, pq[|pq| - 1].layer)
  }

  lemma PotentialPush(h: int, d: nat, pq: seq<Entry>, e: Entry)
    ensures Potential(h, d, pq + [e]) == Potential(h, d, pq) + Room(h, d, e.layer)
  {
    assert (pq + [e])[..|pq|] == pq;
  }

  lemma {:induction false} PotentialPop(h: int, d: nat, pq: seq<Entry>, at: nat)
    requires at < |pq|
    ensures Potential(h, d, pq[..at] + pq[at + 1..]) == Potential(h, d, pq) - Room(h, d, pq[at].layer)
  {
    var n := |pq| - 1;
    if at < n {
      PotentialPop(h, d, pq[..n], at);
      assert pq[..n][..at] + pq[..n][at + 1..] == pq[..at] + pq[at + 1..n];
      PotentialPush(h, d, pq[..at] + pq[at + 1..n], pq[n]);
      assert pq[..at] + pq[at + 1..n] + [pq[n]] == pq[..at] + pq[at + 1..];
    } else {
      assert pq[..at] + pq[at + 1..] == pq[..n];
    }
  }

  lemma DegreeBound(adj: Adjacency) returns (d: nat)
    ensures forall n: nat :: |Neighbours(adj, n)| <= d
  {
    d := 0;
    var rest := adj.Keys;
    while rest != {}
      invariant rest <= adj.Keys
      invariant forall n: nat :: n !in rest ==> |Neighbours(adj, n)| <= d
      decreases rest
    {
      var n :| n in rest;
      if |adj[n]| > d {
        d := |adj[n]|;
      }
      rest := rest - {n};
    }
  }

  /** Replacing an entry by at most `d` entries of the next layer loses potential. */
  lemma RoomForNeighbours(h: int, d: nat, l: nat, n: nat)
    requires l < h && n <= d
    ensures Times(n, Room(h, d, l + 1)) < Room(h, d, l)
  {
    TimesMonotone(n, d, Room(h, d, l + 1));
  }
}
