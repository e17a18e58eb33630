/** Trees as edge lists, directed away from their root: what the tree builders produce
    (examples/lp) and what multicast forwarding needs. */
module Arborescences {
  type Edge = (nat, nat)

  /** Every edge leads one level down, and no node is entered twice. */
  ghost predicate Branching(edges: seq<Edge>, root: nat, depth: map<nat, nat>) {
    && root in depth && depth[root] == 0
    && (forall e :: e in edges ==> e.0 in depth && e.1 in depth && depth[e.1] == depth[e.0] + 1)
    && (forall i, j :: 0 <= i < j < |edges| ==> edges[i].1 != edges[j].1)
  }

  ghost predicate Entered(edges: seq<Edge>, v: nat) {
    exists u :: (u, v) in edges
  }

  /** The edges form a tree directed away from `root`: `depth` gives the level of every node.  The
      trigger keeps the solver from walking up the tree unasked. */
  ghost predicate IsArborescence(edges: seq<Edge>, root: nat, depth: map<nat, nat>) {
    && Branching(edges, root, depth)
    && (forall v {:trigger Entered(edges, v)} :: v in depth && v != root ==> Entered(edges, v))
  }

  ghost predicate Distinct(nodes: seq<nat>) {
    forall i, j :: 0 <= i < j < |nodes| ==> nodes[i] != nodes[j]
  }

  /** `m` lies in the subtree of `n`. */
  ghost predicate InSub(edges: seq<Edge>, depth: map<nat, nat>, n: nat, m: nat)
    decreases if m in depth then depth[m] else 0
  {
    && n in depth && m in depth
    && (m == n || exists p: nat :: (p, m) in edges && p in depth && depth[p] < depth[m] && InSub(edges, depth, n, p))
  }

  lemma ParentUnique(edges: seq<Edge>, p: nat, q: nat, m: nat)
    requires forall i, j :: 0 <= i < j < |edges| ==> edges[i].1 != edges[j].1
    requires (p, m) in edges && (q, m) in edges
    ensures p == q
  {
  }

  lemma {:induction false} SubDeeper(edges: seq<Edge>, root: nat, depth: map<nat, nat>, n: nat, m: nat)
    requires Branching(edges, root, depth) && InSub(edges, depth, n, m)
    ensures depth[n] <= depth[m] && (m != n ==> depth[n] < depth[m])
    decreases depth[m]
  {
    if m != n {
      var p: nat :| (p, m) in edges && p in depth && depth[p] < depth[m] && InSub(edges, depth, n, p);
      SubDeeper(edges, root, depth, n, p);
    }
  }

  /** Subtrees of two nodes on one level do not meet. */
  lemma {:induction false} SubDisjoint(edges: seq<Edge>, root: nat, depth: map<nat, nat>, a: nat, b: nat, m: nat)
    requires Branching(edges, root, depth)
    requires InSub(edges, depth, a, m) && InSub(edges, depth, b, m) && depth[a] == depth[b]
    ensures a == b
    decreases depth[m]
  {
    SubDeeper(edges, root, depth, a, m);
    SubDeeper(edges, root, depth, b, m);
    if m != a {
      var p: nat :| (p, m) in edges && p in depth && depth[p] < depth[m] && InSub(edges, depth, a, p);
      var q: nat :| (q, m) in edges && q in depth && depth[q] < depth[m] && InSub(edges, depth, b, q);
      ParentUnique(edges, p, q, m);
      SubDisjoint(edges, root, depth, a, b, p);
    }
  }

  lemma SubExtend(edges: seq<Edge>, root: nat, depth: map<nat, nat>, n: nat, p: nat, m: nat)
    requires Branching(edges, root, depth) && InSub(edges, depth, n, p) && (p, m) in edges
    ensures InSub(edges, depth, n, m)
  {
  }

  /** A node below `n` lies below one of its children. */
  lemma {:induction false} SubViaChild(edges: seq<Edge>, root: nat, depth: map<nat, nat>, n: nat, m: nat)
    returns (c: nat)
    requires Branching(edges, root, depth) && InSub(edges, depth, n, m) && m != n
    ensures (n, c) in edges && InSub(edges, depth, c, m)
    decreases depth[m]
  {
    var p: nat :| (p, m) in edges && p in depth && depth[p] < depth[m] && InSub(edges, depth, n, p);
    if p == n {
      c := m;
    } else {
      c := SubViaChild(edges, root, depth, n, p);
      SubExtend(edges, root, depth, c, p, m);
    }
  }

  lemma {:induction false} ChildSub(edges: seq<Edge>, root: nat, depth: map<nat, nat>, n: nat, c: nat, m: nat)
    requires Branching(edges, root, depth) && (n, c) in edges && InSub(edges, depth, c, m)
    ensures InSub(edges, depth, n, m) && m != n
    decreases depth[m]
  {
    SubDeeper(edges, root, depth, c, m);
    if m == c {
      assert InSub(edges, depth, n, n);
      SubExtend(edges, root, depth, n, n, c);
    } else {
      var p: nat :| (p, m) in edges && p in depth && depth[p] < depth[m] && InSub(edges, depth, c, p);
      ChildSub(edges, root, depth, n, c, p);
      SubExtend(edges, root, depth, n, p, m);
    }
  }

  lemma {:induction false} SubOfRoot(edges: seq<Edge>, root: nat, depth: map<nat, nat>, m: nat)
    requires IsArborescence(edges, root, depth) && m in depth
    ensures InSub(edges, depth, root, m)
    decreases depth[m]
  {
    if m != root {
      assert Entered(edges, m);
      var p :| (p, m) in edges;
      SubOfRoot(edges, root, depth, p);
      SubExtend(edges, root, depth, root, p, m);
    }
  }
}
