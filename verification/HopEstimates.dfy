/** Breadth-first hop distances, by which the tree builder orders its terminals
    (examples/lp/cf_tree.py, `_estimate_hops`). */
module HopEstimates {
  import opened Wrappers
  import opened PathFinder
  import opened LayeredSearch

  /** `v` is the end of a walk of `k` edges from `src`. */
  ghost predicate InHops(adj: Adjacency, src: nat, v: nat, k: nat)
    decreases k
  {
    if k == 0 then v == src else exists u: nat :: InHops(adj, src, u, k - 1) && v in Neighbours(adj, u)
  }

  /** No walk reaches `v` in fewer than `k` edges. */
  ghost predicate NotBefore(adj: Adjacency, src: nat, v: nat, k: nat) {
    forall j: nat :: j < k ==> !InHops(adj, src, v, j)
  }

  function AllNodes(adj: Adjacency, src: nat): set<nat> {
    {src} + set n, m | n in adj && m in adj[n] :: m
  }

  /** Everything within `level` hops was visited, and visited nodes outside the queue have all
      neighbours visited. */
  ghost predicate Swept(adj: Adjacency, src: nat, visited: set<nat>, level: nat) {
    forall v, k: nat :: k <= level && InHops(adj, src, v, k) ==> v in visited
  }

  ghost predicate Queued(queue: seq<(nat, nat)>, v: nat) {
    exists e :: e in queue && e.0 == v
  }

  ghost predicate Closed(adj: Adjacency, visited: set<nat>, queue: seq<(nat, nat)>) {
    forall v {:trigger Queued(queue, v)} ::
      v in visited && !Queued(queue, v) ==> forall m :: m in Neighbours(adj, v) ==> m in visited
  }

  ghost predicate QueueOk(adj: Adjacency, src: nat, visited: set<nat>, queue: seq<(nat, nat)>, level: nat) {
    && (forall i, j :: 0 <= i < j < |queue| ==> queue[i].1 <= queue[j].1)
    && (forall e :: e in queue ==> e.0 in visited && level <= e.1 <= level + 1)
    && (forall e :: e in queue ==> InHops(adj, src, e.0, e.1) && NotBefore(adj, src, e.0, e.1))
  }

  lemma NotQueued(adj: Adjacency, src: nat, visited: set<nat>, queue: seq<(nat, nat)>, level: nat, u: nat)
    requires QueueOk(adj, src, visited, queue, level) && InHops(adj, src, u, level)
    requires forall e :: e in queue ==> e.1 == level + 1
    ensures !Queued(queue, u)
  {
    forall e | e in queue ensures e.0 != u {
      assert NotBefore(adj, src, e.0, level + 1);
    }
  }

  /** Once only entries of the next level are left, that level is swept too. */
  lemma NextLevel(adj: Adjacency, src: nat, visited: set<nat>, queue: seq<(nat, nat)>, level: nat)
    requires Swept(adj, src, visited, level) && Closed(adj, visited, queue) && QueueOk(adj, src, visited, queue, level)
    requires forall e :: e in queue ==> e.1 == level + 1
    ensures Swept(adj, src, visited, level + 1)
  {
    forall v, k: nat | k <= level + 1 && InHops(adj, src, v, k) ensures v in visited {
      if k == level + 1 {
        var u: nat :| InHops(adj, src, u, level) && v in Neighbours(adj, u);
        NotQueued(adj, src, visited, queue, level, u);
      }
    }
  }

  lemma {:induction false} ClosedHoldsAll(adj: Adjacency, src: nat, visited: set<nat>, v: nat, k: nat)
    requires src in visited && Closed(adj, visited, []) && InHops(adj, src, v, k)
    ensures v in visited
    decreases k
  {
    if k > 0 {
      var u: nat :| InHops(adj, src, u, k - 1) && v in Neighbours(adj, u);
      ClosedHoldsAll(adj, src, visited, u, k - 1);
      assert !Queued([], u);
    }
  }

  /** New nodes are in the queue, old entries stay. */
  ghost predicate Grown(visited: set<nat>, queue: seq<(nat, nat)>, visited': set<nat>, queue': seq<(nat, nat)>) {
    && visited <= visited' && queue <= queue' && (visited' == visited ==> queue' == queue)
    && (forall v :: v in visited' && v !in visited ==> Queued(queue', v))
  }

  /** One neighbour. */
  method Enqueue(adj: Adjacency, src: nat, node: nat, hops: nat, m: nat, ghost before: set<nat>,
                 visited: set<nat>, queue: seq<(nat, nat)>)
    returns (visited': set<nat>, queue': seq<(nat, nat)>)
    requires InHops(adj, src, node, hops) && m in Neighbours(adj, node)
    requires before <= visited <= AllNodes(adj, src) && Swept(adj, src, before, hops)
    requires QueueOk(adj, src, visited, queue, hops)
    ensures visited' == visited + {m} && visited' <= AllNodes(adj, src)
    ensures QueueOk(adj, src, visited', queue', hops) && Grown(visited, queue, visited', queue')
  {
    if m in visited {
      return visited, queue;
    }
    FreshEntry(adj, src, visited, queue, node, hops, m, before);
    visited', queue' := visited + {m}, queue + [(m, hops + 1)];
    assert (m, hops + 1) in queue';
  }

  lemma GrownTwice(a: set<nat>, p: seq<(nat, nat)>, b: set<nat>, q: seq<(nat, nat)>, c: set<nat>, r: seq<(nat, nat)>)
    requires Grown(a, p, b, q) && Grown(b, q, c, r)
    ensures Grown(a, p, c, r)
  {
    forall v | v in c && v !in a ensures Queued(r, v) {
      if v in b {
        var e :| e in q && e.0 == v;
        assert e in r;
      }
    }
  }

  /** One visited node: discovers its new neighbours, unless the destination is among them. */
  method Discover(adj: Adjacency, src: nat, dst: nat, node: nat, hops: nat,
                  visited: set<nat>, queue: seq<(nat, nat)>)
    returns (found: bool, visited': set<nat>, queue': seq<(nat, nat)>)
    requires visited <= AllNodes(adj, src) && dst !in visited && node in visited && InHops(adj, src, node, hops)
    requires Swept(adj, src, visited, hops) && Closed(adj, visited, [(node, hops)] + queue)
    requires QueueOk(adj, src, visited, queue, hops)
    ensures found ==> dst in Neighbours(adj, node)
    ensures visited <= visited' <= AllNodes(adj, src)
    ensures !found ==>
              && dst !in visited' && Closed(adj, visited', queue') && QueueOk(adj, src, visited', queue', hops)
              && (visited' == visited ==> queue' == queue)
  {
    var ms := Neighbours(adj, node);
    found, visited', queue' := false, visited, queue;
    for i := 0 to |ms|
      invariant visited <= visited' <= AllNodes(adj, src) && dst !in visited'
      invariant forall j :: 0 <= j < i ==> ms[j] in visited'
      invariant Grown(visited, queue, visited', queue')
      invariant QueueOk(adj, src, visited', queue', hops)
    {
      if ms[i] == dst {
        found := true;
        return;
      }
      ghost var b, q := visited', queue';
      visited', queue' := Enqueue(adj, src, node, hops, ms[i], visited, visited', queue');
      GrownTwice(visited, queue, b, q, visited', queue');
    }
    ClosedAfter(adj, node, hops, visited, queue, visited', queue');
  }

  lemma ClosedAfter(adj: Adjacency, node: nat, hops: nat, visited: set<nat>, queue: seq<(nat, nat)>,
                    visited': set<nat>, queue': seq<(nat, nat)>)
    requires Closed(adj, visited, [(node, hops)] + queue) && visited <= visited'
    requires forall m :: m in Neighbours(adj, node) ==> m in visited'
    requires Grown(visited, queue, visited', queue')
    ensures Closed(adj, visited', queue')
  {
    forall v | v in visited' && !Queued(queue', v) ensures forall m :: m in Neighbours(adj, v) ==> m in visited' {
      if v != node {
        assert v in visited;
        assert !Queued([(node, hops)] + queue, v);
      }
    }
  }

  lemma FreshEntry(adj: Adjacency, src: nat, visited: set<nat>, queue: seq<(nat, nat)>, node: nat, hops: nat,
                   m: nat, before: set<nat>)
    requires QueueOk(adj, src, visited, queue, hops) && InHops(adj, src, node, hops)
    requires m in Neighbours(adj, node) && m !in visited && before <= visited && Swept(adj, src, before, hops)
    ensures QueueOk(adj, src, visited + {m}, queue + [(m, hops + 1)], hops)
    ensures m in AllNodes(adj, src)
  {
    assert InHops(adj, src, m, hops + 1);
    assert NotBefore(adj, src, m, hops + 1);
    QueuePush(adj, src, visited, queue, hops, m);
  }

  lemma QueuePush(adj: Adjacency, src: nat, visited: set<nat>, queue: seq<(nat, nat)>, hops: nat, m: nat)
    requires QueueOk(adj, src, visited, queue, hops)
    requires InHops(adj, src, m, hops + 1) && NotBefore(adj, src, m, hops + 1)
    ensures QueueOk(adj, src, visited + {m}, queue + [(m, hops + 1)], hops)
  {
    var more := queue + [(m, hops + 1)];
    forall i, j | 0 <= i < j < |more| ensures more[i].1 <= more[j].1 {
      assert more[i] in queue;
    }
  }

  ghost predicate Searching(adj: Adjacency, src: nat, dst: nat, visited: set<nat>, queue: seq<(nat, nat)>, level: nat) {
    && src in visited && visited <= AllNodes(adj, src) && dst !in visited
    && Swept(adj, src, visited, level) && Closed(adj, visited, queue) && QueueOk(adj, src, visited, queue, level)
  }

  /** Processes the front of the queue. */
  method VisitFront(adj: Adjacency, src: nat, dst: nat, visited: set<nat>, queue: seq<(nat, nat)>, ghost level: nat)
    returns (r: Option<nat>, visited': set<nat>, queue': seq<(nat, nat)>, ghost level': nat)
    requires Searching(adj, src, dst, visited, queue, level) && queue != []
    ensures r.Some? ==> InHops(adj, src, dst, r.value) && NotBefore(adj, src, dst, r.value)
    ensures r.None? ==> Searching(adj, src, dst, visited', queue', level')
    ensures visited <= visited' <= AllNodes(adj, src)
    ensures r.None? && visited' == visited ==> |queue'| < |queue|
  {
    var (node, hops) := queue[0];
    assert queue[0] in queue;
    level' := hops;
    if hops > level {
      NextLevel(adj, src, visited, queue, level);
    }
    assert queue == [(node, hops)] + queue[1..];
    var found;
    found, visited', queue' := Discover(adj, src, dst, node, hops, visited, queue[1..]);
    if found {
      assert InHops(adj, src, dst, hops + 1);
      return Some(hops + 1), visited', queue', level';
    }
    r := None;
  }

  /** The number of edges on a shortest walk, if there is one. */
  method EstimateHops(adj: Adjacency, src: nat, dst: nat) returns (r: Option<nat>)
    ensures r.Some? ==> InHops(adj, src, dst, r.value) && NotBefore(adj, src, dst, r.value)
    ensures r.None? ==> forall k: nat :: !InHops(adj, src, dst, k)
  {
    if src == dst {
      return Some(0);
    }
    var visited, queue := {src}, [(src, 0)];
    ghost var level := 0;
    assert (src, 0) in queue;
    while queue != []
      invariant Searching(adj, src, dst, visited, queue, level)
      decreases AllNodes(adj, src) - visited, |queue|
    {
      ghost var before := visited;
      r, visited, queue, level := VisitFront(adj, src, dst, visited, queue, level);
      if r.Some? {
        return;
      }
      assert visited != before ==> AllNodes(adj, src) - visited < AllNodes(adj, src) - before;
    }
    NeverReached(adj, src, dst, visited);
    r := None;
  }

  lemma NeverReached(adj: Adjacency, src: nat, dst: nat, visited: set<nat>)
    requires src in visited && dst !in visited && Closed(adj, visited, [])
    ensures forall k: nat :: !InHops(adj, src, dst, k)
  {
    forall k: nat ensures !InHops(adj, src, dst, k) {
      if InHops(adj, src, dst, k) {
        ClosedHoldsAll(adj, src, visited, dst, k);
      }
    }
  }
}
