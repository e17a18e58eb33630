/** Enumeration of the paths between two nodes by backtracking (examples/lp/graph.py). */
module PathFinder {
  import opened Arborescences

  type Adjacency = map<nat, seq<nat>>

  /** Every neighbour is itself a node, as the adjacency lists of a graph are set up. */
  ghost predicate Closed(adj: Adjacency) {
    forall n :: n in adj ==> forall m :: m in adj[n] ==> m in adj
  }

  function Nodes(path: seq<nat>): set<nat> {
    set n | n in path
  }

  // ---------- the search, as a function ----------

  /** The completions of `path` to `dst`, in the order the search finds them.  A `limit` that is
      not positive means no limit. */
  ghost function PathsFrom(adj: Adjacency, path: seq<nat>, dst: nat, limit: int): seq<seq<nat>>
    requires Closed(adj) && path != [] && path[|path| - 1] in adj
    decreases adj.Keys - Nodes(path), 1, 0
  {
    var at := path[|path| - 1];
    if at == dst then [path]
    else if limit > 0 && |path| - 1 >= limit then []
    else PathsVia(adj, path, dst, limit, adj[at])
  }

  ghost function PathsVia(adj: Adjacency, path: seq<nat>, dst: nat, limit: int, neighbours: seq<nat>): seq<seq<nat>>
    requires Closed(adj) && forall m :: m in neighbours ==> m in adj
    decreases adj.Keys - Nodes(path), 0, |neighbours|
  {
    if neighbours == [] then []
    else
      var m := neighbours[0];
      (if m in path then []
       else
         assert m in adj.Keys - Nodes(path) && m !in adj.Keys - Nodes(path + [m]);
         PathsFrom(adj, path + [m], dst, limit))
      + PathsVia(adj, path, dst, limit, neighbours[1..])
  }

  // ---------- what it finds ----------

  /** `p` is a path that continues `path` to `dst` without visiting a node twice. */
  ghost predicate Completes(path: seq<nat>, p: seq<nat>, dst: nat, limit: int) {
    path <= p && p != [] && Distinct(p) && p[|p| - 1] == dst && (limit > 0 ==> |p| - 1 <= limit)
  }

  /** In how many ways the steps of `p` from position `i` on can be chosen from the adjacency
      lists; 0 if one of them is no edge. */
  ghost function Choices(adj: Adjacency, p: seq<nat>, i: nat): nat
    decreases |p| - i
  {
    if i + 1 >= |p| then 1
    else (if p[i] in adj then multiset(adj[p[i]])[p[i + 1]] else 0) * Choices(adj, p, i + 1)
  }

  lemma AtDestination(path: seq<nat>, p: seq<nat>, dst: nat, limit: int)
    requires path != [] && path[|path| - 1] == dst && Completes(path, p, dst, limit)
    ensures p == path
  {
    assert p[|path| - 1] == dst;
  }

  lemma LongerPrefix(path: seq<nat>, m: nat, p: seq<nat>)
    ensures path + [m] <= p <==> path <= p && |path| < |p| && p[|path|] == m
  {
    if path <= p && |path| < |p| && p[|path|] == m {
      assert p[..|path| + 1] == path + [m];
    }
  }

  /** Every completion is found exactly as often as its steps can be chosen; nothing else is. */
  lemma {:induction false} FromCount(adj: Adjacency, path: seq<nat>, dst: nat, limit: int, p: seq<nat>)
    requires Closed(adj) && path != [] && path[|path| - 1] in adj && Distinct(path)
    requires limit > 0 ==> |path| - 1 <= limit
    ensures multiset(PathsFrom(adj, path, dst, limit))[p]
            == if Completes(path, p, dst, limit) then Choices(adj, p, |path| - 1) else 0
    decreases adj.Keys - Nodes(path), 1, 0
  {
    var at := path[|path| - 1];
    if at == dst {
      if Completes(path, p, dst, limit) {
        AtDestination(path, p, dst, limit);
      }
    } else if limit > 0 && |path| - 1 >= limit {
      assert Completes(path, p, dst, limit) ==> p == path;
    } else {
      ViaCount(adj, path, dst, limit, adj[at], p);
      assert Completes(path, p, dst, limit) ==> |path| < |p|;
    }
  }

  /** The completions through one neighbour. */
  ghost function ViaOne(adj: Adjacency, path: seq<nat>, dst: nat, limit: int, m: nat): seq<seq<nat>>
    requires Closed(adj) && m in adj
  {
    if m in path then [] else PathsFrom(adj, path + [m], dst, limit)
  }

  lemma {:induction false} ViaOneCount(adj: Adjacency, path: seq<nat>, dst: nat, limit: int, m: nat, p: seq<nat>)
    requires Closed(adj) && Distinct(path) && m in adj
    requires limit > 0 ==> |path| <= limit
    ensures multiset(ViaOne(adj, path, dst, limit, m))[p]
            == if Completes(path, p, dst, limit) && |path| < |p| && p[|path|] == m then Choices(adj, p, |path|) else 0
    decreases adj.Keys - Nodes(path), 0, 0
  {
    LongerPrefix(path, m, p);
    if m in path {
      if path <= p && Distinct(p) && |path| < |p| {
        NotRevisited(path, m, p);
      }
    } else {
      assert m in adj.Keys - Nodes(path) && m !in adj.Keys - Nodes(path + [m]);
      FromCount(adj, path + [m], dst, limit, p);
    }
  }

  lemma {:induction false} ViaCount(adj: Adjacency, path: seq<nat>, dst: nat, limit: int, neighbours: seq<nat>,
                                    p: seq<nat>)
    requires Closed(adj) && Distinct(path) && forall m :: m in neighbours ==> m in adj
    requires limit > 0 ==> |path| <= limit
    ensures multiset(PathsVia(adj, path, dst, limit, neighbours))[p]
            == if Completes(path, p, dst, limit) && |path| < |p|
               then multiset(neighbours)[p[|path|]] * Choices(adj, p, |path|) else 0
    decreases adj.Keys - Nodes(path), 0, 1 + |neighbours|
  {
    if neighbours != [] {
      var m, rest := neighbours[0], neighbours[1..];
      ViaCount(adj, path, dst, limit, rest, p);
      ViaOneCount(adj, path, dst, limit, m, p);
      CountAppend(ViaOne(adj, path, dst, limit, m), PathsVia(adj, path, dst, limit, rest), p);
      if |path| < |p| {
        OneMoreChoice(neighbours, p[|path|], Choices(adj, p, |path|));
      }
    }
  }

  lemma CountAppend(a: seq<seq<nat>>, b: seq<seq<nat>>, p: seq<nat>)
    ensures multiset(a + b)[p] == multiset(a)[p] + multiset(b)[p]
  {
  }

  lemma OneMoreChoice(neighbours: seq<nat>, n: nat, k: nat)
    requires neighbours != []
    ensures multiset(neighbours)[n] * k == (if n == neighbours[0] then k else 0) + multiset(neighbours[1..])[n] * k
  {
    assert neighbours == [neighbours[0]] + neighbours[1..];
    assert multiset(neighbours)[n] == (if n == neighbours[0] then 1 else 0) + multiset(neighbours[1..])[n];
  }

  lemma NotRevisited(path: seq<nat>, m: nat, p: seq<nat>)
    requires m in path && path <= p && Distinct(p) && |path| < |p|
    ensures p[|path|] != m
  {
    var i :| 0 <= i < |path| && path[i] == m;
    assert p[i] == m;
  }

  // ---------- the search over shared lists ----------

  lemma ViaNext(adj: Adjacency, path: seq<nat>, dst: nat, limit: int, neighbours: seq<nat>, i: nat)
    requires Closed(adj) && i < |neighbours| && forall m :: m in neighbours ==> m in adj
    ensures PathsVia(adj, path, dst, limit, neighbours[i..])
            == ViaOne(adj, path, dst, limit, neighbours[i]) + PathsVia(adj, path, dst, limit, neighbours[i + 1..])
    ensures neighbours[i] !in path ==> adj.Keys - Nodes(path + [neighbours[i]]) < adj.Keys - Nodes(path)
  {
    assert neighbours[i..][1..] == neighbours[i + 1..];
    if neighbours[i] !in path {
      assert neighbours[i] in adj.Keys - Nodes(path) && neighbours[i] !in adj.Keys - Nodes(path + [neighbours[i]]);
    }
  }

  /** The state the recursive calls share: the path under way and the paths found. */
  class PathSearch {
    const adj: Adjacency
    var path: seq<nat>
    var allPaths: seq<seq<nat>>

    constructor (adj: Adjacency, src: nat)
      ensures this.adj == adj && path == [src] && allPaths == []
    {
      this.adj := adj;
      path := [src];
      allPaths := [];
    }

    /** `find_paths`: appends the completions of the shared path and restores it. */
    method FindPaths(src: nat, dst: nat, maxLength: int)
      requires Closed(adj) && path != [] && path[|path| - 1] == src && src in adj
      modifies this
      ensures path == old(path)
      ensures allPaths == old(allPaths) + PathsFrom(adj, path, dst, maxLength)
      decreases adj.Keys - Nodes(path), 1, 0
    {
      if src == dst {
        allPaths := allPaths + [path];
        return;
      }
      if maxLength > 0 && |path| - 1 >= maxLength {
        return;
      }
      var i := 0;
      ghost var start := path;
      while i < |adj[src]|
        invariant 0 <= i <= |adj[src]| && path == start
        invariant allPaths + PathsVia(adj, path, dst, maxLength, adj[src][i..])
                  == old(allPaths) + PathsVia(adj, path, dst, maxLength, adj[src])
      {
        var neighbor := adj[src][i];
        ViaNext(adj, path, dst, maxLength, adj[src], i);
        if neighbor !in path {
          path := path + [neighbor];
          FindPaths(neighbor, dst, maxLength);
          path := path[..|path| - 1];
        }
        i := i + 1;
      }
    }
  }

  /** `get_paths` for one pair. */
  method GetPaths(adj: Adjacency, src: nat, dst: nat, maxLength: int) returns (allPaths: seq<seq<nat>>)
    requires Closed(adj) && src in adj
    ensures allPaths == PathsFrom(adj, [src], dst, maxLength)
  {
    var search := new PathSearch(adj, src);
    search.FindPaths(src, dst, maxLength);
    allPaths := search.allPaths;
  }

  // ---------- simple paths ----------

  /** `p` is a path of the graph from `src` to `dst` that visits no node twice and, under a
      positive limit, has at most that many edges. */
  ghost predicate IsSimplePath(adj: Adjacency, src: nat, dst: nat, limit: int, p: seq<nat>) {
    && p != [] && p[0] == src && p[|p| - 1] == dst && Distinct(p)
    && (forall i: nat :: i + 1 < |p| ==> p[i] in adj && p[i + 1] in adj[p[i]])
    && (limit > 0 ==> |p| - 1 <= limit)
  }

  lemma {:induction false} ChoicesPositive(adj: Adjacency, p: seq<nat>, i: nat)
    ensures Choices(adj, p, i) > 0 <==> forall j: nat :: i <= j && j + 1 < |p| ==> p[j] in adj && p[j + 1] in adj[p[j]]
    decreases |p| - i
  {
    if i + 1 < |p| {
      ChoicesPositive(adj, p, i + 1);
      var k := if p[i] in adj then multiset(adj[p[i]])[p[i + 1]] else 0;
      var rest := Choices(adj, p, i + 1);
      assert k * rest > 0 <==> k > 0 && rest > 0;
    }
  }

  lemma {:induction false} ChoicesOnce(adj: Adjacency, p: seq<nat>, i: nat)
    requires forall n :: n in adj ==> Distinct(adj[n])
    ensures Choices(adj, p, i) <= 1
    decreases |p| - i
  {
    if i + 1 < |p| {
      ChoicesOnce(adj, p, i + 1);
      if p[i] in adj {
        DistinctOnce(adj[p[i]], p[i + 1]);
      }
    }
  }

  lemma {:induction false} DistinctOnce(ns: seq<nat>, m: nat)
    requires Distinct(ns)
    ensures multiset(ns)[m] <= 1
  {
    if ns != [] {
      DistinctOnce(ns[1..], m);
      assert ns == [ns[0]] + ns[1..];
      assert ns[0] !in ns[1..];
    }
  }

  /** The search finds exactly the simple paths within the limit, and each of them only once if no
      adjacency list has repeats. */
  lemma FindsExactlySimplePaths(adj: Adjacency, src: nat, dst: nat, limit: int, p: seq<nat>)
    requires Closed(adj) && src in adj
    ensures p in PathsFrom(adj, [src], dst, limit) <==> IsSimplePath(adj, src, dst, limit, p)
    ensures (forall n :: n in adj ==> Distinct(adj[n])) ==> multiset(PathsFrom(adj, [src], dst, limit))[p] <= 1
  {
    var found := PathsFrom(adj, [src], dst, limit);
    FromCount(adj, [src], dst, limit, p);
    ChoicesPositive(adj, p, 0);
    assert p in found <==> p in multiset(found);
    assert [src] <= p <==> p != [] && p[0] == src;
    if forall n :: n in adj ==> Distinct(adj[n]) {
      ChoicesOnce(adj, p, 0);
    }
  }
}
