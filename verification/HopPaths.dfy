/** Paths that packets can take when every node has a list of next hops, and how many there are. */
module HopPaths {
  import opened Arborescences

  /** The next hops of every node.  A node among its own hops is no step of a path. */
  type Next = nat -> seq<nat>

  ghost predicate IsStep(next: Next, a: nat, b: nat) {
    b in next(a) && b != a
  }

  /** The nodes along steps from `n` to `v`. */
  ghost predicate IsPath(next: Next, n: nat, v: nat, p: seq<nat>) {
    && p != [] && p[0] == n && p[|p| - 1] == v
    && forall i, j :: 0 <= i < |p| && 0 <= j < |p| && j == i + 1 ==> IsStep(next, p[i], p[j])
  }

  ghost predicate Reaches(next: Next, n: nat, v: nat) {
    exists p :: IsPath(next, n, v, p)
  }

  // ---------- building and cutting paths ----------

  lemma PathTail(next: Next, n: nat, v: nat, p: seq<nat>)
    requires IsPath(next, n, v, p) && |p| > 1
    ensures IsStep(next, n, p[1]) && IsPath(next, p[1], v, p[1..])
  {
    var q := p[1..];
    assert IsStep(next, p[0], p[1]);
    forall i, j | 0 <= i < |q| && 0 <= j < |q| && j == i + 1 ensures IsStep(next, q[i], q[j]) {
      assert IsStep(next, p[i + 1], p[j + 1]);
    }
  }

  lemma PathCons(next: Next, n: nat, c: nat, v: nat, q: seq<nat>)
    requires IsPath(next, c, v, q) && IsStep(next, n, c)
    ensures IsPath(next, n, v, [n] + q)
  {
    var p := [n] + q;
    forall i, j | 0 <= i < |p| && 0 <= j < |p| && j == i + 1 ensures IsStep(next, p[i], p[j]) {
      if i > 0 {
        assert IsStep(next, q[i - 1], q[j - 1]);
      }
    }
  }

  lemma ReachesItself(next: Next, n: nat)
    ensures Reaches(next, n, n)
  {
    assert IsPath(next, n, n, [n]);
  }

  lemma ReachesThen(next: Next, n: nat, u: nat, v: nat)
    requires Reaches(next, n, u) && v in next(u)
    ensures Reaches(next, n, v)
  {
    var p :| IsPath(next, n, u, p);
    if u != v {
      var q := p + [v];
      forall i, j | 0 <= i < |q| && 0 <= j < |q| && j == i + 1 ensures IsStep(next, q[i], q[j]) {
        if j < |p| {
          assert IsStep(next, p[i], p[j]);
        }
      }
      assert IsPath(next, n, v, q);
    }
  }

  lemma ReachesFirst(next: Next, n: nat, v: nat)
    ensures Reaches(next, n, v) <==> n == v || exists c: nat :: c in next(n) && Reaches(next, c, v)
  {
    if Reaches(next, n, v) && n != v {
      var p :| IsPath(next, n, v, p);
      PathTail(next, n, v, p);
      assert p[1] in next(n) && Reaches(next, p[1], v);
    }
    if n == v {
      ReachesItself(next, n);
    }
    if exists c: nat :: c in next(n) && Reaches(next, c, v) {
      var c: nat :| c in next(n) && Reaches(next, c, v);
      if c != n {
        var q :| IsPath(next, c, v, q);
        PathCons(next, n, c, v, q);
      }
    }
  }

  /** What no step leaves holds everything its members reach. */
  lemma {:induction false} ClosedHolds(next: Next, on: nat -> bool, n: nat, v: nat, p: seq<nat>)
    requires on(n) && IsPath(next, n, v, p)
    requires forall a: nat, b: nat :: on(a) && b in next(a) ==> on(b)
    ensures on(v)
    decreases |p|
  {
    if |p| > 1 {
      PathTail(next, n, v, p);
      ClosedHolds(next, on, p[1], v, p[1..]);
    }
  }

  lemma ClosedReaches(next: Next, on: nat -> bool, n: nat, v: nat)
    requires on(n) && Reaches(next, n, v)
    requires forall a: nat, b: nat :: on(a) && b in next(a) ==> on(b)
    ensures on(v)
  {
    var p :| IsPath(next, n, v, p);
    ClosedHolds(next, on, n, v, p);
  }

  // ---------- counting paths ----------

  /** All paths from `n` to `v`. */
  ghost predicate PathsAre(next: Next, n: nat, v: nat, paths: set<seq<nat>>) {
    forall p :: p in paths <==> IsPath(next, n, v, p)
  }

  /** All paths from `n` to `v` that start with a step to one of `hops`. */
  ghost predicate ViaAre(next: Next, n: nat, hops: seq<nat>, v: nat, paths: set<seq<nat>>) {
    forall p :: p in paths <==> IsPath(next, n, v, p) && |p| > 1 && p[1] in hops
  }

  /** There are exactly `k` paths from `n` to `v`. */
  ghost predicate PathCount(next: Next, n: nat, v: nat, k: nat) {
    exists paths: set<seq<nat>> :: PathsAre(next, n, v, paths) && |paths| == k
  }

  ghost predicate ViaCount(next: Next, n: nat, hops: seq<nat>, v: nat, k: nat) {
    exists paths: set<seq<nat>> :: ViaAre(next, n, hops, v, paths) && |paths| == k
  }

  function Prefixed(n: nat, paths: set<seq<nat>>): set<seq<nat>> {
    set q | q in paths :: [n] + q
  }

  lemma {:induction false} PrefixedSize(n: nat, paths: set<seq<nat>>)
    ensures |Prefixed(n, paths)| == |paths|
    decreases paths
  {
    if paths != {} {
      var q :| q in paths;
      PrefixedSize(n, paths - {q});
      assert Prefixed(n, paths) == Prefixed(n, paths - {q}) + {[n] + q};
      assert [n] + q !in Prefixed(n, paths - {q}) by {
        forall r | r in paths - {q} ensures [n] + r != [n] + q {
          assert ([n] + r)[1..] == r && ([n] + q)[1..] == q;
        }
      }
    } else {
      assert Prefixed(n, paths) == {};
    }
  }

  /** The paths through the first hop and those through the others. */
  lemma FirstHopPaths(next: Next, n: nat, hops: seq<nat>, v: nat, first: set<seq<nat>>, rest: set<seq<nat>>,
                      p: seq<nat>)
    requires hops != [] && IsStep(next, n, hops[0])
    requires PathsAre(next, hops[0], v, first) && ViaAre(next, n, hops[1..], v, rest)
    ensures p in Prefixed(n, first) + rest <==> IsPath(next, n, v, p) && |p| > 1 && p[1] in hops
  {
    var c := hops[0];
    assert hops == [c] + hops[1..];
    if p in Prefixed(n, first) {
      var q :| q in first && p == [n] + q;
      PathCons(next, n, c, v, q);
      assert p[1] == c;
    }
    if IsPath(next, n, v, p) && |p| > 1 && p[1] == c {
      PathTail(next, n, v, p);
      assert p == [n] + p[1..] && p[1..] in first;
    }
  }

  lemma HopsApart(next: Next, n: nat, hops: seq<nat>, v: nat, first: set<seq<nat>>, rest: set<seq<nat>>)
    requires hops != [] && Distinct(hops)
    requires PathsAre(next, hops[0], v, first) && ViaAre(next, n, hops[1..], v, rest)
    ensures Prefixed(n, first) !! rest
  {
    forall p | p in Prefixed(n, first) ensures p !in rest {
      var q :| q in first && p == [n] + q;
      assert IsPath(next, hops[0], v, q);
      assert p[1] == hops[0] && hops[0] !in hops[1..];
    }
  }

  lemma AddHop(next: Next, n: nat, hops: seq<nat>, v: nat, k: nat, l: nat)
    requires hops != [] && Distinct(hops) && IsStep(next, n, hops[0])
    requires PathCount(next, hops[0], v, k) && ViaCount(next, n, hops[1..], v, l)
    ensures ViaCount(next, n, hops, v, k + l)
  {
    var first: set<seq<nat>> :| PathsAre(next, hops[0], v, first) && |first| == k;
    var rest: set<seq<nat>> :| ViaAre(next, n, hops[1..], v, rest) && |rest| == l;
    var all := Prefixed(n, first) + rest;
    forall p ensures p in all <==> IsPath(next, n, v, p) && |p| > 1 && p[1] in hops {
      FirstHopPaths(next, n, hops, v, first, rest, p);
    }
    HopsApart(next, n, hops, v, first, rest);
    PrefixedSize(n, first);
    assert ViaAre(next, n, hops, v, all) && |all| == k + l;
  }

  lemma NoHopNoPath(next: Next, n: nat, v: nat)
    ensures ViaCount(next, n, [], v, 0)
  {
    var none: set<seq<nat>> := {};
    assert ViaAre(next, n, [], v, none) && |none| == 0;
  }

  /** A path from a node to a different one starts with a step to a next hop. */
  lemma AllHops(next: Next, n: nat, v: nat, k: nat)
    requires ViaCount(next, n, next(n), v, k) && n != v
    ensures PathCount(next, n, v, k)
  {
    var paths: set<seq<nat>> :| ViaAre(next, n, next(n), v, paths) && |paths| == k;
    forall p ensures p in paths <==> IsPath(next, n, v, p) {
      if IsPath(next, n, v, p) {
        assert |p| > 1;
        assert IsStep(next, p[0], p[1]);
      }
    }
    assert PathsAre(next, n, v, paths);
  }

  lemma LongPathLeaves(next: Next, n: nat, v: nat, p: seq<nat>)
    ensures IsPath(next, n, v, p) && |p| > 1 ==> exists c :: IsStep(next, n, c)
  {
    if IsPath(next, n, v, p) && |p| > 1 {
      assert IsStep(next, p[0], p[1]);
    }
  }

  /** From a node without steps only the node itself is reached, by one path. */
  lemma EndPaths(next: Next, n: nat, v: nat)
    requires forall c :: !IsStep(next, n, c)
    ensures PathCount(next, n, v, if v == n then 1 else 0)
  {
    var paths: set<seq<nat>> := if v == n then {[n]} else {};
    forall p ensures p in paths <==> IsPath(next, n, v, p) {
      LongPathLeaves(next, n, v, p);
      assert IsPath(next, n, v, p) && |p| == 1 ==> p == [n];
    }
    assert PathsAre(next, n, v, paths);
  }

  /** A node is reached exactly if there is a path to it. */
  lemma CountPositive(next: Next, n: nat, v: nat, k: nat)
    requires PathCount(next, n, v, k)
    ensures k > 0 <==> Reaches(next, n, v)
  {
    var paths: set<seq<nat>> :| PathsAre(next, n, v, paths) && |paths| == k;
    if k > 0 {
      var p :| p in paths;
    }
    if Reaches(next, n, v) {
      var p :| IsPath(next, n, v, p);
      assert p in paths;
    }
  }

  /** Only the steps matter. */
  lemma SameSteps(a: Next, b: Next, n: nat, v: nat, p: seq<nat>)
    requires forall x: nat, y: nat :: IsStep(a, x, y) <==> IsStep(b, x, y)
    ensures IsPath(a, n, v, p) <==> IsPath(b, n, v, p)
  {
  }

  lemma SameCount(a: Next, b: Next, n: nat, v: nat, k: nat)
    requires forall x: nat, y: nat :: IsStep(a, x, y) <==> IsStep(b, x, y)
    requires PathCount(a, n, v, k)
    ensures PathCount(b, n, v, k)
  {
    var paths: set<seq<nat>> :| PathsAre(a, n, v, paths) && |paths| == k;
    forall p ensures p in paths <==> IsPath(b, n, v, p) {
      SameSteps(a, b, n, v, p);
    }
    assert PathsAre(b, n, v, paths);
  }
}
