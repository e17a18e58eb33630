/** The search loop of `LayeredGraph.dijkstra_to_terminal` (examples/lp/cf_tree.py) and why it
    finds a connection whenever there is one, and a cheapest one when no weight is negative:
    although a path may not revisit a node, whatever that blocks was reached earlier. */
module LayeredDijkstra {
  import opened Wrappers
  import opened LayeredSearch

  type Best = map<Visit, Cost>

  // ---------- what is already covered ----------
  // In this section `nn` says whether costs are to be compared: it implies that no weight is
  // negative.

  ghost predicate InBest(nn: bool, best: Best, m: nat, l: nat, c: Cost) {
    exists k: nat :: k <= l && (m, k) in best && (nn ==> Le(best[(m, k)], c))
  }

  ghost predicate InQueue(nn: bool, pq: seq<Entry>, m: nat, l: nat, c: Cost) {
    exists e :: e in pq && e.node == m && e.layer <= l && (nn ==> Le(e.cost, c))
  }

  /** Node `m` has been or will be reached by layer `l`, at cost `c` or less. */
  ghost predicate Covered(nn: bool, best: Best, pq: seq<Entry>, m: nat, l: nat, c: Cost) {
    InBest(nn, best, m, l, c) || InQueue(nn, pq, m, l, c)
  }

  /** The first `n` neighbours of a visited node are covered. */
  ghost predicate Expanded(s: Search, nn: bool, best: Best, pq: seq<Entry>, k: Visit, n: nat)
    requires k in best
  {
    k.1 < s.hopLimit ==>
      forall i :: 0 <= i < n && i < |Neighbours(s.adj, k.0)| && Neighbours(s.adj, k.0)[i] !in s.tree ==>
        Covered(nn, best, pq, Neighbours(s.adj, k.0)[i], k.1 + 1,
                Plus(best[k], Weight(s.weights, k.0, Neighbours(s.adj, k.0)[i])))
  }

  /** All visited nodes are expanded, `open` only its first `n` neighbours. */
  ghost predicate AllExpanded(s: Search, nn: bool, best: Best, pq: seq<Entry>, open: Option<Visit>, n: nat) {
    forall k :: k in best ==>
      Expanded(s, nn, best, pq, k, if open == Some(k) then n else |Neighbours(s.adj, k.0)|)
  }

  /** The first `n` nodes of a path were visited, at no more than their cost on the path. */
  ghost predicate Traced(s: Search, nn: bool, best: Best, path: seq<Visit>, n: nat) {
    forall i :: 0 <= i < n && i < |path| ==>
      path[i] in best && (nn ==> Le(best[path[i]], CostOf(s.weights, NodesOf(path[..i + 1]))))
  }

  ghost predicate QueueOk(s: Search, nn: bool, best: Best, pq: seq<Entry>) {
    forall e :: e in pq ==> EntryOk(s, e) && Traced(s, nn, best, e.path, |e.path| - 1)
  }

  ghost predicate TreeCovered(s: Search, nn: bool, best: Best, pq: seq<Entry>) {
    forall u :: u in s.tree ==> Covered(nn, best, pq, u, s.tree[u], ZERO)
  }

  ghost predicate NotFound(s: Search, best: Best) {
    forall k :: k in best ==> k.0 != s.terminal
  }

  ghost predicate Inv(s: Search, nn: bool, best: Best, pq: seq<Entry>, open: Option<Visit>, n: nat) {
    && QueueOk(s, nn, best, pq) && NotFound(s, best)
    && TreeCovered(s, nn, best, pq) && AllExpanded(s, nn, best, pq, open, n)
  }

  // ---------- nothing covered is lost ----------

  /** Recorded costs only fall, and entries leave the queue only when they are recorded. */
  ghost predicate Advances(best: Best, pq: seq<Entry>, best': Best, pq': seq<Entry>) {
    && (forall k :: k in best ==> k in best' && Le(best'[k], best[k]))
    && (forall e :: e in pq ==>
          e in pq' || ((e.node, e.layer) in best' && Le(best'[(e.node, e.layer)], e.cost)))
  }

  lemma CoveredKept(nn: bool, best: Best, pq: seq<Entry>, best': Best, pq': seq<Entry>, m: nat, l: nat, c: Cost)
    requires Advances(best, pq, best', pq') && Covered(nn, best, pq, m, l, c)
    ensures Covered(nn, best', pq', m, l, c)
  {
    if InBest(nn, best, m, l, c) {
      var k: nat :| k <= l && (m, k) in best && (nn ==> Le(best[(m, k)], c));
      assert (m, k) in best';
    } else {
      var e :| e in pq && e.node == m && e.layer <= l && (nn ==> Le(e.cost, c));
      if e !in pq' {
        assert (m, e.layer) in best';
      }
    }
  }

  lemma TreeCoveredKept(s: Search, nn: bool, best: Best, pq: seq<Entry>, best': Best, pq': seq<Entry>)
    requires Advances(best, pq, best', pq') && TreeCovered(s, nn, best, pq)
    ensures TreeCovered(s, nn, best', pq')
  {
    forall u | u in s.tree ensures Covered(nn, best', pq', u, s.tree[u], ZERO) {
      CoveredKept(nn, best, pq, best', pq', u, s.tree[u], ZERO);
    }
  }

  lemma ExpandedKept(s: Search, nn: bool, best: Best, pq: seq<Entry>, best': Best, pq': seq<Entry>, k: Visit, n: nat)
    requires Advances(best, pq, best', pq') && k in best && best'[k] == best[k]
    requires Expanded(s, nn, best, pq, k, n)
    ensures Expanded(s, nn, best', pq', k, n)
  {
    var ms := Neighbours(s.adj, k.0);
    if k.1 < s.hopLimit {
      forall i | 0 <= i < n && i < |ms| && ms[i] !in s.tree
        ensures Covered(nn, best', pq', ms[i], k.1 + 1, Plus(best'[k], Weight(s.weights, k.0, ms[i])))
      {
        CoveredKept(nn, best, pq, best', pq', ms[i], k.1 + 1, Plus(best[k], Weight(s.weights, k.0, ms[i])));
      }
    }
  }

  lemma TracedKept(s: Search, nn: bool, best: Best, best': Best, path: seq<Visit>, n: nat)
    requires forall k :: k in best ==> k in best' && Le(best'[k], best[k])
    requires Traced(s, nn, best, path, n)
    ensures Traced(s, nn, best', path, n)
  {
  }

  lemma PopMembers(pq: seq<Entry>, at: nat)
    requires at < |pq|
    ensures forall x :: x in pq ==> x == pq[at] || x in pq[..at] + pq[at + 1..]
    ensures forall x :: x in pq[..at] + pq[at + 1..] ==> x in pq
  {
    forall x | x in pq ensures x == pq[at] || x in pq[..at] + pq[at + 1..] {
      var i :| 0 <= i < |pq| && pq[i] == x;
      if i < at {
        assert x in pq[..at];
      } else if i > at {
        assert pq[at + 1..][i - at - 1] == x;
      }
    }
  }

  // ---------- the steps keep the invariant ----------

  /** An entry that comes too late is dropped. */
  lemma SkipKeeps(s: Search, nn: bool, best: Best, pq: seq<Entry>, at: nat)
    requires Inv(s, nn, best, pq, None, 0) && at < |pq|
    requires (pq[at].node, pq[at].layer) in best && Le(best[(pq[at].node, pq[at].layer)], pq[at].cost)
    ensures Inv(s, nn, best, pq[..at] + pq[at + 1..], None, 0)
  {
    var rest := pq[..at] + pq[at + 1..];
    PopMembers(pq, at);
    assert Advances(best, pq, best, rest);
    TreeCoveredKept(s, nn, best, pq, best, rest);
    forall k | k in best ensures Expanded(s, nn, best, rest, k, |Neighbours(s.adj, k.0)|) {
      ExpandedKept(s, nn, best, pq, best, rest, k, |Neighbours(s.adj, k.0)|);
    }
  }

  lemma QueueKept(s: Search, nn: bool, best: Best, pq: seq<Entry>, best': Best, pq': seq<Entry>)
    requires QueueOk(s, nn, best, pq) && (forall e :: e in pq' ==> e in pq)
    requires forall k :: k in best ==> k in best' && Le(best'[k], best[k])
    ensures QueueOk(s, nn, best', pq')
  {
    forall e | e in pq' ensures EntryOk(s, e) && Traced(s, nn, best', e.path, |e.path| - 1) {
      TracedKept(s, nn, best, best', e.path, |e.path| - 1);
    }
  }

  /** Recording a new cost puts only that one node on the agenda. */
  lemma RecordedExpanded(s: Search, nn: bool, best: Best, pq: seq<Entry>, best': Best, pq': seq<Entry>, key: Visit)
    requires AllExpanded(s, nn, best, pq, None, 0) && Advances(best, pq, best', pq')
    requires best'.Keys == best.Keys + {key} && forall k :: k in best && k != key ==> best'[k] == best[k]
    ensures AllExpanded(s, nn, best', pq', Some(key), 0)
  {
    forall k | k in best'
      ensures Expanded(s, nn, best', pq', k, if Some(key) == Some(k) then 0 else |Neighbours(s.adj, k.0)|)
    {
      if k != key {
        ExpandedKept(s, nn, best, pq, best', pq', k, |Neighbours(s.adj, k.0)|);
      }
    }
  }

  /** An entry that is first or cheaper is recorded; its neighbours are due. */
  lemma RecordKeeps(s: Search, nn: bool, best: Best, pq: seq<Entry>, at: nat, key: Visit)
    requires Inv(s, nn, best, pq, None, 0) && at < |pq| && key == (pq[at].node, pq[at].layer)
    requires key !in best || !Le(best[key], pq[at].cost)
    requires pq[at].node != s.terminal
    ensures Inv(s, nn, best[key := pq[at].cost], pq[..at] + pq[at + 1..], Some(key), 0)
  {
    var rest, best' := pq[..at] + pq[at + 1..], best[key := pq[at].cost];
    RecordAdvances(best, pq, at, key);
    TreeCoveredKept(s, nn, best, pq, best', rest);
    QueueKept(s, nn, best, pq, best', rest);
    RecordedExpanded(s, nn, best, pq, best', rest, key);
  }

  lemma RecordAdvances(best: Best, pq: seq<Entry>, at: nat, key: Visit)
    requires at < |pq| && key == (pq[at].node, pq[at].layer)
    requires key !in best || !Le(best[key], pq[at].cost)
    ensures var rest := pq[..at] + pq[at + 1..];
            Advances(best, pq, best[key := pq[at].cost], rest) && forall e :: e in rest ==> e in pq
  {
    PopMembers(pq, at);
  }

  /** The recorded entry has its whole path recorded. */
  lemma RecordTraced(s: Search, nn: bool, best: Best, e: Entry)
    requires EntryOk(s, e) && Traced(s, nn, best, e.path, |e.path| - 1)
    requires (e.node, e.layer) !in best || !Le(best[(e.node, e.layer)], e.cost)
    ensures Traced(s, nn, best[(e.node, e.layer) := e.cost], e.path, |e.path|)
  {
    var best' := best[(e.node, e.layer) := e.cost];
    TracedKept(s, nn, best, best', e.path, |e.path| - 1);
    assert e.path[..|e.path|] == e.path;
  }

  /** A new entry, for one more neighbour. */
  lemma PushKeeps(s: Search, nn: bool, best: Best, pq: seq<Entry>, open: Visit, n: nat, e: Entry)
    requires Inv(s, nn, best, pq, Some(open), n)
    requires EntryOk(s, e) && Traced(s, nn, best, e.path, |e.path| - 1)
    ensures Inv(s, nn, best, pq + [e], Some(open), n)
  {
    assert Advances(best, pq, best, pq + [e]);
    TreeCoveredKept(s, nn, best, pq, best, pq + [e]);
    forall k | k in best
      ensures Expanded(s, nn, best, pq + [e], k, if Some(open) == Some(k) then n else |Neighbours(s.adj, k.0)|)
    {
      ExpandedKept(s, nn, best, pq, best, pq + [e], k, if k == open then n else |Neighbours(s.adj, k.0)|);
    }
  }

  lemma NextNeighbour(s: Search, nn: bool, best: Best, pq: seq<Entry>, open: Visit, n: nat)
    requires Inv(s, nn, best, pq, Some(open), n) && open in best && n < |Neighbours(s.adj, open.0)|
    requires var m := Neighbours(s.adj, open.0)[n];
             m in s.tree || Covered(nn, best, pq, m, open.1 + 1, Plus(best[open], Weight(s.weights, open.0, m)))
    ensures Inv(s, nn, best, pq, Some(open), n + 1)
  {
  }

  lemma AllNeighbours(s: Search, nn: bool, best: Best, pq: seq<Entry>, open: Visit, n: nat)
    requires Inv(s, nn, best, pq, Some(open), n)
    requires open in best && (n >= |Neighbours(s.adj, open.0)| || open.1 >= s.hopLimit)
    ensures Inv(s, nn, best, pq, None, 0)
  {
    forall k | k in best ensures Expanded(s, nn, best, pq, k, |Neighbours(s.adj, k.0)|) {
      assert Expanded(s, nn, best, pq, k, if Some(open) == Some(k) then n else |Neighbours(s.adj, k.0)|);
    }
  }

  // ---------- revisits ----------

  lemma {:induction false} LayersFall(s: Search, path: seq<Visit>, i: nat)
    requires PathOk(s, path) && i < |path|
    ensures path[i].1 <= path[|path| - 1].1
  {
    if i < |path| - 1 {
      LayersFall(s, path[..|path| - 1], i);
    }
  }

  lemma RevisitCost(s: Search, best: Best, e: Entry, i: nat, w: Cost)
    requires EntryOk(s, e) && Traced(s, true, best, e.path, |e.path|) && i < |e.path|
    requires NonNegative(s.weights) && Le(ZERO, w)
    ensures e.path[i] in best && Le(best[e.path[i]], Plus(e.cost, w))
  {
    var nodes := NodesOf(e.path);
    assert NodesOf(e.path[..i + 1]) == nodes[..i + 1];
    PrefixCheaper(s.weights, nodes, i + 1);
  }

  /** A neighbour that the path already visits was reached earlier and at no higher cost. */
  lemma RevisitCovered(s: Search, nn: bool, best: Best, pq: seq<Entry>, e: Entry, i: nat)
    requires EntryOk(s, e) && Traced(s, nn, best, e.path, |e.path|) && i < |e.path|
    requires nn ==> NonNegative(s.weights)
    ensures var m := e.path[i].0;
            Covered(nn, best, pq, m, e.layer + 1, Plus(e.cost, Weight(s.weights, e.node, m)))
  {
    var m, k := e.path[i].0, e.path[i].1;
    LayersFall(s, e.path, i);
    assert (m, k) in best;
    if nn {
      RevisitCost(s, best, e, i, Weight(s.weights, e.node, m));
    }
  }

  /** The entry for a neighbour that the path does not visit yet. */
  lemma NewEntryOk(s: Search, nn: bool, best: Best, e: Entry, m: nat)
    requires EntryOk(s, e) && Traced(s, nn, best, e.path, |e.path|) && m !in NodesOf(e.path)
    requires m in Neighbours(s.adj, e.node) && e.layer < s.hopLimit
    requires m in s.tree ==> s.tree[m] == e.layer + 1
    ensures var next := Entry(Plus(e.cost, Weight(s.weights, e.node, m)), e.layer + 1, m, e.path + [(m, e.layer + 1)]);
            EntryOk(s, next) && Traced(s, nn, best, next.path, |next.path| - 1)
  {
    var v := (m, e.layer + 1);
    PathPush(s, e.path, v);
    NodesPush(e.path, v);
    CostPush(s.weights, NodesOf(e.path), m);
    TracedPush(s, nn, best, e.path, v);
  }

  lemma PathPush(s: Search, path: seq<Visit>, v: Visit)
    requires PathOk(s, path) && Step(s, path[|path| - 1], v) && v.0 !in NodesOf(path)
    requires v.0 in s.tree ==> s.tree[v.0] == v.1
    ensures PathOk(s, path + [v])
  {
    assert (path + [v])[..|path|] == path;
  }

  lemma TracedPush(s: Search, nn: bool, best: Best, path: seq<Visit>, v: Visit)
    requires Traced(s, nn, best, path, |path|)
    ensures Traced(s, nn, best, path + [v], |path|)
  {
    var longer := path + [v];
    forall i | 0 <= i < |path|
      ensures longer[i] in best && (nn ==> Le(best[longer[i]], CostOf(s.weights, NodesOf(longer[..i + 1]))))
    {
      assert longer[..i + 1] == path[..i + 1];
    }
  }

  // ---------- the loops ----------

  /** One entry per tree node, at its depth and at no cost. */
  method InitialQueue(s: Search, ghost nn: bool) returns (pq: seq<Entry>)
    ensures Inv(s, nn, map[], pq, None, 0)
  {
    pq := [];
    var rest := s.tree.Keys;
    while rest != {}
      invariant rest <= s.tree.Keys
      invariant QueueOk(s, nn, map[], pq)
      invariant forall u :: u in s.tree.Keys - rest ==> Covered(nn, map[], pq, u, s.tree[u], ZERO)
      decreases rest
    {
      var u :| u in rest;
      var e := Entry(ZERO, s.tree[u], u, [(u, s.tree[u])]);
      assert EntryOk(s, e);
      forall v | v in s.tree.Keys - rest ensures Covered(nn, map[], pq + [e], v, s.tree[v], ZERO) {
        CoveredKept(nn, map[], pq, map[], pq + [e], v, s.tree[v], ZERO);
      }
      assert e in pq + [e];
      assert InQueue(nn, pq + [e], u, s.tree[u], ZERO);
      pq := pq + [e];
      rest := rest - {u};
    }
  }

  /** The new entry covers the neighbour. */
  lemma PushCovers(s: Search, nn: bool, best: Best, pq: seq<Entry>, e: Entry, i: nat, next: Entry)
    requires EntryOk(s, e) && Traced(s, nn, best, e.path, |e.path|) && e.layer < s.hopLimit
    requires i < |Neighbours(s.adj, e.node)| && (e.node, e.layer) in best && best[(e.node, e.layer)] == e.cost
    requires Inv(s, nn, best, pq, Some((e.node, e.layer)), i)
    requires var m := Neighbours(s.adj, e.node)[i];
             && m !in NodesOf(e.path) && (m in s.tree ==> s.tree[m] == e.layer + 1)
             && next == Entry(Plus(e.cost, Weight(s.weights, e.node, m)), e.layer + 1, m, e.path + [(m, e.layer + 1)])
    ensures Inv(s, nn, best, pq + [next], Some((e.node, e.layer)), i + 1)
  {
    NewEntryOk(s, nn, best, e, next.node);
    PushKeeps(s, nn, best, pq, (e.node, e.layer), i, next);
    assert next in pq + [next];
    assert InQueue(nn, pq + [next], next.node, next.layer, next.cost);
    NextNeighbour(s, nn, best, pq + [next], (e.node, e.layer), i);
  }

  /** A neighbour that needs no new entry is covered already. */
  lemma NothingToPush(s: Search, nn: bool, best: Best, pq: seq<Entry>, e: Entry, i: nat)
    requires nn ==> NonNegative(s.weights)
    requires EntryOk(s, e) && Traced(s, nn, best, e.path, |e.path|)
    requires i < |Neighbours(s.adj, e.node)| && (e.node, e.layer) in best && best[(e.node, e.layer)] == e.cost
    requires Inv(s, nn, best, pq, Some((e.node, e.layer)), i)
    requires var m, l := Neighbours(s.adj, e.node)[i], e.layer + 1;
             || m in s.tree
             || m in NodesOf(e.path)
             || ((m, l) in best && Le(best[(m, l)], Plus(e.cost, Weight(s.weights, e.node, m))))
    ensures Inv(s, nn, best, pq, Some((e.node, e.layer)), i + 1)
  {
    var m, l := Neighbours(s.adj, e.node)[i], e.layer + 1;
    if m !in s.tree {
      if m in NodesOf(e.path) {
        var j :| 0 <= j < |e.path| && NodesOf(e.path)[j] == m;
        RevisitCovered(s, nn, best, pq, e, j);
      } else {
        assert InBest(nn, best, m, l, Plus(e.cost, Weight(s.weights, e.node, m)));
      }
    }
    NextNeighbour(s, nn, best, pq, (e.node, e.layer), i);
  }

  /** Up to `n` entries of layer `l`. */
  ghost predicate FewOf(added: seq<Entry>, l: nat, n: nat) {
    |added| <= n && forall x :: x in added ==> x.layer == l
  }

  lemma {:induction false} AddedPotential(h: int, d: nat, pq: seq<Entry>, added: seq<Entry>, l: nat)
    requires FewOf(added, l, |added|)
    ensures Potential(h, d, pq + added) == Potential(h, d, pq) + Times(|added|, Room(h, d, l))
  {
    if added == [] {
      assert pq + added == pq;
    } else {
      var init, last := added[..|added| - 1], added[|added| - 1];
      AddedPotential(h, d, pq, init, l);
      PotentialPush(h, d, pq + init, last);
      assert pq + added == pq + init + [last];
    }
  }

  lemma FewMore(added: seq<Entry>, more: seq<Entry>, l: nat, n: nat)
    requires FewOf(added, l, n) && FewOf(more, l, 1)
    ensures FewOf(added + more, l, n + 1)
  {
  }

  /** One neighbour of the popped entry. */
  method Relax(s: Search, ghost nn: bool, best: Best, pq: seq<Entry>, e: Entry, i: nat)
    returns (pq': seq<Entry>, ghost more: seq<Entry>)
    requires nn ==> NonNegative(s.weights)
    requires EntryOk(s, e) && Traced(s, nn, best, e.path, |e.path|) && e.layer < s.hopLimit
    requires i < |Neighbours(s.adj, e.node)| && (e.node, e.layer) in best && best[(e.node, e.layer)] == e.cost
    requires Inv(s, nn, best, pq, Some((e.node, e.layer)), i)
    ensures Inv(s, nn, best, pq', Some((e.node, e.layer)), i + 1)
    ensures pq' == pq + more && FewOf(more, e.layer + 1, 1)
  {
    var m, nextLayer := Neighbours(s.adj, e.node)[i], e.layer + 1;
    pq', more := pq, [];
    if (m in s.tree && s.tree[m] != nextLayer) || m in NodesOf(e.path) {
      NothingToPush(s, nn, best, pq, e, i);
      return;
    }
    var newCost := Plus(e.cost, Weight(s.weights, e.node, m));
    if (m, nextLayer) in best && Le(best[(m, nextLayer)], newCost) {
      NothingToPush(s, nn, best, pq, e, i);
      return;
    }
    var next := Entry(newCost, nextLayer, m, e.path + [(m, nextLayer)]);
    PushCovers(s, nn, best, pq, e, i, next);
    pq', more := pq + [next], [next];
  }

  /** The loop over the neighbours of the popped entry. */
  method RelaxAll(s: Search, ghost nn: bool, best: Best, pq: seq<Entry>, e: Entry)
    returns (pq': seq<Entry>, ghost added: seq<Entry>)
    requires nn ==> NonNegative(s.weights)
    requires EntryOk(s, e) && Traced(s, nn, best, e.path, |e.path|) && e.layer < s.hopLimit
    requires (e.node, e.layer) in best && best[(e.node, e.layer)] == e.cost
    requires Inv(s, nn, best, pq, Some((e.node, e.layer)), 0)
    ensures Inv(s, nn, best, pq', Some((e.node, e.layer)), |Neighbours(s.adj, e.node)|)
    ensures pq' == pq + added && FewOf(added, e.layer + 1, |Neighbours(s.adj, e.node)|)
  {
    pq', added := pq, [];
    var i := 0;
    while i < |Neighbours(s.adj, e.node)|
      invariant 0 <= i <= |Neighbours(s.adj, e.node)|
      invariant Inv(s, nn, best, pq', Some((e.node, e.layer)), i)
      invariant pq' == pq + added && FewOf(added, e.layer + 1, i)
    {
      ghost var more;
      pq', more := Relax(s, nn, best, pq', e, i);
      FewMore(added, more, e.layer + 1, i);
      added := added + more;
      i := i + 1;
    }
  }

  // ---------- what the search returns ----------

  /** Along a connection, either all nodes so far are recorded or some entry is at least as cheap
      as the whole connection. */
  lemma {:induction false} GraftSeen(s: Search, nn: bool, best: Best, pq: seq<Entry>, q: seq<nat>, i: nat)
    requires Inv(s, nn, best, pq, None, 0) && Graft(s, q) && i < |q| && (nn ==> NonNegative(s.weights))
    ensures InBest(nn, best, q[i], s.tree[q[0]] + i, CostOf(s.weights, q[..i + 1]))
            || exists e :: e in pq && (nn ==> Le(e.cost, CostOf(s.weights, q)))
  {
    if nn {
      PrefixCheaper(s.weights, q, i + 1);
    }
    if i == 0 {
      assert Covered(nn, best, pq, q[0], s.tree[q[0]], ZERO);
    } else {
      GraftSeen(s, nn, best, pq, q, i - 1);
      if InBest(nn, best, q[i - 1], s.tree[q[0]] + i - 1, CostOf(s.weights, q[..i])) {
        GraftStep(s, nn, best, pq, q, i);
      }
    }
  }

  lemma GraftStep(s: Search, nn: bool, best: Best, pq: seq<Entry>, q: seq<nat>, i: nat)
    requires Inv(s, nn, best, pq, None, 0) && Graft(s, q) && 0 < i < |q|
    requires InBest(nn, best, q[i - 1], s.tree[q[0]] + i - 1, CostOf(s.weights, q[..i]))
    ensures Covered(nn, best, pq, q[i], s.tree[q[0]] + i, CostOf(s.weights, q[..i + 1]))
  {
    var l, c := s.tree[q[0]] + i - 1, CostOf(s.weights, q[..i]);
    var k: nat :| k <= l && (q[i - 1], k) in best && (nn ==> Le(best[(q[i - 1], k)], c));
    var ms := Neighbours(s.adj, q[i - 1]);
    assert q[i] in ms && q[i] !in s.tree;
    var j :| 0 <= j < |ms| && ms[j] == q[i];
    var w := Weight(s.weights, q[i - 1], q[i]);
    assert Expanded(s, nn, best, pq, (q[i - 1], k), |ms|);
    assert Covered(nn, best, pq, ms[j], k + 1, Plus(best[(q[i - 1], k)], w));
    assert q[..i + 1][..i] == q[..i];
    Loosen(nn, best, pq, q[i], k + 1, Plus(best[(q[i - 1], k)], w), l + 1, Plus(c, w));
  }

  lemma Loosen(nn: bool, best: Best, pq: seq<Entry>, m: nat, l: nat, c: Cost, l': nat, c': Cost)
    requires Covered(nn, best, pq, m, l, c) && l <= l' && (nn ==> Le(c, c'))
    ensures Covered(nn, best, pq, m, l', c')
  {
    if InBest(nn, best, m, l, c) {
      var k: nat :| k <= l && (m, k) in best && (nn ==> Le(best[(m, k)], c));
      assert InBest(nn, best, m, l', c');
    } else {
      var e :| e in pq && e.node == m && e.layer <= l && (nn ==> Le(e.cost, c));
      assert InQueue(nn, pq, m, l', c');
    }
  }

  /** Every connection still has an entry that is at least as cheap. */
  lemma GraftAhead(s: Search, nn: bool, best: Best, pq: seq<Entry>, q: seq<nat>)
    requires Inv(s, nn, best, pq, None, 0) && Graft(s, q) && (nn ==> NonNegative(s.weights))
    ensures exists e :: e in pq && (nn ==> Le(e.cost, CostOf(s.weights, q)))
  {
    GraftSeen(s, nn, best, pq, q, |q| - 1);
  }

  /** The part of a path after its last tree node connects that tree node to the end of the path. */
  lemma {:induction false} SuffixGraft(s: Search, path: seq<Visit>) returns (q: seq<nat>)
    requires PathOk(s, path)
    ensures Branch(s, q) && q[|q| - 1] == path[|path| - 1].0 && s.tree[q[0]] + |q| - 1 == path[|path| - 1].1
    ensures NonNegative(s.weights) ==> Le(CostOf(s.weights, q), CostOf(s.weights, NodesOf(path)))
    decreases |path|
  {
    var v := path[|path| - 1];
    if v.0 in s.tree {
      q := [v.0];
      if NonNegative(s.weights) {
        PrefixCheaper(s.weights, NodesOf(path), 0);
      }
    } else {
      var rest := path[..|path| - 1];
      var q' := SuffixGraft(s, rest);
      q := q' + [v.0];
      BranchPush(s, q', v.0);
      CostPush(s.weights, q', v.0);
      NodesPush(rest, v);
      CostPush(s.weights, NodesOf(rest), v.0);
      assert path == rest + [v];
    }
  }

  /** Popping the terminal answers the question. */
  lemma FoundIsLeast(s: Search, nn: bool, best: Best, pq: seq<Entry>, e: Entry)
    requires Inv(s, nn, best, pq, None, 0) && (nn ==> NonNegative(s.weights))
    requires e in pq && IsLeast(e, pq) && e.node == s.terminal
    ensures PathOk(s, e.path) && e.path[|e.path| - 1].0 == s.terminal && e.cost == CostOf(s.weights, NodesOf(e.path))
    ensures exists q :: Graft(s, q)
    ensures nn ==> forall q :: Graft(s, q) ==> Le(e.cost, CostOf(s.weights, q))
  {
    assert EntryOk(s, e);
    var g := SuffixGraft(s, e.path);
    assert Graft(s, g);
    if nn {
      forall q | Graft(s, q) ensures Le(e.cost, CostOf(s.weights, q)) {
        GraftAhead(s, nn, best, pq, q);
        var x :| x in pq && Le(x.cost, CostOf(s.weights, q));
        assert !Before(x, e);
      }
    }
  }

  /** `pq'` is `pq` without its entry at `at`, plus at most `n` entries of the next layer unless the
      hop limit is reached. */
  ghost predicate Replaces(hopLimit: int, pq: seq<Entry>, at: nat, pq': seq<Entry>, added: seq<Entry>, n: nat)
    requires at < |pq|
  {
    && pq' == pq[..at] + pq[at + 1..] + added && FewOf(added, pq[at].layer + 1, n)
    && (added != [] ==> pq[at].layer < hopLimit)
  }

  lemma ReplacingShrinks(h: int, d: nat, pq: seq<Entry>, at: nat, pq': seq<Entry>, added: seq<Entry>, n: nat)
    requires at < |pq| && n <= d && Replaces(h, pq, at, pq', added, n)
    ensures Potential(h, d, pq') < Potential(h, d, pq)
  {
    var l := pq[at].layer;
    PotentialPop(h, d, pq, at);
    RoomPositive(h, d, l);
    if added == [] {
      assert pq' == pq[..at] + pq[at + 1..];
    } else {
      AddedPotential(h, d, pq[..at] + pq[at + 1..], added, l + 1);
      RoomForNeighbours(h, d, l, |added|);
    }
  }

  /** What happens to a popped entry that is not the terminal. */
  method Visited(s: Search, ghost nn: bool, best: Best, pq: seq<Entry>, e: Entry, rest: seq<Entry>, ghost at: nat)
    returns (best': Best, pq': seq<Entry>, ghost added: seq<Entry>)
    requires Inv(s, nn, best, pq, None, 0) && (nn ==> NonNegative(s.weights))
    requires at < |pq| && e == pq[at] && rest == pq[..at] + pq[at + 1..] && e.node != s.terminal
    ensures Inv(s, nn, best', pq', None, 0)
    ensures Replaces(s.hopLimit, pq, at, pq', added, |Neighbours(s.adj, e.node)|)
  {
    var key := (e.node, e.layer);
    added := [];
    assert rest + [] == rest;
    if key in best && Le(best[key], e.cost) {
      SkipKeeps(s, nn, best, pq, at);
      return best, rest, added;
    }
    RecordKeeps(s, nn, best, pq, at, key);
    RecordTraced(s, nn, best, e);
    best' := best[key := e.cost];
    if e.layer >= s.hopLimit {
      AllNeighbours(s, nn, best', rest, key, 0);
      return best', rest, added;
    }
    pq', added := RelaxAll(s, nn, best', rest, e);
    AllNeighbours(s, nn, best', pq', key, |Neighbours(s.adj, e.node)|);
  }

  lemma RoomPositive(h: int, d: nat, l: nat)
    ensures Room(h, d, l) > 0
  {
  }

  lemma NothingFound(s: Search, nn: bool, best: Best)
    requires Inv(s, nn, best, [], None, 0) && (nn ==> NonNegative(s.weights))
    ensures forall q :: !Graft(s, q)
  {
    forall q ensures !Graft(s, q) {
      if Graft(s, q) {
        GraftAhead(s, nn, best, [], q);
      }
    }
  }

  /** The search.  It finds a connection if and only if there is one; what it returns follows edges
      of the graph within the hop limit, keeps tree nodes at their depth and, if no weight is
      negative, costs no more than any connection. */
  method DijkstraToTerminal(s: Search) returns (r: Option<(seq<nat>, Cost)>, ghost visits: seq<Visit>)
    ensures r.None? <==> forall q :: !Graft(s, q)
    ensures r.Some? ==> PathOk(s, visits) && visits[|visits| - 1].0 == s.terminal && r.value.0 == NodesOf(visits)
    ensures r.Some? ==> r.value.1 == CostOf(s.weights, r.value.0)
    ensures r.Some? && NonNegative(s.weights) ==> forall q :: Graft(s, q) ==> Le(r.value.1, CostOf(s.weights, q))
  {
    ghost var nn := NonNegative(s.weights);
    ghost var d := DegreeBound(s.adj);
    var pq := InitialQueue(s, nn);
    var best: Best := map[];
    while pq != []
      invariant Inv(s, nn, best, pq, None, 0)
      decreases Potential(s.hopLimit, d, pq)
    {
      var e, rest, at := PopLeast(pq);
      if e.node == s.terminal {
        FoundIsLeast(s, nn, best, pq, e);
        return Some((NodesOf(e.path), e.cost)), e.path;
      }
      ghost var before, added := pq, [];
      best, pq, added := Visited(s, nn, best, pq, e, rest, at);
      ReplacingShrinks(s.hopLimit, d, before, at, pq, added, |Neighbours(s.adj, e.node)|);
    }
    NothingFound(s, nn, best);
    r, visits := None, [];
  }
}
