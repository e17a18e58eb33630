/** How the controller turns the trees of a multicast group into one routing entry per node and
    tree (controller/src/utils.rs).  Graphs are edge lists; the neighbours of a node come out as
    petgraph lists them, latest edge first. */
module GroupRoutes {
  import opened Wrappers
  import opened Arborescences
  import opened RouteIds
  import opened RouteTables
  import opened TableProperties
  import opened StableSort

  datatype Tree = Tree(id: nat, edges: seq<Edge>)

  datatype TreesError = DuplicateTree(id: nat) | BadTreeId(id: nat, error: IdError)

  datatype TreesResult = Accepted(trees: seq<Tree>) | Rejected(error: TreesError)

  // ---------- canonical trees ----------

  const BY_ID := (a: Tree, b: Tree) => a.id <= b.id

  function SortById(trees: seq<Tree>): seq<Tree> {
    Sort(BY_ID, trees)
  }

  predicate Ascending(trees: seq<Tree>) {
    forall i, j :: 0 <= i < j < |trees| ==> trees[i].id <= trees[j].id
  }

  predicate StrictlyAscending(trees: seq<Tree>) {
    forall i, j :: 0 <= i < j < |trees| ==> trees[i].id < trees[j].id
  }

  lemma SortedById(trees: seq<Tree>)
    ensures Ascending(SortById(trees)) && multiset(SortById(trees)) == multiset(trees)
  {
    SortSorts(BY_ID, trees);
    assert Sorted(BY_ID, SortById(trees));
  }

  /** The first error met when walking the ordered trees. */
  function FirstProblem(group: nat, ordered: seq<Tree>, i: nat): Option<TreesError>
    requires i <= |ordered|
    decreases |ordered| - i
  {
    if i == |ordered| then None
    else if i > 0 && ordered[i - 1].id == ordered[i].id then Some(DuplicateTree(ordered[i].id))
    else if ComputeRouteId(group, ordered[i].id).Err? then
      Some(BadTreeId(ordered[i].id, ComputeRouteId(group, ordered[i].id).error))
    else FirstProblem(group, ordered, i + 1)
  }

  function Canonical(group: nat, trees: seq<Tree>): TreesResult {
    var ordered := SortById(trees);
    match FirstProblem(group, ordered, 0)
    case Some(e) => Rejected(e)
    case None => Accepted(ordered)
  }

  /** `canonicalize_group_route_trees`: sorts, then walks the list once. */
  method Canonicalize(group: nat, trees: seq<Tree>) returns (r: TreesResult)
    ensures r == Canonical(group, trees)
  {
    var ordered := SortById(trees);
    var previous: Option<nat> := None;
    for i := 0 to |ordered|
      invariant previous == if i == 0 then None else Some(ordered[i - 1].id)
      invariant FirstProblem(group, ordered, 0) == FirstProblem(group, ordered, i)
    {
      if previous == Some(ordered[i].id) {
        return Rejected(DuplicateTree(ordered[i].id));
      }
      var routeId := ComputeRouteId(group, ordered[i].id);
      if routeId.Err? {
        return Rejected(BadTreeId(ordered[i].id, routeId.error));
      }
      previous := Some(ordered[i].id);
    }
    r := Accepted(ordered);
  }

  /** No two trees share an id: equal ids mean the same, unrepeated, list element. */
  ghost predicate DistinctIds(trees: multiset<Tree>) {
    && (forall a, b :: a in trees && b in trees && a.id == b.id ==> a == b)
    && (forall a :: a in trees ==> trees[a] == 1)
  }

  ghost predicate IdsFit(group: nat, trees: multiset<Tree>) {
    forall a :: a in trees ==> ComputeRouteId(group, a.id).Ok?
  }

  /** Trees are accepted exactly when no two share an id and every id has a route id; they come
      out as the same trees, strictly ascending. */
  lemma CanonicalExact(group: nat, trees: seq<Tree>)
    ensures var r := Canonical(group, trees);
            && (r.Accepted? <==> DistinctIds(multiset(trees)) && IdsFit(group, multiset(trees)))
            && (r.Accepted? ==> StrictlyAscending(r.trees) && multiset(r.trees) == multiset(trees))
            && (r.Accepted? ==> forall i :: 0 <= i < |r.trees| ==>
                  TreeSlot(group, r.trees[i].id).Some? && ComputeRouteId(group, r.trees[i].id).Ok?)
  {
    var ordered := SortById(trees);
    SortedById(trees);
    if FirstProblem(group, ordered, 0).None? {
      NoProblem(group, ordered, 0);
      Steps(ordered);
      AllSingle(ordered);
    } else {
      Problem(group, ordered, 0);
    }
  }

  lemma {:induction false} NoProblem(group: nat, ordered: seq<Tree>, i: nat)
    requires i <= |ordered| && FirstProblem(group, ordered, i).None?
    ensures forall j :: i <= j < |ordered| ==>
              ComputeRouteId(group, ordered[j].id).Ok? && TreeSlot(group, ordered[j].id).Some?
    ensures forall j :: i <= j < |ordered| && j > 0 ==> ordered[j - 1].id != ordered[j].id
    decreases |ordered| - i
  {
    if i < |ordered| {
      NoProblem(group, ordered, i + 1);
      IdsAgree(group, ordered[i].id);
    }
  }

  lemma Steps(ordered: seq<Tree>)
    requires Ascending(ordered) && forall j :: 0 < j < |ordered| ==> ordered[j - 1].id != ordered[j].id
    ensures StrictlyAscending(ordered)
  {
    forall i, j | 0 <= i < j < |ordered| ensures ordered[i].id < ordered[j].id {
      assert ordered[i].id <= ordered[j - 1].id;
      assert ordered[j - 1].id <= ordered[j].id;
    }
  }

  lemma {:induction false} Problem(group: nat, ordered: seq<Tree>, i: nat)
    requires i <= |ordered| && FirstProblem(group, ordered, i).Some?
    ensures !(DistinctIds(multiset(ordered)) && IdsFit(group, multiset(ordered)))
    decreases |ordered| - i
  {
    if i > 0 && ordered[i - 1].id == ordered[i].id {
      SharedId(ordered, i - 1, i);
    } else if ComputeRouteId(group, ordered[i].id).Err? {
      assert ordered[i] in multiset(ordered);
    } else {
      Problem(group, ordered, i + 1);
    }
  }

  lemma SharedId(trees: seq<Tree>, i: nat, j: nat)
    requires i < j < |trees| && trees[i].id == trees[j].id
    ensures trees[i] in multiset(trees) && trees[j] in multiset(trees)
    ensures trees[i] == trees[j] ==> multiset(trees)[trees[i]] >= 2
  {
    assert trees == trees[..i] + [trees[i]] + trees[i + 1..j] + [trees[j]] + trees[j + 1..];
  }

  lemma OnlyOnce(trees: seq<Tree>, i: nat)
    requires StrictlyAscending(trees) && i < |trees|
    ensures multiset(trees)[trees[i]] == 1
  {
    assert trees == trees[..i] + [trees[i]] + trees[i + 1..];
    assert trees[i] !in multiset(trees[..i]);
    assert trees[i] !in multiset(trees[i + 1..]);
  }

  lemma AllSingle(trees: seq<Tree>)
    requires StrictlyAscending(trees)
    ensures DistinctIds(multiset(trees))
  {
    forall a | a in multiset(trees) ensures multiset(trees)[a] == 1 {
      var i :| 0 <= i < |trees| && trees[i] == a;
      OnlyOnce(trees, i);
    }
    forall a, b | a in multiset(trees) && b in multiset(trees) && a.id == b.id ensures a == b {
      var i :| 0 <= i < |trees| && trees[i] == a;
      var j :| 0 <= j < |trees| && trees[j] == b;
      assert !(i < j) && !(j < i);
    }
  }

  // ---------- the error ----------

  ghost predicate Unfit(group: nat, trees: multiset<Tree>, id: nat) {
    ComputeRouteId(group, id).Err? && exists a :: a in trees && a.id == id
  }

  /** Two list elements have the id. */
  ghost predicate Repeated(trees: multiset<Tree>, id: nat) {
    exists a, b :: a in trees && b in trees && a.id == id && b.id == id && (a != b || trees[a] > 1)
  }

  /** The trees are refused for the least tree id that is repeated or has no route id; the missing
      route id is reported first. */
  lemma RejectionExact(group: nat, trees: seq<Tree>)
    requires Canonical(group, trees).Rejected?
    ensures var e, all := Canonical(group, trees).error, multiset(trees);
            && (Unfit(group, all, e.id) || Repeated(all, e.id))
            && (forall id: nat :: id < e.id ==> !Unfit(group, all, id) && !Repeated(all, id))
            && e == if Unfit(group, all, e.id) then BadTreeId(e.id, ComputeRouteId(group, e.id).error)
                    else DuplicateTree(e.id)
  {
    var ordered := SortById(trees);
    SortedById(trees);
    var i := ProblemAt(group, ordered, 0);
    forall id: nat | id < ordered[i].id
      ensures !Unfit(group, multiset(ordered), id) && !Repeated(multiset(ordered), id)
    {
      ProblemIsLeast(group, ordered, i, id);
    }
    if i > 0 && ordered[i - 1].id == ordered[i].id {
      SharedId(ordered, i - 1, i);
    }
    assert ordered[i] in multiset(ordered);
  }

  ghost predicate IsProblem(group: nat, ordered: seq<Tree>, i: nat, e: TreesError)
    requires i < |ordered|
  {
    var routeId := ComputeRouteId(group, ordered[i].id);
    if i > 0 && ordered[i - 1].id == ordered[i].id then e == DuplicateTree(ordered[i].id)
    else routeId.Err? && e == BadTreeId(ordered[i].id, routeId.error)
  }

  /** Where the walk stops. */
  lemma {:induction false} ProblemAt(group: nat, ordered: seq<Tree>, k: nat) returns (i: nat)
    requires k <= |ordered| && FirstProblem(group, ordered, k).Some?
    ensures k <= i < |ordered|
    ensures var e := FirstProblem(group, ordered, k).value;
            && e.id == ordered[i].id
            && IsProblem(group, ordered, i, e)
    ensures forall j :: k <= j < i ==>
              ComputeRouteId(group, ordered[j].id).Ok? && (j > 0 ==> ordered[j - 1].id != ordered[j].id)
    decreases |ordered| - k
  {
    if k > 0 && ordered[k - 1].id == ordered[k].id {
      i := k;
    } else if ComputeRouteId(group, ordered[k].id).Err? {
      i := k;
    } else {
      i := ProblemAt(group, ordered, k + 1);
    }
  }

  lemma LesserIsBefore(ordered: seq<Tree>, i: nat, a: Tree)
    requires Ascending(ordered) && i < |ordered| && a in multiset(ordered) && a.id < ordered[i].id
    ensures a in multiset(ordered[..i]) && multiset(ordered)[a] == multiset(ordered[..i])[a]
  {
    assert ordered == ordered[..i] + ordered[i..];
    assert a !in ordered[i..] by {
      forall j | 0 <= j < |ordered[i..]| ensures ordered[i..][j] != a {
        assert ordered[i..][j] == ordered[i + j] && ordered[i].id <= ordered[i + j].id;
      }
    }
  }

  lemma FitBefore(group: nat, ordered: seq<Tree>, i: nat, a: Tree)
    requires Ascending(ordered) && i < |ordered| && a in multiset(ordered) && a.id < ordered[i].id
    requires forall j :: 0 <= j < i ==> ComputeRouteId(group, ordered[j].id).Ok?
    ensures ComputeRouteId(group, a.id).Ok?
  {
    LesserIsBefore(ordered, i, a);
    var j :| 0 <= j < |ordered[..i]| && ordered[..i][j] == a;
  }

  lemma OnceBefore(ordered: seq<Tree>, i: nat, a: Tree, b: Tree)
    requires Ascending(ordered) && i < |ordered| && a in multiset(ordered) && b in multiset(ordered)
    requires forall j :: 0 < j < i ==> ordered[j - 1].id != ordered[j].id
    requires a.id == b.id < ordered[i].id
    ensures a == b && multiset(ordered)[a] == 1
  {
    LesserIsBefore(ordered, i, a);
    LesserIsBefore(ordered, i, b);
    Steps(ordered[..i]);
    AllSingle(ordered[..i]);
  }

  /** The ids before that place are fit and different. */
  lemma ProblemIsLeast(group: nat, ordered: seq<Tree>, i: nat, id: nat)
    requires Ascending(ordered) && i < |ordered| && id < ordered[i].id
    requires forall j :: 0 <= j < i ==> ComputeRouteId(group, ordered[j].id).Ok?
    requires forall j :: 0 < j < i ==> ordered[j - 1].id != ordered[j].id
    ensures !Unfit(group, multiset(ordered), id) && !Repeated(multiset(ordered), id)
  {
    if Unfit(group, multiset(ordered), id) {
      var a :| a in multiset(ordered) && a.id == id;
      FitBefore(group, ordered, i, a);
    }
    if Repeated(multiset(ordered), id) {
      var a, b :| a in multiset(ordered) && b in multiset(ordered) && a.id == id && b.id == id
        && (a != b || multiset(ordered)[a] > 1);
      OnceBefore(ordered, i, a, b);
    }
  }

  // ---------- one entry per node and tree ----------

  /** The targets of the edges leaving `n`, latest edge first. */
  function OutNeighbours(edges: seq<Edge>, n: nat): (r: seq<nat>)
    ensures forall m :: m in r <==> (n, m) in edges
  {
    if edges == [] then []
    else
      var last := edges[|edges| - 1];
      assert edges == edges[..|edges| - 1] + [last];
      (if last.0 == n then [last.1] else []) + OutNeighbours(edges[..|edges| - 1], n)
  }

  /** Later edges come first, and every edge counts. */
  lemma {:induction false} NeighboursOfTwo(a: seq<Edge>, b: seq<Edge>, n: nat)
    ensures OutNeighbours(a + b, n) == OutNeighbours(b, n) + OutNeighbours(a, n)
    decreases b
  {
    if b == [] {
      assert a + b == a;
    } else {
      assert (a + b)[..|a + b| - 1] == a + b[..|b| - 1];
      NeighboursOfTwo(a, b[..|b| - 1], n);
    }
  }

  lemma NeighboursOfOne(e: Edge, n: nat)
    ensures OutNeighbours([e], n) == if e.0 == n then [e.1] else []
  {
    assert OutNeighbours([e][..0], n) == [];
  }

  /** The next hops of node `n`: its neighbours in the tree, and itself if it is a member. */
  function NodeHops(edges: seq<Edge>, n: nat, members: set<nat>): seq<nat> {
    OutNeighbours(edges, n) + if n in members then [n] else []
  }

  /** A member comes after its neighbours, so its own copy is the last one. */
  lemma MemberLast(edges: seq<Edge>, n: nat, members: set<nat>)
    ensures var hops, ns := NodeHops(edges, n, members), OutNeighbours(edges, n);
            && |hops| == |ns| + (if n in members then 1 else 0) && hops[..|ns|] == ns
            && (n in members ==> hops[|ns|] == n)
  {
  }

  /** `build_group_routes_for_node_with_route_id`: no entry without hops. */
  function NodeRoute(routeId: nat, edges: seq<Edge>, n: nat, members: set<nat>): Option<GroupRoute> {
    if NodeHops(edges, n, members) == [] then None
    else Some(GroupRoute(routeId, NodeHops(edges, n, members)))
  }

  function NodeRoutes(group: nat, trees: seq<Tree>, n: nat, members: set<nat>): seq<GroupRoute>
    decreases trees
  {
    if trees == [] then []
    else
      var rest := NodeRoutes(group, trees[1..], n, members);
      match ComputeRouteId(group, trees[0].id)
      case Err(_) => rest
      case Ok(id) =>
        match NodeRoute(id, trees[0].edges, n, members)
        case Some(r) => [r] + rest
        case None => rest
  }

  datatype RoutesResult = Built(routes: seq<GroupRoute>) | Refused(error: TreesError)

  /** `build_group_routes_for_node_multitree`. */
  method BuildNodeRoutes(group: nat, trees: seq<Tree>, n: nat, members: set<nat>) returns (r: RoutesResult)
    ensures var canonical := Canonical(group, trees);
            r == if canonical.Accepted? then Built(NodeRoutes(group, canonical.trees, n, members))
                 else Refused(canonical.error)
  {
    var canonical := Canonicalize(group, trees);
    if canonical.Rejected? {
      return Refused(canonical.error);
    }
    CanonicalExact(group, trees);
    var routes := BuildOrdered(group, canonical.trees, n, members);
    r := Built(routes);
  }

  method BuildOrdered(group: nat, ordered: seq<Tree>, n: nat, members: set<nat>) returns (routes: seq<GroupRoute>)
    requires forall i :: 0 <= i < |ordered| ==> ComputeRouteId(group, ordered[i].id).Ok?
    ensures routes == NodeRoutes(group, ordered, n, members)
  {
    routes := [];
    var i := 0;
    while i < |ordered|
      invariant 0 <= i <= |ordered|
      invariant routes + NodeRoutes(group, ordered[i..], n, members) == NodeRoutes(group, ordered, n, members)
    {
      assert ordered[i..][1..] == ordered[i + 1..];
      var routeId := ComputeRouteId(group, ordered[i].id).routeId;
      var route := NodeRoute(routeId, ordered[i].edges, n, members);
      if route.Some? {
        routes := routes + [route.value];
      }
      i := i + 1;
    }
  }

  /** Node ids are 32-bit, so no hop is the invalid marker. */
  predicate SmallNodes(trees: seq<Tree>, n: nat) {
    && n < 0x1_0000_0000
    && forall i, j :: 0 <= i < |trees| && 0 <= j < |trees[i].edges| ==> trees[i].edges[j].1 < 0x1_0000_0000
  }

  /** In the built routes, tree `trees[i]` has exactly its node hops, if it has any. */
  lemma {:induction false} BuiltHops(group: nat, trees: seq<Tree>, n: nat, members: set<nat>, tree: nat)
    requires StrictlyAscending(trees)
    requires forall i :: 0 <= i < |trees| ==> TreeSlot(group, trees[i].id).Some?
    ensures LastFor(NodeRoutes(group, trees, n, members), group, tree).Some? ==>
              exists i :: 0 <= i < |trees| && trees[i].id == tree
                && NodeHops(trees[i].edges, n, members) != []
                && LastFor(NodeRoutes(group, trees, n, members), group, tree)
                   == Some(NodeHops(trees[i].edges, n, members))
    ensures LastFor(NodeRoutes(group, trees, n, members), group, tree).None? ==>
              forall i :: 0 <= i < |trees| && trees[i].id == tree ==> NodeHops(trees[i].edges, n, members) == []
    decreases trees
  {
    if trees != [] {
      var rest := trees[1..];
      BuiltHops(group, rest, n, members, tree);
      IdsAgree(group, trees[0].id);
      BuiltHead(group, trees, n, members, tree);
      if LastFor(NodeRoutes(group, rest, n, members), group, tree).Some? {
        var i :| 0 <= i < |rest| && rest[i].id == tree && NodeHops(rest[i].edges, n, members) != []
          && LastFor(NodeRoutes(group, rest, n, members), group, tree) == Some(NodeHops(rest[i].edges, n, members));
        assert trees[i + 1] == rest[i];
      } else {
        forall i | 0 < i < |trees| && trees[i].id == tree ensures NodeHops(trees[i].edges, n, members) == [] {
          assert rest[i - 1] == trees[i];
        }
      }
    }
  }

  /** What the first tree adds. */
  lemma BuiltHead(group: nat, trees: seq<Tree>, n: nat, members: set<nat>, tree: nat)
    requires trees != [] && TreeSlot(group, trees[0].id).Some?
    ensures var rest := LastFor(NodeRoutes(group, trees[1..], n, members), group, tree);
            LastFor(NodeRoutes(group, trees, n, members), group, tree)
            == if rest.Some? then rest
               else if trees[0].id == tree && NodeHops(trees[0].edges, n, members) != []
               then Some(NodeHops(trees[0].edges, n, members)) else None
  {
    IdsAgree(group, trees[0].id);
    IdsAgree(group, tree);
    var id := ComputeRouteId(group, trees[0].id).routeId;
    var rest := NodeRoutes(group, trees[1..], n, members);
    if NodeHops(trees[0].edges, n, members) != [] {
      var r := GroupRoute(id, NodeHops(trees[0].edges, n, members));
      assert ([r] + rest)[1..] == rest;
    }
  }
}
