/** What installs guarantee to later tree lookups, and what they leave alone. */
module TableProperties {
  import opened Wrappers
  import opened RouteIds
  import opened RouteTables

  // ---------- one multicast install ----------

  /** The hops that `routes` give to tree `tree`: those of the last route with its id. */
  function LastFor(routes: seq<GroupRoute>, group: nat, tree: nat): Option<Hops>
    decreases routes
  {
    if routes == [] then None
    else
      var later := LastFor(routes[1..], group, tree);
      if later.Some? then later
      else if DeterministicRouteId(group, tree) == Some(routes[0].routeId) then Some(routes[0].nextHops)
      else None
  }

  lemma AddTreeAt(t: Table, group: nat, source: nat, r: GroupRoute, tree: nat)
    requires TreeSlot(group, tree).Some?
    ensures var id, t' := TreeSlot(group, tree).value, AddTree(t, group, source, r);
            if DeterministicRouteId(group, tree) == Some(r.routeId) then id in t'.hops && t'.hops[id] == r.nextHops
            else (id in t'.hops <==> id in t.hops) && (id in t.hops ==> t'.hops[id] == t.hops[id])
  {
    IdsAgree(group, tree);
    var found := TreeIdFromRouteId(group, r.routeId);
    if found.Some? && DeterministicRouteId(group, found.value) == Some(r.routeId)
       && TreeSlot(group, found.value) == TreeSlot(group, tree) {
      SlotsDistinct(group, found.value, group, tree);
    }
  }

  lemma {:induction false} AddTreesAt(t: Table, group: nat, source: nat, routes: seq<GroupRoute>, tree: nat)
    requires TreeSlot(group, tree).Some?
    ensures var id, t' := TreeSlot(group, tree).value, AddTrees(t, group, source, routes);
            match LastFor(routes, group, tree)
            case Some(hops) => id in t'.hops && t'.hops[id] == hops
            case None => (id in t'.hops <==> id in t.hops) && (id in t.hops ==> t'.hops[id] == t.hops[id])
    decreases routes
  {
    if routes != [] {
      AddTreeAt(t, group, source, routes[0], tree);
      AddTreesAt(AddTree(t, group, source, routes[0]), group, source, routes[1..], tree);
    }
  }

  /** Right after an install, every tree it contains is found with its hops, in any table. */
  lemma InstalledTreeFound(t: Table, group: nat, source: nat, routes: seq<GroupRoute>, tree: nat)
    requires TreeSlot(group, tree).Some? && LastFor(routes, group, tree).Some?
    ensures TreeHops(InstallTrees(t, group, source, routes).hops, group, tree)
            == CopyHops(LastFor(routes, group, tree).value)
  {
    AddTreesAt(Purge(t, TreeKeys(t.available, source, group)), group, source, routes, tree);
  }

  /** Trees of other groups, and unicast ids, are not touched by adding trees. */
  lemma {:induction false} AddTreesElsewhere(t: Table, group: nat, source: nat, routes: seq<GroupRoute>, id: nat)
    requires forall tree: nat :: TreeSlot(group, tree) != Some(id)
    ensures var t' := AddTrees(t, group, source, routes);
            (id in t'.hops <==> id in t.hops) && (id in t.hops ==> t'.hops[id] == t.hops[id])
    decreases routes
  {
    if routes != [] {
      var found := TreeIdFromRouteId(group, routes[0].routeId);
      assert found.Some? ==> TreeSlot(group, found.value) != Some(id);
      AddTreesElsewhere(AddTree(t, group, source, routes[0]), group, source, routes[1..], id);
    }
  }

  // ---------- the table invariant ----------

  /** With one source per group (`owner`) and unicast ids below the flag: every unicast id has
      hops, every tree key belongs to its owner and has exactly its own id, which has hops. */
  ghost predicate KeyOk(t: Table, owner: nat -> nat, k: RouteKey)
    requires k in t.available
  {
    match k
    case Unicast(_, _) =>
      forall i :: 0 <= i < |t.available[k]| ==> t.available[k][i] < MULTICAST_ROUTE_FLAG && t.available[k][i] in t.hops
    case Multicast(source, group, tree) =>
      && source == owner(group)
      && TreeSlot(group, tree).Some?
      && t.available[k] == [TreeSlot(group, tree).value]
      && TreeSlot(group, tree).value in t.hops
  }

  /** Hops above the flag belong to an installed tree. */
  ghost predicate HopOk(t: Table, owner: nat -> nat, id: nat) {
    id >= MULTICAST_ROUTE_FLAG ==>
      exists group: nat, tree: nat ::
        TreeSlot(group, tree) == Some(id) && Multicast(owner(group), group, tree) in t.available
  }

  ghost predicate TableOk(t: Table, owner: nat -> nat) {
    && (forall k :: k in t.available ==> KeyOk(t, owner, k))
    && (forall id: nat :: id in t.hops ==> HopOk(t, owner, id))
  }

  /** In such a table a tree key is present exactly when its encoded id has hops. */
  lemma KeyIffHops(t: Table, owner: nat -> nat, group: nat, tree: nat)
    requires TableOk(t, owner) && TreeSlot(group, tree).Some?
    ensures Multicast(owner(group), group, tree) in t.available <==> TreeSlot(group, tree).value in t.hops
  {
    var id := TreeSlot(group, tree).value;
    if Multicast(owner(group), group, tree) in t.available {
      assert KeyOk(t, owner, Multicast(owner(group), group, tree));
    }
    if id in t.hops {
      assert HopOk(t, owner, id);
      var group': nat, tree': nat :| TreeSlot(group', tree') == Some(id)
        && Multicast(owner(group'), group', tree') in t.available;
      SlotsDistinct(group, tree, group', tree');
    }
  }

  // ---------- installs keep the invariant ----------

  lemma UnicastIdsLow(t: Table, owner: nat -> nat)
    requires TableOk(t, owner)
    ensures forall id :: id in IdsOf(t.available, UnicastKeys(t.available)) ==> id < MULTICAST_ROUTE_FLAG
  {
    forall id | id in IdsOf(t.available, UnicastKeys(t.available)) ensures id < MULTICAST_ROUTE_FLAG {
      var k, i :| k in UnicastKeys(t.available) && k in t.available && 0 <= i < |t.available[k]|
        && t.available[k][i] == id;
      assert KeyOk(t, owner, k);
    }
  }

  /** The ids filed under the trees of a group are the slots of that group's installed trees. */
  lemma TreeIdsOwn(t: Table, owner: nat -> nat, group: nat, id: nat)
    requires TableOk(t, owner)
    ensures id in IdsOf(t.available, TreeKeys(t.available, owner(group), group)) <==>
            exists tree: nat :: Multicast(owner(group), group, tree) in t.available && TreeSlot(group, tree) == Some(id)
  {
    var keys := TreeKeys(t.available, owner(group), group);
    if id in IdsOf(t.available, keys) {
      var k, i :| k in keys && k in t.available && 0 <= i < |t.available[k]| && t.available[k][i] == id;
      assert KeyOk(t, owner, k);
      assert Multicast(owner(group), group, k.tree) in t.available;
    }
    if exists tree: nat :: Multicast(owner(group), group, tree) in t.available && TreeSlot(group, tree) == Some(id) {
      var tree: nat :| Multicast(owner(group), group, tree) in t.available && TreeSlot(group, tree) == Some(id);
      var k := Multicast(owner(group), group, tree);
      assert KeyOk(t, owner, k);
      assert t.available[k][0] == id;
    }
  }

  lemma PurgeTreesOk(t: Table, owner: nat -> nat, group: nat)
    requires TableOk(t, owner)
    ensures TableOk(Purge(t, TreeKeys(t.available, owner(group), group)), owner)
  {
    var keys := TreeKeys(t.available, owner(group), group);
    var t' := Purge(t, keys);
    forall k | k in t'.available ensures KeyOk(t', owner, k) {
      assert KeyOk(t, owner, k);
      match k
      case Unicast(_, _) =>
        forall i | 0 <= i < |t.available[k]| ensures t.available[k][i] in t'.hops {
          TreeIdsOwn(t, owner, group, t.available[k][i]);
        }
      case Multicast(_, g', tree') =>
        TreeIdsOwn(t, owner, group, TreeSlot(g', tree').value);
        forall tree: nat | TreeSlot(group, tree) == TreeSlot(g', tree') ensures group == g' {
          SlotsDistinct(group, tree, g', tree');
        }
    }
    forall id: nat | id in t'.hops ensures HopOk(t', owner, id) {
      assert HopOk(t, owner, id);
      if id >= MULTICAST_ROUTE_FLAG {
        var g': nat, tree': nat :| TreeSlot(g', tree') == Some(id) && Multicast(owner(g'), g', tree') in t.available;
        TreeIdsOwn(t, owner, group, id);
        assert Multicast(owner(g'), g', tree') in t'.available;
      }
    }
  }

  lemma AddTreeOk(t: Table, owner: nat -> nat, group: nat, r: GroupRoute)
    requires TableOk(t, owner)
    ensures TableOk(AddTree(t, group, owner(group), r), owner)
  {
    var t' := AddTree(t, group, owner(group), r);
    forall k | k in t'.available ensures KeyOk(t', owner, k) {
      if k in t.available {
        assert KeyOk(t, owner, k);
      }
    }
    forall id: nat | id in t'.hops ensures HopOk(t', owner, id) {
      if id in t.hops {
        assert HopOk(t, owner, id);
        if id >= MULTICAST_ROUTE_FLAG {
          var g': nat, tree': nat :| TreeSlot(g', tree') == Some(id) && Multicast(owner(g'), g', tree') in t.available;
          assert Multicast(owner(g'), g', tree') in t'.available;
        }
      } else {
        var tree := TreeIdFromRouteId(group, r.routeId).value;
        assert TreeSlot(group, tree) == Some(id) && Multicast(owner(group), group, tree) in t'.available;
      }
    }
  }

  lemma {:induction false} AddTreesOk(t: Table, owner: nat -> nat, group: nat, routes: seq<GroupRoute>)
    requires TableOk(t, owner)
    ensures TableOk(AddTrees(t, group, owner(group), routes), owner)
    decreases routes
  {
    if routes != [] {
      AddTreeOk(t, owner, group, routes[0]);
      AddTreesOk(AddTree(t, group, owner(group), routes[0]), owner, group, routes[1..]);
    }
  }

  /** A multicast install by the group's owner keeps the table in order. */
  lemma InstallTreesOk(t: Table, owner: nat -> nat, group: nat, routes: seq<GroupRoute>)
    requires TableOk(t, owner)
    ensures TableOk(InstallTrees(t, group, owner(group), routes), owner)
  {
    var purged := Purge(t, TreeKeys(t.available, owner(group), group));
    PurgeTreesOk(t, owner, group);
    AddTreesOk(purged, owner, group, routes);
    var added := AddTrees(purged, group, owner(group), routes);
    PinsDoNotMatter(added, owner);
  }

  lemma PinsDoNotMatter(t: Table, owner: nat -> nat)
    requires TableOk(t, owner)
    ensures TableOk(t.(pins := map[]), owner)
  {
    var t' := t.(pins := map[]);
    forall k | k in t'.available ensures KeyOk(t', owner, k) {
      assert KeyOk(t, owner, k);
    }
    forall id: nat | id in t'.hops ensures HopOk(t', owner, id) {
      assert HopOk(t, owner, id);
    }
  }

  lemma PurgeUnicastOk(t: Table, owner: nat -> nat)
    requires TableOk(t, owner)
    ensures TableOk(Purge(t, UnicastKeys(t.available)), owner)
  {
    var t' := Purge(t, UnicastKeys(t.available));
    UnicastIdsLow(t, owner);
    forall k | k in t'.available ensures KeyOk(t', owner, k) {
      assert KeyOk(t, owner, k);
    }
    forall id: nat | id in t'.hops ensures HopOk(t', owner, id) {
      assert HopOk(t, owner, id);
      if id >= MULTICAST_ROUTE_FLAG {
        var g: nat, tree: nat :| TreeSlot(g, tree) == Some(id) && Multicast(owner(g), g, tree) in t.available;
        assert Multicast(owner(g), g, tree) in t'.available;
      }
    }
  }

  lemma AddRouteOk(t: Table, owner: nat -> nat, r: RouteEntry)
    requires TableOk(t, owner) && r.routeId < MULTICAST_ROUTE_FLAG
    ensures TableOk(AddRoute(t, r), owner)
  {
    var t' := AddRoute(t, r);
    forall k | k in t'.available ensures KeyOk(t', owner, k) {
      if k in t.available {
        assert KeyOk(t, owner, k);
      }
    }
    forall id: nat | id in t'.hops ensures HopOk(t', owner, id) {
      if id in t.hops {
        assert HopOk(t, owner, id);
        if id >= MULTICAST_ROUTE_FLAG {
          var g: nat, tree: nat :| TreeSlot(g, tree) == Some(id) && Multicast(owner(g), g, tree) in t.available;
          assert Multicast(owner(g), g, tree) in t'.available;
        }
      }
    }
  }

  predicate AllLow(routes: seq<RouteEntry>) {
    forall i :: 0 <= i < |routes| ==> routes[i].routeId < MULTICAST_ROUTE_FLAG
  }

  lemma {:induction false} AddRoutesOk(t: Table, owner: nat -> nat, routes: seq<RouteEntry>)
    requires TableOk(t, owner) && AllLow(routes)
    ensures TableOk(AddRoutes(t, routes), owner)
    ensures forall id: nat :: id >= MULTICAST_ROUTE_FLAG ==>
              (id in AddRoutes(t, routes).hops <==> id in t.hops)
              && (id in t.hops ==> AddRoutes(t, routes).hops[id] == t.hops[id])
    decreases routes
  {
    if routes != [] {
      AddRouteOk(t, owner, routes[0]);
      AddRoutesOk(AddRoute(t, routes[0]), owner, routes[1..]);
    }
  }

  /** A unicast install with ids below the flag keeps the table in order and every tree lookup
      as it was. */
  lemma InstallRoutesOk(t: Table, owner: nat -> nat, routes: seq<RouteEntry>)
    requires TableOk(t, owner) && AllLow(routes)
    ensures TableOk(InstallRoutes(t, routes), owner)
    ensures forall group: nat, tree: nat ::
              TreeHops(InstallRoutes(t, routes).hops, group, tree) == TreeHops(t.hops, group, tree)
  {
    var purged := Purge(t, UnicastKeys(t.available));
    PurgeUnicastOk(t, owner);
    UnicastIdsLow(t, owner);
    AddRoutesOk(purged, owner, routes);
    PinsDoNotMatter(AddRoutes(purged, routes), owner);
  }

  /** A multicast install keeps the hops of every unicast route and of every other group. */
  lemma InstallTreesElsewhere(t: Table, owner: nat -> nat, group: nat, routes: seq<GroupRoute>, id: nat)
    requires TableOk(t, owner)
    requires forall tree: nat :: TreeSlot(group, tree) != Some(id)
    ensures RouteHops(InstallTrees(t, group, owner(group), routes).hops, id) == RouteHops(t.hops, id)
  {
    TreeIdsOwn(t, owner, group, id);
    AddTreesElsewhere(Purge(t, TreeKeys(t.available, owner(group), group)), group, owner(group), routes, id);
  }

  /** After an install by the owner, an explicit tree lookup finds exactly what was installed. */
  lemma OwnerInstallExact(t: Table, owner: nat -> nat, group: nat, routes: seq<GroupRoute>, tree: nat)
    requires TableOk(t, owner)
    ensures TreeHops(InstallTrees(t, group, owner(group), routes).hops, group, tree)
            == match LastFor(routes, group, tree)
               case Some(hops) => CopyHops(hops)
               case None => Failed(UnknownTree)
  {
    if TreeSlot(group, tree).Some? {
      var id := TreeSlot(group, tree).value;
      var purged := Purge(t, TreeKeys(t.available, owner(group), group));
      AddTreesAt(purged, group, owner(group), routes, tree);
      KeyIffHops(t, owner, group, tree);
      TreeIdsOwn(t, owner, group, id);
    } else {
      NoSlotNoRoute(routes, group, tree);
    }
  }

  lemma {:induction false} NoSlotNoRoute(routes: seq<GroupRoute>, group: nat, tree: nat)
    requires TreeSlot(group, tree).None?
    ensures LastFor(routes, group, tree).None?
    decreases routes
  {
    if routes != [] {
      NoSlotNoRoute(routes[1..], group, tree);
    }
  }

  // ---------- two sources of one group ----------

  /** When a source of a group installs, the lookup of a tree of that group, whichever source it
      belongs to, stays as it was if and only if the install gives the tree the same answer or,
      when it does not contain the tree, does not purge its hops: they go whenever the installing
      source had the tree before, because hops are filed by group and tree only. */
  lemma SecondSourceExact(t: Table, group: nat, second: nat, routes: seq<GroupRoute>, tree: nat)
    ensures TreeHops(InstallTrees(t, group, second, routes).hops, group, tree) == TreeHops(t.hops, group, tree)
            <==> match LastFor(routes, group, tree)
                 case Some(hops) => CopyHops(hops) == TreeHops(t.hops, group, tree)
                 case None =>
                   var slot := TreeSlot(group, tree);
                   slot.None? || slot.value !in t.hops
                   || slot.value !in IdsOf(t.available, TreeKeys(t.available, second, group))
  {
    if TreeSlot(group, tree).Some? {
      AddTreesAt(Purge(t, TreeKeys(t.available, second, group)), group, second, routes, tree);
      if TreeSlot(group, tree).value in t.hops {
        NotUnknown(t.hops[TreeSlot(group, tree).value]);
      }
    } else {
      NoSlotNoRoute(routes, group, tree);
    }
  }

  lemma NotUnknown(hops: Hops)
    ensures CopyHops(hops) != Failed(UnknownTree)
  {
  }

  /** Two sources, one group, one tree: the first source's packets then follow the second
      source's hops. */
  lemma SecondSourceOverwrites(a: nat, b: nat)
    requires a != b && a < INVALID && b < INVALID
    ensures var empty := Table(map[], map[], map[], map[]);
            var t1 := InstallTrees(empty, 0, 1, [GroupRoute(0, [a])]);
            var t2 := InstallTrees(t1, 0, 2, [GroupRoute(0, [b])]);
            && TreeHops(t1.hops, 0, 0) == Found([a])
            && Multicast(1, 0, 0) in t2.available
            && TreeHops(t2.hops, 0, 0) == Found([b])
  {
    var empty := Table(map[], map[], map[], map[]);
    var t1 := InstallTrees(empty, 0, 1, [GroupRoute(0, [a])]);
    InstalledTreeFound(empty, 0, 1, [GroupRoute(0, [a])], 0);
    InstalledTreeFound(t1, 0, 2, [GroupRoute(0, [b])], 0);
    OneTree(empty, 1, GroupRoute(0, [a]));
    OneTree(t1, 2, GroupRoute(0, [b]));
  }

  /** The second source installed first, then the first one: when the second source withdraws all
      its trees, the first source's tree is gone as well. */
  lemma SecondSourceWithdraws(a: nat, b: nat)
    requires a < INVALID && b < INVALID
    ensures var empty := Table(map[], map[], map[], map[]);
            var t1 := InstallTrees(InstallTrees(empty, 0, 2, [GroupRoute(0, [b])]), 0, 1, [GroupRoute(0, [a])]);
            var t2 := InstallTrees(t1, 0, 2, []);
            && TreeHops(t1.hops, 0, 0) == Found([a])
            && Multicast(1, 0, 0) in t2.available
            && TreeHops(t2.hops, 0, 0) == Failed(UnknownTree)
  {
    var empty := Table(map[], map[], map[], map[]);
    var t0 := InstallTrees(empty, 0, 2, [GroupRoute(0, [b])]);
    var t1 := InstallTrees(t0, 0, 1, [GroupRoute(0, [a])]);
    OneTree(empty, 2, GroupRoute(0, [b]));
    OneTree(t0, 1, GroupRoute(0, [a]));
    InstalledTreeFound(t0, 0, 1, [GroupRoute(0, [a])], 0);
    var k := Multicast(2, 0, 0);
    assert k in TreeKeys(t1.available, 2, 0) && t1.available[k][0] == TreeSlot(0, 0).value;
    assert TreeSlot(0, 0).value in IdsOf(t1.available, TreeKeys(t1.available, 2, 0));
  }

  lemma OneTree(t: Table, source: nat, r: GroupRoute)
    requires r.routeId == 0
    ensures var t' := InstallTrees(t, 0, source, [r]);
            && Multicast(source, 0, 0) in t'.available
            && t'.available[Multicast(source, 0, 0)] == [Encode(0)]
            && forall k :: k in t.available && k.Multicast? && k.source != source ==>
                 k in t'.available && t'.available[k] == t.available[k]
  {
    var purged := Purge(t, TreeKeys(t.available, source, 0));
    assert AddTrees(purged, 0, source, [r]) == AddTree(purged, 0, source, r);
  }

  // ---------- every reachable table ----------

  datatype Update =
    | UnicastUpdate(routes: seq<RouteEntry>)
    | GroupUpdate(group: nat, source: nat, trees: seq<GroupRoute>)
    | DirectoryUpdate(entries: seq<GroupEntry>)
    | PinUpdate(flow: nat, routeId: nat)

  ghost function Updated(t: Table, u: Update): Table {
    match u
    case UnicastUpdate(routes) => InstallRoutes(t, routes)
    case GroupUpdate(group, source, trees) => InstallTrees(t, group, source, trees)
    case DirectoryUpdate(entries) => t.(groupDir := Directory(entries))
    case PinUpdate(flow, routeId) =>
      if routeId in t.hops && t.hops[routeId] != [] && INVALID !in t.hops[routeId]
      then t.(pins := t.pins[flow := routeId]) else t
  }

  /** The table after a history of updates, starting from the empty one. */
  ghost function Replay(updates: seq<Update>): Table {
    if updates == [] then Table(map[], map[], map[], map[])
    else Updated(Replay(updates[..|updates| - 1]), updates[|updates| - 1])
  }

  predicate Orderly(u: Update, owner: nat -> nat) {
    match u
    case UnicastUpdate(routes) => AllLow(routes)
    case GroupUpdate(group, source, trees) => source == owner(group)
    case _ => true
  }

  /** Every history with unicast ids below the flag and one source per group leaves an orderly
      table, so that a tree key is present exactly when its encoded id has hops. */
  lemma {:induction false} ReplayOk(updates: seq<Update>, owner: nat -> nat)
    requires forall i :: 0 <= i < |updates| ==> Orderly(updates[i], owner)
    ensures TableOk(Replay(updates), owner)
    decreases |updates|
  {
    if updates != [] {
      var init, last := updates[..|updates| - 1], updates[|updates| - 1];
      ReplayOk(init, owner);
      UpdateOk(Replay(init), last, owner);
    }
  }

  lemma UpdateOk(t: Table, u: Update, owner: nat -> nat)
    requires TableOk(t, owner) && Orderly(u, owner)
    ensures TableOk(Updated(t, u), owner)
  {
    match u
    case UnicastUpdate(routes) => InstallRoutesOk(t, owner, routes);
    case GroupUpdate(group, source, trees) => InstallTreesOk(t, owner, group, trees);
    case _ =>
      var t' := Updated(t, u);
      forall k | k in t'.available ensures KeyOk(t', owner, k) {
        assert KeyOk(t, owner, k);
      }
      forall id: nat | id in t'.hops ensures HopOk(t', owner, id) {
        assert HopOk(t, owner, id);
      }
  }
}
