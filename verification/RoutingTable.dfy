/** The routing table with its three caches (dataplane/src/node/route.rs).  Whatever sequence of
    installs, lookups and pins a table goes through, its caches never change an answer. */
module RoutingTable {
  import opened Wrappers
  import opened RouteIds
  import opened RouteTables
  import opened SortedSets

  // ---------- trees and purging ----------

  lemma TreesSame(a: map<RouteKey, seq<nat>>, b: map<RouteKey, seq<nat>>, source: nat, group: nat)
    requires forall tree: nat :: var k := Multicast(source, group, tree);
               (k in a <==> k in b) && (k in a ==> a[k] == b[k])
    ensures Trees(a, source, group) == Trees(b, source, group)
  {
    forall t: nat ensures t in Trees(a, source, group) <==> t in Trees(b, source, group) {
      var k := Multicast(source, group, t);
      assert t in Trees(a, source, group) <==> k in a && a[k] != [];
      assert t in Trees(b, source, group) <==> k in b && b[k] != [];
    }
  }

  lemma {:induction false} AddRoutesKeepsTrees(t: Table, routes: seq<RouteEntry>, k: RouteKey)
    requires k.Multicast?
    ensures var r := AddRoutes(t, routes);
            (k in r.available <==> k in t.available) && (k in t.available ==> r.available[k] == t.available[k])
    decreases routes
  {
    if routes != [] {
      AddRoutesKeepsTrees(AddRoute(t, routes[0]), routes[1..], k);
    }
  }

  /** Adding trees of one source and group leaves all other keys alone. */
  lemma {:induction false} AddTreesKeepsOthers(t: Table, group: nat, source: nat, routes: seq<GroupRoute>, k: RouteKey)
    requires !(k.Multicast? && k.source == source && k.group == group)
    ensures var r := AddTrees(t, group, source, routes);
            (k in r.available <==> k in t.available) && (k in t.available ==> r.available[k] == t.available[k])
    decreases routes
  {
    if routes != [] {
      AddTreesKeepsOthers(AddTree(t, group, source, routes[0]), group, source, routes[1..], k);
    }
  }

  lemma IdsOfStep(available: map<RouteKey, seq<nat>>, done: set<RouteKey>, k: RouteKey)
    requires k in available && k !in done
    ensures IdsOf(available, done + {k}) == IdsOf(available, done) + set i | 0 <= i < |available[k]| :: available[k][i]
  {
  }

  /** A remembered control tree that is still installed is the least installed one. */
  ghost predicate ControlOk(cache: map<(nat, nat), nat>, available: map<RouteKey, seq<nat>>) {
    forall k :: k in cache ==>
      cache[k] in Trees(available, k.0, k.1) ==> IsLeast(Some(cache[k]), Trees(available, k.0, k.1))
  }

  /** Forgetting entries and leaving the trees of the others alone keeps the rest right. */
  lemma ControlOkKept(cache: map<(nat, nat), nat>, cache': map<(nat, nat), nat>,
                      available: map<RouteKey, seq<nat>>, available': map<RouteKey, seq<nat>>)
    requires ControlOk(cache, available)
    requires forall k :: k in cache' ==>
               k in cache && cache'[k] == cache[k] && Trees(available', k.0, k.1) == Trees(available, k.0, k.1)
    ensures ControlOk(cache', available')
  {
  }

  class RoutingTable {
    const config: Config
    var availableRoutes: map<RouteKey, seq<nat>>
    var routeNextHop: map<nat, Hops>
    var groupDir: map<nat, nat>
    var cache: map<nat, nat>                            // flow -> route id
    var multicastTreeCache: map<(nat, nat, nat), nat>   // (source, group, tree) -> encoded id
    var multicastControlTreeCache: map<(nat, nat), nat> // (source, group) -> tree
    ghost var pins: map<nat, nat>                       // pinned since the last install

    /** The table without its caches. */
    ghost function View(): Table
      reads this
    {
      Table(availableRoutes, routeNextHop, groupDir, pins)
    }

    /** A pinned flow is cached with its pin, any other cached flow with its hash choice. */
    ghost predicate FlowCacheOk()
      reads this
    {
      && (forall f :: f in pins ==> f in cache && cache[f] == pins[f] && pins[f] in routeNextHop)
      && (forall f :: f in cache && f !in pins ==>
            var k := UnicastKey(config, f);
            k.Some? && Choice(config, availableRoutes, k.value) == Some(cache[f]))
    }

    ghost predicate TreeCacheOk()
      reads this
    {
      forall k :: k in multicastTreeCache ==> TreeSlot(k.1, k.2) == Some(multicastTreeCache[k])
    }

    ghost predicate ControlCacheOk()
      reads this
    {
      ControlOk(multicastControlTreeCache, availableRoutes)
    }

    ghost predicate Valid()
      reads this
    {
      ValidConfig(config) && FlowCacheOk() && TreeCacheOk() && ControlCacheOk()
    }

    constructor (config: Config)
      requires ValidConfig(config)
      ensures Valid() && this.config == config && View() == Table(map[], map[], map[], map[])
    {
      this.config := config;
      availableRoutes := map[];
      routeNextHop := map[];
      groupDir := map[];
      cache := map[];
      multicastTreeCache := map[];
      multicastControlTreeCache := map[];
      pins := map[];
    }

    // ---------- installs ----------

    /** Removes keys one at a time, each with the hops of its routes. */
    method PurgeKeys(keys: set<RouteKey>)
      requires keys <= availableRoutes.Keys
      modifies this`availableRoutes, this`routeNextHop
      ensures availableRoutes == old(availableRoutes) - keys
      ensures routeNextHop == old(routeNextHop) - IdsOf(old(availableRoutes), keys)
    {
      ghost var available, hops := availableRoutes, routeNextHop;
      var rest := keys;
      assert hops - IdsOf(available, {}) == hops;
      assert available - {} == available;
      while rest != {}
        invariant rest <= keys
        invariant availableRoutes == available - (keys - rest)
        invariant routeNextHop == hops - IdsOf(available, keys - rest)
        decreases rest
      {
        var k :| k in rest;
        IdsOfStep(available, keys - rest, k);
        assert keys - (rest - {k}) == (keys - rest) + {k};
        routeNextHop := routeNextHop - set i | 0 <= i < |availableRoutes[k]| :: availableRoutes[k][i];
        availableRoutes := availableRoutes - {k};
        rest := rest - {k};
      }
      assert keys - rest == keys;
    }

    method InstallRoutes(routes: seq<RouteEntry>)
      requires Valid()
      modifies this
      ensures Valid() && View() == RouteTables.InstallRoutes(old(View()), routes)
    {
      cache := map[];
      pins := map[];
      PurgeKeys(set k | k in availableRoutes && k.Unicast?);
      assert View() == Purge(old(View()), UnicastKeys(old(availableRoutes))).(pins := map[]);
      ghost var purged := View();
      var i := 0;
      while i < |routes|
        invariant 0 <= i <= |routes|
        invariant cache == map[] && pins == map[] && unchanged(`multicastTreeCache, `multicastControlTreeCache)
        invariant AddRoutes(View(), routes[i..]) == AddRoutes(purged, routes)
      {
        var r := routes[i];
        assert routes[i..][1..] == routes[i + 1..];
        routeNextHop := routeNextHop[r.routeId := r.nextHops];
        var key := Unicast(r.src, r.dst);
        var ids := if key in availableRoutes then availableRoutes[key] else [];
        availableRoutes := availableRoutes[key := ids + [r.routeId]];
        i := i + 1;
      }
      PinsCommute(Purge(old(View()), UnicastKeys(old(availableRoutes))), routes);
      UnicastInstallKeepsControl(old(View()), routes);
    }

    static lemma {:induction false} PinsCommute(t: Table, routes: seq<RouteEntry>)
      ensures AddRoutes(t.(pins := map[]), routes) == AddRoutes(t, routes).(pins := map[])
      decreases routes
    {
      if routes != [] {
        PinsCommute(AddRoute(t, routes[0]), routes[1..]);
      }
    }

    static lemma UnicastInstallKeepsControl(t: Table, routes: seq<RouteEntry>)
      ensures forall source: nat, group: nat ::
                Trees(RouteTables.InstallRoutes(t, routes).available, source, group)
                == Trees(t.available, source, group)
    {
      var purged := Purge(t, UnicastKeys(t.available));
      forall source: nat, group: nat
        ensures Trees(RouteTables.InstallRoutes(t, routes).available, source, group)
                == Trees(t.available, source, group)
      {
        forall tree: nat
          ensures var k, a := Multicast(source, group, tree), RouteTables.InstallRoutes(t, routes).available;
                  (k in a <==> k in t.available) && (k in a ==> a[k] == t.available[k])
        {
          AddRoutesKeepsTrees(purged, routes, Multicast(source, group, tree));
        }
        TreesSame(RouteTables.InstallRoutes(t, routes).available, t.available, source, group);
      }
    }

    method InstallGroupDirectory(entries: seq<GroupEntry>)
      requires Valid()
      modifies this`groupDir
      ensures Valid() && View() == old(View()).(groupDir := Directory(entries))
    {
      groupDir := map[];
      for i := 0 to |entries|
        invariant groupDir == Directory(entries[..i])
      {
        assert entries[..i + 1][..i] == entries[..i];
        groupDir := groupDir[entries[i].ip := entries[i].group];
      }
      assert entries[..|entries|] == entries;
    }

    method InstallGroupRoutes(group: nat, source: nat, routes: seq<GroupRoute>)
      requires Valid()
      modifies this
      ensures Valid() && View() == InstallTrees(old(View()), group, source, routes)
    {
      PurgeKeys(set k | k in availableRoutes && k.Multicast? && k.source == source && k.group == group);
      assert View() == Purge(old(View()), TreeKeys(old(availableRoutes), source, group));
      ForgetGroup(group, source);
      AddGroupRoutes(group, source, routes);
      cache := map[];
      pins := map[];
      GroupInstallKeepsOthers(old(View()), group, source, routes);
      ControlOkKept(old(multicastControlTreeCache), multicastControlTreeCache, old(availableRoutes), availableRoutes);
    }

    /** Drops what the caches know about one source and group. */
    method ForgetGroup(group: nat, source: nat)
      modifies this`multicastTreeCache, this`multicastControlTreeCache
      ensures forall k :: k in multicastTreeCache ==>
                k in old(multicastTreeCache) && multicastTreeCache[k] == old(multicastTreeCache)[k]
      ensures forall k :: k in multicastControlTreeCache ==>
                && (k.0 != source || k.1 != group)
                && k in old(multicastControlTreeCache)
                && multicastControlTreeCache[k] == old(multicastControlTreeCache)[k]
    {
      multicastTreeCache :=
        map k | k in multicastTreeCache && (k.0 != source || k.1 != group) :: multicastTreeCache[k];
      multicastControlTreeCache :=
        map k | k in multicastControlTreeCache && (k.0 != source || k.1 != group) :: multicastControlTreeCache[k];
    }

    method AddGroupRoutes(group: nat, source: nat, routes: seq<GroupRoute>)
      modifies this`availableRoutes, this`routeNextHop
      ensures View() == AddTrees(old(View()), group, source, routes)
    {
      var i := 0;
      while i < |routes|
        invariant 0 <= i <= |routes|
        invariant AddTrees(View(), group, source, routes[i..]) == AddTrees(old(View()), group, source, routes)
      {
        assert routes[i..][1..] == routes[i + 1..];
        AddGroupRoute(group, source, routes[i]);
        i := i + 1;
      }
    }

    method AddGroupRoute(group: nat, source: nat, r: GroupRoute)
      modifies this`availableRoutes, this`routeNextHop
      ensures View() == AddTree(old(View()), group, source, r)
    {
      var tree := TreeIdFromRouteId(group, r.routeId);
      if tree.None? {
        return;
      }
      var expected := DeterministicRouteId(group, tree.value);
      if expected.None? || expected.value != r.routeId {
        return;
      }
      routeNextHop := routeNextHop[Encode(r.routeId) := r.nextHops];
      availableRoutes := availableRoutes[Multicast(source, group, tree.value) := [Encode(r.routeId)]];
    }

    static lemma GroupInstallKeepsOthers(t: Table, group: nat, source: nat, routes: seq<GroupRoute>)
      ensures forall s: nat, g: nat :: s != source || g != group ==>
                Trees(InstallTrees(t, group, source, routes).available, s, g) == Trees(t.available, s, g)
    {
      var purged := Purge(t, TreeKeys(t.available, source, group));
      forall s: nat, g: nat | s != source || g != group
        ensures Trees(InstallTrees(t, group, source, routes).available, s, g) == Trees(t.available, s, g)
      {
        forall tree: nat ensures var k, a := Multicast(s, g, tree), InstallTrees(t, group, source, routes).available;
                                 (k in a <==> k in t.available) && (k in a ==> a[k] == t.available[k])
        {
          AddTreesKeepsOthers(purged, group, source, routes, Multicast(s, g, tree));
        }
        TreesSame(InstallTrees(t, group, source, routes).available, t.available, s, g);
      }
    }

    // ---------- lookups ----------

    ghost predicate IsTreeOf(k: RouteKey, source: nat, group: nat)
      requires k in availableRoutes
      reads this
    {
      k.Multicast? && k.source == source && k.group == group && availableRoutes[k] != []
    }

    /** Scans the installed keys for the least tree of a source and group; tree 0 ends the scan. */
    method ScanControlTree(source: nat, group: nat) returns (r: Option<nat>)
      ensures IsLeast(r, Trees(availableRoutes, source, group))
    {
      var rest := availableRoutes.Keys;
      r := None;
      while rest != {}
        invariant rest <= availableRoutes.Keys
        invariant r.Some? ==> r.value in Trees(availableRoutes, source, group)
        invariant forall k :: k in availableRoutes && k !in rest && IsTreeOf(k, source, group) ==>
                    r.Some? && r.value <= k.tree
        decreases rest
      {
        var k :| k in rest;
        rest := rest - {k};
        if availableRoutes[k] == [] || k.Unicast? || k.source != source || k.group != group {
          continue;
        }
        assert k.tree in Trees(availableRoutes, source, group);
        if k.tree == 0 {
          return Some(0);
        }
        if r.None? || k.tree < r.value {
          r := Some(k.tree);
        }
      }
    }

    method SelectMulticastControlTree(source: nat, group: nat) returns (r: Option<nat>)
      requires Valid()
      modifies this`multicastControlTreeCache
      ensures Valid() && r == Least(Trees(availableRoutes, source, group))
    {
      var key := (source, group);
      if key in multicastControlTreeCache {
        var cached := multicastControlTreeCache[key];
        var route := Multicast(source, group, cached);
        if route in availableRoutes && availableRoutes[route] != [] {
          assert route.tree in Trees(availableRoutes, source, group);
          LeastUnique(Some(cached), Least(Trees(availableRoutes, source, group)),
                      Trees(availableRoutes, source, group));
          return Some(cached);
        }
        multicastControlTreeCache := multicastControlTreeCache - {key};
      }
      r := ScanControlTree(source, group);
      LeastUnique(r, Least(Trees(availableRoutes, source, group)), Trees(availableRoutes, source, group));
      if r.Some? {
        multicastControlTreeCache := multicastControlTreeCache[key := r.value];
      }
    }

    method SelectRouteForKey(key: RouteKey) returns (id: Option<nat>)
      requires Valid()
      modifies this`multicastTreeCache
      ensures Valid()
      ensures key.Unicast? ==> id == Choice(config, availableRoutes, key)
      ensures key.Multicast? ==>
                && (id.Some? ==> TreeSlot(key.group, key.tree) == id && id.value in routeNextHop)
                && (id.None? ==> var slot := TreeSlot(key.group, key.tree); slot.Some? ==> slot.value !in routeNextHop)
    {
      match key {
        case Unicast(_, _) =>
          if key !in availableRoutes || availableRoutes[key] == [] {
            return None;
          }
          var ids := availableRoutes[key];
          if |ids| == 1 {
            return Some(ids[0]);
          }
          id := Some(ids[config.slot(key, |ids|)]);
        case Multicast(source, group, tree) =>
          var cacheKey := (source, group, tree);
          if cacheKey in multicastTreeCache && multicastTreeCache[cacheKey] in routeNextHop {
            return Some(multicastTreeCache[cacheKey]);
          }
          var routeId := DeterministicRouteId(group, tree);
          if routeId.None? {
            return None;
          }
          var encoded := Encode(routeId.value);
          if encoded !in routeNextHop {
            return None;
          }
          multicastTreeCache := multicastTreeCache[cacheKey := encoded];
          id := Some(encoded);
      }
    }

    /** `get_next_hops_by_flow_and_tree`: the caches may change, the answer is the cache-free one
        and the table behind the caches stays as it is. */
    method GetNextHops(flow: nat, tree: Option<nat>) returns (r: Lookup)
      requires Valid()
      modifies this`cache, this`multicastTreeCache, this`multicastControlTreeCache
      ensures Valid() && View() == old(View()) && r == CacheFree(config, View(), flow, tree)
    {
      if flow == INVALID_FLOW_ID {
        return Failed(InvalidFlow);
      }
      var key := KeyForFlow(config, groupDir, flow, tree);
      if key.None? {
        return Failed(NoRouteKey);
      }
      if key.value.Unicast? {
        r := UnicastHops(flow, key.value);
        return;
      }
      var selected := key.value;
      if tree.None? {
        var least := SelectMulticastControlTree(selected.source, selected.group);
        if least.None? {
          return Failed(NoControlTree);
        }
        selected := Multicast(selected.source, selected.group, least.value);
      }
      var id := SelectRouteForKey(selected);
      if id.None? {
        return Failed(UnknownTree);
      }
      r := CopyHops(routeNextHop[id.value]);
    }

    method UnicastHops(flow: nat, key: RouteKey) returns (r: Lookup)
      requires Valid() && key.Unicast? && UnicastKey(config, flow) == Some(key)
      modifies this`cache, this`multicastTreeCache
      ensures Valid()
      ensures r == if flow in pins then RouteHops(routeNextHop, pins[flow])
                   else match Choice(config, availableRoutes, key)
                        case None => Failed(NoRouteIds)
                        case Some(id) => RouteHops(routeNextHop, id)
    {
      if flow in cache && cache[flow] in routeNextHop {
        return CopyHops(routeNextHop[cache[flow]]);
      }
      var id := SelectRouteForKey(key);
      if id.None? {
        return Failed(NoRouteIds);
      }
      cache := cache[flow := id.value];
      r := RouteHops(routeNextHop, id.value);
    }

    /** `pin_route_for_flow`: accepted exactly for a known route with valid hops. */
    method PinRouteForFlow(flow: nat, routeId: nat) returns (ok: bool)
      requires Valid()
      modifies this`cache, this`pins
      ensures Valid()
      ensures ok <==> routeId in routeNextHop && routeNextHop[routeId] != [] && INVALID !in routeNextHop[routeId]
      ensures View() == if ok then old(View()).(pins := old(pins)[flow := routeId]) else old(View())
    {
      if routeId !in routeNextHop {
        return false;
      }
      var hops := routeNextHop[routeId];
      if hops == [] || INVALID in hops {
        return false;
      }
      cache := cache[flow := routeId];
      pins := pins[flow := routeId];
      ok := true;
    }
  }
}
