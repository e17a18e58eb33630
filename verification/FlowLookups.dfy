/** What a lookup does for a flow, in terms of the addresses in the flow id
    (dataplane/src/node/route.rs, dataplane/src/node/mod.rs). */
module FlowLookups {
  import opened Wrappers
  import opened FlowIds
  import opened RouteTables
  import opened SortedSets

  /** The flow goes from the node `source` to an address that the directory gives to the group. */
  ghost predicate GroupFlow(c: Config, t: Table, flow: nat, source: nat, group: nat) {
    var p := Unpack(flow);
    && flow != INVALID_FLOW_ID
    && p.dstIp in t.groupDir && t.groupDir[p.dstIp] == group
    && c.nodeOf(p.srcIp) == source && source != INVALID
  }

  /** The flow goes from the node `src` to the node `dst`, and not to a group. */
  ghost predicate NodeFlow(c: Config, t: Table, flow: nat, src: nat, dst: nat) {
    var p := Unpack(flow);
    && flow != INVALID_FLOW_ID && p.dstIp !in t.groupDir
    && c.nodeOf(p.srcIp) == src && src != INVALID
    && c.nodeOf(p.dstIp) == dst && dst != INVALID
  }

  /** A packet to a group goes by the group's trees: the one it asks for, or the least one installed
      for its source. */
  lemma GroupLookup(c: Config, t: Table, flow: nat, source: nat, group: nat, asked: Option<nat>)
    requires GroupFlow(c, t, flow, source, group)
    ensures KeyForFlow(c, t.groupDir, flow, asked)
            == Some(Multicast(source, group, if asked.Some? then asked.value else 0))
    ensures asked.Some? ==> CacheFree(c, t, flow, asked) == TreeHops(t.hops, group, asked.value)
    ensures asked.None? && Trees(t.available, source, group) == {} ==>
              CacheFree(c, t, flow, asked) == Failed(NoControlTree)
    ensures forall least: nat :: asked.None? && IsLeast(Some(least), Trees(t.available, source, group)) ==>
              CacheFree(c, t, flow, asked) == TreeHops(t.hops, group, least)
  {
    forall least: nat | IsLeast(Some(least), Trees(t.available, source, group))
      ensures Least(Trees(t.available, source, group)) == Some(least)
    {
      LeastUnique(Some(least), Least(Trees(t.available, source, group)), Trees(t.available, source, group));
    }
  }

  /** A packet between two nodes follows the route pinned for its flow, or else the hash choice
      among the routes of the pair; the tree id plays no part. */
  lemma NodeLookup(c: Config, t: Table, flow: nat, src: nat, dst: nat, asked: Option<nat>)
    requires NodeFlow(c, t, flow, src, dst)
    ensures flow in t.pins ==> CacheFree(c, t, flow, asked) == RouteHops(t.hops, t.pins[flow])
    ensures flow !in t.pins ==>
              var choice := Choice(c, t.available, Unicast(src, dst));
              CacheFree(c, t, flow, asked)
              == if choice.Some? then RouteHops(t.hops, choice.value) else Failed(NoRouteIds)
  {
  }

  /** Every other packet is dropped. */
  lemma NoLookup(c: Config, t: Table, flow: nat, asked: Option<nat>)
    requires forall source: nat, group: nat :: !GroupFlow(c, t, flow, source, group)
    requires forall src: nat, dst: nat :: !NodeFlow(c, t, flow, src, dst)
    ensures CacheFree(c, t, flow, asked).Failed?
  {
    var p := Unpack(flow);
    if flow != INVALID_FLOW_ID {
      if p.dstIp in t.groupDir {
        assert !GroupFlow(c, t, flow, c.nodeOf(p.srcIp), t.groupDir[p.dstIp]);
      } else {
        assert !NodeFlow(c, t, flow, c.nodeOf(p.srcIp), c.nodeOf(p.dstIp));
      }
    }
  }

  /** The fields that decide are those the flow id was made of. */
  lemma FlowOfParts(c: Config, t: Table, p: Parts)
    requires ValidParts(p) && Pack(p) != INVALID_FLOW_ID && c.nodeOf(p.srcIp) != INVALID
    ensures p.dstIp in t.groupDir ==> GroupFlow(c, t, Pack(p), c.nodeOf(p.srcIp), t.groupDir[p.dstIp])
    ensures p.dstIp !in t.groupDir && c.nodeOf(p.dstIp) != INVALID ==>
              NodeFlow(c, t, Pack(p), c.nodeOf(p.srcIp), c.nodeOf(p.dstIp))
  {
    PackUnpack(p);
  }

  /** Hops with the marker, the largest 64-bit number, are never used; others are used as they are filed. */
  lemma RouteHopsExact(hops: map<nat, Hops>, id: nat, found: Hops)
    ensures RouteHops(hops, id) == Found(found) <==>
            id in hops && hops[id] == found && 0xFFFF_FFFF_FFFF_FFFF !in found
  {
  }

  /** With one route the choice is that route, with several it is the one in the hash slot. */
  lemma ChoiceExact(c: Config, available: map<RouteKey, seq<nat>>, key: RouteKey, id: nat)
    requires ValidConfig(c)
    ensures Choice(c, available, key) == Some(id) <==>
            && key in available && available[key] != []
            && if |available[key]| > 1 then available[key][c.slot(key, |available[key]|)] == id
               else available[key][0] == id
  {
  }

  predicate NoneAfter(entries: seq<GroupEntry>, ip: nat, i: int) {
    forall j :: 0 <= i < j < |entries| ==> entries[j].ip != ip
  }

  /** The last entry for an address gives its group. */
  lemma {:induction false} DirectoryLast(entries: seq<GroupEntry>, ip: nat)
    ensures ip in Directory(entries) <==> exists i :: 0 <= i < |entries| && entries[i].ip == ip
    ensures forall i :: 0 <= i < |entries| && entries[i].ip == ip && NoneAfter(entries, ip, i) ==>
              Directory(entries)[ip] == entries[i].group
    decreases |entries|
  {
    if entries != [] {
      var n := |entries| - 1;
      DirectoryLast(entries[..n], ip);
      assert forall i :: 0 <= i < n ==> entries[..n][i] == entries[i];
      forall i | 0 <= i < n && NoneAfter(entries, ip, i) ensures NoneAfter(entries[..n], ip, i) {
      }
      if entries[n].ip != ip && exists i :: 0 <= i < |entries| && entries[i].ip == ip {
        var i :| 0 <= i < |entries| && entries[i].ip == ip;
        assert entries[..n][i].ip == ip;
      }
    }
  }

  lemma {:induction false} AddRoutesIds(t: Table, routes: seq<RouteEntry>, id: nat)
    ensures id in AddRoutes(t, routes).hops <==> id in t.hops || exists r :: r in routes && r.routeId == id
    decreases routes
  {
    if routes != [] {
      AddRoutesIds(AddRoute(t, routes[0]), routes[1..], id);
      assert routes == [routes[0]] + routes[1..];
    }
  }

  /** After an install a listed route has hops exactly when the install brought it. */
  lemma WithdrawnRoute(t: Table, routes: seq<RouteEntry>, key: RouteKey, i: nat)
    requires key.Unicast? && key in t.available && i < |t.available[key]|
    ensures var id := t.available[key][i];
            id in InstallRoutes(t, routes).hops <==> exists r :: r in routes && r.routeId == id
  {
    var purged := Purge(t, UnicastKeys(t.available));
    assert t.available[key][i] in IdsOf(t.available, UnicastKeys(t.available));
    AddRoutesIds(purged, routes, t.available[key][i]);
  }
}
