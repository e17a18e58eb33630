/** The routing table of a dataplane node (dataplane/src/node/route.rs) without its caches: what
    the installs leave behind, and what a lookup returns. */
module RouteTables {
  import opened Wrappers
  import opened RouteIds
  import opened SortedSets

  const INVALID: nat := 0xFFFF_FFFF_FFFF_FFFF
  const INVALID_FLOW_ID: nat := 0xFFFF_FFFF_FFFF_FFFF_FFFF_FFFF_FFFF_FFFF

  type Hops = seq<nat>

  datatype RouteKey = Unicast(src: nat, dst: nat) | Multicast(source: nat, group: nat, tree: nat)

  datatype RouteEntry = RouteEntry(routeId: nat, src: nat, dst: nat, nextHops: Hops)

  datatype GroupRoute = GroupRoute(routeId: nat, nextHops: Hops)

  datatype GroupEntry = GroupEntry(ip: nat, group: nat)

  /** `pins` holds the routes pinned for a flow since the last install. */
  datatype Table = Table(
    available: map<RouteKey, seq<nat>>,
    hops: map<nat, Hops>,
    groupDir: map<nat, nat>,
    pins: map<nat, nat>)

  /** The parts of a node's configuration that lookups use.  `slot` is the consistent hash: any
      fixed choice among `n` candidates. */
  datatype Config = Config(nodeOf: nat -> nat, slot: (RouteKey, nat) -> nat)

  ghost predicate ValidConfig(c: Config) {
    forall k, n: nat :: n > 0 ==> c.slot(k, n) < n
  }

  datatype LookupError =
    | InvalidFlow | NoRouteKey | NoControlTree | UnknownTree | NoRouteIds | NoHops | InvalidHops

  datatype Lookup = Found(hops: Hops) | Failed(error: LookupError)

  function SrcIp(flow: nat): nat { flow / 0x1_0000_0000_0000_0000_0000_0000 % 0x1_0000_0000 }

  function DstIp(flow: nat): nat { flow / 0x1_0000_0000_0000_0000 % 0x1_0000_0000 }

  // ---------- lookups ----------

  function UnicastKey(c: Config, flow: nat): Option<RouteKey> {
    var src, dst := c.nodeOf(SrcIp(flow)), c.nodeOf(DstIp(flow));
    if src == INVALID || dst == INVALID then None else Some(Unicast(src, dst))
  }

  /** `key_for_flow`. */
  function KeyForFlow(c: Config, groupDir: map<nat, nat>, flow: nat, tree: Option<nat>): Option<RouteKey> {
    if flow == INVALID_FLOW_ID then None
    else if DstIp(flow) in groupDir then
      if c.nodeOf(SrcIp(flow)) == INVALID then None
      else Some(Multicast(c.nodeOf(SrcIp(flow)), groupDir[DstIp(flow)], if tree.Some? then tree.value else 0))
    else UnicastKey(c, flow)
  }

  /** The trees installed for a source and a group. */
  ghost function Trees(available: map<RouteKey, seq<nat>>, source: nat, group: nat): set<nat> {
    set k | k in available && k.Multicast? && k.source == source && k.group == group && available[k] != [] :: k.tree
  }

  /** `copy_next_hops`. */
  function CopyHops(hops: Hops): Lookup {
    if INVALID in hops then Failed(InvalidHops) else Found(hops)
  }

  /** The hops of one tree: note that the source node plays no part. */
  function TreeHops(hops: map<nat, Hops>, group: nat, tree: nat): Lookup {
    match TreeSlot(group, tree)
    case Some(id) => if id in hops then CopyHops(hops[id]) else Failed(UnknownTree)
    case None => Failed(UnknownTree)
  }

  /** The consistent-hash choice among the routes of a unicast key. */
  function Choice(c: Config, available: map<RouteKey, seq<nat>>, key: RouteKey): Option<nat> {
    if key !in available || available[key] == [] then None
    else if |available[key]| == 1 then Some(available[key][0])
    else
      var i := c.slot(key, |available[key]|);
      if i < |available[key]| then Some(available[key][i]) else None
  }

  function RouteHops(hops: map<nat, Hops>, id: nat): Lookup {
    if id in hops then CopyHops(hops[id]) else Failed(NoHops)
  }

  /** What a lookup means, without any cache: a pinned flow follows its pin, another unicast flow
      the hash choice, a multicast flow the tree it asks for or else the least installed tree. */
  ghost function CacheFree(c: Config, t: Table, flow: nat, tree: Option<nat>): Lookup {
    if flow == INVALID_FLOW_ID then Failed(InvalidFlow)
    else
      match KeyForFlow(c, t.groupDir, flow, tree)
      case None => Failed(NoRouteKey)
      case Some(Multicast(source, group, wanted)) =>
        if tree.Some? then TreeHops(t.hops, group, wanted)
        else
          (match Least(Trees(t.available, source, group))
           case None => Failed(NoControlTree)
           case Some(least) => TreeHops(t.hops, group, least))
      case Some(Unicast(src, dst)) =>
        if flow in t.pins then RouteHops(t.hops, t.pins[flow])
        else
          match Choice(c, t.available, Unicast(src, dst))
          case None => Failed(NoRouteIds)
          case Some(id) => RouteHops(t.hops, id)
  }

  // ---------- installs ----------

  /** The route ids filed under the keys in `keys`. */
  ghost function IdsOf(available: map<RouteKey, seq<nat>>, keys: set<RouteKey>): (ids: set<nat>) {
    set k, i | k in keys && k in available && 0 <= i < |available[k]| :: available[k][i]
  }

  ghost function UnicastKeys(available: map<RouteKey, seq<nat>>): set<RouteKey> {
    set k | k in available && k.Unicast?
  }

  ghost function TreeKeys(available: map<RouteKey, seq<nat>>, source: nat, group: nat): set<RouteKey> {
    set k | k in available && k.Multicast? && k.source == source && k.group == group
  }

  /** Removes keys together with the hops of their routes. */
  ghost function Purge(t: Table, keys: set<RouteKey>): Table {
    t.(available := t.available - keys, hops := t.hops - IdsOf(t.available, keys))
  }

  function AddRoute(t: Table, r: RouteEntry): Table {
    var key := Unicast(r.src, r.dst);
    var ids := if key in t.available then t.available[key] else [];
    t.(hops := t.hops[r.routeId := r.nextHops], available := t.available[key := ids + [r.routeId]])
  }

  function AddRoutes(t: Table, routes: seq<RouteEntry>): Table
    decreases routes
  {
    if routes == [] then t else AddRoutes(AddRoute(t, routes[0]), routes[1..])
  }

  /** `install_routes`. */
  ghost function InstallRoutes(t: Table, routes: seq<RouteEntry>): Table {
    AddRoutes(Purge(t, UnicastKeys(t.available)), routes).(pins := map[])
  }

  /** One accepted multicast route; a route whose id does not decode is skipped. */
  function AddTree(t: Table, group: nat, source: nat, r: GroupRoute): Table {
    match TreeIdFromRouteId(group, r.routeId)
    case None => t
    case Some(tree) =>
      match DeterministicRouteId(group, tree)
      case None => t
      case Some(expected) =>
        if expected != r.routeId then t
        else t.(hops := t.hops[Encode(r.routeId) := r.nextHops],
                available := t.available[Multicast(source, group, tree) := [Encode(r.routeId)]])
  }

  function AddTrees(t: Table, group: nat, source: nat, routes: seq<GroupRoute>): Table
    decreases routes
  {
    if routes == [] then t else AddTrees(AddTree(t, group, source, routes[0]), group, source, routes[1..])
  }

  /** `install_group_routes`. */
  ghost function InstallTrees(t: Table, group: nat, source: nat, routes: seq<GroupRoute>): Table {
    AddTrees(Purge(t, TreeKeys(t.available, source, group)), group, source, routes).(pins := map[])
  }

  function Directory(entries: seq<GroupEntry>): map<nat, nat>
    decreases entries
  {
    if entries == [] then map[]
    else
      var last := entries[|entries| - 1];
      Directory(entries[..|entries| - 1])[last.ip := last.group]
  }
}
