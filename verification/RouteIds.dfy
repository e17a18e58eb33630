/** Deterministic multicast route ids: how the controller computes them
    (controller/src/utils.rs) and how a dataplane node takes them apart
    (dataplane/src/node/route.rs). */
module RouteIds {
  import opened Wrappers

  const MULTICAST_ROUTE_FLAG: nat := 0x4000_0000
  const MULTITREE_STRIDE: nat := 0x1_0000
  const USIZE_LIMIT: nat := 0x1_0000_0000_0000_0000
  const U16_LIMIT: nat := 0x1_0000

  datatype IdError = TreeIdExceedsStride | GroupIdOverflows | AdditionOverflows | RouteIdTooLarge

  datatype IdResult = Ok(routeId: nat) | Err(error: IdError)

  /** `compute_multitree_route_id` of the controller. */
  function ComputeRouteId(group: nat, tree: nat): IdResult {
    if tree >= MULTITREE_STRIDE then Err(TreeIdExceedsStride)
    else if group * MULTITREE_STRIDE >= USIZE_LIMIT then Err(GroupIdOverflows)
    else if group * MULTITREE_STRIDE + tree >= USIZE_LIMIT then Err(AdditionOverflows)
    else if group * MULTITREE_STRIDE + tree >= MULTICAST_ROUTE_FLAG then Err(RouteIdTooLarge)
    else Ok(group * MULTITREE_STRIDE + tree)
  }

  /** `deterministic_multicast_route_id` of the dataplane. */
  function DeterministicRouteId(group: nat, tree: nat): Option<nat> {
    if tree >= MULTITREE_STRIDE then None
    else if group * MULTITREE_STRIDE >= USIZE_LIMIT then None
    else if group * MULTITREE_STRIDE + tree >= USIZE_LIMIT then None
    else if group * MULTITREE_STRIDE + tree < MULTICAST_ROUTE_FLAG then Some(group * MULTITREE_STRIDE + tree)
    else None
  }

  /** `tree_id_from_route_id` of the dataplane. */
  function TreeIdFromRouteId(group: nat, routeId: nat): Option<nat> {
    if group * MULTITREE_STRIDE >= USIZE_LIMIT || routeId < group * MULTITREE_STRIDE then None
    else if routeId - group * MULTITREE_STRIDE >= MULTITREE_STRIDE then None
    else if routeId - group * MULTITREE_STRIDE >= U16_LIMIT then None
    else Some(routeId - group * MULTITREE_STRIDE)
  }

  /** Sets the flag bit of an id that lies below it. */
  function Encode(routeId: nat): nat
    requires routeId < MULTICAST_ROUTE_FLAG
  {
    MULTICAST_ROUTE_FLAG + routeId
  }

  /** The id under which a node files the hops of tree `tree` of group `group`. */
  function TreeSlot(group: nat, tree: nat): Option<nat> {
    match DeterministicRouteId(group, tree)
    case Some(id) => Some(Encode(id))
    case None => None
  }

  /** Controller and dataplane agree on the id, and the dataplane recovers the tree from it. */
  lemma IdsAgree(group: nat, tree: nat)
    ensures ComputeRouteId(group, tree).Ok? <==> DeterministicRouteId(group, tree).Some?
    ensures ComputeRouteId(group, tree).Ok? ==>
              && DeterministicRouteId(group, tree) == Some(ComputeRouteId(group, tree).routeId)
              && TreeIdFromRouteId(group, ComputeRouteId(group, tree).routeId) == Some(tree)
  {
  }

  /** No two trees, of whatever groups, share an id. */
  lemma SlotsDistinct(group: nat, tree: nat, group': nat, tree': nat)
    requires TreeSlot(group, tree).Some? && TreeSlot(group, tree) == TreeSlot(group', tree')
    ensures group == group' && tree == tree'
  {
  }

  /** Trees are numbered with 16 bits and groups with 14; the id has the group above the tree.  What
      is refused first is the tree id, then a group id whose multiple does not fit 64 bits. */
  lemma IdsExact(group: nat, tree: nat)
    ensures ComputeRouteId(group, tree)
            == if tree >= 65536 then Err(TreeIdExceedsStride)
               else if group >= 0x1_0000_0000_0000 then Err(GroupIdOverflows)
               else if group >= 16384 then Err(RouteIdTooLarge)
               else Ok(group * 65536 + tree)
  {
  }

  /** The hops of a tree are filed under its id with bit 30 set. */
  lemma SlotsExact(group: nat, tree: nat)
    ensures TreeSlot(group, tree)
            == if tree < 65536 && group < 16384 then Some(0x4000_0000 + group * 65536 + tree) else None
  {
  }
}
