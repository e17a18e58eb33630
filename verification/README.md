# Verified model of the multicast overlay

This project models the parts of the overlay that decide which bytes arrive where, and proves
properties of them in Dafny 4.11. `dafny verify dfyconfig.toml` checks everything.

**METTLE, the streaming erasure code** (`mettle/src`). Source `s` is XORed into four bins: its
leftmost bin `floor(s * (1 + c))` and three drawn from a window of 600 sources that shrinks at the
end of a terminated stream. The encoder and the decoder are classes with the repository's own fields
and loops.

| file | contents |
|---|---|
| `Params`, `MettleCode` | exact bin arithmetic, edge placement, the bounded scans, and the abstract graph the rest works on |
| `CodeArithmetic` | what each of these numbers is, in terms of the ratio and the terminal count alone |
| `CodeGraph`, `Payloads` | graphs `touches(source, bin)`, XOR algebra, XOR sums over sets of sources |
| `Encoder`, `EncodedBins` | the encoder class against the bins of the whole stream |
| `ReferenceDecoder` | the decoding algorithm with unbounded memory: the specification of one delivery and of a run |
| `PeelingClosure`, `CleanRuns` | which sources a run decodes, and exactly when its counters stay right |
| `PayloadSoundness`, `RunSoundness`, `WrongPayloads` | what payloads it releases, and exactly when one of them is wrong |
| `TwoSourceCodes`, `LateArrival`, `DoubledEdges` | two-source codes on which the hypotheses of those results fail, and what then happens |
| `Decoder` | the decoder class with its 601-payload ring and forgotten bin ids, refining the unbounded one |
| `RoundTrip` | encoder and decoder back to back |

**Routing** (`controller/src/utils.rs`, `dataplane/src/node`). The controller turns trees and acyclic
routes into one entry per node; a node keeps them in a table behind three caches and fans packets out.
Modules: `RouteIds`, `RouteTables` (the table and its lookups without caches), `FlowLookups` (what a
lookup does for the addresses in a flow id), `RoutingTable` (the class with caches), `TableProperties`,
`GroupRoutes`, `MulticastDelivery`, `ControlDelivery` (packets that ask for no tree), `UnicastRoutes`,
`HopPaths`, `RouteDelivery` and `PairDelivery` (several routes for one pair of nodes).

**Tree construction** (`examples/lp`). `PathFinder` (backtracking), `LayeredSearch`,
`LayeredDijkstra`, `HopEstimates` and `CfTree` (hop-limited trees), `CfTreeLimits` (when their builder
gives up), `TreePacking` (paths into trees), and `TreeDeployment`, which carries a computed tree
through controller and nodes to its deliveries.

**Packets** (`dataplane/src/node/packet.rs`, `mod.rs`). `FlowIds`, `Packets` and
`PacketFormat`: headers, the lossless-session option, the option walk, and the bytes position by position.

`SortedSets`, `StableSort`, `Arborescences` and `Wrappers` hold what several of these share.

## What holds, and under which conditions

*Which sources are decoded.* The edge sampler can draw one bin twice for a source; the decoder lowers a
bin's counter once per slot, but counts sources. A decode step is *clean* if every buffered bin that the
source hits more than once has no other undecoded toucher, and a run is clean if all its steps are. All
counters are right, between deliveries and at every step of the drains, if and only if the run is clean
(`CountersExact`). The decoded set after any clean run, in any order, with losses and repeats, is then the
least set closed under peeling of the accepted bins (`RunDecodesClosure`). A run over bins that no source
hits twice is always clean (`SimpleIsClean`).

*Late leftmost bins.* For a leftmost bin the decoder peels with a running XOR that never contains the
bin's own source (`mettle/src/decoder.rs:244-246`, `257-262`). If that source was decoded ahead of the
prefix before its bin arrives, the buffered payload is wrong unless the source is all zero. A delivery is
*harmful* if it is new, its bin is the leftmost bin of a source that is decoded ahead and not all zero,
and the bin still has an undecoded toucher; the decoder's state before the delivery decides all of
this. Over whole clean runs, in any order and with losses and repeats, every payload the decoder holds and
releases is right throughout if and only if no delivery is harmful (`RunExact`), provided that sources hit
accepted bins an odd number of times. `LateTleCorrupts` is a two-source code on which a harmful delivery
makes it release a wrong source. Under the same conditions, arrival in bin order, with losses and late
repeats, never meets the case and releases the right payloads only (`OrderedRunReleases`).

*Repeated slots.* Cleanness is what the decoded set needs, odd slot counts what the payloads need.
`DoubledEdgeBreaks` is a two-source code with a bin that one
source hits twice, and two genuine bins. In one order the run is not clean and the first source is never
decoded. In the other order the run is clean, and the decoder, which peels a decoded source once however
often it hits the bin, releases a wrong payload.

The codes of `LateTleCorrupts` and `DoubledEdgeBreaks` take their edge draws as an arbitrary function. No
seed is claimed to produce them: each needs 1198 of 1200 trials of probability 1/2 to succeed for one
edge, among other unlikely counts. They show what the decoder does with such edges, not how often the
sampler draws them.

*The terminated round trip* returns exactly the padded sources if and only if every source that is not
all zero occupies its own leftmost bin in an odd number of its four slots. The condition can be read
off the edges before anything is sent. It fails for edge draws in which an odd number of the three
other edges falls on the leftmost bin. `LostInOwnBin` is such a case: at a ratio of 1/20 the
one source of a stream has all four edges on bin 0, the bin is empty, and the decoder returns something
else. Here too the draws are an arbitrary function and no seed is claimed: an edge falls on the leftmost
bin only if every one of its trials succeeds, and there are at least 300 of them.

*One source per group.* A node files multicast hops under group and tree only
(`dataplane/src/node/route.rs:105-232`), so with two sources in a group an install by one can change what
the packets of the other do. `SecondSourceExact` says exactly when an install leaves a tree lookup alone:
if the install contains the tree, when its last route for it gives the same answer; if not, when the tree
has no hops, or is not filed under the installing source. `SecondSourceOverwrites` and
`SecondSourceWithdraws` are instances of the two ways to fail: replacing the other source's hops, and
deleting them by withdrawing one's own tree.

*Packets without a tree.* Such a packet takes the least tree that a node has installed, and a node has
installed only the trees in which it has hops (`controller/src/utils.rs:337-372`), so different nodes can
follow different trees. A node treats the packet like one that asks for the least tree of the group if and
only if it has hops in that tree or in none (`ControlExact`); if this holds at every node of the least
tree, the packet is delivered on it, once per member. It always holds if the leaves of the least tree are
members, as in a tree packed from paths to the members (`PackedControlDelivers`). `DetourDoubles` is a
group in which a node that is no member is a leaf of the least tree, and a member gets two copies.

*Unicast routes.* On an acyclic route with distinct route ids, a flow that resolves to the route at every
node is delivered at the sinks only, once for each path from where it starts. A sink that two paths reach
gets two copies. When several routes join a pair of nodes, every node resolves the flow to one of those it
lies on (`PairSelected`), not always the same one. If the edges of the pair's routes have no cycle taken
together, packets still end, at sinks of those routes only, and at least one arrives (`PairDelivery`); if
the routes are paths, exactly one arrives, at the destination (`PairArrivesOnce`).

*The hop-limited builder.* Its documentation says that it raises an error if a terminal is unreachable
within the hop limit (`examples/lp/cf_tree.py:273-275`). It does raise it then (`OutOfReachGivesUp`), but
not only then: the code raises it if and only if nothing within the limit connects the next terminal to
the tree built so far. `HopLimitMissed` is a graph on which every possible outcome of the builder is the
error, although both terminals are within the limit. If the limit is at least the number of nodes less
one, the builder raises the error if and only if some terminal cannot be reached at all
(`RoomyOutcome`). The search itself never misses a connection, and with non-negative weights finds a
cheapest one, although its paths may not revisit nodes.

*Packets.* The payload is parsed back if and only if the whole packet fits the 16-bit length field.

## Model

| member | source | states |
|---|---|---|
| `Params.TleInverse` | mettle/src/params.rs:59-76 | the leftmost bin of `s` is at most `b` exactly when `s` is at most the latest source of `b` |
| `Params.LatestIdOfTle` | mettle/src/params.rs:68-76 | the checked 128/64-bit inverse of the leftmost-bin map is defined on leftmost bins and returns their source |
| `Params.LatestIdExact` | mettle/src/params.rs:68-76 | the checked inverse succeeds on exactly the bins left of the leftmost bin of source 2^64, and returns their latest source |
| `Params.WindowEndTAfterTle` | mettle/src/params.rs:107-147 | a tail-compressed window is never empty |
| `Params.WindowReachesNext` | mettle/src/params.rs:98-147 | every window, compressed or not, reaches the next source's leftmost bin, so emission never runs past a source that is still to come |
| `Params.WindowSources` | mettle/src/params.rs:172-196 | every source whose window contains a bin is one of the 601 up to the latest source of that bin |
| `CodeArithmetic.TleIsFloor` | mettle/src/params.rs:59-62 | the leftmost bin is `s` times one plus the ratio, rounded down |
| `CodeArithmetic.WindowEndIsCeiling` | mettle/src/params.rs:98-105 | the uncompressed window ends 600 sources later, rounded up |
| `CodeArithmetic.TrialsAreFloor` | mettle/src/params.rs:223-240 | without compression an edge takes 600 times one plus the ratio trials, rounded down |
| `CodeArithmetic.TerminatedWindow` | mettle/src/params.rs:107-240 | with m the smaller of n and 600: sources before the last m keep their width and number of trials; source k of the last m has both divided by (m - 1 + k) / (m - 1), rounded up; a single source has half |
| `CodeArithmetic.TailEnds` | mettle/src/params.rs:107-147 | the first source of the tail keeps its window and the last has half of it, rounded up |
| `CodeArithmetic.EdgesAre` | mettle/src/params.rs:78-96 | the first edge is the leftmost bin; each of the others lies as many bins left of the full number of trials as its draws are multiples of 2, 4 and 8, or in the last bin of the window |
| `CodeArithmetic.DeliveredExact` | mettle/src/decoder.rs:89-105 | the accepted bins of a run are exactly the delivered ids left of the leftmost bin of source 2^64, with payloads of the symbol size |
| `MettleCode.SampleBinomial` | mettle/src/params.rs:331-345 | the counting loop returns the number of successful draws, at most the number of trials |
| `MettleCode.EdgesInWindow` | mettle/src/params.rs:78-96 | each of the four edges lies between the leftmost bin and the compressed window end |
| `MettleCode.EdgeBinIds` | mettle/src/params.rs:78-96 | the edge-array loop yields exactly the four edges of the source |
| `MettleCode.GraphLegal` | mettle/src/params.rs:42-305 | for every ratio, seed and terminal count the code is a legal graph: leftmost bins strictly increase, their inverse is exact, and a bin is touched only by the 601 sources up to its latest one |
| `MettleCode.PossibleSourceRange` | mettle/src/params.rs:172-196 | the bounded scan returns the first and last source, over all sources of the stream, whose window contains the bin, and nothing exactly when there is none or the bin is beyond those of 64-bit sources |
| `MettleCode.TerminalDepartureEnd` | mettle/src/params.rs:149-170 | the computed end is the least bin id past every window of the stream; the windows are those of `TerminatedWindow` |
| `MettleCode.StreamEndBounds` | mettle/src/params.rs:149-170 | no edge of any source of the stream lies at or beyond the end |
| `Encoder.XorSlotsAt` | mettle/src/encoder.rs:80-86 | after the slot-by-slot XOR a bin changed by the payload exactly when an odd number of slots hit it |
| `EncodedBins.FinalBin` | mettle/src/encoder.rs:88-92 | once the departure frontier has passed a bin, its content over the sources so far is its content over the whole stream, whatever follows |
| `EncodedBins.OpenBin` | mettle/src/encoder.rs:95-104 | at the frontier and beyond, a bin holds the XOR of the sources pushed so far that touch it |
| `Encoder.MergeFinalized` | mettle/src/encoder.rs:114-136 | the merge loop emits every id of the interval once, in order, with the content of its open bin or zeros |
| `Encoder.MettleEncoder.PushSource` | mettle/src/encoder.rs:71-93 | a push adds to the stream the payload followed by zeros up to the symbol size, and emits exactly the bins of the advanced frontier interval as they are in every continuation of the stream |
| `Encoder.MettleEncoder.AddSource` | mettle/src/encoder.rs:80-88 | after the slot loop the open bins are the XOR of all sources so far that touch them, the new one included |
| `Encoder.MettleEncoder.TakeFinalizedBinsUntil` | mettle/src/encoder.rs:114-136 | emits the interval up to the given end, forgets those bins and keeps the others |
| `Encoder.MettleEncoder.FinishTerminated` | mettle/src/encoder.rs:95-101 | after the last source the remaining bins up to the stream end come out and no bin stays open |
| `Encoder.MettleEncoder.FlushOpenBins` | mettle/src/encoder.rs:138-145 | without a terminal count exactly the touched bins come out, in order, with the XOR of the sources touching them |
| `PeelingClosure.RunInv` | mettle/src/decoder.rs:89-233 | the decoder invariant (counters, buffer placement, coverage of undecoded bins) after any clean run |
| `PeelingClosure.RunDecodesClosure` | mettle/src/decoder.rs:89-233 | after any clean run the decoded set is the peeling closure of the accepted bins; each counter equals its number of undecoded touchers and is never 1 at rest |
| `PeelingClosure.OrderIndependent` | mettle/src/decoder.rs:89-233 | two clean runs that accept the same bins, in any order and with any repeats, decode and release the same sources |
| `PeelingClosure.MoreBinsDecodeMore` | mettle/src/decoder.rs:89-233 | a clean run that accepts more bins decodes at least as much |
| `PeelingClosure.TleBinsRelease` | mettle/src/decoder.rs:107-126 | once the leftmost bins of all sources below `m` are accepted in a clean run, at least `m` sources are released |
| `PeelingClosure.CounterExact` | mettle/src/decoder.rs:235-242 | the saturating decrement per slot keeps a counter right exactly when the source hits the bin once or was its last toucher |
| `PeelingClosure.DrainedIsQuiet` | mettle/src/decoder.rs:141-166 | when draining stops, no buffered bin has a single undecoded toucher |
| `PeelingClosure.ApplyCounted` | mettle/src/decoder.rs:235-242 | decoding a source leaves all counters right if and only if the step is clean |
| `CleanRuns.CountersExact` | mettle/src/decoder.rs:89-242 | over any run, every counter is right in every state, those inside the drains included, if and only if the run is clean |
| `CleanRuns.SimpleIsClean` | mettle/src/decoder.rs:89-242 | a run over accepted bins that no source hits twice is clean |
| `PayloadSoundness.RunEmits` | mettle/src/decoder.rs:168-195 | released ids are 0, 1, 2, ... exactly once each, and are the decoder's history |
| `PayloadSoundness.DrainSound` | mettle/src/decoder.rs:141-195 | draining keeps every buffered payload the XOR of its undecoded touchers and every running prefix the XOR of the decoded earlier touchers |
| `RunSoundness.PeelTleExact` | mettle/src/decoder.rs:256-262 | peeling a leftmost bin leaves the XOR of its undecoded touchers if and only if its own source is not decoded ahead, or is all zero |
| `RunSoundness.PeelExact` | mettle/src/decoder.rs:256-276 | peeling any bin at or right of the frontier leaves the XOR of its undecoded touchers if and only if it is not the leftmost bin of a non-zero source decoded ahead |
| `WrongPayloads.RunExact` | mettle/src/decoder.rs:89-276 | over any clean run of genuine bins with odd slot counts, every payload held and released is right throughout if and only if no delivery is harmful |
| `WrongPayloads.DrainKeeps` | mettle/src/decoder.rs:141-195 | draining never changes the payload of a decoded source, so a wrong one is never put right |
| `RunSoundness.RunReleasesSources` | mettle/src/decoder.rs:89-195 | from genuine bins with odd slot counts, in a clean run without a harmful delivery, every released source equals the encoder's padded source |
| `RunSoundness.TleBinsDeliver` | mettle/src/decoder.rs:107-195 | once the leftmost bins of the first `m` sources are accepted in such a run, among any others and in any order, the output starts with exactly those sources |
| `RunSoundness.OrderedNeverLate` | mettle/src/decoder.rs:235-262 | first arrivals in increasing bin order, with losses and late repeats, never produce a late leftmost bin |
| `RunSoundness.OrderedRunReleases` | mettle/src/decoder.rs:89-262 | such arrivals of genuine bins with odd slot counts, in a clean run, release the right payloads only |
| `LateArrival.LateTleCorrupts` | mettle/src/decoder.rs:235-262 | a terminated two-source code, with arbitrary draws, and two genuine bins on which a harmful delivery makes the decoder release a wrong first source |
| `DoubledEdges.DoubledEdgeBreaks` | mettle/src/decoder.rs:235-276 | a two-source code, with arbitrary draws, whose second source hits a bin twice: of two genuine bins, one order is not clean and never releases the first source, the other is clean and releases it wrong |
| `Decoder.RingCovers` | mettle/src/decoder.rs:48 | a released source touching a bin at or right of the frontier is among the last 600 |
| `Decoder.StaleAccept` | mettle/src/decoder.rs:302-304 | a bin behind the frontier has no effect, so its id may be forgotten |
| `Decoder.MettleDecoder.constructor` | mettle/src/decoder.rs:68-87 | a new decoder stands for the initial unbounded decoder |
| `Decoder.MettleDecoder.PushBin` | mettle/src/decoder.rs:89-139 | for every delivery the bounded decoder's output and state are those of the unbounded one |
| `Decoder.MettleDecoder.DrainDecodableSources` | mettle/src/decoder.rs:141-166 | the drain loop with its searches equals the recursive specification |
| `Decoder.MettleDecoder.FindUniqueFutureBin` | mettle/src/decoder.rs:207-233 | finds the least buffered bin whose only undecoded source lies ahead of the prefix, or none if there is none |
| `Decoder.MettleDecoder.CountRemainingTouchers` | mettle/src/decoder.rs:309-325 | the bounded scan counts all undecoded touchers |
| `Decoder.MettleDecoder.UniqueUndecodedToucher` | mettle/src/decoder.rs:217-233 | returns a source exactly when it is the only undecoded toucher |
| `Decoder.MettleDecoder.PeelKnownPrefixFromBin` | mettle/src/decoder.rs:256-276 | peeling with the ring equals peeling with every payload ever released |
| `Decoder.MettleDecoder.DropBinsClosedByPrefix` | mettle/src/decoder.rs:290-307 | dropping behind the frontier keeps the refinement |
| `RoundTrip.InOrderRoundTrip` | mettle/src/validation.rs:48-59 | all bins in order give back exactly the sources if and only if each is recoverable from its own leftmost bin |
| `RoundTrip.LostInOwnBin` | mettle/src/validation.rs:48-59 | a stream of one non-zero source, at ratio 1/20 and with arbitrary draws, whose four edges are its leftmost bin: in-order delivery does not give it back |
| `RoundTrip.EncodeAll` | mettle/src/validation.rs:11-18 | pushes and finish emit every bin of the stream of zero-padded payloads up to its end, once and in order |
| `RoundTrip.Transmit` | mettle/src/validation.rs:23-59 | through the encoder and decoder classes, for every ratio, seed, symbol size and list of payloads: the decoder gives back all payloads in order, byte by byte and zeros after that, if and only if each is all zero or hits its own leftmost bin with an odd number of its four edges |
| `RouteIds.IdsAgree` | controller/src/utils.rs:288-311 | controller and dataplane accept the same trees, give them the same id, and the dataplane recovers the tree from it |
| `RouteIds.IdsExact` | controller/src/utils.rs:288-311 | tree ids below 65536 and group ids below 16384 are accepted and numbered group * 65536 + tree; what is refused, with which error |
| `RouteIds.SlotsExact` | dataplane/src/node/route.rs:60-85 | the dataplane files a tree under that number with bit 30 set |
| `RouteIds.SlotsDistinct` | dataplane/src/node/route.rs:60-85 | no two trees of any groups share an id |
| `RoutingTable.RoutingTable.InstallRoutes` | dataplane/src/node/route.rs:105-146 | a unicast install leaves exactly the specified table and valid caches |
| `RoutingTable.RoutingTable.InstallGroupRoutes` | dataplane/src/node/route.rs:156-232 | a multicast install leaves exactly the specified table and valid caches |
| `RoutingTable.RoutingTable.SelectMulticastControlTree` | dataplane/src/node/route.rs:258-320 | with its cache, returns the least installed tree of the source and group |
| `RoutingTable.RoutingTable.SelectRouteForKey` | dataplane/src/node/route.rs:322-359 | with its cache, returns the deterministic id of a tree, or the hash choice |
| `RoutingTable.RoutingTable.GetNextHops` | dataplane/src/node/route.rs:371-452 | in every valid state the lookup through all three caches equals the lookup without caches |
| `RoutingTable.RoutingTable.PinRouteForFlow` | dataplane/src/node/route.rs:462-482 | pins exactly routes with usable hops, until the next install |
| `FlowLookups.GroupLookup` | dataplane/src/node/route.rs:240-406 | a flow to an address of the group directory from a known node is looked up in that group: in the tree it asks for, or the least one installed for its source |
| `FlowLookups.NodeLookup` | dataplane/src/node/route.rs:252-452 | any other flow between known nodes follows its pinned route, or the choice among the routes of the two nodes |
| `FlowLookups.NoLookup` | dataplane/src/node/route.rs:236-260 | every remaining flow fails |
| `FlowLookups.FlowOfParts` | dataplane/src/node/route.rs:240-256 | which of these it is depends on the source and destination address the flow id was made of |
| `FlowLookups.DirectoryLast` | dataplane/src/node/route.rs:148-154 | the last directory entry for an address gives its group |
| `FlowLookups.WithdrawnRoute` | dataplane/src/node/route.rs:105-146 | a listed unicast route keeps hops exactly if the next install brings it again |
| `TableProperties.OwnerInstallExact` | dataplane/src/node/route.rs:156-232 | after an install by the group's source, an explicit tree lookup finds exactly the installed hops, and nothing for trees not installed |
| `TableProperties.InstalledTreeFound` | dataplane/src/node/route.rs:156-232 | in any table, an installed tree is found with the hops of its last route |
| `TableProperties.KeyIffHops` | dataplane/src/node/route.rs:105-232 | a tree key is present exactly when its encoded id has hops |
| `TableProperties.ReplayOk` | dataplane/src/node/route.rs:105-232 | every history of updates with unicast ids below the flag and one source per group leaves such a table |
| `TableProperties.InstallRoutesOk` | dataplane/src/node/route.rs:105-146 | a unicast install changes no tree lookup |
| `TableProperties.InstallTreesElsewhere` | dataplane/src/node/route.rs:156-232 | a multicast install changes no unicast route and no other group |
| `TableProperties.SecondSourceExact` | dataplane/src/node/route.rs:156-232 | an install by any source leaves a tree lookup alone if and only if its last route for the tree gives the same answer or, without one, the tree has no hops or is not filed under that source |
| `TableProperties.SecondSourceOverwrites` | dataplane/src/node/route.rs:156-232 | an instance in which the second source changes the first source's hops |
| `TableProperties.SecondSourceWithdraws` | dataplane/src/node/route.rs:162-189 | an instance in which a source that withdraws its tree deletes the hops another source installed |
| `GroupRoutes.Canonicalize` | controller/src/utils.rs:314-335 | the sort and the one-pass check give the canonical trees or the first error |
| `GroupRoutes.CanonicalExact` | controller/src/utils.rs:314-335 | trees are accepted exactly when no two share an id and every id fits; they come out as the same trees, strictly ascending |
| `GroupRoutes.RejectionExact` | controller/src/utils.rs:314-335 | refused trees are refused for the least tree id that is repeated or does not fit, the missing route id first |
| `GroupRoutes.BuildNodeRoutes` | controller/src/utils.rs:377-402 | builds the node's entries of the accepted trees, or reports the error |
| `GroupRoutes.BuiltHops` | controller/src/utils.rs:337-372 | in the built entries each tree has exactly its neighbours at the node, plus the node itself if it is a member, and no entry if that is empty |
| `MulticastDelivery.FanOutPacket` | dataplane/src/node/processor.rs:1036-1069 | every hop gets exactly one copy and the packet is still there for the last |
| `MulticastDelivery.TreeDelivery` | dataplane/src/node/processor.rs:1036-1151 | forwarding along a tree ends within its height and delivers exactly one local copy at each member in the tree, none elsewhere |
| `MulticastDelivery.GroupDelivery` | controller/src/utils.rs:337-402 | the same for a packet that asks for a tree, from accepted trees, built entries, installs and full lookups at all nodes, whatever else their tables hold |
| `ControlDelivery.ControlHops` | dataplane/src/node/route.rs:258-406 | without a tree a node uses its hops in the first accepted tree in which it has any |
| `ControlDelivery.ControlExact` | dataplane/src/node/route.rs:386-406 | a node treats such a packet like one that asks for the least tree if and only if it has hops in that tree or in none |
| `ControlDelivery.ControlDelivery` | dataplane/src/node/route.rs:386-406 | if that holds at every node of the least tree, the packet is delivered exactly once at each member in it and nowhere else |
| `ControlDelivery.DetourDoubles` | dataplane/src/node/route.rs:386-406 | an instance in which it does not hold at one node and a member gets two copies |
| `UnicastRoutes.ReachableNodes` | controller/src/utils.rs:184-192 | the stack search returns exactly the reachable nodes |
| `UnicastRoutes.RouteHasMultipleDestinations` | controller/src/utils.rs:174-212 | true exactly when two different sinks are reachable from the source |
| `UnicastRoutes.BuildRoutesForNode` | controller/src/utils.rs:468-539 | one entry, with its forwarding mode, for exactly the routes in which the node has hops |
| `UnicastRoutes.UniqueSets` | controller/src/utils.rs:488-497 | the next hops are the node's neighbours, each once |
| `UnicastRoutes.UniqueNext` | controller/src/utils.rs:488-497 | they come in the order in which they appear first |
| `RouteDelivery.ForwardReachesSinks` | controller/src/utils.rs:484-531 | on an acyclic route forwarding ends, every node reached has an entry and is a sink or goes on, and each sink gets exactly one delivery per path to it, hence at least one exactly if it is reached |
| `RouteDelivery.InstalledRouteHops` | dataplane/src/node/route.rs:105-146 | after the install of what the controller built, the id of a route gives exactly the hops it was built with, if route ids are distinct |
| `RouteDelivery.OnlyRouteSelected` | dataplane/src/node/route.rs:322-452 | right after the install, a flow between the ends of the only route of its pair resolves to that route at every node of it |
| `RouteDelivery.RouteDelivery` | controller/src/utils.rs:468-539 | entries built, installed and looked up at all nodes: a flow that resolves to an acyclic route is delivered once per path at each of its sinks, nowhere else, whatever else the tables hold |
| `PairDelivery.PairSelected` | dataplane/src/node/route.rs:322-452 | right after the install a flow of a pair resolves, at every node on the pair's routes, to one of them that the node lies on |
| `PairDelivery.PairDelivery` | controller/src/utils.rs:468-539 | whichever of the pair's routes every node picks, if their edges have no cycle together: forwarding ends, one copy arrives per path along the picked hops, at least one in all, and only at sinks of the pair's routes |
| `PairDelivery.PairArrivesOnce` | controller/src/utils.rs:468-539 | if the pair's routes are paths to the destination, exactly one copy arrives, at the destination |
| `PathFinder.PathSearch.FindPaths` | examples/lp/graph.py:41-67 | the recursion over shared lists appends the completions of the path and restores it |
| `PathFinder.FromCount` | examples/lp/graph.py:41-67 | each completion is found exactly as often as its steps occur in the adjacency lists, anything else never |
| `PathFinder.FindsExactlySimplePaths` | examples/lp/graph.py:41-83 | the paths found are exactly the simple paths within the limit, each once if no list has repeats |
| `LayeredSearch.PopLeast` | examples/lp/cf_tree.py:208 | removes one entry that is least by cost, layer, node and path |
| `LayeredSearch.BeforeExact` | examples/lp/cf_tree.py:196-208 | queue entries compare by cost, then layer, node and path, each only if the ones before are equal |
| `LayeredSearch.CostIsSum` | examples/lp/cf_tree.py:228-246 | the cost of a path is the sum of its edge weights, infinite with an edge that has none |
| `LayeredDijkstra.DijkstraToTerminal` | examples/lp/cf_tree.py:180-248 | returns nothing if and only if no path through new nodes connects the terminal within the hop limit; otherwise a path of graph edges that keeps tree nodes at their depth, and no connection is cheaper if weights are not negative |
| `LayeredDijkstra.GraftAhead` | examples/lp/cf_tree.py:207-246 | while the search runs, every possible connection has a queued entry that is at least as cheap |
| `LayeredDijkstra.SuffixGraft` | examples/lp/cf_tree.py:225-246 | the part of a found path after its last tree node is itself a connection, and no dearer |
| `HopEstimates.EstimateHops` | examples/lp/cf_tree.py:315-332 | the breadth-first search returns the length of a shortest walk, and infinity exactly when there is none |
| `CfTree.OrderTerminals` | examples/lp/cf_tree.py:284-287 | exactly the terminals other than the source, each reached in as few hops as any later one, and equally near ones in their old order |
| `CfTree.PathAttached` | examples/lp/cf_tree.py:303-310 | adding a path that the search may return keeps a tree directed away from the source within the hop limit, every depth in it, and adds exactly the nodes of the path |
| `CfTree.GrowsOk` | examples/lp/cf_tree.py:289-312 | a tree grown along the ordered terminals by found paths is an arborescence of graph edges within the hop limit and contains them all |
| `CfTree.BuildCfTree` | examples/lp/cf_tree.py:251-312 | the answer is the tree grown along the ordered terminals, each connected by a path that the search may return (a cheapest one if weights are not negative), or the first terminal that nothing connects to the tree grown so far |
| `CfTreeLimits.TreeNodesReached` | examples/lp/cf_tree.py:251-312 | every node of a built tree is the end of a walk as long as its depth |
| `CfTreeLimits.OutOfReachGivesUp` | examples/lp/cf_tree.py:273-299 | with a terminal out of reach within the hop limit every outcome is an error |
| `CfTreeLimits.ShallowTreeReaches` | examples/lp/cf_tree.py:273-299 | while tree nodes lie at their shortest distance, a terminal within the hop limit is always connected |
| `CfTreeLimits.RoomyOutcome` | examples/lp/cf_tree.py:273-299 | with a hop limit of at least the number of nodes less one, an outcome is an error if and only if some terminal has no walk from the source |
| `CfTreeLimits.HopLimitMissed` | examples/lp/cf_tree.py:273-299 | an instance with both terminals within the hop limit on which the builder can only answer that the second is unreachable |
| `TreePacking.GrowTree` | examples/lp/tree_conversion.py:48-89 | the loop with its parent map builds exactly the first-fit tree of agreeing paths with new destinations |
| `TreePacking.PruneFlows` | examples/lp/tree_conversion.py:93-103 | the backward in-place loop removes exactly the covered paths and lowers the others |
| `TreePacking.PackSession` | examples/lp/tree_conversion.py:38-105 | the packing loop ends with the trees of the greedy specification |
| `TreePacking.ConvertToMulticastTrees` | examples/lp/tree_conversion.py:8-107 | one session per source of a path with non-zero rate, in order; each is the first-fit packing of its paths in falling rate, equal rates in their old order, and its first tree has the greatest rate of the session |
| `TreePacking.SessionOrdered` | examples/lp/tree_conversion.py:42-43 | the order a session is packed in: rates never rise, and of each rate there are the same flows in the same order as in the input |
| `TreePacking.SessionStarts` | examples/lp/tree_conversion.py:42-91 | a session starts with a path of its greatest rate, and its first tree carries that rate |
| `TreePacking.GrowMaximal` | examples/lp/tree_conversion.py:59-89 | no path left out of a tree could still join it |
| `TreePacking.SessionTrees` | examples/lp/tree_conversion.py:39-107 | every tree is an arborescence from its source, contains its destinations, and these differ |
| `TreePacking.SessionCovers` | examples/lp/tree_conversion.py:39-107 | summed over the trees containing it, a path gets at least its rate |
| `TreePacking.PackTight` | examples/lp/tree_conversion.py:91-103 | a path joins a tree only while the earlier trees have not covered it |
| `TreePacking.AtMostOneTreePerPath` | examples/lp/tree_conversion.py:47-105 | there are at most as many trees as paths |
| `TreePacking.PathsToEdges` | examples/lp/tree_conversion.py:110-116 | exactly the edges of the paths, once each, sorted |
| `TreeDeployment.CfTreeDelivers` | examples/lp/cf_tree.py:251-312 | a built tree, once installed, delivers within its hop limit exactly one copy to each member |
| `TreeDeployment.PackedTreeDelivers` | examples/lp/tree_conversion.py:39-107 | a packed tree, once installed, delivers exactly one copy to each destination of its paths, within the hops of the longest one |
| `TreeDeployment.PackedControlDelivers` | examples/lp/tree_conversion.py:39-107 | if the least tree of the group was packed, packets that ask for no tree are delivered in the same way, whatever the other trees are |
| `FlowIds.PackUnpack` | dataplane/src/node/mod.rs:77-98 | the accessors read back the fields a flow id was made of |
| `FlowIds.PackValue` | dataplane/src/node/mod.rs:56-98 | the source address starts at bit 96, the destination address at bit 64, the ports at bits 48 and 32 |
| `FlowIds.InvalidIsAllOnes` | dataplane/src/node/mod.rs:56-98 | the invalid flow id is that of the flow whose every field is all ones |
| `FlowIds.ReverseSwaps` | dataplane/src/node/mod.rs:100-116 | reversing swaps both endpoints, keeps the reserved bits, and is an involution |
| `Packets.BuildPacket` | dataplane/src/node/packet.rs:359-407 | the buffer writes produce exactly the specified header, option and payload bytes |
| `Packets.LosslessTransportMeta` | dataplane/src/node/packet.rs:427-481 | on arbitrary bytes the option walk ends, stays in bounds and returns what its specification says |
| `Packets.WalkFindsFirst` | dataplane/src/node/packet.rs:445-478 | on any list of well-formed options the walk returns the first lossless-session option |
| `Packets.PayloadRoundTrip` | dataplane/src/node/packet.rs:286-322 | a built packet's payload is parsed back if and only if the packet fits the 16-bit length field |
| `Packets.MetaSurvives` | dataplane/src/node/packet.rs:383-481 | session id and optional tree id are parsed back |
| `Packets.FlowIdSurvives` | dataplane/src/node/packet.rs:326-425 | the packet's flow id consists of the addresses and ports it was built for |
| `PacketFormat.SegmentPayload` | dataplane/src/node/packet.rs:286-322 | for every length of the two headers, the payload starts after both and ends at the length field or the end of the packet |
| `PacketFormat.SegmentFlow` | dataplane/src/node/packet.rs:409-425 | the flow id of any IPv4 packet consists of the addresses at 12 and 16 and the ports behind the IP header |
| `PacketFormat.SegmentOptions` | dataplane/src/node/packet.rs:427-444 | the options walked lie between the fixed TCP header and its end |
| `PacketFormat.NoSegment` | dataplane/src/node/packet.rs:286-444 | no payload and no session option are read from what is no TCP packet over IPv4 or ends before its TCP header does |
| `PacketFormat.IpHeaderBytes` | dataplane/src/node/packet.rs:359-407 | the bytes of the built IP header |
| `PacketFormat.TcpHeaderBytes` | dataplane/src/node/packet.rs:359-407 | ports, data offset and the flag byte 0x18 of the built TCP header |
| `PacketFormat.OptionBytes` | dataplane/src/node/packet.rs:383-407 | the sixteen bytes of the session option |

## Left out

- PeelingClosure.RunDecodesClosure: which sources a run that is not clean decodes is not characterised; `CountersExact` says exactly when that happens.
- WrongPayloads.RunExact: assumes a clean run and accepted bins that sources hit an odd number of times; `DoubledEdgeBreaks` shows a clean run with an even number that goes wrong without a harmful delivery.
- Decoder.MettleDecoder.PushBin: the 16-bit toucher counters are natural numbers (they never exceed 601), source ids do not wrap at 2^64, and bin ids are unbounded except where the code checks for overflow.
- TreePacking.SessionCovers: rates are whole multiples of 1e-5 and not negative; rounding of other values is not modelled.
- RoutingTable.RoutingTable.SelectRouteForKey: the consistent hash is any fixed choice among the candidates.
- LayeredDijkstra.DijkstraToTerminal: costs are exact numbers or infinite, not floating point.
- PathFinder.PathSearch.FindPaths: a missing adjacency list (a key error in the source) is excluded by requiring that every neighbour is a node.
- MulticastDelivery.TreeDelivery: a link to every next hop is assumed; the code drops a packet whose next hop has no scheduler.
- The mixing of seed, source and edge number into draws (`mix_entropy`, `next_entropy`) is an arbitrary function.
- In-place XOR on byte vectors is modelled on values; aliasing of buffers and the packet buffer pool are not part of this model.
- `OverheadRatio::new` reduces its fraction; the model takes any fraction with positive parts, reduced or not.
- `skip_next_source_without_edges` bypasses edge accounting on purpose.
- `build_routes_from_topology` and the shortest-path library behind it, custom-route merging, multicast address allocation and startup messages.
- `pick_single_hop`, flow statistics, the scheduler behind a hop, and local delivery beyond counting a copy.
- Hash-map iteration order: control-tree selection and hop lists do not depend on it.
- LP solving, weight formulas, tree rates, variable-name parsing and rounding of solver output.
- Tasks, channels, sockets, databases, the session runtime, schedulers and deployment code.
