/** The METTLE decoder (mettle/src/decoder.rs) as a state machine without the memory bounds:
    it keeps every released payload and every accepted bin id for ever, and it looks for the
    touchers of a bin among all sources.  `Decoder.dfy` shows that the bounded decoder computes
    the same results; the other decoder modules prove what those results are. */
module ReferenceDecoder {
  import opened Wrappers
  import opened Payloads
  import opened CodeGraph
  import opened SortedSets

  datatype Buffered = Buffered(payload: Payload, remaining: nat)

  datatype Released = Released(id: nat, payload: Payload)

  datatype State = State(
    history: seq<Payload>,           // the released sources 0, 1, 2, ...
    future: map<nat, Payload>,       // sources decoded ahead of the released prefix
    tlePrefix: map<nat, Payload>,    // running xor of what later TLE bins already lost
    accepted: set<nat>,              // every bin id accepted so far
    received: map<nat, Buffered>)    // the buffered bins

  datatype Outcome = Outcome(state: State, out: seq<Released>)

  const INITIAL: State := State([], map[], map[], {}, map[])

  function SaturatingDec(a: nat, b: nat): nat { if a < b then 0 else a - b }

  function Next(st: State): nat { |st.history| }

  /** A terminated stream is complete once every source is released. */
  predicate Complete(g: Graph, st: State) {
    g.terminal.Some? && Next(st) >= g.terminal.value
  }

  function Frontier(g: Graph, st: State): nat { g.tle(Next(st)) }

  predicate IsDecoded(st: State, s: nat) { s < Next(st) || s in st.future }

  ghost function Below(n: nat): (r: set<nat>)
    ensures forall s: nat :: s in r <==> s < n
  {
    if n == 0 then {} else Below(n - 1) + {n - 1}
  }

  ghost function Decoded(st: State): (d: set<nat>)
    ensures forall s: nat :: s in d <==> IsDecoded(st, s)
  {
    Below(Next(st)) + st.future.Keys
  }

  ghost function Undecoded(g: Graph, st: State, b: nat): set<nat> {
    Touchers(g, b) - Decoded(st)
  }

  function DecodedPayload(st: State, s: nat): Option<Payload> {
    if s < Next(st) then Some(st.history[s])
    else if s in st.future then Some(st.future[s])
    else None
  }

  function PrefixAt(g: Graph, st: State, t: nat): Payload {
    if t in st.tlePrefix then st.tlePrefix[t] else Zero(g.symbolBytes)
  }

  // ---------- decoding one source ----------

  /** One slot of `apply_decoded_source_edges`. */
  function ApplyEdge(g: Graph, st: State, s: nat, p: Payload, b: nat): State {
    var st1 :=
      if b in st.received then
        var bin := st.received[b];
        st.(received := st.received[b := Buffered(Xor(bin.payload, p), SaturatingDec(bin.remaining, 1))])
      else st;
    match TleSource(g, b)
    case Some(t) => if t <= s then st1 else st1.(tlePrefix := st1.tlePrefix[t := Xor(PrefixAt(g, st1, t), p)])
    case None => st1
  }

  function ApplyEdges(g: Graph, st: State, s: nat, p: Payload, edges: seq<nat>): (r: State)
    ensures r.history == st.history && r.future == st.future && r.accepted == st.accepted
    ensures r.received.Keys == st.received.Keys
    decreases edges
  {
    if edges == [] then st
    else ApplyEdges(g, ApplyEdge(g, st, s, p, edges[0]), s, p, edges[1..])
  }

  /** `drop_bins_closed_by_prefix`. */
  function DropClosed(g: Graph, st: State): (r: State)
    ensures r.history == st.history && r.future == st.future && r.accepted == st.accepted
    ensures r.received.Keys <= st.received.Keys
  {
    if Complete(g, st) then st.(received := map[], tlePrefix := map[])
    else st.(received := map b | b in st.received && b >= Frontier(g, st) :: st.received[b],
             tlePrefix := map t | t in st.tlePrefix && t >= Next(st) :: st.tlePrefix[t])
  }

  /** `release_prefix_source`. */
  function Release(g: Graph, st: State, p: Payload): (r: State)
    ensures r.history == st.history + [p] && r.future == st.future && r.accepted == st.accepted
    ensures r.received.Keys <= st.received.Keys
  {
    DropClosed(g, st.(history := st.history + [p]))
  }

  /** Releases sources already decoded ahead, as long as they continue the prefix. */
  function ReleaseReady(g: Graph, st: State): (r: Outcome)
    ensures r.state.accepted == st.accepted
    ensures r.state.received.Keys <= st.received.Keys
    decreases st.future.Keys
  {
    if Next(st) in st.future then
      var s, p := Next(st), st.future[Next(st)];
      var rest := ReleaseReady(g, Release(g, st.(future := st.future - {s}), p));
      Outcome(rest.state, [Released(s, p)] + rest.out)
    else Outcome(st, [])
  }

  /** `decode_source_and_release`. */
  function DecodeAndRelease(g: Graph, st: State, s: nat, p: Payload): (r: Outcome)
    ensures r.state.accepted == st.accepted
    ensures r.state.received.Keys <= st.received.Keys
  {
    var applied := ApplyEdges(g, st, s, p, g.edges(s));
    if s == Next(st) then
      var rest := ReleaseReady(g, Release(g, applied, p));
      Outcome(rest.state, [Released(s, p)] + rest.out)
    else Outcome(applied.(future := applied.future[s := p]), [])
  }

  // ---------- draining ----------

  /** The first bin among `edges` that is buffered with one undecoded toucher. */
  function FirstUnique(received: map<nat, Buffered>, edges: seq<nat>): (b: Option<nat>)
    ensures b.Some? ==> b.value in edges && b.value in received && received[b.value].remaining == 1
    ensures b.None? ==> forall e :: e in edges && e in received ==> received[e].remaining != 1
  {
    if edges == [] then None
    else if edges[0] in received && received[edges[0]].remaining == 1 then Some(edges[0])
    else FirstUnique(received, edges[1..])
  }

  /** A buffered bin whose only undecoded toucher is a source beyond the next one. */
  ghost predicate IsFutureBin(g: Graph, st: State, b: nat) {
    && b in st.received && st.received[b].remaining == 1
    && exists s: nat :: s > Next(st) && Undecoded(g, st, b) == {s}
  }

  ghost function FutureBins(g: Graph, st: State): set<nat> {
    set b | b in st.received && IsFutureBin(g, st, b)
  }

  /** The smallest of them, as `find_unique_future_bin` finds it in bin order. */
  ghost function FutureBin(g: Graph, st: State): (r: Option<nat>)
    ensures r.Some? ==> r.value in FutureBins(g, st)
    ensures forall b: nat :: b in FutureBins(g, st) ==> r.Some? && r.value <= b
  {
    Least(FutureBins(g, st))
  }

  ghost function OnlyUndecoded(g: Graph, st: State, b: nat): (s: nat)
    requires IsFutureBin(g, st, b)
    ensures s > Next(st) && Undecoded(g, st, b) == {s}
  {
    var s: nat :| s > Next(st) && Undecoded(g, st, b) == {s};
    s
  }

  function WithoutBin(st: State, b: nat): State {
    st.(received := st.received - {b})
  }

  /** `drain_decodable_sources`. */
  ghost function Drain(g: Graph, st: State): (r: Outcome)
    ensures r.state.accepted == st.accepted
    ensures r.state.received.Keys <= st.received.Keys
    decreases st.received.Keys
  {
    match FirstUnique(st.received, g.edges(Next(st)))
    case Some(b) =>
      var step := DecodeAndRelease(g, WithoutBin(st, b), Next(st), st.received[b].payload);
      assert b !in step.state.received.Keys;
      var rest := Drain(g, step.state);
      Outcome(rest.state, step.out + rest.out)
    case None =>
      match FutureBin(g, st)
      case Some(b) =>
        var step := DecodeAndRelease(g, WithoutBin(st, b), OnlyUndecoded(g, st, b), st.received[b].payload);
        assert b !in step.state.received.Keys;
        var rest := Drain(g, step.state);
        Outcome(rest.state, step.out + rest.out)
      case None => Outcome(st, [])
  }

  // ---------- receiving ----------

  /** Removes the decoded payloads of the touchers below `n` from a non-TLE bin. */
  function PeelScan(g: Graph, st: State, b: nat, n: nat, p: Payload): Payload {
    if n == 0 then p
    else
      var q := PeelScan(g, st, b, n - 1, p);
      if InStream(n - 1, g.terminal) && b in g.edges(n - 1) && DecodedPayload(st, n - 1).Some?
      then Xor(q, DecodedPayload(st, n - 1).value)
      else q
  }

  /** `peel_known_prefix_from_bin`. */
  function Peel(g: Graph, st: State, b: nat, p: Payload): Payload {
    match TleSource(g, b)
    case Some(t) => if t in st.tlePrefix then Xor(p, st.tlePrefix[t]) else p
    case None => PeelScan(g, st, b, g.latest(b) + 1, p)
  }

  /** A bin the decoder looks at: right payload size, representable latest source. */
  predicate Acceptable(g: Graph, b: nat, p: Payload) {
    |p| == g.symbolBytes && g.representable(b)
  }

  /** Buffering a bin that is not the TLE bin of the next source. */
  ghost function Buffer(g: Graph, st: State, b: nat, p: Payload): State {
    st.(received := st.received[b := Buffered(Peel(g, st, b, p), |Undecoded(g, st, b)|)])
  }

  /** The fast path of `push_bin`: the TLE bin of the next source while nothing is buffered. */
  function FastPath(g: Graph, st: State, p: Payload): Outcome {
    DecodeAndRelease(g, st.(tlePrefix := st.tlePrefix - {Next(st)}), Next(st),
                     if Next(st) in st.tlePrefix then Xor(p, st.tlePrefix[Next(st)]) else p)
  }

  ghost function DecodeAndDrain(g: Graph, st: State, s: nat, p: Payload): (r: Outcome)
    ensures r.state.accepted == st.accepted
  {
    var step := DecodeAndRelease(g, st, s, p);
    var rest := Drain(g, step.state);
    Outcome(rest.state, step.out + rest.out)
  }

  /** `push_bin` after a new bin passed the checks. */
  ghost function Accept(g: Graph, st: State, b: nat, p: Payload): (r: Outcome)
    ensures r.state.accepted == st.accepted
  {
    if b == Frontier(g, st) && st.received == map[] then FastPath(g, st, p)
    else if TleSource(g, b).None? && b < Frontier(g, st) then Outcome(st, [])
    else if b == Frontier(g, st) then DecodeAndDrain(g, st, Next(st), Peel(g, st, b, p))
    else if Undecoded(g, st, b) == {} then Outcome(st, [])
    else Drain(g, Buffer(g, st, b, p))
  }

  /** `push_bin`. */
  ghost function PushBin(g: Graph, st: State, b: nat, p: Payload): Outcome {
    if Complete(g, st) || !Acceptable(g, b, p) || b in st.accepted then Outcome(st, [])
    else Accept(g, st.(accepted := st.accepted + {b}), b, p)
  }

  /** A delivery: a bin id with the payload that came with it. */
  datatype Delivery = Delivery(bin: nat, payload: Payload)

  /** A whole run from the empty decoder: any bins, in any order, lost or repeated. */
  ghost function Run(g: Graph, ds: seq<Delivery>): Outcome {
    if ds == [] then Outcome(INITIAL, [])
    else
      var before := Run(g, ds[..|ds| - 1]);
      var last := ds[|ds| - 1];
      var step := PushBin(g, before.state, last.bin, last.payload);
      Outcome(step.state, before.out + step.out)
  }

  /** The acceptable bin ids of a run. */
  ghost function Delivered(g: Graph, ds: seq<Delivery>): set<nat> {
    set i | 0 <= i < |ds| && Acceptable(g, ds[i].bin, ds[i].payload) :: ds[i].bin
  }
}
