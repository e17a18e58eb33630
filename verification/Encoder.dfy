/** The METTLE encoder (mettle/src/encoder.rs). */
module Encoder {
  import opened Params
  import opened Payloads
  import opened CodeGraph
  import opened MettleCode
  import opened EncodedBins
  import opened SortedSets

  // ---------- the open bins ----------

  /** Some source below `k` has bin `b` among its edges. */
  ghost predicate Touched(g: Graph, b: nat, k: nat) {
    exists s: nat :: s < k && b in g.edges(s)
  }

  function Content(open: map<nat, Payload>, b: nat, n: nat): Payload {
    if b in open then open[b] else Zero(n)
  }

  /** Bin `b` is open exactly when it lies at or right of `from` and was touched, and it holds
      what the sources pushed so far put into it. */
  ghost predicate OpenAt(g: Graph, sources: seq<Payload>, open: map<nat, Payload>, from: nat, b: nat)
    requires Sized(sources, g.symbolBytes)
  {
    && (b in open <==> b >= from && Touched(g, b, |sources|))
    && (b in open ==> open[b] == Partial(g, sources, b, |sources|))
  }

  ghost predicate IsOpen(g: Graph, sources: seq<Payload>, open: map<nat, Payload>, from: nat)
    requires Sized(sources, g.symbolBytes)
  {
    forall b: nat {:trigger b in open} :: OpenAt(g, sources, open, from, b)
  }

  function XorSlot(open: map<nat, Payload>, b: nat, p: Payload): map<nat, Payload> {
    open[b := Xor(Content(open, b, |p|), p)]
  }

  /** The xor loop of `push_source`, one slot at a time. */
  function XorSlots(open: map<nat, Payload>, edges: seq<nat>, p: Payload): map<nat, Payload>
    decreases edges
  {
    if edges == [] then open else XorSlots(XorSlot(open, edges[0], p), edges[1..], p)
  }

  lemma {:induction false} XorSlotsAt(open: map<nat, Payload>, edges: seq<nat>, p: Payload, b: nat)
    requires |Content(open, b, |p|)| == |p|
    ensures Content(XorSlots(open, edges, p), b, |p|)
            == if Mult(edges, b) % 2 == 1 then Xor(Content(open, b, |p|), p) else Content(open, b, |p|)
    decreases edges
  {
    if edges != [] {
      var next := XorSlot(open, edges[0], p);
      assert Content(next, b, |p|) == if edges[0] == b then Xor(Content(open, b, |p|), p) else Content(open, b, |p|);
      XorSlotsAt(next, edges[1..], p, b);
      XorCancel(Content(open, b, |p|), p);
      MultHead(edges, b);
    }
  }

  /** A bin right of the frontier that is not open holds nothing yet. */
  lemma ContentIsPartial(g: Graph, sources: seq<Payload>, open: map<nat, Payload>, from: nat, b: nat)
    requires Sized(sources, g.symbolBytes) && IsOpen(g, sources, open, from) && b >= from
    ensures Content(open, b, g.symbolBytes) == Partial(g, sources, b, |sources|)
  {
    if b !in open {
      SumEmpty(sources, g.symbolBytes, OddTouchers(g, b), |sources|);
    }
  }

  lemma TouchedStep(g: Graph, b: nat, k: nat)
    ensures Touched(g, b, k + 1) <==> Touched(g, b, k) || b in g.edges(k)
  {
  }

  /** The content after one more source. */
  lemma ContentStep(g: Graph, sources: seq<Payload>, open: map<nat, Payload>, from: nat, p: Payload, b: nat)
    requires Legal(g) && Sized(sources, g.symbolBytes) && |p| == g.symbolBytes
    requires IsOpen(g, sources, open, from) && b >= from && InStream(|sources|, g.terminal)
    ensures Sized(sources + [p], g.symbolBytes)
    ensures Content(XorSlots(open, g.edges(|sources|), p), b, g.symbolBytes)
            == Partial(g, sources + [p], b, |sources| + 1)
  {
    ContentIsPartial(g, sources, open, from, b);
    XorSlotsAt(open, g.edges(|sources|), p, b);
    PartialGrows(g, sources, p, b);
  }

  /** Which bins are open after one more source. */
  lemma KeysStep(g: Graph, sources: seq<Payload>, open: map<nat, Payload>, from: nat, p: Payload, b: nat)
    requires Legal(g) && Sized(sources, g.symbolBytes) && |p| == g.symbolBytes
    requires IsOpen(g, sources, open, from) && from <= g.tle(|sources|) && InStream(|sources|, g.terminal)
    ensures b in XorSlots(open, g.edges(|sources|), p) <==> b >= from && Touched(g, b, |sources| + 1)
  {
    assert b in open <==> b >= from && Touched(g, b, |sources|);
    TouchedStep(g, b, |sources|);
    SlotKeys(open, g.edges(|sources|), p, b);
  }

  lemma {:induction false} SlotKeys(open: map<nat, Payload>, edges: seq<nat>, p: Payload, b: nat)
    ensures b in XorSlots(open, edges, p) <==> b in open || b in edges
    decreases edges
  {
    if edges != [] {
      SlotKeys(XorSlot(open, edges[0], p), edges[1..], p, b);
    }
  }

  lemma OpenStepAt(g: Graph, sources: seq<Payload>, open: map<nat, Payload>, from: nat, p: Payload, b: nat)
    requires Legal(g) && Sized(sources, g.symbolBytes) && |p| == g.symbolBytes
    requires IsOpen(g, sources, open, from) && from <= g.tle(|sources|) && InStream(|sources|, g.terminal)
    ensures OpenAt(g, sources + [p], XorSlots(open, g.edges(|sources|), p), from, b)
  {
    KeysStep(g, sources, open, from, p, b);
    if b >= from {
      ContentStep(g, sources, open, from, p, b);
    } else {
      PartialGrows(g, sources, p, b);
    }
  }

  lemma OpenStep(g: Graph, sources: seq<Payload>, open: map<nat, Payload>, from: nat, p: Payload)
    requires Legal(g) && Sized(sources, g.symbolBytes) && |p| == g.symbolBytes
    requires IsOpen(g, sources, open, from) && from <= g.tle(|sources|) && InStream(|sources|, g.terminal)
    ensures Sized(sources + [p], g.symbolBytes)
    ensures IsOpen(g, sources + [p], XorSlots(open, g.edges(|sources|), p), from)
    ensures g.tle(|sources|) < g.tle(|sources| + 1)
  {
    forall b: nat ensures OpenAt(g, sources + [p], XorSlots(open, g.edges(|sources|), p), from, b) {
      OpenStepAt(g, sources, open, from, p, b);
    }
  }

  function DropBelow(open: map<nat, Payload>, end: nat): map<nat, Payload> {
    map b | b in open && b >= end :: open[b]
  }

  lemma OpenAfter(g: Graph, sources: seq<Payload>, open: map<nat, Payload>, from: nat, end: nat)
    requires Sized(sources, g.symbolBytes) && IsOpen(g, sources, open, from) && from <= end
    ensures IsOpen(g, sources, DropBelow(open, end), end)
  {
    forall b: nat ensures OpenAt(g, sources, DropBelow(open, end), end, b) {
      assert b in open <==> b >= from && Touched(g, b, |sources|);
    }
  }

  lemma InitiallyOpen(g: Graph)
    ensures Sized([], g.symbolBytes) && IsOpen(g, [], map[], 0)
  {
    forall b: nat ensures OpenAt(g, [], map[], 0, b) {
    }
  }

  /** No bin is open at or right of a place that no source of the stream reaches. */
  lemma NothingOpen(g: Graph, sources: seq<Payload>, open: map<nat, Payload>, from: nat)
    requires Legal(g) && Sized(sources, g.symbolBytes) && IsOpen(g, sources, open, from)
    requires g.terminal.Some? ==> |sources| <= g.terminal.value
    requires |sources| == 0 || forall b: nat :: b >= from ==> Touchers(g, b) == {}
    ensures open == map[]
  {
    forall b: nat ensures b !in open {
      if b in open {
        assert Touched(g, b, |sources|);
        var s: nat :| s < |sources| && b in g.edges(s);
        TouchersComplete(g, s, b);
      }
    }
    assert open.Keys == {};
  }

  // ---------- emitting ----------

  lemma HasIndex(ks: seq<nat>, b: nat)
    ensures b in ks ==> exists j :: 0 <= j < |ks| && ks[j] == b
  {
  }

  /** The merge loop of `take_finalized_bins_until`: every id of [from, end) once, in order. */
  method MergeFinalized(open: map<nat, Payload>, from: nat, end: nat, n: nat) returns (bins: seq<Bin>)
    requires from <= end && forall b: nat :: b in open ==> b >= from
    ensures |bins| == end - from
    ensures forall i :: 0 <= i < |bins| ==> bins[i] == Bin(from + i, Content(open, from + i, n))
  {
    var finalized := SortedKeys(set b | b in open && b < end);
    assert forall j :: 0 <= j < |finalized| ==> finalized[j] in finalized;
    var next, b := 0, from;
    bins := [];
    while b < end
      invariant from <= b <= end && |bins| == b - from
      invariant 0 <= next <= |finalized|
      invariant forall j :: 0 <= j < |finalized| ==> (j < next <==> finalized[j] < b)
      invariant forall i :: 0 <= i < |bins| ==> bins[i] == Bin(from + i, Content(open, from + i, n))
    {
      var payload;
      if next < |finalized| && finalized[next] == b {
        payload := open[b];
        next := next + 1;
      } else {
        HasIndex(finalized, b);
        payload := Zero(n);
      }
      bins := bins + [Bin(b, payload)];
      b := b + 1;
    }
  }

  /** The ordered iteration of `flush_open_bins`. */
  method InOrder(open: map<nat, Payload>) returns (bins: seq<Bin>)
    ensures forall i, j :: 0 <= i < j < |bins| ==> bins[i].id < bins[j].id
    ensures forall i :: 0 <= i < |bins| ==> bins[i].id in open && bins[i].payload == open[bins[i].id]
    ensures forall b: nat :: b in open ==> exists i :: 0 <= i < |bins| && bins[i].id == b
  {
    var keys := SortedKeys(open.Keys);
    assert forall j :: 0 <= j < |keys| ==> keys[j] in keys;
    bins := [];
    for i := 0 to |keys|
      invariant |bins| == i
      invariant forall j :: 0 <= j < i ==> bins[j] == Bin(keys[j], open[keys[j]])
    {
      bins := bins + [Bin(keys[i], open[keys[i]])];
    }
    forall b: nat | b in open ensures exists i :: 0 <= i < |bins| && bins[i].id == b {
      var j :| 0 <= j < |keys| && keys[j] == b;
      assert bins[j].id == b;
    }
  }

  /** `bins` start at id `from` and hold what the sources pushed so far put into them. */
  ghost predicate ArePartials(g: Graph, sources: seq<Payload>, bins: seq<Bin>, from: nat)
    requires Sized(sources, g.symbolBytes)
  {
    forall i :: 0 <= i < |bins| ==> bins[i] == Bin(from + i, Partial(g, sources, from + i, |sources|))
  }

  /** A piece of emitted bins that starts at the frontier is a piece of the finished stream. */
  lemma PartialsAreEncoded(g: Graph, sources: seq<Payload>, all: seq<Payload>, bins: seq<Bin>, from: nat, end: nat)
    requires Legal(g) && Sized(sources, g.symbolBytes) && Sized(all, g.symbolBytes) && sources <= all
    requires from <= end && |bins| == end - from
    requires ArePartials(g, sources, bins, from)
    requires end <= g.tle(|sources|) || (all == sources && from >= g.tle(|sources|))
    ensures bins == Encoded(g, all, from, end)
  {
    forall i | 0 <= i < |bins| ensures bins[i] == Encoded(g, all, from, end)[i] {
      if end <= g.tle(|sources|) {
        FinalBin(g, sources, all, from + i);
      } else {
        OpenBin(g, sources, from + i);
      }
    }
  }

  lemma PartialsAreAlwaysEncoded(g: Graph, sources: seq<Payload>, bins: seq<Bin>, from: nat, end: nat)
    requires Legal(g) && Sized(sources, g.symbolBytes)
    requires from <= end <= g.tle(|sources|) && |bins| == end - from
    requires ArePartials(g, sources, bins, from)
    ensures forall all :: Sized(all, g.symbolBytes) && sources <= all ==> bins == Encoded(g, all, from, end)
  {
    forall all | Sized(all, g.symbolBytes) && sources <= all ensures bins == Encoded(g, all, from, end) {
      PartialsAreEncoded(g, sources, all, bins, from, end);
    }
  }

  lemma EmittedPartials(g: Graph, sources: seq<Payload>, open: map<nat, Payload>, bins: seq<Bin>, from: nat)
    requires Sized(sources, g.symbolBytes) && IsOpen(g, sources, open, from)
    requires forall i :: 0 <= i < |bins| ==> bins[i] == Bin(from + i, Content(open, from + i, g.symbolBytes))
    ensures ArePartials(g, sources, bins, from)
  {
    forall i | 0 <= i < |bins| ensures bins[i] == Bin(from + i, Partial(g, sources, from + i, |sources|)) {
      ContentIsPartial(g, sources, open, from, from + i);
    }
  }

  lemma FlushedBins(g: Graph, sources: seq<Payload>, open: map<nat, Payload>, from: nat)
    requires Legal(g) && Sized(sources, g.symbolBytes) && IsOpen(g, sources, open, from) && from == g.tle(|sources|)
    ensures forall b: nat :: b >= from && Touched(g, b, |sources|) ==> b in open
    ensures forall b: nat :: b in open ==> b >= from && open[b] == BinPayload(g, sources, b)
  {
    forall b: nat | b in open ensures b >= from && open[b] == BinPayload(g, sources, b) {
      OpenBin(g, sources, b);
    }
    forall b: nat | b >= from && Touched(g, b, |sources|) ensures b in open {
      assert OpenAt(g, sources, open, from, b) by { assert b in open || b !in open; }
    }
  }

  class MettleEncoder {
    const code: Code
    ghost const graph: Graph
    var nextSourceId: nat
    var nextDepartureBinId: nat
    var openBins: map<nat, Payload>
    ghost var sources: seq<Payload>   // the padded sources pushed so far

    /** The trigger keeps the arithmetic of the graph out of proofs that do not mention it. */
    ghost predicate Linked() {
      && Legal(graph)
      && (forall c: Code {:trigger GraphOf(c)} :: c == code ==> graph == GraphOf(c))
      && graph.symbolBytes == code.symbolBytes && graph.terminal == code.terminal
    }

    ghost predicate Valid()
      reads this
    {
      && Linked()
      && Sized(sources, graph.symbolBytes)
      && nextSourceId == |sources|
      && (graph.terminal.Some? ==> |sources| <= graph.terminal.value)
      && nextDepartureBinId == graph.tle(nextSourceId)
      && IsOpen(graph, sources, openBins, nextDepartureBinId)
    }

    constructor (code: Code)
      ensures Valid() && this.code == code && sources == [] && nextDepartureBinId == 0
    {
      this.code := code;
      this.graph := GraphOf(code);
      nextSourceId := 0;
      nextDepartureBinId := 0;
      openBins := map[];
      sources := [];
      GraphLegal(code);
      InitiallyOpen(GraphOf(code));
    }

    /** Pads and xors a source into its bins, then releases the bins that no later source can
        touch: however the stream goes on, they are the bins of the whole stream. */
    method PushSource(payload: Payload) returns (bins: seq<Bin>)
      requires Valid() && |payload| <= graph.symbolBytes && InStream(nextSourceId, graph.terminal)
      modifies this
      ensures Valid() && sources == old(sources) + [Pad(payload, graph.symbolBytes)]
      ensures IsPadded(sources[|old(sources)|], payload, graph.symbolBytes)
      ensures old(nextDepartureBinId) < nextDepartureBinId
      ensures forall all :: Sized(all, graph.symbolBytes) && sources <= all ==>
                bins == Encoded(graph, all, old(nextDepartureBinId), nextDepartureBinId)
    {
      AddSource(Pad(payload, code.symbolBytes));
      var end := DepartureFrontier(nextSourceId);
      bins := TakeFinalizedBinsUntil(end);
      PartialsAreAlwaysEncoded(graph, sources, bins, old(nextDepartureBinId), end);
    }

    /** The state between the xor loop and the release. */
    method AddSource(padded: Payload)
      requires Valid() && |padded| == graph.symbolBytes && InStream(nextSourceId, graph.terminal)
      modifies this`openBins, this`nextSourceId, this`sources
      ensures nextSourceId == |sources| && sources == old(sources) + [padded]
      ensures Sized(sources, graph.symbolBytes)
      ensures IsOpen(graph, sources, openBins, nextDepartureBinId)
      ensures nextDepartureBinId < graph.tle(nextSourceId)
    {
      OpenStep(graph, sources, openBins, nextDepartureBinId, padded);
      XorIntoBins(padded);
      sources := sources + [padded];
      nextSourceId := nextSourceId + 1;
    }

    method DepartureFrontier(count: nat) returns (b: nat)
      requires Linked()
      ensures b == graph.tle(count)
    {
      assert graph == GraphOf(code);
      b := TleBin(code.c, count);
    }

    /** The xor loop over the four slots of the next source. */
    method XorIntoBins(padded: Payload)
      requires Linked()
      modifies this`openBins
      ensures openBins == XorSlots(old(openBins), graph.edges(nextSourceId), padded)
    {
      assert graph == GraphOf(code);
      var edges := EdgeBinIds(code, nextSourceId);
      var i := 0;
      while i < |edges|
        invariant 0 <= i <= |edges|
        invariant XorSlots(openBins, edges[i..], padded) == XorSlots(old(openBins), edges, padded)
      {
        assert edges[i..][1..] == edges[i + 1..];
        openBins := XorSlot(openBins, edges[i], padded);
        i := i + 1;
      }
    }

    /** Emits every bin id up to `end`, with zeros where no source touched the bin. */
    method TakeFinalizedBinsUntil(end: nat) returns (bins: seq<Bin>)
      requires Linked() && Sized(sources, graph.symbolBytes) && nextDepartureBinId <= end
      requires IsOpen(graph, sources, openBins, nextDepartureBinId)
      modifies this`openBins, this`nextDepartureBinId
      ensures nextDepartureBinId == end && IsOpen(graph, sources, openBins, end)
      ensures |bins| == end - old(nextDepartureBinId)
      ensures ArePartials(graph, sources, bins, old(nextDepartureBinId))
    {
      var from, open := nextDepartureBinId, openBins;
      bins := MergeFinalized(open, from, end, code.symbolBytes);
      openBins := DropBelow(open, end);
      nextDepartureBinId := end;
      OpenAfter(graph, sources, open, from, end);
      EmittedPartials(graph, sources, open, bins, from);
    }

    /** Ends a terminated stream: every remaining id below the stream end is emitted, sources
        that were never pushed counting as zeros, and no bin stays open. */
    method FinishTerminated() returns (bins: seq<Bin>)
      requires Valid() && code.terminal.Some?
      modifies this
      ensures openBins == map[]
      ensures code.terminal.value == 0 ==> bins == []
      ensures code.terminal.value > 0 ==>
                && IsStreamEnd(code.c, code.terminal.value, nextDepartureBinId)
                && old(nextDepartureBinId) <= nextDepartureBinId
                && bins == Encoded(graph, old(sources), old(nextDepartureBinId), nextDepartureBinId)
      ensures sources == old(sources)
    {
      var n := code.terminal.value;
      var end := TerminalDepartureEnd(code.c, n);
      if n == 0 {
        NothingOpen(graph, sources, openBins, nextDepartureBinId);
        return [];
      }
      assert graph == GraphOf(code);
      StreamEndBounds(code, n, end);
      bins := TakeFinalizedBinsUntil(end);
      PartialsAreEncoded(graph, sources, sources, bins, old(nextDepartureBinId), end);
      NothingOpen(graph, sources, openBins, end);
    }

    /** Ends an endless stream: the bins that are still open are emitted in increasing order. */
    method FlushOpenBins() returns (bins: seq<Bin>)
      requires Valid()
      modifies this`openBins
      ensures openBins == map[]
      ensures forall i, j :: 0 <= i < j < |bins| ==> bins[i].id < bins[j].id
      ensures forall b: nat :: b >= nextDepartureBinId && Touched(graph, b, |sources|)
                               ==> exists i :: 0 <= i < |bins| && bins[i].id == b
      ensures forall i :: 0 <= i < |bins| ==>
                bins[i].id >= nextDepartureBinId && bins[i].payload == BinPayload(graph, sources, bins[i].id)
    {
      FlushedBins(graph, sources, openBins, nextDepartureBinId);
      bins := InOrder(openBins);
      openBins := map[];
    }
  }
}
