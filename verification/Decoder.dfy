/** The METTLE decoder with its memory bounds (mettle/src/decoder.rs): a ring of 601 released
    payloads, bin ids forgotten behind the frontier, and scans over at most 601 candidates.  It
    refines the unbounded decoder of `ReferenceDecoder.dfy`: same outputs, same state, for every
    delivery. */
module Decoder {
  import opened Wrappers
  import opened Params
  import opened Payloads
  import opened CodeGraph
  import opened MettleCode
  import opened ReferenceDecoder
  import SortedSets

  const DECODED_PREFIX_WINDOW: nat := CodeGraph.COUPLING_WINDOW + 1

  // ---------- why the bounds suffice ----------

  lemma UndecodedAt(g: Graph, st: State, b: nat, s: nat)
    requires Legal(g)
    ensures s in Undecoded(g, st, b) <==> InStream(s, g.terminal) && b in g.edges(s) && !IsDecoded(st, s)
  {
    TouchersComplete(g, s, b);
  }

  /** A released source that touches a bin at or right of the frontier is one of the last 600. */
  lemma RingCovers(g: Graph, st: State, b: nat, s: nat)
    requires Legal(g) && b >= Frontier(g, st) && b in g.edges(s)
    ensures Next(st) <= s + CodeGraph.COUPLING_WINDOW
  {
    assert Next(st) <= g.latest(b);
  }

  lemma {:induction false} PeelScanSkip(g: Graph, st: State, b: nat, n: nat, m: nat, p: Payload)
    requires n <= m && forall s: nat :: n <= s < m ==> !(InStream(s, g.terminal) && b in g.edges(s))
    ensures PeelScan(g, st, b, m, p) == PeelScan(g, st, b, n, p)
  {
    if n < m {
      PeelScanSkip(g, st, b, n, m - 1, p);
    }
  }

  /** Only the candidates [lo, hi] matter. */
  lemma PeelScanRange(g: Graph, st: State, b: nat, lo: nat, hi: nat, p: Payload)
    requires lo <= hi <= g.latest(b)
    requires forall s: nat :: InStream(s, g.terminal) && b in g.edges(s) ==> lo <= s <= hi
    ensures PeelScan(g, st, b, lo, p) == p
    ensures PeelScan(g, st, b, g.latest(b) + 1, p) == PeelScan(g, st, b, hi + 1, p)
  {
    PeelScanSkip(g, st, b, 0, lo, p);
    PeelScanSkip(g, st, b, hi + 1, g.latest(b) + 1, p);
  }

  /** A range of all sources whose window contains the bin covers its touchers. */
  lemma RangeCovers(code: Code, b: nat, range: Option<(nat, nat)>)
    requires range.Some? ==> IsSourceRange(code, b, range.value.0, range.value.1)
    requires forall s: nat :: InStream(s, code.terminal) && WindowContains(code.c, s, b, code.terminal) ==>
               range.Some? && range.value.0 <= s <= range.value.1
    ensures range.Some? ==> range.value.1 <= GraphOf(code).latest(b)
    ensures forall s: nat :: InStream(s, code.terminal) && b in GraphOf(code).edges(s) ==>
              range.Some? && range.value.0 <= s <= range.value.1
  {
    if range.Some? {
      WindowSources(code.c, range.value.1, b, code.terminal);
    }
    forall s: nat | InStream(s, code.terminal) && b in GraphOf(code).edges(s)
      ensures range.Some? && range.value.0 <= s <= range.value.1
    {
      EdgesInWindow(code, s, b);
    }
  }

  /** What one decoded toucher changes. */
  ghost function PeelTerm(g: Graph, st: State, b: nat, s: nat, p: Payload): Payload {
    if b in g.edges(s) && DecodedPayload(st, s).Some? then Xor(p, DecodedPayload(st, s).value) else p
  }

  lemma PeelScanStep(g: Graph, st: State, b: nat, s: nat, p: Payload)
    requires InStream(s, g.terminal)
    ensures PeelScan(g, st, b, s + 1, p) == PeelTerm(g, st, b, s, PeelScan(g, st, b, s, p))
  {
  }

  /** Accepting a bin behind the frontier has no effect, so forgetting it is harmless. */
  lemma StaleAccept(g: Graph, st: State, b: nat, p: Payload)
    requires Legal(g)
    ensures b < Frontier(g, st) ==> Accept(g, st, b, p) == Outcome(st, [])
  {
    if b < Frontier(g, st) {
      TouchersBelow(g, b, Next(st));
      assert Undecoded(g, st, b) == {};
    }
  }

  lemma NoFutureBin(g: Graph, st: State)
    requires forall b: nat :: b in st.received ==> !IsFutureBin(g, st, b)
    ensures FutureBin(g, st).None?
  {
  }

  lemma LeastFutureBin(g: Graph, st: State, b: nat)
    requires IsFutureBin(g, st, b)
    requires forall b': nat :: b' in st.received && b' < b ==> !IsFutureBin(g, st, b')
    ensures FutureBin(g, st) == Some(b)
  {
    assert b in FutureBins(g, st);
  }

  lemma OneAhead(g: Graph, st: State, b: nat, s: nat)
    requires b in st.received && st.received[b].remaining == 1 && s > Next(st) && Undecoded(g, st, b) == {s}
    ensures IsFutureBin(g, st, b) && OnlyUndecoded(g, st, b) == s
  {
    assert IsFutureBin(g, st, b);
    assert OnlyUndecoded(g, st, b) in {s};
  }

  /** The first such bin in an ordered scan is the least one. */
  lemma FirstInKeys(g: Graph, st: State, keys: seq<nat>, i: nat)
    requires i < |keys| && IsFutureBin(g, st, keys[i])
    requires forall k: nat :: k in keys <==> k in st.received.Keys
    requires forall j, k :: 0 <= j < k < |keys| ==> keys[j] < keys[k]
    requires forall j :: 0 <= j < i ==> !IsFutureBin(g, st, keys[j])
    ensures FutureBin(g, st) == Some(keys[i])
  {
    forall b: nat | b in st.received && b < keys[i] ensures !IsFutureBin(g, st, b) {
      assert b in keys;
      var j :| 0 <= j < |keys| && keys[j] == b;
      assert !(i < j) && j != i;
    }
    LeastFutureBin(g, st, keys[i]);
  }

  lemma NoneInKeys(g: Graph, st: State, keys: seq<nat>)
    requires forall k: nat :: k in keys <==> k in st.received.Keys
    requires forall j :: 0 <= j < |keys| ==> !IsFutureBin(g, st, keys[j])
    ensures FutureBin(g, st).None?
  {
    forall b: nat | b in st.received ensures !IsFutureBin(g, st, b) {
      assert b in keys;
      var j :| 0 <= j < |keys| && keys[j] == b;
    }
    NoFutureBin(g, st);
  }

  lemma ChainOut(out: seq<Released>, step: Outcome, rest: Outcome, whole: Outcome)
    requires whole == Outcome(rest.state, step.out + rest.out)
    ensures Outcome(whole.state, out + whole.out) == Outcome(rest.state, (out + step.out) + rest.out)
  {
    assert out + (step.out + rest.out) == (out + step.out) + rest.out;
  }

  /** One round of releasing. */
  lemma ReleaseRound(g: Graph, st: State, next: State, first: Released)
    requires Next(st) in st.future
    requires next == Release(g, st.(future := st.future - {Next(st)}), st.future[Next(st)])
    requires first == Released(Next(st), st.future[Next(st)])
    ensures ReleaseReady(g, st) == Outcome(ReleaseReady(g, next).state, [first] + ReleaseReady(g, next).out)
  {
  }

  /** One round of draining, for the next source or for one ahead of it. */
  lemma DrainRound(g: Graph, st: State, s: nat, b: nat, step: Outcome)
    requires b in st.received
    requires (s == Next(st) && FirstUnique(st.received, g.edges(Next(st))) == Some(b))
             || (FirstUnique(st.received, g.edges(Next(st))).None? && FutureBin(g, st) == Some(b)
                 && IsFutureBin(g, st, b) && s == OnlyUndecoded(g, st, b))
    requires step == DecodeAndRelease(g, WithoutBin(st, b), s, st.received[b].payload)
    ensures Drain(g, st) == Outcome(Drain(g, step.state).state, step.out + Drain(g, step.state).out)
  {
  }

  lemma DrainDone(g: Graph, st: State)
    requires FirstUnique(st.received, g.edges(Next(st))).None? && FutureBin(g, st).None?
    ensures Drain(g, st) == Outcome(st, [])
  {
  }

  class MettleDecoder {
    const code: Code
    ghost const graph: Graph
    var nextDecodedSourceId: nat
    var decodedPrefixStartSourceId: nat
    var decodedPrefixPayloads: seq<Payload>
    var decodedFuturePayloads: map<nat, Payload>
    var decodedTlePrefixXors: map<nat, Payload>
    var seenBinIds: set<nat>
    var receivedBins: map<nat, Buffered>
    ghost var history: seq<Payload>   // every released payload
    ghost var accepted: set<nat>      // every accepted bin id

    /** The trigger keeps the arithmetic of the graph out of proofs that do not mention it. */
    ghost predicate Linked() {
      && Legal(graph)
      && (forall c: Code {:trigger GraphOf(c)} :: c == code ==> graph == GraphOf(c))
      && graph.symbolBytes == code.symbolBytes && graph.terminal == code.terminal
    }

    /** The state of the unbounded decoder that this decoder stands for. */
    ghost function View(): State
      reads this
    {
      State(history, decodedFuturePayloads, decodedTlePrefixXors, accepted, receivedBins)
    }

    /** The ring holds the last 601 released payloads, or all of them. */
    ghost predicate RingOk()
      reads this
    {
      && nextDecodedSourceId == |history|
      && |decodedPrefixPayloads| <= DECODED_PREFIX_WINDOW
      && decodedPrefixStartSourceId + |decodedPrefixPayloads| == |history|
      && (decodedPrefixStartSourceId > 0 ==> |decodedPrefixPayloads| == DECODED_PREFIX_WINDOW)
      && decodedPrefixPayloads == history[decodedPrefixStartSourceId..]
    }

    /** Only accepted ids behind the frontier may have been forgotten. */
    ghost predicate SeenOk()
      reads this
    {
      && seenBinIds <= accepted
      && (!Complete(graph, View()) ==>
            forall b: nat :: b in accepted && b >= Frontier(graph, View()) ==> b in seenBinIds)
    }

    ghost predicate ReceivedOk()
      reads this
    {
      forall b: nat :: b in receivedBins ==> graph.representable(b)
    }

    ghost predicate Valid()
      reads this
    {
      Linked() && RingOk() && SeenOk() && ReceivedOk()
    }

    constructor (code: Code)
      ensures Valid() && this.code == code && graph == GraphOf(code) && View() == INITIAL
    {
      this.code := code;
      this.graph := GraphOf(code);
      nextDecodedSourceId := 0;
      decodedPrefixStartSourceId := 0;
      decodedPrefixPayloads := [];
      decodedFuturePayloads := map[];
      decodedTlePrefixXors := map[];
      seenBinIds := {};
      receivedBins := map[];
      history := [];
      accepted := {};
      GraphLegal(code);
    }

    // ---------- the graph, as the code computes it ----------

    method EdgeIds(s: nat) returns (edges: seq<nat>)
      requires Linked()
      ensures edges == graph.edges(s)
    {
      assert graph == GraphOf(code);
      edges := EdgeBinIds(code, s);
    }

    method TleOf(s: nat) returns (b: nat)
      requires Linked()
      ensures b == graph.tle(s)
    {
      assert graph == GraphOf(code);
      b := TleBin(code.c, s);
    }

    method IsRepresentable(b: nat) returns (r: bool)
      requires Linked()
      ensures r == graph.representable(b)
    {
      assert graph == GraphOf(code);
      r := LatestSourceId(code.c, b).Some?;
    }

    method TleSourceIdForBin(b: nat) returns (r: Option<nat>)
      requires Linked()
      ensures r == TleSource(graph, b)
    {
      assert graph == GraphOf(code);
      var latest := LatestSourceId(code.c, b);
      if latest.Some? && InStream(latest.value, code.terminal) && TleBin(code.c, latest.value) == b {
        r := latest;
      } else {
        r := None;
      }
    }

    /** The bounded candidate range contains every toucher of the bin. */
    method SourceRange(b: nat) returns (range: Option<(nat, nat)>)
      requires Linked() && graph.representable(b)
      ensures range.Some? ==>
                range.value.0 <= range.value.1 <= graph.latest(b) && InStream(range.value.1, graph.terminal)
      ensures forall s: nat :: InStream(s, graph.terminal) && b in graph.edges(s) ==>
                range.Some? && range.value.0 <= s <= range.value.1
    {
      assert graph == GraphOf(code);
      RepresentableExact(code, b);
      range := PossibleSourceRange(code, b);
      RangeCovers(code, b, range);
    }

    // ---------- searching ----------

    method CountRemainingTouchers(b: nat) returns (count: nat)
      requires Valid() && graph.representable(b)
      ensures count == |Undecoded(graph, View(), b)|
    {
      var range := SourceRange(b);
      UndecodedMembers(b);
      if range.None? {
        assert Undecoded(graph, View(), b) == {};
        return 0;
      }
      count := CountFrom(b, range.value.0, range.value.1, Undecoded(graph, View(), b));
    }

    /** The counting loop over the candidates [lo, hi]. */
    method CountFrom(b: nat, lo: nat, hi: nat, ghost undecoded: set<nat>) returns (count: nat)
      requires Linked() && nextDecodedSourceId == |history|
      requires InStream(hi, graph.terminal)
      requires forall s: nat :: s in undecoded <==> IsUndecodedToucher(b, s)
      requires forall s: nat :: s in undecoded ==> lo <= s <= hi
      ensures count == |undecoded|
    {
      count := 0;
      var s := Max(lo, nextDecodedSourceId);
      ghost var found: set<nat> := {};
      while s <= hi
        invariant s >= nextDecodedSourceId
        invariant count == |found|
        invariant forall u: nat :: u in found <==> u in undecoded && u < s
      {
        var counts := IsCandidate(b, s);
        if counts {
          found := found + {s};
          count := count + 1;
        }
        s := s + 1;
      }
      assert found == undecoded;
    }

    lemma UndecodedMembers(b: nat)
      requires Linked()
      ensures forall s: nat :: s in Undecoded(graph, View(), b) <==> IsUndecodedToucher(b, s)
    {
      forall s: nat ensures s in Undecoded(graph, View(), b) <==> IsUndecodedToucher(b, s) {
        UndecodedAt(graph, View(), b, s);
      }
    }

    ghost predicate IsUndecodedToucher(b: nat, s: nat)
      reads this
    {
      InStream(s, graph.terminal) && b in graph.edges(s) && !IsDecoded(View(), s)
    }

    /** The test inside the two scans; the scanned range lies inside the stream. */
    method IsCandidate(b: nat, s: nat) returns (r: bool)
      requires Linked() && nextDecodedSourceId == |history| && s >= nextDecodedSourceId
      ensures r <==> b in graph.edges(s) && !IsDecoded(View(), s)
    {
      var edges := EdgeIds(s);
      r := s !in decodedFuturePayloads && b in edges;
    }

    method UniqueUndecodedToucher(b: nat) returns (unique: Option<nat>)
      requires Valid() && graph.representable(b)
      ensures unique.Some? ==> Undecoded(graph, View(), b) == {unique.value}
      ensures unique.None? ==> forall s: nat :: Undecoded(graph, View(), b) != {s}
    {
      var range := SourceRange(b);
      UndecodedMembers(b);
      if range.None? {
        assert Undecoded(graph, View(), b) == {};
        return None;
      }
      unique := UniqueFrom(b, range.value.0, range.value.1, Undecoded(graph, View(), b));
    }

    /** The uniqueness loop over the candidates [lo, hi]. */
    method UniqueFrom(b: nat, lo: nat, hi: nat, ghost undecoded: set<nat>) returns (unique: Option<nat>)
      requires Linked() && nextDecodedSourceId == |history|
      requires InStream(hi, graph.terminal)
      requires forall s: nat :: s in undecoded <==> IsUndecodedToucher(b, s)
      requires forall s: nat :: s in undecoded ==> lo <= s <= hi
      ensures unique.Some? ==> undecoded == {unique.value}
      ensures unique.None? ==> forall s: nat :: undecoded != {s}
    {
      unique := None;
      var s := Max(lo, nextDecodedSourceId);
      while s <= hi
        invariant s >= nextDecodedSourceId
        invariant forall u: nat :: u in undecoded && u < s <==> unique == Some(u)
      {
        var candidate := IsCandidate(b, s);
        if candidate {
          if unique.Some? {
            TwoMembers(undecoded, unique.value, s);
            return None;
          }
          unique := Some(s);
        }
        s := s + 1;
      }
      OneMember(undecoded, unique);
    }

    static lemma TwoMembers(t: set<nat>, a: nat, b: nat)
      requires a in t && b in t && a != b
      ensures forall s: nat :: t != {s}
    {
    }

    static lemma OneMember(t: set<nat>, unique: Option<nat>)
      requires forall u: nat :: u in t <==> unique == Some(u)
      ensures unique.Some? ==> t == {unique.value}
      ensures unique.None? ==> forall s: nat :: t != {s}
    {
      if unique.None? {
        assert t == {};
      }
    }

    method FindUniqueBinForNextSource() returns (r: Option<nat>)
      requires Valid()
      ensures r == FirstUnique(receivedBins, graph.edges(nextDecodedSourceId))
    {
      var edges := EdgeIds(nextDecodedSourceId);
      var i := 0;
      while i < |edges|
        invariant 0 <= i <= |edges|
        invariant FirstUnique(receivedBins, edges) == FirstUnique(receivedBins, edges[i..])
      {
        assert edges[i..][1..] == edges[i + 1..];
        if edges[i] in receivedBins && receivedBins[edges[i]].remaining == 1 {
          return Some(edges[i]);
        }
        i := i + 1;
      }
      r := None;
    }

    /** The test inside the scan: the only undecoded source of a buffered bin, if it lies ahead. */
    method FutureSource(b: nat) returns (s: Option<nat>)
      requires Valid() && b in receivedBins
      ensures s.Some? <==> IsFutureBin(graph, View(), b)
      ensures s.Some? ==> s.value == OnlyUndecoded(graph, View(), b)
    {
      s := None;
      if receivedBins[b].remaining == 1 {
        var unique := UniqueUndecodedToucher(b);
        if unique.Some? && unique.value > nextDecodedSourceId {
          OneAhead(graph, View(), b, unique.value);
          s := unique;
        }
      }
    }

    /** The ordered scan over the buffer. */
    method FindUniqueFutureBin() returns (r: Option<(nat, nat)>)
      requires Valid()
      ensures r.None? ==> FutureBin(graph, View()).None?
      ensures r.Some? ==>
                && FutureBin(graph, View()) == Some(r.value.1) && IsFutureBin(graph, View(), r.value.1)
                && r.value.0 == OnlyUndecoded(graph, View(), r.value.1)
    {
      var keys := SortedSets.SortedKeys(receivedBins.Keys);
      ghost var st := View();
      var i := 0;
      while i < |keys|
        invariant 0 <= i <= |keys|
        invariant forall j :: 0 <= j < i ==> !IsFutureBin(graph, st, keys[j])
      {
        var b := keys[i];
        assert b in keys;
        var s := FutureSource(b);
        if s.Some? {
          FirstInKeys(graph, st, keys, i);
          return Some((s.value, b));
        }
        i := i + 1;
      }
      NoneInKeys(graph, st, keys);
      r := None;
    }

    // ---------- peeling an arriving bin ----------

    method DecodedSourcePayload(s: nat) returns (r: Option<Payload>)
      requires Valid()
      ensures nextDecodedSourceId <= s + CodeGraph.COUPLING_WINDOW ==> r == DecodedPayload(View(), s)
    {
      if s >= decodedPrefixStartSourceId && s - decodedPrefixStartSourceId < |decodedPrefixPayloads| {
        r := Some(decodedPrefixPayloads[s - decodedPrefixStartSourceId]);
      } else if s in decodedFuturePayloads {
        r := Some(decodedFuturePayloads[s]);
      } else {
        r := None;
      }
    }

    /** At or right of the frontier the ring is enough: peeling with it equals peeling with every
        released payload. */
    method PeelKnownPrefixFromBin(b: nat, payload: Payload) returns (peeled: Payload)
      requires Valid() && graph.representable(b)
      requires TleSource(graph, b).Some? || b >= Frontier(graph, View())
      ensures peeled == Peel(graph, View(), b, payload)
    {
      var tle := TleSourceIdForBin(b);
      if tle.Some? {
        return if tle.value in decodedTlePrefixXors then Xor(payload, decodedTlePrefixXors[tle.value]) else payload;
      }
      peeled := PeelRange(b, payload);
    }

    method PeelRange(b: nat, payload: Payload) returns (peeled: Payload)
      requires Valid() && graph.representable(b) && b >= Frontier(graph, View())
      ensures peeled == PeelScan(graph, View(), b, graph.latest(b) + 1, payload)
    {
      var range := SourceRange(b);
      if range.None? {
        PeelScanSkip(graph, View(), b, 0, graph.latest(b) + 1, payload);
        return payload;
      }
      PeelScanRange(graph, View(), b, range.value.0, range.value.1, payload);
      peeled := PeelFrom(b, range.value.0, range.value.1, payload);
    }

    /** The peeling loop over the candidates [lo, hi]. */
    method PeelFrom(b: nat, lo: nat, hi: nat, payload: Payload) returns (peeled: Payload)
      requires Valid() && b >= Frontier(graph, View()) && lo <= hi && InStream(hi, graph.terminal)
      requires PeelScan(graph, View(), b, lo, payload) == payload
      ensures peeled == PeelScan(graph, View(), b, hi + 1, payload)
    {
      peeled := payload;
      ghost var st := View();
      var s := lo;
      while s <= hi
        invariant lo <= s <= hi + 1
        invariant peeled == PeelScan(graph, st, b, s, payload)
      {
        peeled := PeelNext(b, s, peeled, st, payload);
        s := s + 1;
      }
    }

    method PeelNext(b: nat, s: nat, payload: Payload, ghost st: State, ghost start: Payload) returns (peeled: Payload)
      requires Valid() && st == View() && b >= Frontier(graph, st) && InStream(s, graph.terminal)
      requires payload == PeelScan(graph, st, b, s, start)
      ensures peeled == PeelScan(graph, st, b, s + 1, start)
    {
      peeled := PeelOne(b, s, payload);
      PeelScanStep(graph, st, b, s, start);
    }

    method PeelOne(b: nat, s: nat, payload: Payload) returns (peeled: Payload)
      requires Valid() && b >= Frontier(graph, View())
      ensures peeled == PeelTerm(graph, View(), b, s, payload)
    {
      var decoded := DecodedSourcePayload(s);
      var edges := EdgeIds(s);
      if decoded.Some? && b in edges {
        RingCovers(graph, View(), b, s);
        peeled := Xor(payload, decoded.value);
      } else {
        if b in edges {
          RingCovers(graph, View(), b, s);
        }
        peeled := payload;
      }
    }

    // ---------- decoding ----------

    method ApplyDecodedSourceEdges(s: nat, payload: Payload)
      requires Valid()
      modifies this`receivedBins, this`decodedTlePrefixXors
      ensures Valid() && View() == ApplyEdges(graph, old(View()), s, payload, graph.edges(s))
    {
      var edges := EdgeIds(s);
      var i := 0;
      ghost var target := ApplyEdges(graph, View(), s, payload, edges);
      while i < |edges|
        invariant 0 <= i <= |edges|
        invariant Linked() && receivedBins.Keys == old(receivedBins.Keys)
        invariant ApplyEdges(graph, View(), s, payload, edges[i..]) == target
      {
        assert edges[i..][1..] == edges[i + 1..];
        ApplySlot(s, payload, edges[i]);
        i := i + 1;
      }
    }

    method ApplySlot(s: nat, payload: Payload, b: nat)
      requires Linked()
      modifies this`receivedBins, this`decodedTlePrefixXors
      ensures View() == ApplyEdge(graph, old(View()), s, payload, b)
      ensures receivedBins.Keys == old(receivedBins.Keys)
    {
      if b in receivedBins {
        var bin := receivedBins[b];
        receivedBins := receivedBins[b := Buffered(Xor(bin.payload, payload), SaturatingDec(bin.remaining, 1))];
      }
      var tle := TleSourceIdForBin(b);
      if tle.Some? && tle.value > s {
        var t := tle.value;
        var prefix := if t in decodedTlePrefixXors then decodedTlePrefixXors[t] else Zero(code.symbolBytes);
        decodedTlePrefixXors := decodedTlePrefixXors[t := Xor(prefix, payload)];
      }
    }

    method ReleasePrefixSource(payload: Payload) returns (out: Released)
      requires Valid()
      modifies this
      ensures Valid() && View() == Release(graph, old(View()), payload)
      ensures out == Released(old(nextDecodedSourceId), payload)
    {
      out := Released(nextDecodedSourceId, payload);
      PushDecodedPrefixPayload(payload);
      nextDecodedSourceId := nextDecodedSourceId + 1;
      DropBinsClosedByPrefix(Release(graph, old(View()), payload));
    }

    /** The ring forgets its oldest payload once it holds 601. */
    method PushDecodedPrefixPayload(payload: Payload)
      requires RingOk()
      modifies this`decodedPrefixPayloads, this`decodedPrefixStartSourceId, this`history
      ensures history == old(history) + [payload]
      ensures |decodedPrefixPayloads| <= DECODED_PREFIX_WINDOW
      ensures decodedPrefixStartSourceId + |decodedPrefixPayloads| == |history|
      ensures decodedPrefixStartSourceId > 0 ==> |decodedPrefixPayloads| == DECODED_PREFIX_WINDOW
      ensures decodedPrefixPayloads == history[decodedPrefixStartSourceId..]
    {
      decodedPrefixPayloads := decodedPrefixPayloads + [payload];
      history := history + [payload];
      if |decodedPrefixPayloads| > DECODED_PREFIX_WINDOW {
        decodedPrefixPayloads := decodedPrefixPayloads[1..];
        decodedPrefixStartSourceId := decodedPrefixStartSourceId + 1;
      }
    }

    method DropBinsClosedByPrefix(ghost target: State)
      requires Linked() && RingOk() && ReceivedOk() && target == DropClosed(graph, View())
      requires seenBinIds <= accepted
      requires !Complete(graph, View()) ==>
                 forall b: nat :: b in accepted && b >= Frontier(graph, View()) ==> b in seenBinIds
      modifies this`receivedBins, this`seenBinIds, this`decodedTlePrefixXors
      ensures Valid() && View() == target
    {
      if code.terminal.Some? && nextDecodedSourceId >= code.terminal.value {
        receivedBins := map[];
        decodedTlePrefixXors := map[];
        seenBinIds := {};
        return;
      }
      var frontier := TleOf(nextDecodedSourceId);
      ForgetBehind(frontier);
    }

    method ForgetBehind(frontier: nat)
      requires Linked() && RingOk() && ReceivedOk() && seenBinIds <= accepted
      requires !Complete(graph, View()) && frontier == Frontier(graph, View())
      requires forall b: nat :: b in accepted && b >= frontier ==> b in seenBinIds
      modifies this`receivedBins, this`seenBinIds, this`decodedTlePrefixXors
      ensures Valid() && View() == DropClosed(graph, old(View()))
    {
      receivedBins := map b | b in receivedBins && b >= frontier :: receivedBins[b];
      seenBinIds := set b | b in seenBinIds && b >= frontier;
      decodedTlePrefixXors :=
        map t | t in decodedTlePrefixXors && t >= nextDecodedSourceId :: decodedTlePrefixXors[t];
    }

    method DecodeSourceAndRelease(s: nat, payload: Payload) returns (out: seq<Released>)
      requires Valid()
      modifies this
      ensures Valid() && Outcome(View(), out) == DecodeAndRelease(graph, old(View()), s, payload)
    {
      ApplyDecodedSourceEdges(s, payload);
      if s == nextDecodedSourceId {
        var first := ReleasePrefixSource(payload);
        out := ReleaseReadySources();
        out := [first] + out;
      } else {
        decodedFuturePayloads := decodedFuturePayloads[s := payload];
        out := [];
      }
    }

    method ReleaseReadySources() returns (out: seq<Released>)
      requires Valid()
      modifies this
      ensures Valid() && Outcome(View(), out) == ReleaseReady(graph, old(View()))
    {
      out := [];
      while nextDecodedSourceId in decodedFuturePayloads
        invariant Valid()
        invariant ReleaseReady(graph, old(View()))
                  == Outcome(ReleaseReady(graph, View()).state, out + ReleaseReady(graph, View()).out)
        decreases decodedFuturePayloads.Keys
      {
        ghost var before := View();
        var payload := decodedFuturePayloads[nextDecodedSourceId];
        decodedFuturePayloads := decodedFuturePayloads - {nextDecodedSourceId};
        var released := ReleasePrefixSource(payload);
        ReleaseRound(graph, before, View(), released);
        ChainOut(out, Outcome(View(), [released]), ReleaseReady(graph, View()), ReleaseReady(graph, before));
        out := out + [released];
      }
    }

    method DrainDecodableSources() returns (out: seq<Released>)
      requires Valid()
      modifies this
      ensures Valid() && Outcome(View(), out) == Drain(graph, old(View()))
    {
      out := [];
      while true
        invariant Valid()
        invariant Drain(graph, old(View())) == Outcome(Drain(graph, View()).state, out + Drain(graph, View()).out)
        decreases receivedBins.Keys
      {
        ghost var before := View();
        var b := FindUniqueBinForNextSource();
        if b.Some? {
          var s := nextDecodedSourceId;
          var step := DecodeBuffered(s, b.value);
          DrainRound(graph, before, s, b.value, Outcome(View(), step));
          ChainOut(out, Outcome(View(), step), Drain(graph, View()), Drain(graph, before));
          out := out + step;
          continue;
        }
        var future := FindUniqueFutureBin();
        if future.None? {
          DrainDone(graph, View());
          return;
        }
        var (s, bin) := future.value;
        var step := DecodeBuffered(s, bin);
        DrainRound(graph, before, s, bin, Outcome(View(), step));
        ChainOut(out, Outcome(View(), step), Drain(graph, View()), Drain(graph, before));
        out := out + step;
      }
    }

    method DecodeBuffered(s: nat, b: nat) returns (out: seq<Released>)
      requires Valid() && b in receivedBins
      modifies this
      ensures Valid()
      ensures Outcome(View(), out)
              == DecodeAndRelease(graph, WithoutBin(old(View()), b), s, old(receivedBins)[b].payload)
      ensures receivedBins.Keys < old(receivedBins.Keys)
    {
      var payload := receivedBins[b].payload;
      receivedBins := receivedBins - {b};
      assert View() == WithoutBin(old(View()), b);
      out := DecodeSourceAndRelease(s, payload);
    }

    // ---------- receiving ----------

    /** Forgetting bin ids behind the frontier and keeping 601 payloads never shows: whatever is
        delivered, also again, the outcome is that of the unbounded decoder. */
    method PushBin(b: nat, payload: Payload) returns (out: seq<Released>)
      requires Valid()
      modifies this
      ensures Valid() && Outcome(View(), out) == ReferenceDecoder.PushBin(graph, old(View()), b, payload)
    {
      if code.terminal.Some? && nextDecodedSourceId >= code.terminal.value {
        return [];
      }
      var representable := IsRepresentable(b);
      if |payload| != code.symbolBytes || !representable {
        return [];
      }
      if b in seenBinIds {
        return [];
      }
      seenBinIds := seenBinIds + {b};
      accepted := accepted + {b};
      assert b in old(accepted) ==> View() == old(View());
      StaleAccept(graph, View(), b, payload);
      out := AcceptBin(b, payload);
    }

    method AcceptBin(b: nat, payload: Payload) returns (out: seq<Released>)
      requires Valid() && graph.representable(b) && !Complete(graph, View())
      modifies this
      ensures Valid() && Outcome(View(), out) == Accept(graph, old(View()), b, payload)
    {
      var frontier := TleOf(nextDecodedSourceId);
      if b == frontier && receivedBins == map[] {
        out := TakeFastPath(payload);
        return;
      }
      var tle := TleSourceIdForBin(b);
      if tle.None? && b < frontier {
        return [];
      }
      var peeled := PeelKnownPrefixFromBin(b, payload);
      if b == frontier {
        out := DecodeAndDrainSources(peeled);
        return;
      }
      var remaining := CountRemainingTouchers(b);
      if remaining == 0 {
        assert Undecoded(graph, View(), b) == {};
        return [];
      }
      out := BufferAndDrain(b, peeled, remaining);
    }

    method BufferAndDrain(b: nat, peeled: Payload, remaining: nat) returns (out: seq<Released>)
      requires Valid() && graph.representable(b) && remaining == |Undecoded(graph, View(), b)|
      modifies this
      ensures Valid()
      ensures forall payload :: peeled == Peel(graph, old(View()), b, payload) ==>
                Outcome(View(), out) == Drain(graph, Buffer(graph, old(View()), b, payload))
    {
      receivedBins := receivedBins[b := Buffered(peeled, remaining)];
      out := DrainDecodableSources();
    }

    method TakeFastPath(payload: Payload) returns (out: seq<Released>)
      requires Valid()
      modifies this
      ensures Valid() && Outcome(View(), out) == FastPath(graph, old(View()), payload)
    {
      var s := nextDecodedSourceId;
      var own := if s in decodedTlePrefixXors then Xor(payload, decodedTlePrefixXors[s]) else payload;
      decodedTlePrefixXors := decodedTlePrefixXors - {s};
      assert View() == old(View()).(tlePrefix := old(View()).tlePrefix - {s});
      out := DecodeSourceAndRelease(s, own);
    }

    method DecodeAndDrainSources(own: Payload) returns (out: seq<Released>)
      requires Valid()
      modifies this
      ensures Valid()
      ensures Outcome(View(), out) == DecodeAndDrain(graph, old(View()), old(nextDecodedSourceId), own)
    {
      var first := DecodeSourceAndRelease(nextDecodedSourceId, own);
      var rest := DrainDecodableSources();
      out := first + rest;
    }
  }
}
