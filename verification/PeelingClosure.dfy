/** What the decoder recovers: exactly the peeling closure of the bins delivered so far. */
module PeelingClosure {
  import opened Payloads
  import opened CodeGraph
  import opened ReferenceDecoder

  // ---------- the reference: a least closed set ----------

  ghost predicate OthersIn(t: set<nat>, s: nat, d: set<nat>) {
    t - {s} <= d
  }

  /** `d` contains every source that is the last unknown toucher of some bin in `bins`. */
  ghost predicate IsClosed(g: Graph, bins: set<nat>, d: set<nat>) {
    forall b, s :: b in bins && s in Touchers(g, b) && OthersIn(Touchers(g, b), s, d) ==> s in d
  }

  /** `d` lies in every set that is closed under peeling the given bins. */
  ghost predicate Justified(g: Graph, bins: set<nat>, d: set<nat>) {
    forall c: set<nat> :: IsClosed(g, bins, c) ==> d <= c
  }

  /** `d` is the least set of sources closed under peeling the given bins. */
  ghost predicate IsPeelingClosure(g: Graph, bins: set<nat>, d: set<nat>) {
    IsClosed(g, bins, d) && Justified(g, bins, d)
  }

  // ---------- the invariant ----------

  ghost predicate AllSimple(g: Graph, bins: set<nat>) {
    forall b :: b in bins ==> Simple(g, b)
  }

  /** Future sources lie beyond the prefix (`open`: or continue it), and the buffer holds only
      representable bins at or right of the frontier. */
  ghost predicate WellFormed(g: Graph, st: State, open: bool) {
    && (forall s: nat :: s in st.future ==> InStream(s, g.terminal) && s >= Next(st))
    && (!open ==> Next(st) !in st.future)
    && (g.terminal.Some? ==> Next(st) <= g.terminal.value)
    && BufferPlaced(g, st)
  }

  ghost predicate BufferPlaced(g: Graph, st: State) {
    forall b: nat :: b in st.received ==> !Complete(g, st) && b >= Frontier(g, st) && g.representable(b)
  }

  /** Every counter is the number of undecoded touchers. */
  ghost predicate Counted(g: Graph, received: map<nat, Buffered>, d: set<nat>) {
    forall b :: b in received ==> received[b].remaining == |Touchers(g, b) - d|
  }

  /** A delivered bin is buffered, still pending, or used up. */
  ghost predicate Covered(g: Graph, received: map<nat, Buffered>, bins: set<nat>, d: set<nat>, pending: set<nat>) {
    forall b :: b in bins && b !in received && b !in pending ==> Touchers(g, b) <= d
  }

  /** Every decoded source came out of a delivered bin that it touches. */
  ghost predicate Witnessed(g: Graph, bins: set<nat>, d: set<nat>) {
    forall s :: s in d ==> exists b :: b in bins && s in Touchers(g, b)
  }

  ghost predicate Control(g: Graph, received: map<nat, Buffered>, bins: set<nat>, d: set<nat>, pending: set<nat>) {
    && received.Keys <= bins
    && Counted(g, received, d)
    && Covered(g, received, bins, d, pending)
    && Justified(g, bins, d)
    && Witnessed(g, bins, d)
  }

  /** No buffered bin is down to one undecoded toucher. */
  ghost predicate Quiet(st: State) {
    forall b :: b in st.received ==> st.received[b].remaining != 1
  }

  ghost predicate Inv(g: Graph, st: State, bins: set<nat>) {
    && WellFormed(g, st, false)
    && Control(g, st.received, bins, Decoded(st), {})
    && Quiet(st)
    && st.accepted <= bins
    && (!Complete(g, st) ==> st.accepted == bins)
  }

  // ---------- clean steps ----------

  /** Decoding `s` lowers no counter too far: a buffered bin that it hits more than once has no
      other undecoded toucher. */
  ghost predicate CleanStep(g: Graph, received: map<nat, Buffered>, s: nat) {
    forall b :: b in received ==> Mult(g.edges(s), b) <= 1 || received[b].remaining <= 1
  }

  /** Every source decoded while draining is decoded in a clean step. */
  ghost predicate CleanDrain(g: Graph, st: State)
    decreases st.received.Keys
  {
    match FirstUnique(st.received, g.edges(Next(st)))
    case Some(b) => CleanTake(g, st, b, Next(st))
    case None =>
      match FutureBin(g, st)
      case Some(b) => CleanTake(g, st, b, OnlyUndecoded(g, st, b))
      case None => true
  }

  /** Taking source `s` out of the buffered bin `b`, and draining on. */
  ghost predicate CleanTake(g: Graph, st: State, b: nat, s: nat)
    requires b in st.received
    decreases st.received.Keys, 0
  {
    var rest := DecodeAndRelease(g, WithoutBin(st, b), s, st.received[b].payload).state;
    assert b !in rest.received.Keys;
    CleanStep(g, WithoutBin(st, b).received, s) && CleanDrain(g, rest)
  }

  /** The decoder ignores the bin. */
  predicate Ignored(g: Graph, st: State, b: nat, p: Payload) {
    Complete(g, st) || !Acceptable(g, b, p) || b in st.accepted
  }

  ghost predicate CleanAccept(g: Graph, st: State, b: nat, p: Payload) {
    if b < Frontier(g, st) then true
    else if b == Frontier(g, st) then
      && CleanStep(g, st.received, Next(st))
      && (st.received == map[] || CleanDrain(g, DecodeAndRelease(g, st, Next(st), Peel(g, st, b, p)).state))
    else Undecoded(g, st, b) == {} || CleanDrain(g, Buffer(g, st, b, p))
  }

  ghost predicate CleanPush(g: Graph, st: State, b: nat, p: Payload) {
    Ignored(g, st, b, p) || CleanAccept(g, st.(accepted := st.accepted + {b}), b, p)
  }

  /** Over the whole run, every source is decoded in a clean step. */
  ghost predicate CleanRun(g: Graph, ds: seq<Delivery>) {
    forall i :: 0 <= i < |ds| ==> CleanPush(g, Run(g, ds[..i]).state, ds[i].bin, ds[i].payload)
  }

  // ---------- sets ----------

  lemma RemoveOne(t: set<nat>, d: set<nat>, s: nat)
    requires s !in d
    ensures s in t ==> |t - (d + {s})| == |t - d| - 1
    ensures s !in t ==> t - (d + {s}) == t - d
  {
    if s in t {
      assert t - (d + {s}) == (t - d) - {s};
    } else {
      assert t - (d + {s}) == t - d;
    }
  }

  lemma LastOne(t: set<nat>, d: set<nat>, s: nat)
    requires s in t && s !in d && t - {s} <= d
    ensures t - d == {s} && |t - d| == 1
  {
    assert t - d == {s};
  }

  lemma Singleton(t: set<nat>) returns (s: nat)
    requires |t| == 1
    ensures t == {s}
  {
    s :| s in t;
    assert |t - {s}| == 0;
    assert t == t - {s} + {s};
  }

  // ---------- applying the edges of a decoded source ----------

  lemma {:induction false} ApplyEdgesCounts(g: Graph, st: State, s: nat, p: Payload, edges: seq<nat>, b: nat)
    requires b in st.received
    ensures ApplyEdges(g, st, s, p, edges).received[b].remaining
            == SaturatingDec(st.received[b].remaining, Mult(edges, b))
    decreases edges
  {
    if edges != [] {
      ApplyEdgesCounts(g, ApplyEdge(g, st, s, p, edges[0]), s, p, edges[1..], b);
    }
  }

  /** Exactly when one decoded source keeps a counter right: it hits the bin with one edge only,
      or it is the last undecoded toucher anyway. */
  lemma CounterExact(g: Graph, b: nat, d: set<nat>, s: nat)
    requires Legal(g) && s in Touchers(g, b) && s !in d
    ensures SaturatingDec(|Touchers(g, b) - d|, Mult(g.edges(s), b)) == |Touchers(g, b) - (d + {s})|
            <==> Mult(g.edges(s), b) == 1 || |Touchers(g, b) - d| == 1
  {
    RemoveOne(Touchers(g, b), d, s);
  }

  lemma ApplyCountsOne(g: Graph, b: nat, d: set<nat>, s: nat)
    requires Legal(g) && InStream(s, g.terminal) && s !in d
    ensures |Touchers(g, b) - (d + {s})| == SaturatingDec(|Touchers(g, b) - d|, Mult(g.edges(s), b))
            <==> Mult(g.edges(s), b) <= 1 || |Touchers(g, b) - d| <= 1
  {
    TouchersComplete(g, s, b);
    if s in Touchers(g, b) {
      CounterExact(g, b, d, s);
    } else {
      RemoveOne(Touchers(g, b), d, s);
    }
  }

  /** Exactly the clean steps keep all counters right. */
  lemma ApplyCounted(g: Graph, st: State, d: set<nat>, s: nat, p: Payload)
    requires Legal(g) && Counted(g, st.received, d)
    requires InStream(s, g.terminal) && s !in d
    ensures Counted(g, ApplyEdges(g, st, s, p, g.edges(s)).received, d + {s}) <==> CleanStep(g, st.received, s)
  {
    forall b | b in st.received
      ensures ApplyEdges(g, st, s, p, g.edges(s)).received[b].remaining == |Touchers(g, b) - (d + {s})|
              <==> Mult(g.edges(s), b) <= 1 || st.received[b].remaining <= 1
    {
      ApplyEdgesCounts(g, st, s, p, g.edges(s), b);
      ApplyCountsOne(g, b, d, s);
    }
  }

  /** A source that is the last unknown toucher of a delivered bin is in every closed set. */
  lemma JustifyOne(g: Graph, bins: set<nat>, d: set<nat>, b: nat, s: nat)
    requires Justified(g, bins, d) && b in bins && Touchers(g, b) - d == {s}
    ensures Justified(g, bins, d + {s})
  {
    assert s in Touchers(g, b) - d;
    forall c: set<nat> | IsClosed(g, bins, c) ensures d + {s} <= c {
      assert Touchers(g, b) - {s} <= d;
      assert OthersIn(Touchers(g, b), s, c);
    }
  }

  lemma ApplyControl(g: Graph, st: State, bins: set<nat>, d: set<nat>, b: nat, s: nat, p: Payload)
    requires Legal(g) && CleanStep(g, st.received, s)
    requires Control(g, st.received, bins, d, {b}) && b in bins
    requires Touchers(g, b) - d == {s}
    ensures Control(g, ApplyEdges(g, st, s, p, g.edges(s)).received, bins, d + {s}, {})
  {
    assert s in Touchers(g, b) - d;
    ApplyCounted(g, st, d, s, p);
    JustifyOne(g, bins, d, b, s);
    assert Touchers(g, b) <= d + {s};
  }

  // ---------- releasing ----------

  /** Bins behind the frontier have no undecoded toucher, so dropping them loses nothing. */
  lemma DropCovered(g: Graph, st: State, bins: set<nat>, d: set<nat>)
    requires Legal(g) && Covered(g, st.received, bins, d, {})
    requires forall s: nat :: s < Next(st) ==> s in d
    ensures Covered(g, DropClosed(g, st).received, bins, d, {})
  {
    forall b | b in bins && b !in DropClosed(g, st).received ensures Touchers(g, b) <= d {
      if b in st.received && !Complete(g, st) {
        TouchersBelow(g, b, Next(st));
      }
    }
  }

  lemma DropControl(g: Graph, st: State, bins: set<nat>, d: set<nat>)
    requires Legal(g) && Control(g, st.received, bins, d, {})
    requires forall s: nat :: s < Next(st) ==> s in d
    requires forall b: nat :: b in st.received ==> g.representable(b)
    ensures Control(g, DropClosed(g, st).received, bins, d, {})
    ensures BufferPlaced(g, DropClosed(g, st))
  {
    DropCovered(g, st, bins, d);
  }

  lemma ReleaseDecoded(g: Graph, st: State, p: Payload)
    ensures Decoded(Release(g, st, p)) == Decoded(st) + {Next(st)}
    ensures Next(Release(g, st, p)) == Next(st) + 1
  {
  }

  /** One release keeps the decoded set and the invariant. */
  lemma ReleaseControl(g: Graph, st: State, bins: set<nat>, d: set<nat>, p: Payload)
    requires Legal(g) && Control(g, st.received, bins, d, {})
    requires d == Decoded(st) + {Next(st)} && InStream(Next(st), g.terminal)
    requires forall s: nat :: s in st.future ==> InStream(s, g.terminal) && s > Next(st)
    requires forall b: nat :: b in st.received ==> g.representable(b)
    ensures var r := Release(g, st, p);
            WellFormed(g, r, true) && Control(g, r.received, bins, d, {}) && Decoded(r) == d
  {
    ReleaseDecoded(g, st, p);
    DropControl(g, st.(history := st.history + [p]), bins, d);
  }

  lemma FutureHead(g: Graph, st: State)
    requires WellFormed(g, st, true) && Next(st) in st.future
    ensures var rest := st.(future := st.future - {Next(st)});
            && Decoded(st) == Decoded(rest) + {Next(st)}
            && (forall s: nat :: s in rest.future ==> InStream(s, g.terminal) && s > Next(st))
    ensures InStream(Next(st), g.terminal)
    ensures forall b: nat :: b in st.received ==> g.representable(b)
  {
  }

  lemma ReleaseReadyStep(g: Graph, st: State, bins: set<nat>)
    requires Legal(g) && WellFormed(g, st, true) && Control(g, st.received, bins, Decoded(st), {})
    requires Next(st) in st.future
    ensures var r := Release(g, st.(future := st.future - {Next(st)}), st.future[Next(st)]);
            WellFormed(g, r, true) && Control(g, r.received, bins, Decoded(st), {}) && Decoded(r) == Decoded(st)
  {
    FutureHead(g, st);
    ReleaseControl(g, st.(future := st.future - {Next(st)}), bins, Decoded(st), st.future[Next(st)]);
  }

  lemma {:induction false} ReleaseReadyControl(g: Graph, st: State, bins: set<nat>)
    requires Legal(g) && WellFormed(g, st, true) && Control(g, st.received, bins, Decoded(st), {})
    ensures var r := ReleaseReady(g, st).state;
            && WellFormed(g, r, false)
            && Control(g, r.received, bins, Decoded(r), {})
            && Decoded(r) == Decoded(st)
    decreases st.future.Keys
  {
    if Next(st) in st.future {
      ReleaseReadyStep(g, st, bins);
      ReleaseReadyControl(g, Release(g, st.(future := st.future - {Next(st)}), st.future[Next(st)]), bins);
    }
  }

  lemma StrictFuture(g: Graph, st: State)
    requires WellFormed(g, st, false)
    ensures forall s: nat :: s in st.future ==> InStream(s, g.terminal) && s > Next(st)
    ensures forall b: nat :: b in st.received ==> g.representable(b)
  {
  }

  lemma DecodeNextControl(g: Graph, st: State, bins: set<nat>, d: set<nat>, p: Payload)
    requires Legal(g) && WellFormed(g, st, false) && InStream(Next(st), g.terminal)
    requires Control(g, st.received, bins, d, {}) && d == Decoded(st) + {Next(st)}
    ensures var r := ReleaseReady(g, Release(g, st, p)).state;
            WellFormed(g, r, false) && Control(g, r.received, bins, Decoded(r), {}) && Decoded(r) == d
  {
    StrictFuture(g, st);
    ReleaseControl(g, st, bins, d, p);
    ReleaseReadyControl(g, Release(g, st, p), bins);
  }

  lemma DecodeAheadControl(g: Graph, st: State, s: nat, p: Payload)
    requires WellFormed(g, st, false) && InStream(s, g.terminal) && s > Next(st)
    ensures WellFormed(g, st.(future := st.future[s := p]), false)
    ensures Decoded(st.(future := st.future[s := p])) == Decoded(st) + {s}
  {
  }

  /** Decoding the only undecoded toucher of a delivered bin. */
  lemma DecodeControl(g: Graph, st: State, bins: set<nat>, b: nat, s: nat, p: Payload)
    requires Legal(g) && CleanStep(g, st.received, s)
    requires WellFormed(g, st, false)
    requires Control(g, st.received, bins, Decoded(st), {b}) && b in bins
    requires Touchers(g, b) - Decoded(st) == {s}
    ensures var r := DecodeAndRelease(g, st, s, p).state;
            && WellFormed(g, r, false)
            && Control(g, r.received, bins, Decoded(r), {})
            && Decoded(r) == Decoded(st) + {s}
  {
    assert s in Touchers(g, b) - Decoded(st);
    ApplyControl(g, st, bins, Decoded(st), b, s, p);
    var applied := ApplyEdges(g, st, s, p, g.edges(s));
    SameSources(g, st, applied);
    if s == Next(st) {
      DecodeNextControl(g, applied, bins, Decoded(st) + {s}, p);
    } else {
      DecodeAheadControl(g, applied, s, p);
    }
  }

  lemma SameSources(g: Graph, st: State, st1: State)
    requires st1.history == st.history && st1.future == st.future && st1.received.Keys == st.received.Keys
    requires WellFormed(g, st, false)
    ensures WellFormed(g, st1, false) && Decoded(st1) == Decoded(st)
  {
    assert Decoded(st1) == Decoded(st);
    assert forall b :: b in st1.received ==> b in st.received;
  }

  // ---------- draining ----------

  lemma TakeWellFormed(g: Graph, st: State, b: nat)
    requires WellFormed(g, st, false) && b in st.received
    ensures WellFormed(g, WithoutBin(st, b), false)
    ensures Decoded(WithoutBin(st, b)) == Decoded(st)
  {
  }

  lemma TakeControl(g: Graph, received: map<nat, Buffered>, bins: set<nat>, d: set<nat>, b: nat)
    requires Control(g, received, bins, d, {})
    ensures Control(g, received - {b}, bins, d, {b})
  {
  }

  /** The bin found for the next source has that source as its only undecoded toucher. */
  lemma FirstUniqueIsNext(g: Graph, st: State, b: nat)
    requires Legal(g) && WellFormed(g, st, false) && Counted(g, st.received, Decoded(st))
    requires b in g.edges(Next(st)) && b in st.received && st.received[b].remaining == 1
    ensures Undecoded(g, st, b) == {Next(st)}
  {
    var s := Singleton(Undecoded(g, st, b));
    TouchersComplete(g, Next(st), b);
    assert Next(st) in Undecoded(g, st, b);
  }

  lemma {:induction false} DrainControl(g: Graph, st: State, bins: set<nat>)
    requires Legal(g) && CleanDrain(g, st)
    requires WellFormed(g, st, false) && Control(g, st.received, bins, Decoded(st), {})
    ensures var r := Drain(g, st).state;
            WellFormed(g, r, false) && Control(g, r.received, bins, Decoded(r), {}) && Quiet(r)
    decreases st.received.Keys
  {
    var first := FirstUnique(st.received, g.edges(Next(st)));
    if first.Some? {
      var b := first.value;
      FirstUniqueIsNext(g, st, b);
      TakeWellFormed(g, st, b);
      TakeControl(g, st.received, bins, Decoded(st), b);
      DecodeControl(g, WithoutBin(st, b), bins, b, Next(st), st.received[b].payload);
      DrainControl(g, DecodeAndRelease(g, WithoutBin(st, b), Next(st), st.received[b].payload).state, bins);
    } else if FutureBin(g, st).Some? {
      var b := FutureBin(g, st).value;
      var s := OnlyUndecoded(g, st, b);
      TakeWellFormed(g, st, b);
      TakeControl(g, st.received, bins, Decoded(st), b);
      DecodeControl(g, WithoutBin(st, b), bins, b, s, st.received[b].payload);
      DrainControl(g, DecodeAndRelease(g, WithoutBin(st, b), s, st.received[b].payload).state, bins);
    } else {
      DrainedIsQuiet(g, st);
    }
  }

  lemma FutureBinFound(g: Graph, st: State, b: nat, s: nat)
    requires b in st.received && st.received[b].remaining == 1
    requires Undecoded(g, st, b) == {s} && s > Next(st)
    ensures FutureBin(g, st).Some?
  {
    assert b in FutureBins(g, st);
  }

  lemma UndecodedMember(g: Graph, st: State, b: nat, s: nat)
    requires s in Undecoded(g, st, b)
    ensures s >= Next(st) && b in g.edges(s)
  {
    assert s !in Decoded(st);
  }

  /** A bin down to one undecoded toucher is found by one of the two searches. */
  lemma UniqueIsFound(g: Graph, st: State, b: nat)
    requires b in st.received && st.received[b].remaining == |Undecoded(g, st, b)| == 1
    ensures FirstUnique(st.received, g.edges(Next(st))).Some? || FutureBin(g, st).Some?
  {
    var s := Singleton(Undecoded(g, st, b));
    UndecodedMember(g, st, b, s);
    if s > Next(st) {
      FutureBinFound(g, st, b, s);
    }
  }

  lemma DrainedIsQuiet(g: Graph, st: State)
    requires Counted(g, st.received, Decoded(st))
    requires FirstUnique(st.received, g.edges(Next(st))).None? && FutureBin(g, st).None?
    ensures Quiet(st)
  {
    forall b | b in st.received ensures st.received[b].remaining != 1 {
      if st.received[b].remaining == 1 {
        UniqueIsFound(g, st, b);
      }
    }
  }

  // ---------- receiving ----------

  /** More delivered bins justify at least as much. */
  lemma JustifiedGrow(g: Graph, bins: set<nat>, more: set<nat>, d: set<nat>)
    requires Justified(g, bins, d) && bins <= more
    ensures Justified(g, more, d)
  {
    forall c: set<nat> | IsClosed(g, more, c) ensures d <= c {
      assert IsClosed(g, bins, c);
    }
  }

  lemma WitnessedGrow(g: Graph, bins: set<nat>, more: set<nat>, d: set<nat>)
    requires Witnessed(g, bins, d) && bins <= more
    ensures Witnessed(g, more, d)
  {
    forall s | s in d ensures exists b :: b in more && s in Touchers(g, b) {
      var b :| b in bins && s in Touchers(g, b);
      assert b in more;
    }
  }

  lemma ControlGrow(g: Graph, received: map<nat, Buffered>, bins: set<nat>, d: set<nat>, b: nat)
    requires Control(g, received, bins, d, {})
    ensures Control(g, received, bins + {b}, d, {b})
  {
    JustifiedGrow(g, bins, bins + {b}, d);
    WitnessedGrow(g, bins, bins + {b}, d);
  }

  /** The TLE bin of the next source is always decodable at once. */
  lemma FrontierBin(g: Graph, st: State)
    requires Legal(g) && WellFormed(g, st, false) && !Complete(g, st)
    ensures Undecoded(g, st, Frontier(g, st)) == {Next(st)}
  {
    var b := Frontier(g, st);
    TouchersOfTle(g, Next(st));
    assert InStream(Next(st), g.terminal);
    LastOne(Touchers(g, b), Decoded(st), Next(st));
  }

  ghost predicate Settled(g: Graph, st: State, bins: set<nat>) {
    WellFormed(g, st, false) && Control(g, st.received, bins, Decoded(st), {}) && Quiet(st)
  }

  /** The TLE bin of the next source, with nothing buffered. */
  lemma PushFast(g: Graph, st: State, bins: set<nat>, p: Payload)
    requires Legal(g) && WellFormed(g, st, false) && !Complete(g, st)
    requires Control(g, st.received, bins, Decoded(st), {Frontier(g, st)}) && Frontier(g, st) in bins
    requires st.received == map[]
    ensures Settled(g, DecodeAndRelease(g, st, Next(st), p).state, bins)
  {
    FrontierBin(g, st);
    DecodeControl(g, st, bins, Frontier(g, st), Next(st), p);
    assert DecodeAndRelease(g, st, Next(st), p).state.received.Keys <= {};
  }

  /** The TLE bin of the next source, with other bins waiting. */
  lemma PushFrontier(g: Graph, st: State, bins: set<nat>, p: Payload)
    requires Legal(g) && WellFormed(g, st, false) && !Complete(g, st)
    requires Control(g, st.received, bins, Decoded(st), {Frontier(g, st)}) && Frontier(g, st) in bins
    requires CleanStep(g, st.received, Next(st)) && CleanDrain(g, DecodeAndRelease(g, st, Next(st), p).state)
    ensures Settled(g, Drain(g, DecodeAndRelease(g, st, Next(st), p).state).state, bins)
  {
    FrontierBin(g, st);
    DecodeControl(g, st, bins, Frontier(g, st), Next(st), p);
    DrainControl(g, DecodeAndRelease(g, st, Next(st), p).state, bins);
  }

  lemma BufferWellFormed(g: Graph, st: State, b: nat, p: Payload)
    requires WellFormed(g, st, false) && !Complete(g, st)
    requires b >= Frontier(g, st) && g.representable(b)
    ensures WellFormed(g, Buffer(g, st, b, p), false)
    ensures Decoded(Buffer(g, st, b, p)) == Decoded(st)
  {
    var next := Buffer(g, st, b, p);
    assert Decoded(next) == Decoded(st);
    forall b' | b' in next.received ensures !Complete(g, next) && b' >= Frontier(g, next) && g.representable(b') {
      assert b' == b || b' in st.received;
    }
  }

  lemma BufferControl(g: Graph, received: map<nat, Buffered>, bins: set<nat>, d: set<nat>, b: nat, bin: Buffered)
    requires Control(g, received, bins, d, {b}) && b in bins
    requires bin.remaining == |Touchers(g, b) - d|
    ensures Control(g, received[b := bin], bins, d, {})
  {
  }

  /** A bin with undecoded touchers, buffered with its counter. */
  lemma PushBuffered(g: Graph, st: State, bins: set<nat>, b: nat, p: Payload)
    requires Legal(g) && WellFormed(g, st, false) && !Complete(g, st)
    requires Control(g, st.received, bins, Decoded(st), {b}) && b in bins
    requires b >= Frontier(g, st) && g.representable(b) && CleanDrain(g, Buffer(g, st, b, p))
    ensures Settled(g, Drain(g, Buffer(g, st, b, p)).state, bins)
  {
    BufferWellFormed(g, st, b, p);
    BufferControl(g, st.received, bins, Decoded(st), b, Buffer(g, st, b, p).received[b]);
    DrainControl(g, Buffer(g, st, b, p), bins);
  }

  lemma AcceptAtFrontier(g: Graph, st: State, bins: set<nat>, p: Payload)
    requires Legal(g) && CleanAccept(g, st, Frontier(g, st), p)
    requires WellFormed(g, st, false) && !Complete(g, st)
    requires Control(g, st.received, bins, Decoded(st), {Frontier(g, st)}) && Frontier(g, st) in bins
    ensures Settled(g, Accept(g, st, Frontier(g, st), p).state, bins)
  {
    if st.received == map[] {
      var st2 := st.(tlePrefix := st.tlePrefix - {Next(st)});
      SameSources(g, st, st2);
      PushFast(g, st2, bins, if Next(st) in st.tlePrefix then Xor(p, st.tlePrefix[Next(st)]) else p);
    } else {
      PushFrontier(g, st, bins, Peel(g, st, Frontier(g, st), p));
    }
  }

  lemma AcceptElsewhereResult(g: Graph, st: State, b: nat, p: Payload)
    requires Legal(g) && b != Frontier(g, st)
    ensures var r := Accept(g, st, b, p).state;
            if Undecoded(g, st, b) == {} then r == st
            else r == Drain(g, Buffer(g, st, b, p)).state && b > Frontier(g, st)
    ensures Undecoded(g, st, b) != {} ==> (CleanAccept(g, st, b, p) <==> CleanDrain(g, Buffer(g, st, b, p)))
  {
    if b < Frontier(g, st) {
      BehindFrontier(g, st, b);
    }
  }

  lemma AcceptElsewhere(g: Graph, st: State, bins: set<nat>, b: nat, p: Payload)
    requires Legal(g) && CleanAccept(g, st, b, p) && b != Frontier(g, st)
    requires WellFormed(g, st, false) && !Complete(g, st) && g.representable(b)
    requires Control(g, st.received, bins, Decoded(st), {b}) && b in bins && Quiet(st)
    ensures Settled(g, Accept(g, st, b, p).state, bins)
  {
    AcceptElsewhereResult(g, st, b, p);
    if Undecoded(g, st, b) == {} {
      UsedUp(g, st, bins, b);
    } else {
      PushBuffered(g, st, bins, b, p);
    }
  }

  lemma BehindFrontier(g: Graph, st: State, b: nat)
    requires Legal(g) && b < Frontier(g, st)
    ensures Undecoded(g, st, b) == {}
  {
    TouchersBelow(g, b, Next(st));
  }

  /** A bin without undecoded touchers needs no buffering. */
  lemma UsedUp(g: Graph, st: State, bins: set<nat>, b: nat)
    requires Control(g, st.received, bins, Decoded(st), {b}) && Undecoded(g, st, b) == {}
    ensures Control(g, st.received, bins, Decoded(st), {})
  {
    assert Touchers(g, b) <= Decoded(st);
  }

  lemma PushNewInv(g: Graph, st: State, bins: set<nat>, b: nat, p: Payload)
    requires Legal(g) && !Complete(g, st) && Acceptable(g, b, p) && CleanPush(g, st, b, p)
    requires WellFormed(g, st, false) && Quiet(st) && b !in st.accepted
    requires Control(g, st.received, bins, Decoded(st), {b}) && bins == st.accepted + {b}
    ensures Inv(g, PushBin(g, st, b, p).state, bins)
  {
    var st1 := st.(accepted := bins);
    SameSources(g, st, st1);
    if b == Frontier(g, st) {
      AcceptAtFrontier(g, st1, bins, p);
    } else {
      AcceptElsewhere(g, st1, bins, b, p);
    }
  }

  /** A complete decoder has nothing to do with another bin. */
  lemma CompleteInv(g: Graph, st: State, bins: set<nat>, b: nat)
    requires Legal(g) && Inv(g, st, bins) && Complete(g, st)
    ensures Inv(g, st, bins + {b})
  {
    ControlGrow(g, st.received, bins, Decoded(st), b);
    assert Undecoded(g, st, b) == {};
    UsedUp(g, st, bins + {b}, b);
  }

  lemma IgnoredInv(g: Graph, st: State, bins: set<nat>, b: nat, p: Payload)
    requires Legal(g) && Inv(g, st, bins) && Ignored(g, st, b, p)
    ensures Inv(g, st, if Acceptable(g, b, p) then bins + {b} else bins)
  {
    if Acceptable(g, b, p) {
      if Complete(g, st) {
        CompleteInv(g, st, bins, b);
      } else {
        assert bins + {b} == bins;
      }
    }
  }

  lemma IgnoredPush(g: Graph, st: State, b: nat, p: Payload)
    requires Ignored(g, st, b, p)
    ensures PushBin(g, st, b, p).state == st
  {
  }

  lemma PushInv(g: Graph, st: State, bins: set<nat>, b: nat, p: Payload)
    requires Legal(g) && Inv(g, st, bins) && CleanPush(g, st, b, p)
    ensures Inv(g, PushBin(g, st, b, p).state, if Acceptable(g, b, p) then bins + {b} else bins)
  {
    if Ignored(g, st, b, p) {
      IgnoredPush(g, st, b, p);
      IgnoredInv(g, st, bins, b, p);
    } else {
      ControlGrow(g, st.received, bins, Decoded(st), b);
      PushNewInv(g, st, bins + {b}, b, p);
    }
  }

  // ---------- runs ----------

  lemma DeliveredLast(g: Graph, ds: seq<Delivery>)
    requires ds != []
    ensures var before, last := Delivered(g, ds[..|ds| - 1]), ds[|ds| - 1];
            Delivered(g, ds) == if Acceptable(g, last.bin, last.payload) then before + {last.bin} else before
  {
    var init, last := ds[..|ds| - 1], ds[|ds| - 1];
    assert forall i :: 0 <= i < |init| ==> init[i] == ds[i];
    forall b | b in Delivered(g, ds)
      ensures b in Delivered(g, init) || (Acceptable(g, last.bin, last.payload) && b == last.bin)
    {
      var i :| 0 <= i < |ds| && Acceptable(g, ds[i].bin, ds[i].payload) && ds[i].bin == b;
      assert i < |init| ==> init[i].bin == b;
    }
    forall b | b in Delivered(g, init) ensures b in Delivered(g, ds) {
      var i :| 0 <= i < |init| && Acceptable(g, init[i].bin, init[i].payload) && init[i].bin == b;
      assert ds[i].bin == b;
    }
  }

  lemma CleanPrefix(g: Graph, ds: seq<Delivery>, k: nat)
    requires k <= |ds| && CleanRun(g, ds)
    ensures CleanRun(g, ds[..k])
    ensures k < |ds| ==> CleanPush(g, Run(g, ds[..k]).state, ds[k].bin, ds[k].payload)
  {
    forall i | 0 <= i < k ensures ds[..k][i] == ds[i] && ds[..k][..i] == ds[..i] {
    }
  }

  lemma CleanLast(g: Graph, ds: seq<Delivery>)
    requires ds != [] && CleanRun(g, ds)
    ensures var before, last := ds[..|ds| - 1], ds[|ds| - 1];
            CleanRun(g, before) && CleanPush(g, Run(g, before).state, last.bin, last.payload)
  {
    CleanPrefix(g, ds, |ds| - 1);
  }

  lemma InitialInv(g: Graph)
    ensures Inv(g, INITIAL, Delivered(g, []))
  {
    assert Decoded(INITIAL) == {};
  }

  lemma LastInv(g: Graph, ds: seq<Delivery>)
    requires Legal(g) && ds != []
    requires var before, last := ds[..|ds| - 1], ds[|ds| - 1];
             && Inv(g, Run(g, before).state, Delivered(g, before))
             && CleanPush(g, Run(g, before).state, last.bin, last.payload)
    ensures Inv(g, Run(g, ds).state, Delivered(g, ds))
  {
    var before, last := ds[..|ds| - 1], ds[|ds| - 1];
    var st, bins := Run(g, before).state, Delivered(g, before);
    DeliveredLast(g, ds);
    PushInv(g, st, bins, last.bin, last.payload);
  }

  lemma {:induction false} RunInv(g: Graph, ds: seq<Delivery>)
    requires Legal(g) && CleanRun(g, ds)
    ensures Inv(g, Run(g, ds).state, Delivered(g, ds))
    decreases |ds|
  {
    if ds == [] {
      InitialInv(g);
    } else {
      var before := ds[..|ds| - 1];
      CleanLast(g, ds);
      RunInv(g, before);
      LastInv(g, ds);
    }
  }

  lemma InvClosure(g: Graph, st: State, bins: set<nat>)
    requires Inv(g, st, bins)
    ensures IsPeelingClosure(g, bins, Decoded(st))
  {
    forall b, s | b in bins && s in Touchers(g, b) && OthersIn(Touchers(g, b), s, Decoded(st))
      ensures s in Decoded(st)
    {
      if s !in Decoded(st) {
        LastOne(Touchers(g, b), Decoded(st), s);
      }
    }
  }

  /** After any sequence of deliveries, in any order, with losses and repeats, the decoded
      sources are exactly the peeling closure of the delivered bins; every buffered counter is
      the number of undecoded touchers and is never left at one. */
  lemma RunDecodesClosure(g: Graph, ds: seq<Delivery>)
    requires Legal(g) && CleanRun(g, ds)
    ensures var st := Run(g, ds).state;
            && IsPeelingClosure(g, Delivered(g, ds), Decoded(st))
            && forall b :: b in st.received ==>
                 st.received[b].remaining == |Undecoded(g, st, b)| && st.received[b].remaining != 1
  {
    RunInv(g, ds);
    InvClosure(g, Run(g, ds).state, Delivered(g, ds));
  }

  lemma RunWellFormed(g: Graph, ds: seq<Delivery>)
    requires Legal(g) && CleanRun(g, ds)
    ensures WellFormed(g, Run(g, ds).state, false)
  {
    RunInv(g, ds);
  }

  /** The number of leading sources in the decoded set determines the released prefix. */
  lemma NextFromDecoded(g: Graph, st: State, st': State)
    requires WellFormed(g, st, false) && WellFormed(g, st', false)
    requires Decoded(st) == Decoded(st')
    ensures Next(st) == Next(st')
  {
    assert Next(st) !in Decoded(st) && Next(st') !in Decoded(st');
  }

  /** Two runs that deliver the same bins decode and release the same sources, whatever the
      order of arrival and however often a bin is repeated. */
  lemma OrderIndependent(g: Graph, ds: seq<Delivery>, ds': seq<Delivery>)
    requires Legal(g) && Delivered(g, ds) == Delivered(g, ds') && CleanRun(g, ds) && CleanRun(g, ds')
    ensures Decoded(Run(g, ds).state) == Decoded(Run(g, ds').state)
    ensures Next(Run(g, ds).state) == Next(Run(g, ds').state)
  {
    RunWellFormed(g, ds);
    RunWellFormed(g, ds');
    MoreBinsDecodeMore(g, ds, ds');
    MoreBinsDecodeMore(g, ds', ds);
    NextFromDecoded(g, Run(g, ds).state, Run(g, ds').state);
  }

  /** Delivering a superset of the bins never decodes less. */
  lemma MoreBinsDecodeMore(g: Graph, ds: seq<Delivery>, ds': seq<Delivery>)
    requires Legal(g) && Delivered(g, ds) <= Delivered(g, ds') && CleanRun(g, ds) && CleanRun(g, ds')
    ensures Decoded(Run(g, ds).state) <= Decoded(Run(g, ds').state)
  {
    RunDecodesClosure(g, ds);
    RunDecodesClosure(g, ds');
    JustifiedGrow(g, Delivered(g, ds), Delivered(g, ds'), Decoded(Run(g, ds).state));
  }

  lemma TleStep(g: Graph, bins: set<nat>, d: set<nat>, s: nat)
    requires Legal(g) && IsClosed(g, bins, d)
    requires InStream(s, g.terminal) && g.tle(s) in bins && forall u: nat :: u < s ==> u in d
    ensures s in d
  {
    TouchersOfTle(g, s);
    assert OthersIn(Touchers(g, g.tle(s)), s, d);
  }

  lemma {:induction false} TleClosure(g: Graph, bins: set<nat>, d: set<nat>, m: nat)
    requires Legal(g) && IsClosed(g, bins, d)
    requires forall s: nat :: s < m ==> InStream(s, g.terminal) && g.tle(s) in bins
    ensures forall s: nat :: s < m ==> s in d
  {
    if m > 0 {
      TleClosure(g, bins, d, m - 1);
      TleStep(g, bins, d, m - 1);
    }
  }

  /** Once the TLE bins of all sources below `m` have arrived, in any order and among any other
      bins, at least `m` sources have been released. */
  lemma TleBinsRelease(g: Graph, ds: seq<Delivery>, m: nat)
    requires Legal(g) && CleanRun(g, ds)
    requires forall s: nat :: s < m ==> InStream(s, g.terminal) && g.tle(s) in Delivered(g, ds)
    ensures Next(Run(g, ds).state) >= m
  {
    RunInv(g, ds);
    RunDecodesClosure(g, ds);
    TleClosure(g, Delivered(g, ds), Decoded(Run(g, ds).state), m);
    assert Next(Run(g, ds).state) !in Decoded(Run(g, ds).state);
  }
}
