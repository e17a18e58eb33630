/** Which runs are clean.  The decoder lowers a counter once per slot but counts sources
    (mettle/src/decoder.rs), so a source that hits a buffered bin twice can lower its counter too far. */
module CleanRuns {
  import opened Payloads
  import opened CodeGraph
  import opened ReferenceDecoder
  import opened PeelingClosure

  // ---------- right counters ----------

  ghost predicate RightCounters(g: Graph, st: State) {
    Counted(g, st.received, Decoded(st))
  }

  /** Every state that draining passes through has right counters. */
  ghost predicate RightDrain(g: Graph, st: State)
    decreases st.received.Keys
  {
    && RightCounters(g, st)
    && match FirstUnique(st.received, g.edges(Next(st)))
       case Some(b) => RightTake(g, st, b, Next(st))
       case None =>
         match FutureBin(g, st)
         case Some(b) => RightTake(g, st, b, OnlyUndecoded(g, st, b))
         case None => true
  }

  ghost predicate RightTake(g: Graph, st: State, b: nat, s: nat)
    requires b in st.received
    decreases st.received.Keys, 0
  {
    var rest := DecodeAndRelease(g, WithoutBin(st, b), s, st.received[b].payload).state;
    assert b !in rest.received.Keys;
    RightDrain(g, rest)
  }

  /** Every state from the acceptance of a bin to the end of the drain has right counters. */
  ghost predicate RightAccept(g: Graph, st: State, b: nat, p: Payload) {
    if b < Frontier(g, st) then true
    else if b == Frontier(g, st) then
      st.received == map[] || RightDrain(g, DecodeAndRelease(g, st, Next(st), Peel(g, st, b, p)).state)
    else Undecoded(g, st, b) == {} || RightDrain(g, Buffer(g, st, b, p))
  }

  ghost predicate RightPush(g: Graph, st: State, b: nat, p: Payload) {
    Ignored(g, st, b, p) || RightAccept(g, st.(accepted := st.accepted + {b}), b, p)
  }

  ghost predicate RightRun(g: Graph, ds: seq<Delivery>) {
    forall i :: 0 <= i < |ds| ==> RightPush(g, Run(g, ds[..i]).state, ds[i].bin, ds[i].payload)
  }

  // ---------- a wrong counter stays ----------

  /** A buffered bin with an undecoded toucher stays in the buffer, with its counter. */
  ghost predicate KeepsCounters(g: Graph, st: State, r: State) {
    forall b :: b in st.received && !(Touchers(g, b) <= Decoded(r)) ==>
      b in r.received && r.received[b].remaining == st.received[b].remaining
  }

  lemma ReleaseKeepsCounters(g: Graph, st: State, p: Payload, d: set<nat>)
    requires Legal(g) && forall s: nat :: s <= Next(st) ==> s in d
    ensures forall b :: b in st.received && !(Touchers(g, b) <= d) ==>
              b in Release(g, st, p).received && Release(g, st, p).received[b] == st.received[b]
  {
    var next := st.(history := st.history + [p]);
    forall b | b in st.received && !(Touchers(g, b) <= d) ensures !Complete(g, next) && b >= Frontier(g, next) {
      if b < Frontier(g, next) {
        TouchersBelow(g, b, Next(next));
      }
    }
  }

  lemma {:induction false} ReleaseReadyKeepsCounters(g: Graph, st: State, d: set<nat>)
    requires Legal(g) && WellFormed(g, st, true) && Decoded(st) == d
    ensures Decoded(ReleaseReady(g, st).state) == d && KeepsCounters(g, st, ReleaseReady(g, st).state)
    decreases st.future.Keys
  {
    if Next(st) in st.future {
      var rest, p := st.(future := st.future - {Next(st)}), st.future[Next(st)];
      var next := Release(g, rest, p);
      ReleaseKeepsCounters(g, rest, p, d);
      ReleaseStaysFormed(g, st);
      ReleaseReadyKeepsCounters(g, next, d);
    }
  }

  lemma ReleaseStaysFormed(g: Graph, st: State)
    requires Legal(g) && WellFormed(g, st, true) && Next(st) in st.future
    ensures var next := Release(g, st.(future := st.future - {Next(st)}), st.future[Next(st)]);
            WellFormed(g, next, true) && Decoded(next) == Decoded(st)
  {
    FutureHead(g, st);
    ReleaseDecoded(g, st.(future := st.future - {Next(st)}), st.future[Next(st)]);
  }

  /** Releasing only drops buffered bins. */
  lemma {:induction false} ReleaseReadyDrops(g: Graph, st: State)
    ensures var r := ReleaseReady(g, st).state;
            forall b :: b in r.received ==> b in st.received && r.received[b] == st.received[b]
    decreases st.future.Keys
  {
    if Next(st) in st.future {
      ReleaseReadyDrops(g, Release(g, st.(future := st.future - {Next(st)}), st.future[Next(st)]));
    }
  }

  lemma {:induction false} ReleaseReadyFormed(g: Graph, st: State)
    requires Legal(g) && WellFormed(g, st, true)
    ensures WellFormed(g, ReleaseReady(g, st).state, false)
    decreases st.future.Keys
  {
    if Next(st) in st.future {
      ReleaseStaysFormed(g, st);
      ReleaseReadyFormed(g, Release(g, st.(future := st.future - {Next(st)}), st.future[Next(st)]));
    }
  }

  lemma ReleaseFormed(g: Graph, st: State, p: Payload)
    requires Legal(g) && WellFormed(g, st, false) && InStream(Next(st), g.terminal)
    ensures WellFormed(g, Release(g, st, p), true) && Decoded(Release(g, st, p)) == Decoded(st) + {Next(st)}
  {
    ReleaseDecoded(g, st, p);
  }

  /** Releasing the next source and what follows it: only used-up bins leave the buffer. */
  lemma ReleaseAll(g: Graph, st: State, p: Payload)
    requires Legal(g) && WellFormed(g, st, false) && InStream(Next(st), g.terminal)
    ensures var r := ReleaseReady(g, Release(g, st, p)).state;
            && WellFormed(g, r, false) && Decoded(r) == Decoded(st) + {Next(st)} && KeepsCounters(g, st, r)
            && forall b :: b in r.received ==> b in st.received && r.received[b] == st.received[b]
  {
    var next, d := Release(g, st, p), Decoded(st) + {Next(st)};
    ReleaseFormed(g, st, p);
    ReleaseKeepsCounters(g, st, p, d);
    ReleaseReadyFormed(g, next);
    ReleaseReadyDrops(g, next);
    ReleaseReadyKeepsCounters(g, next, d);
  }

  /** Decoding a source leaves right counters behind exactly if the step is clean. */
  lemma DecodeExact(g: Graph, st: State, s: nat, p: Payload)
    requires Legal(g) && WellFormed(g, st, false) && RightCounters(g, st)
    requires InStream(s, g.terminal) && s >= Next(st) && s !in Decoded(st)
    ensures var r := DecodeAndRelease(g, st, s, p).state;
            WellFormed(g, r, false) && (RightCounters(g, r) <==> CleanStep(g, st.received, s))
  {
    var applied, d := ApplyEdges(g, st, s, p, g.edges(s)), Decoded(st) + {s};
    ApplyCounted(g, st, Decoded(st), s, p);
    SameSources(g, st, applied);
    if s == Next(st) {
      ReleaseAll(g, applied, p);
      CountedExactly(g, applied, ReleaseReady(g, Release(g, applied, p)).state, d);
      if !CleanStep(g, st.received, s) {
        UncleanVisible(g, st, s, p);
      }
    } else {
      DecodeAheadControl(g, applied, s, p);
    }
  }

  lemma CountedExactly(g: Graph, st: State, r: State, d: set<nat>)
    requires KeepsCounters(g, st, r) && Decoded(r) == d
    requires forall b :: b in r.received ==> b in st.received && r.received[b] == st.received[b]
    ensures Counted(g, st.received, d) ==> Counted(g, r.received, d)
    ensures forall b :: b in st.received && !(Touchers(g, b) <= d) && Counted(g, r.received, d) ==>
              st.received[b].remaining == |Touchers(g, b) - d|
  {
  }

  /** A counter that an unclean step makes wrong belongs to a bin with an undecoded toucher. */
  lemma UncleanVisible(g: Graph, st: State, s: nat, p: Payload)
    requires Legal(g) && RightCounters(g, st) && InStream(s, g.terminal) && s !in Decoded(st)
    requires !CleanStep(g, st.received, s)
    ensures var received, d := ApplyEdges(g, st, s, p, g.edges(s)).received, Decoded(st) + {s};
            exists b :: b in received && !(Touchers(g, b) <= d) && received[b].remaining != |Touchers(g, b) - d|
  {
    var received, d := ApplyEdges(g, st, s, p, g.edges(s)).received, Decoded(st) + {s};
    var b :| b in st.received && Mult(g.edges(s), b) > 1 && st.received[b].remaining > 1;
    ApplyEdgesCounts(g, st, s, p, g.edges(s), b);
    ApplyCountsOne(g, b, Decoded(st), s);
    TouchersComplete(g, s, b);
    RemoveOne(Touchers(g, b), Decoded(st), s);
    assert |Touchers(g, b) - d| > 0;
    assert b in received && !(Touchers(g, b) <= d);
  }

  // ---------- exactly the clean runs ----------

  lemma UndecodedOne(g: Graph, st: State, b: nat, s: nat)
    requires Undecoded(g, st, b) == {s}
    ensures InStream(s, g.terminal) && s >= Next(st) && s !in Decoded(st)
  {
    assert s in Undecoded(g, st, b);
  }

  lemma {:induction false} TakeExact(g: Graph, st: State, b: nat, s: nat)
    requires Legal(g) && WellFormed(g, st, false) && RightCounters(g, st)
    requires b in st.received && Undecoded(g, st, b) == {s}
    ensures RightTake(g, st, b, s) <==> CleanTake(g, st, b, s)
    decreases st.received.Keys, 0
  {
    var rest := DecodeAndRelease(g, WithoutBin(st, b), s, st.received[b].payload).state;
    UndecodedOne(g, st, b, s);
    TakeWellFormed(g, st, b);
    DecodeExact(g, WithoutBin(st, b), s, st.received[b].payload);
    assert b !in rest.received.Keys;
    if RightCounters(g, rest) {
      DrainExact(g, rest);
    }
  }

  lemma {:induction false} DrainExact(g: Graph, st: State)
    requires Legal(g) && WellFormed(g, st, false) && RightCounters(g, st)
    ensures RightDrain(g, st) <==> CleanDrain(g, st)
    decreases st.received.Keys
  {
    var first := FirstUnique(st.received, g.edges(Next(st)));
    if first.Some? {
      FirstUniqueIsNext(g, st, first.value);
      TakeExact(g, st, first.value, Next(st));
    } else if FutureBin(g, st).Some? {
      var b := FutureBin(g, st).value;
      TakeExact(g, st, b, OnlyUndecoded(g, st, b));
    }
  }

  lemma NextExact(g: Graph, st: State, p: Payload)
    requires Legal(g) && WellFormed(g, st, false) && RightCounters(g, st) && !Complete(g, st)
    ensures var rest := DecodeAndRelease(g, st, Next(st), p).state;
            RightDrain(g, rest) <==> CleanStep(g, st.received, Next(st)) && CleanDrain(g, rest)
  {
    FrontierBin(g, st);
    UndecodedOne(g, st, Frontier(g, st), Next(st));
    DecodeExact(g, st, Next(st), p);
    var rest := DecodeAndRelease(g, st, Next(st), p).state;
    if RightCounters(g, rest) {
      DrainExact(g, rest);
    }
  }

  lemma FrontierExact(g: Graph, st: State, p: Payload)
    requires Legal(g) && WellFormed(g, st, false) && RightCounters(g, st) && !Complete(g, st)
    ensures RightAccept(g, st, Frontier(g, st), p) <==> CleanAccept(g, st, Frontier(g, st), p)
  {
    NextExact(g, st, Peel(g, st, Frontier(g, st), p));
  }

  lemma BufferRight(g: Graph, st: State, b: nat, p: Payload)
    requires WellFormed(g, st, false) && RightCounters(g, st) && !Complete(g, st)
    requires g.representable(b) && b > Frontier(g, st)
    ensures var next := Buffer(g, st, b, p);
            WellFormed(g, next, false) && RightCounters(g, next) && next.received.Keys == st.received.Keys + {b}
  {
    BufferWellFormed(g, st, b, p);
    CountedWith(g, st.received, Decoded(st), b, Buffered(Peel(g, st, b, p), |Undecoded(g, st, b)|));
  }

  lemma CountedWith(g: Graph, received: map<nat, Buffered>, d: set<nat>, b: nat, bin: Buffered)
    requires Counted(g, received, d) && bin.remaining == |Touchers(g, b) - d|
    ensures Counted(g, received[b := bin], d) && received[b := bin].Keys == received.Keys + {b}
  {
  }

  lemma AcceptExact(g: Graph, st: State, b: nat, p: Payload)
    requires Legal(g) && WellFormed(g, st, false) && RightCounters(g, st) && !Complete(g, st) && g.representable(b)
    ensures RightAccept(g, st, b, p) <==> CleanAccept(g, st, b, p)
  {
    if b == Frontier(g, st) {
      FrontierExact(g, st, p);
    } else if b > Frontier(g, st) {
      BufferRight(g, st, b, p);
      DrainExact(g, Buffer(g, st, b, p));
    }
  }

  lemma PushCountersExact(g: Graph, st: State, bins: set<nat>, b: nat, p: Payload)
    requires Legal(g) && Inv(g, st, bins)
    ensures RightPush(g, st, b, p) <==> CleanPush(g, st, b, p)
  {
    if !Ignored(g, st, b, p) {
      var st1 := st.(accepted := st.accepted + {b});
      SameSources(g, st, st1);
      AcceptExact(g, st1, b, p);
    }
  }

  /** A bin that is buffered is received cleanly if the drain after it is clean. */
  lemma BufferedPush(g: Graph, st: State, b: nat, p: Payload, buffered: State)
    requires !Ignored(g, st, b, p) && b > Frontier(g, st)
    requires var st1 := st.(accepted := st.accepted + {b});
             Undecoded(g, st1, b) != {} && buffered == Buffer(g, st1, b, p)
    ensures CleanPush(g, st, b, p) <==> CleanDrain(g, buffered)
  {
  }

  lemma LastClean(g: Graph, ds: seq<Delivery>)
    requires ds != []
    ensures CleanRun(g, ds) <==>
            && CleanRun(g, ds[..|ds| - 1])
            && CleanPush(g, Run(g, ds[..|ds| - 1]).state, ds[|ds| - 1].bin, ds[|ds| - 1].payload)
  {
    var n := |ds| - 1;
    forall i | 0 <= i < n ensures ds[..n][i] == ds[i] && ds[..n][..i] == ds[..i] {
    }
    if CleanRun(g, ds) {
      CleanPrefix(g, ds, n);
    }
  }

  lemma LastRight(g: Graph, ds: seq<Delivery>)
    requires ds != []
    ensures RightRun(g, ds) <==>
            && RightRun(g, ds[..|ds| - 1])
            && RightPush(g, Run(g, ds[..|ds| - 1]).state, ds[|ds| - 1].bin, ds[|ds| - 1].payload)
  {
    var n := |ds| - 1;
    forall i | 0 <= i < n ensures ds[..n][i] == ds[i] && ds[..n][..i] == ds[..i] {
    }
    if RightRun(g, ds) {
      forall i | 0 <= i < n ensures RightPush(g, Run(g, ds[..n][..i]).state, ds[..n][i].bin, ds[..n][i].payload) {
        assert ds[..n][..i] == ds[..i];
      }
    }
  }

  /** Every counter is right in every state of a run, between deliveries and at every step of the
      drains, if and only if the run is clean. */
  lemma {:induction false} CountersExact(g: Graph, ds: seq<Delivery>)
    requires Legal(g)
    ensures RightRun(g, ds) <==> CleanRun(g, ds)
    decreases |ds|
  {
    if ds != [] {
      var init, last := ds[..|ds| - 1], ds[|ds| - 1];
      CountersExact(g, init);
      LastClean(g, ds);
      LastRight(g, ds);
      if CleanRun(g, init) {
        RunInv(g, init);
        PushCountersExact(g, Run(g, init).state, Delivered(g, init), last.bin, last.payload);
      }
    }
  }

  // ---------- bins hit once per source ----------

  lemma SimpleStep(g: Graph, received: map<nat, Buffered>, bins: set<nat>, s: nat)
    requires Legal(g) && AllSimple(g, bins) && received.Keys <= bins && InStream(s, g.terminal)
    ensures CleanStep(g, received, s)
  {
    forall b | b in received ensures Mult(g.edges(s), b) <= 1 {
      TouchersComplete(g, s, b);
      assert Simple(g, b);
    }
  }

  lemma {:induction false} SimpleTake(g: Graph, st: State, bins: set<nat>, b: nat, s: nat)
    requires Legal(g) && AllSimple(g, bins) && WellFormed(g, st, false) && RightCounters(g, st)
    requires st.received.Keys <= bins && b in st.received && Undecoded(g, st, b) == {s}
    ensures CleanTake(g, st, b, s)
    decreases st.received.Keys, 0
  {
    var rest := DecodeAndRelease(g, WithoutBin(st, b), s, st.received[b].payload).state;
    UndecodedOne(g, st, b, s);
    SimpleStep(g, WithoutBin(st, b).received, bins, s);
    TakeWellFormed(g, st, b);
    DecodeExact(g, WithoutBin(st, b), s, st.received[b].payload);
    assert b !in rest.received.Keys;
    SimpleDrain(g, rest, bins);
  }

  lemma {:induction false} SimpleDrain(g: Graph, st: State, bins: set<nat>)
    requires Legal(g) && AllSimple(g, bins) && WellFormed(g, st, false) && RightCounters(g, st)
    requires st.received.Keys <= bins
    ensures CleanDrain(g, st)
    decreases st.received.Keys
  {
    var first := FirstUnique(st.received, g.edges(Next(st)));
    if first.Some? {
      FirstUniqueIsNext(g, st, first.value);
      SimpleTake(g, st, bins, first.value, Next(st));
    } else if FutureBin(g, st).Some? {
      var b := FutureBin(g, st).value;
      SimpleTake(g, st, bins, b, OnlyUndecoded(g, st, b));
    }
  }

  lemma SimpleFrontier(g: Graph, st: State, bins: set<nat>, p: Payload)
    requires Legal(g) && AllSimple(g, bins) && WellFormed(g, st, false) && RightCounters(g, st) && !Complete(g, st)
    requires st.received.Keys <= bins
    ensures CleanAccept(g, st, Frontier(g, st), p)
  {
    var own := Peel(g, st, Frontier(g, st), p);
    FrontierBin(g, st);
    UndecodedOne(g, st, Frontier(g, st), Next(st));
    SimpleStep(g, st.received, bins, Next(st));
    DecodeExact(g, st, Next(st), own);
    SimpleDrain(g, DecodeAndRelease(g, st, Next(st), own).state, bins);
  }

  lemma SimpleAccept(g: Graph, st: State, bins: set<nat>, b: nat, p: Payload)
    requires Legal(g) && AllSimple(g, bins) && WellFormed(g, st, false) && RightCounters(g, st) && !Complete(g, st)
    requires st.received.Keys <= bins && b in bins && g.representable(b)
    ensures CleanAccept(g, st, b, p)
  {
    if b == Frontier(g, st) {
      SimpleFrontier(g, st, bins, p);
    } else if b > Frontier(g, st) {
      SimpleBuffer(g, st, bins, b, p);
    }
  }

  lemma SimpleBuffer(g: Graph, st: State, bins: set<nat>, b: nat, p: Payload)
    requires Legal(g) && AllSimple(g, bins) && WellFormed(g, st, false) && RightCounters(g, st) && !Complete(g, st)
    requires st.received.Keys <= bins && b in bins && g.representable(b) && b > Frontier(g, st)
    ensures CleanDrain(g, Buffer(g, st, b, p))
  {
    BufferRight(g, st, b, p);
    SimpleDrain(g, Buffer(g, st, b, p), bins);
  }

  lemma SimplePush(g: Graph, st: State, bins: set<nat>, b: nat, p: Payload)
    requires Legal(g) && Inv(g, st, bins) && (Acceptable(g, b, p) ==> AllSimple(g, bins + {b}))
    ensures CleanPush(g, st, b, p)
  {
    if !Ignored(g, st, b, p) {
      var st1 := st.(accepted := st.accepted + {b});
      SameSources(g, st, st1);
      SimpleAccept(g, st1, bins + {b}, b, p);
    }
  }

  /** A run over bins that no source hits twice is clean. */
  lemma {:induction false} SimpleIsClean(g: Graph, ds: seq<Delivery>)
    requires Legal(g) && AllSimple(g, Delivered(g, ds))
    ensures CleanRun(g, ds)
    decreases |ds|
  {
    if ds != [] {
      var init, last := ds[..|ds| - 1], ds[|ds| - 1];
      DeliveredLast(g, ds);
      SimpleIsClean(g, init);
      RunInv(g, init);
      SimplePush(g, Run(g, init).state, Delivered(g, init), last.bin, last.payload);
      LastClean(g, ds);
    }
  }
}
