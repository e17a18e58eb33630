/** When exactly a run keeps its payloads right: a harmful delivery leaves a wrong payload behind
    that nothing repairs within the same delivery. */
module WrongPayloads {
  import opened Wrappers
  import opened Payloads
  import opened CodeGraph
  import opened ReferenceDecoder
  import opened PeelingClosure
  import opened PayloadSoundness
  import opened RunSoundness

  // ---------- decoded payloads never change ----------

  /** Every source decoded in `st` is decoded with the same payload in `st'`. */
  ghost predicate KeepsDecoded(st: State, st': State) {
    forall s: nat :: IsDecoded(st, s) ==> IsDecoded(st', s) && DecodedPayload(st', s) == DecodedPayload(st, s)
  }

  lemma KeepsChain(a: State, b: State, c: State)
    requires KeepsDecoded(a, b) && KeepsDecoded(b, c)
    ensures KeepsDecoded(a, c)
  {
  }

  /** Moving the next source from the future to the history. */
  lemma ReleaseKeeps(g: Graph, st: State)
    requires Next(st) in st.future
    ensures KeepsDecoded(st, Release(g, st.(future := st.future - {Next(st)}), st.future[Next(st)]))
  {
  }

  lemma {:induction false} ReleaseReadyKeeps(g: Graph, st: State)
    ensures KeepsDecoded(st, ReleaseReady(g, st).state)
    decreases st.future.Keys
  {
    if Next(st) in st.future {
      var next := Release(g, st.(future := st.future - {Next(st)}), st.future[Next(st)]);
      ReleaseKeeps(g, st);
      ReleaseReadyKeeps(g, next);
      KeepsChain(st, next, ReleaseReady(g, next).state);
    }
  }

  /** Decoding a source records its payload and keeps all others. */
  lemma DecodeKeeps(g: Graph, st: State, s: nat, p: Payload)
    requires !IsDecoded(st, s)
    ensures var r := DecodeAndRelease(g, st, s, p).state;
            KeepsDecoded(st, r) && IsDecoded(r, s) && DecodedPayload(r, s) == Some(p)
  {
    var applied := ApplyEdges(g, st, s, p, g.edges(s));
    if s == Next(st) {
      var released := Release(g, applied, p);
      assert KeepsDecoded(st, released) && DecodedPayload(released, s) == Some(p);
      ReleaseReadyKeeps(g, released);
      KeepsChain(st, released, ReleaseReady(g, released).state);
    }
  }

  /** Draining keeps every decoded payload. */
  lemma {:induction false} DrainKeeps(g: Graph, st: State, bins: set<nat>)
    requires Legal(g) && CleanDrain(g, st)
    requires WellFormed(g, st, false) && Control(g, st.received, bins, Decoded(st), {})
    ensures KeepsDecoded(st, Drain(g, st).state)
    decreases st.received.Keys
  {
    var first := FirstUnique(st.received, g.edges(Next(st)));
    if first.Some? {
      var b := first.value;
      FirstUniqueIsNext(g, st, b);
      DrainRoundKeeps(g, st, bins, b, Next(st));
    } else if FutureBin(g, st).Some? {
      var b := FutureBin(g, st).value;
      DrainRoundKeeps(g, st, bins, b, OnlyUndecoded(g, st, b));
    }
  }

  /** Decoding the only undecoded toucher of a buffered bin. */
  lemma TakeKeeps(g: Graph, st: State, b: nat, s: nat)
    requires b in st.received && !IsDecoded(st, s)
    ensures var r := DecodeAndRelease(g, WithoutBin(st, b), s, st.received[b].payload).state;
            KeepsDecoded(st, r) && IsDecoded(r, s) && DecodedPayload(r, s) == Some(st.received[b].payload)
  {
    DecodeKeeps(g, WithoutBin(st, b), s, st.received[b].payload);
    assert KeepsDecoded(st, WithoutBin(st, b));
  }

  lemma TakeSettles(g: Graph, st: State, bins: set<nat>, b: nat, s: nat)
    requires Legal(g) && CleanStep(g, WithoutBin(st, b).received, s)
    requires WellFormed(g, st, false) && Control(g, st.received, bins, Decoded(st), {})
    requires b in st.received && Undecoded(g, st, b) == {s}
    ensures var r := DecodeAndRelease(g, WithoutBin(st, b), s, st.received[b].payload).state;
            WellFormed(g, r, false) && Control(g, r.received, bins, Decoded(r), {})
  {
    TakeWellFormed(g, st, b);
    TakeControl(g, st.received, bins, Decoded(st), b);
    DecodeControl(g, WithoutBin(st, b), bins, b, s, st.received[b].payload);
  }

  lemma {:induction false} DrainRoundKeeps(g: Graph, st: State, bins: set<nat>, b: nat, s: nat)
    requires Legal(g)
    requires WellFormed(g, st, false) && Control(g, st.received, bins, Decoded(st), {})
    requires b in st.received && Undecoded(g, st, b) == {s} && CleanTake(g, st, b, s)
    ensures var r := DecodeAndRelease(g, WithoutBin(st, b), s, st.received[b].payload).state;
            && KeepsDecoded(st, Drain(g, r).state)
            && IsDecoded(Drain(g, r).state, s)
            && DecodedPayload(Drain(g, r).state, s) == Some(st.received[b].payload)
    decreases st.received.Keys, 0
  {
    var r := DecodeAndRelease(g, WithoutBin(st, b), s, st.received[b].payload).state;
    assert s in Undecoded(g, st, b);
    TakeSettles(g, st, bins, b, s);
    TakeKeeps(g, st, b, s);
    DrainKeeps(g, r, bins);
    KeepsChain(st, r, Drain(g, r).state);
  }

  // ---------- a harmful delivery ----------

  /** A wrong decoded payload makes the state unsound. */
  lemma WrongSource(g: Graph, sources: seq<Payload>, st: State, s: nat)
    requires Sized(sources, g.symbolBytes) && IsDecoded(st, s)
    requires DecodedPayload(st, s) != Some(SourceAt(sources, g.symbolBytes, s))
    ensures !Sound(g, sources, st)
  {
  }

  /** A wrong bin that is down to one toucher decodes that source wrongly, for good. */
  lemma WrongDrain(g: Graph, sources: seq<Payload>, st: State, bins: set<nat>, b: nat, s: nat)
    requires Legal(g) && OddBins(g, bins) && Sized(sources, g.symbolBytes)
    requires WellFormed(g, st, false) && Control(g, st.received, bins, Decoded(st), {})
    requires b in st.received && Undecoded(g, st, b) == {s}
    requires st.received[b].payload != Residue(g, sources, b, Decoded(st))
    requires QuietBut(st, b) && CleanDrain(g, st)
    ensures !Sound(g, sources, Drain(g, st).state)
  {
    ResidueSingle(g, sources, b, Decoded(st), s);
    DrainTakes(g, st, b, s);
    DrainRoundKeeps(g, st, bins, b, s);
    WrongSource(g, sources, Drain(g, st).state, s);
  }

  /** The only bin with a single undecoded toucher is the one that draining takes. */
  lemma DrainTakes(g: Graph, st: State, b: nat, s: nat)
    requires Legal(g) && WellFormed(g, st, false) && Counted(g, st.received, Decoded(st))
    requires b in st.received && Undecoded(g, st, b) == {s} && QuietBut(st, b)
    ensures Drain(g, st).state
            == Drain(g, DecodeAndRelease(g, WithoutBin(st, b), s, st.received[b].payload).state).state
    ensures CleanDrain(g, st) ==> CleanTake(g, st, b, s)
  {
    UniqueIsFound(g, st, b);
    if FirstUnique(st.received, g.edges(Next(st))).Some? {
      TakenIsNext(g, st, b, s);
      DrainNext(g, st, b);
    } else {
      TakenIsFuture(g, st, b, s);
      DrainFuture(g, st, b);
    }
  }

  lemma DrainNext(g: Graph, st: State, b: nat)
    requires FirstUnique(st.received, g.edges(Next(st))) == Some(b)
    ensures Drain(g, st).state
            == Drain(g, DecodeAndRelease(g, WithoutBin(st, b), Next(st), st.received[b].payload).state).state
    ensures CleanDrain(g, st) ==> CleanTake(g, st, b, Next(st))
  {
  }

  lemma DrainFuture(g: Graph, st: State, b: nat)
    requires FirstUnique(st.received, g.edges(Next(st))).None? && FutureBin(g, st) == Some(b)
    ensures var s := OnlyUndecoded(g, st, b);
            && Drain(g, st).state
               == Drain(g, DecodeAndRelease(g, WithoutBin(st, b), s, st.received[b].payload).state).state
            && (CleanDrain(g, st) ==> CleanTake(g, st, b, s))
  {
  }

  lemma TakenIsNext(g: Graph, st: State, b: nat, s: nat)
    requires Legal(g) && WellFormed(g, st, false) && Counted(g, st.received, Decoded(st))
    requires b in st.received && Undecoded(g, st, b) == {s} && QuietBut(st, b)
    requires FirstUnique(st.received, g.edges(Next(st))).Some?
    ensures FirstUnique(st.received, g.edges(Next(st))) == Some(b) && s == Next(st)
  {
    assert FirstUnique(st.received, g.edges(Next(st))).value == b;
    FirstUniqueIsNext(g, st, b);
    assert Next(st) in {s};
  }

  lemma TakenIsFuture(g: Graph, st: State, b: nat, s: nat)
    requires b in st.received && Undecoded(g, st, b) == {s} && QuietBut(st, b) && FutureBin(g, st).Some?
    ensures FutureBin(g, st) == Some(b) && OnlyUndecoded(g, st, b) == s
  {
    assert OnlyUndecoded(g, st, b) in {s};
  }

  /** A wrong bin with several undecoded touchers stays in the buffer. */
  lemma WrongWait(g: Graph, sources: seq<Payload>, st: State, b: nat)
    requires Sized(sources, g.symbolBytes) && Quiet(st) && b in st.received
    requires st.received[b].payload != Residue(g, sources, b, Decoded(st))
    requires FirstUnique(st.received, g.edges(Next(st))).None? && FutureBin(g, st).None?
    ensures !Sound(g, sources, Drain(g, st).state)
  {
  }

  lemma NothingUnique(g: Graph, st: State)
    requires Quiet(st)
    ensures FirstUnique(st.received, g.edges(Next(st))).None? && FutureBin(g, st).None?
  {
  }

  /** A wrong buffered bin with undecoded touchers is still wrong, or wrongly used, after draining. */
  lemma WrongAfterDrain(g: Graph, sources: seq<Payload>, st: State, bins: set<nat>, b: nat)
    requires Legal(g) && OddBins(g, bins) && Sized(sources, g.symbolBytes)
    requires WellFormed(g, st, false) && Control(g, st.received, bins, Decoded(st), {})
    requires b in st.received && Undecoded(g, st, b) != {}
    requires st.received[b].payload != Residue(g, sources, b, Decoded(st))
    requires QuietBut(st, b) && CleanDrain(g, st)
    ensures !Sound(g, sources, Drain(g, st).state)
  {
    if st.received[b].remaining == 1 {
      var s := Singleton(Undecoded(g, st, b));
      WrongDrain(g, sources, st, bins, b, s);
    } else {
      NothingUnique(g, st);
      WrongWait(g, sources, st, b);
    }
  }

  /** Buffering a spoiled bin makes the state unsound. */
  lemma WrongBuffer(g: Graph, sources: seq<Payload>, st: State, bins: set<nat>, b: nat)
    requires Legal(g) && OddBins(g, bins) && Sized(sources, g.symbolBytes) && Sound(g, sources, st)
    requires WellFormed(g, st, false) && !Complete(g, st) && Quiet(st)
    requires Control(g, st.received, bins, Decoded(st), {b}) && b in bins
    requires b >= Frontier(g, st) && g.representable(b)
    requires Spoiled(g, sources, st, b) && Undecoded(g, st, b) != {}
    requires CleanDrain(g, Buffer(g, st, b, BinPayload(g, sources, b)))
    ensures !Sound(g, sources, Drain(g, Buffer(g, st, b, BinPayload(g, sources, b))).state)
  {
    var p := BinPayload(g, sources, b);
    var buffered := Buffer(g, st, b, p);
    PeelExact(g, sources, st, b);
    BufferFacts(g, st, b, p);
    BufferWellFormed(g, st, b, p);
    BufferControl(g, st.received, bins, Decoded(st), b, buffered.received[b]);
    WrongAfterDrain(g, sources, buffered, bins, b);
  }

  /** What buffering changes and what it leaves. */
  lemma BufferFacts(g: Graph, st: State, b: nat, p: Payload)
    ensures var next := Buffer(g, st, b, p);
            && b in next.received && next.received[b].payload == Peel(g, st, b, p)
            && Decoded(next) == Decoded(st) && Undecoded(g, next, b) == Undecoded(g, st, b)
            && (Quiet(st) ==> QuietBut(next, b))
  {
    var next := Buffer(g, st, b, p);
    assert Decoded(next) == Decoded(st);
    assert forall b' :: b' in next.received && b' != b ==> b' in st.received && next.received[b'] == st.received[b'];
  }

  /** At most bin `b` is down to one undecoded toucher. */
  ghost predicate QuietBut(st: State, b: nat) {
    forall b' :: b' in st.received && b' != b ==> st.received[b'].remaining != 1
  }

  lemma HarmfulPush(g: Graph, sources: seq<Payload>, st: State, bins: set<nat>, d: Delivery)
    requires Legal(g) && Sized(sources, g.symbolBytes) && Sound(g, sources, st) && Inv(g, st, bins)
    requires OddBins(g, bins + {d.bin}) && d.payload == BinPayload(g, sources, d.bin)
    requires Harmful(g, sources, st, d) && CleanPush(g, st, d.bin, d.payload)
    ensures !Sound(g, sources, PushBin(g, st, d.bin, d.payload).state)
  {
    var b, st1 := d.bin, st.(accepted := st.accepted + {d.bin});
    AcceptedOnly(g, sources, st, st1, b);
    ControlGrow(g, st.received, bins, Decoded(st), b);
    SpoiledElsewhere(g, sources, st, b);
    AcceptElsewhereResult(g, st1, b, d.payload);
    WrongBuffer(g, sources, st1, bins + {b}, b);
  }

  /** The accepted ids play no part in what a bin does. */
  lemma AcceptedOnly(g: Graph, sources: seq<Payload>, st: State, st1: State, b: nat)
    requires Sized(sources, g.symbolBytes) && st1 == st.(accepted := st1.accepted)
    ensures Decoded(st1) == Decoded(st) && Undecoded(g, st1, b) == Undecoded(g, st, b)
    ensures Spoiled(g, sources, st1, b) == Spoiled(g, sources, st, b)
    ensures Sound(g, sources, st) ==> Sound(g, sources, st1)
    ensures WellFormed(g, st, false) ==> WellFormed(g, st1, false)
  {
    assert Decoded(st1) == Decoded(st);
  }

  lemma SpoiledElsewhere(g: Graph, sources: seq<Payload>, st: State, b: nat)
    requires Legal(g) && Sized(sources, g.symbolBytes) && WellFormed(g, st, false) && !Complete(g, st)
    requires g.representable(b) && Spoiled(g, sources, st, b)
    ensures b != Frontier(g, st)
  {
    if b == Frontier(g, st) {
      FrontierSource(g, st);
    }
  }

  /** Exactly one delivery decides: from a sound state, genuine and simple deliveries lead to a
      sound state if and only if they are not harmful. */
  lemma PushExact(g: Graph, sources: seq<Payload>, st: State, bins: set<nat>, d: Delivery)
    requires Legal(g) && Sized(sources, g.symbolBytes) && Sound(g, sources, st) && Inv(g, st, bins)
    requires CleanPush(g, st, d.bin, d.payload)
    requires Acceptable(g, d.bin, d.payload) ==> OddBins(g, bins + {d.bin})
    requires Acceptable(g, d.bin, d.payload) ==> d.payload == BinPayload(g, sources, d.bin)
    ensures Sound(g, sources, PushBin(g, st, d.bin, d.payload).state) <==> !Harmful(g, sources, st, d)
  {
    if Harmful(g, sources, st, d) {
      HarmfulPush(g, sources, st, bins, d);
    } else {
      PushSound(g, sources, st, bins, d);
    }
  }

  // ---------- runs ----------

  ghost predicate AlwaysSound(g: Graph, sources: seq<Payload>, ds: seq<Delivery>)
    requires Sized(sources, g.symbolBytes)
  {
    forall i :: 0 <= i <= |ds| ==> Sound(g, sources, Run(g, ds[..i]).state)
  }

  /** In whatever order genuine bins arrive, with losses and repeats: every payload the decoder
      holds or releases is right throughout the run if and only if no delivery is harmful. */
  lemma RunExact(g: Graph, sources: seq<Payload>, ds: seq<Delivery>)
    requires Legal(g) && Sized(sources, g.symbolBytes)
    requires OddBins(g, Delivered(g, ds)) && CleanRun(g, ds) && Genuine(g, sources, ds)
    ensures AlwaysSound(g, sources, ds) <==> Harmless(g, sources, ds)
  {
    if AlwaysSound(g, sources, ds) {
      forall i | 0 <= i < |ds| ensures !Harmful(g, sources, Run(g, ds[..i]).state, ds[i]) {
        assert Sound(g, sources, Run(g, ds[..i]).state) && Sound(g, sources, Run(g, ds[..i + 1]).state);
        StepExact(g, sources, ds, i);
      }
    }
    if Harmless(g, sources, ds) {
      forall i | 0 <= i <= |ds| ensures Sound(g, sources, Run(g, ds[..i]).state) {
        DeliveredPrefix(g, ds, i);
        CleanPrefix(g, ds, i);
        PrefixHarmless(g, sources, ds, i);
        RunKeepsSound(g, sources, ds[..i]);
      }
    }
  }

  lemma PrefixHarmless(g: Graph, sources: seq<Payload>, ds: seq<Delivery>, i: nat)
    requires Sized(sources, g.symbolBytes) && i <= |ds|
    requires Genuine(g, sources, ds) && Harmless(g, sources, ds)
    ensures Genuine(g, sources, ds[..i]) && Harmless(g, sources, ds[..i])
  {
    forall j | 0 <= j < i ensures ds[..i][j] == ds[j] && ds[..i][..j] == ds[..j] {
    }
  }

  lemma StepExact(g: Graph, sources: seq<Payload>, ds: seq<Delivery>, i: nat)
    requires Legal(g) && Sized(sources, g.symbolBytes) && i < |ds|
    requires OddBins(g, Delivered(g, ds)) && CleanRun(g, ds) && Genuine(g, sources, ds)
    requires Sound(g, sources, Run(g, ds[..i]).state)
    ensures Sound(g, sources, Run(g, ds[..i + 1]).state) <==> !Harmful(g, sources, Run(g, ds[..i]).state, ds[i])
  {
    var prefix := ds[..i + 1];
    assert prefix[..i] == ds[..i] && prefix[|prefix| - 1] == ds[i];
    DeliveredPrefix(g, ds, i);
    DeliveredPrefix(g, ds, i + 1);
    DeliveredLast(g, prefix);
    CleanPrefix(g, ds, i);
    RunInv(g, ds[..i]);
    PushExact(g, sources, Run(g, ds[..i]).state, Delivered(g, ds[..i]), ds[i]);
  }
}
