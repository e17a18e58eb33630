/** Payload soundness of whole runs, under the one condition it needs: no delivery is harmful,
    that is, the TLE bin of a source that was decoded ahead of the prefix. */
module RunSoundness {
  import opened Wrappers
  import opened Payloads
  import opened CodeGraph
  import opened ReferenceDecoder
  import opened PeelingClosure
  import opened PayloadSoundness

  // ---------- peeling an arriving bin ----------

  lemma {:induction false} PeelScanSum(g: Graph, sources: seq<Payload>, st: State, b: nat, n: nat, p: Payload)
    requires Sized(sources, g.symbolBytes) && |p| == g.symbolBytes
    requires Odd(g, b) && SoundSources(g, sources, st) && n <= g.latest(b) + 1
    ensures PeelScan(g, st, b, n, p)
            == Xor(p, XorSum(sources, g.symbolBytes, OddTouchers(g, b) * Decoded(st), n))
  {
    if n == 0 {
      XorZero(p);
    } else {
      PeelScanSum(g, sources, st, b, n - 1, p);
      var s, known := n - 1, OddTouchers(g, b) * Decoded(st);
      AllOdd(g, b);
      assert s in Touchers(g, b) <==> InStream(s, g.terminal) && b in g.edges(s);
      assert IsDecoded(st, s) <==> DecodedPayload(st, s).Some?;
      assert IsDecoded(st, s) ==> DecodedPayload(st, s).value == SourceAt(sources, g.symbolBytes, s);
      XorXor(p, XorSum(sources, g.symbolBytes, known, s), SourceAt(sources, g.symbolBytes, s));
    }
  }

  /** A bin that is nobody's TLE bin is peeled exactly. */
  lemma PeelNonTle(g: Graph, sources: seq<Payload>, st: State, b: nat)
    requires Sized(sources, g.symbolBytes) && SoundSources(g, sources, st)
    requires Odd(g, b) && TleSource(g, b).None?
    ensures Peel(g, st, b, BinPayload(g, sources, b)) == Residue(g, sources, b, Decoded(st))
  {
    PeelScanSum(g, sources, st, b, g.latest(b) + 1, BinPayload(g, sources, b));
    SumSplit(sources, g.symbolBytes, OddTouchers(g, b), Decoded(st), g.latest(b) + 1);
  }

  /** A TLE bin loses the decoded sources before its own, whether or not its own is decoded. */
  lemma PeelTle(g: Graph, sources: seq<Payload>, st: State, t: nat)
    requires Legal(g) && Sized(sources, g.symbolBytes)
    requires SoundPrefixes(g, sources, st, Next(st), Decoded(st))
    requires HasPrefix(g, t) && t >= Next(st)
    ensures Peel(g, st, g.tle(t), BinPayload(g, sources, g.tle(t)))
            == Residue(g, sources, g.tle(t), Decoded(st) - {t})
  {
    var b, n := g.tle(t), g.symbolBytes;
    TleSourceOf(g, t);
    LatestOfTle(g, t);
    XorZero(BinPayload(g, sources, b));
    var odd, known := OddTouchers(g, b), Decoded(st) - {t};
    SumSame(sources, n, odd * Decoded(st), odd * known, t);
    SumExtend(sources, n, odd * known, t, t + 1);
    SumSplit(sources, n, odd, known, t + 1);
  }

  lemma XorIsSame(a: Payload, b: Payload)
    requires |a| == |b|
    ensures Xor(a, b) == a <==> b == Zero(|a|)
  {
    XorZero(a);
    if Xor(a, b) == a {
      XorComm(a, b);
      XorCancel(b, a);
    }
  }

  /** Exactly when buffering a TLE bin records its residue: its own source must not have been
      decoded ahead, unless that source is all zeros. */
  lemma PeelTleExact(g: Graph, sources: seq<Payload>, st: State, t: nat)
    requires Legal(g) && Sized(sources, g.symbolBytes)
    requires SoundPrefixes(g, sources, st, Next(st), Decoded(st))
    requires HasPrefix(g, t) && t >= Next(st) && Odd(g, g.tle(t))
    ensures Peel(g, st, g.tle(t), BinPayload(g, sources, g.tle(t))) == Residue(g, sources, g.tle(t), Decoded(st))
            <==> t !in st.future || SourceAt(sources, g.symbolBytes, t) == Zero(g.symbolBytes)
  {
    PeelTle(g, sources, st, t);
    if t in st.future {
      TouchersOfTle(g, t);
      assert Decoded(st) == Decoded(st) - {t} + {t};
      ResidueLoses(g, sources, g.tle(t), Decoded(st) - {t}, t);
      XorIsSame(Residue(g, sources, g.tle(t), Decoded(st) - {t}), SourceAt(sources, g.symbolBytes, t));
    } else {
      assert Decoded(st) - {t} == Decoded(st);
    }
  }

  // ---------- one arrival ----------

  /** `b` is the TLE bin of a source that was already decoded ahead. */
  predicate Late(g: Graph, st: State, b: nat) {
    TleSource(g, b).Some? && TleSource(g, b).value in st.future
  }

  /** Peeling such a bin goes wrong, unless the source is all zeros. */
  ghost predicate Spoiled(g: Graph, sources: seq<Payload>, st: State, b: nat)
    requires Sized(sources, g.symbolBytes)
  {
    Late(g, st, b) && SourceAt(sources, g.symbolBytes, TleSource(g, b).value) != Zero(g.symbolBytes)
  }

  /** Buffering a bin at or right of the frontier records its residue exactly when it is not
      spoiled. */
  lemma PeelExact(g: Graph, sources: seq<Payload>, st: State, b: nat)
    requires Legal(g) && Sized(sources, g.symbolBytes) && Sound(g, sources, st)
    requires Odd(g, b) && b >= Frontier(g, st) && g.representable(b)
    ensures Peel(g, st, b, BinPayload(g, sources, b)) == Residue(g, sources, b, Decoded(st))
            <==> !Spoiled(g, sources, st, b)
  {
    if TleSource(g, b).None? {
      PeelNonTle(g, sources, st, b);
    } else {
      PeelTleExact(g, sources, st, TleSource(g, b).value);
    }
  }

  lemma FrontierSource(g: Graph, st: State)
    requires Legal(g) && !Complete(g, st) && g.representable(Frontier(g, st))
    ensures TleSource(g, Frontier(g, st)) == Some(Next(st))
  {
    LatestOfTle(g, Next(st));
  }

  lemma FrontierPayload(g: Graph, sources: seq<Payload>, st: State)
    requires Legal(g) && Sized(sources, g.symbolBytes) && Sound(g, sources, st)
    requires WellFormed(g, st, false) && !Complete(g, st)
    requires Odd(g, Frontier(g, st)) && g.representable(Frontier(g, st))
    ensures Peel(g, st, Frontier(g, st), BinPayload(g, sources, Frontier(g, st)))
            == SourceAt(sources, g.symbolBytes, Next(st))
  {
    FrontierSource(g, st);
    PeelExact(g, sources, st, Frontier(g, st));
    FrontierBin(g, st);
    ResidueSingle(g, sources, Frontier(g, st), Decoded(st), Next(st));
  }

  /** What the frontier bin comes to, on the fast path and otherwise. */
  lemma AcceptFrontierResult(g: Graph, st: State, p: Payload)
    requires Legal(g) && TleSource(g, Frontier(g, st)) == Some(Next(st))
    ensures var own := Peel(g, st, Frontier(g, st), p);
            Accept(g, st, Frontier(g, st), p)
            == if st.received == map[]
               then DecodeAndRelease(g, st.(tlePrefix := st.tlePrefix - {Next(st)}), Next(st), own)
               else DecodeAndDrain(g, st, Next(st), own)
  {
  }

  lemma FrontierFastSound(g: Graph, sources: seq<Payload>, st: State)
    requires Legal(g) && Sized(sources, g.symbolBytes) && Sound(g, sources, st)
    requires WellFormed(g, st, false) && !Complete(g, st)
    ensures var p := SourceAt(sources, g.symbolBytes, Next(st));
            Sound(g, sources, DecodeAndRelease(g, st.(tlePrefix := st.tlePrefix - {Next(st)}), Next(st), p).state)
  {
    var st2 := st.(tlePrefix := st.tlePrefix - {Next(st)});
    SameSources(g, st, st2);
    DecodeNextSound(g, sources, st2);
  }

  lemma FrontierDrainSound(g: Graph, sources: seq<Payload>, st: State, bins: set<nat>)
    requires Legal(g) && OddBins(g, bins) && Sized(sources, g.symbolBytes) && Sound(g, sources, st)
    requires WellFormed(g, st, false) && !Complete(g, st)
    requires Control(g, st.received, bins, Decoded(st), {Frontier(g, st)}) && Frontier(g, st) in bins
    requires var p := SourceAt(sources, g.symbolBytes, Next(st));
             CleanStep(g, st.received, Next(st)) && CleanDrain(g, DecodeAndRelease(g, st, Next(st), p).state)
    ensures var p := SourceAt(sources, g.symbolBytes, Next(st));
            Sound(g, sources, DecodeAndDrain(g, st, Next(st), p).state)
  {
    var p := SourceAt(sources, g.symbolBytes, Next(st));
    FrontierBin(g, st);
    DecodeControl(g, st, bins, Frontier(g, st), Next(st), p);
    DecodeSound(g, sources, st, Next(st));
    DrainSound(g, sources, DecodeAndRelease(g, st, Next(st), p).state, bins);
  }

  lemma AcceptFrontierSound(g: Graph, sources: seq<Payload>, st: State, bins: set<nat>)
    requires Legal(g) && OddBins(g, bins) && Sized(sources, g.symbolBytes) && Sound(g, sources, st)
    requires WellFormed(g, st, false) && !Complete(g, st)
    requires Control(g, st.received, bins, Decoded(st), {Frontier(g, st)}) && Frontier(g, st) in bins
    requires g.representable(Frontier(g, st))
    requires CleanAccept(g, st, Frontier(g, st), BinPayload(g, sources, Frontier(g, st)))
    ensures Sound(g, sources, Accept(g, st, Frontier(g, st), BinPayload(g, sources, Frontier(g, st))).state)
  {
    FrontierPayload(g, sources, st);
    FrontierSource(g, st);
    AcceptFrontierResult(g, st, BinPayload(g, sources, Frontier(g, st)));
    if st.received == map[] {
      FrontierFastSound(g, sources, st);
    } else {
      FrontierDrainSound(g, sources, st, bins);
    }
  }

  lemma BufferedBins(g: Graph, sources: seq<Payload>, received: map<nat, Buffered>, d: set<nat>, b: nat, bin: Buffered)
    requires Sized(sources, g.symbolBytes) && SoundBins(g, sources, received, d)
    requires bin.payload == Residue(g, sources, b, d)
    ensures SoundBins(g, sources, received[b := bin], d)
  {
  }

  lemma BufferedState(g: Graph, sources: seq<Payload>, st: State, bin: Buffered, b: nat)
    requires Sized(sources, g.symbolBytes) && Sound(g, sources, st)
    requires bin.payload == Residue(g, sources, b, Decoded(st))
    ensures Sound(g, sources, st.(received := st.received[b := bin]))
  {
    var next := st.(received := st.received[b := bin]);
    assert Decoded(next) == Decoded(st);
    BufferedBins(g, sources, st.received, Decoded(st), b, bin);
  }

  lemma BufferSound(g: Graph, sources: seq<Payload>, st: State, b: nat)
    requires Legal(g) && Sized(sources, g.symbolBytes) && Sound(g, sources, st)
    requires Odd(g, b) && b >= Frontier(g, st) && g.representable(b) && !Spoiled(g, sources, st, b)
    ensures Sound(g, sources, Buffer(g, st, b, BinPayload(g, sources, b)))
  {
    var p := BinPayload(g, sources, b);
    PeelExact(g, sources, st, b);
    BufferedState(g, sources, st, Buffered(Peel(g, st, b, p), |Undecoded(g, st, b)|), b);
  }

  lemma AcceptElsewhereSound(g: Graph, sources: seq<Payload>, st: State, bins: set<nat>, b: nat)
    requires Legal(g) && OddBins(g, bins) && Sized(sources, g.symbolBytes) && Sound(g, sources, st)
    requires WellFormed(g, st, false) && !Complete(g, st) && b != Frontier(g, st)
    requires Control(g, st.received, bins, Decoded(st), {b}) && b in bins
    requires g.representable(b) && (Undecoded(g, st, b) != {} ==> !Spoiled(g, sources, st, b))
    requires CleanAccept(g, st, b, BinPayload(g, sources, b))
    ensures Sound(g, sources, Accept(g, st, b, BinPayload(g, sources, b)).state)
  {
    var p := BinPayload(g, sources, b);
    AcceptElsewhereResult(g, st, b, p);
    if Undecoded(g, st, b) != {} {
      BufferSound(g, sources, st, b);
      BufferWellFormed(g, st, b, p);
      BufferControl(g, st.received, bins, Decoded(st), b, Buffer(g, st, b, p).received[b]);
      DrainSound(g, sources, Buffer(g, st, b, p), bins);
    }
  }

  /** The bin is new to the decoder, so that its payload will be used. */
  predicate IsNew(g: Graph, st: State, d: Delivery) {
    !Complete(g, st) && Acceptable(g, d.bin, d.payload) && d.bin !in st.accepted
  }

  /** The delivery puts a wrong payload into the buffer: its bin is new, still has undecoded
      touchers, and is the TLE bin of a non-zero source that was decoded ahead. */
  ghost predicate Harmful(g: Graph, sources: seq<Payload>, st: State, d: Delivery)
    requires Sized(sources, g.symbolBytes)
  {
    IsNew(g, st, d) && Undecoded(g, st, d.bin) != {} && Spoiled(g, sources, st, d.bin)
  }

  lemma PushSound(g: Graph, sources: seq<Payload>, st: State, bins: set<nat>, d: Delivery)
    requires Legal(g) && Sized(sources, g.symbolBytes) && Sound(g, sources, st) && Inv(g, st, bins)
    requires Acceptable(g, d.bin, d.payload) ==> OddBins(g, bins + {d.bin})
    requires Acceptable(g, d.bin, d.payload) ==> d.payload == BinPayload(g, sources, d.bin)
    requires !Harmful(g, sources, st, d) && CleanPush(g, st, d.bin, d.payload)
    ensures Sound(g, sources, PushBin(g, st, d.bin, d.payload).state)
  {
    if IsNew(g, st, d) {
      var st1 := st.(accepted := st.accepted + {d.bin});
      SameSources(g, st, st1);
      ControlGrow(g, st.received, bins, Decoded(st), d.bin);
      AcceptSound(g, sources, st1, bins + {d.bin}, d.bin);
    }
  }

  lemma AcceptSound(g: Graph, sources: seq<Payload>, st: State, bins: set<nat>, b: nat)
    requires Legal(g) && OddBins(g, bins) && Sized(sources, g.symbolBytes) && Sound(g, sources, st)
    requires WellFormed(g, st, false) && !Complete(g, st)
    requires Control(g, st.received, bins, Decoded(st), {b}) && b in bins
    requires g.representable(b) && (Undecoded(g, st, b) != {} ==> !Spoiled(g, sources, st, b))
    requires CleanAccept(g, st, b, BinPayload(g, sources, b))
    ensures Sound(g, sources, Accept(g, st, b, BinPayload(g, sources, b)).state)
  {
    if b == Frontier(g, st) {
      AcceptFrontierSound(g, sources, st, bins);
    } else {
      AcceptElsewhereSound(g, sources, st, bins, b);
    }
  }

  // ---------- runs ----------

  /** Every delivery the decoder looks at carries the payload that was encoded. */
  ghost predicate Genuine(g: Graph, sources: seq<Payload>, ds: seq<Delivery>)
    requires Sized(sources, g.symbolBytes)
  {
    forall i :: 0 <= i < |ds| && Acceptable(g, ds[i].bin, ds[i].payload) ==>
      ds[i].payload == BinPayload(g, sources, ds[i].bin)
  }

  /** No TLE bin arrives for the first time after its source was decoded ahead. */
  ghost predicate NoLate(g: Graph, ds: seq<Delivery>) {
    forall i :: 0 <= i < |ds| && IsNew(g, Run(g, ds[..i]).state, ds[i]) ==>
      !Late(g, Run(g, ds[..i]).state, ds[i].bin)
  }

  ghost predicate Harmless(g: Graph, sources: seq<Payload>, ds: seq<Delivery>)
    requires Sized(sources, g.symbolBytes)
  {
    forall i :: 0 <= i < |ds| ==> !Harmful(g, sources, Run(g, ds[..i]).state, ds[i])
  }

  lemma NeverLateIsHarmless(g: Graph, sources: seq<Payload>, ds: seq<Delivery>)
    requires Sized(sources, g.symbolBytes) && NoLate(g, ds)
    ensures Harmless(g, sources, ds)
  {
  }

  lemma PrefixHypotheses(g: Graph, sources: seq<Payload>, ds: seq<Delivery>)
    requires ds != [] && Sized(sources, g.symbolBytes)
    requires Genuine(g, sources, ds) && Harmless(g, sources, ds)
    ensures Genuine(g, sources, ds[..|ds| - 1]) && Harmless(g, sources, ds[..|ds| - 1])
  {
    var init := ds[..|ds| - 1];
    forall i | 0 <= i < |init| ensures init[i] == ds[i] && init[..i] == ds[..i] {
    }
  }

  lemma LastBin(g: Graph, ds: seq<Delivery>)
    requires ds != [] && OddBins(g, Delivered(g, ds))
    ensures var before, last := Delivered(g, ds[..|ds| - 1]), ds[|ds| - 1];
            && OddBins(g, before)
            && (Acceptable(g, last.bin, last.payload) ==> OddBins(g, before + {last.bin}))
  {
    DeliveredLast(g, ds);
  }

  lemma {:induction false} RunKeepsSound(g: Graph, sources: seq<Payload>, ds: seq<Delivery>)
    requires Legal(g) && Sized(sources, g.symbolBytes)
    requires OddBins(g, Delivered(g, ds)) && CleanRun(g, ds) && Genuine(g, sources, ds) && Harmless(g, sources, ds)
    ensures Sound(g, sources, Run(g, ds).state)
    decreases |ds|
  {
    if ds == [] {
      InitialSound(g, sources);
    } else {
      var before, last := ds[..|ds| - 1], ds[|ds| - 1];
      PrefixHypotheses(g, sources, ds);
      LastBin(g, ds);
      CleanLast(g, ds);
      RunKeepsSound(g, sources, before);
      RunInv(g, before);
      PushSound(g, sources, Run(g, before).state, Delivered(g, before), last);
    }
  }

  lemma InitialSound(g: Graph, sources: seq<Payload>)
    requires Sized(sources, g.symbolBytes)
    ensures Sound(g, sources, INITIAL)
  {
    assert Decoded(INITIAL) == {};
    forall t: nat | HasPrefix(g, t) ensures PrefixAt(g, INITIAL, t) == Lost(g, sources, t, {}) {
      SumEmpty(sources, g.symbolBytes, OddTouchers(g, g.tle(t)) * {}, t);
    }
  }

  /** The sources 0, 1, ..., k - 1 with their padded payloads. */
  ghost function Expected(sources: seq<Payload>, n: nat, k: nat): (r: seq<Released>)
    requires Sized(sources, n)
    ensures |r| == k && forall i :: 0 <= i < k ==> r[i] == Released(i, SourceAt(sources, n, i))
  {
    seq(k, i requires 0 <= i < k => Released(i, SourceAt(sources, n, i)))
  }

  /** Whatever order the genuine bins arrive in, with losses and repeats, everything released is
      an initial piece of the source stream with the right payloads, provided no delivery is
      harmful. */
  lemma RunReleasesSources(g: Graph, sources: seq<Payload>, ds: seq<Delivery>)
    requires Legal(g) && Sized(sources, g.symbolBytes)
    requires OddBins(g, Delivered(g, ds)) && CleanRun(g, ds) && Genuine(g, sources, ds) && Harmless(g, sources, ds)
    ensures Run(g, ds).out == Expected(sources, g.symbolBytes, Next(Run(g, ds).state))
  {
    RunEmits(g, ds);
    RunKeepsSound(g, sources, ds);
  }

  /** Whatever else arrives, and in whatever order: once the TLE bins of the first `m` sources are
      accepted, those sources have been released, in order and intact. */
  lemma TleBinsDeliver(g: Graph, sources: seq<Payload>, ds: seq<Delivery>, m: nat)
    requires Legal(g) && Sized(sources, g.symbolBytes)
    requires OddBins(g, Delivered(g, ds)) && CleanRun(g, ds) && Genuine(g, sources, ds) && Harmless(g, sources, ds)
    requires forall s: nat :: s < m ==> InStream(s, g.terminal) && g.tle(s) in Delivered(g, ds)
    ensures Expected(sources, g.symbolBytes, m) <= Run(g, ds).out
  {
    TleBinsRelease(g, ds, m);
    RunReleasesSources(g, sources, ds);
    var out := Run(g, ds).out;
    assert |out| >= m && forall i :: 0 <= i < m ==> out[i] == Expected(sources, g.symbolBytes, m)[i];
  }

  // ---------- arrival in order ----------

  /** First arrivals come in increasing bin order; bins may be lost, and may be repeated later. */
  ghost predicate InBinOrder(g: Graph, ds: seq<Delivery>) {
    forall i :: 0 <= i < |ds| && ds[i].bin !in Delivered(g, ds[..i]) ==>
      forall b :: b in Delivered(g, ds[..i]) ==> b < ds[i].bin
  }

  lemma DeliveredPrefix(g: Graph, ds: seq<Delivery>, i: nat)
    requires i <= |ds|
    ensures Delivered(g, ds[..i]) <= Delivered(g, ds)
  {
    forall b | b in Delivered(g, ds[..i]) ensures b in Delivered(g, ds) {
      var j :| 0 <= j < i && Acceptable(g, ds[..i][j].bin, ds[..i][j].payload) && ds[..i][j].bin == b;
      assert ds[j].bin == b;
    }
  }

  /** Arrival in bin order, with erasures and late repeats, is never late. */
  lemma OrderedNeverLate(g: Graph, ds: seq<Delivery>)
    requires Legal(g) && CleanRun(g, ds) && InBinOrder(g, ds)
    ensures NoLate(g, ds)
  {
    forall i | 0 <= i < |ds| && IsNew(g, Run(g, ds[..i]).state, ds[i])
      ensures !Late(g, Run(g, ds[..i]).state, ds[i].bin)
    {
      DeliveredPrefix(g, ds, i);
      CleanPrefix(g, ds, i);
      RunInv(g, ds[..i]);
      OrderedNotLate(g, Run(g, ds[..i]).state, Delivered(g, ds[..i]), ds[i].bin);
    }
  }

  /** A decoded source touches some delivered bin, at or right of its own TLE bin. */
  lemma DecodedFrom(g: Graph, st: State, bins: set<nat>, t: nat) returns (b: nat)
    requires Legal(g) && Inv(g, st, bins) && IsDecoded(st, t)
    ensures b in bins && g.tle(t) <= b
  {
    assert t in Decoded(st);
    b :| b in bins && t in Touchers(g, b);
    TouchersComplete(g, t, b);
  }

  lemma OrderedNotLate(g: Graph, st: State, bins: set<nat>, b: nat)
    requires Legal(g) && Inv(g, st, bins)
    requires forall b' :: b' in bins ==> b' < b
    ensures !Late(g, st, b)
  {
    if Late(g, st, b) {
      var b' := DecodedFrom(g, st, bins, TleSource(g, b).value);
    }
  }

  /** In bin order, with losses and late repeats, everything released is an initial piece of the
      source stream with the right payloads. */
  lemma OrderedRunReleases(g: Graph, sources: seq<Payload>, ds: seq<Delivery>)
    requires Legal(g) && Sized(sources, g.symbolBytes) && InBinOrder(g, ds)
    requires OddBins(g, Delivered(g, ds)) && CleanRun(g, ds) && Genuine(g, sources, ds)
    ensures Harmless(g, sources, ds)
    ensures Run(g, ds).out == Expected(sources, g.symbolBytes, Next(Run(g, ds).state))
  {
    OrderedNeverLate(g, ds);
    NeverLateIsHarmless(g, sources, ds);
    RunReleasesSources(g, sources, ds);
  }
}
