/** The payloads the decoder releases are the payloads that were encoded. */
module PayloadSoundness {
  import opened Wrappers
  import opened Payloads
  import opened CodeGraph
  import opened ReferenceDecoder
  import opened PeelingClosure

  // ---------- output order ----------

  /** An outcome releases exactly the sources it appends to the history, with their ids. */
  ghost predicate Emits(history: seq<Payload>, r: Outcome) {
    && |r.state.history| == |history| + |r.out|
    && history <= r.state.history
    && forall i :: 0 <= i < |r.out| ==> r.out[i] == Released(|history| + i, r.state.history[|history| + i])
  }

  lemma EmitsChain(history: seq<Payload>, step: Outcome, rest: Outcome)
    requires Emits(history, step) && Emits(step.state.history, rest)
    ensures Emits(history, Outcome(rest.state, step.out + rest.out))
  {
  }

  lemma {:induction false} ReleaseReadyEmits(g: Graph, st: State)
    ensures Emits(st.history, ReleaseReady(g, st))
    decreases st.future.Keys
  {
    if Next(st) in st.future {
      var s, p := Next(st), st.future[Next(st)];
      var next := Release(g, st.(future := st.future - {s}), p);
      ReleaseReadyEmits(g, next);
      EmitsChain(st.history, Outcome(next, [Released(s, p)]), ReleaseReady(g, next));
    }
  }

  lemma DecodeEmits(g: Graph, st: State, s: nat, p: Payload)
    ensures Emits(st.history, DecodeAndRelease(g, st, s, p))
  {
    if s == Next(st) {
      var next := Release(g, ApplyEdges(g, st, s, p, g.edges(s)), p);
      ReleaseReadyEmits(g, next);
      EmitsChain(st.history, Outcome(next, [Released(s, p)]), ReleaseReady(g, next));
    }
  }

  lemma {:induction false} DrainEmits(g: Graph, st: State)
    ensures Emits(st.history, Drain(g, st))
    decreases st.received.Keys
  {
    var first := FirstUnique(st.received, g.edges(Next(st)));
    if first.Some? {
      var b := first.value;
      var step := DecodeAndRelease(g, WithoutBin(st, b), Next(st), st.received[b].payload);
      DecodeEmits(g, WithoutBin(st, b), Next(st), st.received[b].payload);
      DrainEmits(g, step.state);
      EmitsChain(st.history, step, Drain(g, step.state));
    } else if FutureBin(g, st).Some? {
      var b := FutureBin(g, st).value;
      var s := OnlyUndecoded(g, st, b);
      var step := DecodeAndRelease(g, WithoutBin(st, b), s, st.received[b].payload);
      DecodeEmits(g, WithoutBin(st, b), s, st.received[b].payload);
      DrainEmits(g, step.state);
      EmitsChain(st.history, step, Drain(g, step.state));
    }
  }

  lemma DecodeAndDrainEmits(g: Graph, st: State, s: nat, p: Payload)
    ensures Emits(st.history, DecodeAndDrain(g, st, s, p))
  {
    var step := DecodeAndRelease(g, st, s, p);
    DecodeEmits(g, st, s, p);
    DrainEmits(g, step.state);
    EmitsChain(st.history, step, Drain(g, step.state));
  }

  lemma FastPathEmits(g: Graph, st: State, p: Payload)
    ensures Emits(st.history, FastPath(g, st, p))
  {
    DecodeEmits(g, st.(tlePrefix := st.tlePrefix - {Next(st)}), Next(st),
                if Next(st) in st.tlePrefix then Xor(p, st.tlePrefix[Next(st)]) else p);
  }

  lemma BufferEmits(g: Graph, st: State, b: nat, p: Payload)
    ensures Emits(st.history, Drain(g, Buffer(g, st, b, p)))
  {
    DrainEmits(g, Buffer(g, st, b, p));
  }

  lemma NothingEmitted(st: State)
    ensures Emits(st.history, Outcome(st, []))
  {
  }

  lemma AcceptEmits(g: Graph, st: State, b: nat, p: Payload)
    ensures Emits(st.history, Accept(g, st, b, p))
  {
    NothingEmitted(st);
    if b == Frontier(g, st) {
      if st.received == map[] {
        FastPathEmits(g, st, p);
      } else {
        DecodeAndDrainEmits(g, st, Next(st), Peel(g, st, b, p));
      }
    } else {
      BufferEmits(g, st, b, p);
    }
  }

  lemma PushEmits(g: Graph, st: State, b: nat, p: Payload)
    ensures Emits(st.history, PushBin(g, st, b, p))
  {
    AcceptEmits(g, st.(accepted := st.accepted + {b}), b, p);
  }

  /** Over a whole run the ids come out 0, 1, 2, ..., each exactly once. */
  lemma {:induction false} RunEmits(g: Graph, ds: seq<Delivery>)
    ensures Emits([], Run(g, ds))
    decreases |ds|
  {
    if ds != [] {
      var before, last := ds[..|ds| - 1], ds[|ds| - 1];
      RunEmits(g, before);
      PushEmits(g, Run(g, before).state, last.bin, last.payload);
      EmitsChain([], Run(g, before), PushBin(g, Run(g, before).state, last.bin, last.payload));
    }
  }

  // ---------- the payload invariant ----------

  /** What is left of a bin once the sources in `d` are removed. */
  ghost function Residue(g: Graph, sources: seq<Payload>, b: nat, d: set<nat>): (p: Payload)
    requires Sized(sources, g.symbolBytes)
    ensures |p| == g.symbolBytes
  {
    XorSum(sources, g.symbolBytes, OddTouchers(g, b) - d, g.latest(b) + 1)
  }

  /** What the decoded sources before `t` contribute to the TLE bin of `t`. */
  ghost function Lost(g: Graph, sources: seq<Payload>, t: nat, d: set<nat>): (p: Payload)
    requires Sized(sources, g.symbolBytes)
    ensures |p| == g.symbolBytes
  {
    XorSum(sources, g.symbolBytes, OddTouchers(g, g.tle(t)) * d, t)
  }

  ghost predicate SoundBins(g: Graph, sources: seq<Payload>, received: map<nat, Buffered>, d: set<nat>)
    requires Sized(sources, g.symbolBytes)
  {
    forall b :: b in received ==> received[b].payload == Residue(g, sources, b, d)
  }

  ghost predicate HasPrefix(g: Graph, t: nat) {
    t < U64_LIMIT && InStream(t, g.terminal)
  }

  ghost predicate SoundPrefixes(g: Graph, sources: seq<Payload>, st: State, from: nat, d: set<nat>)
    requires Sized(sources, g.symbolBytes)
  {
    forall t: nat :: t >= from && HasPrefix(g, t) ==> PrefixAt(g, st, t) == Lost(g, sources, t, d)
  }

  ghost predicate SoundSources(g: Graph, sources: seq<Payload>, st: State)
    requires Sized(sources, g.symbolBytes)
  {
    && (forall s: nat :: s < Next(st) ==> st.history[s] == SourceAt(sources, g.symbolBytes, s))
    && (forall s: nat :: s in st.future ==> st.future[s] == SourceAt(sources, g.symbolBytes, s))
  }

  /** Buffered bins are the xor of their undecoded touchers, live TLE prefixes the xor of the
      decoded earlier touchers, and decoded sources are right. */
  ghost predicate Sound(g: Graph, sources: seq<Payload>, st: State)
    requires Sized(sources, g.symbolBytes)
  {
    && SoundBins(g, sources, st.received, Decoded(st))
    && SoundPrefixes(g, sources, st, Next(st), Decoded(st))
    && SoundSources(g, sources, st)
  }

  // ---------- applying the edges of a decoded source ----------

  lemma {:induction false} ApplyEdgesPayload(g: Graph, st: State, s: nat, p: Payload, edges: seq<nat>, b: nat)
    requires b in st.received && |st.received[b].payload| == |p|
    ensures ApplyEdges(g, st, s, p, edges).received[b].payload
            == if Mult(edges, b) % 2 == 1 then Xor(st.received[b].payload, p) else st.received[b].payload
    decreases edges
  {
    if edges != [] {
      var next := ApplyEdge(g, st, s, p, edges[0]);
      ApplyEdgesPayload(g, next, s, p, edges[1..], b);
      XorCancel(st.received[b].payload, p);
      MultHead(edges, b);
    }
  }

  lemma ApplyEdgePrefix(g: Graph, st: State, s: nat, p: Payload, b: nat, t: nat)
    requires TleSource(g, g.tle(t)) == Some(t)
    ensures PrefixAt(g, ApplyEdge(g, st, s, p, b), t)
            == if t > s && b == g.tle(t) then Xor(PrefixAt(g, st, t), p) else PrefixAt(g, st, t)
  {
  }

  lemma {:induction false} ApplyEdgesPrefix(g: Graph, st: State, s: nat, p: Payload, edges: seq<nat>, t: nat)
    requires TleSource(g, g.tle(t)) == Some(t) && |PrefixAt(g, st, t)| == |p|
    ensures PrefixAt(g, ApplyEdges(g, st, s, p, edges), t)
            == if t > s && Mult(edges, g.tle(t)) % 2 == 1 then Xor(PrefixAt(g, st, t), p) else PrefixAt(g, st, t)
    decreases edges
  {
    if edges != [] {
      ApplyEdgePrefix(g, st, s, p, edges[0], t);
      ApplyEdgesPrefix(g, ApplyEdge(g, st, s, p, edges[0]), s, p, edges[1..], t);
      XorCancel(PrefixAt(g, st, t), p);
      MultHead(edges, g.tle(t));
    }
  }

  lemma ResidueLoses(g: Graph, sources: seq<Payload>, b: nat, d: set<nat>, s: nat)
    requires Legal(g) && Sized(sources, g.symbolBytes)
    requires InStream(s, g.terminal) && s !in d
    ensures Residue(g, sources, b, d + {s})
            == if Mult(g.edges(s), b) % 2 == 1
               then Xor(Residue(g, sources, b, d), SourceAt(sources, g.symbolBytes, s))
               else Residue(g, sources, b, d)
  {
    TouchersComplete(g, s, b);
    var odd := OddTouchers(g, b);
    if Mult(g.edges(s), b) % 2 == 1 {
      assert odd - (d + {s}) == (odd - d) - {s};
      SumRemove(sources, g.symbolBytes, odd - d, s, g.latest(b) + 1);
    } else {
      assert odd - (d + {s}) == odd - d;
    }
  }

  lemma LostGains(g: Graph, sources: seq<Payload>, t: nat, d: set<nat>, s: nat)
    requires Legal(g) && Sized(sources, g.symbolBytes)
    requires InStream(s, g.terminal) && s !in d
    ensures Lost(g, sources, t, d + {s})
            == if t > s && Mult(g.edges(s), g.tle(t)) % 2 == 1
               then Xor(Lost(g, sources, t, d), SourceAt(sources, g.symbolBytes, s))
               else Lost(g, sources, t, d)
  {
    TouchersComplete(g, s, g.tle(t));
    var odd := OddTouchers(g, g.tle(t));
    if t > s && Mult(g.edges(s), g.tle(t)) % 2 == 1 {
      assert odd * (d + {s}) == odd * d + {s};
      SumInsert(sources, g.symbolBytes, odd * d, s, t);
    } else {
      SumSame(sources, g.symbolBytes, odd * (d + {s}), odd * d, t);
    }
  }

  /** Peeling a correct source out of the bins and into the prefixes keeps both exact. */
  lemma ApplySoundBins(g: Graph, sources: seq<Payload>, st: State, d: set<nat>, s: nat)
    requires Legal(g) && Sized(sources, g.symbolBytes)
    requires InStream(s, g.terminal) && s !in d
    requires SoundBins(g, sources, st.received, d)
    ensures SoundBins(g, sources,
                      ApplyEdges(g, st, s, SourceAt(sources, g.symbolBytes, s), g.edges(s)).received, d + {s})
  {
    var p := SourceAt(sources, g.symbolBytes, s);
    forall b | b in st.received
      ensures ApplyEdges(g, st, s, p, g.edges(s)).received[b].payload == Residue(g, sources, b, d + {s})
    {
      ApplyEdgesPayload(g, st, s, p, g.edges(s), b);
      ResidueLoses(g, sources, b, d, s);
    }
  }

  lemma ApplySoundPrefixes(g: Graph, sources: seq<Payload>, st: State, from: nat, d: set<nat>, s: nat)
    requires Legal(g) && Sized(sources, g.symbolBytes)
    requires InStream(s, g.terminal) && s !in d
    requires SoundPrefixes(g, sources, st, from, d)
    ensures SoundPrefixes(g, sources,
                          ApplyEdges(g, st, s, SourceAt(sources, g.symbolBytes, s), g.edges(s)), from, d + {s})
  {
    var p := SourceAt(sources, g.symbolBytes, s);
    var r := ApplyEdges(g, st, s, p, g.edges(s));
    forall t: nat | t >= from && HasPrefix(g, t)
      ensures PrefixAt(g, r, t) == Lost(g, sources, t, d + {s})
    {
      TleSourceOf(g, t);
      ApplyEdgesPrefix(g, st, s, p, g.edges(s), t);
      LostGains(g, sources, t, d, s);
    }
  }

  // ---------- releasing ----------

  lemma ReleaseSound(g: Graph, sources: seq<Payload>, st: State, d: set<nat>)
    requires Sized(sources, g.symbolBytes)
    requires SoundBins(g, sources, st.received, d)
    requires SoundPrefixes(g, sources, st, Next(st) + 1, d)
    requires SoundSources(g, sources, st)
    ensures var r := Release(g, st, SourceAt(sources, g.symbolBytes, Next(st)));
            && SoundBins(g, sources, r.received, d)
            && SoundPrefixes(g, sources, r, Next(r), d)
            && SoundSources(g, sources, r)
  {
  }

  lemma {:induction false} ReleaseReadySound(g: Graph, sources: seq<Payload>, st: State)
    requires Sized(sources, g.symbolBytes) && Sound(g, sources, st)
    ensures Sound(g, sources, ReleaseReady(g, st).state)
    decreases st.future.Keys
  {
    if Next(st) in st.future {
      var rest := st.(future := st.future - {Next(st)});
      ReleaseSound(g, sources, rest, Decoded(st));
      var next := Release(g, rest, st.future[Next(st)]);
      assert Decoded(next) == Decoded(st);
      ReleaseReadySound(g, sources, next);
    }
  }

  /** Decoding the next source needs its own TLE prefix no longer. */
  lemma DecodeNextSound(g: Graph, sources: seq<Payload>, st: State)
    requires Legal(g) && Sized(sources, g.symbolBytes)
    requires SoundBins(g, sources, st.received, Decoded(st)) && SoundSources(g, sources, st)
    requires SoundPrefixes(g, sources, st, Next(st) + 1, Decoded(st))
    requires InStream(Next(st), g.terminal) && Next(st) !in st.future
    ensures Sound(g, sources, DecodeAndRelease(g, st, Next(st), SourceAt(sources, g.symbolBytes, Next(st))).state)
  {
    var s, p := Next(st), SourceAt(sources, g.symbolBytes, Next(st));
    ApplySoundBins(g, sources, st, Decoded(st), s);
    ApplySoundPrefixes(g, sources, st, s + 1, Decoded(st), s);
    var applied := ApplyEdges(g, st, s, p, g.edges(s));
    ReleaseSound(g, sources, applied, Decoded(st) + {s});
    ReleaseDecoded(g, applied, p);
    assert Decoded(applied) == Decoded(st);
    ReleaseReadySound(g, sources, Release(g, applied, p));
  }

  /** Decoding a source with its right payload keeps every payload right. */
  lemma DecodeSound(g: Graph, sources: seq<Payload>, st: State, s: nat)
    requires Legal(g) && Sized(sources, g.symbolBytes)
    requires Sound(g, sources, st) && InStream(s, g.terminal) && !IsDecoded(st, s)
    ensures Sound(g, sources, DecodeAndRelease(g, st, s, SourceAt(sources, g.symbolBytes, s)).state)
  {
    if s == Next(st) {
      DecodeNextSound(g, sources, st);
    } else {
      var p := SourceAt(sources, g.symbolBytes, s);
      ApplySoundBins(g, sources, st, Decoded(st), s);
      ApplySoundPrefixes(g, sources, st, Next(st), Decoded(st), s);
      DecodeAheadSound(g, sources, ApplyEdges(g, st, s, p, g.edges(s)), s, Decoded(st) + {s});
    }
  }

  lemma DecodeAheadSound(g: Graph, sources: seq<Payload>, st: State, s: nat, d: set<nat>)
    requires Sized(sources, g.symbolBytes) && d == Decoded(st) + {s}
    requires SoundBins(g, sources, st.received, d) && SoundSources(g, sources, st)
    requires SoundPrefixes(g, sources, st, Next(st), d)
    ensures Sound(g, sources, st.(future := st.future[s := SourceAt(sources, g.symbolBytes, s)]))
  {
    assert Decoded(st.(future := st.future[s := SourceAt(sources, g.symbolBytes, s)])) == d;
  }

  // ---------- draining ----------

  ghost predicate OddBins(g: Graph, bins: set<nat>) {
    forall b :: b in bins ==> Odd(g, b)
  }

  /** The residue of a bin with one undecoded toucher is that source. */
  lemma ResidueSingle(g: Graph, sources: seq<Payload>, b: nat, d: set<nat>, s: nat)
    requires Legal(g) && Sized(sources, g.symbolBytes) && Odd(g, b)
    requires Touchers(g, b) - d == {s}
    ensures Residue(g, sources, b, d) == SourceAt(sources, g.symbolBytes, s)
  {
    assert s in Touchers(g, b) - d;
    AllOdd(g, b);
    SumSingle(sources, g.symbolBytes, {s}, s, g.latest(b) + 1);
  }

  lemma TakeSound(g: Graph, sources: seq<Payload>, st: State, b: nat)
    requires Sized(sources, g.symbolBytes) && Sound(g, sources, st)
    ensures Sound(g, sources, WithoutBin(st, b))
  {
    assert Decoded(WithoutBin(st, b)) == Decoded(st);
  }

  /** Taking the payload of a bin with one undecoded toucher as that source. */
  lemma TakeAndDecode(g: Graph, sources: seq<Payload>, st: State, bins: set<nat>, b: nat, s: nat)
    requires Legal(g) && OddBins(g, bins) && Sized(sources, g.symbolBytes)
    requires WellFormed(g, st, false) && Control(g, st.received, bins, Decoded(st), {})
    requires Sound(g, sources, st) && b in st.received && Undecoded(g, st, b) == {s}
    requires CleanStep(g, WithoutBin(st, b).received, s)
    ensures var r := DecodeAndRelease(g, WithoutBin(st, b), s, st.received[b].payload).state;
            && WellFormed(g, r, false)
            && Control(g, r.received, bins, Decoded(r), {})
            && Sound(g, sources, r)
  {
    assert s in Undecoded(g, st, b);
    ResidueSingle(g, sources, b, Decoded(st), s);
    TakeSound(g, sources, st, b);
    TakeWellFormed(g, st, b);
    TakeControl(g, st.received, bins, Decoded(st), b);
    DecodeControl(g, WithoutBin(st, b), bins, b, s, st.received[b].payload);
    DecodeSound(g, sources, WithoutBin(st, b), s);
  }

  lemma {:induction false} DrainSound(g: Graph, sources: seq<Payload>, st: State, bins: set<nat>)
    requires Legal(g) && OddBins(g, bins) && Sized(sources, g.symbolBytes)
    requires WellFormed(g, st, false) && Control(g, st.received, bins, Decoded(st), {})
    requires Sound(g, sources, st) && CleanDrain(g, st)
    ensures Sound(g, sources, Drain(g, st).state)
    decreases st.received.Keys
  {
    var first := FirstUnique(st.received, g.edges(Next(st)));
    if first.Some? {
      var b := first.value;
      FirstUniqueIsNext(g, st, b);
      TakeAndDecode(g, sources, st, bins, b, Next(st));
      DrainSound(g, sources, DecodeAndRelease(g, WithoutBin(st, b), Next(st), st.received[b].payload).state, bins);
    } else if FutureBin(g, st).Some? {
      var b := FutureBin(g, st).value;
      var s := OnlyUndecoded(g, st, b);
      TakeAndDecode(g, sources, st, bins, b, s);
      DrainSound(g, sources, DecodeAndRelease(g, WithoutBin(st, b), s, st.received[b].payload).state, bins);
    }
  }
}
