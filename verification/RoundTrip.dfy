/** The terminated round trip: every bin of a finished stream, delivered in emission order. */
module RoundTrip {
  import opened Wrappers
  import opened Payloads
  import opened CodeGraph
  import opened MettleCode
  import opened EncodedBins
  import opened ReferenceDecoder
  import opened PayloadSoundness
  import opened RunSoundness
  import Params
  import Encoder
  import Decoder

  /** The encoder leaves source `s` in its own TLE bin: an odd number of its four edges end up
      there.  An all-zero source needs no bin. */
  ghost predicate Recoverable(g: Graph, sources: seq<Payload>, s: nat)
    requires Sized(sources, g.symbolBytes)
  {
    Mult(g.edges(s), g.tle(s)) % 2 == 1 || SourceAt(sources, g.symbolBytes, s) == Zero(g.symbolBytes)
  }

  /** Bins 0, ..., k - 1 of the stream, in order. */
  ghost function FirstBins(g: Graph, sources: seq<Payload>, k: nat): (ds: seq<Delivery>)
    requires Sized(sources, g.symbolBytes)
    ensures |ds| == k && forall i :: 0 <= i < k ==> ds[i] == Delivery(i, BinPayload(g, sources, i))
  {
    seq(k, i requires 0 <= i < k => Delivery(i, BinPayload(g, sources, i)))
  }

  /** `m` sources of the stream have their TLE bin below `k`. */
  ghost predicate Passed(g: Graph, m: nat, k: nat) {
    && (m == 0 || g.tle(m - 1) < k)
    && (g.terminal.Some? ==> m <= g.terminal.value)
    && (g.terminal == Some(m) || k <= g.tle(m))
  }

  /** In order and without loss nothing is ever buffered or decoded ahead. */
  ghost predicate InStep(g: Graph, sources: seq<Payload>, r: Outcome, m: nat, k: nat)
    requires Sized(sources, g.symbolBytes)
  {
    && Passed(g, m, k) && Next(r.state) == m
    && r.state.received == map[] && r.state.future == map[]
    && (forall b :: b in r.state.accepted ==> b < k)
    && Sound(g, sources, r.state)
    && r.out == Expected(sources, g.symbolBytes, m)
  }

  /** What the fast path recovers: the next source if its TLE bin holds it, zeros otherwise. */
  lemma FastPayload(g: Graph, sources: seq<Payload>, st: State)
    requires Legal(g) && Sized(sources, g.symbolBytes) && Sound(g, sources, st)
    requires st.future == map[] && HasPrefix(g, Next(st))
    ensures Peel(g, st, Frontier(g, st), BinPayload(g, sources, Frontier(g, st)))
            == if Mult(g.edges(Next(st)), Frontier(g, st)) % 2 == 1
               then SourceAt(sources, g.symbolBytes, Next(st)) else Zero(g.symbolBytes)
  {
    var t, n := Next(st), g.symbolBytes;
    var b, odd := g.tle(t), OddTouchers(g, g.tle(t));
    PeelTle(g, sources, st, t);
    LatestOfTle(g, t);
    TouchersOfTle(g, t);
    assert Decoded(st) - {t} == Decoded(st);
    assert forall s: nat :: s in Decoded(st) <==> s < t;
    if Mult(g.edges(t), b) % 2 == 1 {
      SumSingle(sources, n, odd - Decoded(st), t, t + 1);
    } else {
      SumEmpty(sources, n, odd - Decoded(st), t + 1);
    }
  }

  /** The fast path releases the next source with that payload and nothing else. */
  lemma FastStep(g: Graph, sources: seq<Payload>, st: State)
    requires Legal(g) && Sized(sources, g.symbolBytes) && Sound(g, sources, st)
    requires st.future == map[] && st.received == map[] && HasPrefix(g, Next(st))
    ensures var r := FastPath(g, st, BinPayload(g, sources, Frontier(g, st)));
            && Next(r.state) == Next(st) + 1 && r.state.future == map[] && r.state.received == map[]
            && r.out == [Released(Next(st), if Mult(g.edges(Next(st)), Frontier(g, st)) % 2 == 1
                                            then SourceAt(sources, g.symbolBytes, Next(st))
                                            else Zero(g.symbolBytes))]
            && (Recoverable(g, sources, Next(st)) ==> Sound(g, sources, r.state))
  {
    var st1 := st.(tlePrefix := st.tlePrefix - {Next(st)});
    FastPayload(g, sources, st);
    TleSourceOf(g, Next(st));
    NoFuture(g, st1, if Mult(g.edges(Next(st)), Frontier(g, st)) % 2 == 1
                     then SourceAt(sources, g.symbolBytes, Next(st)) else Zero(g.symbolBytes));
    assert Decoded(st1) == Decoded(st);
    if Recoverable(g, sources, Next(st)) {
      DecodeNextSound(g, sources, st1);
    }
  }

  lemma NoFuture(g: Graph, st: State, p: Payload)
    requires st.future == map[] && st.received == map[]
    ensures var r := DecodeAndRelease(g, st, Next(st), p);
            && Next(r.state) == Next(st) + 1 && r.state.future == map[] && r.state.received == map[]
            && r.out == [Released(Next(st), p)]
  {
    var next := Release(g, ApplyEdges(g, st, Next(st), p, g.edges(Next(st))), p);
    assert ReleaseReady(g, next) == Outcome(next, []);
    assert next.received.Keys <= {};
  }

  lemma TleNotAt(g: Graph, m: nat, k: nat)
    requires Legal(g) && k < g.tle(m) && (m == 0 || g.tle(m - 1) < k)
    ensures TleSource(g, k).None?
  {
    if m > 0 {
      assert m - 1 <= g.latest(k);
    }
    assert !(m <= g.latest(k));
  }

  /** Bins strictly between two TLE bins, or past the last one, change nothing. */
  lemma PassiveStep(g: Graph, st: State, m: nat, k: nat, p: Payload)
    requires Legal(g) && Passed(g, m, k) && Next(st) == m
    requires g.terminal == Some(m) || k < g.tle(m)
    ensures PushBin(g, st, k, p).out == []
    ensures PushBin(g, st, k, p).state == st || PushBin(g, st, k, p).state == st.(accepted := st.accepted + {k})
  {
    if !Complete(g, st) && Acceptable(g, k, p) && k !in st.accepted {
      TleNotAt(g, m, k);
    }
  }

  lemma InStepNext(g: Graph, sources: seq<Payload>, r: Outcome, m: nat, k: nat) returns (m': nat)
    requires Legal(g) && Sized(sources, g.symbolBytes) && InStep(g, sources, r, m, k)
    requires g.terminal.Some? && g.terminal.value <= U64_LIMIT
    requires m < g.terminal.value && k == g.tle(m) ==> Recoverable(g, sources, m)
    ensures var step := PushBin(g, r.state, k, BinPayload(g, sources, k));
            InStep(g, sources, Outcome(step.state, r.out + step.out), m', k + 1)
    ensures m' == if m < g.terminal.value && k == g.tle(m) then m + 1 else m
  {
    var p := BinPayload(g, sources, k);
    if m < g.terminal.value && k == g.tle(m) {
      m' := m + 1;
      LeadStep(g, sources, r, m);
    } else {
      m' := m;
      PassiveInStep(g, sources, r, m, k, p);
    }
  }

  lemma PassiveInStep(g: Graph, sources: seq<Payload>, r: Outcome, m: nat, k: nat, p: Payload)
    requires Legal(g) && Sized(sources, g.symbolBytes) && InStep(g, sources, r, m, k)
    requires g.terminal.Some? && !(m < g.terminal.value && k == g.tle(m))
    ensures var step := PushBin(g, r.state, k, p);
            InStep(g, sources, Outcome(step.state, r.out + step.out), m, k + 1)
  {
    PassiveStep(g, r.state, m, k, p);
    assert Decoded(PushBin(g, r.state, k, p).state) == Decoded(r.state);
  }

  /** The TLE bin of the next source takes the fast path when nothing is buffered. */
  lemma LeadTakesFastPath(g: Graph, st: State, p: Payload)
    requires Legal(g) && st.received == map[] && !Complete(g, st) && Acceptable(g, Frontier(g, st), p)
    requires Frontier(g, st) !in st.accepted
    ensures PushBin(g, st, Frontier(g, st), p)
            == FastPath(g, st.(accepted := st.accepted + {Frontier(g, st)}), p)
  {
  }

  lemma AdvanceInStep(g: Graph, sources: seq<Payload>, r: Outcome, m: nat, step: Outcome)
    requires Legal(g) && Sized(sources, g.symbolBytes) && InStep(g, sources, r, m, g.tle(m))
    requires g.terminal.Some? && m < g.terminal.value
    requires Next(step.state) == m + 1 && step.state.received == map[] && step.state.future == map[]
    requires step.state.accepted == r.state.accepted + {g.tle(m)} && Sound(g, sources, step.state)
    requires step.out == [Released(m, SourceAt(sources, g.symbolBytes, m))]
    ensures InStep(g, sources, Outcome(step.state, r.out + step.out), m + 1, g.tle(m) + 1)
  {
    assert g.tle(m) < g.tle(m + 1);
  }

  lemma LeadStep(g: Graph, sources: seq<Payload>, r: Outcome, m: nat)
    requires Legal(g) && Sized(sources, g.symbolBytes) && InStep(g, sources, r, m, g.tle(m))
    requires g.terminal.Some? && m < g.terminal.value <= U64_LIMIT
    ensures var step := PushBin(g, r.state, g.tle(m), BinPayload(g, sources, g.tle(m)));
            && |step.out| == 1 && step.out[0].id == m
            && (step.out[0].payload == SourceAt(sources, g.symbolBytes, m) <==> Recoverable(g, sources, m))
            && (Recoverable(g, sources, m) ==>
                  InStep(g, sources, Outcome(step.state, r.out + step.out), m + 1, g.tle(m) + 1))
  {
    var b, p := g.tle(m), BinPayload(g, sources, g.tle(m));
    var st1 := r.state.(accepted := r.state.accepted + {b});
    assert Decoded(st1) == Decoded(r.state);
    LeadTakesFastPath(g, r.state, p);
    FastStep(g, sources, st1);
    if Recoverable(g, sources, m) {
      AdvanceInStep(g, sources, r, m, PushBin(g, r.state, b, p));
    }
  }

  lemma RunLast(g: Graph, sources: seq<Payload>, k: nat)
    requires Sized(sources, g.symbolBytes)
    ensures FirstBins(g, sources, k + 1)[..k] == FirstBins(g, sources, k)
    ensures var before := Run(g, FirstBins(g, sources, k));
            var step := PushBin(g, before.state, k, BinPayload(g, sources, k));
            Run(g, FirstBins(g, sources, k + 1)) == Outcome(step.state, before.out + step.out)
  {
    assert FirstBins(g, sources, k + 1)[..k] == FirstBins(g, sources, k);
  }

  lemma InitiallyInStep(g: Graph, sources: seq<Payload>)
    requires Sized(sources, g.symbolBytes)
    ensures InStep(g, sources, Run(g, FirstBins(g, sources, 0)), 0, 0)
  {
    InitialSound(g, sources);
    assert FirstBins(g, sources, 0) == [];
  }

  /** Every source with its TLE bin below `k` is recoverable. */
  ghost predicate RecoverableBelow(g: Graph, sources: seq<Payload>, k: nat)
    requires Sized(sources, g.symbolBytes) && g.terminal.Some?
  {
    forall s: nat {:trigger Recoverable(g, sources, s)} ::
      s < g.terminal.value && g.tle(s) < k ==> Recoverable(g, sources, s)
  }

  lemma RecoverableSplit(g: Graph, sources: seq<Payload>, k: nat)
    requires Sized(sources, g.symbolBytes) && g.terminal.Some? && RecoverableBelow(g, sources, k + 1)
    ensures RecoverableBelow(g, sources, k)
    ensures forall m: nat :: m < g.terminal.value && k == g.tle(m) ==> Recoverable(g, sources, m)
  {
  }

  /** As long as every source so far was recoverable, the decoder keeps in step. */
  lemma {:induction false} StaysInStep(g: Graph, sources: seq<Payload>, k: nat) returns (m: nat)
    requires Legal(g) && Sized(sources, g.symbolBytes)
    requires g.terminal.Some? && g.terminal.value <= U64_LIMIT && RecoverableBelow(g, sources, k)
    ensures InStep(g, sources, Run(g, FirstBins(g, sources, k)), m, k)
    decreases k, 0
  {
    if k == 0 {
      m := 0;
      InitiallyInStep(g, sources);
    } else {
      m := StaysNext(g, sources, k - 1);
    }
  }

  lemma {:induction false} StaysNext(g: Graph, sources: seq<Payload>, k: nat) returns (m: nat)
    requires Legal(g) && Sized(sources, g.symbolBytes)
    requires g.terminal.Some? && g.terminal.value <= U64_LIMIT && RecoverableBelow(g, sources, k + 1)
    ensures InStep(g, sources, Run(g, FirstBins(g, sources, k + 1)), m, k + 1)
    decreases k, 1
  {
    RecoverableSplit(g, sources, k);
    var before := StaysInStep(g, sources, k);
    m := StaysOneMore(g, sources, k, before);
  }

  lemma StaysOneMore(g: Graph, sources: seq<Payload>, k: nat, m: nat) returns (m': nat)
    requires Legal(g) && Sized(sources, g.symbolBytes)
    requires g.terminal.Some? && g.terminal.value <= U64_LIMIT
    requires InStep(g, sources, Run(g, FirstBins(g, sources, k)), m, k)
    requires m < g.terminal.value && k == g.tle(m) ==> Recoverable(g, sources, m)
    ensures InStep(g, sources, Run(g, FirstBins(g, sources, k + 1)), m', k + 1)
  {
    RunLast(g, sources, k);
    m' := InStepNext(g, sources, Run(g, FirstBins(g, sources, k)), m, k);
  }

  lemma OutputsGrowOnce(g: Graph, sources: seq<Payload>, k: nat)
    requires Sized(sources, g.symbolBytes)
    ensures Run(g, FirstBins(g, sources, k)).out <= Run(g, FirstBins(g, sources, k + 1)).out
  {
    RunLast(g, sources, k);
  }

  lemma {:induction false} PrefixChain(logs: seq<seq<Released>>, i: nat, j: nat)
    requires i <= j < |logs| && forall k: nat :: k + 1 < |logs| ==> logs[k] <= logs[k + 1]
    ensures logs[i] <= logs[j]
  {
    if i < j {
      PrefixChain(logs, i, j - 1);
      assert logs[j - 1] <= logs[j - 1 + 1];
    }
  }

  /** Outputs are never taken back. */
  lemma OutputsGrow(g: Graph, sources: seq<Payload>, k: nat, k': nat)
    requires Sized(sources, g.symbolBytes) && k <= k'
    ensures Run(g, FirstBins(g, sources, k)).out <= Run(g, FirstBins(g, sources, k')).out
  {
    var logs := seq(k' + 1, i requires 0 <= i <= k' => Run(g, FirstBins(g, sources, i)).out);
    forall i: nat | i + 1 < |logs| ensures logs[i] <= logs[i + 1] {
      OutputsGrowOnce(g, sources, i);
    }
    PrefixChain(logs, k, k');
  }

  /** The first source that its own TLE bin does not hold comes out wrong. */
  lemma FirstLossShows(g: Graph, sources: seq<Payload>, s: nat, k: nat)
    requires Legal(g) && Sized(sources, g.symbolBytes)
    requires g.terminal.Some? && s < g.terminal.value <= U64_LIMIT && g.tle(s) < k
    requires !Recoverable(g, sources, s) && forall u: nat :: u < s ==> Recoverable(g, sources, u)
    ensures Run(g, FirstBins(g, sources, k)).out != Expected(sources, g.symbolBytes, g.terminal.value)
  {
    var b := g.tle(s);
    forall u: nat | u < g.terminal.value && g.tle(u) < b ensures Recoverable(g, sources, u) {
      assert !(s < u) && s != u;
    }
    assert RecoverableBelow(g, sources, b);
    var m := StaysInStep(g, sources, b);
    assert m == s by {
      assert !(m < s);
      assert !(s < m - 1);
    }
    var before := Run(g, FirstBins(g, sources, b));
    LeadStep(g, sources, before, s);
    RunLast(g, sources, b);
    OutputsGrow(g, sources, b + 1, k);
    assert Run(g, FirstBins(g, sources, b + 1)).out[s].payload != SourceAt(sources, g.symbolBytes, s);
  }

  lemma LeastLoss(g: Graph, sources: seq<Payload>, n: nat) returns (s: nat)
    requires Sized(sources, g.symbolBytes)
    requires exists u: nat :: u < n && !Recoverable(g, sources, u)
    ensures s < n && !Recoverable(g, sources, s) && forall u: nat :: u < s ==> Recoverable(g, sources, u)
  {
    s := 0;
    while Recoverable(g, sources, s)
      invariant s < n && forall u: nat :: u < s ==> Recoverable(g, sources, u)
      decreases n - s
    {
      s := s + 1;
      assert exists u: nat :: u < n && !Recoverable(g, sources, u);
    }
  }

  /** Bins 0, ..., k - 1 in order make the decoder release exactly the sources of the stream. */
  ghost predicate RoundTrips(g: Graph, sources: seq<Payload>, k: nat)
    requires Sized(sources, g.symbolBytes) && g.terminal.Some?
  {
    Run(g, FirstBins(g, sources, k)).out == Expected(sources, g.symbolBytes, g.terminal.value)
  }

  /** In-order, loss-free delivery of all bins releases exactly the sources of the stream, in
      order, if and only if every source is recoverable from its own TLE bin. */
  lemma InOrderRoundTrip(g: Graph, sources: seq<Payload>, k: nat)
    requires Legal(g) && Sized(sources, g.symbolBytes)
    requires g.terminal.Some? && g.terminal.value <= U64_LIMIT
    requires forall s: nat :: s < g.terminal.value ==> g.tle(s) < k
    ensures RoundTrips(g, sources, k) <==> forall s: nat :: s < g.terminal.value ==> Recoverable(g, sources, s)
  {
    var n := g.terminal.value;
    if forall s: nat :: s < n ==> Recoverable(g, sources, s) {
      var m := StaysInStep(g, sources, k);
      assert m < n ==> g.tle(m) < k;
      assert m == n;
    } else {
      var s := LeastLoss(g, sources, n);
      FirstLossShows(g, sources, s, k);
    }
  }

  // ---------- through the real encoder and decoder ----------

  ghost function PadAll(payloads: seq<Payload>, n: nat): (padded: seq<Payload>)
    requires forall i :: 0 <= i < |payloads| ==> |payloads[i]| <= n
    ensures Sized(padded, n) && |padded| == |payloads|
    ensures forall i :: 0 <= i < |payloads| ==> padded[i] == Pad(payloads[i], n) && IsPadded(padded[i], payloads[i], n)
  {
    seq(|payloads|, i requires 0 <= i < |payloads| => Pad(payloads[i], n))
  }

  /** The sources are the payloads, each with zeros up to the symbol size. */
  ghost predicate ArePadded(sources: seq<Payload>, payloads: seq<Payload>, n: nat)
    ensures ArePadded(sources, payloads, n) ==> Sized(sources, n)
  {
    && |sources| == |payloads|
    && forall s :: 0 <= s < |sources| ==> IsPadded(sources[s], payloads[s], n)
  }

  /** All bins of a terminated stream: push every source, then finish. */
  method EncodeAll(code: Code, payloads: seq<Payload>) returns (bins: seq<Bin>)
    requires code.terminal == Some(|payloads|) && |payloads| > 0
    requires forall i :: 0 <= i < |payloads| ==> |payloads[i]| <= code.symbolBytes
    ensures exists sources: seq<Payload> ::
              && ArePadded(sources, payloads, code.symbolBytes)
              && bins == Encoded(GraphOf(code), sources, 0, |bins|)
    ensures bins == Encoded(GraphOf(code), PadAll(payloads, code.symbolBytes), 0, |bins|)
    ensures IsStreamEnd(code.c, |payloads|, |bins|)
  {
    assert ArePadded(PadAll(payloads, code.symbolBytes), payloads, code.symbolBytes);
    var encoder := new Encoder.MettleEncoder(code);
    assert encoder.graph == GraphOf(code);
    bins := EncodeWith(encoder, payloads, PadAll(payloads, code.symbolBytes));
  }

  /** The pushes and the finish of a fresh encoder. */
  method EncodeWith(encoder: Encoder.MettleEncoder, payloads: seq<Payload>, ghost all: seq<Payload>)
    returns (bins: seq<Bin>)
    requires encoder.Valid() && encoder.sources == [] && encoder.nextDepartureBinId == 0
    requires encoder.code.terminal == Some(|payloads|) && |payloads| > 0
    requires forall i :: 0 <= i < |payloads| ==> |payloads[i]| <= encoder.code.symbolBytes
    requires all == PadAll(payloads, encoder.code.symbolBytes)
    modifies encoder
    ensures bins == Encoded(encoder.graph, all, 0, |bins|) && IsStreamEnd(encoder.code.c, |payloads|, |bins|)
  {
    bins := [];
    for i := 0 to |payloads|
      invariant encoder.Valid() && encoder.sources == all[..i]
      invariant bins == Encoded(encoder.graph, all, 0, encoder.nextDepartureBinId)
    {
      ghost var from := encoder.nextDepartureBinId;
      var more := encoder.PushSource(payloads[i]);
      EncodedSplit(encoder.graph, all, 0, from, encoder.nextDepartureBinId);
      bins := bins + more;
    }
    ghost var from := encoder.nextDepartureBinId;
    var rest := encoder.FinishTerminated();
    assert all[..|payloads|] == all;
    EncodedSplit(encoder.graph, all, 0, from, encoder.nextDepartureBinId);
    bins := bins + rest;
  }

  /** Feeds bins to a fresh decoder, as the repository's validation harness does. */
  method DecodeAll(code: Code, bins: seq<Bin>) returns (decoded: seq<Released>)
    ensures decoded == Run(GraphOf(code), Deliveries(bins)).out
  {
    var decoder := new Decoder.MettleDecoder(code);
    decoded := [];
    ghost var ds := Deliveries(bins);
    for i := 0 to |bins|
      invariant decoder.Valid() && decoder.graph == GraphOf(code) && fresh(decoder)
      invariant Outcome(decoder.View(), decoded) == Run(GraphOf(code), ds[..i])
    {
      assert ds[..i + 1][..i] == ds[..i];
      var more := decoder.PushBin(bins[i].id, bins[i].payload);
      decoded := decoded + more;
    }
    assert ds[..|bins|] == ds;
  }

  ghost function Deliveries(bins: seq<Bin>): (ds: seq<Delivery>)
    ensures |ds| == |bins| && forall i :: 0 <= i < |bins| ==> ds[i] == Delivery(bins[i].id, bins[i].payload)
  {
    seq(|bins|, i requires 0 <= i < |bins| => Delivery(bins[i].id, bins[i].payload))
  }

  /** The decoder gave back all payloads in order, each with zeros up to the symbol size. */
  predicate GivenBack(decoded: seq<Released>, payloads: seq<Payload>, n: nat) {
    && |decoded| == |payloads|
    && forall s :: 0 <= s < |payloads| ==> decoded[s].id == s && IsPadded(decoded[s].payload, payloads[s], n)
  }

  /** The source hits its own TLE bin with an odd number of its four edges, or is all zero. */
  predicate HoldsItself(code: Code, payload: Payload, s: nat) {
    || Mult(Edges(code, s), Params.TleBin(code.c, s)) % 2 == 1
    || forall i :: 0 <= i < |payload| ==> payload[i] == 0
  }

  lemma PaddedZero(p: Payload, payload: Payload, n: nat)
    requires IsPadded(p, payload, n) && |payload| <= n
    ensures p == Zero(n) <==> forall i :: 0 <= i < |payload| ==> payload[i] == 0
  {
    if p == Zero(n) {
      assert forall i :: 0 <= i < |payload| ==> payload[i] == p[i];
    }
  }

  lemma ExpectedIsGivenBack(decoded: seq<Released>, padded: seq<Payload>, payloads: seq<Payload>, n: nat)
    requires ArePadded(padded, payloads, n)
    ensures decoded == Expected(padded, n, |payloads|) <==> GivenBack(decoded, payloads, n)
  {
    if GivenBack(decoded, payloads, n) {
      forall s | 0 <= s < |decoded| ensures decoded[s] == Released(s, SourceAt(padded, n, s)) {
        assert decoded[s].payload == padded[s];
      }
    }
  }

  lemma HoldsIsRecoverable(code: Code, padded: seq<Payload>, payloads: seq<Payload>, s: nat)
    requires ArePadded(padded, payloads, code.symbolBytes) && s < |payloads| && |payloads[s]| <= code.symbolBytes
    ensures Recoverable(GraphOf(code), padded, s) <==> HoldsItself(code, payloads[s], s)
  {
    PaddedZero(padded[s], payloads[s], code.symbolBytes);
  }

  /** The terminated round trip through the encoder and the decoder: for every ratio, seed, symbol
      size and list of sources, the decoder returns exactly the padded sources in order if and
      only if each source is recoverable from its own TLE bin. */
  method Transmit(code: Code, payloads: seq<Payload>) returns (decoded: seq<Released>)
    requires code.terminal == Some(|payloads|) && 0 < |payloads| < U64_LIMIT
    requires forall i :: 0 <= i < |payloads| ==> |payloads[i]| <= code.symbolBytes
    ensures GivenBack(decoded, payloads, code.symbolBytes)
            <==> forall s: nat :: s < |payloads| ==> HoldsItself(code, payloads[s], s)
  {
    var bins := EncodeAll(code, payloads);
    decoded := DecodeAll(code, bins);
    ghost var padded := PadAll(payloads, code.symbolBytes);
    TransmitExact(code, padded, |bins|);
    assert Deliveries(bins) == FirstBins(GraphOf(code), padded, |bins|);
    ExpectedIsGivenBack(decoded, padded, payloads, code.symbolBytes);
    forall s: nat | s < |payloads|
      ensures Recoverable(GraphOf(code), padded, s) <==> HoldsItself(code, payloads[s], s)
    {
      HoldsIsRecoverable(code, padded, payloads, s);
    }
  }

  lemma TransmitExact(code: Code, padded: seq<Payload>, k: nat)
    requires code.terminal.Some? && Sized(padded, code.symbolBytes) && code.terminal.value < U64_LIMIT
    requires IsStreamEnd(code.c, code.terminal.value, k)
    ensures RoundTrips(GraphOf(code), padded, k)
            <==> forall s: nat :: s < code.terminal.value ==> Recoverable(GraphOf(code), padded, s)
  {
    GraphLegal(code);
    TleBelowEnd(code, k);
    InOrderRoundTrip(GraphOf(code), padded, k);
  }

  lemma TleBelowEnd(code: Code, end: nat)
    requires code.terminal.Some? && IsStreamEnd(code.c, code.terminal.value, end)
    ensures forall s: nat :: s < code.terminal.value ==> GraphOf(code).tle(s) < end
  {
    forall s: nat | s < code.terminal.value ensures GraphOf(code).tle(s) < end {
      Params.WindowEndTAfterTle(code.c, s, code.terminal);
    }
  }

  // ---------- a stream that does not survive ----------

  /** One source of one byte at ratio 1/20; every trial of every edge succeeds. */
  function AllSucceed(): Code {
    Code(Params.Overhead(1, 20), (s: nat, index: nat, j: nat) => 0, Some(1), 1)
  }

  lemma {:induction false} EverySuccess(draw: nat -> nat, denominator: nat, trials: nat)
    requires denominator > 0 && forall j: nat :: draw(j) == 0
    ensures Successes(draw, denominator, trials) == trials
  {
    if trials > 0 {
      EverySuccess(draw, denominator, trials - 1);
    }
  }

  lemma TheTrials()
    ensures Params.Trials(Params.Overhead(1, 20), 0, Some(1)) == 315
  {
  }

  lemma FarLeft()
    ensures Params.EdgeForEta(Params.Overhead(1, 20), 0, 315, Some(1)) == 0
  {
    TheTrials();
    assert Params.TleBin(Params.Overhead(1, 20), 0) == 0;
  }

  lemma EdgeInBinZero(k: nat)
    requires k < 3
    ensures NonTleEdge(AllSucceed(), 0, k) == 0
  {
    var g := AllSucceed();
    EverySuccess((j: nat) => g.draws(0, k + 2, j), PROFILE[k], Params.Trials(g.c, 0, g.terminal));
    TheTrials();
    FarLeft();
  }

  /** All four edges of the source are bin 0. */
  lemma AllInBinZero()
    ensures Edges(AllSucceed(), 0) == [0, 0, 0, 0]
  {
    EdgeInBinZero(0);
    EdgeInBinZero(1);
    EdgeInBinZero(2);
    FourEdges(AllSucceed(), 0, 0, 0, 0, 0);
  }

  lemma FourSlots()
    ensures Mult([0, 0, 0, 0], 0) == 4
  {
    assert [0][1..] == [] && [0, 0][1..] == [0] && [0, 0, 0][1..] == [0, 0] && [0, 0, 0, 0][1..] == [0, 0, 0];
    assert Mult([0], 0) == 1 && Mult([0, 0], 0) == 2;
  }

  /** The round trip is no law of the code: its own bin can hold a source four times, which is not
      at all, and then the in-order delivery of however many bins returns something else. */
  lemma LostInOwnBin(k: nat)
    requires k > 0
    ensures var g := GraphOf(AllSucceed());
            && Mult(g.edges(0), g.tle(0)) == 4
            && !Recoverable(g, [[1]], 0)
            && !RoundTrips(g, [[1]], k)
  {
    var g := GraphOf(AllSucceed());
    TheGraph();
    NotRecoverable(g);
    OneLoss(g, k);
  }

  lemma OneLoss(g: Graph, k: nat)
    requires Legal(g) && g.symbolBytes == 1 && g.terminal == Some(1) && g.tle(0) < k
    requires !Recoverable(g, [[1]], 0)
    ensures !RoundTrips(g, [[1]], k)
  {
    InOrderRoundTrip(g, [[1]], k);
  }

  /** Four slots cancel, and the source is not zero. */
  lemma NotRecoverable(g: Graph)
    requires g.symbolBytes == 1 && g.tle(0) == 0 && g.edges(0) == [0, 0, 0, 0]
    ensures Mult(g.edges(0), g.tle(0)) == 4 && !Recoverable(g, [[1]], 0)
  {
    FourSlots();
    assert SourceAt([[1]], 1, 0)[0] == 1 && Zero(1)[0] == 0;
  }

  lemma TheGraph()
    ensures var g := GraphOf(AllSucceed());
            && Legal(g) && g.symbolBytes == 1 && g.terminal == Some(1)
            && g.tle(0) == 0 && g.edges(0) == [0, 0, 0, 0]
  {
    GraphLegal(AllSucceed());
    AllInBinZero();
    assert Params.TleBin(Params.Overhead(1, 20), 0) == 0;
  }
}
