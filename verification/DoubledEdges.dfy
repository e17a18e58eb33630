/** A bin that one source hits twice: its counter goes wrong in a step that is not clean, and in a
    clean run its peeled payload can be wrong. */
module DoubledEdges {
  import opened Wrappers
  import opened Payloads
  import opened CodeGraph
  import opened ReferenceDecoder
  import opened CleanRuns
  import opened PeelingClosure
  import opened RunSoundness
  import opened TwoSourceCodes
  import MettleCode

  /** Source 1 hits bin 601 twice, source 0 once; bin 599 belongs to source 1 alone. */
  function TheCode(): MettleCode.Code {
    TwoSources(Counts(1198, 599, 2), Counts(0, 1, 3))
  }

  const FIRST := [0, 2, 601, 1198]
  const SECOND := [2, 601, 601, 599]

  ghost predicate DoubledShape(g: Graph) {
    Shape(g, FIRST, SECOND)
  }

  lemma TheShape()
    ensures DoubledShape(MettleCode.GraphOf(TheCode()))
  {
    EdgesAre(Counts(1198, 599, 2), Counts(0, 1, 3), 0, Counts(1198, 599, 2));
    EdgesAre(Counts(1198, 599, 2), Counts(0, 1, 3), 1, Counts(0, 1, 3));
    ShapeHolds(Counts(1198, 599, 2), Counts(0, 1, 3), FIRST, SECOND);
  }

  lemma Bin601(g: Graph)
    requires DoubledShape(g)
    ensures Touchers(g, 601) == {0, 1} && TleSource(g, 601).None?
  {
    WhoTouches(g, FIRST, SECOND, 601);
    NoTle(g, FIRST, SECOND, 601);
  }

  lemma TheBins(g: Graph)
    requires DoubledShape(g)
    ensures Touchers(g, 599) == {1} && Touchers(g, 601) == {0, 1}
    ensures TleSource(g, 599).None? && TleSource(g, 601).None? && TleSource(g, 2) == Some(1)
    ensures !Simple(g, 601)
  {
    Bin601(g);
    WhoTouches(g, FIRST, SECOND, 599);
    NoTle(g, FIRST, SECOND, 599);
    SecondTle(g, FIRST, SECOND);
    assert Mult(SECOND, 601) == 2;
  }

  /** Bin 601 holds source 0 only: the two slots of source 1 cancel. */
  lemma ThePayloads(g: Graph, x: bv8, y: bv8)
    requires DoubledShape(g)
    ensures Sized([[x], [y]], 1)
    ensures BinPayload(g, [[x], [y]], 601) == [x] && BinPayload(g, [[x], [y]], 599) == [y]
  {
    TheOddTouchers(g);
    TouchersComplete(g, 0, 601);
    TouchersComplete(g, 1, 599);
    SumSingle([[x], [y]], 1, {0}, 0, g.latest(601) + 1);
    SumSingle([[x], [y]], 1, {1}, 1, g.latest(599) + 1);
  }

  lemma TheOddTouchers(g: Graph)
    requires DoubledShape(g)
    ensures OddTouchers(g, 601) == {0} && OddTouchers(g, 599) == {1}
    ensures 601 in g.edges(0) && 599 in g.edges(1)
  {
    TheBins(g);
    assert Mult(FIRST, 601) == 1 && Mult(SECOND, 601) == 2 && Mult(SECOND, 599) == 1;
    assert OddTouchers(g, 601) == {0} && OddTouchers(g, 599) == {1};
    assert FIRST[2] == 601 && SECOND[3] == 599;
  }

  // ---------- bin 601 first ----------

  lemma WaitBuffered(g: Graph, x: bv8)
    requires DoubledShape(g)
    ensures var st := State([], map[], map[], {601}, map[]);
            && Buffer(g, st, 601, [x]) == State([], map[], map[], {601}, map[601 := Buffered([x], 2)])
            && Undecoded(g, st, 601) == {0, 1}
  {
    Bin601(g);
    BufferFirst(g, {601}, map[], 601, [x], {0, 1});
    assert |{0, 1}| == 2;
  }

  lemma QuietDrain(g: Graph, st: State)
    requires Quiet(st)
    ensures Drain(g, st) == Outcome(st, [])
  {
    assert FutureBins(g, st) == {};
  }

  lemma WaitDelivery(g: Graph, x: bv8)
    requires DoubledShape(g)
    ensures PushBin(g, INITIAL, 601, [x]) == Outcome(State([], map[], map[], {601}, map[601 := Buffered([x], 2)]), [])
  {
    var buffered := State([], map[], map[], {601}, map[601 := Buffered([x], 2)]);
    assert INITIAL.(accepted := INITIAL.accepted + {601}) == State([], map[], map[], {601}, map[]);
    WaitBuffered(g, x);
    PushBuffers(g, INITIAL, 601, [x], buffered);
    QuietDrain(g, buffered);
  }

  lemma ThenBuffered(g: Graph, x: bv8, y: bv8)
    requires DoubledShape(g)
    ensures var st := State([], map[], map[], {601, 599}, map[601 := Buffered([x], 2)]);
            && Buffer(g, st, 599, [y])
               == State([], map[], map[], {601, 599}, map[601 := Buffered([x], 2), 599 := Buffered([y], 1)])
            && Undecoded(g, st, 599) == {1}
  {
    TheBins(g);
    BufferFirst(g, {601, 599}, map[601 := Buffered([x], 2)], 599, [y], {1});
  }

  lemma ApplyOne(g: Graph, x: bv8, y: bv8)
    requires DoubledShape(g)
    ensures var st := State([], map[], map[], {601, 599}, map[601 := Buffered([x], 2)]);
            ApplyEdges(g, st, 1, [y], [2, 601, 601, 599]) == st.(received := map[601 := Buffered([x], 0)])
  {
    var st := State([], map[], map[], {601, 599}, map[601 := Buffered([x], 2)]);
    TheBins(g);
    var once := st.(received := map[601 := Buffered(Xor([x], [y]), 1)]);
    var twice := st.(received := map[601 := Buffered([x], 0)]);
    XorCancel([x], [y]);
    assert ApplyEdge(g, st, 1, [y], 2) == st;
    assert ApplyEdge(g, st, 1, [y], 601) == once;
    assert ApplyEdge(g, once, 1, [y], 601) == twice;
    assert ApplyEdge(g, twice, 1, [y], 599) == twice;
    assert ApplyEdges(g, twice, 1, [y], [599]) == twice;
    assert ApplyEdges(g, once, 1, [y], [601, 599]) == twice;
    assert ApplyEdges(g, st, 1, [y], [601, 601, 599]) == twice;
  }

  /** Decoding source 1 takes bin 601 down by two. */
  lemma DecodeOne(g: Graph, x: bv8, y: bv8)
    requires DoubledShape(g)
    ensures DecodeAndRelease(g, State([], map[], map[], {601, 599}, map[601 := Buffered([x], 2)]), 1, [y])
            == Outcome(State([], map[1 := [y]], map[], {601, 599}, map[601 := Buffered([x], 0)]), [])
  {
    ApplyOne(g, x, y);
  }

  lemma ThenDrain(g: Graph, x: bv8, y: bv8)
    requires DoubledShape(g)
    ensures Drain(g, State([], map[], map[], {601, 599}, map[601 := Buffered([x], 2), 599 := Buffered([y], 1)]))
            == Outcome(State([], map[1 := [y]], map[], {601, 599}, map[601 := Buffered([x], 0)]), [])
  {
    var st := State([], map[], map[], {601, 599}, map[601 := Buffered([x], 2), 599 := Buffered([y], 1)]);
    OnlyOne(g, st);
    assert WithoutBin(st, 599) == State([], map[], map[], {601, 599}, map[601 := Buffered([x], 2)]);
    DecodeOne(g, x, y);
    QuietDrain(g, State([], map[1 := [y]], map[], {601, 599}, map[601 := Buffered([x], 0)]));
  }

  /** Only bin 599 can be decoded, and it decodes source 1. */
  lemma OnlyOne(g: Graph, st: State)
    requires DoubledShape(g) && Decoded(st) == {} && Next(st) == 0
    requires 599 in st.received && st.received[599].remaining == 1
    requires forall b :: b in st.received && b != 599 ==> st.received[b].remaining != 1
    ensures FirstUnique(st.received, g.edges(0)).None? && FutureBin(g, st) == Some(599)
    ensures OnlyUndecoded(g, st, 599) == 1
  {
    TheBins(g);
    assert Undecoded(g, st, 599) == {1};
    assert IsFutureBin(g, st, 599);
    assert FutureBins(g, st) == {599};
    assert OnlyUndecoded(g, st, 599) in {1};
  }

  lemma WaitRun(g: Graph, x: bv8, y: bv8)
    requires DoubledShape(g)
    ensures Run(g, [Delivery(601, [x]), Delivery(599, [y])])
            == Outcome(State([], map[1 := [y]], map[], {601, 599}, map[601 := Buffered([x], 0)]), [])
  {
    WaitDelivery(g, x);
    ThenDelivery(g, x, y);
    RunOfTwo(g, Delivery(601, [x]), Delivery(599, [y]),
             Outcome(State([], map[], map[], {601}, map[601 := Buffered([x], 2)]), []),
             Outcome(State([], map[1 := [y]], map[], {601, 599}, map[601 := Buffered([x], 0)]), []));
  }

  lemma ThenDelivery(g: Graph, x: bv8, y: bv8)
    requires DoubledShape(g)
    ensures PushBin(g, State([], map[], map[], {601}, map[601 := Buffered([x], 2)]), 599, [y])
            == Outcome(State([], map[1 := [y]], map[], {601, 599}, map[601 := Buffered([x], 0)]), [])
  {
    ThenBuffered(g, x, y);
    assert {601} + {599} == {601, 599};
    PushBuffers(g, State([], map[], map[], {601}, map[601 := Buffered([x], 2)]), 599, [y],
                State([], map[], map[], {601, 599}, map[601 := Buffered([x], 2), 599 := Buffered([y], 1)]));
    ThenDrain(g, x, y);
  }

  // ---------- bin 599 first ----------

  lemma AheadBuffered(g: Graph, y: bv8)
    requires DoubledShape(g)
    ensures Buffer(g, INITIAL.(accepted := {599}), 599, [y])
            == State([], map[], map[], {599}, map[599 := Buffered([y], 1)])
    ensures Undecoded(g, INITIAL.(accepted := {599}), 599) == {1}
  {
    TheBins(g);
    BufferFirst(g, {599}, map[], 599, [y], {1});
  }

  lemma DecodeAhead(g: Graph, y: bv8)
    requires DoubledShape(g)
    ensures DecodeAndRelease(g, State([], map[], map[], {599}, map[]), 1, [y])
            == Outcome(State([], map[1 := [y]], map[], {599}, map[]), [])
  {
    var st := State([], map[], map[], {599}, map[]);
    TheBins(g);
    assert forall b :: b in SECOND ==> ApplyEdge(g, st, 1, [y], b) == st;
    assert ApplyEdges(g, st, 1, [y], [599]) == st;
    assert ApplyEdges(g, st, 1, [y], [601, 599]) == st;
    assert ApplyEdges(g, st, 1, [y], [601, 601, 599]) == st;
    assert ApplyEdges(g, st, 1, [y], [2, 601, 601, 599]) == st;
  }

  lemma AheadDelivery(g: Graph, y: bv8)
    requires DoubledShape(g)
    ensures PushBin(g, INITIAL, 599, [y]) == Outcome(State([], map[1 := [y]], map[], {599}, map[]), [])
  {
    var buffered := State([], map[], map[], {599}, map[599 := Buffered([y], 1)]);
    assert INITIAL.accepted + {599} == {599};
    AheadBuffered(g, y);
    PushBuffers(g, INITIAL, 599, [y], buffered);
    AheadDrain(g, y);
  }

  lemma AheadDrain(g: Graph, y: bv8)
    requires DoubledShape(g)
    ensures Drain(g, State([], map[], map[], {599}, map[599 := Buffered([y], 1)]))
            == Outcome(State([], map[1 := [y]], map[], {599}, map[]), [])
  {
    var buffered := State([], map[], map[], {599}, map[599 := Buffered([y], 1)]);
    assert Decoded(buffered) == {};
    OnlyOne(g, buffered);
    assert WithoutBin(buffered, 599) == State([], map[], map[], {599}, map[]);
    DecodeAhead(g, y);
    DrainEmpty(g, State([], map[1 := [y]], map[], {599}, map[]));
  }

  /** Peeling removes source 1 from bin 601, where it is not. */
  lemma WrongBuffered(g: Graph, x: bv8, y: bv8)
    requires DoubledShape(g)
    ensures var st := State([], map[1 := [y]], map[], {599, 601}, map[]);
            && Buffer(g, st, 601, [x]) == st.(received := map[601 := Buffered([x ^ y], 1)])
            && Undecoded(g, st, 601) == {0}
  {
    var st := State([], map[1 := [y]], map[], {599, 601}, map[]);
    TheBins(g);
    assert Decoded(st) == {1};
    assert Undecoded(g, st, 601) == {0};
    PeelBoth(g, st, x, y, g.latest(601) + 1);
  }

  lemma {:induction false} PeelBoth(g: Graph, st: State, x: bv8, y: bv8, n: nat)
    requires DoubledShape(g) && Decoded(st) == {1} && st.history == [] && st.future == map[1 := [y]]
    ensures PeelScan(g, st, 601, n, [x]) == if n < 2 then [x] else [x ^ y]
  {
    if n > 0 {
      PeelBoth(g, st, x, y, n - 1);
      if n == 2 {
        assert Xor([x], [y]) == [x ^ y];
      }
    }
  }

  lemma WrongDrain(g: Graph, x: bv8, y: bv8)
    requires DoubledShape(g)
    ensures var r := Drain(g, State([], map[1 := [y]], map[], {599, 601}, map[601 := Buffered([x ^ y], 1)]));
            |r.out| > 0 && r.out[0] == Released(0, [x ^ y])
  {
    var st := State([], map[1 := [y]], map[], {599, 601}, map[601 := Buffered([x ^ y], 1)]);
    assert FirstUnique(st.received, [601, 1198]) == Some(601);
    assert FirstUnique(st.received, [2, 601, 1198]) == Some(601);
    assert FirstUnique(st.received, g.edges(0)) == Some(601);
    assert DecodeAndRelease(g, WithoutBin(st, 601), 0, [x ^ y]).out[0] == Released(0, [x ^ y]);
  }

  lemma AheadRun(g: Graph, x: bv8, y: bv8)
    requires DoubledShape(g)
    ensures var r := Run(g, [Delivery(599, [y]), Delivery(601, [x])]);
            |r.out| > 0 && r.out[0] == Released(0, [x ^ y])
  {
    var st := State([], map[1 := [y]], map[], {599}, map[]);
    AheadDelivery(g, y);
    WrongDelivery(g, x, y);
    RunOfTwo(g, Delivery(599, [y]), Delivery(601, [x]), Outcome(st, []), PushBin(g, st, 601, [x]));
  }

  lemma WrongDelivery(g: Graph, x: bv8, y: bv8)
    requires DoubledShape(g)
    ensures var r := PushBin(g, State([], map[1 := [y]], map[], {599}, map[]), 601, [x]);
            |r.out| > 0 && r.out[0] == Released(0, [x ^ y])
  {
    WrongBuffered(g, x, y);
    assert {599} + {601} == {599, 601};
    PushBuffers(g, State([], map[1 := [y]], map[], {599}, map[]), 601, [x],
                State([], map[1 := [y]], map[], {599, 601}, map[601 := Buffered([x ^ y], 1)]));
    WrongDrain(g, x, y);
  }

  lemma BothGenuine(g: Graph, x: bv8, y: bv8)
    requires DoubledShape(g)
    ensures Sized([[x], [y]], 1)
    ensures Genuine(g, [[x], [y]], [Delivery(601, [x]), Delivery(599, [y])])
    ensures Genuine(g, [[x], [y]], [Delivery(599, [y]), Delivery(601, [x])])
  {
    ThePayloads(g, x, y);
  }

  // ---------- clean or not ----------

  lemma ThenUnclean(g: Graph, x: bv8, y: bv8)
    requires DoubledShape(g)
    ensures !CleanDrain(g, State([], map[], map[], {601, 599}, map[601 := Buffered([x], 2), 599 := Buffered([y], 1)]))
  {
    var st := State([], map[], map[], {601, 599}, map[601 := Buffered([x], 2), 599 := Buffered([y], 1)]);
    OnlyOne(g, st);
    assert 601 in WithoutBin(st, 599).received && Mult(SECOND, 601) == 2;
    assert !CleanStep(g, WithoutBin(st, 599).received, 1);
  }

  lemma UncleanPush(g: Graph, x: bv8, y: bv8)
    requires DoubledShape(g)
    ensures !CleanPush(g, State([], map[], map[], {601}, map[601 := Buffered([x], 2)]), 599, [y])
  {
    var st := State([], map[], map[], {601}, map[601 := Buffered([x], 2)]);
    var buffered := State([], map[], map[], {601, 599}, map[601 := Buffered([x], 2), 599 := Buffered([y], 1)]);
    ThenBuffered(g, x, y);
    assert st.(accepted := st.accepted + {599}) == State([], map[], map[], {601, 599}, map[601 := Buffered([x], 2)]);
    BufferedPush(g, st, 599, [y], buffered);
    ThenUnclean(g, x, y);
  }

  /** Decoding source 1 while bin 601 waits for both sources. */
  lemma WaitUnclean(g: Graph, x: bv8, y: bv8)
    requires DoubledShape(g)
    ensures !CleanRun(g, [Delivery(601, [x]), Delivery(599, [y])])
  {
    var ds := [Delivery(601, [x]), Delivery(599, [y])];
    WaitDelivery(g, x);
    RunOne(g, ds[0]);
    assert ds[..1] == [ds[0]];
    UncleanPush(g, x, y);
    LastClean(g, ds);
  }

  lemma NothingToDrain(g: Graph, st: State)
    requires st.received.Keys <= {}
    ensures CleanDrain(g, st)
  {
    assert FutureBins(g, st) == {};
  }

  lemma AheadCleanDrain(g: Graph, y: bv8)
    requires DoubledShape(g)
    ensures CleanDrain(g, State([], map[], map[], {599}, map[599 := Buffered([y], 1)]))
  {
    var buffered := State([], map[], map[], {599}, map[599 := Buffered([y], 1)]);
    assert Decoded(buffered) == {};
    OnlyOne(g, buffered);
    NothingToDrain(g, DecodeAndRelease(g, WithoutBin(buffered, 599), 1, [y]).state);
  }

  lemma WrongCleanDrain(g: Graph, x: bv8, y: bv8)
    requires DoubledShape(g)
    ensures CleanDrain(g, State([], map[1 := [y]], map[], {599, 601}, map[601 := Buffered([x ^ y], 1)]))
  {
    var st := State([], map[1 := [y]], map[], {599, 601}, map[601 := Buffered([x ^ y], 1)]);
    assert FirstUnique(st.received, [601, 1198]) == Some(601);
    assert FirstUnique(st.received, [2, 601, 1198]) == Some(601);
    assert FirstUnique(st.received, g.edges(0)) == Some(601);
    NothingToDrain(g, DecodeAndRelease(g, WithoutBin(st, 601), 0, [x ^ y]).state);
  }

  lemma AheadCleanPush(g: Graph, y: bv8)
    requires DoubledShape(g)
    ensures CleanPush(g, INITIAL, 599, [y])
  {
    assert INITIAL.accepted + {599} == {599};
    AheadBuffered(g, y);
    AheadCleanDrain(g, y);
  }

  lemma WrongCleanPush(g: Graph, x: bv8, y: bv8)
    requires DoubledShape(g)
    ensures CleanPush(g, State([], map[1 := [y]], map[], {599}, map[]), 601, [x])
  {
    assert {599} + {601} == {599, 601};
    WrongBuffered(g, x, y);
    WrongCleanDrain(g, x, y);
  }

  /** In the other order no bin waits while a source is decoded. */
  lemma AheadClean(g: Graph, x: bv8, y: bv8)
    requires DoubledShape(g)
    ensures CleanRun(g, [Delivery(599, [y]), Delivery(601, [x])])
  {
    var ds := [Delivery(599, [y]), Delivery(601, [x])];
    AheadDelivery(g, y);
    RunOne(g, ds[0]);
    assert ds[..1] == [ds[0]] && ds[..1][..0] == [];
    AheadCleanPush(g, y);
    WrongCleanPush(g, x, y);
    LastClean(g, ds[..1]);
    LastClean(g, ds);
  }

  ghost predicate Breaks(g: Graph, x: bv8, y: bv8)
    requires g.symbolBytes == 1
  {
    var sources: seq<Payload> := [[x], [y]];
    var one, other := [Delivery(601, [x]), Delivery(599, [y])], [Delivery(599, [y]), Delivery(601, [x])];
    && Sized(sources, 1) && Genuine(g, sources, one) && Genuine(g, sources, other)
    && Mult(g.edges(1), 601) == 2
    && !CleanRun(g, one) && CleanRun(g, other)
    && Next(Run(g, one).state) == 0 && Run(g, one).out == []
    && |Run(g, other).out| > 0 && Run(g, other).out[0] == Released(0, [x ^ y]) && x ^ y != x
  }

  lemma ShapeBreaks(g: Graph, x: bv8, y: bv8)
    requires DoubledShape(g) && y != 0
    ensures Breaks(g, x, y)
  {
    BothGenuine(g, x, y);
    assert Mult(SECOND, 601) == 2;
    WaitUnclean(g, x, y);
    AheadClean(g, x, y);
    WaitRun(g, x, y);
    AheadRun(g, x, y);
    XorDiffers(x, y);
  }

  /** A terminated code in which source 1 hits bin 601 twice, and two genuine bins in both orders:
      one order is not clean and never decodes source 0, the other is clean and releases the
      exclusive-or of both sources as source 0. */
  lemma DoubledEdgeBreaks(x: bv8, y: bv8)
    requires y != 0
    ensures var g := MettleCode.GraphOf(TheCode()); Legal(g) && g.symbolBytes == 1 && Breaks(g, x, y)
  {
    TheShape();
    ShapeBreaks(MettleCode.GraphOf(TheCode()), x, y);
  }
}
