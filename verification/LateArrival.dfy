/** The hypothesis on late TLE bins is needed: a TLE bin that arrives after its source was decoded
    ahead makes the decoder release a wrong payload. */
module LateArrival {
  import opened Wrappers
  import opened Payloads
  import opened CodeGraph
  import opened ReferenceDecoder
  import opened PeelingClosure
  import opened RunSoundness
  import opened TwoSourceCodes
  import MettleCode

  /** The second edge of source 0 has 1198 successes and falls on bin 2, the TLE bin of source 1. */
  function TheCode(): MettleCode.Code {
    TwoSources(Counts(1198, 0, 2), Counts(0, 2, 3))
  }

  const FIRST := [0, 2, 1199, 1198]
  const SECOND := [2, 601, 600, 599]

  ghost predicate TwoSourceShape(g: Graph) {
    Shape(g, FIRST, SECOND)
  }

  lemma TheEdges()
    ensures MettleCode.Edges(TheCode(), 0) == FIRST && MettleCode.Edges(TheCode(), 1) == SECOND
  {
    EdgesAre(Counts(1198, 0, 2), Counts(0, 2, 3), 0, Counts(1198, 0, 2));
    EdgesAre(Counts(1198, 0, 2), Counts(0, 2, 3), 1, Counts(0, 2, 3));
  }

  lemma Bin601(g: Graph)
    requires TwoSourceShape(g)
    ensures Touchers(g, 601) == {1} && Simple(g, 601)
  {
    WhoTouches(g, FIRST, SECOND, 601);
    assert Mult(g.edges(1), 601) == 1;
  }

  lemma Bin2(g: Graph)
    requires TwoSourceShape(g)
    ensures Touchers(g, 2) == {0, 1} && Simple(g, 2)
  {
    WhoTouches(g, FIRST, SECOND, 2);
    assert Mult(g.edges(0), 2) == 1 && Mult(g.edges(1), 2) == 1;
  }

  lemma SharedBins(g: Graph)
    requires TwoSourceShape(g)
    ensures Touchers(g, 601) == {1} && Touchers(g, 2) == {0, 1}
    ensures Simple(g, 601) && Simple(g, 2)
    ensures TleSource(g, 601).None? && TleSource(g, 600).None? && TleSource(g, 599).None?
  {
    Bin601(g);
    Bin2(g);
    NoTle(g, FIRST, SECOND, 601);
    NoTle(g, FIRST, SECOND, 600);
    NoTle(g, FIRST, SECOND, 599);
  }

  lemma PayloadOf601(g: Graph, x: bv8, y: bv8)
    requires TwoSourceShape(g)
    ensures Sized([[x], [y]], 1) && BinPayload(g, [[x], [y]], 601) == [y]
  {
    Bin601(g);
    AllOdd(g, 601);
    TouchersComplete(g, 1, 601);
    SumSingle([[x], [y]], 1, {1}, 1, g.latest(601) + 1);
  }

  lemma SumOfBoth(x: bv8, y: bv8)
    ensures Sized([[x], [y]], 1) && XorSum([[x], [y]], 1, {0, 1}, 2) == [x ^ y]
  {
    var sources := [[x], [y]];
    SumSingle(sources, 1, {0}, 0, 1);
    SumSame(sources, 1, {0}, {0, 1}, 1);
    assert XorSum(sources, 1, {0, 1}, 2) == Xor([x], [y]);
    assert Xor([x], [y]) == [x ^ y];
  }

  lemma TheirPayloads(g: Graph, x: bv8, y: bv8)
    requires TwoSourceShape(g)
    ensures Sized([[x], [y]], 1)
    ensures BinPayload(g, [[x], [y]], 601) == [y]
    ensures BinPayload(g, [[x], [y]], 2) == [x ^ y]
  {
    PayloadOf601(g, x, y);
    Bin2(g);
    AllOdd(g, 2);
    SumOfBoth(x, y);
  }

  lemma FirstBuffered(g: Graph, y: bv8)
    requires TwoSourceShape(g)
    ensures Buffer(g, INITIAL.(accepted := {601}), 601, [y])
            == State([], map[], map[], {601}, map[601 := Buffered([y], 1)])
    ensures Undecoded(g, INITIAL.(accepted := {601}), 601) == {1}
  {
    SharedBins(g);
    BufferFirst(g, {601}, map[], 601, [y], {1});
  }

  lemma FirstDrain(g: Graph, y: bv8)
    requires TwoSourceShape(g)
    ensures Drain(g, State([], map[], map[], {601}, map[601 := Buffered([y], 1)]))
            == Outcome(State([], map[1 := [y]], map[], {601}, map[]), [])
  {
    var st := State([], map[], map[], {601}, map[601 := Buffered([y], 1)]);
    SharedBins(g);
    assert Decoded(st) == {};
    assert Undecoded(g, st, 601) == {1};
    assert IsFutureBin(g, st, 601);
    assert FutureBins(g, st) == {601};
    assert FutureBin(g, st) == Some(601);
    assert OnlyUndecoded(g, st, 601) in {1};
    NotForZero(g, st.received);
    DecodeSourceOne(g, WithoutBin(st, 601), [y]);
    DrainEmpty(g, State([], map[1 := [y]], map[], {601}, map[]));
  }

  lemma NotForZero(g: Graph, received: map<nat, Buffered>)
    requires TwoSourceShape(g) && received.Keys == {601}
    ensures FirstUnique(received, g.edges(0)).None?
  {
  }

  /** Bin 601 alone decodes source 1, ahead of the prefix. */
  lemma FirstDelivery(g: Graph, y: bv8)
    requires TwoSourceShape(g)
    ensures PushBin(g, INITIAL, 601, [y]) == Outcome(State([], map[1 := [y]], map[], {601}, map[]), [])
  {
    assert INITIAL.accepted + {601} == {601};
    FirstBuffered(g, y);
    FirstDrain(g, y);
    PushBuffers(g, INITIAL, 601, [y], State([], map[], map[], {601}, map[601 := Buffered([y], 1)]));
  }

  lemma DecodeSourceOne(g: Graph, st: State, p: Payload)
    requires TwoSourceShape(g) && st == State([], map[], map[], {601}, map[])
    ensures DecodeAndRelease(g, st, 1, p) == Outcome(st.(future := map[1 := p]), [])
  {
    SharedBins(g);
    assert TleSource(g, 2) == Some(1);
    assert ApplyEdge(g, st, 1, p, 2) == st && ApplyEdge(g, st, 1, p, 601) == st;
    assert ApplyEdge(g, st, 1, p, 600) == st && ApplyEdge(g, st, 1, p, 599) == st;
    assert ApplyEdges(g, st, 1, p, [599]) == st;
    assert ApplyEdges(g, st, 1, p, [600, 599]) == st;
    assert ApplyEdges(g, st, 1, p, [601, 600, 599]) == st;
    assert ApplyEdges(g, st, 1, p, [2, 601, 600, 599]) == st;
  }

  /** Buffering bin 2 after source 1 was decoded ahead. */
  lemma SecondBuffered(g: Graph, y: bv8, q: Payload)
    requires TwoSourceShape(g)
    ensures Buffer(g, State([], map[1 := [y]], map[], {601, 2}, map[]), 2, q)
            == State([], map[1 := [y]], map[], {601, 2}, map[2 := Buffered(q, 1)])
    ensures Undecoded(g, State([], map[1 := [y]], map[], {601, 2}, map[]), 2) == {0}
  {
    var st := State([], map[1 := [y]], map[], {601, 2}, map[]);
    Bin2(g);
    SecondTle(g, FIRST, SECOND);
    assert Decoded(st) == {1};
    assert Undecoded(g, st, 2) == {0};
  }

  lemma SecondDrain(g: Graph, y: bv8, q: Payload)
    requires TwoSourceShape(g)
    ensures var r := Drain(g, State([], map[1 := [y]], map[], {601, 2}, map[2 := Buffered(q, 1)]));
            |r.out| > 0 && r.out[0] == Released(0, q)
  {
    var st := State([], map[1 := [y]], map[], {601, 2}, map[2 := Buffered(q, 1)]);
    assert FirstUnique(st.received, [2, 1199, 1198]) == Some(2);
    assert FirstUnique(st.received, g.edges(0)) == Some(2);
    assert DecodeAndRelease(g, WithoutBin(st, 2), 0, q).out[0] == Released(0, q);
  }

  /** Bin 2, the TLE bin of source 1, then passes for source 0. */
  lemma SecondDelivery(g: Graph, y: bv8, q: Payload)
    requires TwoSourceShape(g) && |q| == 1
    ensures var r := PushBin(g, State([], map[1 := [y]], map[], {601}, map[]), 2, q);
            |r.out| > 0 && r.out[0] == Released(0, q)
  {
    assert {601} + {2} == {601, 2};
    SecondBuffered(g, y, q);
    SecondDrain(g, y, q);
    PushBuffers(g, State([], map[1 := [y]], map[], {601}, map[]), 2, q,
                State([], map[1 := [y]], map[], {601, 2}, map[2 := Buffered(q, 1)]));
  }

  /** The run releases the exclusive-or of both sources as source 0. */
  lemma WrongRelease(g: Graph, x: bv8, y: bv8)
    requires TwoSourceShape(g)
    ensures var ds := [Delivery(601, [y]), Delivery(2, [x ^ y])];
            |Run(g, ds).out| > 0 && Run(g, ds).out[0] == Released(0, [x ^ y])
  {
    FirstDelivery(g, y);
    SecondDelivery(g, y, [x ^ y]);
    RunTwo(g, Delivery(601, [y]), Delivery(2, [x ^ y]));
  }

  lemma GenuineRun(g: Graph, x: bv8, y: bv8)
    requires TwoSourceShape(g)
    ensures var ds, sources := [Delivery(601, [y]), Delivery(2, [x ^ y])], [[x], [y]];
            Sized(sources, 1) && AllSimple(g, Delivered(g, ds)) && Genuine(g, sources, ds)
  {
    SharedBins(g);
    TheirPayloads(g, x, y);
    var ds := [Delivery(601, [y]), Delivery(2, [x ^ y])];
    forall b | b in Delivered(g, ds) ensures Simple(g, b) {
      assert b == 601 || b == 2;
    }
  }

  lemma LateRun(g: Graph, x: bv8, y: bv8)
    requires TwoSourceShape(g)
    requires y != 0
    ensures !Harmless(g, [[x], [y]], [Delivery(601, [y]), Delivery(2, [x ^ y])])
  {
    var ds := [Delivery(601, [y]), Delivery(2, [x ^ y])];
    FirstDelivery(g, y);
    RunOne(g, ds[0]);
    assert ds[..1] == [ds[0]];
    LateSecond(g, x, y, ds, State([], map[1 := [y]], map[], {601}, map[]));
  }

  /** A terminated METTLE code, two sources, and two genuine, simple bins in the wrong order: the
      decoder releases the exclusive-or of both sources as source 0. */
  lemma LateTleCorrupts(x: bv8, y: bv8)
    requires y != 0
    ensures var g, sources := MettleCode.GraphOf(TheCode()), [[x], [y]];
            var ds := [Delivery(601, [y]), Delivery(2, [x ^ y])];
            && Legal(g) && g.symbolBytes == 1 && Sized(sources, g.symbolBytes)
            && AllSimple(g, Delivered(g, ds)) && Genuine(g, sources, ds) && !Harmless(g, sources, ds)
            && |Run(g, ds).out| > 0 && Run(g, ds).out[0] == Released(0, [x ^ y]) && x ^ y != x
  {
    TheEdges();
    ShapeHolds(Counts(1198, 0, 2), Counts(0, 2, 3), FIRST, SECOND);
    var g := MettleCode.GraphOf(TheCode());
    GenuineRun(g, x, y);
    LateRun(g, x, y);
    WrongRelease(g, x, y);
    XorDiffers(x, y);
  }

  lemma SecondIsHarmful(g: Graph, x: bv8, y: bv8, st: State, d: Delivery)
    requires TwoSourceShape(g) && y != 0 && d.bin == 2 && |d.payload| == 1
    requires st.future.Keys == {1} && st.accepted == {601} && st.history == []
    ensures Sized([[x], [y]], 1) && Harmful(g, [[x], [y]], st, d)
  {
    assert TleSource(g, 2) == Some(1);
    Bin2(g);
    assert 0 in Undecoded(g, st, 2);
    assert SourceAt([[x], [y]], 1, 1) == [y] && [y][0] != Zero(1)[0];
  }

  lemma LateSecond(g: Graph, x: bv8, y: bv8, ds: seq<Delivery>, st: State)
    requires TwoSourceShape(g) && y != 0 && |ds| == 2 && Run(g, ds[..1]).state == st
    requires st.future.Keys == {1} && st.accepted == {601} && st.history == []
    requires ds[1].bin == 2 && |ds[1].payload| == 1
    ensures !Harmless(g, [[x], [y]], ds)
  {
    SecondIsHarmful(g, x, y, st, ds[1]);
  }
}
