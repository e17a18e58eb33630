/** METTLE codes of ratio 1 with two sources of one byte, in which a given number of draws of each
    edge succeeds.  Draws are arbitrary functions here; no seed is claimed to produce them. */
module TwoSourceCodes {
  import opened Wrappers
  import opened Payloads
  import opened CodeGraph
  import opened ReferenceDecoder
  import Params
  import MettleCode

  /** Successful trials of the three drawn edges of a source. */
  datatype Counts = Counts(second: nat, third: nat, fourth: nat)

  function CountAt(c: Counts, k: nat): nat {
    if k == 0 then c.second else if k == 1 then c.third else c.fourth
  }

  /** The first draws of every edge succeed, the others fail. */
  function TwoSources(c0: Counts, c1: Counts): MettleCode.Code {
    MettleCode.Code(Params.Overhead(1, 1),
                    (s: nat, index: nat, j: nat) =>
                      if index >= 2 && j < CountAt(if s == 0 then c0 else c1, index - 2) then 0 else 1,
                    Some(2), 1)
  }

  lemma {:induction false} CountDraws(draw: nat -> nat, denominator: nat, trials: nat, wanted: nat)
    requires denominator > 1
    requires forall k: nat :: draw(k) == if k < wanted then 0 else 1
    ensures MettleCode.Successes(draw, denominator, trials) == Params.Min(wanted, trials)
  {
    if trials > 0 {
      CountDraws(draw, denominator, trials - 1, wanted);
    }
  }

  lemma TheWindows()
    ensures Params.Trials(Params.Overhead(1, 1), 0, Some(2)) == 1200
    ensures Params.Trials(Params.Overhead(1, 1), 1, Some(2)) == 600
    ensures Params.WindowEndT(Params.Overhead(1, 1), 0, Some(2)) == 1200
    ensures Params.WindowEndT(Params.Overhead(1, 1), 1, Some(2)) == 602
  {
  }

  /** The bin of an edge with `w` successes. */
  function EdgeBin(s: nat, w: nat): nat {
    if s == 0 then Params.Min(Params.SaturatingSub(1200, w), 1199) else Params.Min(Params.SaturatingSub(602, w), 601)
  }

  lemma EdgeIs(c0: Counts, c1: Counts, s: nat, k: nat, w: nat)
    requires s < 2 && k < 3 && w == CountAt(if s == 0 then c0 else c1, k) <= if s == 0 then 1200 else 600
    ensures MettleCode.NonTleEdge(TwoSources(c0, c1), s, k) == EdgeBin(s, w)
  {
    Sampled(c0, c1, s, k, w);
    EtaBin(s, w);
  }

  /** All wanted trials take place. */
  lemma Sampled(c0: Counts, c1: Counts, s: nat, k: nat, w: nat)
    requires s < 2 && k < 3 && w == CountAt(if s == 0 then c0 else c1, k) <= if s == 0 then 1200 else 600
    ensures MettleCode.NonTleEdge(TwoSources(c0, c1), s, k) == Params.EdgeForEta(Params.Overhead(1, 1), s, w, Some(2))
  {
    var g := TwoSources(c0, c1);
    TheWindows();
    CountDraws((j: nat) => g.draws(s, k + 2, j), MettleCode.PROFILE[k], Params.Trials(g.c, s, g.terminal), w);
  }

  lemma EtaBin(s: nat, w: nat)
    requires s < 2
    ensures Params.EdgeForEta(Params.Overhead(1, 1), s, w, Some(2)) == EdgeBin(s, w)
  {
    TheWindows();
    TheTleBin(s);
  }

  lemma TheTleBin(s: nat)
    ensures Params.TleBin(Params.Overhead(1, 1), s) == 2 * s
  {
  }

  lemma EdgesAre(c0: Counts, c1: Counts, s: nat, c: Counts)
    requires s < 2 && c == (if s == 0 then c0 else c1) && c.second <= 1200 && c.third <= 1200 && c.fourth <= 1200
    requires s == 1 ==> c.second <= 600 && c.third <= 600 && c.fourth <= 600
    ensures MettleCode.Edges(TwoSources(c0, c1), s)
            == [2 * s, EdgeBin(s, c.second), EdgeBin(s, c.third), EdgeBin(s, c.fourth)]
  {
    TheTleBin(s);
    EdgeIs(c0, c1, s, 0, c.second);
    EdgeIs(c0, c1, s, 1, c.third);
    EdgeIs(c0, c1, s, 2, c.fourth);
    MettleCode.FourEdges(TwoSources(c0, c1), s, 2 * s, EdgeBin(s, c.second), EdgeBin(s, c.third), EdgeBin(s, c.fourth));
  }

  /** What the runs below need to know about such a code. */
  ghost predicate Shape(g: Graph, e0: seq<nat>, e1: seq<nat>) {
    && Legal(g) && g.terminal == Some(2) && g.symbolBytes == 1
    && g.edges(0) == e0 && g.edges(1) == e1
    && g.tle(0) == 0 && g.tle(1) == 2 && g.latest(2) == 1
    && g.representable(2) && g.representable(599) && g.representable(601)
  }

  lemma ShapeHolds(c0: Counts, c1: Counts, e0: seq<nat>, e1: seq<nat>)
    requires MettleCode.Edges(TwoSources(c0, c1), 0) == e0 && MettleCode.Edges(TwoSources(c0, c1), 1) == e1
    ensures Shape(MettleCode.GraphOf(TwoSources(c0, c1)), e0, e1)
  {
    MettleCode.GraphLegal(TwoSources(c0, c1));
  }

  lemma WhoTouches(g: Graph, e0: seq<nat>, e1: seq<nat>, b: nat)
    requires Shape(g, e0, e1)
    ensures forall s: nat :: s in Touchers(g, b) <==> (s == 0 && b in e0) || (s == 1 && b in e1)
  {
    forall s: nat ensures s in Touchers(g, b) <==> (s == 0 && b in e0) || (s == 1 && b in e1) {
      TouchersComplete(g, s, b);
    }
  }

  /** Bins right of bin 2 are nobody's TLE bin. */
  lemma NoTle(g: Graph, e0: seq<nat>, e1: seq<nat>, b: nat)
    requires Shape(g, e0, e1) && b > 2
    ensures TleSource(g, b).None?
  {
    assert g.latest(b) < 2 ==> g.tle(g.latest(b)) <= 2;
  }

  lemma SecondTle(g: Graph, e0: seq<nat>, e1: seq<nat>)
    requires Shape(g, e0, e1)
    ensures TleSource(g, 2) == Some(1)
  {
  }

  lemma {:induction false} PeelScanEmpty(g: Graph, st: State, b: nat, n: nat, p: Payload)
    requires Decoded(st) == {}
    ensures PeelScan(g, st, b, n, p) == p
  {
    if n > 0 {
      PeelScanEmpty(g, st, b, n - 1, p);
      assert n - 1 !in Decoded(st);
    }
  }

  /** With nothing decoded yet, a bin that is no TLE bin is buffered as it is. */
  lemma BufferFirst(g: Graph, accepted: set<nat>, received: map<nat, Buffered>, b: nat, p: Payload, touchers: set<nat>)
    requires TleSource(g, b).None? && Touchers(g, b) == touchers
    ensures var st := State([], map[], map[], accepted, received);
            && Buffer(g, st, b, p) == st.(received := received[b := Buffered(p, |touchers|)])
            && Undecoded(g, st, b) == touchers
  {
    var st := State([], map[], map[], accepted, received);
    assert Decoded(st) == {};
    PeelScanEmpty(g, st, b, g.latest(b) + 1, p);
    assert Undecoded(g, st, b) == touchers;
  }

  lemma DrainEmpty(g: Graph, st: State)
    requires st.received == map[]
    ensures Drain(g, st) == Outcome(st, [])
  {
    assert FutureBins(g, st) == {};
  }

  lemma RunOne(g: Graph, d: Delivery)
    ensures Run(g, [d]) == PushBin(g, INITIAL, d.bin, d.payload)
  {
    assert [d][..0] == [];
    assert Run(g, []) == Outcome(INITIAL, []);
  }

  lemma RunTwo(g: Graph, d: Delivery, d': Delivery)
    ensures var first := PushBin(g, INITIAL, d.bin, d.payload);
            var second := PushBin(g, first.state, d'.bin, d'.payload);
            Run(g, [d, d']) == Outcome(second.state, first.out + second.out)
  {
    RunOne(g, d);
    assert [d, d'][..1] == [d];
  }

  /** A new bin right of the frontier with undecoded touchers is buffered, then the buffer is
      drained. */
  lemma PushBuffers(g: Graph, st: State, b: nat, p: Payload, buffered: State)
    requires !Complete(g, st) && Acceptable(g, b, p) && b !in st.accepted && b > Frontier(g, st)
    requires var st1 := st.(accepted := st.accepted + {b});
             Undecoded(g, st1, b) != {} && buffered == Buffer(g, st1, b, p)
    ensures PushBin(g, st, b, p) == Drain(g, buffered)
  {
    AcceptBuffers(g, st.(accepted := st.accepted + {b}), b, p);
  }

  lemma AcceptBuffers(g: Graph, st: State, b: nat, p: Payload)
    requires b > Frontier(g, st) && Undecoded(g, st, b) != {}
    ensures Accept(g, st, b, p) == Drain(g, Buffer(g, st, b, p))
  {
  }

  /** A run of two deliveries from their outcomes. */
  lemma RunOfTwo(g: Graph, d: Delivery, d': Delivery, first: Outcome, second: Outcome)
    requires PushBin(g, INITIAL, d.bin, d.payload) == first
    requires PushBin(g, first.state, d'.bin, d'.payload) == second
    ensures Run(g, [d, d']) == Outcome(second.state, first.out + second.out)
  {
    RunTwo(g, d, d');
  }

  lemma XorDiffers(x: bv8, y: bv8)
    requires y != 0
    ensures x ^ y != x
  {
    XorByte(x, y, 0);
    XorByte(y, x, 0);
  }
}
