/** The abstract shape of the METTLE code: a bipartite graph of sources and bins.  The encoder
    and the decoder are described over this shape, so that their proofs see the few facts of
    `Legal` and not the arithmetic behind them; `MettleCode.dfy` supplies the graph. */
module CodeGraph {
  import opened Wrappers
  import opened Payloads

  /** `tle` is the leftmost bin of a source, `latest` its inverse from bins back to sources,
      `representable` says that the checked arithmetic on a bin succeeds. */
  datatype Graph = Graph(
    tle: nat -> nat,
    edges: nat -> seq<nat>,
    latest: nat -> nat,
    representable: nat -> bool,
    terminal: Option<nat>,
    symbolBytes: nat)

  /** How many sources back the coupling window reaches. */
  const COUPLING_WINDOW: nat := 600

  const U64_LIMIT: nat := 0x1_0000_0000_0000_0000

  predicate InStream(s: nat, terminal: Option<nat>) {
    terminal.None? || s < terminal.value
  }

  /** TLE bins move right, `latest` inverts them, and it is defined on the TLE bins of all
      64-bit sources. */
  ghost predicate LegalTle(g: Graph) {
    && (forall s: nat, t: nat :: s < t ==> g.tle(s) < g.tle(t))
    && (forall s: nat, b: nat :: g.tle(s) <= b <==> s <= g.latest(b))
    && (forall s: nat :: s < U64_LIMIT ==> g.representable(g.tle(s)))
    && (forall b: nat :: g.representable(b) ==> g.latest(b) < U64_LIMIT)
  }

  ghost predicate EdgeReaches(g: Graph, s: nat, b: nat) {
    g.tle(s) <= b && g.latest(b) <= s + COUPLING_WINDOW
  }

  /** Every edge of a source lies at or right of its TLE bin and at most 600 sources ahead. */
  ghost predicate LegalEdges(g: Graph) {
    && (forall s: nat {:trigger g.edges(s)} :: g.tle(s) in g.edges(s))
    && (forall s: nat, b: nat {:trigger b in g.edges(s)} :: b in g.edges(s) ==> EdgeReaches(g, s, b))
  }

  ghost predicate Legal(g: Graph) {
    LegalTle(g) && LegalEdges(g)
  }

  /** How many of the slots in `edges` name bin `b`. */
  function Mult(edges: seq<nat>, b: nat): (m: nat)
    ensures m > 0 <==> b in edges
  {
    if edges == [] then 0
    else (if edges[0] == b then 1 else 0) + Mult(edges[1..], b)
  }

  /** The sources of the stream that have bin `b` among their edges. */
  ghost function Touchers(g: Graph, b: nat): (t: set<nat>) {
    set s | 0 <= s <= g.latest(b) && InStream(s, g.terminal) && b in g.edges(s)
  }

  /** The sources whose payload survives in bin `b`: they hit it an odd number of times. */
  ghost function OddTouchers(g: Graph, b: nat): (t: set<nat>)
    ensures t <= Touchers(g, b)
  {
    set s | s in Touchers(g, b) && Mult(g.edges(s), b) % 2 == 1
  }

  /** No source hits bin `b` with two of its edges. */
  ghost predicate Simple(g: Graph, b: nat) {
    forall s :: s in Touchers(g, b) ==> Mult(g.edges(s), b) == 1
  }

  /** Every source that hits bin `b` hits it an odd number of times. */
  ghost predicate Odd(g: Graph, b: nat) {
    forall s :: s in Touchers(g, b) ==> Mult(g.edges(s), b) % 2 == 1
  }

  /** The payload the encoder puts into bin `b` over the whole stream. */
  ghost function BinPayload(g: Graph, sources: seq<Payload>, b: nat): (p: Payload)
    requires Sized(sources, g.symbolBytes)
    ensures |p| == g.symbolBytes
  {
    XorSum(sources, g.symbolBytes, OddTouchers(g, b), g.latest(b) + 1)
  }

  /** `tle_source_id_for_bin`: the source of the stream whose TLE bin is `b`. */
  function TleSource(g: Graph, b: nat): (s: Option<nat>) {
    if g.representable(b) && InStream(g.latest(b), g.terminal) && g.tle(g.latest(b)) == b
    then Some(g.latest(b)) else None
  }

  // ---------- consequences ----------

  lemma MultHead(edges: seq<nat>, b: nat)
    requires edges != []
    ensures Mult(edges, b) % 2 == 1 <==> (edges[0] == b) != (Mult(edges[1..], b) % 2 == 1)
  {
  }

  /** `Touchers` is complete: a source of the stream with an edge to `b` is in it. */
  lemma TouchersComplete(g: Graph, s: nat, b: nat)
    requires Legal(g)
    ensures s in Touchers(g, b) <==> InStream(s, g.terminal) && b in g.edges(s)
    ensures s in Touchers(g, b) ==> g.tle(s) <= b && s <= g.latest(b) <= s + COUPLING_WINDOW
  {
    if b in g.edges(s) {
      assert g.tle(s) <= b;
    }
  }

  /** A bin left of the TLE bin of `k` is touched by sources below `k` only. */
  lemma TouchersBelow(g: Graph, b: nat, k: nat)
    requires Legal(g) && b < g.tle(k)
    ensures g.latest(b) < k
    ensures forall s :: s in Touchers(g, b) ==> s < k
  {
  }

  lemma LatestOfTle(g: Graph, t: nat)
    requires Legal(g)
    ensures g.latest(g.tle(t)) == t
  {
    assert g.tle(t) < g.tle(t + 1);
    assert !(t + 1 <= g.latest(g.tle(t)));
  }

  /** A TLE bin is touched by its own source and by earlier ones only. */
  lemma TouchersOfTle(g: Graph, t: nat)
    requires Legal(g)
    ensures forall s :: s in Touchers(g, g.tle(t)) ==> s <= t
    ensures InStream(t, g.terminal) ==> t in Touchers(g, g.tle(t))
  {
    LatestOfTle(g, t);
  }

  lemma TleSourceOf(g: Graph, t: nat)
    requires Legal(g) && t < U64_LIMIT && InStream(t, g.terminal)
    ensures TleSource(g, g.tle(t)) == Some(t)
  {
    LatestOfTle(g, t);
  }

  lemma AllOdd(g: Graph, b: nat)
    requires Odd(g, b)
    ensures OddTouchers(g, b) == Touchers(g, b)
  {
  }
}
