/** What an encoder owes its receivers: the bins of a stream, in order, each with the
    exclusive-or of every source that touches it over the whole stream. */
module EncodedBins {
  import opened Payloads
  import opened CodeGraph

  datatype Bin = Bin(id: nat, payload: Payload)

  /** Bins `from`, ..., `to` - 1 of the stream with the given padded sources. */
  ghost function Encoded(g: Graph, sources: seq<Payload>, from: nat, to: nat): (bins: seq<Bin>)
    requires Sized(sources, g.symbolBytes) && from <= to
    ensures |bins| == to - from
    ensures forall i :: 0 <= i < |bins| ==> bins[i] == Bin(from + i, BinPayload(g, sources, from + i))
  {
    seq(to - from, i requires 0 <= i < to - from => Bin(from + i, BinPayload(g, sources, from + i)))
  }

  lemma EncodedSplit(g: Graph, sources: seq<Payload>, a: nat, b: nat, c: nat)
    requires Sized(sources, g.symbolBytes) && a <= b <= c
    ensures Encoded(g, sources, a, b) + Encoded(g, sources, b, c) == Encoded(g, sources, a, c)
  {
  }

  /** `p` has `n` bytes: those of `source`, and zeros from there on. */
  predicate IsPadded(p: Payload, source: Payload, n: nat) {
    |p| == n && forall i :: 0 <= i < n ==> p[i] == if i < |source| then source[i] else 0
  }

  /** `source` padded with zeros to the symbol size. */
  function Pad(source: Payload, n: nat): (p: Payload)
    requires |source| <= n
    ensures IsPadded(p, source, n)
  {
    source + Zero(n - |source|)
  }

  /** The content of an open bin after the first `k` sources. */
  ghost function Partial(g: Graph, sources: seq<Payload>, b: nat, k: nat): (p: Payload)
    requires Sized(sources, g.symbolBytes)
    ensures |p| == g.symbolBytes
  {
    XorSum(sources, g.symbolBytes, OddTouchers(g, b), k)
  }

  // ---------- sums over growing streams ----------

  /** Only the first `k` sources matter to a sum below `k`. */
  lemma {:induction false} SumOfPrefix(sources: seq<Payload>, all: seq<Payload>, n: nat, who: set<nat>, k: nat)
    requires Sized(sources, n) && Sized(all, n)
    requires k <= |sources| && sources <= all
    ensures XorSum(sources, n, who, k) == XorSum(all, n, who, k)
  {
    if k > 0 {
      SumOfPrefix(sources, all, n, who, k - 1);
    }
  }

  /** Sources that were never pushed add nothing. */
  lemma {:induction false} SumBeyond(sources: seq<Payload>, n: nat, who: set<nat>, k: nat)
    requires Sized(sources, n) && k >= |sources|
    ensures XorSum(sources, n, who, k) == XorSum(sources, n, who, |sources|)
  {
    if k > |sources| {
      SumBeyond(sources, n, who, k - 1);
      XorZero(XorSum(sources, n, who, k - 1));
    }
  }

  /** Once the departure frontier has passed a bin, its content is final: it is the bin of every
      stream that starts with the sources pushed so far. */
  lemma FinalBin(g: Graph, sources: seq<Payload>, all: seq<Payload>, b: nat)
    requires Legal(g) && Sized(sources, g.symbolBytes) && Sized(all, g.symbolBytes)
    requires sources <= all && b < g.tle(|sources|)
    ensures Partial(g, sources, b, |sources|) == BinPayload(g, all, b)
  {
    var who, k := OddTouchers(g, b), |sources|;
    TouchersBelow(g, b, k);
    SumOfPrefix(sources, all, g.symbolBytes, who, k);
    SumExtend(all, g.symbolBytes, who, g.latest(b) + 1, k);
  }

  /** A bin right of the frontier already holds the bin of the stream that ends here. */
  lemma OpenBin(g: Graph, sources: seq<Payload>, b: nat)
    requires Legal(g) && Sized(sources, g.symbolBytes) && b >= g.tle(|sources|)
    ensures Partial(g, sources, b, |sources|) == BinPayload(g, sources, b)
  {
    assert |sources| <= g.latest(b);
    SumBeyond(sources, g.symbolBytes, OddTouchers(g, b), g.latest(b) + 1);
  }

  /** Pushing one more source. */
  lemma PartialGrows(g: Graph, sources: seq<Payload>, p: Payload, b: nat)
    requires Legal(g) && Sized(sources, g.symbolBytes) && |p| == g.symbolBytes
    requires InStream(|sources|, g.terminal)
    ensures Sized(sources + [p], g.symbolBytes)
    ensures Partial(g, sources + [p], b, |sources| + 1)
            == if Mult(g.edges(|sources|), b) % 2 == 1 then Xor(Partial(g, sources, b, |sources|), p)
               else Partial(g, sources, b, |sources|)
  {
    SumOfPrefix(sources, sources + [p], g.symbolBytes, OddTouchers(g, b), |sources|);
    TouchersComplete(g, |sources|, b);
  }
}
