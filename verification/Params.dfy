/** The arithmetic of the METTLE code (mettle/src/params.rs): the leftmost ("TLE") bin of a
    source, its inverse, the coupling window, the compressed tail and the edge positions.

    Source ids and bin ids are unbounded naturals here.  The machine widths of the source
    matter in one place only, the checked arithmetic of `LatestSourceId`. */
module Params {
  import opened Wrappers
  import CodeGraph

  const COUPLING_WINDOW: nat := CodeGraph.COUPLING_WINDOW
  const EDGE_COUNT: nat := 4
  const U32_LIMIT: nat := 0x1_0000_0000
  const U64_LIMIT: nat := CodeGraph.U64_LIMIT
  const U128_LIMIT: nat := 0x1_0000_0000_0000_0000_0000_0000_0000_0000

  /** A positive overhead ratio c = numerator / denominator. */
  datatype OverheadRaw = Overhead(numerator: nat, denominator: nat) {
    predicate Valid() {
      0 < numerator < U32_LIMIT && 0 < denominator < U32_LIMIT
    }
  }

  type Overhead = o: OverheadRaw | o.Valid() witness Overhead(1, 20)

  function Min(a: nat, b: nat): nat { if a <= b then a else b }

  function Max(a: nat, b: nat): nat { if a <= b then b else a }

  function SaturatingSub(a: nat, b: nat): nat { if a < b then 0 else a - b }

  function ExpansionNumerator(c: Overhead): nat { c.numerator + c.denominator }

  /** The TLE bin of a source: floor(s * (1 + c)). */
  function TleBin(c: Overhead, s: nat): nat {
    s * ExpansionNumerator(c) / c.denominator
  }

  /** The last source whose TLE bin is not to the right of `b`, before any width check. */
  function LatestSource(c: Overhead, b: nat): nat {
    MulMonotone(1, b + 1, c.denominator);
    ((b + 1) * c.denominator - 1) / ExpansionNumerator(c)
  }

  /** `LatestSource` as the source computes it: `None` on a 128-bit overflow or when the
      result does not fit 64 bits. */
  function LatestSourceId(c: Overhead, b: nat): Option<nat> {
    if b + 1 >= U128_LIMIT || (b + 1) * c.denominator >= U128_LIMIT then None
    else if LatestSource(c, b) >= U64_LIMIT then None
    else Some(LatestSource(c, b))
  }

  function DivCeil(a: nat, b: nat): nat
    requires b > 0
  {
    if a % b == 0 then a / b else a / b + 1
  }

  function WindowEnd(c: Overhead, s: nat): nat {
    DivCeil((s + COUPLING_WINDOW) * ExpansionNumerator(c), c.denominator)
  }

  function TailStart(n: nat): nat { n - Min(n, COUPLING_WINDOW) }

  /** The factor (numerator, denominator) by which the window of a tail source is divided.
      No source exists when the terminal count is 0, so that case is never asked for. */
  function TailFactor(s: nat, terminal: Option<nat>): (f: Option<(nat, nat)>)
    ensures f.Some? ==> 0 < f.value.1 <= f.value.0
    ensures f.Some? && CodeGraph.InStream(s, terminal) ==> f.value.0 <= 2 * f.value.1
  {
    match terminal
    case None => None
    case Some(n) =>
      var tail := Min(n, COUPLING_WINDOW);
      if n == 0 || s < n - tail then None
      else if tail == 1 then Some((2, 1))
      else Some((tail - 1 + (s - (n - tail)), tail - 1))
  }

  /** Divides a width (or a number of trials) by the tail factor, rounding up. */
  function Compress(w: nat, s: nat, terminal: Option<nat>): nat
  {
    match TailFactor(s, terminal)
    case None => w
    case Some((fn, fd)) => DivCeil(w * fd, fn)
  }

  function WindowWidth(c: Overhead, s: nat): (w: nat)
  {
    WindowEndAfterTle(c, s);
    WindowEnd(c, s) - TleBin(c, s)
  }

  /** The exclusive right end of the (possibly compressed) window of a source. */
  function WindowEndT(c: Overhead, s: nat, terminal: Option<nat>): nat
  {
    TleBin(c, s) + Compress(WindowWidth(c, s), s, terminal)
  }

  function NominalTrials(c: Overhead): nat {
    COUPLING_WINDOW * ExpansionNumerator(c) / c.denominator
  }

  function Trials(c: Overhead, s: nat, terminal: Option<nat>): nat
  {
    Compress(NominalTrials(c), s, terminal)
  }

  /** The bin of a non-TLE edge whose binomial sample is `eta`. */
  function EdgeForEta(c: Overhead, s: nat, eta: nat, terminal: Option<nat>): nat
  {
    WindowEndTAfterTle(c, s, terminal);
    Min(SaturatingSub(TleBin(c, s) + Trials(c, s, terminal), eta), WindowEndT(c, s, terminal) - 1)
  }

  predicate WindowContains(c: Overhead, s: nat, b: nat, terminal: Option<nat>)
  {
    TleBin(c, s) <= b < WindowEndT(c, s, terminal)
  }

  // ---------- division ----------

  lemma DivBounds(x: nat, d: nat)
    requires d > 0
    ensures x / d * d <= x < (x / d + 1) * d
  {
    assert x == x / d * d + x % d;
  }

  /** q <= x / d exactly when q * d <= x. */
  lemma DivAtLeast(x: nat, d: nat, q: nat)
    requires d > 0
    ensures q <= x / d <==> q * d <= x
  {
    DivBounds(x, d);
    if q <= x / d {
      assert q * d <= x / d * d;
    } else {
      assert (x / d + 1) * d <= q * d;
    }
  }

  lemma DivCeilBounds(a: nat, b: nat)
    requires b > 0
    ensures a <= DivCeil(a, b) * b < a + b
  {
    assert a == a / b * b + a % b;
    assert (a / b + 1) * b == a / b * b + b;
  }

  lemma MulMonotone(a: nat, b: nat, k: nat)
    requires a <= b
    ensures a * k <= b * k
  {
  }

  // ---------- the TLE map and its inverse ----------

  /** Consecutive TLE bins are at least one apart, because c > 0. */
  lemma TleGrows(c: Overhead, s: nat, t: nat)
    requires s <= t
    ensures TleBin(c, s) + (t - s) <= TleBin(c, t)
  {
    var e, d := ExpansionNumerator(c), c.denominator;
    DivBounds(s * e, d);
    var q := TleBin(c, s);
    assert (q + (t - s)) * d <= t * e by {
      assert t * e == s * e + (t - s) * e;
      assert (q + (t - s)) * d == q * d + (t - s) * d;
      assert (t - s) * d <= (t - s) * e;
    }
    DivAtLeast(t * e, d, q + (t - s));
  }

  /** `TleBin` and `LatestSource` form a Galois connection. */
  lemma TleInverse(c: Overhead, s: nat, b: nat)
    ensures TleBin(c, s) <= b <==> s <= LatestSource(c, b)
  {
    var e, d := ExpansionNumerator(c), c.denominator;
    DivAtLeast(s * e, d, b + 1);
    DivAtLeast((b + 1) * d - 1, e, s);
  }

  lemma LatestOfTle(c: Overhead, s: nat)
    ensures LatestSource(c, TleBin(c, s)) == s
  {
    TleInverse(c, s, TleBin(c, s));
    TleInverse(c, s + 1, TleBin(c, s));
    TleGrows(c, s, s + 1);
  }

  /** Every 64-bit source id survives the checked arithmetic on its own TLE bin. */
  lemma LatestIdOfTle(c: Overhead, s: nat)
    requires s < U64_LIMIT
    ensures LatestSourceId(c, TleBin(c, s)) == Some(s)
  {
    LatestOfTle(c, s);
    var e, d, b := ExpansionNumerator(c), c.denominator, TleBin(c, s);
    DivBounds(s * e, d);
    MulMonotone(s, U64_LIMIT, e);
    MulMonotone(1, d, b + 1);
    assert (b + 1) * d == b * d + d;
    assert U64_LIMIT * e + d < U128_LIMIT;
  }

  /** The bins on which it succeeds: all those left of the TLE bin of the first id that does not fit
      64 bits. */
  lemma LatestIdExact(c: Overhead, b: nat)
    ensures LatestSourceId(c, b) == if b < TleBin(c, U64_LIMIT) then Some(LatestSource(c, b)) else None
  {
    TleInverse(c, U64_LIMIT, b);
    if LatestSource(c, b) < U64_LIMIT {
      ScaledFits(c, b);
    }
  }

  lemma ScaledFits(c: Overhead, b: nat)
    requires LatestSource(c, b) < U64_LIMIT
    ensures (b + 1) * c.denominator < U128_LIMIT && b + 1 < U128_LIMIT
  {
    var e, d := ExpansionNumerator(c), c.denominator;
    MulMonotone(1, b + 1, d);
    DivBounds((b + 1) * d - 1, e);
    MulMonotone(LatestSource(c, b) + 1, U64_LIMIT, e);
    assert U64_LIMIT * e < U128_LIMIT;
    assert (b + 1) * d <= U64_LIMIT * e;
    MulMonotone(1, d, b + 1);
  }

  // ---------- windows ----------

  lemma WindowEndAfterTle(c: Overhead, s: nat)
    ensures TleBin(c, s) + COUPLING_WINDOW <= WindowEnd(c, s)
  {
    TleGrows(c, s, s + COUPLING_WINDOW);
  }

  /** 601 sources later the TLE bin has passed the whole window. */
  lemma WindowPassed(c: Overhead, s: nat)
    ensures WindowEnd(c, s) <= TleBin(c, s + COUPLING_WINDOW + 1)
  {
    TleGrows(c, s + COUPLING_WINDOW, s + COUPLING_WINDOW + 1);
  }

  lemma DivCeilShrinks(w: nat, fd: nat, fn: nat)
    requires 0 < fd <= fn
    ensures DivCeil(w * fd, fn) <= w
    ensures w > 0 ==> DivCeil(w * fd, fn) > 0
  {
    var q := DivCeil(w * fd, fn);
    DivCeilBounds(w * fd, fn);
    MulMonotone(fd, fn, w);
    if q > w {
      MulMonotone(w + 1, q, fn);
    }
    if w > 0 {
      MulMonotone(1, w, fd);
    }
  }

  lemma CompressBounds(w: nat, s: nat, terminal: Option<nat>)
    ensures Compress(w, s, terminal) <= w
    ensures w > 0 ==> Compress(w, s, terminal) > 0
  {
    match TailFactor(s, terminal)
    case None =>
    case Some((fn, fd)) =>
      DivCeilShrinks(w, fd, fn);
  }

  lemma WindowEndTAfterTle(c: Overhead, s: nat, terminal: Option<nat>)
    ensures TleBin(c, s) < WindowEndT(c, s, terminal) <= WindowEnd(c, s)
  {
    WindowEndAfterTle(c, s);
    CompressBounds(WindowWidth(c, s), s, terminal);
  }

  /** Even a fully compressed window reaches past the TLE bin of the next source. */
  lemma WindowReachesNext(c: Overhead, s: nat, terminal: Option<nat>)
    requires CodeGraph.InStream(s, terminal)
    ensures TleBin(c, s + 1) <= WindowEndT(c, s, terminal)
  {
    var k, w := TleBin(c, s + 1) - TleBin(c, s), WindowWidth(c, s);
    TleGrows(c, s, s + 1);
    WidthAtLeastTwice(c, s);
    match TailFactor(s, terminal)
    case None =>
    case Some((fn, fd)) => DivCeilHalf(w, fd, fn);
  }

  /** A window is at least twice as wide as the step between two TLE bins. */
  lemma WidthAtLeastTwice(c: Overhead, s: nat)
    ensures 2 * (TleBin(c, s + 1) - TleBin(c, s)) <= WindowWidth(c, s)
  {
    var e, d := ExpansionNumerator(c), c.denominator;
    TleGrows(c, s, s + 1);
    DivBounds(s * e, d);
    DivBounds((s + 1) * e, d);
    DivCeilBounds((s + COUPLING_WINDOW) * e, d);
    Distribute(s, 1, e);
    Distribute(s, COUPLING_WINDOW, e);
    WidthArithmetic(s * e, e, d, TleBin(c, s), TleBin(c, s + 1), WindowEnd(c, s));
  }

  lemma Distribute(a: nat, b: nat, k: nat)
    ensures (a + b) * k == a * k + b * k
  {
  }

  lemma WidthArithmetic(x: nat, e: nat, d: nat, t0: nat, t1: nat, end: nat)
    requires 0 < d < e && t0 <= t1
    requires t0 * d <= x < (t0 + 1) * d && t1 * d <= x + e && x + 600 * e <= end * d
    ensures 2 * (t1 - t0) <= end - t0
  {
    Distribute(end, t0, d);
    Distribute(end + t0, 1, d);
    Distribute(t0, 1, d);
    Distribute(t1, t1, d);
    if end - t0 < 2 * (t1 - t0) {
      MulMonotone(end + t0 + 1, t1 + t1, d);
    }
  }

  lemma DivCeilHalf(w: nat, fd: nat, fn: nat)
    requires 0 < fd && fn <= 2 * fd && fn > 0
    ensures w <= 2 * DivCeil(w * fd, fn)
  {
    var q := DivCeil(w * fd, fn);
    DivCeilBounds(w * fd, fn);
    MulMonotone(fn, 2 * fd, q);
    assert q * fn <= q * (2 * fd);
    if w > 2 * q {
      MulMonotone(2 * q + 1, w, fd);
    }
  }

  /** A window that contains `b` belongs to one of the 601 sources ending at `LatestSource(b)`. */
  lemma WindowSources(c: Overhead, s: nat, b: nat, terminal: Option<nat>)
    requires WindowContains(c, s, b, terminal)
    ensures s <= LatestSource(c, b) <= s + COUPLING_WINDOW
  {
    TleInverse(c, s, b);
    WindowEndTAfterTle(c, s, terminal);
    WindowPassed(c, s);
    TleInverse(c, s + COUPLING_WINDOW + 1, b);
  }

  /** Whatever the sample, an edge stays inside the compressed window. */
  lemma EdgeInWindow(c: Overhead, s: nat, eta: nat, terminal: Option<nat>)
    requires eta <= Trials(c, s, terminal)
    ensures WindowContains(c, s, EdgeForEta(c, s, eta, terminal), terminal)
  {
    WindowEndTAfterTle(c, s, terminal);
  }
}
