/** What the numbers of the METTLE code are (mettle/src/params.rs), each in terms of the overhead
    ratio and the terminal count alone. */
module CodeArithmetic {
  import opened Wrappers
  import opened Params
  import opened MettleCode
  import C = CodeGraph
  import ReferenceDecoder

  /** `q` is a / b, rounded down. */
  predicate IsFloor(q: nat, a: nat, b: nat) {
    q * b <= a < (q + 1) * b
  }

  /** `q` is a / b, rounded up: the least number with q * b >= a. */
  predicate IsCeiling(q: nat, a: nat, b: nat) {
    a <= q * b < a + b
  }

  lemma DivCeilIs(a: nat, b: nat)
    requires b > 0
    ensures IsCeiling(DivCeil(a, b), a, b)
  {
    DivCeilBounds(a, b);
  }

  // ---------- leftmost bins, windows, trials ----------

  /** Every ratio of two positive 32-bit numbers is allowed, reduced or not. */
  lemma RatioExact(n: nat, d: nat)
    ensures OverheadRaw.Overhead(n, d).Valid() <==> 1 <= n <= 0xFFFF_FFFF && 1 <= d <= 0xFFFF_FFFF
  {
  }

  /** The leftmost bin of source `s` is s * (1 + c), rounded down. */
  lemma TleIsFloor(c: Overhead, s: nat)
    ensures IsFloor(TleBin(c, s), s * (c.numerator + c.denominator), c.denominator)
  {
    DivBounds(s * (c.numerator + c.denominator), c.denominator);
  }

  /** The uncompressed window ends at (s + 600) * (1 + c), rounded up. */
  lemma WindowEndIsCeiling(c: Overhead, s: nat)
    ensures IsCeiling(WindowEnd(c, s), (s + 600) * (c.numerator + c.denominator), c.denominator)
  {
    DivCeilIs((s + 600) * (c.numerator + c.denominator), c.denominator);
  }

  /** Without compression an edge takes 600 * (1 + c) trials, rounded down. */
  lemma TrialsAreFloor(c: Overhead, s: nat)
    ensures IsFloor(Trials(c, s, None), 600 * (c.numerator + c.denominator), c.denominator)
  {
    DivBounds(600 * (c.numerator + c.denominator), c.denominator);
  }

  // ---------- the compressed tail ----------

  /** What the last min(n, 600) of `n` sources make of a width or a number of trials `w`: source k
      of the tail divides it by (m - 1 + k) / (m - 1), rounding up; a single one halves it. */
  ghost predicate IsCompressed(w': nat, w: nat, s: nat, n: nat)
    requires s < n
  {
    var m := if n <= 600 then n else 600;
    if s < n - m then w' == w
    else if m == 1 then IsCeiling(w', w, 2)
    else IsCeiling(w', w * (m - 1), m - 1 + (s - (n - m)))
  }

  lemma CompressIs(w: nat, s: nat, n: nat)
    requires s < n
    ensures IsCompressed(Compress(w, s, Some(n)), w, s, n)
  {
    var m := if n <= 600 then n else 600;
    if s >= n - m {
      if m == 1 {
        DivCeilIs(w * 1, 2);
      } else {
        DivCeilIs(w * (m - 1), m - 1 + (s - (n - m)));
      }
    }
  }

  /** The window of every source of a terminated stream, and its number of trials. */
  lemma TerminatedWindow(c: Overhead, s: nat, n: nat)
    requires s < n
    ensures WindowEndT(c, s, Some(n)) > TleBin(c, s) && WindowEnd(c, s) > TleBin(c, s)
    ensures IsCompressed(WindowEndT(c, s, Some(n)) - TleBin(c, s), WindowEnd(c, s) - TleBin(c, s), s, n)
    ensures IsCompressed(Trials(c, s, Some(n)), Trials(c, s, None), s, n)
  {
    WindowEndTAfterTle(c, s, Some(n));
    CompressIs(WindowWidth(c, s), s, n);
    CompressIs(NominalTrials(c), s, n);
  }

  lemma EndlessWindow(c: Overhead, s: nat)
    ensures WindowEndT(c, s, None) == WindowEnd(c, s)
  {
    WindowEndAfterTle(c, s);
  }

  /** The first source of the tail keeps its window, the last one has half of it, rounded up. */
  lemma TailEnds(c: Overhead, n: nat)
    requires n > 1
    ensures var first := if n <= 600 then 0 else n - 600;
            WindowEndT(c, first, Some(n)) == WindowEnd(c, first)
    ensures var w, w' := WindowEnd(c, n - 1) - TleBin(c, n - 1), WindowEndT(c, n - 1, Some(n)) - TleBin(c, n - 1);
            w <= 2 * w' <= w + 1
  {
    var m := if n <= 600 then n else 600;
    var w, w' := WindowEnd(c, n - 1) - TleBin(c, n - 1), WindowEndT(c, n - 1, Some(n)) - TleBin(c, n - 1);
    TerminatedWindow(c, n - m, n);
    SameWhenOne(WindowEnd(c, n - m) - TleBin(c, n - m), WindowEndT(c, n - m, Some(n)) - TleBin(c, n - m), m - 1);
    TerminatedWindow(c, n - 1, n);
    HalfWhenTwo(w, w', m - 1);
  }

  lemma SameWhenOne(w: nat, w': nat, d: nat)
    requires d > 0 && IsCeiling(w', w * d, d)
    ensures w' == w
  {
    Cancel(w, w', d);
    Distribute(w, 1, d);
    CancelStrict(w', w + 1, d);
  }

  lemma Cancel(a: nat, b: nat, d: nat)
    requires a * d <= b * d && d > 0
    ensures a <= b
  {
    if b < a {
      MulMonotone(b + 1, a, d);
    }
  }

  lemma CancelStrict(a: nat, b: nat, d: nat)
    requires a * d < b * d
    ensures a < b
  {
    if b <= a {
      MulMonotone(b, a, d);
    }
  }

  lemma HalfWhenTwo(w: nat, w': nat, d: nat)
    requires d > 0 && IsCeiling(w', w * d, d + d)
    ensures w <= 2 * w' <= w + 1
  {
    Distribute(w', w', d);
    assert w' * (d + d) == (2 * w') * d;
    Cancel(w, 2 * w', d);
    Distribute(w, 2, d);
    CancelStrict(2 * w', w + 2, d);
  }

  // ---------- the edges ----------

  predicate IsMultiple(x: nat, d: nat)
    requires d > 0
  {
    x % d == 0
  }

  /** The trials among the first `n` whose word is a multiple of `d`. */
  ghost function Hits(draw: nat -> nat, d: nat, n: nat): set<nat>
    requires d > 0
  {
    set j | 0 <= j < n && IsMultiple(draw(j), d)
  }

  lemma {:induction false} SuccessesAreHits(draw: nat -> nat, d: nat, n: nat)
    requires d > 0
    ensures Successes(draw, d, n) == |Hits(draw, d, n)|
  {
    if n > 0 {
      SuccessesAreHits(draw, d, n - 1);
      HitsNext(draw, d, n - 1);
    } else {
      assert Hits(draw, d, 0) == {};
    }
  }

  lemma HitsNext(draw: nat -> nat, d: nat, n: nat)
    requires d > 0
    ensures |Hits(draw, d, n + 1)| == |Hits(draw, d, n)| + if IsMultiple(draw(n), d) then 1 else 0
  {
    var added := if IsMultiple(draw(n), d) then {n} else {};
    HitsGrow(draw, d, n, added);
    Disjoint(Hits(draw, d, n), added);
  }

  lemma HitsGrow(draw: nat -> nat, d: nat, n: nat, added: set<nat>)
    requires d > 0 && added == if IsMultiple(draw(n), d) then {n} else {}
    ensures Hits(draw, d, n + 1) == Hits(draw, d, n) + added
    ensures n !in Hits(draw, d, n) && added <= {n}
  {
    forall j: nat ensures j in Hits(draw, d, n + 1) <==> j in Hits(draw, d, n) + added {
    }
  }

  lemma Disjoint(a: set<nat>, b: set<nat>)
    requires a !! b
    ensures |a + b| == |a| + |b|
  {
  }

  /** A success moves an edge one bin to the left, from TleBin + Trials down to the leftmost bin; what
      lies beyond the window counts as its last bin. */
  lemma EdgePosition(c: Overhead, s: nat, eta: nat, terminal: Option<nat>)
    requires eta <= Trials(c, s, terminal)
    ensures var b := TleBin(c, s) + (Trials(c, s, terminal) - eta);
            EdgeForEta(c, s, eta, terminal)
            == if b < WindowEndT(c, s, terminal) then b else WindowEndT(c, s, terminal) - 1
  {
    WindowEndTAfterTle(c, s, terminal);
  }

  /** The success probability of the edges 1, 2 and 3 is 1/2, 1/4 and 1/8. */
  function Denominator(k: nat): nat
    requires 1 <= k <= 3
  {
    if k == 1 then 2 else if k == 2 then 4 else 8
  }

  /** The four edges of a source: its leftmost bin, then one bin for each of the three drawn edges,
      whose draws carry the indices 2, 3 and 4. */
  lemma EdgesAre(g: Code, s: nat)
    ensures |Edges(g, s)| == 4 && Edges(g, s)[0] == TleBin(g.c, s)
    ensures forall k :: 1 <= k <= 3 ==>
              var trials := Trials(g.c, s, g.terminal);
              var b := TleBin(g.c, s) + (trials - |Hits((j: nat) => g.draws(s, k + 1, j), Denominator(k), trials)|);
              Edges(g, s)[k]
              == if b < WindowEndT(g.c, s, g.terminal) then b else WindowEndT(g.c, s, g.terminal) - 1
  {
    forall k | 1 <= k <= 3
      ensures var trials := Trials(g.c, s, g.terminal);
              var b := TleBin(g.c, s) + (trials - |Hits((j: nat) => g.draws(s, k + 1, j), Denominator(k), trials)|);
              Edges(g, s)[k]
              == if b < WindowEndT(g.c, s, g.terminal) then b else WindowEndT(g.c, s, g.terminal) - 1
    {
      EdgeIs(g, s, k);
    }
  }

  lemma EdgeIs(g: Code, s: nat, k: nat)
    requires 1 <= k <= 3
    ensures var trials := Trials(g.c, s, g.terminal);
            var b := TleBin(g.c, s) + (trials - |Hits((j: nat) => g.draws(s, k + 1, j), Denominator(k), trials)|);
            Edges(g, s)[k]
            == if b < WindowEndT(g.c, s, g.terminal) then b else WindowEndT(g.c, s, g.terminal) - 1
  {
    var trials := Trials(g.c, s, g.terminal);
    var draw := (j: nat) => g.draws(s, k + 1, j);
    assert PROFILE[k - 1] == Denominator(k);
    assert Edges(g, s)[k] == NonTleEdge(g, s, k - 1);
    SuccessesAreHits(draw, Denominator(k), trials);
    EdgePosition(g.c, s, Successes(draw, Denominator(k), trials), g.terminal);
  }

  // ---------- the bins a decoder accepts ----------

  /** The decoder of a code looks at exactly the bins of 64-bit sources with payloads of the symbol
      size. */
  lemma AcceptableExact(g: Code, b: nat, p: seq<bv8>)
    ensures ReferenceDecoder.Acceptable(GraphOf(g), b, p) <==>
            |p| == g.symbolBytes && b < TleBin(g.c, 0x1_0000_0000_0000_0000)
  {
    LatestIdExact(g.c, b);
  }

  /** So the accepted bins of a run are the delivered ids below that bound, with those payloads. */
  lemma DeliveredExact(g: Code, ds: seq<ReferenceDecoder.Delivery>, b: nat)
    ensures b in ReferenceDecoder.Delivered(GraphOf(g), ds) <==>
            && b < TleBin(g.c, 0x1_0000_0000_0000_0000)
            && exists i :: 0 <= i < |ds| && ds[i].bin == b && |ds[i].payload| == g.symbolBytes
  {
    forall i | 0 <= i < |ds|
      ensures ReferenceDecoder.Acceptable(GraphOf(g), ds[i].bin, ds[i].payload) <==>
              |ds[i].payload| == g.symbolBytes && ds[i].bin < TleBin(g.c, 0x1_0000_0000_0000_0000)
    {
      AcceptableExact(g, ds[i].bin, ds[i].payload);
    }
  }
}
