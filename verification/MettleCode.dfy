/** The METTLE code itself: the four edges of a source, and the loops of mettle/src/params.rs
    that compute and search them. */
module MettleCode {
  import opened Wrappers
  import opened Params
  import C = CodeGraph

  /** `Draws(source, edge index, trial)` is the random word of one binomial trial.  The bit
      mixing that produces it is left uninterpreted: a seed is one such function. */
  type Draws = (nat, nat, nat) -> nat

  datatype Code = Code(c: Overhead, draws: Draws, terminal: Option<nat>, symbolBytes: nat)

  /** Denominators of the three non-TLE success probabilities; edge index k + 2 uses entry k. */
  const PROFILE: seq<nat> := [2, 4, 8]

  function Successes(draw: nat -> nat, denominator: nat, trials: nat): (n: nat)
    requires denominator > 0
    ensures n <= trials
  {
    if trials == 0 then 0
    else Successes(draw, denominator, trials - 1) + if draw(trials - 1) % denominator == 0 then 1 else 0
  }

  function NonTleEdge(g: Code, s: nat, profileIndex: nat): nat
    requires profileIndex < |PROFILE|
  {
    var draw := (k: nat) => g.draws(s, profileIndex + 2, k);
    EdgeForEta(g.c, s, Successes(draw, PROFILE[profileIndex], Trials(g.c, s, g.terminal)), g.terminal)
  }

  function EdgeAt(g: Code, s: nat, k: nat): nat
    requires k < EDGE_COUNT
  {
    if k == 0 then TleBin(g.c, s) else NonTleEdge(g, s, k - 1)
  }

  /** The four bins of a source, the TLE bin first. */
  function Edges(g: Code, s: nat): (edges: seq<nat>)
    ensures |edges| == EDGE_COUNT
  {
    seq(EDGE_COUNT, k requires 0 <= k < EDGE_COUNT => EdgeAt(g, s, k))
  }

  lemma FourEdges(g: Code, s: nat, a: nat, b: nat, c: nat, d: nat)
    requires TleBin(g.c, s) == a
    requires NonTleEdge(g, s, 0) == b && NonTleEdge(g, s, 1) == c && NonTleEdge(g, s, 2) == d
    ensures Edges(g, s) == [a, b, c, d]
  {
  }

  // ---------- edges and windows ----------

  /** Every edge of a source lies in its (compressed) window, whatever the draws. */
  lemma EdgesInWindow(g: Code, s: nat, b: nat)
    requires b in Edges(g, s)
    ensures WindowContains(g.c, s, b, g.terminal)
  {
    var k :| 0 <= k < EDGE_COUNT && Edges(g, s)[k] == b;
    if k == 0 {
      WindowEndTAfterTle(g.c, s, g.terminal);
    } else {
      var draw := (j: nat) => g.draws(s, k + 1, j);
      EdgeInWindow(g.c, s, Successes(draw, PROFILE[k - 1], Trials(g.c, s, g.terminal)), g.terminal);
    }
  }

  /** The graph that the encoder and the decoder share. */
  function GraphOf(g: Code): C.Graph {
    C.Graph((s: nat) => TleBin(g.c, s), (s: nat) => Edges(g, s), (b: nat) => LatestSource(g.c, b),
            (b: nat) => LatestSourceId(g.c, b).Some?, g.terminal, g.symbolBytes)
  }

  lemma RepresentableExact(g: Code, b: nat)
    ensures GraphOf(g).representable(b) <==> b < TleBin(g.c, U64_LIMIT)
  {
    LatestIdExact(g.c, b);
  }

  lemma GraphTle(g: Code)
    ensures C.LegalTle(GraphOf(g))
  {
    forall s: nat, t: nat ensures s < t ==> TleBin(g.c, s) < TleBin(g.c, t) {
      if s < t { TleGrows(g.c, s, t); }
    }
    forall s: nat, b: nat ensures TleBin(g.c, s) <= b <==> s <= LatestSource(g.c, b) {
      TleInverse(g.c, s, b);
    }
    forall s: nat ensures s < U64_LIMIT ==> LatestSourceId(g.c, TleBin(g.c, s)).Some? {
      if s < U64_LIMIT { LatestIdOfTle(g.c, s); }
    }
  }

  lemma EdgeReach(g: Code, s: nat, b: nat)
    requires b in Edges(g, s)
    ensures C.EdgeReaches(GraphOf(g), s, b)
  {
    EdgesInWindow(g, s, b);
    WindowSources(g.c, s, b, g.terminal);
  }

  lemma GraphEdges(g: Code)
    ensures C.LegalEdges(GraphOf(g))
  {
    forall s: nat, b: nat | b in Edges(g, s) ensures C.EdgeReaches(GraphOf(g), s, b) {
      EdgeReach(g, s, b);
    }
    forall s: nat ensures TleBin(g.c, s) in Edges(g, s) {
      assert Edges(g, s)[0] == TleBin(g.c, s);
    }
  }

  /** For every ratio, every seed and every terminal count, the METTLE graph has the shape that
      the encoder and the decoder rely on. */
  lemma GraphLegal(g: Code)
    ensures C.Legal(GraphOf(g))
  {
    GraphTle(g);
    GraphEdges(g);
  }

  // ---------- the loops of params.rs ----------

  /** `sample_power_of_two_binomial`: counts the draws whose low bits are zero. */
  method SampleBinomial(draw: nat -> nat, denominator: nat, trials: nat) returns (successes: nat)
    requires denominator > 0
    ensures successes == Successes(draw, denominator, trials)
  {
    successes := 0;
    var remaining := trials;
    while remaining != 0
      invariant 0 <= remaining <= trials
      decreases remaining
      invariant successes == Successes(draw, denominator, trials - remaining)
    {
      if draw(trials - remaining) % denominator == 0 {
        successes := successes + 1;
      }
      remaining := remaining - 1;
    }
  }

  /** `edge_bin_ids_with_terminal_source_count`: every slot starts as the TLE bin. */
  method EdgeBinIds(g: Code, s: nat) returns (edges: seq<nat>)
    ensures edges == Edges(g, s)
  {
    edges := seq(EDGE_COUNT, _ => TleBin(g.c, s));
    for k := 0 to |PROFILE|
      invariant |edges| == EDGE_COUNT && edges[0] == TleBin(g.c, s)
      invariant forall j :: 0 <= j < k ==> edges[j + 1] == NonTleEdge(g, s, j)
    {
      var draw := (j: nat) => g.draws(s, k + 2, j);
      var eta := SampleBinomial(draw, PROFILE[k], Trials(g.c, s, g.terminal));
      edges := edges[k + 1 := EdgeForEta(g.c, s, eta, g.terminal)];
    }
  }

  /** `lo` and `hi` are the first and the last source of the stream whose window contains `b`. */
  predicate IsSourceRange(g: Code, b: nat, lo: nat, hi: nat) {
    && lo <= hi
    && C.InStream(lo, g.terminal) && WindowContains(g.c, lo, b, g.terminal)
    && C.InStream(hi, g.terminal) && WindowContains(g.c, hi, b, g.terminal)
  }

  /** The scan itself: the first and the last candidate in [lo, hi] that satisfies `p`. */
  method FirstAndLast(lo: nat, hi: nat, p: nat -> bool) returns (range: Option<(nat, nat)>)
    requires lo <= hi
    ensures range.Some? ==> lo <= range.value.0 <= range.value.1 <= hi && p(range.value.0) && p(range.value.1)
    ensures forall u :: lo <= u <= hi && p(u) ==> range.Some? && range.value.0 <= u <= range.value.1
  {
    var earliest: Option<nat>, last: Option<nat> := None, None;
    var s := lo;
    while s <= hi
      invariant lo <= s <= hi + 1
      invariant earliest.Some? <==> last.Some?
      invariant earliest.Some? ==> lo <= earliest.value <= last.value < s && p(earliest.value) && p(last.value)
      invariant forall u :: lo <= u < s && p(u) ==> earliest.Some? && earliest.value <= u <= last.value
    {
      if p(s) {
        if earliest.None? {
          earliest := Some(s);
        }
        last := Some(s);
      }
      s := s + 1;
    }
    range := if earliest.Some? then Some((earliest.value, last.value)) else None;
  }

  /** The last candidate: the latest source left of the bin, clipped to the stream. */
  function LastCandidate(latest: nat, terminal: Option<nat>): nat
    requires terminal != Some(0)
  {
    if terminal.Some? then Min(latest, terminal.value - 1) else latest
  }

  lemma CandidateBounds(g: Code, b: nat, s: nat)
    requires C.InStream(s, g.terminal) && WindowContains(g.c, s, b, g.terminal)
    ensures var last := LastCandidate(LatestSource(g.c, b), g.terminal);
            SaturatingSub(last, COUPLING_WINDOW) <= s <= last
  {
    WindowSources(g.c, s, b, g.terminal);
  }

  /** `possible_source_id_range_for_bin`: a scan of at most 601 candidates finds the same first
      and last source as a search over the whole stream. */
  method PossibleSourceRange(g: Code, b: nat) returns (range: Option<(nat, nat)>)
    ensures b >= TleBin(g.c, U64_LIMIT) ==> range.None?
    ensures range.Some? ==> IsSourceRange(g, b, range.value.0, range.value.1)
    ensures b < TleBin(g.c, U64_LIMIT) ==>
              forall s: nat :: C.InStream(s, g.terminal) && WindowContains(g.c, s, b, g.terminal) ==>
                range.Some? && range.value.0 <= s <= range.value.1
  {
    var latestId := LatestSourceId(g.c, b);
    LatestIdExact(g.c, b);
    if latestId.None? || g.terminal == Some(0) {
      return None;
    }
    var last := LastCandidate(latestId.value, g.terminal);
    var contains := (s: nat) => WindowContains(g.c, s, b, g.terminal);
    range := FirstAndLast(SaturatingSub(last, COUPLING_WINDOW), last, contains);
    forall s: nat | C.InStream(s, g.terminal) && WindowContains(g.c, s, b, g.terminal)
      ensures range.Some? && range.value.0 <= s <= range.value.1
    {
      CandidateBounds(g, b, s);
      assert contains(s);
    }
  }

  /** The right end of the whole terminated stream, as a maximum over a non-empty stream. */
  ghost predicate IsStreamEnd(c: Overhead, n: nat, end: nat) {
    && (forall s :: 0 <= s < n ==> WindowEndT(c, s, Some(n)) <= end)
    && (exists s :: 0 <= s < n && WindowEndT(c, s, Some(n)) == end)
  }

  /** The stream end lies right of every edge of the stream, and right of the departure frontier
      after any number of its sources. */
  lemma StreamEndBounds(g: Code, n: nat, end: nat)
    requires g.terminal == Some(n) && IsStreamEnd(g.c, n, end)
    ensures forall s: nat :: s <= n ==> GraphOf(g).tle(s) <= end
    ensures forall b: nat :: b >= end ==> C.Touchers(GraphOf(g), b) == {}
  {
    forall s: nat | s <= n ensures TleBin(g.c, s) <= end {
      TleGrows(g.c, s, n);
      WindowReachesNext(g.c, n - 1, Some(n));
    }
    forall b: nat, s: nat | b >= end && s < n ensures b !in Edges(g, s) {
      if b in Edges(g, s) {
        EdgesInWindow(g, s, b);
      }
    }
  }

  /** Uncompressed window ends do not decrease. */
  lemma WindowEndGrows(c: Overhead, s: nat, t: nat)
    requires s <= t
    ensures WindowEnd(c, s) <= WindowEnd(c, t)
  {
    var e, d := ExpansionNumerator(c), c.denominator;
    var x, y := (s + COUPLING_WINDOW) * e, (t + COUPLING_WINDOW) * e;
    MulMonotone(s + COUPLING_WINDOW, t + COUPLING_WINDOW, e);
    DivCeilBounds(x, d);
    DivCeilBounds(y, d);
    if DivCeil(x, d) > DivCeil(y, d) {
      MulMonotone(DivCeil(y, d) + 1, DivCeil(x, d), d);
    }
  }

  /** `terminal_departure_end_exclusive`: looking at the last source before the tail and at the
      tail itself gives the maximum over every source. */
  method TerminalDepartureEnd(c: Overhead, n: nat) returns (end: nat)
    ensures n == 0 ==> end == 0
    ensures n > 0 ==> IsStreamEnd(c, n, end)
  {
    if n == 0 {
      return 0;
    }
    var tailStart := TailStart(n);
    end := if tailStart == 0 then 0 else WindowEnd(c, tailStart - 1);
    forall s | 0 <= s < tailStart ensures WindowEndT(c, s, Some(n)) == WindowEnd(c, s) <= end {
      WindowEndGrows(c, s, tailStart - 1);
    }
    assert tailStart > 0 ==> WindowEndT(c, tailStart - 1, Some(n)) == end;
    for s := tailStart to n
      invariant forall u :: 0 <= u < s ==> WindowEndT(c, u, Some(n)) <= end
      invariant s > 0 ==> exists u :: 0 <= u < s && WindowEndT(c, u, Some(n)) == end
      invariant s == 0 ==> end == 0
    {
      end := Max(end, WindowEndT(c, s, Some(n)));
      assert WindowEndT(c, s, Some(n)) == end || exists u :: 0 <= u < s && WindowEndT(c, u, Some(n)) == end;
    }
  }
}
