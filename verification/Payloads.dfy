/** Byte payloads, their exclusive-or, and exclusive-or sums over sets of sources. */
module Payloads {
  type Payload = seq<bv8>

  function Zero(n: nat): (z: Payload)
    ensures |z| == n
  {
    seq(n, _ => 0)
  }

  /** `xor_payload`: the destination keeps its length, the shorter operand bounds the change. */
  function Xor(dst: Payload, src: Payload): (r: Payload)
    ensures |r| == |dst|
  {
    seq(|dst|, i requires 0 <= i < |dst| => if i < |src| then dst[i] ^ src[i] else dst[i])
  }

  predicate Sized(sources: seq<Payload>, n: nat) {
    forall i :: 0 <= i < |sources| ==> |sources[i]| == n
  }

  /** The payload of source `s`; a source that was never pushed counts as all zeros. */
  function SourceAt(sources: seq<Payload>, n: nat, s: nat): (p: Payload)
    requires Sized(sources, n)
    ensures |p| == n
  {
    if s < |sources| then sources[s] else Zero(n)
  }

  /** The exclusive-or of the payloads of the sources in `who` that are below `k`. */
  ghost function XorSum(sources: seq<Payload>, n: nat, who: set<nat>, k: nat): (p: Payload)
    requires Sized(sources, n)
    ensures |p| == n
  {
    if k == 0 then Zero(n)
    else
      var rest := XorSum(sources, n, who, k - 1);
      if k - 1 in who then Xor(rest, SourceAt(sources, n, k - 1)) else rest
  }

  // ---------- algebra ----------

  lemma XorByte(x: bv8, y: bv8, z: bv8)
    ensures (x ^ y) ^ y == x
    ensures x ^ y == y ^ x
    ensures (x ^ y) ^ z == (x ^ z) ^ y
    ensures x ^ 0 == x
    ensures x ^ x == 0
  {
  }

  lemma XorCancel(a: Payload, b: Payload)
    requires |a| == |b|
    ensures Xor(Xor(a, b), b) == a
  {
    forall i | 0 <= i < |a| ensures Xor(Xor(a, b), b)[i] == a[i] { XorByte(a[i], b[i], 0); }
  }

  lemma XorSwap(a: Payload, b: Payload, c: Payload)
    requires |a| == |b| == |c|
    ensures Xor(Xor(a, b), c) == Xor(Xor(a, c), b)
  {
    forall i | 0 <= i < |a| ensures Xor(Xor(a, b), c)[i] == Xor(Xor(a, c), b)[i] {
      XorByte(a[i], b[i], c[i]);
    }
  }

  lemma XorComm(a: Payload, b: Payload)
    requires |a| == |b|
    ensures Xor(a, b) == Xor(b, a)
  {
    forall i | 0 <= i < |a| ensures Xor(a, b)[i] == Xor(b, a)[i] { XorByte(a[i], b[i], 0); }
  }

  lemma XorZero(a: Payload)
    ensures Xor(a, Zero(|a|)) == a
    ensures Xor(Zero(|a|), a) == a
    ensures Xor(a, a) == Zero(|a|)
  {
    forall i | 0 <= i < |a|
      ensures Xor(a, Zero(|a|))[i] == a[i] && Xor(Zero(|a|), a)[i] == a[i] && Xor(a, a)[i] == 0
    {
      XorByte(a[i], 0, 0);
      XorByte(0, a[i], 0);
    }
  }

  // ---------- sums ----------

  /** Only the members below `k` matter. */
  lemma {:induction false} SumSame(sources: seq<Payload>, n: nat, who: set<nat>, who': set<nat>, k: nat)
    requires Sized(sources, n)
    requires forall s :: 0 <= s < k ==> (s in who <==> s in who')
    ensures XorSum(sources, n, who, k) == XorSum(sources, n, who', k)
  {
    if k > 0 {
      SumSame(sources, n, who, who', k - 1);
    }
  }

  /** A bound beyond every member changes nothing. */
  lemma {:induction false} SumExtend(sources: seq<Payload>, n: nat, who: set<nat>, k: nat, k': nat)
    requires Sized(sources, n)
    requires k <= k' && forall s :: k <= s < k' ==> s !in who
    ensures XorSum(sources, n, who, k) == XorSum(sources, n, who, k')
  {
    if k < k' {
      SumExtend(sources, n, who, k, k' - 1);
    }
  }

  /** Adding one member adds its payload. */
  lemma {:induction false} SumInsert(sources: seq<Payload>, n: nat, who: set<nat>, s: nat, k: nat)
    requires Sized(sources, n)
    requires s < k && s !in who
    ensures XorSum(sources, n, who + {s}, k) == Xor(XorSum(sources, n, who, k), SourceAt(sources, n, s))
  {
    if k - 1 == s {
      SumSame(sources, n, who, who + {s}, s);
    } else {
      SumInsert(sources, n, who, s, k - 1);
      if k - 1 in who {
        XorSwap(XorSum(sources, n, who, k - 1), SourceAt(sources, n, s), SourceAt(sources, n, k - 1));
      }
    }
  }

  lemma SumRemove(sources: seq<Payload>, n: nat, who: set<nat>, s: nat, k: nat)
    requires Sized(sources, n)
    requires s < k && s in who
    ensures XorSum(sources, n, who - {s}, k) == Xor(XorSum(sources, n, who, k), SourceAt(sources, n, s))
  {
    SumInsert(sources, n, who - {s}, s, k);
    assert who - {s} + {s} == who;
    XorCancel(XorSum(sources, n, who - {s}, k), SourceAt(sources, n, s));
  }

  lemma {:induction false} SumEmpty(sources: seq<Payload>, n: nat, who: set<nat>, k: nat)
    requires Sized(sources, n)
    requires forall s :: 0 <= s < k ==> s !in who
    ensures XorSum(sources, n, who, k) == Zero(n)
  {
    SumExtend(sources, n, who, 0, k);
  }

  lemma SumSingle(sources: seq<Payload>, n: nat, who: set<nat>, s: nat, k: nat)
    requires Sized(sources, n)
    requires s < k && forall u :: 0 <= u < k ==> (u in who <==> u == s)
    ensures XorSum(sources, n, who, k) == SourceAt(sources, n, s)
  {
    SumSame(sources, n, who, {} + {s}, k);
    SumInsert(sources, n, {}, s, k);
    SumEmpty(sources, n, {}, k);
    XorZero(SourceAt(sources, n, s));
  }

  /** Cancelling the members in `known` leaves the others. */
  lemma {:induction false} SumSplit(sources: seq<Payload>, n: nat, who: set<nat>, known: set<nat>, k: nat)
    requires Sized(sources, n)
    ensures Xor(XorSum(sources, n, who, k), XorSum(sources, n, who * known, k))
            == XorSum(sources, n, who - known, k)
  {
    if k == 0 {
      XorZero(Zero(n));
    } else {
      SumSplit(sources, n, who, known, k - 1);
      var a, b := XorSum(sources, n, who, k - 1), XorSum(sources, n, who * known, k - 1);
      var p := SourceAt(sources, n, k - 1);
      if k - 1 in who {
        XorSwap(a, p, b);
        if k - 1 in known {
          XorXor(Xor(a, p), b, p);
          XorSwap(Xor(a, p), b, p);
          XorCancel(a, p);
        }
      }
    }
  }

  /** Exclusive-or associates. */
  lemma XorXor(a: Payload, b: Payload, c: Payload)
    requires |a| == |b| == |c|
    ensures Xor(a, Xor(b, c)) == Xor(Xor(a, b), c)
  {
    forall i | 0 <= i < |a| ensures Xor(a, Xor(b, c))[i] == Xor(Xor(a, b), c)[i] {
      assert a[i] ^ (b[i] ^ c[i]) == (a[i] ^ b[i]) ^ c[i];
    }
  }
}
