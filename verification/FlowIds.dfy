/** Flow identifiers (dataplane/src/node/mod.rs): 128-bit numbers that hold source address,
    destination address, source port, destination port and 32 further bits, from the top down. */
module FlowIds {
  import opened RouteTables

  const TWO16: nat := 0x1_0000
  const TWO32: nat := 0x1_0000_0000

  datatype Parts = Parts(srcIp: nat, dstIp: nat, srcPort: nat, dstPort: nat, rest: nat)

  ghost predicate ValidParts(p: Parts) {
    p.srcIp < TWO32 && p.dstIp < TWO32 && p.srcPort < TWO16 && p.dstPort < TWO16 && p.rest < TWO32
  }

  /** The fields one below the other. */
  function Pack(p: Parts): nat {
    (((p.srcIp * TWO32 + p.dstIp) * TWO16 + p.srcPort) * TWO16 + p.dstPort) * TWO32 + p.rest
  }

  // The accessors shift down and mask; `SrcIp` and `DstIp` are those that the routing table uses.

  function SrcPort(flow: nat): nat { flow / 0x1_0000_0000_0000 % TWO16 }

  function DstPort(flow: nat): nat { flow / TWO32 % TWO16 }

  function Rest(flow: nat): nat { flow % TWO32 }

  function Unpack(flow: nat): Parts {
    Parts(SrcIp(flow), DstIp(flow), SrcPort(flow), DstPort(flow), Rest(flow))
  }

  function Swap(p: Parts): Parts {
    Parts(p.dstIp, p.srcIp, p.dstPort, p.srcPort, p.rest)
  }

  /** `reverse`. */
  function Reverse(flow: nat): nat {
    Pack(Swap(Unpack(flow)))
  }

  lemma Shift(a: nat, b: nat, k: nat)
    requires b < k
    ensures (a * k + b) / k == a && (a * k + b) % k == b
  {
    assert (a * k + b) / k == a by {
      assert a * k <= a * k + b < (a + 1) * k;
      DivBounds(a * k + b, k, a);
    }
    assert (a * k + b) == k * ((a * k + b) / k) + (a * k + b) % k;
  }

  lemma DivBounds(x: nat, k: nat, q: nat)
    requires k > 0 && q * k <= x < (q + 1) * k
    ensures x / k == q
  {
    var d, m := x / k, x % k;
    assert x == d * k + m;
    Monotone(d + 1, q, k);
    Monotone(q + 1, d, k);
  }

  lemma Monotone(a: nat, b: nat, k: nat)
    ensures a <= b ==> a * k <= b * k
  {
  }

  lemma Between(j: nat, k: nat, d: nat, s: nat, r: nat)
    requires s < k && r < j
    ensures d * (j * k) <= j * (k * d + s) + r < (d + 1) * (j * k)
  {
    assert j * (k * d + s) == d * (j * k) + j * s;
    assert j * s + j <= j * k by {
      assert j * (s + 1) <= j * k;
    }
  }

  lemma Quotient(x: nat, j: nat, k: nat, d: nat, y: nat, s: nat, r: nat)
    requires s < k && r < j && y == k * d + s && x == j * y + r
    ensures j * k > 0 && x / (j * k) == d
  {
    Between(j, k, d, s, r);
    var m := j * k;
    assert m > 0 by {
      assert j * 1 <= j * k;
    }
    DivBounds(x, m, d);
  }

  lemma DivMod(x: nat, k: nat)
    requires k > 0
    ensures x == k * (x / k) + x % k && x % k < k
  {
  }

  lemma ShiftTwice(x: nat, j: nat, k: nat)
    requires j > 0 && k > 0
    ensures j * k > 0 && x / (j * k) == x / j / k
  {
    DivMod(x, j);
    DivMod(x / j, k);
    Quotient(x, j, k, x / j / k, x / j, x / j % k, x % j);
  }

  /** Source address from bit 96, destination address from bit 64, ports from bits 48 and 32. */
  lemma PackValue(p: Parts)
    ensures Pack(p) == p.srcIp * 0x1_0000_0000_0000_0000_0000_0000 + p.dstIp * 0x1_0000_0000_0000_0000
                       + p.srcPort * 0x1_0000_0000_0000 + p.dstPort * 0x1_0000_0000 + p.rest
  {
  }

  /** Every flow id splits into its fields, and the fields give it back. */
  lemma PackUnpack(p: Parts)
    requires ValidParts(p)
    ensures Unpack(Pack(p)) == p
  {
    var a, b := p.srcIp, p.srcIp * TWO32 + p.dstIp;
    var c := b * TWO16 + p.srcPort;
    var d := c * TWO16 + p.dstPort;
    var flow := d * TWO32 + p.rest;
    Shift(d, p.rest, TWO32);
    Shift(c, p.dstPort, TWO16);
    Shift(b, p.srcPort, TWO16);
    Shift(a, p.dstIp, TWO32);
    ShiftTwice(flow, TWO32, TWO16);
    ShiftTwice(flow, 0x1_0000_0000_0000, TWO16);
    ShiftTwice(flow, 0x1_0000_0000_0000_0000, TWO32);
  }

  /** Only the flow whose every field is all ones has the invalid id. */
  lemma InvalidIsAllOnes(p: Parts)
    requires ValidParts(p)
    ensures Pack(p) == INVALID_FLOW_ID <==>
            p == Parts(0xFFFF_FFFF, 0xFFFF_FFFF, 0xFFFF, 0xFFFF, 0xFFFF_FFFF)
  {
    var ones := Parts(0xFFFF_FFFF, 0xFFFF_FFFF, 0xFFFF, 0xFFFF, 0xFFFF_FFFF);
    PackUnpack(p);
    PackUnpack(ones);
    PackValue(ones);
  }

  lemma UnpackPack(flow: nat)
    requires flow < 0x1_0000_0000_0000_0000_0000_0000_0000_0000
    ensures ValidParts(Unpack(flow)) && Pack(Unpack(flow)) == flow
  {
    ShiftTwice(flow, TWO32, TWO16);
    ShiftTwice(flow, 0x1_0000_0000_0000, TWO16);
    ShiftTwice(flow, 0x1_0000_0000_0000_0000, TWO32);
  }

  /** Reversing swaps the two endpoints and keeps the rest, and twice changes nothing. */
  lemma ReverseSwaps(flow: nat)
    requires flow < 0x1_0000_0000_0000_0000_0000_0000_0000_0000
    ensures SrcIp(Reverse(flow)) == DstIp(flow) && DstIp(Reverse(flow)) == SrcIp(flow)
    ensures SrcPort(Reverse(flow)) == DstPort(flow) && DstPort(Reverse(flow)) == SrcPort(flow)
    ensures Rest(Reverse(flow)) == Rest(flow)
    ensures Reverse(Reverse(flow)) == flow
  {
    UnpackPack(flow);
    PackUnpack(Swap(Unpack(flow)));
  }
}
