/** The bytes of packets, position by position (dataplane/src/node/packet.rs): what a built packet
    looks like, and what is read from any packet, whatever the lengths of its headers. */
module PacketFormat {
  import opened Wrappers
  import opened FlowIds
  import opened Packets

  // ---------- numbers ----------

  /** The number in two bytes, high one first. */
  function Two(bs: Bytes, at: nat): nat
    requires at + 2 <= |bs|
  {
    var high: nat, low: nat := bs[at], bs[at + 1];
    high * 256 + low
  }

  function Four(bs: Bytes, at: nat): nat
    requires at + 4 <= |bs|
  {
    Two(bs, at) * 0x1_0000 + Two(bs, at + 2)
  }

  function Eight(bs: Bytes, at: nat): nat
    requires at + 8 <= |bs|
  {
    Four(bs, at) * 0x1_0000_0000 + Four(bs, at + 4)
  }

  lemma ReadTwo(bs: Bytes, at: nat)
    requires at + 2 <= |bs|
    ensures FromBytes(bs[at..at + 2]) == Two(bs, at)
  {
    var b := bs[at..at + 2];
    assert b[..1] == [bs[at]] && b[..1][..0] == [];
    assert FromBytes(b[..1]) == bs[at];
  }

  lemma ReadFour(bs: Bytes, at: nat)
    requires at + 4 <= |bs|
    ensures FromBytes(bs[at..at + 4]) == Four(bs, at)
  {
    assert bs[at..at + 4] == bs[at..at + 2] + bs[at + 2..at + 4];
    FromConcat(bs[at..at + 2], bs[at + 2..at + 4]);
    assert Pow256(2) == 0x1_0000;
    ReadTwo(bs, at);
    ReadTwo(bs, at + 2);
  }

  lemma ReadEight(bs: Bytes, at: nat)
    requires at + 8 <= |bs|
    ensures FromBytes(bs[at..at + 8]) == Eight(bs, at)
  {
    assert bs[at..at + 8] == bs[at..at + 4] + bs[at + 4..at + 8];
    FromConcat(bs[at..at + 4], bs[at + 4..at + 8]);
    assert Pow256(2) == 0x1_0000 && Pow256(4) == 0x1_0000_0000;
    ReadFour(bs, at);
    ReadFour(bs, at + 4);
  }

  // ---------- any TCP packet ----------

  /** An IPv4 packet with a TCP header: `ihl` and `offset` are the header lengths in words, `total` the
      value of the length field. */
  predicate IsSegment(buf: Bytes, ihl: nat, offset: nat, total: nat) {
    && ihl < 16 && 5 <= offset < 16 && |buf| >= 20 && |buf| >= 4 * ihl + 20
    && buf[0] == 0x40 + ihl && buf[9] == 6 && Two(buf, 2) == total
    && buf[4 * ihl + 12] / 16 == offset
  }

  lemma HeaderLengths(buf: Bytes, ihl: nat, offset: nat, total: nat)
    requires IsSegment(buf, ihl, offset, total)
    ensures buf[0] / 16 == 4 && HeaderLength(buf[0]) == 4 * ihl && TcpLength(buf[4 * ihl + 12]) == 4 * offset
  {
  }

  /** The payload starts after both headers and ends at the length field, or at the end of the packet
      if that comes first. */
  lemma SegmentPayload(buf: Bytes, ihl: nat, offset: nat, total: nat)
    requires IsSegment(buf, ihl, offset, total)
    ensures var start, end := 4 * ihl + 4 * offset, if total < |buf| then total else |buf|;
            Payload(buf) == if start <= end then Some(buf[start..end]) else None
  {
    HeaderLengths(buf, ihl, offset, total);
    ReadTwo(buf, 2);
  }

  /** The options lie between the fixed part of the TCP header and its end. */
  lemma SegmentOptions(buf: Bytes, ihl: nat, offset: nat, total: nat)
    requires IsSegment(buf, ihl, offset, total)
    ensures OptionBounds(buf)
            == if 4 * ihl + 4 * offset <= |buf| then Some((4 * ihl + 20, 4 * ihl + 4 * offset)) else None
  {
    HeaderLengths(buf, ihl, offset, total);
  }

  /** The flow id holds the addresses at 12 and 16 and the ports behind the IP header. */
  lemma SegmentFlow(buf: Bytes, ihl: nat)
    requires 5 <= ihl < 16 && |buf| >= 4 * ihl + 4 && buf[0] == 0x40 + ihl
    ensures FlowIdOf(buf) == Pack(Parts(Four(buf, 12), Four(buf, 16), Two(buf, 4 * ihl), Two(buf, 4 * ihl + 2), 0))
  {
    assert buf[0] / 16 == 4 && HeaderLength(buf[0]) == 4 * ihl;
    ReadEight(buf, 12);
    ReadFour(buf, 4 * ihl);
    PackValue(Parts(Four(buf, 12), Four(buf, 16), Two(buf, 4 * ihl), Two(buf, 4 * ihl + 2), 0));
  }

  /** Nothing is read from what is no TCP packet over IPv4, or ends before its TCP header does. */
  lemma NoSegment(buf: Bytes)
    requires || |buf| < 20 || buf[0] / 16 != 4 || buf[9] != 6 || |buf| < buf[0] % 16 * 4 + 20
             || buf[buf[0] % 16 * 4 + 12] / 16 < 5
    ensures Payload(buf).None? && OptionBounds(buf).None? && MetaOf(buf).None?
  {
  }

  /** The flow id needs an IP header of at least five words and the ports behind it. */
  lemma NoFlow(buf: Bytes)
    requires |buf| < 20 || buf[0] / 16 != 4 || buf[0] % 16 < 5 || |buf| < buf[0] % 16 * 4 + 4
    ensures FlowIdOf(buf) == 0xFFFF_FFFF_FFFF_FFFF_FFFF_FFFF_FFFF_FFFF
  {
  }

  /** The lowest flag bit says whether the tree id counts. */
  lemma MetaFields(data: Bytes)
    requires |data| == 14
    ensures ReadMeta(data) == Meta(Eight(data, 2), if data[0] % 2 == 1 then Some(Two(data, 10)) else None)
  {
    ReadEight(data, 2);
    ReadTwo(data, 10);
  }

  /** The session option has kind 30 and 16 bytes, kind and length included. */
  lemma MetaOptionKind(o: TcpOption)
    ensures IsMetaOption(o) <==> o.Tlv? && o.kind == 30 && |o.data| == 14
  {
  }

  // ---------- a built packet ----------

  lemma TwoBytes(v: nat)
    ensures ToBytes(2, v) == [v / 256 % 256, v % 256]
  {
    assert ToBytes(1, v / 256) == ToBytes(0, v / 256 / 256) + [v / 256 % 256];
    assert ToBytes(2, v) == ToBytes(1, v / 256) + [v % 256];
  }

  lemma WrittenFour(bs: Bytes, at: nat, v: nat)
    requires at + 4 <= |bs| && bs[at..at + 4] == ToBytes(4, v) && v < 0x1_0000_0000
    ensures Four(bs, at) == v
  {
    ReadFour(bs, at);
    assert Pow256(2) == 0x1_0000 && Pow256(4) == 0x1_0000_0000;
    NumberRoundTrip(4, v);
  }

  lemma WrittenTwo(bs: Bytes, at: nat, v: nat)
    requires at + 2 <= |bs| && bs[at..at + 2] == ToBytes(2, v) && v < 0x1_0000
    ensures Two(bs, at) == v
  {
    ReadTwo(bs, at);
    assert Pow256(2) == 0x1_0000;
    NumberRoundTrip(2, v);
  }

  /** The fixed bytes and the addresses of the IP header. */
  lemma IpHeaderBytes(e: Endpoints, total: nat)
    requires ValidEndpoints(e)
    ensures var h := IpHeader(e, total);
            && h[0] == 0x45 && h[1] == 0 && Two(h, 2) == total % 0x1_0000
            && h[4..8] == [0, 0, 0, 0] && h[8] == 64 && h[9] == 6 && h[10..12] == [0, 0]
            && Four(h, 12) == e.srcIp && Four(h, 16) == e.dstIp
  {
    var h := IpHeader(e, total);
    TwoBytes(total);
    assert h[2..4] == ToBytes(2, total);
    LengthDigits(total);
    var front := [0x45, 0] + ToBytes(2, total) + [0, 0, 0, 0, 64, 6, 0, 0];
    Slice(front, ToBytes(4, e.srcIp), ToBytes(4, e.dstIp));
    WrittenFour(h, 12, e.srcIp);
    WrittenFour(h, 16, e.dstIp);
  }

  lemma Slice(a: Bytes, b: Bytes, c: Bytes)
    ensures (a + b + c)[|a|..|a| + |b|] == b && (a + b + c)[|a| + |b|..] == c
  {
  }

  lemma LengthDigits(v: nat)
    ensures v / 256 % 256 * 256 + v % 256 == v % 0x1_0000
  {
  }

  function TcpFlags(hlen: nat): Bytes
    requires hlen < 64
  {
    [hlen / 4 * 16, 0x18]
  }

  lemma TcpParts(e: Endpoints, hlen: nat)
    requires hlen < 64
    ensures var src, dst, z := ToBytes(2, e.srcPort), ToBytes(2, e.dstPort), [0, 0, 0, 0, 0, 0, 0, 0];
            var flags, end, h := TcpFlags(hlen), [0, 0, 0, 0, 0, 0], TcpHeader(e, hlen);
            && h == [] + src + (dst + z + flags + end) && h == src + dst + (z + flags + end)
            && h == src + dst + z + (flags + end) && h == src + dst + z + flags + end
  {
  }

  /** The ports, the data offset and the flags of the TCP header; all else is zero. */
  lemma TcpHeaderBytes(e: Endpoints, hlen: nat)
    requires ValidEndpoints(e) && hlen < 64
    ensures var h := TcpHeader(e, hlen);
            && Two(h, 0) == e.srcPort && Two(h, 2) == e.dstPort && h[4..12] == [0, 0, 0, 0, 0, 0, 0, 0]
            && h[12] == hlen / 4 * 16 && h[13] == 0x18 && h[14..20] == [0, 0, 0, 0, 0, 0]
  {
    var h := TcpHeader(e, hlen);
    var src, dst := ToBytes(2, e.srcPort), ToBytes(2, e.dstPort);
    var zeros, flags := [0, 0, 0, 0, 0, 0, 0, 0], TcpFlags(hlen);
    Slice([], src, dst + zeros + flags + [0, 0, 0, 0, 0, 0]);
    Slice(src, dst, zeros + flags + [0, 0, 0, 0, 0, 0]);
    Slice(src + dst, zeros, flags + [0, 0, 0, 0, 0, 0]);
    Slice(src + dst + zeros, flags, [0, 0, 0, 0, 0, 0]);
    TcpParts(e, hlen);
    assert h[12] == h[12..14][0] && h[13] == h[12..14][1];
    WrittenTwo(h, 0, e.srcPort);
    WrittenTwo(h, 2, e.dstPort);
  }

  /** The option: kind, length, the flag for a tree id, session and tree. */
  lemma OptionBytes(m: Meta)
    requires ValidMeta(m)
    ensures var o := MetaOption(Some(m));
            && |o| == 16 && o[0] == 30 && o[1] == 16 && o[2] == (if m.tree.Some? then 1 else 0) && o[3] == 0
            && Eight(o, 4) == m.session && Two(o, 12) == (if m.tree.Some? then m.tree.value else 0)
            && o[14..16] == [0, 0]
  {
    var o, tree := MetaOption(Some(m)), if m.tree.Some? then m.tree.value else 0;
    assert o[4..12] == ToBytes(8, m.session) && o[12..14] == ToBytes(2, tree);
    ReadEight(o, 4);
    assert Pow256(2) == 0x1_0000 && Pow256(4) == 0x1_0000_0000 && Pow256(6) == 0x1_0000_0000_0000;
    assert Pow256(8) == 0x1_0000_0000_0000_0000;
    NumberRoundTrip(8, m.session);
    WrittenTwo(o, 12, tree);
  }

  /** A built packet is an IP header of 20 bytes, a TCP header of 20 or 36 bytes and the payload. */
  lemma BuiltLayout(e: Endpoints, meta: Option<Meta>, payload: Bytes)
    ensures var p, n := BuiltPacket(e, meta, payload), if meta.Some? then 36 else 20;
            && |p| == 20 + n + |payload|
            && p[..20] == IpHeader(e, |p|) && p[20..40] == TcpHeader(e, n)
            && p[40..20 + n] == MetaOption(meta) && p[20 + n..] == payload
  {
  }
}
