/** Building and parsing IPv4/TCP packets with the lossless-session option
    (dataplane/src/node/packet.rs; RFC 791 section 3.1, RFC 9293 sections 3.1 and 3.2). */
module Packets {
  import opened Wrappers
  import opened RouteTables
  import opened FlowIds

  type byte = x: nat | x < 256
  type Bytes = seq<byte>

  const IP_HLEN: nat := 20
  const TCP_BASE_HLEN: nat := 20
  const META_KIND: byte := 30
  const META_LEN: nat := 16

  // ---------- big-endian numbers ----------

  function ToBytes(n: nat, v: nat): (bs: Bytes)
    ensures |bs| == n
  {
    if n == 0 then [] else ToBytes(n - 1, v / 256) + [v % 256]
  }

  function FromBytes(bs: Bytes): nat {
    if bs == [] then 0 else FromBytes(bs[..|bs| - 1]) * 256 + bs[|bs| - 1]
  }

  function Pow256(n: nat): nat {
    if n == 0 then 1 else 256 * Pow256(n - 1)
  }

  /** A number that fits is read back. */
  lemma {:induction false} NumberRoundTrip(n: nat, v: nat)
    requires v < Pow256(n)
    ensures FromBytes(ToBytes(n, v)) == v
  {
    if n > 0 {
      NumberRoundTrip(n - 1, v / 256);
      assert ToBytes(n, v)[..n - 1] == ToBytes(n - 1, v / 256);
    }
  }

  /** Two bytes keep the low 16 bits. */
  lemma LengthField(v: nat)
    ensures FromBytes(ToBytes(2, v)) == v % 0x1_0000
  {
    var hi: byte, lo: byte := v / 256 % 256, v % 256;
    assert ToBytes(1, v / 256) == [hi] && ToBytes(2, v) == [hi, lo];
    assert [hi, lo][..1] == [hi] && [hi][..0] == [];
    assert FromBytes([hi]) == hi;
  }

  lemma {:induction false} FromConcat(a: Bytes, b: Bytes)
    ensures FromBytes(a + b) == FromBytes(a) * Pow256(|b|) + FromBytes(b)
  {
    if b == [] {
      assert a + b == a;
    } else {
      var init, last := b[..|b| - 1], b[|b| - 1];
      FromConcat(a, init);
      assert (a + b)[..|a + b| - 1] == a + init;
      Regroup(FromBytes(a), Pow256(|init|));
    }
  }

  lemma Regroup(a: nat, p: nat)
    ensures a * p * 256 == a * (256 * p)
  {
  }

  // ---------- the lossless-session option ----------

  datatype Meta = Meta(session: nat, tree: Option<nat>)

  ghost predicate ValidMeta(m: Meta) {
    m.session < 0x1_0000_0000_0000_0000 && (m.tree.Some? ==> m.tree.value < 0x1_0000)
  }

  /** The option without its kind and length. */
  function MetaData(m: Meta): (data: Bytes)
    ensures |data| == META_LEN - 2
  {
    [if m.tree.Some? then 1 else 0, 0] + ToBytes(8, m.session)
    + ToBytes(2, if m.tree.Some? then m.tree.value else 0) + [0, 0]
  }

  function ReadMeta(data: Bytes): Meta
    requires |data| == META_LEN - 2
  {
    Meta(FromBytes(data[2..10]), if data[0] % 2 != 0 then Some(FromBytes(data[10..12])) else None)
  }

  lemma Middle(a: Bytes, b: Bytes, c: Bytes)
    ensures (a + b + c)[|a|..|a| + |b|] == b
  {
  }

  lemma MetaRoundTrip(m: Meta)
    requires ValidMeta(m)
    ensures ReadMeta(MetaData(m)) == m
  {
    var tree := if m.tree.Some? then m.tree.value else 0;
    var flag: byte := if m.tree.Some? then 1 else 0;
    Middle([flag, 0], ToBytes(8, m.session), ToBytes(2, tree) + [0, 0]);
    Middle([flag, 0] + ToBytes(8, m.session), ToBytes(2, tree), [0, 0]);
    assert MetaData(m) == [flag, 0] + ToBytes(8, m.session) + (ToBytes(2, tree) + [0, 0]);
    assert Pow256(2) == 0x1_0000 && Pow256(8) == 0x1_0000_0000_0000_0000 by {
      assert Pow256(4) == 0x1_0000_0000 && Pow256(6) == 0x1_0000_0000_0000;
    }
    NumberRoundTrip(8, m.session);
    NumberRoundTrip(2, tree);
  }

  // ---------- parsing ----------

  function HeaderLength(b: byte): nat { b % 16 * 4 }

  function TcpLength(b: byte): nat { b / 16 * 4 }

  /** `tcp_payload_bounds`: what it accepts lies inside the packet. */
  function PayloadBounds(buf: Bytes): (r: Option<(nat, nat)>)
    ensures r.Some? ==> r.value.0 <= r.value.1 <= |buf|
  {
    if |buf| < 20 || buf[0] / 16 != 4 || buf[9] != 6 then None
    else
      var ip := HeaderLength(buf[0]);
      if |buf| < ip + 20 then None
      else
        var field := FromBytes(buf[2..4]);
        var total := if field > |buf| then |buf| else field;
        var tcp := TcpLength(buf[ip + 12]);
        if tcp < 20 || ip + tcp > total then None else Some((ip + tcp, total))
  }

  function Payload(buf: Bytes): Option<Bytes> {
    match PayloadBounds(buf)
    case None => None
    case Some((start, end)) => Some(buf[start..end])
  }

  /** `get_flow_id_from_buf`. */
  function FlowIdOf(buf: Bytes): nat {
    if |buf| < 20 || buf[0] / 16 != 4 then INVALID_FLOW_ID
    else
      var ip := HeaderLength(buf[0]);
      if ip < 20 || |buf| < ip + 4 then INVALID_FLOW_ID
      else FromBytes(buf[12..20]) * 0x1_0000_0000_0000_0000 + FromBytes(buf[ip..ip + 4]) * TWO32
  }

  /** Where the options of a packet lie. */
  function OptionBounds(buf: Bytes): (r: Option<(nat, nat)>)
    ensures r.Some? ==> r.value.0 <= r.value.1 <= |buf|
  {
    if |buf| < IP_HLEN || buf[0] / 16 != 4 || buf[9] != 6 then None
    else
      var ip := HeaderLength(buf[0]);
      if |buf| < ip + TCP_BASE_HLEN then None
      else
        var tcp := TcpLength(buf[ip + 12]);
        if tcp < TCP_BASE_HLEN || |buf| < ip + tcp then None
        else Some((ip + TCP_BASE_HLEN, ip + tcp))
  }

  /** The rest of the option walk from `pos`: the data of the option it looks for. */
  function Walk(buf: Bytes, pos: nat, end: nat): (r: Option<Bytes>)
    requires pos <= end <= |buf|
    ensures r.Some? ==> |r.value| == META_LEN - 2
    decreases end - pos
  {
    if pos == end || buf[pos] == 0 then None
    else if buf[pos] == 1 then Walk(buf, pos + 1, end)
    else if pos + 1 == end then None
    else
      var len := buf[pos + 1];
      if len < 2 || pos + len > end then None
      else if buf[pos] == META_KIND && len == META_LEN then Some(buf[pos + 2..pos + len])
      else Walk(buf, pos + len, end)
  }

  function MetaOf(buf: Bytes): Option<Meta> {
    match OptionBounds(buf)
    case None => None
    case Some((start, end)) =>
      match Walk(buf, start, end)
      case None => None
      case Some(data) => Some(ReadMeta(data))
  }

  /** `lossless_transport_meta`: on any bytes the walk ends and reads only inside the packet. */
  method LosslessTransportMeta(buf: Bytes) returns (r: Option<Meta>)
    ensures r == MetaOf(buf)
  {
    var bounds := OptionBounds(buf);
    if bounds.None? {
      return None;
    }
    var (pos, end) := bounds.value;
    while pos < end
      invariant pos <= end <= |buf|
      invariant Walk(buf, pos, end) == Walk(buf, bounds.value.0, end)
      decreases end - pos
    {
      if buf[pos] == 0 {
        break;
      } else if buf[pos] == 1 {
        pos := pos + 1;
      } else {
        if pos + 1 >= end {
          return None;
        }
        var len := buf[pos + 1];
        if len < 2 || pos + len > end {
          return None;
        }
        if buf[pos] == META_KIND && len == META_LEN {
          var session := FromBytes(buf[pos + 4..pos + 12]);
          var tree := FromBytes(buf[pos + 12..pos + 14]);
          SameFields(buf, pos);
          return Some(Meta(session, if buf[pos + 2] % 2 != 0 then Some(tree) else None));
        }
        pos := pos + len;
      }
    }
    r := None;
  }

  lemma SubSlice(buf: Bytes, a: nat, b: nat, i: nat, j: nat)
    requires a <= b <= |buf| && i <= j <= b - a
    ensures buf[a..b][i..j] == buf[a + i..a + j]
  {
    var x, y := buf[a..b][i..j], buf[a + i..a + j];
    assert |x| == |y|;
    forall k | 0 <= k < |x| ensures x[k] == y[k] {
      assert buf[a..b][i + k] == buf[a + (i + k)];
    }
  }

  lemma SameFields(buf: Bytes, pos: nat)
    requires pos + META_LEN <= |buf|
    ensures ReadMeta(buf[pos + 2..pos + META_LEN])
            == Meta(FromBytes(buf[pos + 4..pos + 12]),
                    if buf[pos + 2] % 2 != 0 then Some(FromBytes(buf[pos + 12..pos + 14])) else None)
  {
    SubSlice(buf, pos + 2, pos + META_LEN, 2, 10);
    SubSlice(buf, pos + 2, pos + META_LEN, 10, 12);
  }

  // ---------- option lists ----------

  /** The options of section 3.1 of RFC 9293: no-operation, or kind, length and data. */
  datatype TcpOption = Nop | Tlv(kind: byte, data: Bytes)

  ghost predicate ValidOption(o: TcpOption) {
    o.Tlv? ==> o.kind > 1 && |o.data| + 2 < 256
  }

  ghost predicate IsMetaOption(o: TcpOption) {
    o.Tlv? && o.kind == META_KIND && |o.data| == META_LEN - 2
  }

  /** The data of the first lossless-session option from the `k`-th option on. */
  ghost function FirstMeta(os: seq<TcpOption>, k: nat): Option<Bytes>
    requires k <= |os|
    decreases |os| - k
  {
    if k == |os| then None else if IsMetaOption(os[k]) then Some(os[k].data) else FirstMeta(os, k + 1)
  }

  ghost function EncodeOption(o: TcpOption): Bytes
    requires ValidOption(o)
  {
    match o
    case Nop => [1]
    case Tlv(kind, data) => [kind, |data| + 2] + data
  }

  /** The walk over one option. */
  lemma WalkOne(buf: Bytes, pos: nat, o: TcpOption, end: nat)
    requires ValidOption(o) && pos + |EncodeOption(o)| <= end <= |buf|
    requires buf[pos..pos + |EncodeOption(o)|] == EncodeOption(o)
    ensures Walk(buf, pos, end)
            == if IsMetaOption(o) then Some(o.data)
               else Walk(buf, pos + |EncodeOption(o)|, end)
  {
    var one := EncodeOption(o);
    assert buf[pos] == buf[pos..pos + |one|][0];
    if o.Tlv? {
      assert buf[pos + 1] == buf[pos..pos + |one|][1];
      SubSlice(buf, pos, pos + |one|, 2, |one|);
      assert one[2..] == o.data;
    }
  }

  /** The options from the `k`-th on lie at `pos`, followed by the end of the header or the
      end-of-list option. */
  ghost predicate OptionsAt(buf: Bytes, pos: nat, os: seq<TcpOption>, k: nat, end: nat)
    requires pos <= end <= |buf| && k <= |os|
    decreases |os| - k
  {
    if k == |os| then pos == end || buf[pos] == 0
    else
      ValidOption(os[k]) &&
      var n := |EncodeOption(os[k])|;
      pos + n <= end && buf[pos..pos + n] == EncodeOption(os[k]) && OptionsAt(buf, pos + n, os, k + 1, end)
  }

  lemma OptionsAtNext(buf: Bytes, pos: nat, os: seq<TcpOption>, k: nat, end: nat) returns (next: nat)
    requires pos <= end <= |buf| && k < |os| && OptionsAt(buf, pos, os, k, end)
    ensures next <= end && OptionsAt(buf, next, os, k + 1, end)
    ensures Walk(buf, pos, end) == if IsMetaOption(os[k]) then Some(os[k].data) else Walk(buf, next, end)
  {
    next := pos + |EncodeOption(os[k])|;
    WalkOne(buf, pos, os[k], end);
  }

  /** Wherever a list of well-formed options lies in a packet, the walk returns the data of its
      first lossless-session option. */
  lemma {:induction false} WalkFindsFirst(buf: Bytes, pos: nat, os: seq<TcpOption>, k: nat, end: nat)
    requires pos <= end <= |buf| && k <= |os| && OptionsAt(buf, pos, os, k, end)
    ensures Walk(buf, pos, end) == FirstMeta(os, k)
    decreases |os| - k
  {
    if k < |os| {
      var next := OptionsAtNext(buf, pos, os, k, end);
      WalkFindsFirst(buf, next, os, k + 1, end);
    }
  }

  // ---------- building ----------

  /** The header fields of the packets the overlay builds; the address octets are numbers. */
  datatype Endpoints = Endpoints(srcIp: nat, srcPort: nat, dstIp: nat, dstPort: nat)

  ghost predicate ValidEndpoints(e: Endpoints) {
    e.srcIp < TWO32 && e.dstIp < TWO32 && e.srcPort < TWO16 && e.dstPort < TWO16
  }

  function IpHeader(e: Endpoints, total: nat): (h: Bytes)
    ensures |h| == IP_HLEN
  {
    [0x45, 0] + ToBytes(2, total) + [0, 0, 0, 0, 64, 6, 0, 0] + ToBytes(4, e.srcIp) + ToBytes(4, e.dstIp)
  }

  function TcpHeader(e: Endpoints, hlen: nat): (h: Bytes)
    requires hlen < 64
    ensures |h| == TCP_BASE_HLEN
  {
    ToBytes(2, e.srcPort) + ToBytes(2, e.dstPort) + [0, 0, 0, 0, 0, 0, 0, 0]
    + [hlen / 4 * 16, 0x18] + [0, 0, 0, 0, 0, 0]
  }

  function MetaOption(meta: Option<Meta>): Bytes {
    match meta
    case None => []
    case Some(m) => [META_KIND, META_LEN] + MetaData(m)
  }

  function BuiltPacket(e: Endpoints, meta: Option<Meta>, payload: Bytes): Bytes {
    var option := MetaOption(meta);
    IpHeader(e, IP_HLEN + TCP_BASE_HLEN + |option| + |payload|)
    + TcpHeader(e, TCP_BASE_HLEN + |option|) + option + payload
  }

  function Zeros(n: nat): (z: Bytes)
    ensures |z| == n && forall i :: 0 <= i < n ==> z[i] == 0
  {
    seq(n, _ => 0)
  }

  /** Writes a slice of the buffer; everything from the end of `done` on is still zero. */
  method Put(buf: array<byte>, ghost done: Bytes, at: nat, bytes: Bytes) returns (ghost done': Bytes)
    requires |done| <= at && at + |bytes| <= buf.Length
    requires buf[..] == done + Zeros(buf.Length - |done|)
    modifies buf
    ensures done' == done + Zeros(at - |done|) + bytes && buf[..] == done' + Zeros(buf.Length - |done'|)
  {
    for i := 0 to |bytes|
      invariant buf[..at] == old(buf[..at])
      invariant buf[at..at + i] == bytes[..i]
      invariant buf[at + i..] == old(buf[at + i..])
    {
      buf[at + i] := bytes[i];
      assert buf[at..at + i + 1] == buf[at..at + i] + [bytes[i]];
    }
    done' := done + Zeros(at - |done|) + bytes;
    assert old(buf[..at]) == done + Zeros(at - |done|);
    assert old(buf[at + |bytes|..]) == Zeros(buf.Length - |done'|);
    assert buf[..] == buf[..at] + buf[at..at + |bytes|] + buf[at + |bytes|..];
  }

  method PutIpHeader(buf: array<byte>, e: Endpoints, total: nat)
    requires buf.Length == total >= IP_HLEN && buf[..] == Zeros(total)
    modifies buf
    ensures buf[..] == IpHeader(e, total) + Zeros(total - IP_HLEN)
  {
    PutIpHead(buf, total);
    ghost var head := [0x45, 0] + ToBytes(2, total) + [0, 0, 0, 0, 64, 6];
    ghost var done := Put(buf, head, 12, ToBytes(4, e.srcIp));
    done := Put(buf, done, 16, ToBytes(4, e.dstIp));
    assert done == head + Zeros(2) + ToBytes(4, e.srcIp) + ToBytes(4, e.dstIp);
    assert Zeros(2) == [0, 0];
    assert done == IpHeader(e, total);
  }

  /** Version, length, time to live and protocol. */
  method PutIpHead(buf: array<byte>, total: nat)
    requires buf.Length == total >= IP_HLEN && buf[..] == Zeros(total)
    modifies buf
    ensures buf[..] == [0x45, 0] + ToBytes(2, total) + [0, 0, 0, 0, 64, 6] + Zeros(total - 10)
  {
    ghost var done := Put(buf, [], 0, [0x45]);
    done := Put(buf, done, 2, ToBytes(2, total));
    assert done == [0x45, 0] + ToBytes(2, total);
    done := Put(buf, done, 8, [64]);
    done := Put(buf, done, 9, [6]);
    assert done == [0x45, 0] + ToBytes(2, total) + [0, 0, 0, 0, 64, 6];
  }

  method PutTcpHeader(buf: array<byte>, ghost ip: Bytes, e: Endpoints, hlen: nat)
    requires |ip| == IP_HLEN && hlen < 64 && buf.Length >= IP_HLEN + TCP_BASE_HLEN
    requires buf[..] == ip + Zeros(buf.Length - IP_HLEN)
    modifies buf
    ensures buf[..] == ip + TcpHeader(e, hlen) + Zeros(buf.Length - IP_HLEN - TCP_BASE_HLEN)
  {
    var off := IP_HLEN;
    ghost var done := Put(buf, ip, off, ToBytes(2, e.srcPort));
    done := Put(buf, done, off + 2, ToBytes(2, e.dstPort));
    done := Put(buf, done, off + 12, [hlen / 4 * 16]);
    done := Put(buf, done, off + 13, [0x18]);
    assert done + Zeros(6) == ip + TcpHeader(e, hlen);
  }

  method PutOptionHead(buf: array<byte>, ghost done: Bytes, at: nat, flag: byte)
    requires |done| == at && at + META_LEN <= buf.Length && buf[..] == done + Zeros(buf.Length - at)
    modifies buf
    ensures buf[..] == done + [META_KIND, META_LEN, flag, 0] + Zeros(buf.Length - at - 4)
  {
    ghost var d := Put(buf, done, at, [META_KIND]);
    d := Put(buf, d, at + 1, [META_LEN]);
    d := Put(buf, d, at + 2, [flag]);
    d := Put(buf, d, at + 3, [0]);
    assert d == done + [META_KIND, META_LEN, flag, 0];
  }

  method PutOptionBody(buf: array<byte>, ghost head: Bytes, at: nat, session: nat, tree: nat)
    requires |head| == at && at + 12 <= buf.Length && buf[..] == head + Zeros(buf.Length - at)
    modifies buf
    ensures buf[..] == head + ToBytes(8, session) + ToBytes(2, tree) + ToBytes(2, 0) + Zeros(buf.Length - at - 12)
  {
    ghost var d := Put(buf, head, at, ToBytes(8, session));
    assert d == head + ToBytes(8, session);
    d := Put(buf, d, at + 8, ToBytes(2, tree));
    assert d == head + ToBytes(8, session) + ToBytes(2, tree);
    d := Put(buf, d, at + 10, ToBytes(2, 0));
    assert d == head + ToBytes(8, session) + ToBytes(2, tree) + ToBytes(2, 0);
  }

  method PutOption(buf: array<byte>, ghost done: Bytes, at: nat, m: Meta)
    requires |done| == at && at + META_LEN <= buf.Length && buf[..] == done + Zeros(buf.Length - at)
    modifies buf
    ensures buf[..] == done + MetaOption(Some(m)) + Zeros(buf.Length - at - META_LEN)
  {
    var flag: byte, tree := if m.tree.Some? then 1 else 0, if m.tree.Some? then m.tree.value else 0;
    PutOptionHead(buf, done, at, flag);
    PutOptionBody(buf, done + [META_KIND, META_LEN, flag, 0], at + 4, m.session, tree);
    OptionBytes(done, m, flag, tree);
  }

  lemma OptionBytes(done: Bytes, m: Meta, flag: byte, tree: nat)
    requires flag == (if m.tree.Some? then 1 else 0) && tree == if m.tree.Some? then m.tree.value else 0
    ensures done + [META_KIND, META_LEN, flag, 0] + ToBytes(8, m.session) + ToBytes(2, tree) + ToBytes(2, 0)
            == done + MetaOption(Some(m))
  {
    assert ToBytes(1, 0) == [0] && ToBytes(2, 0) == [0, 0];
    var session, id := ToBytes(8, m.session), ToBytes(2, tree);
    assert MetaOption(Some(m)) == [META_KIND, META_LEN] + ([flag, 0] + session + id + [0, 0]);
  }

  /** `build_ipv4_tcp_packet_with_lossless_meta`. */
  method BuildPacket(e: Endpoints, meta: Option<Meta>, payload: Bytes) returns (packet: Bytes)
    ensures packet == BuiltPacket(e, meta, payload)
  {
    var hlen := TCP_BASE_HLEN + if meta.Some? then META_LEN else 0;
    var total := IP_HLEN + hlen + |payload|;
    var buf := new byte[total](_ => 0);
    assert buf[..] == Zeros(total);
    PutIpHeader(buf, e, total);
    PutTcpHeader(buf, IpHeader(e, total), e, hlen);
    ghost var done := IpHeader(e, total) + TcpHeader(e, hlen);
    if meta.Some? {
      PutOption(buf, done, IP_HLEN + TCP_BASE_HLEN, meta.value);
    }
    done := done + MetaOption(meta);
    done := Put(buf, done, IP_HLEN + hlen, payload);
    packet := buf[..];
  }

  // ---------- parsing what was built ----------

  /** The header bytes that the parsers look at. */
  lemma HeaderFields(e: Endpoints, meta: Option<Meta>, payload: Bytes)
    ensures var p := BuiltPacket(e, meta, payload);
            var option := MetaOption(meta);
            && |p| == 40 + |option| + |payload| && p[0] == 0x45 && p[9] == 6
            && p[32] == (20 + |option|) / 4 * 16
            && p[2..4] == ToBytes(2, |p|)
            && p[12..20] == ToBytes(4, e.srcIp) + ToBytes(4, e.dstIp)
            && p[20..24] == ToBytes(2, e.srcPort) + ToBytes(2, e.dstPort)
            && p[40..40 + |option|] == option && p[40 + |option|..] == payload
  {
    var option := MetaOption(meta);
    var total := 40 + |option| + |payload|;
    var ip, tcp := IpHeader(e, total), TcpHeader(e, 20 + |option|);
    var p := BuiltPacket(e, meta, payload);
    assert p[..20] == ip && p[20..40] == tcp;
    SubSlice(p, 0, 20, 2, 4);
    SubSlice(p, 0, 20, 12, 20);
    SubSlice(p, 20, 40, 0, 4);
    IpFields(e, total);
    TcpFields(e, 20 + |option|);
    assert p[0] == ip[0] && p[9] == ip[9] && p[32] == tcp[12];
    assert p[0..20] == ip;
  }

  lemma IpFields(e: Endpoints, total: nat)
    ensures var h := IpHeader(e, total);
            h[0] == 0x45 && h[9] == 6 && h[2..4] == ToBytes(2, total)
            && h[12..20] == ToBytes(4, e.srcIp) + ToBytes(4, e.dstIp)
  {
  }

  lemma TcpFields(e: Endpoints, hlen: nat)
    requires hlen < 64
    ensures var h := TcpHeader(e, hlen);
            h[12] == hlen / 4 * 16 && h[0..4] == ToBytes(2, e.srcPort) + ToBytes(2, e.dstPort)
  {
  }

  /** The payload is parsed back if and only if the packet fits the 16-bit length field. */
  lemma PayloadRoundTrip(e: Endpoints, meta: Option<Meta>, payload: Bytes)
    ensures var p := BuiltPacket(e, meta, payload);
            Payload(p) == Some(payload) <==> |p| < 0x1_0000
  {
    var p := BuiltPacket(e, meta, payload);
    HeaderFields(e, meta, payload);
    LengthField(|p|);
    var start := 40 + |MetaOption(meta)|;
    assert HeaderLength(p[0]) == 20 && 20 + TcpLength(p[32]) == start;
    if |p| < 0x1_0000 {
      assert PayloadBounds(p) == Some((start, |p|));
      assert p[start..|p|] == p[start..];
    } else if PayloadBounds(p).Some? {
      assert PayloadBounds(p) == Some((start, |p| % 0x1_0000));
      assert |p[start..|p| % 0x1_0000]| < |payload|;
    }
  }

  lemma BuiltOptionBounds(e: Endpoints, meta: Option<Meta>, payload: Bytes)
    ensures OptionBounds(BuiltPacket(e, meta, payload)) == Some((40, 40 + |MetaOption(meta)|))
  {
    HeaderFields(e, meta, payload);
  }

  /** Session and tree id are always parsed back. */
  lemma MetaSurvives(e: Endpoints, meta: Option<Meta>, payload: Bytes)
    requires meta.Some? ==> ValidMeta(meta.value)
    ensures MetaOf(BuiltPacket(e, meta, payload)) == meta
  {
    var p, option := BuiltPacket(e, meta, payload), MetaOption(meta);
    HeaderFields(e, meta, payload);
    BuiltOptionBounds(e, meta, payload);
    if meta.Some? {
      MetaRoundTrip(meta.value);
      var o := Tlv(META_KIND, MetaData(meta.value));
      assert EncodeOption(o) == option;
      WalkOne(p, 40, o, 40 + |option|);
    }
  }

  /** The flow id of the packet consists of the endpoints it was built for. */
  lemma FlowIdSurvives(e: Endpoints, meta: Option<Meta>, payload: Bytes)
    requires ValidEndpoints(e)
    ensures FlowIdOf(BuiltPacket(e, meta, payload)) == Pack(Parts(e.srcIp, e.dstIp, e.srcPort, e.dstPort, 0))
  {
    HeaderFields(e, meta, payload);
    AddressBytes(e.srcIp, e.dstIp);
    PortBytes(e.srcPort, e.dstPort);
  }

  lemma AddressBytes(src: nat, dst: nat)
    requires src < TWO32 && dst < TWO32
    ensures FromBytes(ToBytes(4, src) + ToBytes(4, dst)) == src * TWO32 + dst
  {
    FromConcat(ToBytes(4, src), ToBytes(4, dst));
    assert Pow256(2) == TWO16 && Pow256(4) == TWO32;
    NumberRoundTrip(4, src);
    NumberRoundTrip(4, dst);
  }

  lemma PortBytes(src: nat, dst: nat)
    requires src < TWO16 && dst < TWO16
    ensures FromBytes(ToBytes(2, src) + ToBytes(2, dst)) == src * TWO16 + dst
  {
    FromConcat(ToBytes(2, src), ToBytes(2, dst));
    assert Pow256(2) == TWO16;
    NumberRoundTrip(2, src);
    NumberRoundTrip(2, dst);
  }
}
