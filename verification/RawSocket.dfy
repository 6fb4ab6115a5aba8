/** Crafting IP+TCP packets and Ethernet frames, and a receiver written from the RFCs to read them back. */
module RawSocket {
  import opened Bytes
  import opened InternetChecksum
  import opened Wrappers

  datatype ConnInfo = ConnInfo(
    srcIp: seq<byte>, dstIp: seq<byte>,
    srcPort: u16, dstPort: u16,
    seqNo: u32, ackNo: u32,
    hopLimit: byte)
  {
    /** Go's net.IP holds 4 or 16 bytes; both ends of a connection use one family. */
    ghost predicate OneFamily() {
      && (|srcIp| == 4 || |srcIp| == 16) && (|dstIp| == 4 || |dstIp| == 16)
      && (To4(srcIp).Some? <==> To4(dstIp).Some?)
    }

    predicate IsV4() { To4(srcIp).Some? }
  }

  const V4_IN_V6_PREFIX: seq<byte> := [0, 0, 0, 0, 0, 0, 0, 0, 0, 0, 0xFF, 0xFF]

  /** The 4-byte form of an IPv4 address, also when it is stored as ::ffff:a.b.c.d. */
  function To4(ip: seq<byte>): (r: Option<seq<byte>>)
    ensures r.Some? ==> |r.value| == 4
  {
    if |ip| == 4 then Some(ip)
    else if |ip| == 16 && ip[..12] == V4_IN_V6_PREFIX then Some(ip[12..])
    else None
  }

  /** An IPv4 address is recognised in both of its forms, on 4 bytes and on 16, and nothing else is one. */
  lemma To4Forms(ip: seq<byte>, a: byte, b: byte, c: byte, d: byte)
    ensures To4(ip) == Some([a, b, c, d])
            <==> ip == [a, b, c, d] || ip == [0, 0, 0, 0, 0, 0, 0, 0, 0, 0, 0xFF, 0xFF, a, b, c, d]
    ensures To4(ip).None? <==> forall w, x, y, z ::
              ip != [w, x, y, z] && ip != [0, 0, 0, 0, 0, 0, 0, 0, 0, 0, 0xFF, 0xFF, w, x, y, z]
  {
    if To4(ip).Some? {
      var v := To4(ip).value;
      assert v == [v[0], v[1], v[2], v[3]];
      if |ip| == 16 {
        assert ip == ip[..12] + ip[12..];
      }
    }
  }

  // ----- The bytes of a packet -----

  const TCP: byte := 6

  /** The TCP header with a given checksum field. */
  function TcpHeader(conn: ConnInfo, cs: u16): (h: seq<byte>)
    ensures |h| == 20
  {
    Be16(conn.srcPort) + Be16(conn.dstPort) + Be32(conn.seqNo) + Be32(conn.ackNo)
    + [0x50, 0x18] + Be16(502) + Be16(cs) + [0, 0]
  }

  function V4HeaderWith(src: seq<byte>, dst: seq<byte>, ttl: int, segmentLen: nat, order: ByteOrder, cs: u16):
    (h: seq<byte>)
    requires |src| == 4 && |dst| == 4
    ensures |h| == 20
  {
    [0x45, 0] + Put16(order, ToU16(20 + segmentLen)) + Put16(order, 0x1234) + [0, 0]
    + [ToByte(ttl), TCP] + Be16(cs) + src + dst
  }

  function V4Header(src: seq<byte>, dst: seq<byte>, ttl: int, segmentLen: nat, order: ByteOrder): (h: seq<byte>)
    requires |src| == 4 && |dst| == 4
    ensures |h| == 20
  {
    var cs := WrappedChecksum(V4HeaderWith(src, dst, ttl, segmentLen, order, 0));
    V4HeaderWith(src, dst, ttl, segmentLen, order, cs)
  }

  function V6Header(src: seq<byte>, dst: seq<byte>, hopLimit: int, segmentLen: nat): (h: seq<byte>)
    requires |src| == 16 && |dst| == 16
    ensures |h| == 40
  {
    [0x60, 0, 0, 0] + Be16(ToU16(segmentLen)) + [TCP, ToByte(hopLimit)] + src + dst
  }

  function IpHeader(conn: ConnInfo, ttl: int, segmentLen: nat, order: ByteOrder): (h: seq<byte>)
    requires conn.OneFamily()
    ensures |h| == if conn.IsV4() then 20 else 40
  {
    if conn.IsV4() then V4Header(To4(conn.srcIp).value, To4(conn.dstIp).value, ttl, segmentLen, order)
    else V6Header(conn.srcIp, conn.dstIp, ttl, segmentLen)
  }

  function PseudoHeader(conn: ConnInfo, segmentLen: nat): (p: seq<byte>)
    requires conn.OneFamily()
    ensures |p| == if conn.IsV4() then 12 else 40
  {
    if conn.IsV4() then
      To4(conn.srcIp).value + To4(conn.dstIp).value + [0, TCP] + Be16(ToU16(segmentLen))
    else
      conn.srcIp + conn.dstIp + Be32(ToU32(segmentLen)) + [0, 0, 0, TCP]
  }

  function Segment(conn: ConnInfo, payload: seq<byte>): (s: seq<byte>)
    requires conn.OneFamily()
    ensures |s| == 20 + |payload|
  {
    var blank := TcpHeader(conn, 0) + payload;
    TcpHeader(conn, WrappedChecksum(PseudoHeader(conn, |blank|) + blank)) + payload
  }

  function Packet(conn: ConnInfo, payload: seq<byte>, ttl: int, order: ByteOrder): seq<byte>
    requires conn.OneFamily()
  {
    IpHeader(conn, ttl, 20 + |payload|, order) + Segment(conn, payload)
  }

  // ----- The program: buffers filled in place -----

  /** Go's copy(dst[at:], src). */
  method CopyInto(dst: array<byte>, at: nat, src: seq<byte>)
    requires at + |src| <= dst.Length
    modifies dst
    ensures dst[..] == old(dst[..at]) + src + old(dst[at + |src|..])
  {
    forall i | 0 <= i < |src| {
      dst[at + i] := src[i];
    }
  }

  function Zeros(n: nat): (z: seq<byte>)
    ensures |z| == n
  {
    seq(n, _ => 0)
  }

  /** hdr, zero from `at` on, gets its next field. */
  method PutField(hdr: array<byte>, ghost done: seq<byte>, field: seq<byte>, at: nat)
    requires at == |done| && at + |field| <= hdr.Length
    requires hdr[..] == done + Zeros(hdr.Length - at)
    modifies hdr
    ensures hdr[..] == done + field + Zeros(hdr.Length - at - |field|)
  {
    CopyInto(hdr, at, field);
    assert (done + Zeros(hdr.Length - at))[at + |field|..] == Zeros(hdr.Length - at - |field|);
  }

  method BuildTcpHeader(conn: ConnInfo) returns (hdr: array<byte>)
    ensures fresh(hdr) && hdr[..] == TcpHeader(conn, 0)
  {
    hdr := new byte[20](_ => 0);
    ghost var ports := Be16(conn.srcPort) + Be16(conn.dstPort);
    PutField(hdr, [], Be16(conn.srcPort), 0);
    PutField(hdr, Be16(conn.srcPort), Be16(conn.dstPort), 2);
    PutField(hdr, ports, Be32(conn.seqNo), 4);
    PutField(hdr, ports + Be32(conn.seqNo), Be32(conn.ackNo), 8);
    ghost var numbers := ports + Be32(conn.seqNo) + Be32(conn.ackNo);
    hdr[12] := 0x50;
    hdr[13] := 0x18;
    assert hdr[..] == numbers + [0x50, 0x18] + Zeros(6);
    PutField(hdr, numbers + [0x50, 0x18], Be16(502), 14);
    assert Zeros(4) == Be16(0) + [0, 0];
    assert TcpHeader(conn, 0) == numbers + [0x50, 0x18] + Be16(502) + (Be16(0) + [0, 0]);
  }

  lemma V4HeaderAround(src: seq<byte>, dst: seq<byte>, ttl: int, segmentLen: nat, order: ByteOrder, cs: u16)
    requires |src| == 4 && |dst| == 4
    ensures V4HeaderWith(src, dst, ttl, segmentLen, order, cs)
            == V4HeaderWith(src, dst, ttl, segmentLen, order, 0)[..10] + Be16(cs) + (src + dst)
  {
  }

  method BuildV4Header(src: seq<byte>, dst: seq<byte>, ttl: int, segmentLen: nat, order: ByteOrder)
    returns (hdr: array<byte>)
    requires |src| == 4 && |dst| == 4
    ensures fresh(hdr) && hdr[..] == V4Header(src, dst, ttl, segmentLen, order)
  {
    hdr := new byte[20](_ => 0);
    FillV4Fields(hdr, src, dst, ttl, segmentLen, order);
    var cs := Checksum(hdr[..]);
    V4HeaderAround(src, dst, ttl, segmentLen, order, 0);
    V4HeaderAround(src, dst, ttl, segmentLen, order, cs);
    FillV4Checksum(hdr, hdr[..10], src + dst, cs);
  }

  /** All the fields of an IPv4 header but the checksum. */
  method FillV4Fields(hdr: array<byte>, src: seq<byte>, dst: seq<byte>, ttl: int, segmentLen: nat, order: ByteOrder)
    requires |src| == 4 && |dst| == 4 && hdr.Length == 20 && hdr[..] == Zeros(20)
    modifies hdr
    ensures hdr[..] == V4HeaderWith(src, dst, ttl, segmentLen, order, 0)
  {
    var len, id := Put16(order, ToU16(20 + segmentLen)), Put16(order, 0x1234);
    hdr[0] := 0x45;
    assert hdr[..] == [0x45, 0] + Zeros(18);
    PutField(hdr, [0x45, 0], len, 2);
    PutField(hdr, [0x45, 0] + len, id, 4);
    hdr[8] := ToByte(ttl);
    hdr[9] := TCP;
    ghost var done := [0x45, 0] + len + id + [0, 0] + [ToByte(ttl), TCP] + Be16(0);
    assert hdr[..] == done + Zeros(8);
    PutField(hdr, done, src, 12);
    PutField(hdr, done + src, dst, 16);
    assert Zeros(0) == [];
  }

  /** Writes the checksum into an IPv4 header. */
  method FillV4Checksum(hdr: array<byte>, ghost pre: seq<byte>, ghost post: seq<byte>, cs: u16)
    requires |pre| == 10 && hdr[..] == pre + Be16(0) + post
    modifies hdr
    ensures hdr[..] == pre + Be16(cs) + post
  {
    hdr[10] := cs / 0x100;
    hdr[11] := cs % 0x100;
  }

  method BuildV6Header(src: seq<byte>, dst: seq<byte>, hopLimit: int, segmentLen: nat) returns (hdr: array<byte>)
    requires |src| == 16 && |dst| == 16
    ensures fresh(hdr) && hdr[..] == V6Header(src, dst, hopLimit, segmentLen)
  {
    hdr := new byte[40](_ => 0);
    hdr[0] := 0x60;
    assert hdr[..] == [0x60, 0, 0, 0] + Zeros(36);
    PutField(hdr, [0x60, 0, 0, 0], Be16(ToU16(segmentLen)), 4);
    ghost var start := [0x60, 0, 0, 0] + Be16(ToU16(segmentLen)) + [TCP, ToByte(hopLimit)];
    hdr[6] := TCP;
    hdr[7] := ToByte(hopLimit);
    assert hdr[..] == start + Zeros(32);
    PutField(hdr, start, src, 8);
    PutField(hdr, start + src, dst, 24);
  }

  /** A complete IP+TCP packet; the IP version follows the source address. */
  method BuildPacket(conn: ConnInfo, payload: seq<byte>, ttl: int, order: ByteOrder) returns (pkt: array<byte>)
    requires conn.OneFamily()
    ensures fresh(pkt) && pkt[..] == Packet(conn, payload, ttl, order)
  {
    var tcpHdr := BuildTcpHeader(conn);
    var segment := tcpHdr[..] + payload;
    var ipHdr: array<byte>;
    var src4 := To4(conn.srcIp);
    if src4.Some? {
      ipHdr := BuildV4Header(src4.value, To4(conn.dstIp).value, ttl, |segment|, order);
    } else {
      ipHdr := BuildV6Header(conn.srcIp, conn.dstIp, ttl, |segment|);
    }
    assert ipHdr[..] == IpHeader(conn, ttl, |segment|, order);
    var bytes := ipHdr[..] + segment;
    pkt := new byte[|bytes|](i requires 0 <= i < |bytes| => bytes[i]);
    assert pkt[..] == bytes;
    var cs := Checksum(PseudoHeader(conn, |segment|) + segment);
    FillTcpChecksum(pkt, IpHeader(conn, ttl, |segment|, order), conn, payload, cs);
  }

  /** Writes the checksum into the TCP header that follows the IP header. */
  method FillTcpChecksum(pkt: array<byte>, ipHdr: seq<byte>, conn: ConnInfo, payload: seq<byte>, cs: u16)
    requires pkt[..] == ipHdr + (TcpHeader(conn, 0) + payload)
    modifies pkt
    ensures pkt[..] == ipHdr + (TcpHeader(conn, cs) + payload)
  {
    var at := |ipHdr| + 16;
    ghost var pre, post := TcpHeader(conn, 0)[..16], [0, 0] + payload;
    assert pkt[..] == ipHdr + pre + Be16(0) + post;
    pkt[at] := cs / 0x100;
    pkt[at + 1] := cs % 0x100;
    assert pkt[..] == ipHdr + pre + Be16(cs) + post;
    assert TcpHeader(conn, cs) == pre + Be16(cs) + [0, 0];
  }

  const ETHER_HEADER_LEN := 14

  /** The first n bytes of src, padded with zeros: what copy leaves in a zeroed field. */
  function Fit(src: seq<byte>, n: nat): (r: seq<byte>)
    ensures |r| == n
    ensures |src| == n ==> r == src
    ensures forall i :: 0 <= i < n ==> r[i] == if i < |src| then src[i] else 0
  {
    if n <= |src| then src[..n] else src + seq(n - |src|, _ => 0)
  }

  function EtherType(ipPacket: seq<byte>): u16 {
    if |ipPacket| > 0 && ipPacket[0] / 0x10 == 6 then 0x86DD else 0x0800
  }

  /** The bytes of an Ethernet frame. */
  function Frame(srcMac: seq<byte>, dstMac: seq<byte>, ipPacket: seq<byte>): seq<byte> {
    Fit(dstMac, 6) + Fit(srcMac, 6) + Be16(EtherType(ipPacket)) + ipPacket
  }

  method BuildEthernetFrame(srcMac: seq<byte>, dstMac: seq<byte>, ipPacket: seq<byte>) returns (frame: array<byte>)
    ensures fresh(frame)
    ensures frame[..] == Frame(srcMac, dstMac, ipPacket)
  {
    frame := new byte[ETHER_HEADER_LEN + |ipPacket|](_ => 0);
    PutCopy(frame, [], dstMac, 0, 6);
    PutCopy(frame, Fit(dstMac, 6), srcMac, 6, 6);
    ghost var macs := Fit(dstMac, 6) + Fit(srcMac, 6);
    var etherType: u16 := 0x0800;
    if |ipPacket| > 0 && ipPacket[0] / 0x10 == 6 {
      etherType := 0x86DD;
    }
    PutField(frame, macs, Be16(etherType), 12);
    PutField(frame, macs + Be16(etherType), ipPacket, ETHER_HEADER_LEN);
    assert Zeros(0) == [];
  }

  /** copy(hdr[at:at+n], src) into a field that is still zero. */
  method PutCopy(hdr: array<byte>, ghost done: seq<byte>, src: seq<byte>, at: nat, n: nat)
    requires at == |done| && at + n <= hdr.Length
    requires hdr[..] == done + Zeros(hdr.Length - at)
    modifies hdr
    ensures hdr[..] == done + Fit(src, n) + Zeros(hdr.Length - at - n)
  {
    var part := if |src| <= n then src else src[..n];
    PutField(hdr, done, part, at);
    assert done + part + Zeros(hdr.Length - at - |part|) == done + Fit(src, n) + Zeros(hdr.Length - at - n);
  }

  // ----- A receiver, section 3.1 of RFC 791, section 3 of RFC 8200, section 3.1 of RFC 9293 -----

  /** What an IP header says besides its lengths: the type of service or traffic class, the identification or flow
      label, and the flags that forbid fragmentation, which IPv6 does not have. */
  datatype IpFields = IpFields(
    v6: bool, service: byte, ident: u32, flags: byte, ttl: byte, src: seq<byte>, dst: seq<byte>)

  datatype Received = Received(
    ip: IpFields, srcPort: u16, dstPort: u16, seqNo: u32, ackNo: u32,
    reserved: byte, flags: byte, window: u16, urgent: u16, payload: seq<byte>)

  const PSH_ACK: byte := 0x18

  /** Accepts only complete packets whose version, lengths, protocol and checksums are right. `order` is the
      byte order in which the platform expects the IPv4 total length and identification. */
  function Receive(pkt: seq<byte>, order: ByteOrder): Option<Received> {
    if |pkt| < 20 then None
    else if pkt[0] / 0x10 == 4 then
      var headerLen := pkt[0] % 0x10 * 4;
      if headerLen < 20 || |pkt| < headerLen || Get16(order, pkt[2..4]) != |pkt| then None
      else if pkt[9] != 6 || ChecksumOf(pkt[..headerLen]) != 0 || |pkt| - headerLen > 0xFFFF then None
      else if IsFragment(pkt) then None
      else
        var segment := pkt[headerLen..];
        ReceiveTcp(V4Fields(pkt, order), pkt[12..20] + [0, pkt[9]] + Be16(|segment|), segment)
    else if pkt[0] / 0x10 == 6 then
      if |pkt| < 40 || Load16(pkt, 4) != |pkt| - 40 || pkt[6] != 6 then None
      else
        var segment := pkt[40..];
        ReceiveTcp(V6Fields(pkt), pkt[8..40] + Be32(|segment|) + [0, 0, 0, pkt[6]], segment)
    else None
  }

  /** More fragments follow or the offset is not zero: held for reassembly, not handed on. */
  predicate IsFragment(pkt: seq<byte>)
    requires |pkt| >= 20
  {
    pkt[6] % 0x40 != 0 || pkt[7] != 0
  }

  function V4Fields(pkt: seq<byte>, order: ByteOrder): IpFields
    requires |pkt| >= 20
  {
    IpFields(false, pkt[1], Get16(order, pkt[4..6]), pkt[6] / 0x40, pkt[8], pkt[12..16], pkt[16..20])
  }

  function V6Fields(pkt: seq<byte>): IpFields
    requires |pkt| >= 40
  {
    IpFields(true, pkt[0] % 0x10 * 0x10 + pkt[1] / 0x10, pkt[1] % 0x10 * 0x1_0000 + Load16(pkt, 2), 0, pkt[7],
             pkt[8..24], pkt[24..40])
  }

  function ReceiveTcp(ip: IpFields, pseudo: seq<byte>, segment: seq<byte>): Option<Received> {
    if |segment| < 20 then None
    else
      var dataOffset := segment[12] / 0x10 * 4;
      if dataOffset < 20 || |segment| < dataOffset || ChecksumOf(pseudo + segment) != 0 then None
      else
        Some(Received(ip, Load16(segment, 0), Load16(segment, 2), Load32(segment, 4), Load32(segment, 8),
                      segment[12] % 0x10, segment[13], Load16(segment, 14), Load16(segment, 18),
                      segment[dataOffset..]))
  }

  /** What a receiver should get out of a packet built for conn. */
  function Expected(conn: ConnInfo, payload: seq<byte>, ttl: int): Received
    requires conn.OneFamily()
  {
    ExpectedTcp(conn, payload, ExpectedIp(conn, ttl))
  }

  function ExpectedIp(conn: ConnInfo, ttl: int): IpFields
    requires conn.OneFamily()
  {
    if conn.IsV4() then
      IpFields(false, 0, 0x1234, 0, ToByte(ttl), To4(conn.srcIp).value, To4(conn.dstIp).value)
    else
      IpFields(true, 0, 0, 0, ToByte(ttl), conn.srcIp, conn.dstIp)
  }

  function ExpectedTcp(conn: ConnInfo, payload: seq<byte>, ip: IpFields): Received {
    Received(ip, conn.srcPort, conn.dstPort, conn.seqNo, conn.ackNo, 0, PSH_ACK, 502, 0, payload)
  }

  /** The 16-bit length field of the IP header can hold the length of the packet. */
  predicate Fits(conn: ConnInfo, payload: seq<byte>) {
    if conn.IsV4() then 40 + |payload| <= 0xFFFF else 20 + |payload| <= 0xFFFF
  }

  // ----- Checksums of built packets -----

  /** The IPv4 header sums to zero, under either byte order of the length field. */
  lemma V4HeaderVerifies(src: seq<byte>, dst: seq<byte>, ttl: int, segmentLen: nat, order: ByteOrder)
    requires |src| == 4 && |dst| == 4
    ensures ChecksumOf(V4Header(src, dst, ttl, segmentLen, order)) == 0
  {
    var blank := V4HeaderWith(src, dst, ttl, segmentLen, order, 0);
    var pre, post := blank[..10], src + dst;
    NoWrap(blank);
    assert blank == pre + [0, 0] + post;
    assert V4Header(src, dst, ttl, segmentLen, order) == pre + Be16(ChecksumOf(blank)) + post;
    FillVerifies(pre, post);
  }

  /** Pseudo-header and segment together sum to zero, in both families and for odd payloads too. */
  lemma SegmentVerifies(conn: ConnInfo, payload: seq<byte>)
    requires conn.OneFamily() && Fits(conn, payload)
    ensures ChecksumOf(PseudoHeader(conn, 20 + |payload|) + Segment(conn, payload)) == 0
  {
    var pseudo := PseudoHeader(conn, 20 + |payload|);
    var blank := TcpHeader(conn, 0) + payload;
    var pre, post := pseudo + TcpHeader(conn, 0)[..16], [0, 0] + payload;
    NoWrap(pseudo + blank);
    assert pseudo + blank == pre + [0, 0] + post;
    var cs := ChecksumOf(pseudo + blank);
    assert pseudo + Segment(conn, payload) == pre + Be16(cs) + post;
    FillVerifies(pre, post);
  }

  lemma SegmentFields(conn: ConnInfo, payload: seq<byte>)
    requires conn.OneFamily()
    ensures var s := Segment(conn, payload);
            && Load16(s, 0) == conn.srcPort && Load16(s, 2) == conn.dstPort
            && Load32(s, 4) == conn.seqNo && Load32(s, 8) == conn.ackNo
            && s[12] == 0x50 && s[13] == PSH_ACK && Load16(s, 14) == 502 && Load16(s, 18) == 0 && s[20..] == payload
  {
    Be32Load(conn.seqNo);
    Be32Load(conn.ackNo);
  }

  lemma ReceiveTcpSegment(conn: ConnInfo, payload: seq<byte>, ip: IpFields)
    requires conn.OneFamily() && Fits(conn, payload)
    ensures ReceiveTcp(ip, PseudoHeader(conn, 20 + |payload|), Segment(conn, payload))
            == Some(ExpectedTcp(conn, payload, ip))
  {
    SegmentVerifies(conn, payload);
    SegmentFields(conn, payload);
  }

  lemma V4HeaderBytes(src: seq<byte>, dst: seq<byte>, ttl: int, segmentLen: nat, order: ByteOrder, cs: u16)
    requires |src| == 4 && |dst| == 4
    ensures var h := V4HeaderWith(src, dst, ttl, segmentLen, order, cs);
            && h[0] == 0x45 && h[1] == 0 && h[6] == 0 && h[7] == 0 && h[8] == ToByte(ttl) && h[9] == TCP
            && h[2..4] == Put16(order, ToU16(20 + segmentLen)) && h[4..6] == Put16(order, 0x1234)
            && h[12..16] == src && h[16..20] == dst
  {
    var len, id := Put16(order, ToU16(20 + segmentLen)), Put16(order, 0x1234);
    var h, tail := V4HeaderWith(src, dst, ttl, segmentLen, order, cs), [ToByte(ttl), TCP] + Be16(cs) + src + dst;
    assert h == [0x45, 0, len[0], len[1], id[0], id[1], 0, 0] + tail;
    assert tail[4..8] == src && tail[8..12] == dst;
    assert h[12..16] == tail[4..8] && h[16..20] == tail[8..12];
  }

  lemma V4HeaderFields(conn: ConnInfo, ttl: int, segmentLen: nat, order: ByteOrder)
    requires conn.OneFamily() && conn.IsV4()
    ensures var h := IpHeader(conn, ttl, segmentLen, order);
            && |h| == 20 && h[0] == 0x45 && h[9] == TCP && ChecksumOf(h) == 0 && !IsFragment(h)
            && Get16(order, h[2..4]) == ToU16(20 + segmentLen)
            && V4Fields(h, order) == ExpectedIp(conn, ttl)
  {
    var src, dst := To4(conn.srcIp).value, To4(conn.dstIp).value;
    var blank := V4HeaderWith(src, dst, ttl, segmentLen, order, 0);
    V4HeaderBytes(src, dst, ttl, segmentLen, order, WrappedChecksum(blank));
    Get16Put16(order, ToU16(20 + segmentLen));
    Get16Put16(order, 0x1234);
    V4HeaderVerifies(src, dst, ttl, segmentLen, order);
  }

  /** The version, length and protocol fields of the packet lead a receiver to its TCP part. */
  lemma ReceiveV4Header(header: seq<byte>, segment: seq<byte>, order: ByteOrder, pseudo: seq<byte>)
    requires |header| == 20 && header[0] == 0x45 && header[9] == TCP
    requires ChecksumOf(header) == 0 && !IsFragment(header)
    requires Get16(order, header[2..4]) == ToU16(20 + |segment|)
    requires |segment| <= 0xFFFF ==> pseudo == header[12..16] + header[16..20] + [0, TCP] + Be16(|segment|)
    ensures Receive(header + segment, order)
            == if 20 + |segment| > 0xFFFF then None
               else ReceiveTcp(V4Fields(header, order), pseudo, segment)
  {
    var pkt := header + segment;
    assert pkt[..20] == header && pkt[20..] == segment;
    assert pkt[2..4] == header[2..4] && pkt[4..6] == header[4..6];
    assert pkt[12..16] == header[12..16] && pkt[16..20] == header[16..20];
    assert pkt[12..20] == header[12..16] + header[16..20];
    assert V4Fields(pkt, order) == V4Fields(header, order);
  }

  lemma V4Pseudo(conn: ConnInfo, len: nat)
    requires conn.OneFamily() && conn.IsV4() && len <= 0xFFFF
    ensures PseudoHeader(conn, len) == To4(conn.srcIp).value + To4(conn.dstIp).value + [0, TCP] + Be16(len)
  {
  }

  lemma V6HeaderFields(conn: ConnInfo, ttl: int, segmentLen: nat, order: ByteOrder)
    requires conn.OneFamily() && !conn.IsV4()
    ensures var h := IpHeader(conn, ttl, segmentLen, order);
            && |h| == 40 && h[0] == 0x60 && Load16(h, 4) == ToU16(segmentLen) && h[6] == TCP
            && V6Fields(h) == ExpectedIp(conn, ttl)
  {
    var h := IpHeader(conn, ttl, segmentLen, order);
    assert h[8..24] == conn.srcIp && h[24..40] == conn.dstIp;
    assert h[1] == 0 && h[2] == 0 && h[3] == 0;
  }

  lemma ReceiveV6Header(header: seq<byte>, segment: seq<byte>, order: ByteOrder, pseudo: seq<byte>)
    requires |header| == 40 && header[0] == 0x60 && header[6] == TCP
    requires Load16(header, 4) == ToU16(|segment|)
    requires |segment| <= 0xFFFF ==> pseudo == header[8..24] + header[24..40] + Be32(|segment|) + [0, 0, 0, TCP]
    ensures Receive(header + segment, order)
            == if |segment| > 0xFFFF then None
               else ReceiveTcp(V6Fields(header), pseudo, segment)
  {
    var pkt := header + segment;
    assert pkt[40..] == segment && Load16(pkt, 4) == Load16(header, 4) && Load16(pkt, 2) == Load16(header, 2);
    assert pkt[8..24] == header[8..24] && pkt[24..40] == header[24..40];
    assert pkt[8..40] == header[8..24] + header[24..40];
  }

  lemma V6Pseudo(conn: ConnInfo, len: nat)
    requires conn.OneFamily() && !conn.IsV4() && len <= 0xFFFF
    ensures PseudoHeader(conn, len) == conn.srcIp + conn.dstIp + Be32(len) + [0, 0, 0, TCP]
  {
  }

  /** Behind a built IP header, the fate of any segment is decided by its TCP part. */
  lemma ReceiveBehindHeader(conn: ConnInfo, payload: seq<byte>, ttl: int, order: ByteOrder, segment: seq<byte>)
    requires conn.OneFamily() && Fits(conn, payload) && |segment| == 20 + |payload|
    ensures Receive(IpHeader(conn, ttl, 20 + |payload|, order) + segment, order)
            == ReceiveTcp(ExpectedIp(conn, ttl), PseudoHeader(conn, 20 + |payload|), segment)
  {
    var header, pseudo := IpHeader(conn, ttl, 20 + |payload|, order), PseudoHeader(conn, 20 + |payload|);
    if conn.IsV4() {
      V4HeaderFields(conn, ttl, 20 + |payload|, order);
      V4Pseudo(conn, 20 + |payload|);
      ReceiveV4Header(header, segment, order, pseudo);
    } else {
      V6HeaderFields(conn, ttl, 20 + |payload|, order);
      V6Pseudo(conn, 20 + |payload|);
      ReceiveV6Header(header, segment, order, pseudo);
    }
  }

  lemma ReceiveTooLong(header: seq<byte>, segment: seq<byte>, order: ByteOrder)
    requires (|header| == 20 && header[0] == 0x45) || (|header| == 40 && header[0] == 0x60)
    requires |segment| > 0xFFFF || (header[0] == 0x45 && 20 + |segment| > 0xFFFF)
    ensures Receive(header + segment, order) == None
  {
    assert (header + segment)[0] == header[0];
  }

  /** A receiver gets back exactly what the packet was built from, and gets nothing
      at all when the packet is too long for its length field. */
  lemma BuildThenReceive(conn: ConnInfo, payload: seq<byte>, ttl: int, order: ByteOrder)
    requires conn.OneFamily()
    ensures Receive(Packet(conn, payload, ttl, order), order)
            == if Fits(conn, payload) then Some(Expected(conn, payload, ttl)) else None
  {
    var segment := Segment(conn, payload);
    if Fits(conn, payload) {
      ReceiveBehindHeader(conn, payload, ttl, order, segment);
      ReceiveTcpSegment(conn, payload, ExpectedIp(conn, ttl));
    } else {
      var header := IpHeader(conn, ttl, |segment|, order);
      assert header[0] == if conn.IsV4() then 0x45 else 0x60;
      ReceiveTooLong(header, segment, order);
    }
  }

  /** Stripping the Ethernet header gives back the addresses, cut or padded to 6 bytes, the matching EtherType and
      the packet. */
  lemma FrameThenReceive(srcMac: seq<byte>, dstMac: seq<byte>, conn: ConnInfo, payload: seq<byte>,
                         ttl: int, order: ByteOrder)
    requires conn.OneFamily()
    ensures var pkt := Packet(conn, payload, ttl, order);
            var frame := Frame(srcMac, dstMac, pkt);
            && frame[..6] == Fit(dstMac, 6) && frame[6..12] == Fit(srcMac, 6)
            && Load16(frame, 12) == (if conn.IsV4() then 0x0800 else 0x86DD)
            && Receive(frame[14..], order) == if Fits(conn, payload) then Some(Expected(conn, payload, ttl)) else None
  {
    var pkt := Packet(conn, payload, ttl, order);
    var header := IpHeader(conn, ttl, 20 + |payload|, order);
    assert pkt[0] == header[0] == (if conn.IsV4() then 0x45 else 0x60);
    FrameFields(srcMac, dstMac, pkt);
    BuildThenReceive(conn, payload, ttl, order);
  }

  lemma FrameFields(srcMac: seq<byte>, dstMac: seq<byte>, pkt: seq<byte>)
    ensures var frame := Frame(srcMac, dstMac, pkt);
            && frame[..6] == Fit(dstMac, 6) && frame[6..12] == Fit(srcMac, 6)
            && Load16(frame, 12) == EtherType(pkt) && frame[14..] == pkt
  {
  }

  // ----- Corruption on the way -----

  lemma PseudoHeaderNonzero(conn: ConnInfo, len: nat)
    requires conn.OneFamily()
    ensures WordSum(PseudoHeader(conn, len)) > 0
  {
    var p := PseudoHeader(conn, len);
    var k := if conn.IsV4() then 4 else 19;
    assert p[2 * k + 1] == TCP;
    WordsAtMostSum(p, k);
  }

  /** A changed word of a segment that verified is noticed, in the context of its pseudo-header. */
  lemma SegmentWordDetection(pseudo: seq<byte>, segment: seq<byte>, changed: seq<byte>, k: nat)
    requires |pseudo| % 2 == 0 && WordSum(pseudo) > 0 && ChecksumOf(pseudo + segment) == 0
    requires DiffersOnlyAt(segment, changed, k) && segment != changed
    ensures ChecksumOf(pseudo + changed) != 0 <==> !SameZero(Word(segment, k), Word(changed, k))
  {
    var a, b, j := pseudo + segment, pseudo + changed, |pseudo| / 2 + k;
    forall i | 0 <= i < |a| && i / 2 != j
      ensures a[i] == b[i]
    {
      if i >= |pseudo| {
        assert (i - |pseudo|) / 2 != k;
      }
    }
    assert Word(a, j) == Word(segment, k) && Word(b, j) == Word(changed, k);
    WordSumConcat(pseudo, segment);
    WordsAtMostSum(segment, k);
    WordTellsBytes(segment, changed, k);
    SingleWordDetection(a, b, j);
  }

  /** 0x0000 and 0xFFFF, the two encodings of zero, stand for each other. */
  predicate SameZero(v: u16, w: u16) {
    (v == 0 && w == 0xFFFF) || (v == 0xFFFF && w == 0)
  }

  lemma WordTellsBytes(a: seq<byte>, b: seq<byte>, k: nat)
    requires DiffersOnlyAt(a, b, k) && a != b
    ensures Word(a, k) != Word(b, k)
  {
    if Word(a, k) == Word(b, k) {
      forall i | 0 <= i < |a|
        ensures a[i] == b[i]
      {
        assert a[2 * k] == b[2 * k];
      }
    }
  }

  /** Overwriting any one aligned word of the segment of a built packet makes a receiver drop it,
      except when the word changes between the two encodings of zero, and then it is not dropped. */
  lemma ChangedWordIsDropped(conn: ConnInfo, payload: seq<byte>, ttl: int, order: ByteOrder, changed: seq<byte>, k: nat)
    requires conn.OneFamily() && Fits(conn, payload)
    requires DiffersOnlyAt(Segment(conn, payload), changed, k) && changed != Segment(conn, payload)
    ensures Receive(IpHeader(conn, ttl, 20 + |payload|, order) + changed, order) == None
            <==> !SameZero(Word(Segment(conn, payload), k), Word(changed, k))
  {
    var segment, pseudo := Segment(conn, payload), PseudoHeader(conn, 20 + |payload|);
    SegmentVerifies(conn, payload);
    PseudoHeaderNonzero(conn, 20 + |payload|);
    SegmentWordDetection(pseudo, segment, changed, k);
    ReceiveBehindHeader(conn, payload, ttl, order, changed);
    SegmentFields(conn, payload);
    assert Word(segment, 6) / 0x1000 == 5;
    if k != 6 {
      assert changed[12] == segment[12];
    }
    ReceiveTcpDecides(ExpectedIp(conn, ttl), pseudo, changed);
  }

  /** With a 20-byte TCP header only the checksum decides; a failing checksum always does. */
  lemma ReceiveTcpDecides(ip: IpFields, pseudo: seq<byte>, segment: seq<byte>)
    requires |segment| >= 20
    ensures ChecksumOf(pseudo + segment) != 0 ==> ReceiveTcp(ip, pseudo, segment) == None
    ensures segment[12] == 0x50 && ChecksumOf(pseudo + segment) == 0
            ==> ReceiveTcp(ip, pseudo, segment).Some?
  {
  }
}
