/** Userspace of the Linux engine: filling the program's maps, reading its events, injecting the fake. */
module PerfEvents {
  import opened Bytes
  import opened Wrappers
  import opened RawSocket
  import opened SockOps
  import ClientHello

  // ----- struct conn_event as 20 bytes in the machine's byte order -----

  function EventBytes(order: ByteOrder, e: ConnEvent): (b: seq<byte>)
    ensures |b| == 20
  {
    Put32(order, e.srcIp) + Put32(order, e.dstIp) + Put16(order, e.srcPort) + Put16(order, e.dstPort)
    + Put32(order, e.seqNo) + Put32(order, e.ackNo)
  }

  /** Samples shorter than the struct are skipped; longer ones carry padding. */
  function DecodeSample(order: ByteOrder, sample: seq<byte>): Option<ConnEvent> {
    if |sample| < 20 then None
    else Some(ConnEvent(Get32(order, sample[0..4]), Get32(order, sample[4..8]),
                        Get16(order, sample[8..10]), Get16(order, sample[10..12]),
                        Get32(order, sample[12..16]), Get32(order, sample[16..20])))
  }

  lemma EventSlices(order: ByteOrder, e: ConnEvent, padding: seq<byte>)
    ensures var s := EventBytes(order, e) + padding;
            && s[0..4] == Put32(order, e.srcIp) && s[4..8] == Put32(order, e.dstIp)
            && s[8..10] == Put16(order, e.srcPort) && s[10..12] == Put16(order, e.dstPort)
            && s[12..16] == Put32(order, e.seqNo) && s[16..20] == Put32(order, e.ackNo)
  {
  }

  /** Reading back what the kernel side wrote, whatever padding follows. */
  lemma DecodeUndoesEncode(order: ByteOrder, e: ConnEvent, padding: seq<byte>)
    ensures DecodeSample(order, EventBytes(order, e) + padding) == Some(e)
  {
    EventSlices(order, e, padding);
    Get32Put32(order, e.srcIp);
    Get32Put32(order, e.dstIp);
    Get16Put16(order, e.srcPort);
    Get16Put16(order, e.dstPort);
    Get32Put32(order, e.seqNo);
    Get32Put32(order, e.ackNo);
  }

  /** uint32ToIP: the bytes of n as they lie in memory. */
  function Uint32ToIp(order: ByteOrder, n: u32): seq<byte> {
    Put32(order, n)
  }

  function ConnInfoOf(order: ByteOrder, e: ConnEvent): (conn: ConnInfo)
    ensures conn.OneFamily() && conn.IsV4()
  {
    ConnInfo(Uint32ToIp(order, e.srcIp), Uint32ToIp(order, e.dstIp), e.srcPort, e.dstPort, e.seqNo, e.ackNo, 0)
  }

  /** What goes out for one event: one packet, or nothing if the send fails. */
  function FakeFor(order: ByteOrder, e: ConnEvent, fake: seq<byte>, ttl: int, ok: bool): seq<seq<byte>> {
    if ok then [Packet(ConnInfoOf(order, e), fake, ttl, BigEndian)] else []
  }

  method InjectFake(order: ByteOrder, evt: ConnEvent, fake: seq<byte>, ttl: int, ok: bool)
    returns (sent: seq<seq<byte>>)
    ensures sent == FakeFor(order, evt, fake, ttl, ok)
  {
    var pkt := BuildPacket(ConnInfoOf(order, evt), fake, ttl, BigEndian);
    sent := if ok then [pkt[..]] else [];
  }

  /** The packets sent for a series of samples: each readable one gives one fake, unless its send fails. */
  function FakesFor(order: ByteOrder, samples: seq<seq<byte>>, fake: seq<byte>, ttl: int,
                    sendOk: nat -> bool): seq<seq<byte>>
  {
    if samples == [] then []
    else
      var last := |samples| - 1;
      var front := FakesFor(order, samples[..last], fake, ttl, sendOk);
      match DecodeSample(order, samples[last])
      case None => front
      case Some(e) => front + FakeFor(order, e, fake, ttl, sendOk(last))
  }

  lemma {:induction false} FakesForSnoc(order: ByteOrder, samples: seq<seq<byte>>, i: nat, fake: seq<byte>, ttl: int,
                                        sendOk: nat -> bool)
    requires i < |samples|
    ensures FakesFor(order, samples[..i + 1], fake, ttl, sendOk)
            == FakesFor(order, samples[..i], fake, ttl, sendOk)
               + match DecodeSample(order, samples[i])
                 case None => []
                 case Some(e) => FakeFor(order, e, fake, ttl, sendOk(i))
  {
    assert samples[..i + 1][..i] == samples[..i];
  }

  /** The reader loop over the samples that arrive; a send is an append to `sent`, a failing one is passed over. */
  method ReadEvents(order: ByteOrder, samples: seq<seq<byte>>, fake: seq<byte>, ttl: int, sendOk: nat -> bool)
    returns (sent: seq<seq<byte>>)
    ensures sent == FakesFor(order, samples, fake, ttl, sendOk)
  {
    sent := [];
    var i := 0;
    while i < |samples|
      invariant 0 <= i <= |samples|
      invariant sent == FakesFor(order, samples[..i], fake, ttl, sendOk)
    {
      FakesForSnoc(order, samples, i, fake, ttl, sendOk);
      var evt := DecodeSample(order, samples[i]);
      if evt.Some? {
        var more := InjectFake(order, evt.value, fake, ttl, sendOk(i));
        sent := sent + more;
      }
      i := i + 1;
    }
    assert samples[..i] == samples;
  }

  /** The samples of a series of events, as the reader decodes them. */
  predicate Carries(order: ByteOrder, samples: seq<seq<byte>>, events: seq<ConnEvent>) {
    |samples| == |events| && forall i :: 0 <= i < |samples| ==> DecodeSample(order, samples[i]) == Some(events[i])
  }

  /** One packet for each event, in order. */
  function FakesOf(order: ByteOrder, events: seq<ConnEvent>, fake: seq<byte>, ttl: int): seq<seq<byte>> {
    if events == [] then []
    else
      var n := |events| - 1;
      FakesOf(order, events[..n], fake, ttl) + FakeFor(order, events[n], fake, ttl, true)
  }

  lemma SampleDecodes(order: ByteOrder, e: ConnEvent, sample: seq<byte>)
    requires EventBytes(order, e) <= sample
    ensures DecodeSample(order, sample) == Some(e)
  {
    DecodeUndoesEncode(order, e, sample[20..]);
    assert sample == EventBytes(order, e) + sample[20..];
  }

  /** Every event leads to one fake of its own, in order. */
  lemma {:induction false} DecodedGetFakes(order: ByteOrder, samples: seq<seq<byte>>, events: seq<ConnEvent>,
                                          fake: seq<byte>, ttl: int, sendOk: nat -> bool)
    requires Carries(order, samples, events) && forall n :: sendOk(n)
    ensures FakesFor(order, samples, fake, ttl, sendOk) == FakesOf(order, events, fake, ttl)
  {
    if samples != [] {
      var n := |samples| - 1;
      DecodedGetFakes(order, samples[..n], events[..n], fake, ttl, sendOk);
      FakesForSnoc(order, samples, n, fake, ttl, sendOk);
      assert samples[..n + 1] == samples;
    }
  }

  /** Every event the kernel wrote leads to one fake of its own, in order, whatever padding the samples have. */
  lemma EveryEventGetsFake(order: ByteOrder, samples: seq<seq<byte>>, events: seq<ConnEvent>, fake: seq<byte>, ttl: int,
                           sendOk: nat -> bool)
    requires |samples| == |events| && forall n :: sendOk(n)
    requires forall i :: 0 <= i < |samples| ==> EventBytes(order, events[i]) <= samples[i]
    ensures FakesFor(order, samples, fake, ttl, sendOk) == FakesOf(order, events, fake, ttl)
  {
    forall i | 0 <= i < |samples|
      ensures DecodeSample(order, samples[i]) == Some(events[i])
    {
      SampleDecodes(order, events[i], samples[i]);
    }
    DecodedGetFakes(order, samples, events, fake, ttl, sendOk);
  }

  function LongEnough(samples: seq<seq<byte>>): seq<seq<byte>> {
    if samples == [] then []
    else LongEnough(samples[..|samples| - 1]) + if |samples[|samples| - 1]| >= 20 then [samples[|samples| - 1]] else []
  }

  /** Samples of less than 20 bytes might as well not be there. */
  lemma {:induction false} ShortSamplesSkipped(order: ByteOrder, samples: seq<seq<byte>>, fake: seq<byte>, ttl: int,
                                              sendOk: nat -> bool)
    requires forall n :: sendOk(n)
    ensures FakesFor(order, samples, fake, ttl, sendOk) == FakesFor(order, LongEnough(samples), fake, ttl, sendOk)
  {
    if samples != [] {
      var front, last := samples[..|samples| - 1], samples[|samples| - 1];
      ShortSamplesSkipped(order, front, fake, ttl, sendOk);
      if |last| >= 20 {
        assert (LongEnough(front) + [last])[..|LongEnough(front)|] == LongEnough(front);
      } else {
        assert LongEnough(front) + [] == LongEnough(front);
      }
    }
  }

  // ----- Filling the maps -----

  /** The bound of the target_ports and exclude_ips maps. */
  const SMALL_MAP_ENTRIES := 64

  function PortSet(ports: seq<u16>): set<u16> {
    set p | p in ports
  }

  lemma SubsetSize<T>(a: set<T>, b: set<T>)
    requires a <= b
    ensures |a| <= |b|
  {
    assert b == a + (b - a);
  }

  /** Inserting into a bounded hash map fails only for a new key into a full map. */
  method PushTargetPorts(ports: seq<u16>) returns (ok: bool, targetPorts: set<u16>)
    ensures ok <==> |PortSet(ports)| <= SMALL_MAP_ENTRIES
    ensures ok ==> targetPorts == PortSet(ports)
  {
    targetPorts := {};
    var i := 0;
    while i < |ports|
      invariant 0 <= i <= |ports|
      invariant targetPorts == PortSet(ports[..i])
      invariant |targetPorts| <= SMALL_MAP_ENTRIES
    {
      assert ports[..i + 1] == ports[..i] + [ports[i]];
      assert PortSet(ports[..i + 1]) == targetPorts + {ports[i]};
      if ports[i] !in targetPorts && |targetPorts| == SMALL_MAP_ENTRIES {
        SubsetSize(targetPorts + {ports[i]}, PortSet(ports));
        return false, targetPorts;
      }
      targetPorts := targetPorts + {ports[i]};
      i := i + 1;
    }
    assert ports[..i] == ports;
    ok := true;
  }

  /** The key userspace computes for an excluded address: always the little-endian reading. */
  function ExcludeKey(ip4: seq<byte>): u32
    requires |ip4| == 4
  {
    ip4[0] as int + ip4[1] as int * 0x100 + ip4[2] as int * 0x1_0000 + ip4[3] as int * 0x100_0000
  }

  /** The keys of the IPv4 addresses among ips; other addresses are skipped. */
  function ExcludeKeys(ips: seq<seq<byte>>): set<u32> {
    set i | 0 <= i < |ips| && To4(ips[i]).Some? :: ExcludeKey(To4(ips[i]).value)
  }

  method PushExcludeIps(ips: seq<seq<byte>>) returns (ok: bool, keys: set<u32>)
    ensures ok <==> |ExcludeKeys(ips)| <= SMALL_MAP_ENTRIES
    ensures ok ==> keys == ExcludeKeys(ips)
  {
    keys := {};
    var i := 0;
    while i < |ips|
      invariant 0 <= i <= |ips|
      invariant keys == ExcludeKeys(ips[..i])
      invariant |keys| <= SMALL_MAP_ENTRIES
    {
      ExcludeKeysSnoc(ips, i);
      var ip4 := To4(ips[i]);
      if ip4.Some? {
        var key := ExcludeKey(ip4.value);
        if key !in keys && |keys| == SMALL_MAP_ENTRIES {
          SubsetSize(keys + {key}, ExcludeKeys(ips));
          return false, keys;
        }
        keys := keys + {key};
      }
      i := i + 1;
    }
    assert ips[..i] == ips;
    ok := true;
  }

  lemma ExcludeKeysSnoc(ips: seq<seq<byte>>, i: nat)
    requires i < |ips|
    ensures ExcludeKeys(ips[..i + 1])
            == ExcludeKeys(ips[..i]) + (if To4(ips[i]).Some? then {ExcludeKey(To4(ips[i]).value)} else {})
    ensures ExcludeKeys(ips[..i + 1]) <= ExcludeKeys(ips)
  {
    var a, b := ips[..i], ips[..i + 1];
    assert forall j :: 0 <= j < i ==> a[j] == b[j] == ips[j];
    assert b[i] == ips[i];
  }

  /** The key matches what the kernel sees as remote_ip4 exactly on little-endian machines, or for an
      address that reads the same backwards. */
  lemma ExcludeKeyMatches(order: ByteOrder, ip4: seq<byte>)
    requires |ip4| == 4
    ensures ExcludeKey(ip4) == Get32(order, ip4)
            <==> order.LittleEndian? || (ip4[0] == ip4[3] && ip4[1] == ip4[2])
  {
    if order.BigEndian? && ExcludeKey(ip4) == Load32(ip4, 0) {
      assert ExcludeKey(ip4) == Load32(Reverse(ip4), 0);
      Load32Be(ip4);
      Load32Be(Reverse(ip4));
    }
  }

  // ----- From the handshake to the fake on the wire -----

  /** An established connection of either family. */
  datatype Connection = Connection(
    v6: bool, src: seq<byte>, dst: seq<byte>, srcPort: u16, dstPort: u16, sndNxt: u32, rcvNxt: u32)
  {
    predicate WellFormed() {
      if v6 then |src| == 16 && |dst| == 16 else |src| == 4 && |dst| == 4
    }
  }

  /** What the kernel shows of a connection on a little-endian machine. The program reads the IPv4 fields
      without asking for the family; of an IPv6 connection they show something else than its addresses. */
  predicate Shows(ctx: SockContext, conn: Connection)
    requires conn.WellFormed()
  {
    && ctx.localPort == conn.srcPort && ctx.remotePort == Get32(LittleEndian, Be32(conn.dstPort))
    && ctx.sndNxt == conn.sndNxt && ctx.rcvNxt == conn.rcvNxt
    && (!conn.v6 ==> ctx.localIp4 == Get32(LittleEndian, conn.src) && ctx.remoteIp4 == Get32(LittleEndian, conn.dst))
  }

  /** Network order is read as it was meant. */
  lemma NtohlReads(n: u32)
    ensures Ntohl(Get32(LittleEndian, Be32(n))) == n
  {
    Load32Be(Reverse(Be32(n)));
    assert Reverse(Reverse(Be32(n))) == Be32(n);
    Be32Load(n);
  }

  lemma ExcludeKeyInjective(a: seq<byte>, b: seq<byte>)
    requires |a| == 4 && |b| == 4 && ExcludeKey(a) == ExcludeKey(b)
    ensures a == b
  {
    assert ExcludeKey(a) == Load32(Reverse(a), 0) && ExcludeKey(b) == Load32(Reverse(b), 0);
    Load32Be(Reverse(a));
    Load32Be(Reverse(b));
    assert Reverse(a) == Reverse(b);
    assert a == Reverse(Reverse(a)) && b == Reverse(Reverse(b));
  }

  lemma DstPortOf(remotePort: u32, port: u16)
    requires Ntohl(remotePort) == port
    ensures ToU16(Ntohl(remotePort)) == port
  {
  }

  lemma DstPortShown(ctx: SockContext, conn: Connection)
    requires conn.WellFormed() && Shows(ctx, conn)
    ensures DstPort(ctx) == conn.dstPort
  {
    NtohlReads(conn.dstPort);
    DstPortOf(ctx.remotePort, conn.dstPort);
  }

  /** An address is excluded, as the kernel shows it, exactly if it is among the excluded ones. */
  lemma KeysMeanAddresses(excluded: seq<seq<byte>>, n: u32)
    ensures n in ExcludeKeys(excluded)
            <==> exists i :: 0 <= i < |excluded| && To4(excluded[i]) == Some(Uint32ToIp(LittleEndian, n))
  {
    var shown := Uint32ToIp(LittleEndian, n);
    KeyOfShown(n);
    if n in ExcludeKeys(excluded) {
      var i :| 0 <= i < |excluded| && To4(excluded[i]).Some? && ExcludeKey(To4(excluded[i]).value) == n;
      ExcludeKeyInjective(To4(excluded[i]).value, shown);
    }
  }

  /** The program wants exactly the connections to a configured port whose IPv4 field, as the kernel shows it,
      is not an excluded address; IPv6 addresses among the excluded ones make no difference. */
  lemma WantedMeansConfigured(ports: seq<u16>, excluded: seq<seq<byte>>, ctx: SockContext, conn: Connection)
    requires conn.WellFormed() && Shows(ctx, conn)
    ensures Wanted(Maps(PortSet(ports), ExcludeKeys(excluded)), ctx)
            <==> conn.dstPort in ports
                 && forall i :: 0 <= i < |excluded| ==>
                      To4(excluded[i]) != Some(Uint32ToIp(LittleEndian, ctx.remoteIp4))
    ensures !conn.v6 ==> Uint32ToIp(LittleEndian, ctx.remoteIp4) == conn.dst
  {
    DstPortShown(ctx, conn);
    KeysMeanAddresses(excluded, ctx.remoteIp4);
    if !conn.v6 {
      IpShown(conn.dst);
    }
  }

  lemma KeyOfShown(n: u32)
    ensures ExcludeKey(Uint32ToIp(LittleEndian, n)) == n
  {
    ExcludeKeyMatches(LittleEndian, Uint32ToIp(LittleEndian, n));
    Get32Put32(LittleEndian, n);
  }

  lemma OneSample(order: ByteOrder, e: ConnEvent, padding: seq<byte>, fake: seq<byte>, ttl: int, sendOk: nat -> bool)
    ensures FakesFor(order, [EventBytes(order, e) + padding], fake, ttl, sendOk)
            == FakeFor(order, e, fake, ttl, sendOk(0))
  {
    var sample := EventBytes(order, e) + padding;
    DecodeUndoesEncode(order, e, padding);
    var none: seq<seq<byte>> := [];
    assert [sample][..0] == none;
    assert FakesFor(order, none, fake, ttl, sendOk) == [];
  }

  lemma IpShown(ip4: seq<byte>)
    requires |ip4| == 4
    ensures Uint32ToIp(LittleEndian, Get32(LittleEndian, ip4)) == ip4
  {
    Put32Get32(LittleEndian, ip4);
  }

  lemma ReceiveV4Fake(conn: ConnInfo, fake: seq<byte>, ttl: int)
    requires |conn.srcIp| == 4 && |conn.dstIp| == 4 && 40 + |fake| <= 0xFFFF
    ensures Receive(Packet(conn, fake, ttl, BigEndian), BigEndian)
            == Some(ExpectedTcp(conn, fake, IpFields(false, 0, 0x1234, 0, ToByte(ttl), conn.srcIp, conn.dstIp)))
  {
    BuildThenReceive(conn, fake, ttl, BigEndian);
  }

  /** A packet that belongs to the connection: its family and addresses, its ports, the sequence number its next
      byte will use and the one it expects. */
  predicate BelongsTo(r: Received, conn: Connection) {
    && r.ip.v6 == conn.v6 && r.ip.src == conn.src && r.ip.dst == conn.dst
    && r.srcPort == conn.srcPort && r.dstPort == conn.dstPort && r.seqNo == conn.sndNxt && r.ackNo == conn.rcvNxt
  }

  lemma EventKeepsConnection(ctx: SockContext, conn: Connection)
    requires conn.WellFormed() && Shows(ctx, conn)
    ensures var info := ConnInfoOf(LittleEndian, EventOf(ctx));
            && info.srcPort == conn.srcPort && info.dstPort == conn.dstPort
            && info.seqNo == conn.sndNxt && info.ackNo == conn.rcvNxt
            && (!conn.v6 ==> info.srcIp == conn.src && info.dstIp == conn.dst)
  {
    DstPortShown(ctx, conn);
    SrcPortShown(ctx.localPort, conn.srcPort);
    if !conn.v6 {
      IpShown(conn.src);
      IpShown(conn.dst);
    }
  }

  lemma SrcPortShown(localPort: u32, port: u16)
    requires localPort == port
    ensures ToU16(localPort) == port
  {
  }

  /** When a wanted connection of either family is established, the one event it raises makes userspace send one
      packet, a ClientHello naming www.google.com with the given TTL - and a receiver reads it as this
      connection's own exactly if the connection is IPv4. */
  lemma FakeMatchesConnection(maps: Maps, s: State, c: Cookie, padding: seq<byte>, ttl: int,
                              ctx: SockContext, conn: Connection)
    returns (evt: ConnEvent, pkt: seq<byte>, r: Received)
    requires conn.WellFormed() && Shows(ctx, conn) && s.config.enabled && Wanted(maps, ctx)
    ensures AfterEstablished(maps, s, c, ctx).events == s.events + [(c, evt)]
    ensures FakesFor(LittleEndian, [EventBytes(LittleEndian, evt) + padding],
                     ClientHello.Built(ClientHello.FAKE_NAME), ttl, _ => true)
            == [pkt]
    ensures Receive(pkt, BigEndian) == Some(r)
    ensures r.ip.ttl == ToByte(ttl) && ClientHello.Sni(r.payload) == ClientHello.FAKE_NAME
    ensures BelongsTo(r, conn) <==> !conn.v6
  {
    var fake := ClientHello.Built(ClientHello.FAKE_NAME);
    ClientHello.ParseUndoesBuild(ClientHello.FAKE_NAME);
    evt := EventOf(ctx);
    EventKeepsConnection(ctx, conn);
    var info := ConnInfoOf(LittleEndian, evt);
    pkt := Packet(info, fake, ttl, BigEndian);
    r := ExpectedTcp(info, fake, IpFields(false, 0, 0x1234, 0, ToByte(ttl), info.srcIp, info.dstIp));
    OneSample(LittleEndian, evt, padding, fake, ttl, _ => true);
    ReceiveV4Fake(info, fake, ttl);
  }
}
