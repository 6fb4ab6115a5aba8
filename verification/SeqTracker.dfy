/** Capturing SYN-ACKs and handing their sequence numbers to the connection of the same local port. */
module SeqTracker {
  import opened Bytes
  import opened Wrappers
  import opened RawSocket

  // ----- From a captured packet to an event -----

  datatype Tcp = Tcp(srcPort: u16, dstPort: u16, seqNo: u32, ackNo: u32, syn: bool, ack: bool)

  datatype Ip = Ip(src: seq<byte>, dst: seq<byte>, hopLimit: byte)

  /** The decoded layers of a packet. */
  datatype Captured = Captured(tcp: Option<Tcp>, v4: Option<Ip>, v6: Option<Ip>)

  function Bytes4(ip: seq<byte>): seq<byte> {
    match To4(ip) case Some(b) => b case None => []
  }

  /** The event of a SYN-ACK from a watched port: our own end of the connection. */
  function EventOf(ports: set<u16>, p: Captured): Option<ConnInfo> {
    if p.tcp.None? || !p.tcp.value.syn || !p.tcp.value.ack || p.tcp.value.srcPort !in ports then None
    else
      var tcp := p.tcp.value;
      var seqNo, ackNo := tcp.ackNo, ToU32(tcp.seqNo + 1 as int);
      if p.v4.Some? then
        Some(ConnInfo(Bytes4(p.v4.value.dst), Bytes4(p.v4.value.src), tcp.dstPort, tcp.srcPort,
                      seqNo, ackNo, p.v4.value.hopLimit))
      else if p.v6.Some? then
        Some(ConnInfo(p.v6.value.dst, p.v6.value.src, tcp.dstPort, tcp.srcPort, seqNo, ackNo, p.v6.value.hopLimit))
      else None
  }

  /** The capture filter, which lets through SYN-ACKs from one port only, whatever ports are watched. */
  const FILTER_PORT: u16 := 443

  predicate Passes(p: Captured) {
    && p.tcp.Some? && p.tcp.value.syn && p.tcp.value.ack && p.tcp.value.srcPort == FILTER_PORT
    && (p.v4.Some? || p.v6.Some?)
  }

  /** The client's and the server's view of a handshake, section 3.5 of RFC 9293: both numbers count the SYN. */
  datatype Handshake = Handshake(clientIsn: u32, serverIsn: u32, clientPort: u16, serverPort: u16)
  {
    function SndNxt(): u32 { (clientIsn + 1 as int) % 0x1_0000_0000 }

    function RcvNxt(): u32 { (serverIsn + 1 as int) % 0x1_0000_0000 }

    /** The server's answer acknowledges the client's SYN and carries its own. */
    function SynAck(): Tcp { Tcp(serverPort, clientPort, serverIsn, SndNxt(), true, true) }
  }

  // ----- The shared map of events -----

  type Events = map<u16, ConnInfo>

  /** A packet on the interface, or a take. */
  datatype Action = Capture(packet: Captured) | Take(port: u16)

  function Stored(ports: set<u16>, conns: Events, p: Captured): Events {
    match EventOf(ports, p)
    case None => conns
    case Some(e) => conns[e.srcPort := e]
  }

  function Next(ports: set<u16>, conns: Events, action: Action): Events {
    match action
    case Capture(p) => if Passes(p) then Stored(ports, conns, p) else conns
    case Take(port) => conns - {port}
  }

  function After(ports: set<u16>, conns: Events, actions: seq<Action>): Events {
    if actions == [] then conns
    else Next(ports, After(ports, conns, actions[..|actions| - 1]), actions[|actions| - 1])
  }

  /** The waiting loop: before each of its polls other captures and takes happen. */
  function Waited(ports: set<u16>, conns: Events, port: u16, between: seq<seq<Action>>): (Option<ConnInfo>, Events)
    decreases |between|
  {
    if between == [] then (None, conns)
    else
      var now := After(ports, conns, between[0]);
      if port in now then (Some(now[port]), now - {port})
      else Waited(ports, now, port, between[1..])
  }

  // ----- The program -----

  class Tracker {
    const ports: set<u16>
    var conns: Events

    constructor (ports: set<u16>)
      ensures this.ports == ports && conns == map[]
    {
      this.ports, conns := ports, map[];
    }

    /** A packet reaches the capture loop through the filter. */
    method CapturePacket(packet: Captured)
      modifies this
      ensures conns == Next(ports, old(conns), Capture(packet))
    {
      if Passes(packet) {
        ProcessPacket(packet);
      }
    }

    /** The capture loop's work on one packet, ending in the callback. */
    method ProcessPacket(packet: Captured)
      modifies this
      ensures conns == Stored(ports, old(conns), packet)
    {
      if packet.tcp.None? {
        return;
      }
      var tcp := packet.tcp.value;
      if !tcp.syn || !tcp.ack {
        return;
      }
      if tcp.srcPort !in ports {
        return;
      }
      var srcIp, dstIp: seq<byte>, hopLimit: byte;
      if packet.v4.Some? {
        srcIp, dstIp := Bytes4(packet.v4.value.dst), Bytes4(packet.v4.value.src);
        hopLimit := packet.v4.value.hopLimit;
      } else {
        if packet.v6.None? {
          return;
        }
        srcIp, dstIp := packet.v6.value.dst, packet.v6.value.src;
        hopLimit := packet.v6.value.hopLimit;
      }
      var evt := ConnInfo(srcIp, dstIp, tcp.dstPort, tcp.srcPort, tcp.ackNo,
                          (tcp.seqNo + 1 as int) % 0x1_0000_0000, hopLimit);
      conns := conns[evt.srcPort := evt];
    }

    method LoadAndDelete(port: u16) returns (evt: Option<ConnInfo>)
      modifies this
      ensures conns == Next(ports, old(conns), Take(port))
      ensures evt == if port in old(conns) then Some(old(conns)[port]) else None
    {
      if port in conns {
        evt := Some(conns[port]);
      } else {
        evt := None;
      }
      conns := conns - {port};
    }

    /** Everything other goroutines do between two polls. */
    method Others(actions: seq<Action>)
      modifies this
      ensures conns == After(ports, old(conns), actions)
    {
      var i := 0;
      while i < |actions|
        invariant 0 <= i <= |actions|
        invariant conns == After(ports, old(conns), actions[..i])
      {
        assert actions[..i + 1][..i] == actions[..i];
        match actions[i] {
          case Capture(p) => CapturePacket(p);
          case Take(port) => var _ := LoadAndDelete(port);
        }
        i := i + 1;
      }
      assert actions[..i] == actions;
    }

    /** Polls until an event for the port is there or the deadline, after |between| polls, has passed. */
    method WaitForSeqAck(port: u16, between: seq<seq<Action>>) returns (evt: Option<ConnInfo>)
      modifies this
      ensures (evt, conns) == Waited(ports, old(conns), port, between)
    {
      var k := 0;
      while k < |between|
        invariant 0 <= k <= |between|
        invariant Waited(ports, conns, port, between[k..]) == Waited(ports, old(conns), port, between)
      {
        assert between[k..][0] == between[k] && between[k..][1..] == between[k + 1..];
        Others(between[k]);
        assert port !in conns ==> conns - {port} == conns;
        evt := LoadAndDelete(port);
        if evt.Some? {
          return;
        }
        k := k + 1;
      }
      evt := None;
    }
  }

  /** The numbers for a connection's fakes: placeholders without a tracker, for a connection that is not TCP, and
      when no SYN-ACK was seen in time. */
  method GetSeqAck(tracker: Tracker?, isTcp: bool, port: u16, between: seq<seq<Action>>)
    returns (seqNo: u32, ackNo: u32, hopLimit: byte)
    modifies tracker
    ensures tracker == null || !isTcp ==> (seqNo, ackNo, hopLimit) == SeqAckOf(None)
    ensures tracker != null && !isTcp ==> tracker.conns == old(tracker.conns)
    ensures tracker != null && isTcp ==>
              var (evt, after) := Waited(tracker.ports, old(tracker.conns), port, between);
              tracker.conns == after && (seqNo, ackNo, hopLimit) == SeqAckOf(evt)
  {
    if tracker == null {
      return 1, 1, 0;
    }
    if !isTcp {
      return 1, 1, 0;
    }
    var evt := tracker.WaitForSeqAck(port, between);
    if evt.None? {
      return 1, 1, 0;
    }
    return evt.value.seqNo, evt.value.ackNo, evt.value.hopLimit;
  }

  function SeqAckOf(evt: Option<ConnInfo>): (u32, u32, byte) {
    match evt
    case None => (1, 1, 0)
    case Some(e) => (e.seqNo, e.ackNo, e.hopLimit)
  }

  // ----- What a take returns -----

  predicate CapturesFor(ports: set<u16>, action: Action, port: u16) {
    action.Capture? && Passes(action.packet) && EventOf(ports, action.packet).Some?
    && EventOf(ports, action.packet).value.srcPort == port
  }

  /** The i-th action captured an event for port, and since then there was neither a newer one nor a take. */
  predicate PendingFrom(ports: set<u16>, actions: seq<Action>, port: u16, i: nat) {
    && i < |actions| && CapturesFor(ports, actions[i], port)
    && forall j :: i < j < |actions| ==> !CapturesFor(ports, actions[j], port) && actions[j] != Take(port)
  }

  /** From an empty map, over every interleaving: the stored event of a port is the last one captured for it
      since its last take, and there is none exactly when there was no such capture. */
  lemma {:induction false} StoredIsLastCaptured(ports: set<u16>, actions: seq<Action>, port: u16)
    ensures forall i: nat :: PendingFrom(ports, actions, port, i)
              ==> port in After(ports, map[], actions)
                  && After(ports, map[], actions)[port] == EventOf(ports, actions[i].packet).value
    ensures port in After(ports, map[], actions) ==> exists i: nat :: PendingFrom(ports, actions, port, i)
  {
    if actions != [] {
      var front, k := actions[..|actions| - 1], |actions| - 1;
      StoredIsLastCaptured(ports, front, port);
      forall i: nat | i < k
        ensures PendingFrom(ports, actions, port, i)
                <==> PendingFrom(ports, front, port, i) && !CapturesFor(ports, actions[k], port)
                     && actions[k] != Take(port)
      {
        assert front[i] == actions[i];
        assert forall j :: i < j < k ==> front[j] == actions[j];
      }
      if CapturesFor(ports, actions[k], port) {
        assert PendingFrom(ports, actions, port, k);
      } else if actions[k] != Take(port) && port in After(ports, map[], front) {
        var i: nat :| PendingFrom(ports, front, port, i);
        assert PendingFrom(ports, actions, port, i);
      }
    }
  }

  /** Each event is handed out at most once: two takes of a port that both find an event find different captures. */
  lemma TakenOnce(ports: set<u16>, actions: seq<Action>, port: u16, first: nat, second: nat, i: nat, j: nat)
    requires first < second < |actions| && actions[first] == Take(port) && actions[second] == Take(port)
    requires PendingFrom(ports, actions[..first], port, i) && PendingFrom(ports, actions[..second], port, j)
    ensures i < first < j < second
  {
    assert actions[..second][first] == actions[first] && actions[..second][j] == actions[j];
  }

  // ----- A wait is a series of takes -----

  /** The actions of these polls: what others do before each of them, and a take. */
  function Polls(port: u16, between: seq<seq<Action>>): seq<Action>
    decreases |between|
  {
    if between == [] then [] else between[0] + [Take(port)] + Polls(port, between[1..])
  }

  lemma {:induction false} AfterConcat(ports: set<u16>, conns: Events, a: seq<Action>, b: seq<Action>)
    ensures After(ports, conns, a + b) == After(ports, After(ports, conns, a), b)
    decreases |b|
  {
    if b == [] {
      assert a + b == a;
    } else {
      assert (a + b)[..|a + b| - 1] == a + b[..|b| - 1];
      AfterConcat(ports, conns, a, b[..|b| - 1]);
    }
  }

  lemma AfterTake(ports: set<u16>, conns: Events, actions: seq<Action>, port: u16)
    ensures After(ports, conns, actions + [Take(port)]) == After(ports, conns, actions) - {port}
  {
    assert (actions + [Take(port)])[..|actions|] == actions;
  }

  /** The map of events, before the n-th take of a wait. */
  function BeforeTake(ports: set<u16>, conns: Events, port: u16, between: seq<seq<Action>>, n: nat): Events
    requires n < |between|
  {
    After(ports, conns, Polls(port, between[..n]) + between[n])
  }

  lemma {:induction false} PollsFirst(ports: set<u16>, conns: Events, port: u16, between: seq<seq<Action>>, n: nat)
    requires 0 < n <= |between|
    ensures var next := After(ports, conns, between[0]) - {port};
            && After(ports, conns, Polls(port, between[..n]))
               == After(ports, next, Polls(port, between[1..][..n - 1]))
            && (n < |between| ==>
                  BeforeTake(ports, conns, port, between, n) == BeforeTake(ports, next, port, between[1..], n - 1))
  {
    var first, rest := between[0] + [Take(port)], Polls(port, between[1..][..n - 1]);
    assert between[..n][0] == between[0] && between[..n][1..] == between[1..][..n - 1];
    assert Polls(port, between[..n]) == first + rest;
    AfterTake(ports, conns, between[0], port);
    AfterConcat(ports, conns, first, rest);
    if n < |between| {
      AfterConcat(ports, conns, first + rest, between[n]);
      AfterConcat(ports, After(ports, conns, first), rest, between[n]);
    }
  }

  /** None of the first n takes found an event. */
  predicate FoundNone(ports: set<u16>, conns: Events, port: u16, between: seq<seq<Action>>, n: nat) {
    n <= |between| && forall m: nat :: m < n ==> port !in BeforeTake(ports, conns, port, between, m)
  }

  /** The n-th take was the last one: it took evt, the first event found, or all polls were made in vain. */
  predicate Took(ports: set<u16>, conns: Events, port: u16, between: seq<seq<Action>>, evt: Option<ConnInfo>, n: nat) {
    match evt
    case None => n == |between| && FoundNone(ports, conns, port, between, n)
    case Some(e) =>
      && 0 < n <= |between| && FoundNone(ports, conns, port, between, n - 1)
      && port in BeforeTake(ports, conns, port, between, n - 1)
      && e == BeforeTake(ports, conns, port, between, n - 1)[port]
  }

  lemma FirstBeforeTake(ports: set<u16>, conns: Events, port: u16, between: seq<seq<Action>>)
    requires between != []
    ensures BeforeTake(ports, conns, port, between, 0) == After(ports, conns, between[0])
  {
    assert Polls(port, between[..0]) + between[0] == between[0];
  }

  /** A take that finds nothing changes nothing, so the rest of the wait is a wait. */
  lemma {:induction false} TookLater(ports: set<u16>, conns: Events, port: u16, between: seq<seq<Action>>,
                                    evt: Option<ConnInfo>, k: nat)
    requires between != [] && port !in After(ports, conns, between[0])
    requires Took(ports, After(ports, conns, between[0]), port, between[1..], evt, k)
    ensures Took(ports, conns, port, between, evt, k + 1)
  {
    var now := After(ports, conns, between[0]);
    assert now - {port} == now;
    FirstBeforeTake(ports, conns, port, between);
    forall m: nat | 0 < m < |between|
      ensures BeforeTake(ports, conns, port, between, m) == BeforeTake(ports, now, port, between[1..], m - 1)
    {
      PollsFirst(ports, conns, port, between, m);
    }
  }

  /** A wait makes n polls, each with a take, and returns what the last of them took. What others see afterwards
      is what these takes left. */
  lemma {:induction false} WaitIsTakes(ports: set<u16>, conns: Events, port: u16, between: seq<seq<Action>>)
    returns (n: nat)
    ensures Took(ports, conns, port, between, Waited(ports, conns, port, between).0, n)
    ensures n <= |between|
            && Waited(ports, conns, port, between).1 == After(ports, conns, Polls(port, between[..n]))
    decreases |between|
  {
    if between == [] {
      return 0;
    }
    var now := After(ports, conns, between[0]);
    if port in now {
      FirstBeforeTake(ports, conns, port, between);
      PollsFirst(ports, conns, port, between, 1);
      assert between[1..][..0] == [];
      return 1;
    }
    assert now - {port} == now;
    var k := WaitIsTakes(ports, now, port, between[1..]);
    n := k + 1;
    TookLater(ports, conns, port, between, Waited(ports, now, port, between[1..]).0, k);
    PollsFirst(ports, conns, port, between, n);
  }

  /** A wait leaves no event of its port behind. */
  lemma {:induction false} WaitLeavesNone(ports: set<u16>, conns: Events, port: u16, between: seq<seq<Action>>)
    requires between != []
    ensures port !in Waited(ports, conns, port, between).1
    decreases |between|
  {
    var now := After(ports, conns, between[0]);
    if port !in now && |between| > 1 {
      WaitLeavesNone(ports, now, port, between[1..]);
    }
  }

  lemma {:induction false} NoneCaptured(ports: set<u16>, conns: Events, actions: seq<Action>, port: u16)
    requires port !in conns && forall a :: a in actions ==> !CapturesFor(ports, a, port)
    ensures port !in After(ports, conns, actions)
  {
    if actions != [] {
      var front, last := actions[..|actions| - 1], actions[|actions| - 1];
      assert last in actions && forall a :: a in front ==> a in actions;
      NoneCaptured(ports, conns, front, port);
    }
  }

  /** So no event is handed out twice: after a wait, found or not, a further wait for the port finds nothing
      unless there is a new capture for it. */
  lemma {:induction false} NothingLeftToFind(ports: set<u16>, conns: Events, port: u16, between: seq<seq<Action>>,
                                            later: seq<seq<Action>>)
    requires between != []
    requires forall actions, a :: actions in later && a in actions ==> !CapturesFor(ports, a, port)
    ensures Waited(ports, Waited(ports, conns, port, between).1, port, later).0 == None
  {
    WaitLeavesNone(ports, conns, port, between);
    WaitFindsNone(ports, Waited(ports, conns, port, between).1, port, later);
  }

  lemma {:induction false} WaitFindsNone(ports: set<u16>, conns: Events, port: u16, later: seq<seq<Action>>)
    requires port !in conns
    requires forall actions, a :: actions in later && a in actions ==> !CapturesFor(ports, a, port)
    ensures Waited(ports, conns, port, later).0 == None
    decreases |later|
  {
    if later != [] {
      assert later[0] in later && forall actions :: actions in later[1..] ==> actions in later;
      NoneCaptured(ports, conns, later[0], port);
      WaitFindsNone(ports, After(ports, conns, later[0]), port, later[1..]);
    }
  }

  // ----- The numbers are those of the connection -----

  /** Only a SYN-ACK over IP from a watched port is stored, and only under the port it goes to. */
  lemma OnlySynAcksStored(ports: set<u16>, conns: Events, p: Captured, port: u16)
    ensures var next := Stored(ports, conns, p);
            !(p.tcp.Some? && p.tcp.value.syn && p.tcp.value.ack && p.tcp.value.srcPort in ports
              && p.tcp.value.dstPort == port && (p.v4.Some? || p.v6.Some?))
            ==> (port in next <==> port in conns) && (port in conns ==> next[port] == conns[port])
  {
  }

  /** For every pair of initial sequence numbers, wrap-around included, the event carries the client's next
      sequence number, the next one it expects, its port and the hop limit of the SYN-ACK. */
  lemma EventCarriesHandshake(ports: set<u16>, h: Handshake, p: Captured)
    requires p.tcp == Some(h.SynAck()) && h.serverPort in ports && (p.v4.Some? || p.v6.Some?)
    ensures var e := EventOf(ports, p);
            && e.Some? && e.value.seqNo == h.SndNxt() && e.value.ackNo == h.RcvNxt()
            && e.value.srcPort == h.clientPort && e.value.dstPort == h.serverPort
            && e.value.hopLimit == (if p.v4.Some? then p.v4.value.hopLimit else p.v6.value.hopLimit)
            && (p.v4.None? ==> e.value.srcIp == p.v6.value.dst && e.value.dstIp == p.v6.value.src)
            && (p.v4.Some? && |p.v4.value.src| == 4 && |p.v4.value.dst| == 4
                ==> e.value.srcIp == p.v4.value.dst && e.value.dstIp == p.v4.value.src)
  {
  }

  /** Only copies of p are captured for the port, and nobody else takes it. */
  predicate OnlyFor(ports: set<u16>, actions: seq<Action>, port: u16, p: Captured) {
    forall a :: a in actions ==> a != Take(port) && (CapturesFor(ports, a, port) ==> a == Capture(p))
  }

  lemma {:induction false} AfterOnly(ports: set<u16>, conns: Events, actions: seq<Action>, port: u16, p: Captured)
    requires port !in conns && OnlyFor(ports, actions, port, p)
    ensures var now := After(ports, conns, actions);
            if Capture(p) in actions && CapturesFor(ports, Capture(p), port)
            then port in now && now[port] == EventOf(ports, p).value else port !in now
  {
    if actions != [] {
      var front, last := actions[..|actions| - 1], actions[|actions| - 1];
      assert actions == front + [last] && last in actions && forall a :: a in front ==> a in actions;
      AfterOnly(ports, conns, front, port, p);
    }
  }

  /** With no stale event for the port, a connection gets the numbers of its own handshake exactly when it goes
      to the filter's port, that port is watched, and its SYN-ACK is on the interface before the deadline;
      otherwise it gets the placeholders. */
  lemma {:induction false} WaitGetsHandshake(ports: set<u16>, conns: Events, h: Handshake, p: Captured,
                                            between: seq<seq<Action>>)
    requires p.tcp == Some(h.SynAck()) && (p.v4.Some? || p.v6.Some?)
    requires h.clientPort !in conns
    requires forall actions :: actions in between ==> OnlyFor(ports, actions, h.clientPort, p)
    ensures SeqAckOf(Waited(ports, conns, h.clientPort, between).0)
            == if h.serverPort == FILTER_PORT && FILTER_PORT in ports
                  && exists actions :: actions in between && Capture(p) in actions
               then (h.SndNxt(), h.RcvNxt(), if p.v4.Some? then p.v4.value.hopLimit else p.v6.value.hopLimit)
               else (1, 1, 0)
    decreases |between|
  {
    if between != [] {
      assert between[0] in between;
      AfterOnly(ports, conns, between[0], h.clientPort, p);
      if h.serverPort in ports {
        EventCarriesHandshake(ports, h, p);
      }
      if !(Capture(p) in between[0] && CapturesFor(ports, Capture(p), h.clientPort)) {
        assert forall actions :: actions in between <==> actions == between[0] || actions in between[1..];
        WaitGetsHandshake(ports, After(ports, conns, between[0]), h, p, between[1..]);
      }
    }
  }

  /** In particular, connections to any other port, watched or not, always get the placeholders. */
  lemma OtherPortsGetPlaceholders(ports: set<u16>, conns: Events, h: Handshake, p: Captured, between: seq<seq<Action>>)
    requires h.serverPort != FILTER_PORT && p.tcp == Some(h.SynAck()) && (p.v4.Some? || p.v6.Some?)
    requires h.clientPort !in conns
    requires forall actions :: actions in between ==> OnlyFor(ports, actions, h.clientPort, p)
    ensures SeqAckOf(Waited(ports, conns, h.clientPort, between).0) == (1, 1, 0)
  {
    WaitGetsHandshake(ports, conns, h, p, between);
  }

  /** With a stale event, the connection gets its own numbers only if its SYN-ACK is on the interface before the
      first poll and passes; otherwise it gets those of the stale event. */
  lemma StaleEventIsTaken(ports: set<u16>, conns: Events, h: Handshake, p: Captured, between: seq<seq<Action>>)
    requires p.tcp == Some(h.SynAck()) && (p.v4.Some? || p.v6.Some?)
    requires h.clientPort in conns && between != [] && OnlyFor(ports, between[0], h.clientPort, p)
    ensures Waited(ports, conns, h.clientPort, between).0
            == if h.serverPort == FILTER_PORT && FILTER_PORT in ports && Capture(p) in between[0]
               then EventOf(ports, p) else Some(conns[h.clientPort])
  {
    if h.serverPort in ports {
      EventCarriesHandshake(ports, h, p);
    }
    AfterStale(ports, conns, between[0], h.clientPort, p);
  }

  lemma {:induction false} AfterStale(ports: set<u16>, conns: Events, actions: seq<Action>, port: u16, p: Captured)
    requires port in conns && OnlyFor(ports, actions, port, p)
    ensures var now := After(ports, conns, actions);
            port in now
            && now[port] == if Capture(p) in actions && CapturesFor(ports, Capture(p), port)
                            then EventOf(ports, p).value else conns[port]
  {
    if actions != [] {
      var front, last := actions[..|actions| - 1], actions[|actions| - 1];
      assert actions == front + [last] && last in actions && forall a :: a in front ==> a in actions;
      AfterStale(ports, conns, front, port, p);
    }
  }
}
