/** The sock_ops program: a small MSS for each new target connection, restored once enough bytes went out. */
module SockOps {
  import opened Bytes
  import opened Wrappers

  type Cookie = n: int | 0 <= n < 0x1_0000_0000_0000_0000

  datatype Config = Config(mss: u16, restoreMss: u16, restoreAfterBytes: u32, enabled: bool)

  /** The thresholds as userspace holds them. */
  datatype UserConfig = UserConfig(mss: int, restoreMss: int, restoreAfterBytes: int)

  /** The configuration userspace pushes, narrowed to the fields of the kernel's struct. */
  function Pushed(user: UserConfig, enabled: bool): Config {
    Config(ToU16(user.mss), ToU16(user.restoreMss), ToU32(user.restoreAfterBytes), enabled)
  }

  datatype ConnState = ConnState(bytesSent: u32, mssRestored: bool)

  /** The fields of struct bpf_sock_ops the program reads; addresses and remotePort are in network order. */
  datatype SockContext = SockContext(
    localIp4: u32, remoteIp4: u32, localPort: u32, remotePort: u32, sndNxt: u32, rcvNxt: u32)

  datatype ConnEvent = ConnEvent(srcIp: u32, dstIp: u32, srcPort: u16, dstPort: u16, seqNo: u32, ackNo: u32)

  datatype CbFlag = WriteHdrOpt | OtherFlag(bit: nat)

  /** What the program changes in a socket: every value TCP_MAXSEG was set to, in order, and the callback flags. */
  datatype Socket = Socket(mssWrites: seq<int>, cbFlags: set<CbFlag>)

  datatype Maps = Maps(targetPorts: set<u16>, excludeIps: set<u32>)

  datatype State = State(
    config: Config,
    connections: map<Cookie, ConnState>,
    sockets: map<Cookie, Socket>,
    events: seq<(Cookie, ConnEvent)>)

  /** The bound of the connections map. */
  const MAX_ENTRIES := 65536

  /** bpf_ntohl on the little-endian targets the program is built for. */
  function Ntohl(n: u32): u32 {
    Load32(Reverse(Be32(n)), 0)
  }

  function DstPort(ctx: SockContext): u16 {
    ToU16(Ntohl(ctx.remotePort))
  }

  predicate Wanted(maps: Maps, ctx: SockContext) {
    ctx.remoteIp4 !in maps.excludeIps && DstPort(ctx) in maps.targetPorts
  }

  function EventOf(ctx: SockContext): ConnEvent {
    ConnEvent(ctx.localIp4, ctx.remoteIp4, ToU16(ctx.localPort), DstPort(ctx), ctx.sndNxt, ctx.rcvNxt)
  }

  function NormalMss(config: Config): int {
    if config.restoreMss != 0 then config.restoreMss else 1460
  }

  function SocketOf(s: State, c: Cookie): Socket {
    if c in s.sockets then s.sockets[c] else Socket([], {})
  }

  // ----- One step -----

  // When the kernel calls back for segments depends on the callback flag and on the option space reserved
  // before; here a segment may be reported at any time, so the flag is only observed.

  datatype Step =
    | Established(cookie: Cookie, ctx: SockContext)
    | Segment(cookie: Cookie, skbLen: u32)
    | SetEnabled(enabled: bool)
    | Evict(cookie: Cookie)

  function AfterEstablished(maps: Maps, s: State, c: Cookie, ctx: SockContext): State {
    if !s.config.enabled || !Wanted(maps, ctx) then s
    else
      var sock := SocketOf(s, c);
      State(s.config,
            s.connections[c := ConnState(0, false)],
            s.sockets[c := Socket(sock.mssWrites + [s.config.mss], sock.cbFlags + {WriteHdrOpt})],
            s.events + [(c, EventOf(ctx))])
  }

  function AfterSegment(s: State, c: Cookie, skbLen: u32): State {
    if !s.config.enabled || c !in s.connections || s.connections[c].mssRestored then s
    else
      var sent := ToU32(s.connections[c].bytesSent + skbLen as int);
      if sent > s.config.restoreAfterBytes then
        var sock := SocketOf(s, c);
        s.(connections := s.connections - {c},
           sockets := s.sockets[c := Socket(sock.mssWrites + [NormalMss(s.config)], sock.cbFlags - {WriteHdrOpt})])
      else
        s.(connections := s.connections[c := ConnState(sent, false)])
  }

  function Next(maps: Maps, s: State, step: Step): State {
    match step
    case Established(c, ctx) => AfterEstablished(maps, s, c, ctx)
    case Segment(c, skbLen) => AfterSegment(s, c, skbLen)
    case SetEnabled(enabled) => s.(config := s.config.(enabled := enabled))
    case Evict(c) => s.(connections := s.connections - {c})
  }

  function Run(maps: Maps, s: State, steps: seq<Step>): State
    decreases |steps|
  {
    if steps == [] then s else Run(maps, Next(maps, s, steps[0]), steps[1..])
  }

  // ----- The program -----

  datatype Op = ActiveEstablished | HdrOptLen | WriteHdrOptCb | OtherOp

  class Program {
    const user: UserConfig
    var config: Config
    const targetPorts: set<u16>
    const excludeIps: set<u32>
    var connections: map<Cookie, ConnState>
    var sockets: map<Cookie, Socket>
    var events: seq<(Cookie, ConnEvent)>

    /** Loaded, attached and configured. */
    constructor (user: UserConfig, targetPorts: set<u16>, excludeIps: set<u32>)
      ensures View() == State(Pushed(user, true), map[], map[], []) && MapsView() == Maps(targetPorts, excludeIps)
      ensures this.user == user && Valid()
    {
      this.user, this.targetPorts, this.excludeIps := user, targetPorts, excludeIps;
      config := Config(ToU16(user.mss), ToU16(user.restoreMss), ToU32(user.restoreAfterBytes), true);
      connections, sockets, events := map[], map[], [];
    }

    ghost function View(): State
      reads this
    {
      State(config, connections, sockets, events)
    }

    /** The kernel's configuration is the one userspace pushed, but for the switch. */
    ghost predicate Valid()
      reads this
    {
      config == Pushed(user, config.enabled)
    }

    ghost function MapsView(): Maps { Maps(targetPorts, excludeIps) }

    function Sock(cookie: Cookie): Socket
      reads this
    {
      if cookie in sockets then sockets[cookie] else Socket([], {})
    }

    method SetMaxSeg(cookie: Cookie, mss: int)
      modifies this`sockets
      ensures sockets == old(sockets)[cookie := old(Sock(cookie)).(mssWrites := old(Sock(cookie)).mssWrites + [mss])]
    {
      var sock := Sock(cookie);
      sockets := sockets[cookie := sock.(mssWrites := sock.mssWrites + [mss])];
    }

    method SetCbFlags(cookie: Cookie, flags: set<CbFlag>)
      modifies this`sockets
      ensures sockets == old(sockets)[cookie := old(Sock(cookie)).(cbFlags := flags)]
    {
      sockets := sockets[cookie := Sock(cookie).(cbFlags := flags)];
    }

    method HandleEstablished(cookie: Cookie, ctx: SockContext)
      requires config.enabled
      modifies this`connections, this`sockets, this`events
      ensures View() == AfterEstablished(MapsView(), old(View()), cookie, ctx)
    {
      var dstIp := ctx.remoteIp4;
      if dstIp in excludeIps {
        return;
      }
      var dstPort := ToU16(Ntohl(ctx.remotePort));
      if dstPort !in targetPorts {
        return;
      }
      var mss := config.mss;
      SetMaxSeg(cookie, mss);
      var evt := ConnEvent(ctx.localIp4, ctx.remoteIp4, ToU16(ctx.localPort), dstPort, ctx.sndNxt, ctx.rcvNxt);
      events := events + [(cookie, evt)];
      connections := connections[cookie := ConnState(0, false)];
      SetCbFlags(cookie, Sock(cookie).cbFlags + {WriteHdrOpt});
    }

    method HandleWriteHdrOpt(cookie: Cookie, skbLen: u32)
      requires config.enabled
      modifies this`connections, this`sockets
      ensures View() == AfterSegment(old(View()), cookie, skbLen)
    {
      if cookie !in connections || connections[cookie].mssRestored {
        return;
      }
      var state := connections[cookie];
      state := state.(bytesSent := ToU32(state.bytesSent + skbLen as int));
      connections := connections[cookie := state];
      if state.bytesSent > config.restoreAfterBytes {
        var normalMss: int := if config.restoreMss != 0 then config.restoreMss else 1460;
        SetMaxSeg(cookie, normalMss);
        state := state.(mssRestored := true);
        connections := connections[cookie := state];
        SetCbFlags(cookie, Sock(cookie).cbFlags - {WriteHdrOpt});
        connections := connections - {cookie};
        assert connections == old(connections) - {cookie};
      }
    }

    /** The entry point: dispatches on the callback, only while the program is enabled. */
    method GecitSockops(op: Op, cookie: Cookie, ctx: SockContext, skbLen: u32)
      modifies this`connections, this`sockets, this`events
      ensures op == ActiveEstablished ==> View() == Next(MapsView(), old(View()), Established(cookie, ctx))
      ensures op == WriteHdrOptCb ==> View() == Next(MapsView(), old(View()), Segment(cookie, skbLen))
      ensures op == HdrOptLen || op == OtherOp ==> View() == old(View())
    {
      if !config.enabled {
        return;
      }
      match op
      case ActiveEstablished => HandleEstablished(cookie, ctx);
      case WriteHdrOptCb => HandleWriteHdrOpt(cookie, skbLen);
      case HdrOptLen =>  // reserves no option space
      case OtherOp =>
    }

    /** Userspace pushes the whole configuration again: only the switch changes. */
    method UpdateEnabled(enabled: bool)
      requires Valid()
      modifies this`config
      ensures Valid() && View() == Next(MapsView(), old(View()), SetEnabled(enabled))
    {
      config := Config(ToU16(user.mss), ToU16(user.restoreMss), ToU32(user.restoreAfterBytes), enabled);
    }
  }

  /** The narrowing keeps the thresholds exactly when they fit the fields of the struct. */
  lemma PushedExact(user: UserConfig, enabled: bool)
    ensures var config := Pushed(user, enabled);
            config.mss == user.mss && config.restoreMss == user.restoreMss
            && config.restoreAfterBytes == user.restoreAfterBytes
            <==> 0 <= user.mss < 0x1_0000 && 0 <= user.restoreMss < 0x1_0000
                 && 0 <= user.restoreAfterBytes < 0x1_0000_0000
  {
  }

  // ----- Connections do not interfere -----

  /** Everything about one connection, and the configuration. */
  datatype Slice = Slice(config: Config, state: Option<ConnState>, socket: Socket, events: seq<ConnEvent>)

  function EventsOf(events: seq<(Cookie, ConnEvent)>, c: Cookie): seq<ConnEvent> {
    if events == [] then []
    else
      var front := EventsOf(events[..|events| - 1], c);
      if events[|events| - 1].0 == c then front + [events[|events| - 1].1] else front
  }

  function Project(s: State, c: Cookie): Slice {
    Slice(s.config, if c in s.connections then Some(s.connections[c]) else None, SocketOf(s, c), EventsOf(s.events, c))
  }

  /** The steps of one connection, with the configuration steps. */
  predicate Concerns(step: Step, c: Cookie) {
    step.SetEnabled? || step.cookie == c
  }

  function Own(steps: seq<Step>, c: Cookie): seq<Step> {
    if steps == [] then []
    else if Concerns(steps[0], c) then [steps[0]] + Own(steps[1..], c)
    else Own(steps[1..], c)
  }

  lemma EventsOfSnoc(events: seq<(Cookie, ConnEvent)>, e: (Cookie, ConnEvent), c: Cookie)
    ensures EventsOf(events + [e], c) == EventsOf(events, c) + (if e.0 == c then [e.1] else [])
  {
    assert (events + [e])[..|events|] == events;
  }

  lemma StepOfOther(maps: Maps, s: State, step: Step, c: Cookie)
    requires !Concerns(step, c)
    ensures Project(Next(maps, s, step), c) == Project(s, c)
  {
    if step.Established? {
      EventsOfSnoc(s.events, (step.cookie, EventOf(step.ctx)), c);
    }
  }

  lemma StepOfOwn(maps: Maps, s: State, t: State, step: Step, c: Cookie)
    requires Concerns(step, c) && Project(s, c) == Project(t, c)
    ensures Project(Next(maps, s, step), c) == Project(Next(maps, t, step), c)
  {
    if step.Established? {
      EventsOfSnoc(s.events, (c, EventOf(step.ctx)), c);
      EventsOfSnoc(t.events, (c, EventOf(step.ctx)), c);
    }
  }

  /** In any interleaving, what happens to a connection is what its own steps do when run alone.
      Evictions count as steps of their victim. */
  lemma {:induction false} Isolation(maps: Maps, s: State, t: State, steps: seq<Step>, c: Cookie)
    requires Project(s, c) == Project(t, c)
    ensures Project(Run(maps, s, steps), c) == Project(Run(maps, t, Own(steps, c)), c)
    decreases |steps|
  {
    if steps != [] {
      var step := steps[0];
      if Concerns(step, c) {
        StepOfOwn(maps, s, t, step, c);
        var own := [step] + Own(steps[1..], c);
        assert own[1..] == Own(steps[1..], c);
        Isolation(maps, Next(maps, s, step), Next(maps, t, step), steps[1..], c);
      } else {
        StepOfOther(maps, s, step, c);
        Isolation(maps, Next(maps, s, step), t, steps[1..], c);
      }
    }
  }

  // ----- Invariant of the connections map -----

  /** No stored entry is marked restored, and none has counted past the threshold. */
  predicate EntriesPending(s: State) {
    forall c :: c in s.connections ==>
      !s.connections[c].mssRestored && s.connections[c].bytesSent <= s.config.restoreAfterBytes
  }

  lemma {:induction false} EntriesStayPending(maps: Maps, s: State, steps: seq<Step>)
    requires EntriesPending(s)
    ensures EntriesPending(Run(maps, s, steps))
    decreases |steps|
  {
    if steps != [] {
      EntriesStayPending(maps, Next(maps, s, steps[0]), steps[1..]);
    }
  }

  // ----- Restoration -----

  /** The exact sum of the lengths of c's segments seen while the program is enabled. */
  function CountedSum(enabled: bool, steps: seq<Step>, c: Cookie): nat
    decreases |steps|
  {
    if steps == [] then 0
    else match steps[0]
      case SetEnabled(e) => CountedSum(e, steps[1..], c)
      case Segment(d, skbLen) => (if enabled && d == c then skbLen else 0) + CountedSum(enabled, steps[1..], c)
      case _ => CountedSum(enabled, steps[1..], c)
  }

  /** c's entry is neither evicted nor created again, and one segment cannot wrap its counter. */
  predicate Undisturbed(config: Config, steps: seq<Step>, c: Cookie) {
    forall step :: step in steps ==>
      && (step.Evict? || step.Established? ==> step.cookie != c)
      && (step.Segment? && step.cookie == c ==> config.restoreAfterBytes + step.skbLen as int < 0x1_0000_0000)
  }

  /** Where a tracked connection stands after `sum` bytes; `small` is its socket with the small MSS. */
  predicate Stands(s: State, c: Cookie, small: Socket, sum: nat) {
    if sum <= s.config.restoreAfterBytes then
      && c in s.connections && s.connections[c] == ConnState(sum, false)
      && SocketOf(s, c) == small
    else
      && c !in s.connections
      && SocketOf(s, c) == Socket(small.mssWrites + [NormalMss(s.config)], small.cbFlags - {WriteHdrOpt})
  }

  lemma StandsStep(maps: Maps, s: State, step: Step, c: Cookie, small: Socket, sum: nat)
    requires Stands(s, c, small, sum) && Undisturbed(s.config, [step], c)
    ensures Stands(Next(maps, s, step), c, small, sum + CountedSum(s.config.enabled, [step], c))
  {
    assert step in [step];
    assert CountedSum(s.config.enabled, [step], c)
           == if step.Segment? && s.config.enabled && step.cookie == c then step.skbLen else 0;
  }

  lemma CountedSumStep(s: State, maps: Maps, steps: seq<Step>, c: Cookie)
    requires steps != []
    ensures CountedSum(s.config.enabled, steps, c)
            == CountedSum(s.config.enabled, [steps[0]], c)
             + CountedSum(Next(maps, s, steps[0]).config.enabled, steps[1..], c)
  {
    assert [steps[0]][1..] == [];
  }

  lemma UndisturbedParts(maps: Maps, s: State, steps: seq<Step>, c: Cookie)
    requires steps != [] && Undisturbed(s.config, steps, c)
    ensures Undisturbed(s.config, [steps[0]], c) && Undisturbed(Next(maps, s, steps[0]).config, steps[1..], c)
  {
    assert Next(maps, s, steps[0]).config.restoreAfterBytes == s.config.restoreAfterBytes;
  }

  lemma {:induction false} StandsRun(maps: Maps, s: State, steps: seq<Step>, c: Cookie, small: Socket, sum: nat)
    requires Stands(s, c, small, sum) && Undisturbed(s.config, steps, c)
    ensures Stands(Run(maps, s, steps), c, small, sum + CountedSum(s.config.enabled, steps, c))
    decreases |steps|
  {
    if steps != [] {
      UndisturbedParts(maps, s, steps, c);
      StandsStep(maps, s, steps[0], c, small, sum);
      CountedSumStep(s, maps, steps, c);
      StandsRun(maps, Next(maps, s, steps[0]), steps[1..], c, small, sum + CountedSum(s.config.enabled, [steps[0]], c));
    }
  }

  lemma {:induction false} ThresholdsFixed(maps: Maps, s: State, steps: seq<Step>)
    ensures Run(maps, s, steps).config == s.config.(enabled := Run(maps, s, steps).config.enabled)
    decreases |steps|
  {
    if steps != [] {
      ThresholdsFixed(maps, Next(maps, s, steps[0]), steps[1..]);
    }
  }

  /** After any run in which a tracked connection is left alone: while its counted bytes do not exceed
      restore_after_bytes its MSS is the small one; past that the normal MSS was written exactly once,
      the callback flag is clear and the entry is gone. */
  lemma Restoration(maps: Maps, s: State, c: Cookie, ctx: SockContext, steps: seq<Step>)
    requires s.config.enabled && Wanted(maps, ctx) && Undisturbed(s.config, steps, c)
    ensures var before := SocketOf(s, c);
            var after := Run(maps, s, [Established(c, ctx)] + steps);
            var sum := CountedSum(true, steps, c);
            if sum <= s.config.restoreAfterBytes then
              && c in after.connections && after.connections[c].bytesSent == sum
              && SocketOf(after, c).mssWrites == before.mssWrites + [s.config.mss]
              && SocketOf(after, c).cbFlags == before.cbFlags + {WriteHdrOpt}
            else
              && c !in after.connections
              && SocketOf(after, c).mssWrites == before.mssWrites + [s.config.mss, NormalMss(s.config)]
              && SocketOf(after, c).cbFlags == before.cbFlags - {WriteHdrOpt}
  {
    var all := [Established(c, ctx)] + steps;
    assert all[1..] == steps;
    var s1 := AfterEstablished(maps, s, c, ctx);
    var small := SocketOf(s1, c);
    StandsRun(maps, s1, steps, c, small, 0);
    ThresholdsFixed(maps, s1, steps);
    assert small.mssWrites + [NormalMss(s.config)] == SocketOf(s, c).mssWrites + [s.config.mss, NormalMss(s.config)];
  }

  /** Without an entry nothing is ever written to the socket: neither to a connection that was not
      wanted, nor to one that was restored, nor to one whose entry was evicted at the small MSS. */
  lemma {:induction false} UntrackedUntouched(maps: Maps, s: State, steps: seq<Step>, c: Cookie)
    requires c !in s.connections
    requires forall step :: step in steps && step.Established? && step.cookie == c ==> !Wanted(maps, step.ctx)
    ensures c !in Run(maps, s, steps).connections && SocketOf(Run(maps, s, steps), c) == SocketOf(s, c)
    decreases |steps|
  {
    if steps != [] {
      assert steps[0] in steps;
      UntrackedUntouched(maps, Next(maps, s, steps[0]), steps[1..], c);
    }
  }

  /** The 32-bit counter decides like the exact sum unless the sum passes 2^32 and comes back below the threshold. */
  lemma CounterWrap(s: State, c: Cookie, skbLen: u32)
    requires s.config.enabled && EntriesPending(s) && c in s.connections
    ensures var sum := s.connections[c].bytesSent + skbLen as int;
            (c !in AfterSegment(s, c, skbLen).connections <==> sum > s.config.restoreAfterBytes)
            <==> sum < 0x1_0000_0000 || sum - 0x1_0000_0000 > s.config.restoreAfterBytes
  {
  }

  /** With the largest threshold no segment ever restores the MSS, with any other some segment does. */
  lemma ThresholdReachable(s: State, c: Cookie)
    requires s.config.enabled && EntriesPending(s) && c in s.connections
    ensures (exists skbLen: u32 :: c !in AfterSegment(s, c, skbLen).connections)
            <==> s.config.restoreAfterBytes < 0xFFFF_FFFF
  {
    if s.config.restoreAfterBytes < 0xFFFF_FFFF {
      var skbLen: u32 := s.config.restoreAfterBytes + 1 - s.connections[c].bytesSent;
      assert c !in AfterSegment(s, c, skbLen).connections;
    }
  }

  // ----- Capacity of the map -----

  /** An entry is evicted only to bring an overfull map back to its bound, which happens before anything else. */
  predicate Legal(s: State, step: Step) {
    if |s.connections| > MAX_ENTRIES then step.Evict? && step.cookie in s.connections else !step.Evict?
  }

  predicate LegalRun(maps: Maps, s: State, steps: seq<Step>) {
    forall i :: 0 <= i < |steps| ==> Legal(Run(maps, s, steps[..i]), steps[i])
  }

  /** Whether the program is enabled, and the connections still waiting for their restoration with the bytes
      they sent so far: read off the steps alone, in unbounded numbers and for a map of any size. */
  datatype Waiting = Waiting(enabled: bool, sums: map<Cookie, nat>)

  function WaitingAfter(maps: Maps, config: Config, steps: seq<Step>): Waiting {
    if steps == [] then Waiting(config.enabled, map[])
    else WaitingNext(maps, config, WaitingAfter(maps, config, steps[..|steps| - 1]), steps[|steps| - 1])
  }

  function WaitingNext(maps: Maps, config: Config, w: Waiting, step: Step): Waiting {
    match step
    case Established(c, ctx) => if w.enabled && Wanted(maps, ctx) then w.(sums := w.sums[c := 0]) else w
    case Segment(c, skbLen) =>
      if !w.enabled || c !in w.sums then w
      else if w.sums[c] + skbLen > config.restoreAfterBytes then w.(sums := w.sums - {c})
      else w.(sums := w.sums[c := w.sums[c] + skbLen])
    case SetEnabled(enabled) => w.(enabled := enabled)
    case Evict(_) => w
  }

  /** At no time do more than 65536 connections wait, however many there are over the whole run. */
  predicate WithinCapacity(maps: Maps, config: Config, steps: seq<Step>) {
    forall i :: 0 <= i <= |steps| ==> |WaitingAfter(maps, config, steps[..i]).sums| <= MAX_ENTRIES
  }

  /** One segment cannot wrap a counter. */
  predicate SegmentsFit(config: Config, steps: seq<Step>) {
    forall step :: step in steps && step.Segment? ==> config.restoreAfterBytes + step.skbLen as int < 0x1_0000_0000
  }

  function Loaded(config: Config): State { State(config, map[], map[], []) }

  /** The map holds exactly the waiting connections, with their exact sums. */
  predicate Matches(config: Config, s: State, w: Waiting) {
    && s.config == config.(enabled := w.enabled)
    && s.connections.Keys == w.sums.Keys
    && forall c :: c in w.sums ==>
         w.sums[c] <= config.restoreAfterBytes && s.connections[c] == ConnState(w.sums[c], false)
  }

  lemma MatchesStep(maps: Maps, config: Config, s: State, w: Waiting, step: Step)
    requires Matches(config, s, w) && !step.Evict? && SegmentsFit(config, [step])
    ensures Matches(config, Next(maps, s, step), WaitingNext(maps, config, w, step))
  {
    assert step in [step];
  }

  lemma {:induction false} RunSnoc(maps: Maps, s: State, steps: seq<Step>, n: nat)
    requires n < |steps|
    ensures Run(maps, s, steps[..n + 1]) == Next(maps, Run(maps, s, steps[..n]), steps[n])
  {
    assert steps[..n + 1] == steps[..n] + [steps[n]];
    RunConcat(maps, s, steps[..n], [steps[n]]);
    var after := Run(maps, s, steps[..n]);
    assert [steps[n]][1..] == [];
    assert Run(maps, after, [steps[n]]) == Run(maps, Next(maps, after, steps[n]), []);
  }

  lemma {:induction false} WaitingSnoc(maps: Maps, config: Config, steps: seq<Step>, n: nat)
    requires n < |steps|
    ensures WaitingAfter(maps, config, steps[..n + 1])
            == WaitingNext(maps, config, WaitingAfter(maps, config, steps[..n]), steps[n])
  {
    assert steps[..n + 1][..n] == steps[..n];
  }

  lemma RoomLeft(config: Config, s: State, w: Waiting, step: Step)
    requires Matches(config, s, w) && |w.sums| <= MAX_ENTRIES && Legal(s, step)
    ensures !step.Evict?
  {
    assert |s.connections| == |s.connections.Keys| == |w.sums.Keys| == |w.sums|;
  }

  lemma {:induction false} MatchesUpTo(maps: Maps, config: Config, steps: seq<Step>, n: nat)
    requires n <= |steps|
    requires LegalRun(maps, Loaded(config), steps) && WithinCapacity(maps, config, steps)
             && SegmentsFit(config, steps)
    ensures MatchesAt(maps, config, steps, n)
    decreases n
  {
    if n > 0 {
      MatchesUpTo(maps, config, steps, n - 1);
      AdvanceAt(maps, config, steps, n - 1);
    } else {
      assert steps[..0] == [];
    }
  }

  predicate MatchesAt(maps: Maps, config: Config, steps: seq<Step>, n: nat)
    requires n <= |steps|
  {
    Matches(config, Run(maps, Loaded(config), steps[..n]), WaitingAfter(maps, config, steps[..n]))
  }

  lemma {:induction false} AdvanceAt(maps: Maps, config: Config, steps: seq<Step>, k: nat)
    requires k < |steps| && MatchesAt(maps, config, steps, k)
    requires LegalRun(maps, Loaded(config), steps) && WithinCapacity(maps, config, steps)
             && SegmentsFit(config, steps)
    ensures MatchesAt(maps, config, steps, k + 1) && !steps[k].Evict?
  {
    AtStep(maps, config, steps, k);
    RunSnoc(maps, Loaded(config), steps, k);
    WaitingSnoc(maps, config, steps, k);
    var s, w := Run(maps, Loaded(config), steps[..k]), WaitingAfter(maps, config, steps[..k]);
    RoomLeft(config, s, w, steps[k]);
    MatchesStep(maps, config, s, w, steps[k]);
  }

  lemma {:induction false} AtStep(maps: Maps, config: Config, steps: seq<Step>, k: nat)
    requires k < |steps|
    requires LegalRun(maps, Loaded(config), steps) && WithinCapacity(maps, config, steps)
             && SegmentsFit(config, steps)
    ensures |WaitingAfter(maps, config, steps[..k]).sums| <= MAX_ENTRIES
    ensures Legal(Run(maps, Loaded(config), steps[..k]), steps[k]) && SegmentsFit(config, [steps[k]])
  {
    assert steps[k] in steps;
  }

  /** As long as never more than 65536 connections wait at one time, nothing is evicted, over runs of any
      length and with any number of connections; and the map holds exactly those that wait. */
  lemma {:induction false} NoEviction(maps: Maps, config: Config, steps: seq<Step>)
    requires LegalRun(maps, Loaded(config), steps) && WithinCapacity(maps, config, steps)
             && SegmentsFit(config, steps)
    ensures forall step :: step in steps ==> !step.Evict?
    ensures Matches(config, Run(maps, Loaded(config), steps), WaitingAfter(maps, config, steps))
  {
    forall i | 0 <= i < |steps|
      ensures !steps[i].Evict?
    {
      MatchesUpTo(maps, config, steps, i);
      AdvanceAt(maps, config, steps, i);
    }
    MatchesUpTo(maps, config, steps, |steps|);
    assert steps[..|steps|] == steps;
  }

  /** The MSS values written to a connection's socket, from loading the program to any later point. */
  lemma {:induction false} MssHistory(maps: Maps, config: Config, before: seq<Step>, c: Cookie,
                                     ctx: SockContext, after: seq<Step>)
    requires Wanted(maps, ctx) && Run(maps, Loaded(config), before).config.enabled
    requires forall step :: step in before && step.Established? ==> step.cookie != c
    requires Undisturbed(config, after, c)
    ensures var s := Run(maps, Loaded(config), before + ([Established(c, ctx)] + after));
            SocketOf(s, c).mssWrites
            == if CountedSum(true, after, c) <= config.restoreAfterBytes then [config.mss]
               else [config.mss, NormalMss(config)]
  {
    var s0 := Loaded(config);
    RunConcat(maps, s0, before, [Established(c, ctx)] + after);
    UntrackedUntouched(maps, s0, before, c);
    ThresholdsFixed(maps, s0, before);
    Restoration(maps, Run(maps, s0, before), c, ctx, after);
  }

  /** So in such a run every wanted connection obeys the restoration law. */
  lemma {:induction false} RestorationWithinCapacity(maps: Maps, config: Config, before: seq<Step>, c: Cookie,
                                                      ctx: SockContext, after: seq<Step>)
    requires var steps := before + ([Established(c, ctx)] + after);
             LegalRun(maps, Loaded(config), steps) && WithinCapacity(maps, config, steps) && SegmentsFit(config, steps)
    requires Wanted(maps, ctx) && WaitingAfter(maps, config, before).enabled
    requires forall step :: step in before + after && step.Established? ==> step.cookie != c
    ensures var s := Run(maps, Loaded(config), before + ([Established(c, ctx)] + after));
            SocketOf(s, c).mssWrites
            == if CountedSum(true, after, c) <= config.restoreAfterBytes then [config.mss]
               else [config.mss, NormalMss(config)]
  {
    var steps := before + ([Established(c, ctx)] + after);
    NoEviction(maps, config, steps);
    MatchesUpTo(maps, config, steps, |before|);
    assert steps[..|before|] == before;
    forall step | step in before || step in after
      ensures step in steps && step in before + after
    {
    }
    assert Undisturbed(config, after, c);
    MssHistory(maps, config, before, c, ctx, after);
  }

  // ----- A run read off its steps alone -----

  function EnabledAfter(config: Config, steps: seq<Step>): bool {
    if steps == [] then config.enabled
    else match steps[|steps| - 1]
      case SetEnabled(enabled) => enabled
      case _ => EnabledAfter(config, steps[..|steps| - 1])
  }

  /** The last step establishes a connection that is to get a fake: the switch is on, the address is not excluded
      and the port is a target. */
  predicate Takes(maps: Maps, config: Config, steps: seq<Step>) {
    steps != [] &&
    match steps[|steps| - 1]
    case Established(_, ctx) =>
      && EnabledAfter(config, steps[..|steps| - 1])
      && ctx.remoteIp4 !in maps.excludeIps && Ntohl(ctx.remotePort) % 0x1_0000 in maps.targetPorts
    case _ => false
  }

  /** All events, in order: one for each such step and none for any other. */
  function EventsRead(maps: Maps, config: Config, steps: seq<Step>): seq<(Cookie, ConnEvent)> {
    if steps == [] then []
    else
      EventsRead(maps, config, steps[..|steps| - 1])
      + if !Takes(maps, config, steps) then []
        else
          var c, ctx := steps[|steps| - 1].cookie, steps[|steps| - 1].ctx;
          [(c, ConnEvent(ctx.localIp4, ctx.remoteIp4, ctx.localPort % 0x1_0000, Ntohl(ctx.remotePort) % 0x1_0000,
                         ctx.sndNxt, ctx.rcvNxt))]
  }

  /** What c sent since it was taken, as the 32-bit counter has it; None before, when it passed the threshold, and
      after an eviction. */
  function Counted(maps: Maps, config: Config, steps: seq<Step>, c: Cookie): Option<nat> {
    if steps == [] then None
    else
      var front := steps[..|steps| - 1];
      var before := Counted(maps, config, front, c);
      match steps[|steps| - 1]
      case Established(d, _) => if d == c && Takes(maps, config, steps) then Some(0) else before
      case Segment(d, skbLen) =>
        if d != c || !EnabledAfter(config, front) || before.None? then before
        else
          var n := (before.value + skbLen) % 0x1_0000_0000;
          if n > config.restoreAfterBytes then None else Some(n)
      case SetEnabled(_) => before
      case Evict(d) => if d == c then None else before
  }

  /** With the last step, a segment of c, its count passes the threshold. */
  predicate Restores(maps: Maps, config: Config, steps: seq<Step>, c: Cookie) {
    && steps != [] && steps[|steps| - 1].Segment?
    && Counted(maps, config, steps[..|steps| - 1], c).Some? && Counted(maps, config, steps, c).None?
  }

  /** The values TCP_MAXSEG of c's socket was set to: the small one when c was taken, the normal one when its
      count passed the threshold, and nothing at any other time. */
  function WritesRead(maps: Maps, config: Config, steps: seq<Step>, c: Cookie): seq<int> {
    if steps == [] then []
    else
      WritesRead(maps, config, steps[..|steps| - 1], c)
      + if Takes(maps, config, steps) && steps[|steps| - 1].cookie == c then [config.mss]
        else if Restores(maps, config, steps, c) then [if config.restoreMss != 0 then config.restoreMss else 1460]
        else []
  }

  /** Whether the callback flag is on: from when c was taken until its count passed the threshold. */
  predicate FlagRead(maps: Maps, config: Config, steps: seq<Step>, c: Cookie) {
    steps != [] &&
    if Takes(maps, config, steps) && steps[|steps| - 1].cookie == c then true
    else !Restores(maps, config, steps, c) && FlagRead(maps, config, steps[..|steps| - 1], c)
  }

  /** The entry of a connection against the count read off the steps. */
  predicate EntryIs(s: State, c: Cookie, counted: Option<nat>) {
    match counted
    case None => c !in s.connections
    case Some(n) => c in s.connections && s.connections[c].bytesSent == n && !s.connections[c].mssRestored
  }

  predicate ConfigReads(config: Config, steps: seq<Step>, s: State) {
    s.config == config.(enabled := EnabledAfter(config, steps))
  }

  predicate EntryReads(maps: Maps, config: Config, steps: seq<Step>, s: State, c: Cookie) {
    EntryIs(s, c, Counted(maps, config, steps, c))
  }

  predicate SocketReads(maps: Maps, config: Config, steps: seq<Step>, s: State, c: Cookie) {
    SocketOf(s, c)
    == Socket(WritesRead(maps, config, steps, c), if FlagRead(maps, config, steps, c) then {WriteHdrOpt} else {})
  }

  lemma TakesWanted(maps: Maps, config: Config, steps: seq<Step>, s: State)
    requires steps != [] && ConfigReads(config, steps[..|steps| - 1], s)
    ensures var last := steps[|steps| - 1];
            Takes(maps, config, steps) <==> last.Established? && s.config.enabled && Wanted(maps, last.ctx)
  {
  }

  lemma {:induction false} EventsReadStep(maps: Maps, config: Config, steps: seq<Step>, s: State)
    requires steps != [] && ConfigReads(config, steps[..|steps| - 1], s)
    requires s.events == EventsRead(maps, config, steps[..|steps| - 1])
    ensures ConfigReads(config, steps, Next(maps, s, steps[|steps| - 1]))
    ensures Next(maps, s, steps[|steps| - 1]).events == EventsRead(maps, config, steps)
  {
    TakesWanted(maps, config, steps, s);
  }

  lemma {:induction false} EntryReadsStep(maps: Maps, config: Config, steps: seq<Step>, s: State, c: Cookie)
    requires steps != [] && ConfigReads(config, steps[..|steps| - 1], s)
    requires EntryReads(maps, config, steps[..|steps| - 1], s, c)
    ensures EntryReads(maps, config, steps, Next(maps, s, steps[|steps| - 1]), c)
  {
    TakesWanted(maps, config, steps, s);
  }

  lemma {:induction false} SocketReadsStep(maps: Maps, config: Config, steps: seq<Step>, s: State, c: Cookie)
    requires steps != [] && ConfigReads(config, steps[..|steps| - 1], s)
    requires EntryReads(maps, config, steps[..|steps| - 1], s, c)
    requires SocketReads(maps, config, steps[..|steps| - 1], s, c)
    ensures SocketReads(maps, config, steps, Next(maps, s, steps[|steps| - 1]), c)
  {
    TakesWanted(maps, config, steps, s);
    EntryReadsStep(maps, config, steps, s, c);
  }

  /** Over every run, whatever connections, segments, evictions and switchings it interleaves: the switch, every
      event, and of each connection the entry, every MSS written and the callback flag are what the steps say. */
  lemma {:induction false} RunReadsBack(maps: Maps, config: Config, steps: seq<Step>, c: Cookie)
    ensures var s := Run(maps, Loaded(config), steps);
            && s.config == config.(enabled := EnabledAfter(config, steps))
            && s.events == EventsRead(maps, config, steps)
            && EntryIs(s, c, Counted(maps, config, steps, c))
            && SocketOf(s, c).mssWrites == WritesRead(maps, config, steps, c)
            && SocketOf(s, c).cbFlags == if FlagRead(maps, config, steps, c) then {WriteHdrOpt} else {}
  {
    if steps != [] {
      var front := steps[..|steps| - 1];
      RunReadsBack(maps, config, front, c);
      var s := Run(maps, Loaded(config), front);
      RunSnoc(maps, Loaded(config), steps, |front|);
      assert steps[..|front| + 1] == steps;
      EventsReadStep(maps, config, steps, s);
      EntryReadsStep(maps, config, steps, s, c);
      SocketReadsStep(maps, config, steps, s, c);
    }
  }

  lemma {:induction false} RunConcat(maps: Maps, s: State, a: seq<Step>, b: seq<Step>)
    ensures Run(maps, s, a + b) == Run(maps, Run(maps, s, a), b)
    decreases |a|
  {
    if a == [] {
      assert a + b == b;
    } else {
      assert (a + b)[1..] == a[1..] + b;
      RunConcat(maps, Next(maps, s, a[0]), a[1..], b);
    }
  }
}
