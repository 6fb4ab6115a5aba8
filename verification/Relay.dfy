/** The relay of one connection: fakes first, then the real ClientHello, then two concurrent copies. */
module Relay {
  import opened Bytes
  import opened Wrappers
  import opened RawSocket
  import ClientHello
  import FakeTtl
  import SeqTracker

  // ----- Injecting -----

  /** What goes out on the server side: fakes through the raw socket, real bytes through the connection. */
  datatype WireItem = Fake(conn: ConnInfo, ttl: int) | Real(bytes: seq<byte>)

  const MAX_FAKES := 3

  /** The fakes sent when the sends succeed or fail as told: up to three, none after a failure. */
  function FakesSent(fake: WireItem, sendOk: nat -> bool, from: nat): seq<WireItem>
    requires from <= MAX_FAKES
    decreases MAX_FAKES - from
  {
    if from == MAX_FAKES || !sendOk(from) then [] else [fake] + FakesSent(fake, sendOk, from + 1)
  }

  /** Sends the fakes, then writes the buffered ClientHello, of which only `written` bytes may get out.
      Returns what went out and whether the copies are started. */
  method InjectAndForward(firstRead: Option<seq<byte>>, conn: ConnInfo, configuredTtl: int, sendOk: nat -> bool,
                          written: nat)
    returns (wire: seq<WireItem>, piped: bool)
    requires firstRead.Some? ==> written <= |firstRead.value|
    ensures firstRead.None? ==> wire == [] && !piped
    ensures firstRead.Some? ==>
              && wire == FakesSent(Fake(conn, FakeTtl.FakeTtl(configuredTtl, conn.hopLimit)), sendOk, 0)
                       + [Real(firstRead.value[..written])]
              && (piped <==> written == |firstRead.value|)
  {
    wire := [];
    if firstRead.None? {
      return wire, false;
    }
    var clientHello := firstRead.value;
    var ttl := FakeTtl.FakeTtl(configuredTtl, conn.hopLimit);
    var i := 0;
    while i < MAX_FAKES
      invariant 0 <= i <= MAX_FAKES
      invariant wire + FakesSent(Fake(conn, ttl), sendOk, i) == FakesSent(Fake(conn, ttl), sendOk, 0)
    {
      if !sendOk(i) {
        break;
      }
      wire := wire + [Fake(conn, ttl)];
      i := i + 1;
    }
    wire := wire + [Real(clientHello[..written])];
    piped := written == |clientHello|;
  }

  // ----- The two copies -----

  /** Up copies from the application to the server, Down the other way. */
  datatype Dir = Up | Down

  /** One copy loop: all bytes its source produced so far, how many it has read, those it read but has not
      written, and those it delivered. `closing` is set when the last read reported an error. */
  datatype Half = Half(produced: seq<byte>, read: nat, buffer: seq<byte>,
    delivered: seq<byte>, closing: bool, running: bool)

  datatype Pipe = Pipe(up: Half, down: Half, wire: seq<WireItem>)

  const BUFFER_SIZE := 32768

  /** Bytes arrive at a source; a loop reads n of them, perhaps with an error; writes its buffer; fails writing
      after k bytes. Deadlines and closed connections are reads with an error. */
  datatype Action =
    | Produce(dir: Dir, bytes: seq<byte>)
    | Read(dir: Dir, n: nat, error: bool)
    | Write(dir: Dir)
    | WriteFails(dir: Dir, k: nat)

  function HalfOf(p: Pipe, d: Dir): Half {
    if d == Up then p.up else p.down
  }

  /** A loop reads only with an empty buffer and while it runs, and never more than is there. */
  predicate Enabled(h: Half, action: Action) {
    match action
    case Produce(_, _) => true
    case Read(_, n, _) => h.running && h.buffer == [] && h.read + n <= |h.produced| && n <= BUFFER_SIZE
    case Write(_) => h.running && h.buffer != []
    case WriteFails(_, k) => h.running && h.buffer != [] && k < |h.buffer|
  }

  function AfterHalf(h: Half, action: Action): Half
    requires Enabled(h, action)
  {
    match action
    case Produce(_, bytes) => h.(produced := h.produced + bytes)
    case Read(_, n, error) =>
      if n == 0 then h.(running := !error)
      else h.(read := h.read + n, buffer := h.produced[h.read..h.read + n], closing := error)
    case Write(_) => h.(delivered := h.delivered + h.buffer, buffer := [], running := !h.closing)
    case WriteFails(_, k) => h.(delivered := h.delivered + h.buffer[..k], running := false)
  }

  /** The real bytes an action puts on the wire to the server. */
  function Sent(h: Half, action: Action): seq<WireItem>
    requires Enabled(h, action)
  {
    match action
    case Write(Up) => [Real(h.buffer)]
    case WriteFails(Up, k) => [Real(h.buffer[..k])]
    case _ => []
  }

  /** Actions that cannot happen in a state are skipped. */
  function Next(p: Pipe, action: Action): Pipe {
    var h := HalfOf(p, action.dir);
    if !Enabled(h, action) then p
    else
      var h' := AfterHalf(h, action);
      var wire := p.wire + Sent(h, action);
      if action.dir == Up then Pipe(h', p.down, wire) else Pipe(p.up, h', wire)
  }

  function Run(p: Pipe, actions: seq<Action>): Pipe {
    if actions == [] then p else Next(Run(p, actions[..|actions| - 1]), actions[|actions| - 1])
  }

  /** The state in which the copies start: the ClientHello is delivered already. */
  function Start(fakes: seq<WireItem>, clientHello: seq<byte>): (p: Pipe)
    ensures InOrder(p.up) && InOrder(p.down) && clientHello <= p.up.delivered
  {
    Pipe(Half(clientHello, |clientHello|, [], clientHello, false, true),
         Half([], 0, [], [], false, true),
         fakes + [Real(clientHello)])
  }

  // ----- Nothing is lost, reordered or invented -----

  /** Exactly the bytes read are delivered or in the buffer; a loop that stopped may have lost only the rest
      of a buffer whose write failed. */
  predicate InOrder(h: Half) {
    && h.read <= |h.produced|
    && (h.running ==> h.delivered + h.buffer == h.produced[..h.read])
    && (!h.running && h.buffer == [] ==> h.delivered == h.produced[..h.read])
    && |h.delivered| <= h.read && h.delivered == h.produced[..|h.delivered|]
  }

  lemma InOrderStep(h: Half, action: Action)
    requires InOrder(h) && Enabled(h, action)
    ensures InOrder(AfterHalf(h, action))
    ensures h.delivered <= AfterHalf(h, action).delivered
  {
    match action
    case Produce(_, bytes) =>
      assert (h.produced + bytes)[..h.read] == h.produced[..h.read];
      assert (h.produced + bytes)[..|h.delivered|] == h.produced[..|h.delivered|];
    case Read(_, n, _) =>
      assert h.produced[..h.read] + h.produced[h.read..h.read + n] == h.produced[..h.read + n];
    case Write(_) =>
      assert h.delivered + h.buffer + [] == h.produced[..h.read];
    case WriteFails(_, k) =>
      assert h.delivered + h.buffer[..k] == h.produced[..h.read][..|h.delivered| + k];
  }

  // ----- One copy loop -----

  function RunHalf(h: Half, actions: seq<Action>): Half {
    if actions == [] then h
    else
      var before, last := RunHalf(h, actions[..|actions| - 1]), actions[|actions| - 1];
      if Enabled(before, last) then AfterHalf(before, last) else before
  }

  lemma {:induction false} RunHalfConcat(h: Half, a: seq<Action>, b: seq<Action>)
    ensures RunHalf(h, a + b) == RunHalf(RunHalf(h, a), b)
    decreases |b|
  {
    if b == [] {
      assert a + b == a;
    } else {
      assert (a + b)[..|a + b| - 1] == a + b[..|b| - 1];
      RunHalfConcat(h, a, b[..|b| - 1]);
    }
  }

  lemma RunHalfOne(h: Half, action: Action)
    ensures RunHalf(h, [action]) == if Enabled(h, action) then AfterHalf(h, action) else h
  {
    assert [action][..0] == [];
  }

  lemma {:induction false} RunHalfInOrder(h: Half, actions: seq<Action>)
    requires InOrder(h)
    ensures InOrder(RunHalf(h, actions)) && h.delivered <= RunHalf(h, actions).delivered
  {
    if actions != [] {
      var front, last := actions[..|actions| - 1], actions[|actions| - 1];
      RunHalfInOrder(h, front);
      if Enabled(RunHalf(h, front), last) {
        InOrderStep(RunHalf(h, front), last);
      }
    }
  }

  lemma {:induction false} RunHalfSnoc(h: Half, actions: seq<Action>, last: Action)
    ensures RunHalf(h, actions + [last])
            == if Enabled(RunHalf(h, actions), last) then AfterHalf(RunHalf(h, actions), last) else RunHalf(h, actions)
  {
    RunHalfConcat(h, actions, [last]);
    RunHalfOne(RunHalf(h, actions), last);
  }

  /** One turn of a copy loop: what arrived before the read, how much the read asks for and whether it reports
      an error, and after how many bytes the write fails, if it does. */
  datatype Round = Round(arrived: seq<byte>, n: nat, error: bool, writeFails: Option<nat>)

  function Min(a: nat, b: nat): nat { if a < b then a else b }

  /** A read returns no more than is there and than the buffer holds. */
  function Got(h: Half, r: Round): nat
    requires h.read <= |h.produced|
  {
    Min(Min(r.n, |h.produced| + |r.arrived| - h.read), BUFFER_SIZE)
  }

  function RoundActions(d: Dir, h: Half, r: Round): seq<Action>
    requires h.read <= |h.produced|
  {
    var got := Got(h, r);
    [Produce(d, r.arrived), Read(d, got, r.error)]
    + if got == 0 then []
      else match r.writeFails case None => [Write(d)] case Some(k) => [WriteFails(d, Min(k, got - 1))]
  }

  /** The actions of a loop from h on: its turns until it stops. */
  function LoopActions(d: Dir, h: Half, rounds: seq<Round>): seq<Action>
    requires InOrder(h)
    decreases |rounds|
  {
    if rounds == [] || !h.running then []
    else
      RunHalfInOrder(h, RoundActions(d, h, rounds[0]));
      RoundActions(d, h, rounds[0]) + LoopActions(d, RunHalf(h, RoundActions(d, h, rounds[0])), rounds[1..])
  }

  /** The state between two turns: the buffer is written out and the loop has not stopped. */
  predicate BetweenTurns(h: Half) {
    InOrder(h) && h.running && h.buffer == []
  }

  lemma RoundReads(d: Dir, h: Half, r: Round)
    requires BetweenTurns(h)
    ensures var got := Got(h, r);
            var produced := h.produced + r.arrived;
            RunHalf(h, [Produce(d, r.arrived), Read(d, got, r.error)])
            == if got == 0 then h.(produced := produced, running := !r.error)
               else Half(produced, h.read + got, produced[h.read..h.read + got], h.delivered, r.error, true)
  {
    RunHalfOne(h, Produce(d, r.arrived));
    RunHalfSnoc(h, [Produce(d, r.arrived)], Read(d, Got(h, r), r.error));
    assert [Produce(d, r.arrived)] + [Read(d, Got(h, r), r.error)]
           == [Produce(d, r.arrived), Read(d, Got(h, r), r.error)];
  }

  /** What one turn comes to. */
  lemma RoundRun(d: Dir, h: Half, r: Round)
    requires BetweenTurns(h)
    ensures var got := Got(h, r);
            var produced := h.produced + r.arrived;
            var chunk := produced[h.read..h.read + got];
            RunHalf(h, RoundActions(d, h, r))
            == if got == 0 then h.(produced := produced, running := !r.error)
               else if r.writeFails.None? then
                 Half(produced, h.read + got, [], h.delivered + chunk, r.error, !r.error)
               else
                 Half(produced, h.read + got, chunk, h.delivered + chunk[..Min(r.writeFails.value, got - 1)],
                      r.error, false)
  {
    var got := Got(h, r);
    var front := [Produce(d, r.arrived), Read(d, got, r.error)];
    RoundReads(d, h, r);
    if got == 0 {
      assert front + [] == front;
    } else {
      RunHalfSnoc(h, front, match r.writeFails case None => Write(d) case Some(k) => WriteFails(d, Min(k, got - 1)));
    }
  }

  /** What a loop has left to do decides where it ends. */
  predicate SameEnd(d: Dir, start: Half, rounds: seq<Round>, h: Half, rest: seq<Round>) {
    InOrder(start) && InOrder(h) && RunHalf(start, LoopActions(d, start, rounds)) == RunHalf(h, LoopActions(d, h, rest))
  }

  /** Reads the next n bytes that the source produced into the buffer. */
  method ReadInto(buf: array<byte>, produced: seq<byte>, read: nat, n: nat)
    requires read + n <= |produced| && n <= buf.Length
    modifies buf
    ensures buf[..n] == produced[read..read + n]
  {
    forall i | 0 <= i < n {
      buf[i] := produced[read + i];
    }
  }

  /** One turn: reads into the buffer and writes it out. */
  method CopyTurn(d: Dir, buf: array<byte>, h: Half, r: Round) returns (half: Half)
    requires BetweenTurns(h) && buf.Length == BUFFER_SIZE
    modifies buf
    ensures half == RunHalf(h, RoundActions(d, h, r))
  {
    RoundRun(d, h, r);
    var n, produced := Got(h, r), h.produced + r.arrived;
    ReadInto(buf, produced, h.read, n);
    var chunk := buf[..n];
    if n == 0 {
      half := h.(produced := produced, running := !r.error);
    } else if r.writeFails.Some? {
      half := Half(produced, h.read + n, chunk, h.delivered + chunk[..Min(r.writeFails.value, n - 1)], r.error, false);
    } else {
      half := Half(produced, h.read + n, [], h.delivered + chunk, r.error, !r.error);
    }
  }

  lemma TurnKeeps(d: Dir, h: Half, r: Round)
    requires BetweenTurns(h)
    ensures var next := RunHalf(h, RoundActions(d, h, r));
            InOrder(next) && (next.running ==> BetweenTurns(next))
  {
    RunHalfInOrder(h, RoundActions(d, h, r));
    RoundRun(d, h, r);
  }

  /** A read returns as much as it asks for, as there is and as fits 32768 bytes, whichever is least. */
  lemma GotIsLeast(h: Half, r: Round)
    requires h.read <= |h.produced|
    ensures var n, available := Got(h, r), |h.produced| + |r.arrived| - h.read;
            n <= r.n && n <= available && n <= 32768 && (n == r.n || n == available || n == 32768)
  {
  }

  /** All a turn reads is delivered unless the write fails, also when the read reports an error, which ends the
      loop afterwards. */
  lemma TurnDelivers(d: Dir, h: Half, r: Round) returns (n: nat)
    requires BetweenTurns(h) && r.writeFails.None?
    ensures var available := |h.produced| + |r.arrived| - h.read;
            n <= r.n && n <= available && n <= 32768 && (n == r.n || n == available || n == 32768)
    ensures var next, produced := RunHalf(h, RoundActions(d, h, r)), h.produced + r.arrived;
            && next.produced == produced && next.read == h.read + n && next.running == !r.error
            && next.delivered == h.delivered + produced[h.read..h.read + n]
  {
    n := Got(h, r);
    GotIsLeast(h, r);
    RoundRun(d, h, r);
    if n == 0 {
      assert h.delivered + (h.produced + r.arrived)[h.read..h.read] == h.delivered;
    }
  }

  lemma FrontOfSlice(b: seq<byte>, at: nat, n: nat, k: nat)
    requires k <= n && at + n <= |b|
    ensures b[at..at + n][..k] == b[at..at + k]
  {
  }

  /** A write that fails after k bytes, at least one less than there were, delivers just these, and ends the loop;
      the rest of what was read is lost. A turn that reads nothing does not write. */
  lemma TurnFails(d: Dir, h: Half, r: Round) returns (n: nat, k: nat)
    requires BetweenTurns(h) && r.writeFails.Some?
    ensures var available := |h.produced| + |r.arrived| - h.read;
            n <= r.n && n <= available && n <= 32768 && (n == r.n || n == available || n == 32768)
    ensures n > 0 ==> k <= r.writeFails.value && k < n && (k == r.writeFails.value || k == n - 1)
    ensures var next, produced := RunHalf(h, RoundActions(d, h, r)), h.produced + r.arrived;
            && next.produced == produced && next.read == h.read + n
            && if n == 0 then next.delivered == h.delivered && next.running == !r.error
               else next.delivered == h.delivered + produced[h.read..h.read + k] && !next.running
  {
    n, k := Got(h, r), 0;
    RoundRun(d, h, r);
    GotIsLeast(h, r);
    if n > 0 {
      k := Min(r.writeFails.value, n - 1);
      FrontOfSlice(h.produced + r.arrived, h.read, n, k);
    }
  }

  /** One copy loop: turns until a write fails or a read reports an error. Returns the loop's state after them:
      that of its actions, with what it delivered a prefix of what its source produced. */
  method CopyLoop(d: Dir, start: Half, rounds: seq<Round>) returns (half: Half)
    requires BetweenTurns(start)
    ensures half == RunHalf(start, LoopActions(d, start, rounds))
    ensures InOrder(half) && start.delivered <= half.delivered <= half.produced
  {
    var buf := new byte[BUFFER_SIZE](_ => 0);
    half := start;
    var k := 0;
    while k < |rounds| && half.running
      invariant 0 <= k <= |rounds|
      invariant InOrder(half) && (half.running ==> BetweenTurns(half))
      invariant SameEnd(d, start, rounds, half, rounds[k..])
    {
      LoopTurn(d, start, rounds, half, k);
      TurnKeeps(d, half, rounds[k]);
      half := CopyTurn(d, buf, half, rounds[k]);
      k := k + 1;
    }
    LoopEnds(d, start, rounds, half, rounds[k..]);
  }

  lemma LoopTurn(d: Dir, start: Half, rounds: seq<Round>, h: Half, k: nat)
    requires k < |rounds| && BetweenTurns(h) && SameEnd(d, start, rounds, h, rounds[k..])
    ensures InOrder(RunHalf(h, RoundActions(d, h, rounds[k])))
    ensures SameEnd(d, start, rounds, RunHalf(h, RoundActions(d, h, rounds[k])), rounds[k + 1..])
  {
    LoopStep(d, h, rounds[k..]);
    assert rounds[k..][1..] == rounds[k + 1..];
  }

  lemma LoopEnds(d: Dir, start: Half, rounds: seq<Round>, h: Half, rest: seq<Round>)
    requires SameEnd(d, start, rounds, h, rest) && (rest == [] || !h.running)
    ensures h == RunHalf(start, LoopActions(d, start, rounds))
    ensures start.delivered <= h.delivered <= h.produced
  {
    RunHalfInOrder(start, LoopActions(d, start, rounds));
    DeliveredIsPrefix(h);
  }

  /** A loop's run is its first turn and the run of the rest. */
  lemma LoopStep(d: Dir, h: Half, rounds: seq<Round>)
    requires InOrder(h) && h.running && rounds != []
    ensures var next := RunHalf(h, RoundActions(d, h, rounds[0]));
            && InOrder(next)
            && RunHalf(h, LoopActions(d, h, rounds)) == RunHalf(next, LoopActions(d, next, rounds[1..]))
  {
    var first := RoundActions(d, h, rounds[0]);
    RunHalfInOrder(h, first);
    RunHalfConcat(h, first, LoopActions(d, RunHalf(h, first), rounds[1..]));
  }

  /** A loop that stopped delivers nothing more: what it had not read is lost. */
  lemma {:induction false} StoppedStays(h: Half, actions: seq<Action>)
    requires !h.running
    ensures RunHalf(h, actions).delivered == h.delivered && RunHalf(h, actions).read == h.read
            && !RunHalf(h, actions).running
  {
    if actions != [] {
      StoppedStays(h, actions[..|actions| - 1]);
    }
  }

  /** The actions of one direction. */
  function OfDir(actions: seq<Action>, d: Dir): seq<Action> {
    if actions == [] then []
    else OfDir(actions[..|actions| - 1], d) + if actions[|actions| - 1].dir == d then [actions[|actions| - 1]] else []
  }

  /** In any interleaving, each direction is where its own actions bring it. */
  lemma {:induction false} DirectionsAreIndependent(p: Pipe, actions: seq<Action>, d: Dir)
    ensures HalfOf(Run(p, actions), d) == RunHalf(HalfOf(p, d), OfDir(actions, d))
  {
    if actions != [] {
      var front, last := actions[..|actions| - 1], actions[|actions| - 1];
      DirectionsAreIndependent(p, front, d);
      if last.dir == d {
        RunHalfConcat(HalfOf(p, d), OfDir(front, d), [last]);
        RunHalfOne(RunHalf(HalfOf(p, d), OfDir(front, d)), last);
      } else {
        assert OfDir(front, d) + [] == OfDir(front, d);
      }
    }
  }

  /** So two copy loops, interleaved in any way, end where each ends on its own: with what was delivered in
      each direction a prefix of what was produced, and the ClientHello first towards the server. */
  lemma InterleavedLoops(fakes: seq<WireItem>, clientHello: seq<byte>, actions: seq<Action>,
                         up: seq<Round>, down: seq<Round>)
    requires var p := Start(fakes, clientHello);
             OfDir(actions, Up) == LoopActions(Up, p.up, up) && OfDir(actions, Down) == LoopActions(Down, p.down, down)
    ensures var p, end := Start(fakes, clientHello), Run(Start(fakes, clientHello), actions);
            && end.up == RunHalf(p.up, LoopActions(Up, p.up, up))
            && end.down == RunHalf(p.down, LoopActions(Down, p.down, down))
            && clientHello <= end.up.delivered <= end.up.produced && end.down.delivered <= end.down.produced
  {
    var p := Start(fakes, clientHello);
    DirectionsAreIndependent(p, actions, Up);
    DirectionsAreIndependent(p, actions, Down);
    RunHalfInOrder(p.up, LoopActions(Up, p.up, up));
    RunHalfInOrder(p.down, LoopActions(Down, p.down, down));
    DeliveredIsPrefix(Run(p, actions).up);
    DeliveredIsPrefix(Run(p, actions).down);
  }

  /** The bytes of the real items of the wire. */
  function RealBytes(wire: seq<WireItem>): seq<byte> {
    if wire == [] then []
    else RealBytes(wire[..|wire| - 1]) + match wire[|wire| - 1] { case Real(b) => b case Fake(_, _) => [] }
  }

  lemma RealBytesSnoc(wire: seq<WireItem>, item: WireItem)
    ensures RealBytes(wire + [item]) == RealBytes(wire) + match item { case Real(b) => b case Fake(_, _) => [] }
  {
    assert (wire + [item])[..|wire|] == wire;
  }

  lemma {:induction false} FakesCarryNoBytes(fakes: seq<WireItem>)
    requires forall f :: f in fakes ==> f.Fake?
    ensures RealBytes(fakes) == []
  {
    if fakes != [] {
      assert fakes[|fakes| - 1] in fakes && forall f :: f in fakes[..|fakes| - 1] ==> f in fakes;
      FakesCarryNoBytes(fakes[..|fakes| - 1]);
    }
  }

  /** The wire is the fakes and then real bytes only, and these are what Up delivered. */
  predicate FakesThenReal(p: Pipe, fakes: seq<WireItem>) {
    && fakes <= p.wire
    && (forall i :: |fakes| <= i < |p.wire| ==> p.wire[i].Real?)
    && RealBytes(p.wire) == p.up.delivered
  }

  lemma FakesThenRealStep(p: Pipe, action: Action, fakes: seq<WireItem>)
    requires FakesThenReal(p, fakes)
    ensures FakesThenReal(Next(p, action), fakes)
  {
    var h := HalfOf(p, action.dir);
    if Enabled(h, action) {
      if Sent(h, action) != [] {
        assert p.wire + Sent(h, action) == p.wire + [Sent(h, action)[0]];
        RealBytesSnoc(p.wire, Sent(h, action)[0]);
      } else {
        assert p.wire + Sent(h, action) == p.wire;
      }
    }
  }

  lemma {:induction false} PipeInvariant(fakes: seq<WireItem>, clientHello: seq<byte>, actions: seq<Action>)
    requires forall f :: f in fakes ==> f.Fake?
    ensures var p := Run(Start(fakes, clientHello), actions);
            InOrder(p.up) && InOrder(p.down) && FakesThenReal(p, fakes) && clientHello <= p.up.delivered
  {
    if actions == [] {
      StartFakesThenReal(fakes, clientHello);
    } else {
      var front, last := actions[..|actions| - 1], actions[|actions| - 1];
      PipeInvariant(fakes, clientHello, front);
      var p := Run(Start(fakes, clientHello), front);
      FakesThenRealStep(p, last, fakes);
      HalvesStep(p, last);
    }
  }

  lemma {:induction false} StartFakesThenReal(fakes: seq<WireItem>, clientHello: seq<byte>)
    requires forall f :: f in fakes ==> f.Fake?
    ensures FakesThenReal(Start(fakes, clientHello), fakes)
  {
    FakesCarryNoBytes(fakes);
    RealBytesSnoc(fakes, Real(clientHello));
    var p := Start(fakes, clientHello);
    assert p.wire == fakes + [Real(clientHello)];
    assert RealBytes(p.wire) == [] + clientHello == p.up.delivered;
  }

  lemma HalvesStep(p: Pipe, action: Action)
    requires InOrder(p.up) && InOrder(p.down)
    ensures InOrder(Next(p, action).up) && InOrder(Next(p, action).down)
    ensures p.up.delivered <= Next(p, action).up.delivered
  {
    if Enabled(HalfOf(p, action.dir), action) {
      InOrderStep(HalfOf(p, action.dir), action);
    }
  }

  lemma {:induction false} FakesSentAreFakes(fake: WireItem, sendOk: nat -> bool, from: nat)
    requires from <= MAX_FAKES
    ensures var n := |FakesSent(fake, sendOk, from)|;
            && from + n <= 3 && (forall i: nat :: from <= i < from + n ==> sendOk(i))
            && (from + n < 3 ==> !sendOk(from + n))
    ensures forall f :: f in FakesSent(fake, sendOk, from) ==> f == fake
    decreases MAX_FAKES - from
  {
    if from < MAX_FAKES {
      FakesSentAreFakes(fake, sendOk, from + 1);
    }
  }

  /** In any interleaving of the two copies: what was delivered in each direction is at all times a prefix of
      what was produced; towards the server it starts with the buffered ClientHello; all fakes, at most three
      and all alike, come before the first real byte; and a loop that never failed to write has delivered
      everything it read except what is in its buffer. */
  lemma RelayDeliversInOrder(conn: ConnInfo, ttl: int, sendOk: nat -> bool, clientHello: seq<byte>,
                            actions: seq<Action>)
    ensures var fakes := FakesSent(Fake(conn, ttl), sendOk, 0);
            var p := Run(Start(fakes, clientHello), actions);
            && p.up.delivered <= p.up.produced && p.down.delivered <= p.down.produced
            && clientHello <= p.up.delivered == RealBytes(p.wire)
            && |fakes| <= 3 && fakes <= p.wire && (forall f :: f in fakes ==> f == Fake(conn, ttl))
            && (forall i :: |fakes| <= i < |p.wire| ==> p.wire[i].Real?)
            && InOrder(p.up) && InOrder(p.down)
  {
    FakesSentAreFakes(Fake(conn, ttl), sendOk, 0);
    var fakes := FakesSent(Fake(conn, ttl), sendOk, 0);
    PipeInvariant(fakes, clientHello, actions);
    var p := Run(Start(fakes, clientHello), actions);
    DeliveredIsPrefix(p.up);
    DeliveredIsPrefix(p.down);
  }

  lemma DeliveredIsPrefix(h: Half)
    requires InOrder(h)
    ensures h.delivered <= h.produced
  {
    if h.running {
      assert h.delivered == (h.delivered + h.buffer)[..|h.delivered|];
    }
  }

  // ----- The fakes of a whole connection -----

  /** What a receiver on the way should read in a fake. */
  function ExpectedFake(conn: ConnInfo, ttl: int): Received
    requires conn.OneFamily()
  {
    Expected(conn, ClientHello.Built(ClientHello.FAKE_NAME), ttl)
  }

  function FakePacket(conn: ConnInfo, ttl: int, order: ByteOrder): seq<byte>
    requires conn.OneFamily()
  {
    Packet(conn, ClientHello.Built(ClientHello.FAKE_NAME), ttl, order)
  }

  lemma FakeReceived(conn: ConnInfo, ttl: int, order: ByteOrder)
    requires conn.OneFamily()
    ensures Receive(FakePacket(conn, ttl, order), order) == Some(ExpectedFake(conn, ttl))
    ensures ClientHello.Sni(ExpectedFake(conn, ttl).payload) == ClientHello.FAKE_NAME
  {
    ClientHello.ParseUndoesBuild(ClientHello.FAKE_NAME);
    BuildThenReceive(conn, ClientHello.Built(ClientHello.FAKE_NAME), ttl, order);
  }

  /** The limit survives its narrowing to a byte exactly if it is at most 255 or cut down by an observed one. */
  lemma TtlFitsByte(configuredTtl: int, observed: byte)
    ensures ToByte(FakeTtl.FakeTtl(configuredTtl, observed)) == FakeTtl.FakeTtl(configuredTtl, observed)
            <==> configuredTtl >= 0 && (configuredTtl <= 255 || observed != 0)
  {
  }

  /** The forward paths on which a fake for a connection with this hop limit dies, 0 being an unknown one. A
      limit that nothing cuts down and that does not fit a byte counts with its low 8 bits. */
  predicate Dies(configuredTtl: int, hopLimit: byte, forwardPath: nat) {
    && forwardPath >= 1
    && if hopLimit == 0 || configuredTtl < 0 then forwardPath >= ToByte(configuredTtl)
       else
         || forwardPath >= configuredTtl
         || forwardPath + FakeTtl.HOP_MARGIN + hopLimit >= FakeTtl.GuessedInitial(hopLimit)
  }

  lemma DiesExactly(configuredTtl: int, hopLimit: byte, forwardPath: nat)
    ensures FakeTtl.Forward(ToByte(FakeTtl.FakeTtl(configuredTtl, hopLimit)), forwardPath) == None
            <==> Dies(configuredTtl, hopLimit, forwardPath)
  {
    TtlFitsByte(configuredTtl, hopLimit);
    FakeTtl.ForwardLaw(ToByte(FakeTtl.FakeTtl(configuredTtl, hopLimit)), forwardPath);
  }

  /** For every connection and every configured limit, each fake is a packet that a receiver on the way reads as
      the connection's own, and it never reaches the server exactly on the paths of Dies. */
  lemma FakesDie(conn: ConnInfo, configuredTtl: int, forwardPath: nat, order: ByteOrder)
    requires conn.OneFamily()
    ensures var ttl := FakeTtl.FakeTtl(configuredTtl, conn.hopLimit);
            && Receive(FakePacket(conn, ttl, order), order) == Some(ExpectedFake(conn, ttl))
            && (FakeTtl.Forward(ExpectedFake(conn, ttl).ip.ttl, forwardPath) == None
                <==> Dies(configuredTtl, conn.hopLimit, forwardPath))
  {
    DiesExactly(configuredTtl, conn.hopLimit, forwardPath);
    FakeReceived(conn, FakeTtl.FakeTtl(configuredTtl, conn.hopLimit), order);
  }

  /** On a path of at least one router and at most three shorter than the return path, from a server that starts
      at 64, 128 or 255, the fake dies exactly if the configured limit is not negative, or the path is as long as
      its low 8 bits say. */
  lemma DiesOnLikePaths(configuredTtl: int, initial: byte, hopLimit: byte, returnPath: nat, forwardPath: nat)
    requires initial == 64 || initial == 128 || initial == 255
    requires FakeTtl.Forward(initial, returnPath) == Some(hopLimit) && hopLimit != 0
    requires forwardPath >= 1 && forwardPath + FakeTtl.HOP_MARGIN >= returnPath
    ensures FakeTtl.Forward(ToByte(FakeTtl.FakeTtl(configuredTtl, hopLimit)), forwardPath) == None
            <==> configuredTtl >= 0 || forwardPath >= ToByte(configuredTtl)
  {
    FakeTtl.ForwardLaw(initial, returnPath);
    DiesExactly(configuredTtl, hopLimit, forwardPath);
  }

  /** For instance the limit -1, with a server at 64 that is 4 routers away: a fake passes even 10 routers. */
  lemma NegativeLimitReachesServer()
    ensures FakeTtl.Forward(64, 4) == Some(60)
    ensures FakeTtl.Forward(ToByte(FakeTtl.FakeTtl(-1, 60)), 4) == Some(251)
    ensures FakeTtl.Forward(ToByte(FakeTtl.FakeTtl(-1, 60)), 10) == Some(245)
  {
    FakeTtl.ForwardLaw(64, 4);
    FakeTtl.ForwardLaw(255, 4);
    FakeTtl.ForwardLaw(255, 10);
  }

  /** How the relay describes the connection: its ends as the operating system reports them, and the
      numbers the tracker gave for its local port. */
  predicate Describes(conn: ConnInfo, ports: set<u16>, conns: SeqTracker.Events, h: SeqTracker.Handshake,
                      between: seq<seq<SeqTracker.Action>>)
  {
    && conn.srcPort == h.clientPort && conn.dstPort == h.serverPort
    && (conn.seqNo, conn.ackNo, conn.hopLimit)
       == SeqTracker.SeqAckOf(SeqTracker.Waited(ports, conns, h.clientPort, between).0)
  }

  /** The SYN-ACK p of a handshake passes the filter, from a watched port, before the deadline. */
  predicate SeenInTime(ports: set<u16>, h: SeqTracker.Handshake, p: SeqTracker.Captured,
                       between: seq<seq<SeqTracker.Action>>)
  {
    && h.serverPort == SeqTracker.FILTER_PORT && h.serverPort in ports
    && exists actions :: actions in between && SeqTracker.Capture(p) in actions
  }

  function HopLimitOf(p: SeqTracker.Captured): byte {
    if p.v4.Some? then p.v4.value.hopLimit else if p.v6.Some? then p.v6.value.hopLimit else 0
  }

  /** What a receiver reads in every fake of a connection that had no stale event: ports of the connection, a
      ClientHello for www.google.com, and - exactly when the SYN-ACK was seen in time - the sequence number of
      the first byte of the real ClientHello and the right acknowledgement number, and the placeholders
      otherwise. And it dies on exactly the paths for the hop limit of that SYN-ACK, or for an unknown one. */
  lemma FakesFit(conn: ConnInfo, ports: set<u16>, conns: SeqTracker.Events, h: SeqTracker.Handshake,
                 p: SeqTracker.Captured, between: seq<seq<SeqTracker.Action>>, configuredTtl: int, order: ByteOrder)
    returns (r: Received)
    requires p.tcp == Some(h.SynAck()) && (p.v4.Some? || p.v6.Some?)
    requires h.clientPort !in conns
    requires forall actions :: actions in between ==> SeqTracker.OnlyFor(ports, actions, h.clientPort, p)
    requires Describes(conn, ports, conns, h, between) && conn.OneFamily()
    ensures Receive(FakePacket(conn, FakeTtl.FakeTtl(configuredTtl, conn.hopLimit), order), order) == Some(r)
    ensures r.srcPort == h.clientPort && r.dstPort == h.serverPort
    ensures ClientHello.Sni(r.payload) == ClientHello.FAKE_NAME
    ensures (r.seqNo, r.ackNo) == if SeenInTime(ports, h, p, between) then (h.SndNxt(), h.RcvNxt()) else (1, 1)
    ensures forall forwardPath: nat ::
              FakeTtl.Forward(r.ip.ttl, forwardPath) == None
              <==> Dies(configuredTtl, if SeenInTime(ports, h, p, between) then HopLimitOf(p) else 0, forwardPath)
  {
    SeqTracker.WaitGetsHandshake(ports, conns, h, p, between);
    assert conn.hopLimit == if SeenInTime(ports, h, p, between) then HopLimitOf(p) else 0;
    var ttl := FakeTtl.FakeTtl(configuredTtl, conn.hopLimit);
    r := ExpectedFake(conn, ttl);
    FakeReceived(conn, ttl, order);
    forall forwardPath: nat
      ensures FakeTtl.Forward(r.ip.ttl, forwardPath) == None <==> Dies(configuredTtl, conn.hopLimit, forwardPath)
    {
      DiesExactly(configuredTtl, conn.hopLimit, forwardPath);
    }
  }
}
