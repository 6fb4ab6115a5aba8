/** The helper daemon: a loop that reads commands, starts and stops the engine and reports its status,
    while engines may die at any moment. */
module Supervisor {
  import opened Text
  import opened Decimal
  import opened StartCommand
  import opened Wrappers

  type Pid = nat

  /** The states the status file can report. */
  datatype Status = RunningState | StartingState | StoppingState | StoppedState | ErrorState

  /** A written status line, with whether the engine of the pid file was alive when write_status was
      called and whether any engine was alive when the line was written. */
  datatype StatusLine = StatusLine(state: Status, pid: Option<Pid>, aliveAtCall: bool, aliveAtWrite: bool)

  /** What happens outside the helper, by the tick of its clock: engines that die while it sleeps, engines
      that die between two of its commands, and whether the binary is there. */
  datatype Env = Env(sleepDeaths: nat -> set<Pid>, raceDeaths: nat -> set<Pid>, binary: nat -> bool)

  /** `peak` is the largest number of engines alive at once so far, `cleanups` the number of times the binary's
      cleanup command was run. */
  datatype State = State(
    alive: set<Pid>, nextPid: Pid, peak: nat, pidFile: Option<Pid>, safeArgs: seq<string>,
    statuses: seq<StatusLine>, launched: seq<seq<string>>, cleanups: nat, clock: nat, exited: bool)

  const RUN: seq<string> := ["run", "-v"]

  // ----- The state after each shell function -----

  function Slept(env: Env, s: State): State {
    s.(alive := s.alive - env.sleepDeaths(s.clock), clock := s.clock + 1)
  }

  function Raced(env: Env, s: State): State {
    s.(alive := s.alive - env.raceDeaths(s.clock), clock := s.clock + 1)
  }

  predicate IsRunning(s: State) {
    s.pidFile.Some? && s.pidFile.value in s.alive
  }

  function Wrote(env: Env, s: State, state: Status): State {
    var s1 := Raced(env, s);
    var s2 := Raced(env, s1);
    s2.(statuses := s2.statuses +
        [StatusLine(state, if IsRunning(s1) then s1.pidFile else None, IsRunning(s), s2.alive != {})])
  }

  function Sanitized(s: State, args: seq<string>): State {
    s.(safeArgs := SafePrefix(args))
  }

  /** A new process runs; pids are not reused. */
  function Launched(s: State): State {
    var alive := s.alive + {s.nextPid};
    s.(alive := alive, nextPid := s.nextPid + 1, peak := if |alive| > s.peak then |alive| else s.peak,
       launched := s.launched + [RUN + s.safeArgs])
  }

  function AfterLaunch(env: Env, s: State): State {
    var s1 := Slept(env, Raced(env, Launched(s)).(pidFile := Some(s.nextPid)));
    if IsRunning(s1) then Wrote(env, s1, RunningState)
    else Wrote(env, s1.(pidFile := None), ErrorState)
  }

  function AfterStart(env: Env, s: State, args: seq<string>): State {
    var s1 := Sanitized(s, args);
    if !AllAllowed(args) then Wrote(env, s1, ErrorState)
    else if IsRunning(s1) then Wrote(env, s1, RunningState)
    else if !env.binary(s1.clock) then Wrote(env, s1, ErrorState)
    else
      AfterLaunch(env, Wrote(env, s1, StartingState))
  }

  /** The binary's cleanup command runs to its end, if the binary is there; its failure is ignored. */
  function Cleaned(env: Env, s: State): State {
    if env.binary(s.clock) then s.(cleanups := s.cleanups + 1) else s
  }

  /** The engine of the pid file is terminated, given time, and killed; the pid file is removed. */
  function Killed(env: Env, s: State): State {
    if IsRunning(s) then
      var terminated := Slept(env, s);
      terminated.(alive := terminated.alive - {s.pidFile.value}, pidFile := None)
    else
      s.(pidFile := None)
  }

  function AfterStop(env: Env, s: State): State {
    Wrote(env, Cleaned(env, Killed(env, Wrote(env, s, StoppingState))), StoppedState)
  }

  function AfterCommand(env: Env, s: State, text: string): State {
    var parts := Fields(text);
    if parts == [] then s.(exited := true)  // set -u: parts[0] is unbound
    else if parts[0] == "start" then AfterStart(env, s, parts[1..])
    else if parts[0] == "stop" || parts[0] == "cleanup" then AfterStop(env, s)
    else if parts[0] == "status" then Wrote(env, s, if IsRunning(s) then RunningState else StoppedState)
    else Wrote(env, s, ErrorState)
  }

  /** One turn of the loop, on the contents of the command file; an exited helper is launched anew first. */
  function AfterTurn(env: Env, s: State, commandFile: string): State {
    var s0 := if s.exited then Wrote(env, s.(exited := false), StoppedState) else s;
    var s1 := if commandFile != "" then AfterCommand(env, s0, StripNewlines(commandFile))
              else if IsRunning(s0) then Wrote(env, s0, RunningState)
              else s0;
    Slept(env, s1)
  }

  function AfterTurns(env: Env, s: State, commandFiles: seq<string>): State
    decreases |commandFiles|
  {
    if commandFiles == [] then s
    else AfterTurn(env, AfterTurns(env, s, commandFiles[..|commandFiles| - 1]), commandFiles[|commandFiles| - 1])
  }

  function Boot(env: Env): State {
    Wrote(env, State({}, 0, 0, None, [], [], [], 0, 0, false), StoppedState)
  }

  // ----- The program -----

  class Helper {
    const env: Env
    var alive: set<Pid>
    var nextPid: Pid
    ghost var peak: nat
    var pidFile: Option<Pid>
    var safeArgs: seq<string>
    ghost var statuses: seq<StatusLine>
    var launched: seq<seq<string>>
    ghost var cleanups: nat
    var clock: nat
    var exited: bool

    ghost function View(): State
      reads this
    {
      State(alive, nextPid, peak, pidFile, safeArgs, statuses, launched, cleanups, clock, exited)
    }

    constructor (env: Env)
      ensures this.env == env && View() == Boot(env)
    {
      this.env := env;
      alive, nextPid, pidFile, safeArgs, launched, clock, exited := {}, 0, None, [], [], 0, false;
      peak, statuses, cleanups := 0, [], 0;
      new;
      WriteStatus(StoppedState);
    }

    method Sleep()
      modifies this`alive, this`clock
      ensures View() == Slept(env, old(View()))
    {
      alive := alive - env.sleepDeaths(clock);
      clock := clock + 1;
    }

    /** Time passes between two commands of the script. */
    method Pass()
      modifies this`alive, this`clock
      ensures View() == Raced(env, old(View()))
    {
      alive := alive - env.raceDeaths(clock);
      clock := clock + 1;
    }

    predicate Running()
      reads this
    {
      pidFile.Some? && pidFile.value in alive
    }

    method WriteStatus(state: Status)
      modifies this`alive, this`clock, this`statuses
      ensures View() == Wrote(env, old(View()), state)
    {
      ghost var aliveAtCall := Running();
      Pass();
      var pid := None;
      if Running() {
        pid := pidFile;
      }
      Pass();
      statuses := statuses + [StatusLine(state, pid, aliveAtCall, alive != {})];
    }

    /** Puts the allowed tokens into safeArgs, up to the first that is not. */
    method SanitizeStartArgs(args: seq<string>) returns (ok: bool)
      modifies this`safeArgs
      ensures safeArgs == SafePrefix(args)
      ensures ok <==> AllAllowed(args)
    {
      safeArgs := [];
      var i := 0;
      while i < |args|
        invariant 0 <= i <= |args| && safeArgs == args[..i]
        invariant AllAllowed(args[..i])
      {
        var allowed := CheckToken(args[i]);
        if !allowed {
          SafePrefixStops(args, i);
          assert args[i] in args;
          return false;
        }
        assert args[..i + 1] == args[..i] + [args[i]];
        safeArgs := safeArgs + [args[i]];
        i := i + 1;
      }
      assert args[..i] == args;
      ok := true;
    }

    method StartGecit(args: seq<string>)
      modifies this
      ensures View() == AfterStart(env, old(View()), args)
    {
      var ok := SanitizeStartArgs(args);
      if !ok {
        WriteStatus(ErrorState);
        return;
      }
      if Running() {
        WriteStatus(RunningState);
        return;
      }
      if !env.binary(clock) {
        WriteStatus(ErrorState);
        return;
      }
      WriteStatus(StartingState);
      Launch();
    }

    method Launch()
      modifies this
      ensures View() == AfterLaunch(env, old(View()))
    {
      var pid := Spawn();
      Pass();
      pidFile := Some(pid);
      Sleep();
      if Running() {
        WriteStatus(RunningState);
      } else {
        pidFile := None;
        WriteStatus(ErrorState);
      }
    }

    method Spawn() returns (pid: Pid)
      modifies this
      ensures View() == Launched(old(View())) && pid == old(nextPid)
    {
      pid := nextPid;
      alive, nextPid := alive + {pid}, nextPid + 1;
      peak := if |alive| > peak then |alive| else peak;
      launched := launched + [RUN + safeArgs];
    }

    method StopGecit()
      modifies this
      ensures View() == AfterStop(env, old(View()))
    {
      WriteStatus(StoppingState);
      Kill();
      if env.binary(clock) {
        cleanups := cleanups + 1;
      }
      WriteStatus(StoppedState);
    }

    method Kill()
      modifies this
      ensures View() == Killed(env, old(View()))
    {
      if Running() {
        var currentPid := pidFile.value;
        Sleep();
        alive := alive - {currentPid};
      }
      pidFile := None;
    }

    method HandleCommand(text: string)
      modifies this
      ensures View() == AfterCommand(env, old(View()), text)
    {
      var parts := Fields(text);
      if parts == [] {
        exited := true;
        return;
      }
      var command := parts[0];
      if command == "start" {
        StartGecit(parts[1..]);
      } else if command == "stop" || command == "cleanup" {
        StopGecit();
      } else if command == "status" {
        if Running() {
          WriteStatus(RunningState);
        } else {
          WriteStatus(StoppedState);
        }
      } else {
        WriteStatus(ErrorState);
      }
    }

    /** One turn of the loop; an exited helper is launched anew first. */
    method Turn(commandFile: string)
      modifies this
      ensures View() == AfterTurn(env, old(View()), commandFile)
    {
      if exited {
        exited := false;
        WriteStatus(StoppedState);
      }
      if commandFile != "" {
        HandleCommand(StripNewlines(commandFile));
      } else if Running() {
        WriteStatus(RunningState);
      }
      Sleep();
    }

    /** The loop, over what it finds in the command file at each turn. */
    method Loop(commandFiles: seq<string>)
      modifies this
      ensures View() == AfterTurns(env, old(View()), commandFiles)
    {
      var i := 0;
      while i < |commandFiles|
        invariant 0 <= i <= |commandFiles|
        invariant View() == AfterTurns(env, old(View()), commandFiles[..i])
      {
        assert commandFiles[..i + 1][..i] == commandFiles[..i];
        Turn(commandFiles[i]);
        i := i + 1;
      }
      assert commandFiles[..i] == commandFiles;
    }
  }

  /** The case statement of the allowlist. */
  method CheckToken(token: string) returns (ok: bool)
    ensures ok == TokenOk(token)
  {
    if HasPrefix(token, FAKE_TTL) {
      var value := token[|FAKE_TTL|..];
      ok := value != "" && value[0] != '0' && AllDigits(value) && !BashGreater(value, 255);
    } else if HasPrefix(token, DOH) {
      var value := token[|DOH|..];
      ok := value == "true" || value == "false";
    } else if HasPrefix(token, UPSTREAM) {
      ok := UpstreamOk(token[|UPSTREAM|..]);
    } else if HasPrefix(token, IFACE) {
      ok := IfaceOk(token[|IFACE|..]);
    } else if HasPrefix(token, PORTS) {
      ok := CheckPorts(token[|PORTS|..]);
    } else {
      ok := false;
    }
  }

  /** Splits at the commas and checks every port on its own. */
  method CheckPorts(value: string) returns (ok: bool)
    ensures ok == PortsOk(value)
  {
    if value == "" || !DigitsAndCommas(value) || !CommasApart(value) {
      return false;
    }
    SplitDigits(value);
    var ports := Split(value, ',');
    var i := 0;
    while i < |ports|
      invariant 0 <= i <= |ports|
      invariant forall p :: p in ports[..i] ==> PortOk(p)
    {
      var port := ports[i];
      assert port in ports;
      if port != "" && port[0] == '0' {
        return false;
      }
      if |port| > 5 || BashGreater(port, 65535) {
        return false;
      }
      assert ports[..i + 1] == ports[..i] + [port];
      i := i + 1;
    }
    assert ports[..i] == ports;
    ok := true;
  }

  lemma {:induction false} SafePrefixStops(args: seq<string>, i: nat)
    requires i < |args| && !TokenOk(args[i]) && AllAllowed(args[..i])
    ensures SafePrefix(args) == args[..i]
  {
    if i > 0 {
      assert args[0] in args[..i];
      forall t | t in args[1..][..i - 1]
        ensures TokenOk(t)
      {
        assert t in args[..i];
      }
      SafePrefixStops(args[1..], i - 1);
      assert args[..i] == [args[0]] + args[1..][..i - 1];
    }
  }

  // ----- Over every run -----

  /** Only the engine of the pid file can be alive, pids are fresh, and never was there more than one engine. */
  ghost predicate OneEngine(s: State) {
    && (forall p :: p in s.alive ==> s.pidFile == Some(p) && p < s.nextPid)
    && s.peak <= 1
  }

  /** Every launched command line is "run -v" with allowed arguments only. */
  ghost predicate LaunchesAllowed(s: State) {
    forall l :: l in s.launched ==> |l| >= 2 && l[..2] == RUN && AllAllowed(l[2..])
  }

  /** "running" is written only after finding the engine alive, and pids only of the pid file's engine. */
  ghost predicate StatusesChecked(s: State) {
    forall l :: l in s.statuses && l.state == RunningState ==> l.aliveAtCall
  }

  ghost predicate RaceFree(env: Env) {
    forall t: nat :: env.raceDeaths(t) == {}
  }

  /** With nothing dying between a check and the write, "running" is written only while it is true. */
  ghost predicate StatusesTrue(s: State) {
    forall l :: l in s.statuses ==>
      && (l.state == RunningState ==> l.aliveAtWrite && l.pid.Some?)
      && (l.pid.Some? ==> l.aliveAtWrite)
  }

  ghost predicate Safe(env: Env, s: State) {
    OneEngine(s) && LaunchesAllowed(s) && StatusesChecked(s) && (RaceFree(env) ==> StatusesTrue(s))
  }

  lemma AtMostOne(alive: set<Pid>, p: Pid)
    requires forall q :: q in alive ==> q == p
    ensures |alive| <= 1
  {
    assert alive <= {p};
    assert {p} == alive + ({p} - alive);
  }

  lemma WroteSafe(env: Env, s: State, state: Status)
    requires Safe(env, s) && (state == RunningState ==> IsRunning(s))
    ensures Safe(env, Wrote(env, s, state))
    ensures Wrote(env, s, state).alive <= s.alive && Wrote(env, s, state).pidFile == s.pidFile
    ensures Wrote(env, s, state).safeArgs == s.safeArgs
  {
  }

  lemma LaunchedSafe(env: Env, s: State, next: State)
    requires Safe(env, s) && s.alive == {} && AllAllowed(s.safeArgs)
    requires next == Raced(env, Launched(s)).(pidFile := Some(s.nextPid))
    ensures Safe(env, next)
  {
    AtMostOne(Launched(s).alive, s.nextPid);
    forall l | l in next.launched
      ensures |l| >= 2 && l[..2] == RUN && AllAllowed(l[2..])
    {
      if l !in s.launched {
        assert l == RUN + s.safeArgs && l[2..] == s.safeArgs;
      }
    }
  }

  lemma LaunchSafe(env: Env, s: State)
    requires Safe(env, s) && s.alive == {} && AllAllowed(s.safeArgs)
    ensures Safe(env, AfterLaunch(env, s))
  {
    var next := Raced(env, Launched(s)).(pidFile := Some(s.nextPid));
    LaunchedSafe(env, s, next);
    var s1 := Slept(env, next);
    if IsRunning(s1) {
      WroteSafe(env, s1, RunningState);
    } else {
      WroteSafe(env, s1.(pidFile := None), ErrorState);
    }
  }

  lemma {:induction false} StartSafe(env: Env, s: State, args: seq<string>)
    requires Safe(env, s)
    ensures Safe(env, AfterStart(env, s, args))
  {
    var s1 := Sanitized(s, args);
    if !AllAllowed(args) {
      WroteSafe(env, s1, ErrorState);
    } else if IsRunning(s1) {
      WroteSafe(env, s1, RunningState);
    } else if !env.binary(s1.clock) {
      WroteSafe(env, s1, ErrorState);
    } else {
      WroteSafe(env, s1, StartingState);
      NotRunningMeansNone(s1);
      LaunchSafe(env, Wrote(env, s1, StartingState));
    }
  }

  lemma NotRunningMeansNone(s: State)
    requires OneEngine(s) && !IsRunning(s)
    ensures s.alive == {}
  {
  }

  lemma KilledSafe(env: Env, s: State)
    requires Safe(env, s)
    ensures var t := Killed(env, s);
            Safe(env, t) && t.alive == {} && t.pidFile == None && t.cleanups == s.cleanups
  {
    if !IsRunning(s) {
      NotRunningMeansNone(s);
    }
  }

  lemma WroteTicks(env: Env, s: State, state: Status)
    ensures var t := Wrote(env, s, state);
            t.clock == s.clock + 2 && t.cleanups == s.cleanups && t.pidFile == s.pidFile && t.alive <= s.alive
  {
  }

  lemma StopSafe(env: Env, s: State)
    requires Safe(env, s)
    ensures Safe(env, AfterStop(env, s)) && Stops(env, s, AfterStop(env, s))
  {
    var stopping := Wrote(env, s, StoppingState);
    WroteSafe(env, s, StoppingState);
    WroteTicks(env, s, StoppingState);
    KilledSafe(env, stopping);
    CleanedSafe(env, Killed(env, stopping));
  }

  lemma CleanedSafe(env: Env, s: State)
    requires Safe(env, s) && s.alive == {} && s.pidFile == None
    ensures var t := Wrote(env, Cleaned(env, s), StoppedState);
            Safe(env, t) && Stops(env, s, t)
  {
    WroteSafe(env, Cleaned(env, s), StoppedState);
    WroteTicks(env, Cleaned(env, s), StoppedState);
  }

  /** No engine and no pid file is left, and then the cleanup was run once if the binary was there. */
  predicate Stops(env: Env, s: State, t: State) {
    && t.alive == {} && t.pidFile == None && t.clock >= 2
    && t.cleanups == s.cleanups + if env.binary(t.clock - 2) then 1 else 0
  }

  lemma {:induction false} CommandSafe(env: Env, s: State, text: string)
    requires Safe(env, s)
    ensures Safe(env, AfterCommand(env, s, text))
  {
    var parts := Fields(text);
    if parts != [] {
      if parts[0] == "start" {
        StartSafe(env, s, parts[1..]);
      } else if parts[0] == "stop" || parts[0] == "cleanup" {
        StopSafe(env, s);
      } else if parts[0] == "status" {
        WroteSafe(env, s, if IsRunning(s) then RunningState else StoppedState);
      } else {
        WroteSafe(env, s, ErrorState);
      }
    }
  }

  lemma TurnSafe(env: Env, s: State, commandFile: string)
    requires Safe(env, s)
    ensures Safe(env, AfterTurn(env, s, commandFile))
  {
    if s.exited {
      WroteSafe(env, s.(exited := false), StoppedState);
    }
    var s0 := if s.exited then Wrote(env, s.(exited := false), StoppedState) else s;
    if commandFile != "" {
      CommandSafe(env, s0, StripNewlines(commandFile));
    } else if IsRunning(s0) {
      WroteSafe(env, s0, RunningState);
    }
  }

  /** From boot, whatever commands arrive and whenever engines die: at most one engine is ever alive, it is the
      one in the pid file, engines get allowed arguments only, and "running" is written only after a
      successful check - and, with nothing dying between check and write, only while an engine is alive. */
  lemma {:induction false} EveryRunIsSafe(env: Env, commandFiles: seq<string>)
    ensures Safe(env, AfterTurns(env, Boot(env), commandFiles))
    decreases |commandFiles|
  {
    if commandFiles == [] {
      WroteSafe(env, State({}, 0, 0, None, [], [], [], 0, 0, false), StoppedState);
    } else {
      var front := commandFiles[..|commandFiles| - 1];
      EveryRunIsSafe(env, front);
      TurnSafe(env, AfterTurns(env, Boot(env), front), commandFiles[|commandFiles| - 1]);
    }
  }

  /** The exact condition under which a "running" line is true when written: its engine survives the two
      moments between the check and the write. */
  lemma RunningLineTrue(env: Env, s: State)
    requires OneEngine(s) && IsRunning(s)
    ensures var line := Wrote(env, s, RunningState).statuses[|s.statuses|];
            line.aliveAtWrite
            <==> s.pidFile.value !in env.raceDeaths(s.clock) && s.pidFile.value !in env.raceDeaths(s.clock + 1)
  {
    var s2 := Wrote(env, s, RunningState);
    assert forall p :: p in s2.alive ==> p in s.alive;
    assert s.pidFile.value in s2.alive ==> s2.alive != {};
  }

  // ----- What the commands do -----

  /** A stop or cleanup leaves no engine and no pid file, whatever was running, and then runs the binary's
      cleanup once if the binary is there. */
  lemma StopStops(env: Env, s: State, text: string)
    requires Safe(env, s) && Fields(text) != [] && (Fields(text)[0] == "stop" || Fields(text)[0] == "cleanup")
    ensures Stops(env, s, AfterCommand(env, s, text))
  {
    StopSafe(env, s);
  }

  /** The last status of a start tells how it went: "running" only with allowed arguments, a pid file and an
      engine found alive; "error" only if an argument was not allowed or no engine is alive. */
  lemma {:induction false} StartReports(env: Env, s: State, args: seq<string>)
    requires Safe(env, s)
    ensures LastReports(|s.statuses|, AfterStart(env, s, args), AllAllowed(args))
  {
    var s1 := Sanitized(s, args);
    if !AllAllowed(args) {
      WroteError(env, s1, false);
    } else if IsRunning(s1) {
      WroteRunning(env, s1);
    } else {
      NotRunningMeansNone(s1);
      if env.binary(s1.clock) {
        StartingReports(env, s1);
      } else {
        WroteError(env, s1, true);
      }
    }
  }

  /** A status was added to the n there were, and the last one reports the state t. */
  predicate LastReports(n: nat, t: State, allowed: bool) {
    |t.statuses| > n && Reports(t.statuses[|t.statuses| - 1], t, allowed)
  }

  predicate Reports(last: StatusLine, t: State, allowed: bool) {
    if last.state == RunningState then allowed && t.pidFile.Some? && last.aliveAtCall
    else last.state == ErrorState && (!allowed || t.alive == {})
  }

  lemma WroteError(env: Env, s: State, allowed: bool)
    requires allowed ==> s.alive == {}
    ensures LastReports(|s.statuses|, Wrote(env, s, ErrorState), allowed)
  {
    WroteLast(env, s, ErrorState);
  }

  lemma WroteRunning(env: Env, s: State)
    requires IsRunning(s)
    ensures LastReports(|s.statuses|, Wrote(env, s, RunningState), true)
  {
    WroteLast(env, s, RunningState);
  }

  lemma StartingReports(env: Env, s: State)
    requires s.alive == {}
    ensures LastReports(|s.statuses|, AfterLaunch(env, Wrote(env, s, StartingState)), true)
  {
    WroteLast(env, s, StartingState);
    LaunchReports(env, Wrote(env, s, StartingState));
  }

  lemma WroteLast(env: Env, s: State, state: Status)
    ensures var t := Wrote(env, s, state);
            && |t.statuses| == |s.statuses| + 1 && t.statuses[|s.statuses|].state == state
            && t.statuses[|s.statuses|].aliveAtCall == IsRunning(s)
            && t.pidFile == s.pidFile && t.alive <= s.alive
  {
  }

  lemma LaunchReports(env: Env, s: State)
    requires s.alive == {}
    ensures LastReports(|s.statuses|, AfterLaunch(env, s), true)
  {
    var s1 := Slept(env, Raced(env, Launched(s)).(pidFile := Some(s.nextPid)));
    assert s1.statuses == s.statuses && s1.alive <= {s.nextPid};
    if IsRunning(s1) {
      WroteRunning(env, s1);
    } else {
      WroteError(env, s1.(pidFile := None), true);
    }
  }

  // ----- What a turn does, and what it leaves alone -----

  /** Nothing was launched, stopped or cleaned up: engines may only have died by themselves. */
  predicate Keeps(s: State, t: State) {
    && t.pidFile == s.pidFile && t.launched == s.launched && t.cleanups == s.cleanups && t.nextPid == s.nextPid
    && t.exited == s.exited && t.alive <= s.alive
  }

  /** One line was added: this state, whether the engine was found alive at the call, and its pid if it still was
      a moment later. */
  predicate Adds(env: Env, s: State, t: State, state: Status) {
    && |t.statuses| == |s.statuses| + 1 && t.statuses[..|s.statuses|] == s.statuses
    && var line := t.statuses[|s.statuses|];
       && line.state == state && line.aliveAtCall == IsRunning(s)
       && line.pid == if IsRunning(s) && s.pidFile.value !in env.raceDeaths(s.clock) then s.pidFile else None
  }

  lemma WroteAdds(env: Env, s: State, state: Status)
    ensures var t := Wrote(env, s, state);
            Keeps(s, t) && Adds(env, s, t, state) && t.clock == s.clock + 2
  {
  }

  /** An idle turn says "running" once if the engine is found alive, and nothing otherwise; that is all it does. */
  lemma IdleTurn(env: Env, s: State)
    requires !s.exited
    ensures var t := AfterTurn(env, s, "");
            && Keeps(s, t)
            && if IsRunning(s) then Adds(env, s, t, RunningState) && t.clock == s.clock + 3
               else t.statuses == s.statuses && t.clock == s.clock + 1
  {
    WroteAdds(env, s, RunningState);
  }

  /** A turn with a command obeys it and then sleeps, in which time engines may die. */
  lemma CommandTurn(env: Env, s: State, commandFile: string)
    requires !s.exited && commandFile != ""
    ensures var obeyed, t := AfterCommand(env, s, StripNewlines(commandFile)), AfterTurn(env, s, commandFile);
            && t.alive == obeyed.alive - env.sleepDeaths(obeyed.clock) && t.clock == obeyed.clock + 1
            && Keeps(obeyed, t) && t.statuses == obeyed.statuses
  {
  }

  /** The helper starts with nothing running and says "stopped". */
  lemma BootSays(env: Env)
    ensures var t := Boot(env);
            && |t.statuses| == 1 && t.statuses[0].state == StoppedState && t.statuses[0].pid == None
            && t.alive == {} && t.pidFile == None && t.launched == [] && t.cleanups == 0 && !t.exited
  {
  }

  /** A helper that exited is launched anew with the next turn, says "stopped", and takes the turn. */
  lemma ExitedTurn(env: Env, s: State, commandFile: string) returns (next: State)
    requires s.exited
    ensures Keeps(s.(exited := false), next) && Adds(env, s, next, StoppedState)
    ensures AfterTurn(env, s, commandFile) == AfterTurn(env, next, commandFile)
  {
    next := Wrote(env, s.(exited := false), StoppedState);
    WroteAdds(env, s.(exited := false), StoppedState);
  }

  /** The answers to a status request, to an unknown command and to one without a word. */
  lemma OtherAnswers(env: Env, s: State, text: string)
    requires Fields(text) == [] || Fields(text)[0] !in ["start", "stop", "cleanup"]
    ensures var t := AfterCommand(env, s, text);
            if Fields(text) == [] then t == s.(exited := true)
            else
              && Keeps(s, t)
              && Adds(env, s, t, if Fields(text)[0] != "status" then ErrorState
                                 else if IsRunning(s) then RunningState else StoppedState)
  {
    if Fields(text) != [] {
      assert Fields(text)[0] != "start" && Fields(text)[0] != "stop" && Fields(text)[0] != "cleanup";
      WroteAdds(env, s, if Fields(text)[0] != "status" then ErrorState
                        else if IsRunning(s) then RunningState else StoppedState);
    }
  }

  /** A start that does not launch: one answer, and everything stays. */
  lemma {:induction false} StartRefused(env: Env, s: State, args: seq<string>)
    requires !AllAllowed(args) || IsRunning(s) || !env.binary(s.clock)
    ensures var t := AfterStart(env, s, args);
            && Keeps(s, t)
            && Adds(env, s, t, if AllAllowed(args) && IsRunning(s) then RunningState else ErrorState)
  {
    WroteAdds(env, Sanitized(s, args), if AllAllowed(args) && IsRunning(s) then RunningState else ErrorState);
  }

  /** A process started then lives until it is looked for. */
  predicate Lives(env: Env, p: Pid, launched: nat) {
    p !in env.raceDeaths(launched) && p !in env.sleepDeaths(launched + 1)
  }

  /** One engine was launched with these arguments, and its pid is on file if it lives. */
  predicate LaunchedOne(s: State, t: State, args: seq<string>, lives: bool) {
    && t.launched == s.launched + [RUN + args] && t.nextPid == s.nextPid + 1
    && t.cleanups == s.cleanups && t.exited == s.exited && t.pidFile == if lives then Some(s.nextPid) else None
  }

  /** These lines were added. */
  predicate Says(s: State, t: State, states: seq<Status>) {
    && |t.statuses| == |s.statuses| + |states| && t.statuses[..|s.statuses|] == s.statuses
    && forall i :: |s.statuses| <= i < |t.statuses| ==> t.statuses[i].state == states[i - |s.statuses|]
  }

  lemma SaysMore(s: State, t: State, u: State, a: Status, b: Status)
    requires Says(s, t, [a]) && Says(t, u, [b])
    ensures Says(s, u, [a, b])
  {
    var n := |s.statuses|;
    assert u.statuses[n] == u.statuses[..|t.statuses|][n];
    assert t.statuses[n].state == a && u.statuses[n + 1].state == b;
    assert u.statuses[..|s.statuses|] == u.statuses[..|t.statuses|][..|s.statuses|];
  }

  lemma WroteSays(env: Env, s: State, state: Status)
    ensures Says(s, Wrote(env, s, state), [state])
  {
  }

  /** A start that launches: "starting", one new engine with these arguments, and "running" with its pid on file
      if it lives through the two moments until it is looked for, else "error" and no pid file. */
  lemma {:induction false} StartLaunched(env: Env, s: State, args: seq<string>)
    requires AllAllowed(args) && !IsRunning(s) && env.binary(s.clock)
    ensures var t, lives := AfterStart(env, s, args), Lives(env, s.nextPid, s.clock + 2);
            && LaunchedOne(s, t, args, lives)
            && Says(s, t, [StartingState, if lives then RunningState else ErrorState])
  {
    var s1 := Wrote(env, Sanitized(s, args), StartingState);
    WroteSays(env, Sanitized(s, args), StartingState);
    StartingKeeps(env, s, args);
    LaunchOutcome(env, s1);
    var lives := Lives(env, s.nextPid, s.clock + 2);
    SaysMore(s, s1, AfterStart(env, s, args), StartingState, if lives then RunningState else ErrorState);
  }

  lemma {:induction false} StartingKeeps(env: Env, s: State, args: seq<string>)
    requires AllAllowed(args) && !IsRunning(s) && env.binary(s.clock)
    ensures var s1 := Wrote(env, Sanitized(s, args), StartingState);
            && AfterStart(env, s, args) == AfterLaunch(env, s1)
            && Says(s, s1, [StartingState]) && s1.safeArgs == args && s1.clock == s.clock + 2
            && s1.launched == s.launched && s1.nextPid == s.nextPid && s1.cleanups == s.cleanups
            && s1.exited == s.exited
  {
    WroteSays(env, Sanitized(s, args), StartingState);
  }

  lemma LaunchOutcome(env: Env, s: State)
    ensures var t, lives := AfterLaunch(env, s), Lives(env, s.nextPid, s.clock);
            LaunchedOne(s, t, s.safeArgs, lives) && Says(s, t, [if lives then RunningState else ErrorState])
  {
    var s1 := Slept(env, Raced(env, Launched(s)).(pidFile := Some(s.nextPid)));
    ProcessLives(env, s, s1);
    if IsRunning(s1) {
      WroteSays(env, s1, RunningState);
    } else {
      WroteSays(env, s1.(pidFile := None), ErrorState);
    }
  }

  lemma ProcessLives(env: Env, s: State, s1: State)
    requires s1 == Slept(env, Raced(env, Launched(s)).(pidFile := Some(s.nextPid)))
    ensures s1.statuses == s.statuses && s1.launched == s.launched + [RUN + s.safeArgs]
    ensures s1.nextPid == s.nextPid + 1 && s1.cleanups == s.cleanups && s1.exited == s.exited
    ensures s1.pidFile == Some(s.nextPid) && (IsRunning(s1) <==> Lives(env, s.nextPid, s.clock))
  {
  }

  /** A stop says "stopping", then "stopped", and launches nothing; it takes its time to end an engine it finds. */
  lemma StopAnswers(env: Env, s: State)
    ensures var t := AfterStop(env, s);
            && Says(s, t, [StoppingState, StoppedState])
            && t.launched == s.launched && t.nextPid == s.nextPid && t.exited == s.exited
            && t.clock == s.clock + if IsRunning(s) && s.pidFile.value !in env.raceDeaths(s.clock)
                                       && s.pidFile.value !in env.raceDeaths(s.clock + 1) then 5 else 4
  {
    var stopping := Wrote(env, s, StoppingState);
    var cleaned := Cleaned(env, Killed(env, stopping));
    WroteSays(env, s, StoppingState);
    WroteSays(env, cleaned, StoppedState);
    assert cleaned.statuses == stopping.statuses;
    SaysMore(s, stopping, AfterStop(env, s), StoppingState, StoppedState);
  }

  // ----- Engines are left alone -----

  /** p does not die by itself from one moment on until before another. */
  predicate Spared(env: Env, p: Pid, from: nat, to: nat) {
    forall k: nat :: from <= k < to ==> p !in env.sleepDeaths(k) && p !in env.raceDeaths(k)
  }

  /** Every engine that did not die by itself in the meantime is alive. */
  ghost predicate Survive(env: Env, s: State, t: State) {
    s.clock <= t.clock && forall p :: p in s.alive && Spared(env, p, s.clock, t.clock) ==> p in t.alive
  }

  lemma SurviveBoth(env: Env, s: State, t: State, u: State)
    requires Survive(env, s, t) && Survive(env, t, u)
    ensures Survive(env, s, u)
  {
    forall p | p in s.alive && Spared(env, p, s.clock, u.clock)
      ensures p in u.alive
    {
      assert Spared(env, p, s.clock, t.clock) && Spared(env, p, t.clock, u.clock);
    }
  }

  lemma SleptSurvive(env: Env, s: State)
    ensures Survive(env, s, Slept(env, s)) && Survive(env, s, Raced(env, s))
  {
  }

  lemma WroteSurvive(env: Env, s: State, state: Status)
    ensures Survive(env, s, Wrote(env, s, state))
  {
    SleptSurvive(env, s);
    SleptSurvive(env, Raced(env, s));
    SurviveBoth(env, s, Raced(env, s), Raced(env, Raced(env, s)));
  }

  lemma LaunchSurvive(env: Env, s: State)
    ensures Survive(env, s, AfterLaunch(env, s))
  {
    var s1 := Raced(env, Launched(s)).(pidFile := Some(s.nextPid));
    var s2 := Slept(env, s1);
    SleptSurvive(env, Launched(s));
    assert Survive(env, s, s1);
    SleptSurvive(env, s1);
    SurviveBoth(env, s, s1, s2);
    WroteSurvive(env, s2, RunningState);
    WroteSurvive(env, s2.(pidFile := None), ErrorState);
    assert Survive(env, s2, s2.(pidFile := None));
    SurviveBoth(env, s, s2, AfterLaunch(env, s));
  }

  lemma {:induction false} StartSurvive(env: Env, s: State, args: seq<string>)
    ensures Survive(env, s, AfterStart(env, s, args))
  {
    var s1 := Sanitized(s, args);
    WroteSurvive(env, s1, ErrorState);
    WroteSurvive(env, s1, RunningState);
    WroteSurvive(env, s1, StartingState);
    LaunchSurvive(env, Wrote(env, s1, StartingState));
    SurviveBoth(env, s1, Wrote(env, s1, StartingState), AfterLaunch(env, Wrote(env, s1, StartingState)));
  }

  /** A command file that asks for a stop. */
  predicate IsStop(commandFile: string) {
    var parts := Fields(StripNewlines(commandFile));
    parts != [] && (parts[0] == "stop" || parts[0] == "cleanup")
  }

  lemma {:induction false} CommandSurvive(env: Env, s: State, commandFile: string)
    requires !IsStop(commandFile)
    ensures Survive(env, s, AfterCommand(env, s, StripNewlines(commandFile)))
  {
    var parts := Fields(StripNewlines(commandFile));
    if parts != [] {
      StartSurvive(env, s, parts[1..]);
      WroteSurvive(env, s, if IsRunning(s) then RunningState else StoppedState);
      WroteSurvive(env, s, ErrorState);
    }
  }

  lemma {:induction false} TurnSurvive(env: Env, s: State, commandFile: string)
    requires !IsStop(commandFile)
    ensures Survive(env, s, AfterTurn(env, s, commandFile))
  {
    var s0 := if s.exited then Wrote(env, s.(exited := false), StoppedState) else s;
    WroteSurvive(env, s.(exited := false), StoppedState);
    assert Survive(env, s, s0);
    CommandSurvive(env, s0, commandFile);
    WroteSurvive(env, s0, RunningState);
    var s1 := if commandFile != "" then AfterCommand(env, s0, StripNewlines(commandFile))
              else if IsRunning(s0) then Wrote(env, s0, RunningState) else s0;
    SurviveBoth(env, s, s0, s1);
    SleptSurvive(env, s1);
    SurviveBoth(env, s, s1, Slept(env, s1));
  }

  /** Over any run without a stop or cleanup command, whatever else is commanded, the helper kills no engine: each
      one that was alive still is, unless it died by itself. */
  lemma {:induction false} EnginesLeftAlone(env: Env, s: State, commandFiles: seq<string>)
    requires forall f :: f in commandFiles ==> !IsStop(f)
    ensures Survive(env, s, AfterTurns(env, s, commandFiles))
    decreases |commandFiles|
  {
    if commandFiles != [] {
      var front, last := commandFiles[..|commandFiles| - 1], commandFiles[|commandFiles| - 1];
      assert last in commandFiles && forall f :: f in front ==> f in commandFiles;
      EnginesLeftAlone(env, s, front);
      TurnSurvive(env, AfterTurns(env, s, front), last);
      SurviveBoth(env, s, AfterTurns(env, s, front), AfterTurns(env, s, commandFiles));
    }
  }

  /** For every settings value, the command the app builds and sends launches the engine once if the helper
      accepts what the settings come to, no engine runs and the binary is there, and then with exactly the words
      the helper split off - which are the arguments of the settings exactly when no field holds white space. */
  lemma AppCommandLaunches(env: Env, s: State, settings: Settings)
    ensures var command := Join(["start"] + Arguments(settings), " ");
            AfterCommand(env, s, StripNewlines(command + "\n")).launched
            == if Accepted(settings) && !IsRunning(s) && env.binary(s.clock)
               then s.launched + [RUN + Sent(settings)] else s.launched
    ensures Sent(settings) == Arguments(settings) <==> Unspaced(settings)
  {
    CommandSplits(settings);
    SentIsArguments(settings);
    SentAllowed(settings);
    StartLaunches(env, s, Sent(settings));
    assert (["start"] + Sent(settings))[1..] == Sent(settings);
  }

  lemma StartLaunches(env: Env, s: State, args: seq<string>)
    ensures AfterStart(env, s, args).launched
            == if SafePrefix(args) == args && !IsRunning(s) && env.binary(s.clock)
               then s.launched + [RUN + args] else s.launched
  {
  }
}
