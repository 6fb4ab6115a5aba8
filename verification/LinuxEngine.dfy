/** Start and Stop of the Linux engine: the order of its parts and the rollback around the DNS rewrite. */
module LinuxEngine {
  import opened Text
  import opened ResolvConf

  /** What goes wrong outside the engine's control in one use of it. A failing rewrite leaves the file as it was;
      killed means that the process ends before it comes to restoring the file. */
  datatype Faults = Faults(dnsServer: bool, setDns: bool, manager: bool, restoreDns: bool, killed: bool)

  const CLEAN := Faults(false, false, false, false, false)

  datatype State = State(file: string, dnsRunning: bool, mgrRunning: bool)

  function Restored(s: State, fails: bool): State {
    if fails then s else s.(file := Restore(s.file))
  }

  function Started(dohEnabled: bool, s: State, f: Faults): (State, bool) {
    if dohEnabled && f.dnsServer then (s, false)
    else if dohEnabled && f.setDns then (s.(dnsRunning := false), false)
    else
      var s1 := if dohEnabled then s.(dnsRunning := true, file := Set(s.file)) else s;
      if !f.manager then (s1.(mgrRunning := true), true)
      else if dohEnabled then (Restored(s1, f.restoreDns).(dnsRunning := false), false)
      else (s1, false)
  }

  function Stopped(dohEnabled: bool, s: State, f: Faults): State {
    var s1 := if dohEnabled then Restored(s, f.restoreDns).(dnsRunning := false) else s;
    s1.(mgrRunning := false)
  }

  class Engine {
    const dohEnabled: bool
    var file: string
    var dnsRunning: bool
    var mgrRunning: bool

    constructor (dohEnabled: bool, file: string)
      ensures this.dohEnabled == dohEnabled && View() == State(file, false, false)
    {
      this.dohEnabled, this.file, dnsRunning, mgrRunning := dohEnabled, file, false, false;
    }

    ghost function View(): State
      reads this
    {
      State(file, dnsRunning, mgrRunning)
    }

    method Start(f: Faults) returns (ok: bool)
      modifies this
      ensures (View(), ok) == Started(dohEnabled, old(View()), f)
    {
      if dohEnabled {
        if f.dnsServer {
          return false;
        }
        dnsRunning := true;
        if f.setDns {
          dnsRunning := false;
          return false;
        }
        file := SetSystemDns(file);
      }
      if f.manager {
        if dohEnabled {
          RestoreFile(f.restoreDns);
          dnsRunning := false;
        }
        return false;
      }
      mgrRunning := true;
      ok := true;
    }

    method RestoreFile(fails: bool)
      modifies this`file
      ensures file == if fails then old(file) else Restore(old(file))
    {
      if !fails {
        file := RestoreSystemDns(file);
      }
    }

    method Stop(f: Faults)
      modifies this
      ensures View() == Stopped(dohEnabled, old(View()), f)
    {
      if dohEnabled {
        RestoreFile(f.restoreDns);
        dnsRunning := false;
      }
      mgrRunning := false;
    }
  }

  // ----- Sessions -----

  /** One use of the engine: a start, and a stop if it succeeded; or, if the process is killed, what it left. */
  function Session(dohEnabled: bool, s: State, f: Faults): State {
    var (s1, ok) := Started(dohEnabled, s, f);
    if f.killed then Killed(dohEnabled, s, f)
    else if ok then Stopped(dohEnabled, s1, f)
    else s1
  }

  /** A kill at any moment after the rewriting, be it while the manager starts or while everything runs; or
      before the rewriting, if that is not reached. */
  function Killed(dohEnabled: bool, s: State, f: Faults): State {
    State(if Rewrites(dohEnabled, f) then Set(s.file) else s.file, false, false)
  }

  /** The cleanup command of this platform: it finds nothing to clean up. */
  function PlatformCleanup(s: State): (State, bool) { (s, false) }

  function Sessions(dohEnabled: bool, s: State, fs: seq<Faults>): State {
    if fs == [] then s else Session(dohEnabled, Sessions(dohEnabled, s, fs[..|fs| - 1]), fs[|fs| - 1])
  }

  /** The start gets as far as rewriting the file. */
  predicate Rewrites(dohEnabled: bool, f: Faults) {
    dohEnabled && !f.dnsServer && !f.setDns
  }

  /** The file, once rewritten, is not restored. */
  predicate Unrestored(f: Faults) {
    f.restoreDns || f.killed
  }

  /** A start succeeds exactly if all its parts do, and then they run and the file points at 127.0.0.1 only
      if DoH is enabled. A failed start leaves nothing running, and leaves the file as it was, in its normal form,
      or - only if the manager and then the rollback failed too - still pointing at 127.0.0.1. */
  lemma StartOutcome(dohEnabled: bool, file: string, f: Faults)
    ensures var (s, ok) := Started(dohEnabled, State(file, false, false), f);
            s == if ok then State(if dohEnabled then Set(file) else file, dohEnabled, true)
                 else State(if !Rewrites(dohEnabled, f) then file
                            else if !f.restoreDns then Normal(file)
                            else Set(file), false, false)
    ensures Started(dohEnabled, State(file, false, false), f).1
            <==> !f.manager && (dohEnabled ==> !f.dnsServer && !f.setDns)
  {
    RestoreUndoesSet(file);
  }

  /** What one session makes of the file. */
  lemma OneSession(dohEnabled: bool, file: string, f: Faults)
    ensures Session(dohEnabled, State(file, false, false), f)
            == State(if !Rewrites(dohEnabled, f) then file else if Unrestored(f) then Set(file) else Normal(file),
                     false, false)
  {
    RestoreUndoesSet(file);
  }

  /** The sessions whose start got as far as rewriting the file. */
  function Rewriting(dohEnabled: bool, fs: seq<Faults>): seq<Faults> {
    if fs == [] then []
    else Rewriting(dohEnabled, fs[..|fs| - 1]) + if Rewrites(dohEnabled, fs[|fs| - 1]) then [fs[|fs| - 1]] else []
  }

  /** One of them did not restore the file and was followed by another. */
  predicate Lossy(ws: seq<Faults>) {
    exists i :: 0 <= i < |ws| - 1 && Unrestored(ws[i])
  }

  /** The file before the last of ws was started. */
  function FileBefore(file: string, ws: seq<Faults>): string {
    if Lossy(ws) then LocalOnly(file) else if |ws| == 1 then file else Normal(file)
  }

  /** The file after rewriting sessions ws: all that matters is whether one of them was followed by another
      without having restored the file, and how the last one ended. */
  function FinalFile(file: string, ws: seq<Faults>): string {
    if ws == [] then file
    else
      var before := FileBefore(file, ws);
      if Unrestored(ws[|ws| - 1]) then Set(before) else Normal(before)
  }

  lemma LossyStep(ws: seq<Faults>, w: Faults)
    requires ws != []
    ensures Lossy(ws + [w]) <==> Lossy(ws) || Unrestored(ws[|ws| - 1])
  {
    var longer := ws + [w];
    assert forall i :: 0 <= i < |ws| ==> longer[i] == ws[i];
  }

  lemma FileBeforeKeepsOthers(file: string, ws: seq<Faults>)
    ensures LocalOnly(FileBefore(file, ws)) == LocalOnly(file)
  {
    LocalOnlyStays(file);
    NormalKeepsOthers(file);
  }

  /** Rewriting a file that was rewritten and not restored. */
  lemma RewrittenAgain(before: string, file: string)
    requires LocalOnly(before) == LocalOnly(file)
    ensures Set(Set(before)) == Set(LocalOnly(file)) && Normal(Set(before)) == Normal(LocalOnly(file))
  {
    LocalOnlyStays(before);
    RestoreAfterTwoSets(before);
  }

  lemma FinalFileStep(file: string, ws: seq<Faults>, w: Faults)
    ensures FinalFile(file, ws + [w])
            == if Unrestored(w) then Set(FinalFile(file, ws)) else Normal(FinalFile(file, ws))
  {
    if ws != [] {
      LossyStep(ws, w);
      if Unrestored(ws[|ws| - 1]) {
        FileBeforeKeepsOthers(file, ws);
        RewrittenAgain(FileBefore(file, ws), file);
      } else {
        NormalIsFixed(file);
        LocalOnlyStays(file);
      }
    }
  }

  /** Any number of sessions, each failing at any point, in its rollback or in its stop, or killed, or none of
      these: the file is untouched if no start got as far as rewriting it, and otherwise given by FinalFile. */
  lemma {:induction false} AnySessions(dohEnabled: bool, file: string, fs: seq<Faults>)
    ensures Sessions(dohEnabled, State(file, false, false), fs)
            == State(FinalFile(file, Rewriting(dohEnabled, fs)), false, false)
  {
    if fs != [] {
      var front, last := fs[..|fs| - 1], fs[|fs| - 1];
      AnySessions(dohEnabled, file, front);
      OneMoreSession(dohEnabled, file, Rewriting(dohEnabled, front), last);
    }
  }

  lemma OneMoreSession(dohEnabled: bool, file: string, ws: seq<Faults>, f: Faults)
    ensures Session(dohEnabled, State(FinalFile(file, ws), false, false), f)
            == State(FinalFile(file, ws + if Rewrites(dohEnabled, f) then [f] else []), false, false)
  {
    OneSession(dohEnabled, FinalFile(file, ws), f);
    FinalFileStep(file, ws, f);
    assert ws + [] == ws;
  }

  /** After sessions that rewrote the file it is back in its normal form exactly when the last of them restored
      it and so did all before it - or, if one did not, 127.0.0.1 had been the only nameserver and the first
      line. */
  lemma BackToNormal(file: string, ws: seq<Faults>)
    requires ws != []
    ensures FinalFile(file, ws) == Normal(file) <==> !Unrestored(ws[|ws| - 1]) && (!Lossy(ws) || LocalFirst(file))
  {
    NormalIsFixed(file);
    LocalOnlyStays(file);
    LocalOnlyIsNormal(file);
    SetIsNotNormal(FileBefore(file, ws), file);
  }

  /** Its nameservers are back exactly when every rewriting session restored the file, or 127.0.0.1 had
      been the only nameserver. */
  lemma NameserversBack(file: string, ws: seq<Faults>)
    requires ws != []
    ensures Each(Nameserver, Split(FinalFile(file, ws), '\n')) == Each(Nameserver, Split(Normal(file), '\n'))
            <==> (forall w :: w in ws ==> !Unrestored(w)) || OnlyLocal(file)
  {
    assert (forall w :: w in ws ==> !Unrestored(w)) <==> !Lossy(ws) && !Unrestored(ws[|ws| - 1]);
    NormalIsFixed(file);
    LocalOnlyStays(file);
    LocalOnlyNameservers(file);
    AfterSet(FileBefore(file, ws));
  }

  /** One session that did not restore the file and one clean session after it: the nameservers are gone. */
  lemma FailedRestoreLoses(file: string, f: Faults)
    requires Rewrites(true, f) && Unrestored(f)
    ensures Sessions(true, State(file, false, false), [f, CLEAN]).file == LocalOnly(file)
  {
    var fs := [f, CLEAN];
    AnySessions(true, file, fs);
    RewritingAll(fs);
    AfterFailedRestore(file, fs);
  }

  lemma AfterFailedRestore(file: string, ws: seq<Faults>)
    requires |ws| == 2 && Unrestored(ws[0]) && !Unrestored(ws[1])
    ensures FinalFile(file, ws) == LocalOnly(file)
  {
    LocalOnlyStays(file);
  }

  lemma {:induction false} RewritingAll(fs: seq<Faults>)
    requires forall f :: f in fs ==> Rewrites(true, f)
    ensures Rewriting(true, fs) == fs
  {
    if fs != [] {
      var front, last := fs[..|fs| - 1], fs[|fs| - 1];
      assert fs == front + [last] && last in fs && forall f :: f in front ==> f in fs;
      RewritingAll(front);
    }
  }

  /** n clean start/stop cycles give the same file as one. */
  lemma CleanCycles(file: string, n: nat)
    requires n >= 1
    ensures Sessions(true, State(file, false, false), seq(n, _ => CLEAN))
            == State(Normal(file), false, false)
  {
    var fs := seq(n, _ => CLEAN);
    AnySessions(true, file, fs);
    RewritingAll(fs);
    BackToNormal(file, fs);
  }

  /** Killed after the rewriting and used once more: the nameservers come back exactly when 127.0.0.1 was the
      only one, and the whole file exactly when, besides, it came before every other line that is kept. */
  lemma CrashThenSession(file: string)
    ensures var after := Sessions(true, State(file, false, false), [CLEAN.(killed := true), CLEAN]).file;
            && (Each(Nameserver, Split(after, '\n')) == Each(Nameserver, Split(Normal(file), '\n'))
                <==> OnlyLocal(file))
            && (after == Normal(file) <==> LocalFirst(file))
  {
    var fs := [CLEAN.(killed := true), CLEAN];
    AnySessions(true, file, fs);
    RewritingAll(fs);
    assert Unrestored(fs[0]);
    BackToNormal(file, fs);
    NameserversBack(file, fs);
  }

  /** Killed after the rewriting and cleaned up: the cleanup command does nothing, so only 127.0.0.1 is left as
      a nameserver - although nothing is lost yet, for restoring the file now would give its normal form. */
  lemma CrashThenCleanup(file: string, f: Faults)
    requires Rewrites(true, f) && f.killed
    ensures var (after, cleaned) := PlatformCleanup(Session(true, State(file, false, false), f));
            && !cleaned
            && Each(Nameserver, Split(after.file, '\n')) == [LOCAL]
            && Restore(after.file) == Normal(file)
  {
    AfterSet(file);
    RestoreUndoesSet(file);
  }
}
