/**
 The task records of the containerd shim (containerd-shim/src/service.rs).

 A handler touches the shared task map only while it holds the mutex. Each such
 critical section is a function on the map here; `Service` performs the same
 sections by updating the map in place.
 */
module ShimTask {
  import opened Text

  datatype Status = Unknown | Created | Running | Stopped

  /**
   A task record. `incarnation` numbers the Create calls, so that a task that is
   created again under the same id is a different task.
   */
  datatype Proc = Proc(
    incarnation: nat,
    isSandbox: bool,
    hasImage: bool,
    pid: nat,
    status: Status,
    exitCode: nat,
    terminating: bool,
    exitPublished: bool,
    hasChild: bool)

  type Procs = map<string, Proc>

  /** The init TaskExit event. */
  datatype ExitEvent = ExitEvent(id: string, incarnation: nat, pid: nat, exitCode: nat)

  // ----- Signals -----

  const SIGHUP: nat := 1
  const SIGINT: nat := 2
  const SIGQUIT: nat := 3
  const SIGKILL: nat := 9
  const SIGTERM: nat := 15
  const U32: nat := 0x1_0000_0000

  function NormalizeSignal(signal: nat): nat {
    if signal == 0 then SIGTERM else signal
  }

  predicate IsTerminating(signal: nat) {
    signal in {SIGKILL, SIGTERM, SIGINT, SIGHUP, SIGQUIT}
  }

  /** `128 + signal` on a `u32`. */
  function SignaledExitCode(signal: nat): nat {
    (128 + signal) % U32
  }

  // ----- Critical sections as functions -----

  function NewProc(incarnation: nat, isSandbox: bool, hasImage: bool): Proc {
    Proc(incarnation, isSandbox, hasImage, 0, Created, 0, false, false, false)
  }

  /** A section's effect: the new map and the exit event it decided to publish. */
  datatype Effect = Effect(procs: Procs, event: Option<ExitEvent>)

  /** Record an exit; the first recording of an incarnation also decides its event. */
  function RecordExit(procs: Procs, id: string, p: Proc, code: nat, terminating: bool): Effect {
    Effect(
      procs[id := p.(status := Stopped, exitCode := code, terminating := terminating, exitPublished := true)],
      if p.exitPublished then None else Some(ExitEvent(id, p.incarnation, p.pid, code)))
  }

  /** Start, sandbox: the placeholder is spawned under the lock. */
  function StartSandbox(procs: Procs, id: string, pid: nat): Procs
    requires id in procs
  {
    procs[id := procs[id].(pid := pid, hasChild := true, status := Running)]
  }

  /** Start, workload, second section: the box was observed to have started. */
  function CommitStart(procs: Procs, id: string, mainPid: nat): Procs {
    if id in procs then procs[id := procs[id].(status := Running, pid := mainPid, hasChild := false)] else procs
  }

  /** Wait, first section: take the child handle. */
  function TakeChild(procs: Procs, id: string): Procs {
    if id in procs then procs[id := procs[id].(hasChild := false)] else procs
  }

  /** The code a settling Wait answers with. */
  function SettledCode(procs: Procs, id: string, observed: nat): nat {
    if id in procs && procs[id].exitPublished && procs[id].exitCode != 0 then procs[id].exitCode else observed
  }

  /** Wait, last section. */
  function SettleWait(procs: Procs, id: string, observed: nat): Effect {
    if id in procs
    then RecordExit(procs, id, procs[id], SettledCode(procs, id, observed), false)
    else Effect(procs, None)
  }

  /** Whether Kill acts on the record at all. */
  predicate Killable(procs: Procs, id: string) {
    && id in procs
    && procs[id].status != Stopped
    && (procs[id].isSandbox || !procs[id].terminating)
  }

  /** Kill, first section. */
  function MarkKilled(procs: Procs, id: string, signal: nat): Effect {
    if !Killable(procs, id) then
      Effect(procs, None)
    else if IsTerminating(signal) then
      RecordExit(procs, id, procs[id], SignaledExitCode(signal), true)
    else if procs[id].isSandbox then
      Effect(procs, None)
    else
      Effect(procs[id := procs[id].(terminating := true)], None)
  }

  /** The background terminator's section. */
  function RecordTermination(procs: Procs, id: string, signal: nat, stopped: bool): Effect {
    if id !in procs then
      Effect(procs, None)
    else if stopped then
      RecordExit(procs, id, procs[id], SignaledExitCode(NormalizeSignal(signal)), false)
    else
      Effect(procs[id := procs[id].(terminating := false)], None)
  }

  /** The code Delete and State answer with. */
  function RecordedCode(procs: Procs, id: string): nat {
    if id in procs then procs[id].exitCode else 0
  }

  // ----- Wait's polling loop -----

  datatype Inspection = SawRunning | SawOther | SawTerminal(code: nat) | TimedOut | Failed

  datatype Verdict<T> = Exited(code: nat) | Continue(state: T)

  /** The in-memory gate at the head of an iteration; the state is `seen_running`. */
  function OnStatus(status: Option<Status>, seenRunning: bool): Verdict<bool> {
    match status
    case None => Exited(0)
    case Some(Stopped) => Exited(0)
    case Some(Running) => Continue(true)
    case Some(_) => Continue(seenRunning)
  }

  /** The outcome of `a3s-box inspect`; the state is `missing`. */
  function OnInspection(inspection: Inspection, missing: nat): Verdict<nat> {
    match inspection
    case SawTerminal(code) => Exited(code)
    case SawRunning => Continue(0)
    case SawOther => Continue(0)
    case TimedOut => Continue(missing)
    case Failed => if missing + 1 >= 2 then Exited(0) else Continue(missing + 1)
  }

  /** What one iteration of the loop reads. */
  datatype Reading = Reading(status: Option<Status>, inspection: Inspection)

  predicate EverRunning(readings: seq<Reading>, n: nat)
    requires n <= |readings|
  {
    exists k | 0 <= k < n :: readings[k].status == Some(Running)
  }

  /** Before reading `n`, an inspection failed and none since then has found the box. */
  ghost predicate FailurePending(readings: seq<Reading>, n: nat)
    requires n <= |readings|
  {
    exists k | 0 <= k < n ::
      && readings[k].inspection == Failed
      && EverRunning(readings, k + 1)
      && forall m | k < m < n :: readings[m].inspection in {TimedOut, Failed}
  }

  /** The readings up to and including `n` end the wait, with this code. */
  ghost predicate EndsAt(readings: seq<Reading>, n: nat, code: nat)
    requires n < |readings|
  {
    if readings[n].status == None || readings[n].status == Some(Stopped) then
      code == 0
    else
      && EverRunning(readings, n + 1)
      && match readings[n].inspection
         case SawTerminal(c) => code == c
         case Failed => code == 0 && FailurePending(readings, n)
         case _ => false
  }

  /**
   Wait's loop on a workload. It ends at the first reading that shows the task
   deleted or stopped, or, once the task was seen running, a terminal box or a
   second failed inspection with no sighting of the box in between.
   `None`: still waiting after all readings.
   */
  method AwaitExit(readings: seq<Reading>) returns (code: Option<nat>, ended: nat)
    ensures code.None? ==> ended == |readings|
    ensures code.Some? ==> ended < |readings| && EndsAt(readings, ended, code.value)
    ensures forall n, c | 0 <= n < ended :: !EndsAt(readings, n, c)
  {
    var missing := 0;
    var seenRunning := false;
    for i := 0 to |readings|
      invariant seenRunning == EverRunning(readings, i)
      invariant 0 <= missing <= 1
      invariant (missing == 1) == FailurePending(readings, i)
      invariant forall n, c | 0 <= n < i :: !EndsAt(readings, n, c)
    {
      var gate := OnStatus(readings[i].status, seenRunning);
      if gate.Exited? {
        return Some(gate.code), i;
      }
      seenRunning := gate.state;
      if seenRunning {
        var verdict := OnInspection(readings[i].inspection, missing);
        if verdict.Exited? {
          return Some(verdict.code), i;
        }
        missing := verdict.state;
      }
    }
    code, ended := None, |readings|;
  }

  // ----- The service -----

  /** No record but that of `id` changes, and none appears or goes. */
  predicate OnlyChanges(procs: Procs, procs': Procs, id: string) {
    procs'.Keys == procs.Keys && forall other | other in procs && other != id :: procs'[other] == procs[other]
  }

  /** The record stays the same task's. */
  predicate SameTask(p: Proc, p': Proc) {
    p'.incarnation == p.incarnation && p'.isSandbox == p.isSandbox && p'.hasImage == p.hasImage
  }

  /** The event belongs to the record's task, and the record counts it as decided. */
  predicate DecidedFor(event: ExitEvent, id: string, p: Proc) {
    event == ExitEvent(id, p.incarnation, p.pid, p.exitCode) && p.status == Stopped && p.exitPublished
  }

  /** The shim's shared state and the sections that update it. */
  class Service {
    var procs: Procs

    constructor ()
      ensures procs == map[]
    {
      procs := map[];
    }

    method Create(id: string, incarnation: nat, isSandbox: bool, hasImage: bool)
      modifies this
      ensures procs == old(procs)[id := NewProc(incarnation, isSandbox, hasImage)]
      ensures procs[id].status == Created && !procs[id].exitPublished && procs[id].exitCode == 0
      ensures procs[id].isSandbox == isSandbox && procs[id].hasImage == hasImage && !procs[id].hasChild
      ensures forall other | other in old(procs) && other != id :: procs[other] == old(procs)[other]
    {
      procs := procs[id := Proc(incarnation, isSandbox, hasImage, 0, Created, 0, false, false, false)];
    }

    method FinishBoot(id: string, mainPid: nat)
      modifies this
      ensures procs == CommitStart(old(procs), id, mainPid)
      ensures OnlyChanges(old(procs), procs, id)
      ensures id in procs ==> procs[id].status == Running && procs[id].pid == mainPid && !procs[id].hasChild
      ensures id in procs ==>
        && SameTask(old(procs)[id], procs[id]) && procs[id].exitPublished == old(procs)[id].exitPublished
        && procs[id].exitCode == old(procs)[id].exitCode && procs[id].terminating == old(procs)[id].terminating
    {
      if id in procs {
        var p := procs[id];
        p := p.(status := Running);
        p := p.(pid := mainPid);
        p := p.(hasChild := false);
        procs := procs[id := p];
      }
    }

    /** Start, sandbox. */
    method StartPlaceholder(id: string, pid: nat)
      requires id in procs
      modifies this
      ensures procs == StartSandbox(old(procs), id, pid)
      ensures OnlyChanges(old(procs), procs, id) && SameTask(old(procs)[id], procs[id])
      ensures procs[id].status == Running && procs[id].pid == pid && procs[id].hasChild
    {
      var p := procs[id];
      p := p.(pid := pid);
      p := p.(hasChild := true);
      p := p.(status := Running);
      procs := procs[id := p];
    }

    /** Wait, first section; the child goes to the first Wait that asks. */
    method Take(id: string) returns (hadChild: bool)
      modifies this
      ensures procs == TakeChild(old(procs), id)
      ensures hadChild <==> id in old(procs) && old(procs)[id].hasChild
      ensures OnlyChanges(old(procs), procs, id) && (id in procs ==> !procs[id].hasChild)
    {
      hadChild := false;
      if id in procs {
        hadChild := procs[id].hasChild;
        procs := procs[id := procs[id].(hasChild := false)];
      }
    }

    method Settle(id: string, observed: nat) returns (event: Option<ExitEvent>, code: nat)
      modifies this
      ensures Effect(procs, event) == SettleWait(old(procs), id, observed)
      ensures code == SettledCode(old(procs), id, observed)
      ensures code ==
        if id in old(procs) && old(procs)[id].exitPublished && old(procs)[id].exitCode != 0
        then old(procs)[id].exitCode else observed
      ensures OnlyChanges(old(procs), procs, id)
      ensures event.Some? <==> id in old(procs) && !old(procs)[id].exitPublished
      ensures event.Some? ==> DecidedFor(event.value, id, procs[id])
      ensures id in procs ==>
        SameTask(old(procs)[id], procs[id]) && procs[id].exitPublished && procs[id].exitCode == code
      ensures id in procs ==> procs[id].status == Stopped && !procs[id].terminating
    {
      code := observed;
      event := None;
      if id in procs {
        var p := procs[id];
        if p.exitPublished && p.exitCode != 0 {
          code := p.exitCode;
        }
        p := p.(status := Stopped);
        p := p.(exitCode := code);
        p := p.(terminating := false);
        if !p.exitPublished {
          event := Some(ExitEvent(id, p.incarnation, p.pid, code));
        }
        p := p.(exitPublished := true);
        procs := procs[id := p];
      }
    }

    method Kill(id: string, signal: nat) returns (event: Option<ExitEvent>)
      modifies this
      ensures Effect(procs, event) == MarkKilled(old(procs), id, signal)
      ensures OnlyChanges(old(procs), procs, id)
      ensures event.Some? <==>
        && id in old(procs) && old(procs)[id].status != Stopped && !old(procs)[id].exitPublished
        && (old(procs)[id].isSandbox || !old(procs)[id].terminating) && signal in {1, 2, 3, 9, 15}
      ensures event.Some? ==> procs[id].exitCode == 128 + signal
      ensures event.Some? ==> DecidedFor(event.value, id, procs[id])
      ensures id in procs && old(procs)[id].status == Stopped ==> procs == old(procs)
    {
      event := None;
      if id !in procs {
        return;
      }
      var p := procs[id];
      if p.isSandbox {
        if p.status == Stopped {
          return;
        }
        if IsTerminating(signal) {
          p := p.(terminating := true, status := Stopped, exitCode := SignaledExitCode(signal));
          if !p.exitPublished {
            p := p.(exitPublished := true);
            event := Some(ExitEvent(id, p.incarnation, p.pid, p.exitCode));
          }
        }
      } else if p.status == Stopped || p.terminating {
        return;
      } else {
        p := p.(terminating := true);
        if IsTerminating(signal) {
          p := p.(status := Stopped, exitCode := SignaledExitCode(signal));
          if !p.exitPublished {
            p := p.(exitPublished := true);
            event := Some(ExitEvent(id, p.incarnation, p.pid, p.exitCode));
          }
        }
      }
      procs := procs[id := p];
    }

    method RecordTerminated(id: string, signal: nat, stopped: bool) returns (event: Option<ExitEvent>)
      modifies this
      ensures Effect(procs, event) == RecordTermination(old(procs), id, signal, stopped)
      ensures OnlyChanges(old(procs), procs, id)
      ensures event.Some? <==> stopped && id in old(procs) && !old(procs)[id].exitPublished
      ensures event.Some? ==> DecidedFor(event.value, id, procs[id])
      ensures !stopped && id in procs ==> procs[id] == old(procs)[id].(terminating := false)
      ensures stopped && id in procs && signal < 0xFFFF_FF00 ==>
        procs[id].status == Stopped && procs[id].exitCode == 128 + if signal == 0 then 15 else signal
    {
      event := None;
      if id in procs {
        var p := procs[id];
        p := p.(terminating := false);
        if stopped {
          p := p.(status := Stopped);
          p := p.(exitCode := SignaledExitCode(NormalizeSignal(signal)));
          if !p.exitPublished {
            p := p.(exitPublished := true);
            event := Some(ExitEvent(id, p.incarnation, p.pid, p.exitCode));
          }
        }
        procs := procs[id := p];
      }
    }

    method Delete(id: string) returns (code: nat, forceRemove: bool)
      modifies this
      ensures procs == old(procs) - {id}
      ensures code == (if id in old(procs) then old(procs)[id].exitCode else 0) && RecordedCode(procs, id) == 0
      ensures forceRemove <==> id in old(procs) && !old(procs)[id].isSandbox && old(procs)[id].status != Stopped
    {
      code, forceRemove := 0, false;
      if id in procs {
        code := procs[id].exitCode;
        forceRemove := !procs[id].isSandbox && procs[id].status != Stopped;
        procs := procs - {id};
      }
    }
  }
}
