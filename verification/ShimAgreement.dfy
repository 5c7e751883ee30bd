/**
 When every answer about a task agrees with the exit code that was published for
 it (containerd-shim/src/service.rs), and the interleavings in which they do not.
 */
module ShimAgreement {
  import opened Text
  import opened ShimTask
  import opened ShimProtocol

  predicate Concerns(handler: Handler, id: string) {
    !handler.Publishing? && handler.id == id
  }

  /** The caller's protocol for one task: Start only while it is created and not
      starting; Kill only after Start completed, and only with terminating signals. */
  ghost predicate Disciplined(s: System, step: Step, id: string) {
    match step
    case CreateStep(cid, _, _) => cid != id
    case DeleteStep(cid) => cid != id
    case StartStep(_, cid, _) => cid == id ==>
      && id in s.procs && s.procs[id].status == Created
      && forall h | h in s.handlers :: s.handlers[h] != Booting(id)
    case KillStep(_, cid, requested) => cid == id ==>
      && IsTerminating(NormalizeSignal(requested))
      && id in s.procs && s.procs[id].status != Created
    case _ => true
  }

  /** Just created, and no handler of an earlier task of that id is left over. */
  ghost predicate Fresh(s: System, id: string) {
    && id in s.procs
    && (exists n, isSandbox, hasImage :: s.procs[id] == NewProc(n, isSandbox, hasImage))
    && forall h | h in s.handlers :: !Concerns(s.handlers[h], id)
  }

  predicate HandlerFits(p: Proc, handler: Handler) {
    match handler
    case Booting(_) => p.status == Created
    case WaitingOnChild(_) => p.status != Created
    case Polling(_, seenRunning, _) => seenRunning ==> p.status != Created
    case Inspecting(_, _) => p.status != Created
    case Settling(_, _) => p.status != Created
    case KillPending(_, signal, _) => p.status == Stopped && SignalExplains(p, signal)
    case Terminator(_, signal) => p.status == Stopped && SignalExplains(p, signal)
    case Publishing(_) => true
  }

  predicate SignalExplains(p: Proc, signal: nat) {
    IsTerminating(signal) && p.exitCode == SignaledExitCode(signal)
  }

  predicate RecordFits(p: Proc) {
    && p.status != Unknown
    && (p.status == Stopped <==> p.exitPublished)
    && (p.status == Created ==> !p.hasChild)
  }

  ghost predicate TaskInv(s: System, id: string) {
    && id in s.procs
    && RecordFits(s.procs[id])
    && (forall h | h in s.handlers && Concerns(s.handlers[h], id) :: HandlerFits(s.procs[id], s.handlers[h]))
    && (forall h, k | h in s.handlers && k in s.handlers && s.handlers[h] == s.handlers[k] == Booting(id) :: h == k)
  }

  /** How a record may change while other handlers hold on to what they saw of it. */
  predicate Evolves(p: Proc, p': Proc) {
    && RecordFits(p')
    && p'.incarnation == p.incarnation
    && (p'.status == Created ==> p.status == Created)
    && (p.status == Stopped ==> p'.status == Stopped && (p.exitCode != 0 ==> p'.exitCode == p.exitCode))
  }

  /** A step by handler `h` moves the task's record on; every other handler stands still. */
  ghost predicate Advances(s: System, s': System, id: string, h: nat) {
    && id in s.procs && id in s'.procs
    && Evolves(s.procs[id], s'.procs[id])
    && (forall k | k != h :: k in s.handlers <==> k in s'.handlers)
    && (forall k | k != h && k in s.handlers :: s'.handlers[k] == s.handlers[k])
    && (h in s'.handlers && Concerns(s'.handlers[h], id) ==> HandlerFits(s'.procs[id], s'.handlers[h]))
    && (s'.procs[id].status != Created || (h in s'.handlers && s'.handlers[h] == Booting(id)) ==>
          forall k | k != h && k in s.handlers :: s.handlers[k] != Booting(id))
  }

  lemma AdvanceKeepsTaskInv(s: System, s': System, id: string, h: nat)
    requires TaskInv(s, id) && Advances(s, s', id, h)
    ensures TaskInv(s', id)
  {
    forall k | k in s'.handlers && Concerns(s'.handlers[k], id)
      ensures HandlerFits(s'.procs[id], s'.handlers[k])
    {
      if k != h {
        assert HandlerFits(s.procs[id], s.handlers[k]);
      }
    }
  }

  /** Start and its commit. */
  lemma StartAdvances(s: System, step: Step, id: string)
    requires TaskInv(s, id) && Enabled(s, step) && Disciplined(s, step, id)
    requires step.StartStep? || step.BootStep?
    ensures Advances(s, Next(s, step), id, step.h)
  {
  }

  lemma WaitBegins(s: System, h: nat, cid: string, id: string)
    requires TaskInv(s, id) && Enabled(s, WaitStep(h, cid))
    ensures Advances(s, Next(s, WaitStep(h, cid)), id, h)
  {
  }

  /** Wait, up to its last section. */
  lemma WaitAdvances(s: System, step: Step, id: string)
    requires TaskInv(s, id) && Enabled(s, step)
    requires step.WaitStep? || step.ChildExitStep? || step.PollStep? || step.InspectStep?
    ensures Advances(s, Next(s, step), id, step.h)
  {
    if step.WaitStep? {
      WaitBegins(s, step.h, step.cid, id);
    } else {
      assert HandlerFits(s.procs[id], s.handlers[step.h]) || !Concerns(s.handlers[step.h], id);
    }
  }

  lemma SettleAdvances(s: System, h: nat, id: string)
    requires TaskInv(s, id) && Enabled(s, SettleStep(h))
    ensures Advances(s, Next(s, SettleStep(h)), id, h)
  {
  }

  lemma KillAdvances(s: System, step: Step, id: string)
    requires TaskInv(s, id) && Enabled(s, step) && Disciplined(s, step, id)
    requires step.KillStep? || step.KillContinueStep?
    ensures Advances(s, Next(s, step), id, step.h)
  {
    if step.KillContinueStep? {
      KillContinueAdvances(s, step.h, id);
    } else if step.cid == id {
      OwnKillAdvances(s, step.h, id, step.requested);
    } else {
      OtherKillAdvances(s, step.h, step.cid, id, step.requested);
    }
  }

  lemma OwnKillAdvances(s: System, h: nat, id: string, requested: nat)
    requires TaskInv(s, id) && Enabled(s, KillStep(h, id, requested)) && Disciplined(s, KillStep(h, id, requested), id)
    ensures Advances(s, Next(s, KillStep(h, id, requested)), id, h)
  {
  }

  lemma OtherKillAdvances(s: System, h: nat, cid: string, id: string, requested: nat)
    requires TaskInv(s, id) && Enabled(s, KillStep(h, cid, requested)) && cid != id
    ensures Advances(s, Next(s, KillStep(h, cid, requested)), id, h)
  {
  }

  lemma KillContinueAdvances(s: System, h: nat, id: string)
    requires TaskInv(s, id) && Enabled(s, KillContinueStep(h))
    ensures Advances(s, Next(s, KillContinueStep(h)), id, h)
  {
  }

  lemma TerminationAdvances(s: System, h: nat, stopped: bool, id: string)
    requires TaskInv(s, id) && Enabled(s, TerminateStep(h, stopped))
    ensures Advances(s, Next(s, TerminateStep(h, stopped)), id, h)
  {
  }

  lemma StepKeepsTaskInv(s: System, step: Step, id: string)
    requires TaskInv(s, id) && Enabled(s, step) && Disciplined(s, step, id)
    ensures TaskInv(Next(s, step), id)
    ensures Evolves(s.procs[id], Next(s, step).procs[id])
  {
    match step {
      case StartStep(h, _, _) => StartAdvances(s, step, id);
      case BootStep(h, _) => StartAdvances(s, step, id);
      case WaitStep(h, _) => WaitAdvances(s, step, id);
      case ChildExitStep(h, _) => WaitAdvances(s, step, id);
      case PollStep(h) => WaitAdvances(s, step, id);
      case InspectStep(h, _) => WaitAdvances(s, step, id);
      case SettleStep(h) => SettleAdvances(s, h, id);
      case KillStep(h, _, _) => KillAdvances(s, step, id);
      case KillContinueStep(h) => KillAdvances(s, step, id);
      case TerminateStep(h, stopped) => TerminationAdvances(s, h, stopped, id);
      case PublishStep(h) => assert Advances(s, Next(s, step), id, h);
      case _ =>
    }
    if !(step.CreateStep? || step.DeleteStep? || step.StateStep?) {
      AdvanceKeepsTaskInv(s, Next(s, step), id, step.h);
    }
  }

  ghost predicate EventsAgree(s: System, id: string) {
    id in s.procs &&
    forall e | Decided(s, e) && e.incarnation == s.procs[id].incarnation && e.exitCode != 0 ::
      e.exitCode == s.procs[id].exitCode
  }

  /** An event that a step decides comes from the section that records the exit. */
  lemma NewEventIsRecorded(s: System, step: Step, e: ExitEvent)
    returns (h: nat, id: string, code: nat, terminating: bool)
    requires Enabled(s, step) && Decided(Next(s, step), e) && !Decided(s, e)
    ensures Records(s, Next(s, step), h, id, code, terminating) && Holds(Next(s, step), h, e)
  {
    var s' := Next(s, step);
    StepShape(s, step);
    assert forall k :: !Holds(s, k, e);
    if k, event :| Publishes(s, s', k, event) {
      assert Holds(s, k, event);
    }
    assert e !in s'.published;
    var k :| Holds(s', k, e);
    assert !Holds(s, k, e) && PendingAt(s', k) != PendingAt(s, k);
    h, id, code, terminating :| Records(s, s', h, id, code, terminating);
    assert h == k;
  }

  lemma StepKeepsAgreement(s: System, step: Step, id: string)
    requires IncarnationsDistinct(s) && FlagsMatchEvents(s) && TaskInv(s, id) && EventsAgree(s, id)
    requires Enabled(s, step) && Disciplined(s, step, id)
    ensures EventsAgree(Next(s, step), id)
  {
    var s' := Next(s, step);
    StepKeepsTaskInv(s, step, id);
    forall e | Decided(s', e) && e.incarnation == s'.procs[id].incarnation && e.exitCode != 0
      ensures e.exitCode == s'.procs[id].exitCode
    {
      if !Decided(s, e) {
        var h, rid, code, terminating := NewEventIsRecorded(s, step, e);
        assert rid == id;
      }
    }
  }

  /** From `start` on, the task just created there is used as the protocol asks. */
  ghost predicate IsTaskRun(states: seq<System>, steps: seq<Step>, start: nat, id: string) {
    && IsRun(states, steps) && states[0] == INIT
    && start < |states| && Fresh(states[start], id)
    && forall i | start <= i < |steps| :: Disciplined(states[i], steps[i], id)
  }

  lemma FreshTask(s: System, id: string)
    requires FlagsMatchEvents(s) && Fresh(s, id)
    ensures TaskInv(s, id) && EventsAgree(s, id)
  {
  }

  lemma {:induction false} TaskRunKeepsInv(states: seq<System>, steps: seq<Step>, start: nat, id: string, n: nat)
    requires IsTaskRun(states, steps, start, id) && start <= n < |states|
    ensures TaskInv(states[n], id) && EventsAgree(states[n], id)
    decreases n
  {
    if n == start {
      RunKeepsInv(states, steps, n);
      FreshTask(states[n], id);
    } else {
      TaskRunKeepsInv(states, steps, start, id, n - 1);
      TaskStep(states, steps, start, id, n - 1);
    }
  }

  lemma TaskStep(states: seq<System>, steps: seq<Step>, start: nat, id: string, n: nat)
    requires IsTaskRun(states, steps, start, id) && start <= n < |steps|
    requires TaskInv(states[n], id) && EventsAgree(states[n], id)
    ensures TaskInv(states[n + 1], id) && EventsAgree(states[n + 1], id)
  {
    assert Enabled(states[n], steps[n]) && states[n + 1] == Next(states[n], steps[n]);
    assert Disciplined(states[n], steps[n], id);
    RunKeepsInv(states, steps, n);
    StepKeepsTaskInv(states[n], steps[n], id);
    StepKeepsAgreement(states[n], steps[n], id);
  }

  lemma {:induction false} RecordEvolves(states: seq<System>, steps: seq<Step>, start: nat, id: string, i: nat, j: nat)
    requires IsTaskRun(states, steps, start, id) && start <= i <= j < |states|
    ensures id in states[i].procs && id in states[j].procs
    ensures states[j].procs[id].incarnation == states[i].procs[id].incarnation
    ensures states[i].procs[id].status == Stopped ==>
      && states[j].procs[id].status == Stopped
      && (states[i].procs[id].exitCode != 0 ==> states[j].procs[id].exitCode == states[i].procs[id].exitCode)
    decreases j
  {
    TaskRunKeepsInv(states, steps, start, id, i);
    if i < j {
      RecordEvolves(states, steps, start, id, i, j - 1);
      TaskRunKeepsInv(states, steps, start, id, j - 1);
      StepKeepsTaskInv(states[j - 1], steps[j - 1], id);
    }
  }

  /** The exit code a step answers with about task `id`, if it answers about it. */
  function Answer(s: System, step: Step, id: string): Option<nat>
    requires Enabled(s, step)
  {
    match step
    case SettleStep(h) =>
      if s.handlers[h].id == id then Some(SettledCode(s.procs, id, s.handlers[h].observed)) else None
    case StateStep(cid) => if cid == id then Some(RecordedCode(s.procs, id)) else None
    case DeleteStep(cid) => if cid == id then Some(RecordedCode(s.procs, id)) else None
    case _ => None
  }

  /** STOPPED is absorbing. */
  lemma StoppedIsAbsorbing(states: seq<System>, steps: seq<Step>, start: nat, id: string, i: nat, j: nat)
    requires IsTaskRun(states, steps, start, id) && start <= i <= j < |states|
    requires id in states[i].procs && states[i].procs[id].status == Stopped
    ensures id in states[j].procs && states[j].procs[id].status == Stopped
  {
    RecordEvolves(states, steps, start, id, i, j);
  }

  /**
   Once a nonzero exit code has been published for the task, the record keeps it,
   and every later Wait, State and Delete answers with it.
   */
  lemma PublishedCodeIsAnswered(
    states: seq<System>, steps: seq<Step>, start: nat, id: string, i: nat, j: nat, event: ExitEvent, step: Step)
    requires IsTaskRun(states, steps, start, id) && start <= i <= j < |states|
    requires event in states[i].published && event.exitCode != 0
    requires id in states[i].procs && event.incarnation == states[i].procs[id].incarnation
    requires Enabled(states[j], step) && Answer(states[j], step, id).Some?
    ensures Answer(states[j], step, id) == Some(event.exitCode)
  {
    TaskRunKeepsInv(states, steps, start, id, i);
    TaskRunKeepsInv(states, steps, start, id, j);
    assert states[i].procs[id].status == Stopped by {
      RunKeepsInv(states, steps, i);
      assert Decided(states[i], event);
    }
    assert Decided(states[i], event);
    RecordEvolves(states, steps, start, id, i, j);
  }

  // ----- What a Wait has seen -----

  /** Exactly these steps end the waiting, with exactly these codes. */
  lemma WaitEndsExactly(s: System, step: Step, code: nat)
    requires Enabled(s, step) && (step.ChildExitStep? || step.PollStep? || step.InspectStep?)
    ensures var id := s.handlers[step.h].id;
      Next(s, step).handlers[step.h] == Settling(id, code) <==>
        match step
        case ChildExitStep(_, c) => code == c
        case PollStep(_) => code == 0 && (id !in s.procs || s.procs[id].status == Stopped)
        case InspectStep(h, SawTerminal(c)) => code == c
        case InspectStep(h, Failed) => code == 0 && s.handlers[h].missing >= 1
        case _ => false
  {
  }

  /** What a Wait has seen it holds on to until its last section. */
  lemma {:induction false} SettlingStays(states: seq<System>, steps: seq<Step>, h: nat, i: nat, j: nat)
    requires IsRun(states, steps) && i <= j < |states| && h in states[i].handlers && states[i].handlers[h].Settling?
    requires forall k | i <= k < j :: steps[k] != SettleStep(h)
    ensures h in states[j].handlers && states[j].handlers[h] == states[i].handlers[h]
    decreases j
  {
    if i < j {
      SettlingStays(states, steps, h, i, j - 1);
      assert Enabled(states[j - 1], steps[j - 1]) && steps[j - 1] != SettleStep(h);
    }
  }

  /** A nonzero code has been decided for the task. */
  predicate HasCode(s: System, id: string) {
    id in s.procs && s.procs[id].exitPublished && s.procs[id].exitCode != 0
  }

  /** What the last section of a Wait that saw `code` does. */
  lemma SettlingAnswers(s: System, h: nat, id: string, code: nat)
    requires h in s.handlers && s.handlers[h] == Settling(id, code)
    ensures Answer(s, SettleStep(h), id) == Some(if HasCode(s, id) then s.procs[id].exitCode else code)
    ensures var s' := Next(s, SettleStep(h));
      && PendingAt(s', h) == (if id in s.procs && !s.procs[id].exitPublished
         then Some(ExitEvent(id, s.procs[id].incarnation, s.procs[id].pid, code)) else None)
      && (id in s.procs && !HasCode(s, id) ==> s'.procs[id].exitCode == code)
  {
  }

  /**
   A Wait whose child exited with a code, or whose inspection found the box terminal with it,
   answers that code, and an event it decides carries it, unless a nonzero code was decided
   for the task before its last section; then it answers that one.
   */
  lemma ObservedCodeIsAnswered(states: seq<System>, steps: seq<Step>, h: nat, code: nat, i: nat, j: nat)
    requires IsRun(states, steps) && i < j < |steps|
    requires steps[i] == ChildExitStep(h, code) || steps[i] == InspectStep(h, SawTerminal(code))
    requires steps[j] == SettleStep(h) && forall k | i < k < j :: steps[k] != SettleStep(h)
    ensures var s, id := states[j], states[i].handlers[h].id;
      && Answer(s, steps[j], id) == Some(if HasCode(s, id) then s.procs[id].exitCode else code)
      && PendingAt(states[j + 1], h) == (if id in s.procs && !s.procs[id].exitPublished
         then Some(ExitEvent(id, s.procs[id].incarnation, s.procs[id].pid, code)) else None)
      && (id in s.procs && !HasCode(s, id) ==> states[j + 1].procs[id].exitCode == code)
  {
    var id := states[i].handlers[h].id;
    assert Enabled(states[i], steps[i]) && states[i + 1] == Next(states[i], steps[i]);
    WaitEndsExactly(states[i], steps[i], code);
    SettlingStays(states, steps, h, i + 1, j);
    SettlingAnswers(states[j], h, id, code);
  }

  // ----- Without the caller's protocol: exactly which steps break it -----

  predicate Restarts(s: System, step: Step, id: string)
    requires Enabled(s, step) && id in s.procs
  {
    match step
    case BootStep(h, mainPid) => s.handlers[h].id == id && mainPid.Some?
    case StartStep(_, cid, placeholder) => cid == id && s.procs[id].isSandbox && placeholder.Some?
    case CreateStep(cid, _, _) => cid == id
    case DeleteStep(cid) => cid == id
    case _ => false
  }

  /** A stopped task stays stopped through a step unless that step starts, recreates or deletes it. */
  lemma StoppedIsLeftExactlyBy(s: System, step: Step, id: string)
    requires Enabled(s, step) && id in s.procs && s.procs[id].status == Stopped
    ensures id in Next(s, step).procs && Next(s, step).procs[id].status == Stopped <==> !Restarts(s, step, id)
  {
  }

  /**
   The steps that replace a published code: a terminator or a Kill for another
   signal, a Create, and, when the code is zero, a Wait that observed another.
   */
  predicate Overwrites(s: System, step: Step, id: string)
    requires Enabled(s, step) && id in s.procs
  {
    match step
    case TerminateStep(h, stopped) =>
      && s.handlers[h].id == id && stopped
      && SignaledExitCode(NormalizeSignal(s.handlers[h].signal)) != s.procs[id].exitCode
    case KillStep(_, cid, requested) =>
      && cid == id && Killable(s.procs, id)
      && IsTerminating(NormalizeSignal(requested))
      && SignaledExitCode(NormalizeSignal(requested)) != s.procs[id].exitCode
    case SettleStep(h) =>
      s.handlers[h].id == id && s.procs[id].exitCode == 0 && s.handlers[h].observed != 0
    case CreateStep(cid, _, _) => cid == id && s.procs[id].exitCode != 0
    case _ => false
  }

  lemma PublishedCodeIsLostExactlyBy(s: System, step: Step, id: string)
    requires Enabled(s, step) && id in s.procs && s.procs[id].exitPublished
    requires id in Next(s, step).procs
    ensures Next(s, step).procs[id].exitCode == s.procs[id].exitCode <==> !Overwrites(s, step, id)
  {
  }

  lemma PublishedStays(s: System, step: Step, id: string)
    requires Enabled(s, step) && id in s.procs && s.procs[id].exitPublished
    requires !(step.CreateStep? || step.DeleteStep?) || step.cid != id
    ensures id in Next(s, step).procs && Next(s, step).procs[id].exitPublished
  {
  }

  /** From state `i` to state `j` no step removes the record of the task or overwrites its code. */
  ghost predicate Undisturbed(states: seq<System>, steps: seq<Step>, id: string, i: nat, j: nat)
    requires IsRun(states, steps) && i <= j < |states|
  {
    forall k | i <= k < j ::
      && !(steps[k].DeleteStep? && steps[k].cid == id)
      && (id in states[k].procs ==> !Overwrites(states[k], steps[k], id))
  }

  lemma {:induction false} CodeStays(states: seq<System>, steps: seq<Step>, id: string, i: nat, j: nat)
    requires IsRun(states, steps) && i <= j < |states| && Undisturbed(states, steps, id, i, j)
    requires id in states[i].procs && states[i].procs[id].exitPublished && states[i].procs[id].exitCode != 0
    ensures id in states[j].procs && states[j].procs[id].exitPublished
    ensures states[j].procs[id].exitCode == states[i].procs[id].exitCode
    decreases j
  {
    if i < j {
      assert Undisturbed(states, steps, id, i, j - 1);
      CodeStays(states, steps, id, i, j - 1);
      PublishedStays(states[j - 1], steps[j - 1], id);
      PublishedCodeIsLostExactlyBy(states[j - 1], steps[j - 1], id);
    }
  }

  /**
   Whatever the callers do: while no step removes the record or overwrites its published nonzero
   code, every Wait, State and Delete on the task answers that code.
   */
  lemma UndisturbedCodeIsAnswered(states: seq<System>, steps: seq<Step>, id: string, i: nat, j: nat, step: Step)
    requires IsRun(states, steps) && i <= j < |states| && Undisturbed(states, steps, id, i, j)
    requires id in states[i].procs && states[i].procs[id].exitPublished && states[i].procs[id].exitCode != 0
    requires Enabled(states[j], step) && Answer(states[j], step, id).Some?
    ensures Answer(states[j], step, id) == Some(states[i].procs[id].exitCode)
  {
    CodeStays(states, steps, id, i, j);
  }

  // ----- Witnesses -----

  /** A Kill that overtakes Start leaves a task that runs although its exit was decided. */
  lemma KillDuringStartLeavesTaskRunning()
    ensures var s1 := Next(INIT, CreateStep("a", false, true));
      var s2 := Next(s1, StartStep(0, "a", None));
      var s3 := Next(s2, KillStep(1, "a", SIGTERM));
      Enabled(s3, BootStep(0, Some(7))) &&
      var s4 := Next(s3, BootStep(0, Some(7)));
      s3.procs["a"].status == Stopped && s4.procs["a"].status == Running && s4.procs["a"].exitPublished
  {
  }

  /** A workload "a" whose Start has completed. */
  function StartedWorkload(): System {
    var s1 := Next(INIT, CreateStep("a", false, true));
    var s2 := Next(s1, StartStep(0, "a", None));
    Next(s2, BootStep(0, Some(7)))
  }

  /** A delivered SIGUSR1 (10) is recorded as the task's exit. */
  lemma UserSignalIsRecordedAsExit()
    ensures var s1 := Next(StartedWorkload(), KillStep(1, "a", 10));
      var s2 := Next(s1, KillContinueStep(1));
      var s3 := Next(s2, TerminateStep(1, true));
      s3.procs["a"].status == Stopped && s3.procs["a"].exitCode == 138 && s3.procs["a"].exitPublished
  {
  }

  /** A Wait that polls a deleted task ends and answers 0, whatever was published about the task. */
  lemma WaitAfterDeleteAnswersZero(s: System, h: nat)
    requires Enabled(s, PollStep(h)) && s.handlers[h].id !in s.procs
    ensures var s' := Next(s, PollStep(h));
      Enabled(s', SettleStep(h)) && Answer(s', SettleStep(h), s.handlers[h].id) == Some(0)
  {
  }
}
