/**
 The shim's task protocol as a transition system (containerd-shim/src/service.rs).

 Any number of handlers run at once. A step is one critical section of one
 handler, or one publication; what happens between sections (process spawning,
 inspection, signalling) only chooses the step's outcome.
 */
module ShimProtocol {
  import opened Text
  import opened ShimTask

  /** Where a handler stands between two of its sections. */
  datatype Handler =
    | Booting(id: string)                                          // Start, lock released
    | WaitingOnChild(id: string)                                   // Wait, owns the child
    | Polling(id: string, seenRunning: bool, missing: nat)         // Wait, at the loop head
    | Inspecting(id: string, missing: nat)                         // Wait, inspect outstanding
    | Settling(id: string, observed: nat)                          // Wait, before its last section
    | KillPending(id: string, signal: nat, event: Option<ExitEvent>) // Kill, before publish and spawn
    | Terminator(id: string, signal: nat)                          // background stop outstanding
    | Publishing(exit: ExitEvent)

  datatype System = System(
    procs: Procs,
    handlers: map<nat, Handler>,
    published: seq<ExitEvent>,
    nextIncarnation: nat)

  const INIT := System(map[], map[], [], 0)

  datatype Step =
    | CreateStep(cid: string, isSandbox: bool, hasImage: bool)
    | StartStep(h: nat, cid: string, placeholder: Option<nat>)     // None: spawning failed
    | BootStep(h: nat, mainPid: Option<nat>)                       // None: launch failed
    | WaitStep(h: nat, cid: string)
    | ChildExitStep(h: nat, code: nat)
    | PollStep(h: nat)
    | InspectStep(h: nat, inspection: Inspection)
    | SettleStep(h: nat)
    | KillStep(h: nat, cid: string, requested: nat)
    | KillContinueStep(h: nat)
    | TerminateStep(h: nat, stopped: bool)
    | PublishStep(h: nat)
    | DeleteStep(cid: string)
    | StateStep(cid: string)

  predicate Enabled(s: System, step: Step) {
    match step
    case CreateStep(_, _, _) => true
    case StartStep(h, id, _) => h !in s.handlers && id in s.procs
    case BootStep(h, _) => h in s.handlers && s.handlers[h].Booting?
    case WaitStep(h, _) => h !in s.handlers
    case ChildExitStep(h, _) => h in s.handlers && s.handlers[h].WaitingOnChild?
    case PollStep(h) => h in s.handlers && s.handlers[h].Polling?
    case InspectStep(h, _) => h in s.handlers && s.handlers[h].Inspecting?
    case SettleStep(h) => h in s.handlers && s.handlers[h].Settling?
    case KillStep(h, _, _) => h !in s.handlers
    case KillContinueStep(h) => h in s.handlers && s.handlers[h].KillPending?
    case TerminateStep(h, _) => h in s.handlers && s.handlers[h].Terminator?
    case PublishStep(h) => h in s.handlers && s.handlers[h].Publishing?
    case DeleteStep(_) => true
    case StateStep(_) => true
  }

  /** Apply a section's effect; handler `h` goes on to publish a decided event, or ends. */
  function Decide(s: System, h: nat, effect: Effect): System {
    s.(procs := effect.procs,
       handlers := if effect.event.Some? then s.handlers[h := Publishing(effect.event.value)] else s.handlers - {h})
  }

  function Move(s: System, h: nat, handler: Handler): System {
    s.(handlers := s.handlers[h := handler])
  }

  function NextStart(s: System, h: nat, id: string, placeholder: Option<nat>): System
    requires id in s.procs
  {
    if s.procs[id].isSandbox then
      if placeholder.Some? then s.(procs := StartSandbox(s.procs, id, placeholder.value)) else s
    else if s.procs[id].hasImage then
      Move(s, h, Booting(id))
    else
      s
  }

  function NextWait(s: System, h: nat, id: string): System {
    var handler := if id in s.procs && s.procs[id].hasChild then WaitingOnChild(id) else Polling(id, false, 0);
    Move(s, h, handler).(procs := TakeChild(s.procs, id))
  }

  function NextPoll(s: System, h: nat, id: string, seenRunning: bool, missing: nat): System {
    match OnStatus(if id in s.procs then Some(s.procs[id].status) else None, seenRunning)
    case Exited(code) => Move(s, h, Settling(id, code))
    case Continue(seen) => Move(s, h, if seen then Inspecting(id, missing) else Polling(id, seen, missing))
  }

  function NextInspect(s: System, h: nat, id: string, missing: nat, inspection: Inspection): System {
    match OnInspection(inspection, missing)
    case Exited(code) => Move(s, h, Settling(id, code))
    case Continue(missing') => Move(s, h, Polling(id, true, missing'))
  }

  function NextKill(s: System, h: nat, id: string, signal: nat): System {
    var effect := MarkKilled(s.procs, id, signal);
    if Killable(s.procs, id) && !s.procs[id].isSandbox
    then Move(s, h, KillPending(id, signal, effect.event)).(procs := effect.procs)
    else Decide(s, h, effect)
  }

  function Next(s: System, step: Step): System
    requires Enabled(s, step)
  {
    match step
    case CreateStep(id, isSandbox, hasImage) =>
      s.(procs := s.procs[id := NewProc(s.nextIncarnation, isSandbox, hasImage)],
         nextIncarnation := s.nextIncarnation + 1)
    case StartStep(h, id, placeholder) => NextStart(s, h, id, placeholder)
    case BootStep(h, mainPid) =>
      var procs := if mainPid.Some? then CommitStart(s.procs, s.handlers[h].id, mainPid.value) else s.procs;
      s.(procs := procs, handlers := s.handlers - {h})
    case WaitStep(h, id) => NextWait(s, h, id)
    case ChildExitStep(h, code) => Move(s, h, Settling(s.handlers[h].id, code))
    case PollStep(h) => NextPoll(s, h, s.handlers[h].id, s.handlers[h].seenRunning, s.handlers[h].missing)
    case InspectStep(h, inspection) => NextInspect(s, h, s.handlers[h].id, s.handlers[h].missing, inspection)
    case SettleStep(h) => Decide(s, h, SettleWait(s.procs, s.handlers[h].id, s.handlers[h].observed))
    case KillStep(h, id, requested) => NextKill(s, h, id, NormalizeSignal(requested))
    case KillContinueStep(h) =>
      var KillPending(id, signal, event) := s.handlers[h];
      Move(s, h, Terminator(id, signal)).(published := s.published + if event.Some? then [event.value] else [])
    case TerminateStep(h, stopped) =>
      Decide(s, h, RecordTermination(s.procs, s.handlers[h].id, s.handlers[h].signal, stopped))
    case PublishStep(h) =>
      s.(handlers := s.handlers - {h}, published := s.published + [s.handlers[h].exit])
    case DeleteStep(id) => s.(procs := s.procs - {id})
    case StateStep(_) => s
  }

  // ----- The same steps, in place -----

  /** The service, its open handlers, and the events it has sent. */
  class Shim {
    const service: Service
    var handlers: map<nat, Handler>
    var published: seq<ExitEvent>
    var nextIncarnation: nat

    constructor ()
      ensures View() == INIT && fresh(service)
    {
      service := new Service();
      handlers, published, nextIncarnation := map[], [], 0;
    }

    function View(): System
      reads this, service
    {
      System(service.procs, handlers, published, nextIncarnation)
    }

    method Conclude(h: nat, event: Option<ExitEvent>)
      modifies this
      ensures View() == Decide(old(View()), h, Effect(service.procs, event))
    {
      if event.Some? {
        handlers := handlers[h := Publishing(event.value)];
      } else {
        handlers := handlers - {h};
      }
    }

    method Start(h: nat, id: string, placeholder: Option<nat>)
      requires id in service.procs
      modifies this, service
      ensures View() == NextStart(old(View()), h, id, placeholder)
    {
      var p := service.procs[id];
      if p.isSandbox {
        if placeholder.Some? {
          service.StartPlaceholder(id, placeholder.value);
        }
      } else if p.hasImage {
        handlers := handlers[h := Booting(id)];
      }
    }

    method Wait(h: nat, id: string)
      modifies this, service
      ensures View() == NextWait(old(View()), h, id)
    {
      var hadChild := service.Take(id);
      handlers := handlers[h := if hadChild then WaitingOnChild(id) else Polling(id, false, 0)];
    }

    method Kill(h: nat, id: string, signal: nat)
      modifies this, service
      ensures View() == NextKill(old(View()), h, id, signal)
    {
      var pending := Killable(service.procs, id) && !service.procs[id].isSandbox;
      var event := service.Kill(id, signal);
      if pending {
        handlers := handlers[h := KillPending(id, signal, event)];
      } else {
        Conclude(h, event);
      }
    }

    /**
     Every step of the protocol is one section of the service and the handler's move, and keeps
     the protocol's invariant.
     */
    method Perform(step: Step)
      requires Enabled(View(), step)
      modifies this, service
      ensures View() == Next(old(View()), step)
      ensures old(Inv(View())) ==> Inv(View())
    {
      ghost var before := View();
      match step {
        case CreateStep(id, isSandbox, hasImage) =>
          service.Create(id, nextIncarnation, isSandbox, hasImage);
          nextIncarnation := nextIncarnation + 1;
        case StartStep(h, id, placeholder) => Start(h, id, placeholder);
        case BootStep(h, mainPid) =>
          if mainPid.Some? {
            service.FinishBoot(handlers[h].id, mainPid.value);
          }
          handlers := handlers - {h};
        case WaitStep(h, id) => Wait(h, id);
        case ChildExitStep(h, code) => handlers := handlers[h := Settling(handlers[h].id, code)];
        case PollStep(h) =>
          handlers := NextPoll(View(), h, handlers[h].id, handlers[h].seenRunning, handlers[h].missing).handlers;
        case InspectStep(h, inspection) =>
          handlers := NextInspect(View(), h, handlers[h].id, handlers[h].missing, inspection).handlers;
        case SettleStep(h) =>
          var event, _ := service.Settle(handlers[h].id, handlers[h].observed);
          Conclude(h, event);
        case KillStep(h, id, requested) => Kill(h, id, NormalizeSignal(requested));
        case KillContinueStep(h) =>
          var KillPending(id, signal, event) := handlers[h];
          if event.Some? {
            published := published + [event.value];
          }
          handlers := handlers[h := Terminator(id, signal)];
        case TerminateStep(h, stopped) =>
          var event := service.RecordTerminated(handlers[h].id, handlers[h].signal, stopped);
          Conclude(h, event);
        case PublishStep(h) =>
          published := published + [handlers[h].exit];
          handlers := handlers - {h};
        case DeleteStep(id) =>
          var _, _ := service.Delete(id);
        case StateStep(_) =>
      }
      assert View() == Next(before, step);
      if Inv(before) {
        StepKeepsInv(before, step);
      }
    }
  }

  /** A run: consecutive states linked by enabled steps. */
  ghost predicate IsRun(states: seq<System>, steps: seq<Step>) {
    && |states| == |steps| + 1
    && forall i | 0 <= i < |steps| :: Enabled(states[i], steps[i]) && states[i + 1] == Next(states[i], steps[i])
  }

  // ----- One exit event per incarnation -----

  /** The event a handler has decided on and not yet published. */
  function Pending(handler: Handler): Option<ExitEvent> {
    match handler
    case KillPending(_, _, event) => event
    case Publishing(exit) => Some(exit)
    case _ => None
  }

  function PendingAt(s: System, h: nat): Option<ExitEvent> {
    if h in s.handlers then Pending(s.handlers[h]) else None
  }

  ghost predicate Holds(s: System, h: nat, event: ExitEvent) {
    PendingAt(s, h) == Some(event)
  }

  /** The event exists: published, or decided and about to be. */
  ghost predicate Decided(s: System, event: ExitEvent) {
    event in s.published || exists h :: Holds(s, h, event)
  }

  ghost predicate IncarnationsDistinct(s: System) {
    && (forall id | id in s.procs :: s.procs[id].incarnation < s.nextIncarnation)
    && (forall a, b | a in s.procs && b in s.procs && a != b :: s.procs[a].incarnation != s.procs[b].incarnation)
  }

  ghost predicate EventsDistinct(s: System) {
    && (forall i, j | 0 <= i < j < |s.published| :: s.published[i].incarnation != s.published[j].incarnation)
    && (forall h, k, e, f | Holds(s, h, e) && Holds(s, k, f) && h != k :: e.incarnation != f.incarnation)
    && (forall i, h, e | 0 <= i < |s.published| && Holds(s, h, e) :: s.published[i].incarnation != e.incarnation)
  }

  /** An incarnation's flag is set exactly when its event has been decided. */
  ghost predicate FlagsMatchEvents(s: System) {
    && (forall e | Decided(s, e) :: e.incarnation < s.nextIncarnation)
    && (forall id, e | id in s.procs && Decided(s, e) && e.incarnation == s.procs[id].incarnation ::
          e.id == id && s.procs[id].exitPublished)
    && (forall id | id in s.procs && s.procs[id].exitPublished ::
          exists e :: Decided(s, e) && e.incarnation == s.procs[id].incarnation)
  }

  ghost predicate Inv(s: System) {
    IncarnationsDistinct(s) && EventsDistinct(s) && FlagsMatchEvents(s)
  }

  // Every step has one of four shapes, as far as events are concerned.

  /** It neither decides nor publishes. */
  ghost predicate Quiet(s: System, s': System) {
    && s'.published == s.published && s'.nextIncarnation == s.nextIncarnation
    && (forall h :: PendingAt(s', h) == PendingAt(s, h))
    && (forall id | id in s'.procs ::
          && id in s.procs
          && s'.procs[id].incarnation == s.procs[id].incarnation
          && s'.procs[id].exitPublished == s.procs[id].exitPublished)
  }

  /** Handler `h` records an exit. */
  ghost predicate Records(s: System, s': System, h: nat, id: string, code: nat, terminating: bool) {
    && s'.published == s.published && s'.nextIncarnation == s.nextIncarnation
    && PendingAt(s, h) == None
    && id in s.procs
    && Effect(s'.procs, PendingAt(s', h)) == RecordExit(s.procs, id, s.procs[id], code, terminating)
    && (forall k | k != h :: PendingAt(s', k) == PendingAt(s, k))
  }

  /** Handler `h` publishes the event it decided on. */
  ghost predicate Publishes(s: System, s': System, h: nat, event: ExitEvent) {
    && s'.procs == s.procs && s'.nextIncarnation == s.nextIncarnation
    && s'.published == s.published + [event]
    && PendingAt(s, h) == Some(event) && PendingAt(s', h) == None
    && (forall k | k != h :: PendingAt(s', k) == PendingAt(s, k))
  }

  ghost predicate HasShape(s: System, s': System) {
    || Quiet(s, s')
    || (exists h, id, code, terminating :: Records(s, s', h, id, code, terminating))
    || (exists h, event :: Publishes(s, s', h, event))
  }

  lemma SettleShape(s: System, h: nat)
    requires Enabled(s, SettleStep(h))
    ensures HasShape(s, Next(s, SettleStep(h)))
  {
    var Settling(id, observed) := s.handlers[h];
    var s' := Next(s, SettleStep(h));
    assert id in s.procs ==> Records(s, s', h, id, SettledCode(s.procs, id, observed), false);
  }

  lemma KillShape(s: System, h: nat, id: string, requested: nat)
    requires Enabled(s, KillStep(h, id, requested))
    ensures HasShape(s, Next(s, KillStep(h, id, requested)))
  {
    var signal := NormalizeSignal(requested);
    var s' := Next(s, KillStep(h, id, requested));
    assert Killable(s.procs, id) && IsTerminating(signal) ==> Records(s, s', h, id, SignaledExitCode(signal), true);
  }

  lemma TerminateShape(s: System, h: nat, stopped: bool)
    requires Enabled(s, TerminateStep(h, stopped))
    ensures HasShape(s, Next(s, TerminateStep(h, stopped)))
  {
    var Terminator(id, signal) := s.handlers[h];
    var s' := Next(s, TerminateStep(h, stopped));
    assert id in s.procs && stopped ==> Records(s, s', h, id, SignaledExitCode(NormalizeSignal(signal)), false);
  }

  lemma StepShape(s: System, step: Step)
    requires Enabled(s, step)
    ensures step.CreateStep? || HasShape(s, Next(s, step))
  {
    var s' := Next(s, step);
    match step {
      case SettleStep(h) => SettleShape(s, h);
      case KillStep(h, id, requested) => KillShape(s, h, id, requested);
      case KillContinueStep(h) =>
        var event := s.handlers[h].event;
        assert event.Some? ==> Publishes(s, s', h, event.value);
      case TerminateStep(h, stopped) => TerminateShape(s, h, stopped);
      case PublishStep(h) => assert Publishes(s, s', h, s.handlers[h].exit);
      case _ =>
    }
  }

  lemma QuietKeepsInv(s: System, s': System)
    requires Inv(s) && Quiet(s, s')
    ensures Inv(s')
  {
    assert forall h, e :: Holds(s', h, e) <==> Holds(s, h, e);
    assert forall e :: Decided(s', e) <==> Decided(s, e);
  }

  lemma RecordingKeepsInv(s: System, s': System, h: nat, id: string, code: nat, terminating: bool)
    requires Inv(s) && Records(s, s', h, id, code, terminating)
    ensures Inv(s')
  {
    assert forall k, e | k != h :: Holds(s', k, e) <==> Holds(s, k, e);
    assert forall e :: !Holds(s, h, e);
    if s.procs[id].exitPublished {
      assert forall e :: !Holds(s', h, e);
      assert forall e :: Decided(s', e) <==> Decided(s, e);
    } else {
      var decided := PendingAt(s', h).value;
      assert Holds(s', h, decided);
      assert forall e :: Holds(s', h, e) <==> e == decided;
      assert forall e :: Decided(s', e) <==> Decided(s, e) || e == decided;
      assert forall k, e | Holds(s, k, e) :: Decided(s, e);
      assert forall i | 0 <= i < |s.published| :: Decided(s, s.published[i]);
    }
  }

  lemma PublicationKeepsInv(s: System, s': System, h: nat, event: ExitEvent)
    requires Inv(s) && Publishes(s, s', h, event)
    ensures Inv(s')
  {
    assert Holds(s, h, event);
    assert forall k, e | k != h :: Holds(s', k, e) <==> Holds(s, k, e);
    assert forall e :: !Holds(s', h, e);
    assert event in s'.published;
    assert forall e :: Decided(s', e) <==> Decided(s, e);
  }

  lemma CreationKeepsInv(s: System, id: string, isSandbox: bool, hasImage: bool)
    requires Inv(s)
    ensures Inv(Next(s, CreateStep(id, isSandbox, hasImage)))
  {
    var s' := Next(s, CreateStep(id, isSandbox, hasImage));
    assert forall h, e :: Holds(s', h, e) <==> Holds(s, h, e);
    assert forall e :: Decided(s', e) <==> Decided(s, e);
  }

  lemma StepKeepsInv(s: System, step: Step)
    requires Inv(s) && Enabled(s, step)
    ensures Inv(Next(s, step))
  {
    var s' := Next(s, step);
    StepShape(s, step);
    if step.CreateStep? {
      CreationKeepsInv(s, step.cid, step.isSandbox, step.hasImage);
    } else if Quiet(s, s') {
      QuietKeepsInv(s, s');
    } else if h, id, code, terminating :| Records(s, s', h, id, code, terminating) {
      RecordingKeepsInv(s, s', h, id, code, terminating);
    } else {
      var h, event :| Publishes(s, s', h, event);
      PublicationKeepsInv(s, s', h, event);
    }
  }

  lemma {:induction false} RunKeepsInv(states: seq<System>, steps: seq<Step>, n: nat)
    requires IsRun(states, steps) && states[0] == INIT && n < |states|
    ensures Inv(states[n])
  {
    if n > 0 {
      RunKeepsInv(states, steps, n - 1);
      StepKeepsInv(states[n - 1], steps[n - 1]);
    }
  }

  /**
   Over every interleaving, an incarnation's exit is published at most once, and
   the event of a task that is still there is decided exactly when its flag is set.
   */
  lemma AtMostOneExitPerTask(states: seq<System>, steps: seq<Step>, n: nat)
    requires IsRun(states, steps) && states[0] == INIT && n < |states|
    ensures forall i, j | 0 <= i < j < |states[n].published| ::
      states[n].published[i].incarnation != states[n].published[j].incarnation
    ensures forall id | id in states[n].procs ::
      states[n].procs[id].exitPublished
      <==> exists e :: Decided(states[n], e) && e.incarnation == states[n].procs[id].incarnation
  {
    RunKeepsInv(states, steps, n);
  }

  /** An incarnation present late in a run was already present, as the same record, all along. */
  lemma {:induction false} FlagSticks(states: seq<System>, steps: seq<Step>, i: nat, j: nat, id: string)
    requires IsRun(states, steps) && states[0] == INIT && i <= j < |states|
    requires id in states[j].procs && states[j].procs[id].incarnation < states[i].nextIncarnation
    ensures id in states[i].procs && states[i].procs[id].incarnation == states[j].procs[id].incarnation
    ensures states[i].procs[id].exitPublished ==> states[j].procs[id].exitPublished
    ensures states[i].nextIncarnation <= states[j].nextIncarnation
    decreases j - i
  {
    if i < j {
      StepShape(states[j - 1], steps[j - 1]);
      NumbersGrow(states, steps, i, j - 1);
      FlagSticks(states, steps, i, j - 1, id);
    }
  }

  lemma {:induction false} NumbersGrow(states: seq<System>, steps: seq<Step>, i: nat, j: nat)
    requires IsRun(states, steps) && i <= j < |states|
    ensures states[i].nextIncarnation <= states[j].nextIncarnation
    decreases j - i
  {
    if i < j {
      StepShape(states[j - 1], steps[j - 1]);
      NumbersGrow(states, steps, i, j - 1);
    }
  }
}
