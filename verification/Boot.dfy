/**
 Booting one box from several processes at once (src/cli/src/boot.rs).

 Actors that boot, stop or remove the box hold its lifecycle lock; the reconcile
 sweep (src/cli/src/state/file.rs) marks dead boxes and drops auto-remove records
 without it, and a VM may die at any time. A VM's number stands for its process
 identity (pid and start time), which is never reused.
 */
module Boot {
  import opened Text

  datatype RestartCountUpdate = Reset | Preserve | Increment

  datatype Record = Record(
    status: string,
    pid: Option<nat>,
    managed: bool,
    autoRemove: bool,
    restartCount: nat)

  /** The fields of `apply_boot_result` that lifecycle decisions read. */
  function ApplyBootResult(record: Record, pid: Option<nat>, update: RestartCountUpdate): Record {
    record.(status := "running", pid := pid, restartCount := match update
      case Reset => 0
      case Preserve => record.restartCount
      case Increment => record.restartCount + 1)
  }

  // ----- The decision under the lock -----

  datatype Selection = Removed | AlreadyRunning | Conflict | Ready

  predicate IsLive(record: Record, live: set<nat>) {
    record.pid.Some? && record.pid.value in live
  }

  /** `select_locked_boot_record`. */
  function SelectLocked(record: Option<Record>, live: set<nat>): Selection {
    match record
    case None => Removed
    case Some(r) =>
      if IsLive(r, live) then AlreadyRunning
      else if r.status !in {"created", "stopped", "dead", "failed", "running"} || r.managed then Conflict
      else Ready
  }

  /** The reconcile sweep on this box's record. */
  function Reconcile(record: Option<Record>, live: set<nat>): Option<Record> {
    match record
    case None => None
    case Some(r) =>
      if r.status !in {"running", "paused"} || IsLive(r, live) then record
      else if r.autoRemove then None
      else Some(r.(status := "dead", pid := None))
  }

  /**
   The sweep acts exactly on a record that claims to run without a live VM; what it leaves of an
   unmanaged one can be booted.
   */
  lemma SweptBoxCanBoot(r: Record, live: set<nat>)
    ensures Reconcile(Some(r), live) == Some(r) <==>
      (r.status != "running" && r.status != "paused") || (r.pid.Some? && r.pid.value in live)
    ensures Reconcile(Some(r), live) != Some(r) ==>
      if r.autoRemove then Reconcile(Some(r), live) == None
      else
        && Reconcile(Some(r), live) == Some(Record("dead", None, r.managed, false, r.restartCount))
        && (SelectLocked(Reconcile(Some(r), live), live) == Ready <==> !r.managed)
  {
    assert "dead"[0] == 'd' && "running"[0] == 'r' && "paused"[0] == 'p';
  }

  // ----- Actors -----

  datatype Actor =
    | WaitingToBoot(update: RestartCountUpdate)
    | Checking(update: RestartCountUpdate)                       // holds the lock
    | Booting(update: RestartCountUpdate)                        // holds the lock, VM starting
    | Booted(update: RestartCountUpdate, vm: nat, reported: Option<nat>)
    | TearingDown(vm: nat, reported: Option<nat>)                // the record vanished during boot
    | WaitingToEnd(remove: bool)                                 // stop or remove
    | Ending(remove: bool)                                       // holds the lock, before the signal
    | Ended(remove: bool)                                        // signalled, record not yet updated
    | Leaving                                                    // about to release the lock
  {
    predicate Holds() {
      !WaitingToBoot? && !WaitingToEnd?
    }
  }

  datatype System = System(
    record: Option<Record>,
    live: set<nat>,
    lock: Option<nat>,
    actors: map<nat, Actor>,
    nextVm: nat)

  datatype Step =
    | RequestBoot(a: nat, u: RestartCountUpdate)
    | RequestEnd(a: nat, r: bool)
    | Acquire(a: nat)
    | Check(a: nat)
    | BootVm(a: nat, boots: bool, knowsPid: bool)
    | Persist(a: nat, writes: bool)
    | TearDown(a: nat)
    | Kill(a: nat, dies: bool)
    | RecordEnd(a: nat)
    | Release(a: nat)
    | Sweep
    | VmDies(vm: nat)

  predicate Enabled(s: System, step: Step) {
    match step
    case RequestBoot(a, _) => a !in s.actors
    case RequestEnd(a, _) => a !in s.actors
    case Acquire(a) => a in s.actors && !s.actors[a].Holds() && s.lock == None
    case Check(a) => a in s.actors && s.actors[a].Checking?
    case BootVm(a, _, _) => a in s.actors && s.actors[a].Booting?
    case Persist(a, _) => a in s.actors && s.actors[a].Booted?
    case TearDown(a) => a in s.actors && s.actors[a].TearingDown?
    case Kill(a, _) => a in s.actors && s.actors[a].Ending?
    case RecordEnd(a) => a in s.actors && s.actors[a].Ended?
    case Release(a) => a in s.actors && s.actors[a].Leaving?
    case Sweep => true
    case VmDies(_) => true
  }

  function Move(s: System, a: nat, actor: Actor): System {
    s.(actors := s.actors[a := actor])
  }

  function Pids(pid: Option<nat>): set<nat> {
    if pid.Some? then {pid.value} else {}
  }

  function RecordedPids(record: Option<Record>): set<nat> {
    if record.Some? then Pids(record.value.pid) else {}
  }

  function AfterCheck(s: System, update: RestartCountUpdate): Actor {
    if SelectLocked(s.record, s.live) == Ready then Booting(update) else Leaving
  }

  function NextPersist(s: System, a: nat, booted: Actor, writes: bool): System
    requires booted.Booted?
  {
    if !writes then Move(s, a, Leaving)
    else if s.record.Some? then
      Move(s, a, Leaving).(record := Some(ApplyBootResult(s.record.value, booted.reported, booted.update)))
    else Move(s, a, TearingDown(booted.vm, booted.reported))
  }

  /** The record after a stop or removal; one that the sweep found dead meanwhile is left alone. */
  function EndedRecord(record: Option<Record>, remove: bool): Option<Record> {
    if remove || record.None? then None
    else if record.value.pid.None? then record
    else Some(record.value.(status := "stopped", pid := None))
  }

  function Next(s: System, step: Step): System
    requires Enabled(s, step)
  {
    match step
    case RequestBoot(a, u) => Move(s, a, WaitingToBoot(u))
    case RequestEnd(a, r) => Move(s, a, WaitingToEnd(r))
    case Acquire(a) =>
      var actor := if s.actors[a].WaitingToBoot? then Checking(s.actors[a].update) else Ending(s.actors[a].remove);
      Move(s, a, actor).(lock := Some(a))
    case Check(a) => Move(s, a, AfterCheck(s, s.actors[a].update))
    case BootVm(a, boots, knowsPid) =>
      if !boots then Move(s, a, Leaving)
      else
        var reported := if knowsPid then Some(s.nextVm) else None;
        Move(s, a, Booted(s.actors[a].update, s.nextVm, reported)).(live := s.live + {s.nextVm}, nextVm := s.nextVm + 1)
    case Persist(a, writes) => NextPersist(s, a, s.actors[a], writes)
    case TearDown(a) => Move(s, a, Leaving).(live := s.live - Pids(s.actors[a].reported))
    case Kill(a, dies) =>
      Move(s, a, Ended(s.actors[a].remove)).(live := if dies then s.live - RecordedPids(s.record) else s.live)
    case RecordEnd(a) => Move(s, a, Leaving).(record := EndedRecord(s.record, s.actors[a].remove))
    case Release(a) => s.(lock := None, actors := s.actors - {a})
    case Sweep => s.(record := Reconcile(s.record, s.live))
    case VmDies(vm) => s.(live := s.live - {vm})
  }

  // ----- One actor's pass -----

  datatype Outcome =
    Restarted(restartCount: nat) | WasRunning | RemovedDuringBoot | Conflicted | BootFailed | WriteFailed

  /** The box's record and VMs, as `boot_and_record` changes them while it holds the lock. */
  class BoxStore {
    var record: Option<Record>
    var live: set<nat>
    var nextVm: nat

    constructor (record: Option<Record>, nextVm: nat)
      ensures this.record == record && live == {} && this.nextVm == nextVm
    {
      this.record := record;
      live := {};
      this.nextVm := nextVm;
    }

    /**
     `boots`: whether the VM starts; `reports`: whether its pid is known; `vanishes`: whether the
     record is dropped meanwhile; `writes`: whether the state file can be written. If the pid is
     known and the file is written, a VM that is alive afterwards is the recorded one.
     */
    method BootAndRecord(update: RestartCountUpdate, boots: bool, reports: bool, vanishes: bool, writes: bool)
      returns (outcome: Outcome)
      modifies this
      ensures reports && writes && old(live) <= RecordedPids(old(record)) ==> live <= RecordedPids(record)
      ensures old(record).None? ==> outcome == RemovedDuringBoot && unchanged(this)
      ensures old(record).Some? ==>
        var r, reported := old(record).value, if reports then Some(old(nextVm)) else None;
        if r.pid.Some? && r.pid.value in old(live) then
          outcome == WasRunning && unchanged(this)
        else if r.managed || r.status !in ["created", "stopped", "dead", "failed", "running"] then
          outcome == Conflicted && unchanged(this)
        else if !boots then
          outcome == BootFailed && unchanged(this)
        else if !writes then
          && outcome == WriteFailed && record == (if vanishes then None else old(record))
          && live == old(live) + {old(nextVm)}
        else if vanishes then
          && outcome == RemovedDuringBoot && record == None
          && live == if reports then old(live) - {old(nextVm)} else old(live) + {old(nextVm)}
        else
          && outcome.Restarted? && live == old(live) + {old(nextVm)}
          && outcome.restartCount ==
               (if update.Reset? then 0 else if update.Preserve? then r.restartCount else r.restartCount + 1)
          && record == Some(Record("running", reported, false, r.autoRemove, outcome.restartCount))
    {
      match SelectLocked(record, live) {
        case Removed => return RemovedDuringBoot;
        case AlreadyRunning => return WasRunning;
        case Conflict => return Conflicted;
        case Ready =>
      }
      if !boots {
        return BootFailed;
      }
      var vm := nextVm;
      var reported := if reports then Some(vm) else None;
      live, nextVm := live + {vm}, nextVm + 1;
      if vanishes {
        record := None;
      }
      if !writes {
        return WriteFailed;
      }
      if record.Some? {
        var rec := record.value;
        rec := rec.(status := "running");
        rec := rec.(pid := reported);
        match update {
          case Reset => rec := rec.(restartCount := 0);
          case Preserve =>
          case Increment => rec := rec.(restartCount := rec.restartCount + 1);
        }
        record := Some(rec);
        outcome := Restarted(rec.restartCount);
      } else {
        if reported.Some? {
          live := live - {reported.value};
        }
        outcome := RemovedDuringBoot;
      }
    }
  }

  // ----- Safety -----

  /**
   What keeps account of a VM that is still alive: its pid is reported and written when it was
   booted, and it is not recorded as ended.
   */
  predicate Reliable(s: System, step: Step)
    requires Enabled(s, step)
  {
    match step
    case Persist(a, writes) => s.live == {} || (writes && (s.record.Some? ==> s.actors[a].reported.Some?))
    case TearDown(a) => s.live == {} || s.actors[a].reported.Some?
    case RecordEnd(_) => s.live == {}
    case _ => true
  }

  /** The VMs that may be alive, judged by where the lock holder stands. */
  function Accounted(s: System): set<nat> {
    if s.lock.Some? && s.lock.value in s.actors then
      match s.actors[s.lock.value]
      case Booting(_) => {}
      case Booted(_, vm, _) => {vm}
      case TearingDown(vm, _) => {vm}
      case _ => RecordedPids(s.record)
    else RecordedPids(s.record)
  }

  predicate ActorFits(s: System, actor: Actor) {
    match actor
    case Booted(_, vm, reported) => vm < s.nextVm && reported in {None, Some(vm)} && vm !in RecordedPids(s.record)
    case TearingDown(vm, reported) => reported in {None, Some(vm)} && s.record == None
    case _ => true
  }

  /** The lock has one holder, and what is known of each VM is right. */
  ghost predicate WellFormed(s: System) {
    && (forall a | a in s.actors :: s.actors[a].Holds() <==> s.lock == Some(a))
    && (s.lock.Some? ==> s.lock.value in s.actors)
    && (forall pid | pid in RecordedPids(s.record) :: pid < s.nextVm)
    && (forall a | a in s.actors :: ActorFits(s, s.actors[a]))
  }

  /** No VM is alive that nobody knows of. */
  ghost predicate Inv(s: System) {
    WellFormed(s) && s.live <= Accounted(s)
  }

  lemma StepKeepsWellFormed(s: System, step: Step)
    requires WellFormed(s) && Enabled(s, step)
    ensures WellFormed(Next(s, step))
  {
  }

  /** Every step keeps account of every live VM exactly when it is reliable. */
  lemma StepKeepsAccountExactly(s: System, step: Step)
    requires Inv(s) && Enabled(s, step)
    ensures Inv(Next(s, step)) <==> Reliable(s, step)
  {
    StepKeepsWellFormed(s, step);
  }

  ghost predicate IsRun(states: seq<System>, steps: seq<Step>) {
    && |states| == |steps| + 1 && Inv(states[0])
    && forall i | 0 <= i < |steps| :: Enabled(states[i], steps[i]) && states[i + 1] == Next(states[i], steps[i])
  }

  /** The run is reliable in its first `n` steps. */
  ghost predicate ReliableUpTo(states: seq<System>, steps: seq<Step>, n: nat)
    requires IsRun(states, steps) && n <= |steps|
  {
    forall i | 0 <= i < n :: Reliable(states[i], steps[i])
  }

  lemma {:induction false} RunKeepsInv(states: seq<System>, steps: seq<Step>, n: nat)
    requires IsRun(states, steps) && n < |states| && ReliableUpTo(states, steps, n)
    ensures Inv(states[n])
  {
    if n > 0 {
      RunKeepsInv(states, steps, n - 1);
      StepKeepsAccountExactly(states[n - 1], steps[n - 1]);
    }
  }

  /** A live VM is the recorded one, or the one the lock holder is booting or tearing down. */
  lemma AccountedIsOne(s: System)
    requires Inv(s)
    ensures |s.live| <= 1
    ensures s.lock == None ==> forall vm | vm in s.live :: s.record.Some? && s.record.value.pid == Some(vm)
  {
    var accounted := Accounted(s);
    assert |accounted| <= 1;
    assert accounted == s.live + (accounted - s.live);
  }

  /**
   With any number of actors, as long as the steps were reliable at most one VM of the box is
   alive, and whenever the lock is free a live VM is the one in the record.
   */
  lemma AtMostOneVm(states: seq<System>, steps: seq<Step>, n: nat)
    requires IsRun(states, steps) && n < |states| && ReliableUpTo(states, steps, n)
    ensures |states[n].live| <= 1
    ensures states[n].lock == None ==>
      forall vm | vm in states[n].live :: states[n].record.Some? && states[n].record.value.pid == Some(vm)
  {
    RunKeepsInv(states, steps, n);
    AccountedIsOne(states[n]);
  }

  /** Two live VMs are the work of an unreliable step. */
  lemma {:induction false} TwoVmsHaveACause(states: seq<System>, steps: seq<Step>, n: nat) returns (i: nat)
    requires IsRun(states, steps) && n < |states| && |states[n].live| > 1
    ensures i < n && !Reliable(states[i], steps[i]) && Inv(states[i]) && !Inv(states[i + 1])
  {
    i := 0;
    while i < n && Reliable(states[i], steps[i])
      invariant i <= n && Inv(states[i])
    {
      StepKeepsAccountExactly(states[i], steps[i]);
      i := i + 1;
    }
    if i == n {
      AccountedIsOne(states[n]);
    } else {
      StepKeepsAccountExactly(states[i], steps[i]);
    }
  }

  // ----- What an unreliable step leads to -----

  /** The sequence by which one actor boots the box. */
  function BootOnce(s: System, a: nat, knowsPid: bool, writes: bool): System
    requires a !in s.actors && s.lock == None && s.record.Some? && SelectLocked(s.record, s.live) == Ready
  {
    var s1 := Next(s, RequestBoot(a, Reset));
    var s2 := Next(s1, Acquire(a));
    var s3 := Next(s2, Check(a));
    var s4 := Next(s3, BootVm(a, true, knowsPid));
    var s5 := Next(s4, Persist(a, writes));
    Next(s5, Release(a))
  }

  /** VMs are numbered as they are booted. */
  predicate Numbered(s: System) {
    && (forall vm | vm in s.live :: vm < s.nextVm)
    && (forall pid | pid in RecordedPids(s.record) :: pid < s.nextVm)
  }

  /** Between two actors: the record looks ready to boot although this VM is alive. */
  predicate Forgotten(s: System, vm: nat) {
    Numbered(s) && s.lock == None && s.record.Some? && SelectLocked(s.record, s.live) == Ready && vm in s.live
  }

  /** The next boot beside a forgotten VM makes it two. */
  lemma ForgottenVmIsDuplicated(s: System, a: nat, vm: nat)
    requires Forgotten(s, vm) && a !in s.actors
    ensures {vm, s.nextVm} <= BootOnce(s, a, true, true).live && vm != s.nextVm
  {
  }

  /** A boot whose pid is not reported, or whose result is not written, leaves its VM forgotten. */
  lemma UnreliableBootForgets(s: System, a: nat, knowsPid: bool, writes: bool)
    requires Numbered(s) && a !in s.actors && s.lock == None && s.record.Some?
    requires SelectLocked(s.record, s.live) == Ready && (!knowsPid || !writes)
    ensures Forgotten(BootOnce(s, a, knowsPid, writes), s.nextVm)
  {
    var s' := BootOnce(s, a, knowsPid, writes);
    assert s'.live == s.live + {s.nextVm} && s'.nextVm == s.nextVm + 1;
    if writes {
      assert s'.record == Some(ApplyBootResult(s.record.value, None, Reset));
    } else {
      var pid := s.record.value.pid;
      assert pid.Some? ==> pid.value in RecordedPids(s.record);
      assert s'.record == s.record && !IsLive(s.record.value, s'.live);
    }
  }

  /** The sequence by which one actor signals the box, does not wait for its VM, and records the stop. */
  function KillOnce(s: System, a: nat): System
    requires a !in s.actors && s.lock == None
  {
    var s1 := Next(s, RequestEnd(a, false));
    var s2 := Next(s1, Acquire(a));
    var s3 := Next(s2, Kill(a, false));
    var s4 := Next(s3, RecordEnd(a));
    Next(s4, Release(a))
  }

  /** A VM that survives the signal is forgotten. */
  lemma KillWithoutWaitingForgets(s: System, a: nat, vm: nat)
    requires Numbered(s) && a !in s.actors && s.lock == None && vm in s.live
    requires s.record.Some? && s.record.value.pid == Some(vm) && !s.record.value.managed
    ensures Forgotten(KillOnce(s, a), vm)
  {
  }
}
