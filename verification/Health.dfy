/**
 The health record of a box (src/cli/src/health.rs): probe results, boots, and the commands
 that pause and end a box.
 */
module Health {
  import opened Text

  const MAX_U32 := 0xFFFF_FFFF

  type U32 = x: int | 0 <= x <= MAX_U32

  datatype HealthStatus = NoCheck | Starting | Healthy | Unhealthy

  /** The lifecycle as far as health is concerned; `Ended` is every state without a VM. */
  datatype Lifecycle = Running | Paused | Ended

  /** The health part of a box record; `threshold` is the configured number of retries. */
  datatype Record = Record(lifecycle: Lifecycle, startedAt: Option<int>, threshold: Option<U32>, status: HealthStatus,
    retries: U32, lastCheck: Option<int>)

  const FRESH := Record(Ended, None, None, NoCheck, 0, None)

  /** A health worker, started for the box as it ran from `generation` on. */
  datatype Worker = Worker(generation: int, fenced: bool)

  datatype Event =
    | Boot(at: int, configured: Option<U32>)
    | End                              // stop, kill, or found dead
    | Pause
    | Unpause
    | Report(worker: Worker, healthy: bool, checkedAt: int)

  // ----- The transitions -----

  function ApplyBoot(at: int, configured: Option<U32>): Record {
    Record(Running, Some(at), configured, if configured.Some? then Starting else NoCheck, 0, None)
  }

  /** `apply_probe_result`. */
  function ApplyProbe(r: Record, healthy: bool, checkedAt: int): Record {
    if r.lifecycle != Running then r
    else if healthy then r.(status := Healthy, retries := 0, lastCheck := Some(checkedAt))
    else
      var retries: U32 := if r.retries == MAX_U32 then MAX_U32 else r.retries + 1;
      var status := if r.threshold.Some? && retries >= r.threshold.value then Unhealthy else r.status;
      r.(status := status, retries := retries, lastCheck := Some(checkedAt))
  }

  /** Whether a report is committed: the box runs, and a fenced worker still owns it. */
  predicate Commits(r: Record, worker: Worker) {
    r.lifecycle == Running && (worker.fenced ==> r.startedAt == Some(worker.generation))
  }

  function Next(r: Record, event: Event): Record {
    match event
    case Boot(at, configured) => ApplyBoot(at, configured)
    case End => r.(lifecycle := Ended, status := NoCheck, retries := 0)
    case Pause => if r.lifecycle == Running then r.(lifecycle := Paused) else r
    case Unpause => if r.lifecycle == Paused then r.(lifecycle := Running) else r
    case Report(worker, healthy, checkedAt) => if Commits(r, worker) then ApplyProbe(r, healthy, checkedAt) else r
  }

  function After(events: seq<Event>): Record {
    if events == [] then FRESH else Next(After(events[..|events| - 1]), events[|events| - 1])
  }

  // ----- What the record means -----

  /** The results committed since the last boot. */
  function Probes(events: seq<Event>): seq<bool> {
    if events == [] then []
    else
      var before := events[..|events| - 1];
      match events[|events| - 1]
      case Boot(_, _) => []
      case Report(worker, healthy, _) =>
        if Commits(After(before), worker) then Probes(before) + [healthy] else Probes(before)
      case _ => Probes(before)
  }

  /** The number of failures since the last success. */
  function FailureStreak(probes: seq<bool>): nat {
    if probes == [] || probes[|probes| - 1] then 0 else 1 + FailureStreak(probes[..|probes| - 1])
  }

  function Saturated(n: nat): U32 {
    if n < MAX_U32 then n else MAX_U32
  }

  function HealthOf(probes: seq<bool>, threshold: Option<U32>): HealthStatus {
    if threshold.Some? && FailureStreak(probes) >= 1 && FailureStreak(probes) >= threshold.value then Unhealthy
    else if true in probes then Healthy
    else if threshold.Some? then Starting
    else NoCheck
  }

  lemma ResultCounts(probes: seq<bool>, healthy: bool)
    ensures FailureStreak(probes + [healthy]) == if healthy then 0 else 1 + FailureStreak(probes)
    ensures true in probes + [healthy] <==> true in probes || healthy
  {
    assert (probes + [healthy])[..|probes|] == probes;
  }

  /**
   After any run the record is the verdict on the results since the last boot, whatever came
   before it; a pause keeps the verdict and the end of the box clears it.
   */
  lemma {:induction false} RecordFollowsProbes(events: seq<Event>)
    ensures var r, probes := After(events), Probes(events);
      && r.status == (if r.lifecycle == Ended then NoCheck else HealthOf(probes, r.threshold))
      && r.retries == (if r.lifecycle == Ended then 0 else Saturated(FailureStreak(probes)))
      && (r.lastCheck == None <==> probes == [])
  {
    if events != [] {
      var before, last := events[..|events| - 1], events[|events| - 1];
      RecordFollowsProbes(before);
      if last.Report? && Commits(After(before), last.worker) {
        ResultCounts(Probes(before), last.healthy);
      }
    }
  }

  /** A box is unhealthy exactly while it has not ended and its failures reach the configured number. */
  lemma UnhealthyExactlyAtThreshold(events: seq<Event>)
    requires After(events).threshold.Some?
    ensures var threshold := After(events).threshold.value;
      After(events).status == Unhealthy <==>
        && After(events).lifecycle != Ended
        && FailureStreak(Probes(events)) >= if threshold == 0 then 1 else threshold
  {
    RecordFollowsProbes(events);
  }

  lemma {:induction false} StreakExactly(probes: seq<bool>)
    ensures var n := FailureStreak(probes);
      && n <= |probes| && (forall i | |probes| - n <= i < |probes| :: !probes[i])
      && (n < |probes| ==> probes[|probes| - n - 1])
  {
    if probes != [] && !probes[|probes| - 1] {
      StreakExactly(probes[..|probes| - 1]);
    }
  }

  predicate LastFailed(probes: seq<bool>, n: nat) {
    n <= |probes| && forall i | |probes| - n <= i < |probes| :: !probes[i]
  }

  /** A check is configured, and the last results failed: one at least, and the configured number. */
  ghost predicate Failing(probes: seq<bool>, threshold: Option<U32>) {
    threshold.Some? && exists n: nat :: n >= 1 && n >= threshold.value && LastFailed(probes, n)
  }

  lemma FailingExactly(probes: seq<bool>, threshold: Option<U32>)
    ensures Failing(probes, threshold) <==>
      threshold.Some? && FailureStreak(probes) >= 1 && FailureStreak(probes) >= threshold.value
  {
    StreakExactly(probes);
    assert LastFailed(probes, FailureStreak(probes));
    forall n: nat | LastFailed(probes, n)
      ensures n <= FailureStreak(probes)
    {
    }
  }

  /** What each status means, after any run. */
  lemma StatusExactly(events: seq<Event>)
    ensures var r, probes := After(events), Probes(events);
      && (r.status == Unhealthy <==> r.lifecycle != Ended && Failing(probes, r.threshold))
      && (r.status == Healthy <==> r.lifecycle != Ended && true in probes && !Failing(probes, r.threshold))
      && (r.status == Starting ==> r.lifecycle != Ended && r.threshold.Some?)
      && (r.status == NoCheck ==> r.lifecycle == Ended || r.threshold.None?)
  {
    RecordFollowsProbes(events);
    FailingExactly(Probes(events), After(events).threshold);
  }

  // ----- The lifecycle -----

  predicate UpSince(events: seq<Event>, b: nat) {
    b < |events| && events[b].Boot? && forall k | b < k < |events| :: !events[k].End?
  }

  predicate HeldSince(events: seq<Event>, p: nat) {
    p < |events| && events[p].Pause? && forall k | p < k < |events| :: !events[k].Unpause? && !events[k].Boot?
  }

  /** Some boot was not followed by the end of the box. */
  ghost predicate IsUp(events: seq<Event>) {
    exists b: nat :: UpSince(events, b)
  }

  /** Some pause was followed neither by its undoing nor by a boot. */
  ghost predicate IsHeld(events: seq<Event>) {
    exists p: nat :: HeldSince(events, p)
  }

  lemma IsUpNext(before: seq<Event>, last: Event)
    ensures IsUp(before + [last]) <==> last.Boot? || (!last.End? && IsUp(before))
  {
    var events := before + [last];
    assert events[|before|] == last && forall k | 0 <= k < |before| :: events[k] == before[k];
    forall b: nat | b < |before|
      ensures UpSince(events, b) <==> UpSince(before, b) && !last.End?
    {
      assert events[b] == before[b];
    }
    assert UpSince(events, |before|) <==> last.Boot?;
  }

  lemma IsHeldNext(before: seq<Event>, last: Event)
    ensures IsHeld(before + [last]) <==> last.Pause? || (!last.Unpause? && !last.Boot? && IsHeld(before))
  {
    var events := before + [last];
    assert events[|before|] == last && forall k | 0 <= k < |before| :: events[k] == before[k];
    forall p: nat | p < |before|
      ensures HeldSince(events, p) <==> HeldSince(before, p) && !last.Unpause? && !last.Boot?
    {
      assert events[p] == before[p];
    }
    assert HeldSince(events, |before|) <==> last.Pause?;
  }

  /** The commands alone decide the lifecycle, whatever the probes report. */
  lemma {:induction false} LifecycleFollowsCommands(events: seq<Event>)
    ensures After(events).lifecycle == if !IsUp(events) then Ended else if IsHeld(events) then Paused else Running
  {
    if events != [] {
      var before, last := events[..|events| - 1], events[|events| - 1];
      assert events == before + [last];
      LifecycleFollowsCommands(before);
      IsUpNext(before, last);
      IsHeldNext(before, last);
    }
  }

  /** The record carries the time and the threshold of the last boot. */
  lemma {:induction false} LastBootIsRecorded(events: seq<Event>, b: nat)
    requires b < |events| && events[b].Boot? && forall k | b < k < |events| :: !events[k].Boot?
    ensures After(events).startedAt == Some(events[b].at) && After(events).threshold == events[b].configured
  {
    if b + 1 < |events| {
      LastBootIsRecorded(events[..|events| - 1], b);
    }
  }

  // ----- Generations -----

  /** A worker left over from an earlier boot leaves the record alone exactly when it is fenced. */
  lemma StaleReportIgnoredExactly(r: Record, worker: Worker, healthy: bool, checkedAt: int)
    requires r.lifecycle == Running && r.startedAt != Some(worker.generation) && r.lastCheck != Some(checkedAt)
    ensures Next(r, Report(worker, healthy, checkedAt)) == r <==> worker.fenced
  {
  }

  predicate AllFenced(events: seq<Event>) {
    forall i | 0 <= i < |events| && events[i].Report? :: events[i].worker.fenced
  }

  /** The results workers of one boot commit, in order. */
  function OwnProbes(events: seq<Event>, generation: int): seq<bool> {
    if events == [] then []
    else
      var before := events[..|events| - 1];
      match events[|events| - 1]
      case Report(worker, healthy, _) =>
        if worker.generation == generation && Commits(After(before), Worker(generation, true))
        then OwnProbes(before, generation) + [healthy] else OwnProbes(before, generation)
      case _ => OwnProbes(before, generation)
  }

  /** Boots are at different times. */
  predicate DistinctBoots(events: seq<Event>) {
    forall i, j | 0 <= i < j < |events| && events[i].Boot? && events[j].Boot? :: events[i].at != events[j].at
  }

  lemma {:induction false} NoProbesBeforeBoot(events: seq<Event>, generation: int)
    requires forall i | 0 <= i < |events| && events[i].Boot? :: events[i].at != generation
    ensures OwnProbes(events, generation) == [] && After(events).startedAt != Some(generation)
  {
    if events != [] {
      NoProbesBeforeBoot(events[..|events| - 1], generation);
    }
  }

  /** With fenced workers the verdict on a boot is its own workers' alone. */
  lemma {:induction false} VerdictIsOwn(events: seq<Event>)
    requires AllFenced(events) && DistinctBoots(events) && After(events).startedAt.Some?
    ensures Probes(events) == OwnProbes(events, After(events).startedAt.value)
  {
    var before, last := events[..|events| - 1], events[|events| - 1];
    if last.Boot? {
      NoProbesBeforeBoot(before, last.at);
    } else {
      VerdictIsOwn(before);
    }
  }

  /** A foreground worker, which is not fenced, can fail the box after a restart it never probed. */
  lemma UnfencedWorkerReportsAcrossRestart()
    ensures After([Boot(1, Some(1)), End, Boot(2, Some(1)), Report(Worker(1, false), false, 3)]).status == Unhealthy
  {
    var events := [Boot(1, Some(1)), End, Boot(2, Some(1)), Report(Worker(1, false), false, 3)];
    assert events[..3] == [Boot(1, Some(1)), End, Boot(2, Some(1))];
    assert After(events[..3]) == ApplyBoot(2, Some(1));
  }

  // ----- The record -----

  class BoxRecord {
    var lifecycle: Lifecycle
    var startedAt: Option<int>
    var threshold: Option<U32>
    var status: HealthStatus
    var retries: U32
    var lastCheck: Option<int>

    ghost function View(): Record
      reads this
    {
      Record(lifecycle, startedAt, threshold, status, retries, lastCheck)
    }

    constructor ()
      ensures View() == FRESH
    {
      lifecycle, startedAt, threshold, status, retries, lastCheck := Ended, None, None, NoCheck, 0, None;
    }

    /** The health part of `apply_boot_result`. */
    method ApplyBootResult(at: int, configured: Option<U32>)
      modifies this
      ensures View() == Next(old(View()), Boot(at, configured))
      ensures lifecycle == Running && startedAt == Some(at) && threshold == configured
      ensures status == (if configured.Some? then Starting else NoCheck) && retries == 0 && lastCheck == None
      ensures forall worker: Worker | worker.fenced :: Commits(View(), worker) <==> worker.generation == at
    {
      lifecycle := Running;
      threshold := configured;
      status := if threshold.Some? then Starting else NoCheck;
      retries := 0;
      lastCheck := None;
      startedAt := Some(at);
    }

    method ApplyProbeResult(healthy: bool, checkedAt: int)
      modifies this
      ensures View() == ApplyProbe(old(View()), healthy, checkedAt)
      ensures lifecycle == old(lifecycle) && startedAt == old(startedAt) && threshold == old(threshold)
      ensures lifecycle != Running ==> unchanged(this)
      ensures lifecycle == Running && healthy ==> status == Healthy && retries == 0
      ensures lifecycle == Running && !healthy ==>
        && retries == (if old(retries) < 0xFFFF_FFFF then old(retries) + 1 else 0xFFFF_FFFF)
        && status == if threshold.Some? && retries >= threshold.value then Unhealthy else old(status)
      ensures lifecycle == Running ==> lastCheck == Some(checkedAt)
    {
      if lifecycle != Running {
        return;
      }
      if healthy {
        status := Healthy;
        retries := 0;
      } else {
        retries := if retries == MAX_U32 then MAX_U32 else retries + 1;
        if threshold.Some? {
          if retries >= threshold.value {
            status := Unhealthy;
          }
        }
      }
      lastCheck := Some(checkedAt);
    }

    /** The locked section of the worker's loop; the worker stops when it no longer owns the box. */
    method CommitProbe(worker: Worker, healthy: bool, checkedAt: int) returns (keepGoing: bool)
      modifies this
      ensures View() == Next(old(View()), Report(worker, healthy, checkedAt))
      ensures keepGoing <==> old(lifecycle) == Running && (!worker.fenced || old(startedAt) == Some(worker.generation))
      ensures keepGoing ==> lastCheck == Some(checkedAt)
      ensures !keepGoing ==> unchanged(this)
    {
      if lifecycle != Running {
        return false;
      }
      if worker.fenced && startedAt != Some(worker.generation) {
        return false;
      }
      ApplyProbeResult(healthy, checkedAt);
      return true;
    }

    /** What can happen to the record, one event at a time. */
    method Handle(event: Event)
      modifies this
      ensures View() == Next(old(View()), event)
      ensures event.End? ==> lifecycle == Ended && status == NoCheck && retries == 0 && lastCheck == old(lastCheck)
      ensures event.Pause? || event.Unpause? ==>
        status == old(status) && retries == old(retries) && lastCheck == old(lastCheck)
      ensures event.End? || event.Pause? || event.Unpause? ==>
        startedAt == old(startedAt) && threshold == old(threshold)
    {
      match event {
        case Boot(at, configured) => ApplyBootResult(at, configured);
        case End =>
          lifecycle := Ended;
          status := NoCheck;
          retries := 0;
        case Pause =>
          if lifecycle == Running {
            lifecycle := Paused;
          }
        case Unpause =>
          if lifecycle == Paused {
            lifecycle := Running;
          }
        case Report(worker, healthy, checkedAt) =>
          var _ := CommitProbe(worker, healthy, checkedAt);
      }
    }

    /** A record that lived through these events holds the verdict on the results since the last boot, until its end. */
    method Replay(events: seq<Event>)
      requires View() == FRESH
      modifies this
      ensures View() == After(events)
      ensures status == if lifecycle == Ended then NoCheck else HealthOf(Probes(events), threshold)
    {
      assert events[..0] == [];
      for i := 0 to |events|
        invariant View() == After(events[..i])
      {
        assert events[..i + 1][..i] == events[..i];
        Handle(events[i]);
      }
      assert events[..|events|] == events;
      RecordFollowsProbes(events);
    }
  }
}
