/**
 Exit events as a subscriber sees them (containerd-shim/src/service.rs): the event on the
 wire carries the task's id, not which Create it belongs to. A window is a stretch of a
 run in which the record of an id is neither created again nor deleted.
 */
module ShimWindow {
  import opened Text
  import opened ShimTask
  import opened ShimProtocol

  predicate Replaces(step: Step, id: string) {
    (step.CreateStep? || step.DeleteStep?) && step.cid == id
  }

  /** A run from `s` in which the record of `id` is neither created again nor deleted. */
  ghost predicate IsWindow(s: System, states: seq<System>, steps: seq<Step>, id: string) {
    && IsRun(states, steps) && states[0] == s
    && forall i | 0 <= i < |steps| :: !Replaces(steps[i], id)
  }

  /** Some handler holds an event of that id, decided and not yet published. */
  ghost predicate Leftover(s: System, id: string) {
    exists h, e :: Holds(s, h, e) && e.id == id
  }

  /** Event number `k` was published in the window that began in `s`, and carries the id. */
  predicate PublishedSince(s: System, t: System, k: nat, id: string) {
    |s.published| <= k < |t.published| && t.published[k].id == id
  }

  // ----- Where the events of a window come from -----

  /** The event is the present record's own, or was on its way when the window began. */
  ghost predicate Explained(s: System, e: ExitEvent, id: string)
    requires id in s.procs
  {
    e.incarnation == s.procs[id].incarnation || exists h :: Holds(s, h, e)
  }

  ghost predicate WindowInv(s: System, t: System, id: string) {
    && id in s.procs && id in t.procs && t.procs[id].incarnation == s.procs[id].incarnation
    && s.published <= t.published
    && (forall k: nat | PublishedSince(s, t, k, id) :: Explained(s, t.published[k], id))
    && (forall h, e | Holds(t, h, e) && e.id == id :: Explained(s, e, id))
  }

  lemma RecordStays(t: System, step: Step, id: string)
    requires Enabled(t, step) && !Replaces(step, id) && id in t.procs
    ensures id in Next(t, step).procs && Next(t, step).procs[id].incarnation == t.procs[id].incarnation
  {
  }

  lemma StepKeepsWindow(s: System, t: System, step: Step, id: string)
    requires WindowInv(s, t, id) && Enabled(t, step) && !Replaces(step, id)
    ensures WindowInv(s, Next(t, step), id)
  {
    var t' := Next(t, step);
    RecordStays(t, step, id);
    StepShape(t, step);
    if h, event :| Publishes(t, t', h, event) {
      assert Holds(t, h, event);
      assert forall k: nat | PublishedSince(s, t', k, id) :: k == |t.published| || PublishedSince(s, t, k, id);
    } else {
      assert t'.published == t.published;
      assert forall k: nat | PublishedSince(s, t', k, id) :: PublishedSince(s, t, k, id);
    }
    forall h, e | Holds(t', h, e) && e.id == id
      ensures Explained(s, e, id)
    {
      if !Holds(t, h, e) {
        assert PendingAt(t', h) != PendingAt(t, h);
      }
    }
  }

  lemma {:induction false} WindowKeepsInv(s: System, states: seq<System>, steps: seq<Step>, id: string, n: nat)
    requires IsWindow(s, states, steps, id) && id in s.procs && n < |states|
    ensures WindowInv(s, states[n], id)
  {
    if n > 0 {
      WindowKeepsInv(s, states, steps, id, n - 1);
      StepKeepsWindow(s, states[n - 1], steps[n - 1], id);
    } else {
      assert forall h, e | Holds(s, h, e) && e.id == id :: Explained(s, e, id);
    }
  }

  lemma {:induction false} WindowKeepsProtocol(s: System, states: seq<System>, steps: seq<Step>, id: string, n: nat)
    requires IsWindow(s, states, steps, id) && Inv(s) && n < |states|
    ensures Inv(states[n])
  {
    if n > 0 {
      WindowKeepsProtocol(s, states, steps, id, n - 1);
      StepKeepsInv(states[n - 1], steps[n - 1]);
    }
  }

  // ----- At most one, exactly when nothing was on its way -----

  ghost predicate AtMostOne(s: System, t: System, id: string) {
    forall i: nat, j: nat | PublishedSince(s, t, i, id) && PublishedSince(s, t, j, id) :: i == j
  }

  /**
   Every event of the id that is published in a window is the present record's own or was on
   its way when the window began, and no two belong to the same Create. With nothing on its
   way there is at most one.
   */
  lemma WindowEvents(s: System, states: seq<System>, steps: seq<Step>, id: string, n: nat)
    requires IsWindow(s, states, steps, id) && Inv(s) && id in s.procs && n < |states|
    ensures forall k: nat | PublishedSince(s, states[n], k, id) :: Explained(s, states[n].published[k], id)
    ensures forall i: nat, j: nat |
      i != j && PublishedSince(s, states[n], i, id) && PublishedSince(s, states[n], j, id) ::
      states[n].published[i].incarnation != states[n].published[j].incarnation
    ensures !Leftover(s, id) ==> AtMostOne(s, states[n], id)
  {
    WindowKeepsInv(s, states, steps, id, n);
    WindowKeepsProtocol(s, states, steps, id, n);
  }

  predicate JustCreated(s: System, id: string) {
    id in s.procs && exists isSandbox, hasImage :: s.procs[id] == NewProc(s.procs[id].incarnation, isSandbox, hasImage)
  }

  function PublishStepOf(s: System, h: nat): Step
    requires PendingAt(s, h).Some?
  {
    if s.handlers[h].Publishing? then PublishStep(h) else KillContinueStep(h)
  }

  lemma PublishingPublishes(s: System, h: nat, e: ExitEvent)
    requires Holds(s, h, e)
    ensures Enabled(s, PublishStepOf(s, h))
    ensures Next(s, PublishStepOf(s, h)).published == s.published + [e]
    ensures Next(s, PublishStepOf(s, h)).procs == s.procs
  {
  }

  lemma {:induction false} UnusedHandler(used: set<nat>) returns (h: nat)
    ensures forall k | k in used :: k < h
  {
    if used == {} {
      h := 0;
    } else {
      var k :| k in used;
      var m := UnusedHandler(used - {k});
      assert forall x | x in used :: x == k || x in used - {k};
      h := if k < m then m else k + 1;
    }
  }

  /** A Kill of a task just created decides an event of that id. */
  lemma KillDecides(s: System, h: nat, id: string)
    requires h !in s.handlers && JustCreated(s, id)
    ensures var s' := Next(s, KillStep(h, id, SIGTERM));
      s'.published == s.published && PendingAt(s', h).Some? && PendingAt(s', h).value.id == id
  {
  }

  /** With an event on its way, publishing it and killing the new task makes two. */
  lemma LeftoverMakesTwo(s: System, id: string) returns (states: seq<System>, steps: seq<Step>)
    requires JustCreated(s, id) && Leftover(s, id)
    ensures IsWindow(s, states, steps, id) && !AtMostOne(s, states[|steps|], id)
  {
    var h, e :| Holds(s, h, e) && e.id == id;
    PublishingPublishes(s, h, e);
    var s1 := Next(s, PublishStepOf(s, h));
    var k := UnusedHandler(s1.handlers.Keys);
    KillDecides(s1, k, id);
    var s2 := Next(s1, KillStep(k, id, SIGTERM));
    var f := PendingAt(s2, k).value;
    assert Holds(s2, k, f);
    PublishingPublishes(s2, k, f);
    var s3 := Next(s2, PublishStepOf(s2, k));
    states := [s, s1, s2, s3];
    steps := [PublishStepOf(s, h), KillStep(k, id, SIGTERM), PublishStepOf(s2, k)];
    assert PublishedSince(s, s3, |s.published|, id) && PublishedSince(s, s3, |s.published| + 1, id);
  }

  /** After a Create, at most one exit of the id is ever published exactly when none was on its way. */
  lemma OneExitExactly(s: System, id: string)
    requires Inv(s) && JustCreated(s, id)
    ensures !Leftover(s, id) <==>
      forall states, steps | IsWindow(s, states, steps, id) :: AtMostOne(s, states[|steps|], id)
  {
    if Leftover(s, id) {
      var states, steps := LeftoverMakesTwo(s, id);
    } else {
      forall states, steps | IsWindow(s, states, steps, id)
        ensures AtMostOne(s, states[|steps|], id)
      {
        WindowEvents(s, states, steps, id, |steps|);
      }
    }
  }

  /** The same over a run of the shim, from one Create of the id to the next Create or Delete of it. */
  lemma OneExitPerCreate(states: seq<System>, steps: seq<Step>, c: nat, id: string)
    requires IsRun(states, steps) && states[0] == INIT && c < |steps|
    requires steps[c].CreateStep? && steps[c].cid == id
    requires forall i | c < i < |steps| :: !Replaces(steps[i], id)
    ensures Inv(states[c + 1]) && JustCreated(states[c + 1], id)
    ensures forall k: nat | PublishedSince(states[c + 1], states[|steps|], k, id) ::
      Explained(states[c + 1], states[|steps|].published[k], id)
    ensures !Leftover(states[c + 1], id) ==> AtMostOne(states[c + 1], states[|steps|], id)
  {
    RunKeepsInv(states, steps, c + 1);
    CreateCreates(states[c], steps[c]);
    RestIsWindow(states, steps, c + 1, id);
    WindowEvents(states[c + 1], states[c + 1..], steps[c + 1..], id, |steps| - c - 1);
  }

  lemma CreateCreates(s: System, step: Step)
    requires step.CreateStep?
    ensures JustCreated(Next(s, step), step.cid)
  {
  }

  lemma RestIsWindow(states: seq<System>, steps: seq<Step>, c: nat, id: string)
    requires IsRun(states, steps) && c <= |steps|
    requires forall i | c <= i < |steps| :: !Replaces(steps[i], id)
    ensures IsWindow(states[c], states[c..], steps[c..], id)
  {
    forall i | 0 <= i < |steps| - c
      ensures Enabled(states[c..][i], steps[c..][i]) && states[c..][i + 1] == Next(states[c..][i], steps[c..][i])
    {
      assert states[c..][i] == states[c + i] && states[c..][i + 1] == states[c + i + 1];
      assert steps[c..][i] == steps[c + i];
    }
  }

  /** A task killed and created again before its exit was published leaves an event on its way. */
  lemma RecreatedAfterKill(s: System, h: nat, id: string, requested: nat, isSandbox: bool, hasImage: bool)
    requires h !in s.handlers && Killable(s.procs, id) && !s.procs[id].exitPublished
    requires IsTerminating(NormalizeSignal(requested))
    ensures var s' := Next(Next(s, KillStep(h, id, requested)), CreateStep(id, isSandbox, hasImage));
      JustCreated(s', id) && Leftover(s', id)
  {
    var s' := Next(Next(s, KillStep(h, id, requested)), CreateStep(id, isSandbox, hasImage));
    assert PendingAt(s', h).Some? && Holds(s', h, PendingAt(s', h).value);
  }

  /** A running sandbox "a". */
  function StartedSandbox(): System {
    Next(Next(INIT, CreateStep("a", true, false)), StartStep(0, "a", Some(7)))
  }

  /** So a subscriber can see two exits of one id after its last Create. */
  lemma ReusedIdExitsTwice()
    ensures var s := Next(Next(StartedSandbox(), KillStep(0, "a", SIGTERM)), CreateStep("a", true, false));
      exists states, steps :: IsWindow(s, states, steps, "a") && !AtMostOne(s, states[|steps|], "a")
  {
    RecreatedAfterKill(StartedSandbox(), 0, "a", SIGTERM, true, false);
    var s := Next(Next(StartedSandbox(), KillStep(0, "a", SIGTERM)), CreateStep("a", true, false));
    var states, steps := LeftoverMakesTwo(s, "a");
  }
}
