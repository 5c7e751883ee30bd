/**
 Staging of the terminal rootfs manifest before each boot (src/core/src/rootfs_metadata.rs).

 A manifest is known by the guest generation that wrote it. Renames and removals
 are atomic and durable; the host may crash between any two of them. A guest puts
 only manifests of its own generation at the temporary and canonical paths, and none of
 a later generation at the retired one.
 */
module RootfsStaging {
  import opened Text

  datatype Entry = Absent | Manifest(generation: nat) | Link | Directory

  /** The three paths of the protocol. */
  datatype Rootfs = Rootfs(temporary: Entry, terminal: Entry, previous: Entry)

  datatype Outcome = Moved | NothingToMove | Failed

  // ----- The host's atomic steps -----

  /** `remove_path_no_follow`; a directory cannot be unlinked. */
  predicate Removable(entry: Entry) {
    !entry.Directory?
  }

  function WithoutTemporary(fs: Rootfs): Rootfs {
    fs.(temporary := Absent)
  }

  function WithoutPrevious(fs: Rootfs): Rootfs {
    fs.(previous := Absent)
  }

  function Renamed(fs: Rootfs): Rootfs {
    fs.(terminal := Absent, previous := fs.terminal)
  }

  /** The paths after a completed staging, and what it reports. */
  function Stage(fs: Rootfs): (Rootfs, Outcome) {
    if !Removable(fs.temporary) then (fs, Failed)
    else
      var cleaned := WithoutTemporary(fs);
      if fs.terminal.Absent? then (cleaned, NothingToMove)
      else if !fs.terminal.Manifest? || fs.previous.Directory? then (cleaned, Failed)
      else (Renamed(WithoutPrevious(cleaned)), Moved)
  }

  /** Where a crash may leave the paths: before, between and after the steps. */
  predicate IsCrashPoint(fs: Rootfs, crashed: Rootfs) {
    || crashed == fs
    || crashed == Stage(fs).0
    || (Removable(fs.temporary) && crashed == WithoutTemporary(fs))
    || (Stage(fs).1 == Moved && crashed == WithoutPrevious(WithoutTemporary(fs)))
  }

  /** The manifest that the next boot replays: the canonical one, which staging retires, or else the retired one. */
  function Effective(fs: Rootfs): Option<nat> {
    if fs.terminal.Manifest? then Some(fs.terminal.generation)
    else if fs.previous.Manifest? then Some(fs.previous.generation)
    else None
  }

  /** The highest generation of the two. */
  function Newest(fs: Rootfs): (newest: Option<nat>)
    ensures newest.Some? <==> fs.terminal.Manifest? || fs.previous.Manifest?
    ensures forall g: nat :: Manifest(g) in {fs.terminal, fs.previous} ==> newest.Some? && g <= newest.value
    ensures newest.Some? ==> Manifest(newest.value) in {fs.terminal, fs.previous}
  {
    if fs.terminal.Manifest? && fs.previous.Manifest? && fs.previous.generation > fs.terminal.generation
    then Some(fs.previous.generation)
    else Effective(fs)
  }

  /** The retired manifest is not newer than the canonical one. */
  predicate InOrder(fs: Rootfs) {
    fs.terminal.Manifest? && fs.previous.Manifest? ==> fs.previous.generation <= fs.terminal.generation
  }

  /** No crash during staging changes which manifest is replayed. */
  lemma StagingKeepsEffective(fs: Rootfs, crashed: Rootfs)
    requires IsCrashPoint(fs, crashed)
    ensures Effective(crashed) == Effective(fs)
  {
  }

  /** No crash during staging loses the newest manifest, exactly when staging does not retire an older one over it. */
  lemma StagingKeepsNewest(fs: Rootfs)
    ensures (forall crashed | IsCrashPoint(fs, crashed) :: Newest(crashed) == Newest(fs)) <==>
      (Stage(fs).1 == Moved ==> InOrder(fs))
  {
    assert IsCrashPoint(fs, Stage(fs).0);
  }

  /** Staging again after a crash at any point gets exactly where an undisturbed staging gets. */
  lemma StagingResumes(fs: Rootfs, crashed: Rootfs)
    requires IsCrashPoint(fs, crashed)
    ensures Stage(crashed).0 == Stage(fs).0
    ensures Stage(crashed).1 == Failed <==> Stage(fs).1 == Failed
    ensures Stage(fs).1 != Failed ==> Stage(Stage(fs).0) == (Stage(fs).0, NothingToMove)
  {
  }

  // ----- The procedures -----

  class RootfsDirectory {
    var temporary: Entry
    var terminal: Entry
    var previous: Entry

    constructor (fs: Rootfs)
      ensures View() == fs
    {
      temporary := fs.temporary;
      terminal := fs.terminal;
      previous := fs.previous;
    }

    function View(): Rootfs
      reads this
    {
      Rootfs(temporary, terminal, previous)
    }

    /** `stage_terminal_rootfs_metadata_for_boot`. */
    method StageForBoot(plainRoot: bool) returns (outcome: Outcome)
      modifies this
      ensures (View(), outcome) == if plainRoot then Stage(old(View())) else (old(View()), Failed)
      ensures outcome == Failed <==>
        || !plainRoot || old(temporary).Directory? || old(terminal).Link? || old(terminal).Directory?
        || (old(terminal).Manifest? && old(previous).Directory?)
      ensures outcome == NothingToMove <==> plainRoot && !old(temporary).Directory? && old(terminal).Absent?
      ensures outcome == NothingToMove ==> View() == Rootfs(Absent, Absent, old(previous))
      ensures outcome == Moved ==> View() == Rootfs(Absent, Absent, old(terminal))
      ensures outcome == Failed ==> terminal == old(terminal) && previous == old(previous)
      ensures outcome == Failed ==>
        temporary == if plainRoot && !old(temporary).Directory? then Absent else old(temporary)
      ensures Effective(View()) == Effective(old(View()))
      ensures InOrder(old(View())) ==> Newest(View()) == Newest(old(View()))
    {
      if !plainRoot || !Removable(temporary) {
        return Failed;
      }
      temporary := Absent;
      if terminal.Absent? {
        return NothingToMove;
      }
      if !terminal.Manifest? {
        return Failed;
      }
      if previous.Directory? {
        return Failed;
      }
      if !previous.Absent? {
        previous := Absent;
      }
      previous := terminal;
      terminal := Absent;
      outcome := Moved;
    }

    /** `finalize_terminal_rootfs_metadata`, on a temporary file that `intact` says parses and validates. */
    method FinalizeTerminal(plainRoot: bool, intact: bool) returns (published: bool)
      modifies this
      ensures published <==>
        plainRoot && intact && old(temporary).Manifest? && (old(terminal).Absent? || old(terminal).Manifest?)
      ensures View() == if published then Rootfs(Absent, old(temporary), old(previous)) else old(View())
    {
      if !plainRoot || !temporary.Manifest? || !intact {
        return false;
      }
      if terminal.Link? || terminal.Directory? {
        return false;
      }
      terminal := temporary;
      temporary := Absent;
      published := true;
    }
  }

  // ----- Generations -----

  /** How far the host is; a guest runs only in `Running`. */
  datatype Phase = Idle | Cleaned | Cleared | Staged | Running

  datatype System = System(fs: Rootfs, launched: nat, phase: Phase)

  datatype Step =
    | RemoveTemporary
    | FindNothing
    | ClearPrevious
    | RenameTerminal
    | Crash                           // or an error return: back to idle
    | Launch
    | GuestWrites(fs: Rootfs)         // any effect of the guest on the three paths
    | GuestEnds
    | Finalize

  predicate OwnGeneration(entry: Entry, generation: nat) {
    entry.Manifest? ==> entry.generation == generation
  }

  predicate Enabled(s: System, step: Step) {
    match step
    case RemoveTemporary => s.phase == Idle && Removable(s.fs.temporary)
    case FindNothing => s.phase == Cleaned && s.fs.terminal.Absent?
    case ClearPrevious => s.phase == Cleaned && s.fs.terminal.Manifest? && Removable(s.fs.previous)
    case RenameTerminal => s.phase == Cleared
    case Crash => s.phase != Running
    case Launch => s.phase == Staged
    case GuestWrites(fs) =>
      && s.phase == Running
      && OwnGeneration(fs.temporary, s.launched) && OwnGeneration(fs.terminal, s.launched)
      && (fs.previous.Manifest? ==> fs.previous.generation <= s.launched)
    case GuestEnds => s.phase == Running
    case Finalize => s.phase == Idle && s.fs.temporary.Manifest? && (s.fs.terminal.Absent? || s.fs.terminal.Manifest?)
  }

  function Next(s: System, step: Step): System
    requires Enabled(s, step)
  {
    match step
    case RemoveTemporary => s.(fs := WithoutTemporary(s.fs), phase := Cleaned)
    case FindNothing => s.(phase := Staged)
    case ClearPrevious => s.(fs := WithoutPrevious(s.fs), phase := Cleared)
    case RenameTerminal => s.(fs := Renamed(s.fs), phase := Staged)
    case Crash => s.(phase := Idle)
    case Launch => s.(launched := s.launched + 1, phase := Running)
    case GuestWrites(fs) => s.(fs := fs)
    case GuestEnds => s.(phase := Idle)
    case Finalize => s.(fs := Rootfs(Absent, s.fs.temporary, s.fs.previous))
  }

  /** The steps, taken without a crash, are the staging procedure. */
  lemma StepsAreStage(s: System)
    requires s.phase == Idle && Stage(s.fs).1 != Failed
    ensures var s1 := Next(s, RemoveTemporary);
      if Stage(s.fs).1 == NothingToMove
      then Next(s1, FindNothing) == s.(fs := Stage(s.fs).0, phase := Staged)
      else Next(Next(s1, ClearPrevious), RenameTerminal) == s.(fs := Stage(s.fs).0, phase := Staged)
  {
  }

  predicate Inv(s: System) {
    && OwnGeneration(s.fs.temporary, s.launched)
    && OwnGeneration(s.fs.terminal, s.launched)
    && (s.fs.previous.Manifest? ==> s.fs.previous.generation <= s.launched)
    && (s.phase in {Cleaned, Cleared, Staged} ==> s.fs.temporary == Absent)
    && (s.phase == Cleared ==> s.fs.terminal.Manifest?)
    && (s.phase == Staged ==> s.fs.terminal == Absent)
  }

  ghost predicate IsRun(states: seq<System>, steps: seq<Step>) {
    && |states| == |steps| + 1
    && states[0] == System(Rootfs(Absent, Absent, Absent), 0, Idle)
    && forall i | 0 <= i < |steps| :: Enabled(states[i], steps[i]) && states[i + 1] == Next(states[i], steps[i])
  }

  lemma {:induction false} RunKeepsInv(states: seq<System>, steps: seq<Step>, n: nat)
    requires IsRun(states, steps) && n < |states|
    ensures Inv(states[n])
  {
    if n > 0 {
      RunKeepsInv(states, steps, n - 1);
    }
  }

  /** A canonical manifest always belongs to the latest launched generation: commit never sees an older one. */
  lemma CanonicalIsCurrent(states: seq<System>, steps: seq<Step>, n: nat)
    requires IsRun(states, steps) && n < |states| && states[n].fs.terminal.Manifest?
    ensures states[n].fs.terminal.generation == states[n].launched
  {
    RunKeepsInv(states, steps, n);
  }

  /** So the manifest that is replayed is the newest there is. */
  lemma EffectiveIsNewest(states: seq<System>, steps: seq<Step>, n: nat)
    requires IsRun(states, steps) && n < |states|
    ensures InOrder(states[n].fs) && Effective(states[n].fs) == Newest(states[n].fs)
  {
    RunKeepsInv(states, steps, n);
  }

  predicate IsHostStaging(step: Step) {
    step in {RemoveTemporary, FindNothing, ClearPrevious, RenameTerminal, Crash}
  }

  /** Over any stretch of staging steps and crashes the newest manifest stays, and is the one replayed. */
  lemma {:induction false} NewestSurvivesStaging(states: seq<System>, steps: seq<Step>, i: nat, j: nat)
    requires IsRun(states, steps) && i <= j < |states|
    requires forall k | i <= k < j :: IsHostStaging(steps[k])
    ensures Newest(states[j].fs) == Newest(states[i].fs) == Effective(states[j].fs)
    decreases j
  {
    EffectiveIsNewest(states, steps, j);
    if i < j {
      NewestSurvivesStaging(states, steps, i, j - 1);
      RunKeepsInv(states, steps, j - 1);
      assert Enabled(states[j - 1], steps[j - 1]);
    }
  }

  /** The step puts something at the canonical path. */
  predicate Publishes(step: Step) {
    step == Finalize || (step.GuestWrites? && step.fs.terminal != Absent)
  }

  /** Until something is published, no generation from a launch on leaves a canonical manifest, however it ends. */
  lemma {:induction false} CrashLeavesNoMarker(states: seq<System>, steps: seq<Step>, i: nat, j: nat)
    requires IsRun(states, steps) && i < j < |states| && steps[i] == Launch
    requires forall k | i < k < j :: !Publishes(steps[k])
    ensures states[j].fs.terminal == Absent
    decreases j
  {
    RunKeepsInv(states, steps, i);
    assert Enabled(states[i], steps[i]) && states[i + 1] == Next(states[i], steps[i]);
    if i + 1 < j {
      CrashLeavesNoMarker(states, steps, i, j - 1);
      RunKeepsInv(states, steps, j - 1);
      assert Enabled(states[j - 1], steps[j - 1]);
    }
  }
}
