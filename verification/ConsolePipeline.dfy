/**
 The structured log of a box (src/core/src/log.rs): two tailers, one for each console stream,
 share one preamble filter and write under a mutex into one rotating log.

 Each tailer turns its console file into lines as `ConsoleTail` describes. Here the two of
 them ask the filter and write, in any interleaving of the filter's atomic operations.
 */
module ConsolePipeline {
  import opened Text
  import F = ConsoleFilter
  import T = ConsoleTail
  import L = LogRotation

  datatype Stream = Stdout | Stderr

  function Other(stream: Stream): Stream {
    if stream == Stdout then Stderr else Stdout
  }

  /** The lines the two tailers read. */
  datatype Lines = Lines(out: seq<T.TailLine>, err: seq<T.TailLine>) {
    function Of(stream: Stream): seq<T.TailLine> {
      if stream == Stdout then out else err
    }
  }

  // Each line is shown to the filter in a call of its own.

  function CallOf(stream: Stream, i: nat): nat {
    if stream == Stdout then 2 * i else 2 * i + 1
  }

  function StreamOf(call: nat): Stream {
    if call % 2 == 0 then Stdout else Stderr
  }

  function IndexOf(call: nat): nat {
    call / 2
  }

  lemma CallsDiffer(stream: Stream, i: nat)
    ensures StreamOf(CallOf(stream, i)) == stream && IndexOf(CallOf(stream, i)) == i
  {
  }

  // ----- The machine -----

  datatype Phase = Idle | Asking | Emitting

  /** `next` is the line in hand, or the one to take. */
  datatype Tailer = Tailer(next: nat, phase: Phase)

  datatype Written = Written(stream: Stream, index: nat)

  datatype System = System(filter: F.Filter, out: Tailer, err: Tailer, written: seq<Written>) {
    function Of(stream: Stream): Tailer {
      if stream == Stdout then out else err
    }

    function With(stream: Stream, tailer: Tailer): System {
      if stream == Stdout then this.(out := tailer) else this.(err := tailer)
    }
  }

  const INIT := System(F.INIT, Tailer(0, Idle), Tailer(0, Idle), [])

  datatype Step =
    | Take(stream: Stream)
    | Load(stream: Stream)
    | Recheck(stream: Stream)
    | Swap(stream: Stream)
    | Answer(stream: Stream)
    | Write(stream: Stream)

  /** The filter's operation in a step of the tailer. */
  function FilterStep(lines: Lines, s: System, step: Step): Option<F.Step> {
    var tailer := s.Of(step.stream);
    var c := CallOf(step.stream, tailer.next);
    match step
    case Take(stream) =>
      if tailer.next < |lines.Of(stream)| && lines.Of(stream)[tailer.next].complete
      then Some(F.Invoke(c, T.KindOf(lines.Of(stream)[tailer.next]))) else None
    case Load(_) => Some(F.Load(c))
    case Recheck(_) => Some(F.Recheck(c))
    case Swap(_) => Some(F.Swap(c))
    case Answer(_) => Some(F.Return(c))
    case Write(_) => None
  }

  ghost predicate Enabled(lines: Lines, s: System, step: Step) {
    var tailer := s.Of(step.stream);
    && (match step
        case Take(stream) => tailer.phase == Idle && tailer.next < |lines.Of(stream)|
        case Write(_) => tailer.phase == Emitting
        case _ => tailer.phase == Asking)
    && (FilterStep(lines, s, step).Some? ==> F.Enabled(s.filter, FilterStep(lines, s, step).value))
  }

  ghost function Next(lines: Lines, s: System, step: Step): System
    requires Enabled(lines, s, step)
  {
    var operation := FilterStep(lines, s, step);
    var s' := if operation.Some? then s.(filter := F.Next(s.filter, operation.value)) else s;
    var tailer := s.Of(step.stream);
    match step
    case Take(stream) => s'.With(stream, tailer.(phase := if operation.Some? then Asking else Emitting))
    case Answer(stream) =>
      if s.filter.calls[CallOf(stream, tailer.next)].kept then s'.With(stream, tailer.(phase := Emitting))
      else s'.With(stream, Tailer(tailer.next + 1, Idle))
    case Write(stream) =>
      s'.With(stream, Tailer(tailer.next + 1, Idle)).(written := s.written + [Written(stream, tailer.next)])
    case _ => s'
  }

  ghost predicate IsRun(lines: Lines, states: seq<System>, steps: seq<Step>) {
    && |states| == |steps| + 1 && states[0] == INIT
    && forall i | 0 <= i < |steps| ::
      Enabled(lines, states[i], steps[i]) && states[i + 1] == Next(lines, states[i], steps[i])
  }

  // ----- What becomes of a line -----

  ghost predicate Hidden(s: System, stream: Stream, i: nat) {
    F.Returned(CallOf(stream, i), false) in s.filter.history
  }

  predicate IsWritten(s: System, stream: Stream, i: nat) {
    Written(stream, i) in s.written
  }

  ghost predicate Shown(lines: Lines, s: System, stream: Stream, i: nat) {
    && i < |lines.Of(stream)| && lines.Of(stream)[i].complete
    && F.Invoked(CallOf(stream, i), T.KindOf(lines.Of(stream)[i])) in s.filter.history
  }

  /** The line has left the tailer: it was written, or it was shown to the filter and hidden. */
  ghost predicate Settled(lines: Lines, s: System, stream: Stream, i: nat) {
    && (IsWritten(s, stream, i) <==> !Hidden(s, stream, i))
    && (Hidden(s, stream, i) ==> Shown(lines, s, stream, i))
  }

  ghost predicate HandFits(lines: Lines, s: System, stream: Stream) {
    var tailer := s.Of(stream);
    var c := CallOf(stream, tailer.next);
    match tailer.phase
    case Idle => tailer.next <= |lines.Of(stream)|
    case Asking => tailer.next < |lines.Of(stream)| && c in s.filter.calls && Shown(lines, s, stream, tailer.next)
    case Emitting => tailer.next < |lines.Of(stream)| && !Hidden(s, stream, tailer.next)
  }

  ghost predicate StreamInv(lines: Lines, s: System, stream: Stream) {
    var tailer := s.Of(stream);
    && HandFits(lines, s, stream)
    && (forall i: nat | i < tailer.next :: Settled(lines, s, stream, i))
    && (forall i: nat | IsWritten(s, stream, i) :: i < tailer.next)
    && (forall e | e in s.filter.history && StreamOf(e.call) == stream ::
          IndexOf(e.call) < tailer.next || (IndexOf(e.call) == tailer.next && tailer.phase != Idle))
  }

  /** Along the log the lines of a stream are in order, each once. */
  predicate InOrder(written: seq<Written>) {
    forall a, b | 0 <= a < b < |written| && written[a].stream == written[b].stream ::
      written[a].index < written[b].index
  }

  ghost predicate Inv(lines: Lines, s: System) {
    F.Inv(s.filter) && StreamInv(lines, s, Stdout) && StreamInv(lines, s, Stderr) && InOrder(s.written)
  }

  // ----- Every step keeps it -----

  /** How a step of one stream looks: it adds filter events and log lines of that stream only. */
  ghost predicate Extends(s: System, s': System, stream: Stream, events: seq<F.Event>, added: seq<Written>) {
    && s'.filter.history == s.filter.history + events && s'.written == s.written + added
    && (forall e | e in events :: StreamOf(e.call) == stream)
    && (forall w | w in added :: w.stream == stream)
    && (forall c | c in s.filter.calls && StreamOf(c) != stream :: c in s'.filter.calls)
    && s'.Of(Other(stream)) == s.Of(Other(stream))
  }

  lemma OtherStreamKeeps(lines: Lines, s: System, s': System, stream: Stream, events: seq<F.Event>, added: seq<Written>)
    requires Extends(s, s', Other(stream), events, added) && StreamInv(lines, s, stream)
    ensures StreamInv(lines, s', stream)
  {
    forall i: nat
      ensures Hidden(s', stream, i) <==> Hidden(s, stream, i)
      ensures IsWritten(s', stream, i) <==> IsWritten(s, stream, i)
      ensures Shown(lines, s, stream, i) ==> Shown(lines, s', stream, i)
      ensures Settled(lines, s, stream, i) ==> Settled(lines, s', stream, i)
    {
      CallsDiffer(stream, i);
    }
    CallsDiffer(stream, s.Of(stream).next);
  }

  function EventsOf(lines: Lines, s: System, step: Step): seq<F.Event>
    requires step.Answer? ==> var c := CallOf(step.stream, s.Of(step.stream).next);
      c in s.filter.calls && s.filter.calls[c].Finished?
  {
    var operation := FilterStep(lines, s, step);
    var c := CallOf(step.stream, s.Of(step.stream).next);
    if step.Take? && operation.Some? then [F.Invoked(c, operation.value.k)]
    else if step.Answer? then [F.Returned(c, s.filter.calls[c].kept)]
    else []
  }

  function AddedBy(s: System, step: Step): seq<Written> {
    if step.Write? then [Written(step.stream, s.Of(step.stream).next)] else []
  }

  lemma StepExtends(lines: Lines, s: System, step: Step)
    requires Enabled(lines, s, step)
    ensures Extends(s, Next(lines, s, step), step.stream, EventsOf(lines, s, step), AddedBy(s, step))
    ensures !step.Write? ==> Next(lines, s, step).written == s.written
    ensures !step.Take? && !step.Answer? ==> Next(lines, s, step).filter.history == s.filter.history
  {
    CallsDiffer(step.stream, s.Of(step.stream).next);
  }

  /** The fate of a line does not change unless the step answers about it or writes it. */
  lemma FateStays(lines: Lines, s: System, step: Step, i: nat)
    requires Enabled(lines, s, step) && (i == s.Of(step.stream).next ==> !step.Answer? && !step.Write?)
    ensures var s' := Next(lines, s, step);
      && (Hidden(s', step.stream, i) <==> Hidden(s, step.stream, i))
      && (IsWritten(s', step.stream, i) <==> IsWritten(s, step.stream, i))
      && (Shown(lines, s, step.stream, i) ==> Shown(lines, s', step.stream, i))
      && (Settled(lines, s, step.stream, i) ==> Settled(lines, s', step.stream, i))
  {
    StepExtends(lines, s, step);
    CallsDiffer(step.stream, i);
    CallsDiffer(step.stream, s.Of(step.stream).next);
  }

  lemma SettledStays(lines: Lines, s: System, step: Step)
    requires Enabled(lines, s, step) && StreamInv(lines, s, step.stream)
    ensures forall i: nat | i < s.Of(step.stream).next :: Settled(lines, Next(lines, s, step), step.stream, i)
    ensures !step.Write? ==>
      forall i: nat | IsWritten(Next(lines, s, step), step.stream, i) :: i < s.Of(step.stream).next
  {
    StepExtends(lines, s, step);
    assert !step.Write? ==>
      forall i: nat | IsWritten(Next(lines, s, step), step.stream, i) :: IsWritten(s, step.stream, i);
    forall i: nat | i < s.Of(step.stream).next
      ensures Settled(lines, Next(lines, s, step), step.stream, i)
    {
      FateStays(lines, s, step, i);
    }
  }

  lemma TakeKeeps(lines: Lines, s: System, stream: Stream)
    requires Enabled(lines, s, Take(stream)) && StreamInv(lines, s, stream)
    ensures StreamInv(lines, Next(lines, s, Take(stream)), stream)
  {
    var next := s.Of(stream).next;
    StepExtends(lines, s, Take(stream));
    SettledStays(lines, s, Take(stream));
    FateStays(lines, s, Take(stream), next);
    CallsDiffer(stream, next);
    assert !Hidden(s, stream, next);
  }

  lemma OperationKeeps(lines: Lines, s: System, step: Step)
    requires step.Load? || step.Recheck? || step.Swap?
    requires Enabled(lines, s, step) && StreamInv(lines, s, step.stream)
    ensures StreamInv(lines, Next(lines, s, step), step.stream)
  {
    var s' := Next(lines, s, step);
    StepExtends(lines, s, step);
    SettledStays(lines, s, step);
    FateStays(lines, s, step, s.Of(step.stream).next);
    assert s'.Of(step.stream) == s.Of(step.stream) && HandFits(lines, s', step.stream);
  }

  /** The line in hand has not been answered about, and is not in the log. */
  lemma LineInHand(lines: Lines, s: System, stream: Stream)
    requires s.Of(stream).phase == Asking && StreamInv(lines, s, stream) && F.CallsFit(s.filter)
    ensures !Hidden(s, stream, s.Of(stream).next) && !IsWritten(s, stream, s.Of(stream).next)
  {
    var c := CallOf(stream, s.Of(stream).next);
    assert F.CallFits(s.filter.history, s.filter.effects, c, s.filter.calls[c]);
  }

  lemma AnswerKeeps(lines: Lines, s: System, stream: Stream)
    requires Enabled(lines, s, Answer(stream)) && StreamInv(lines, s, stream)
    requires !Hidden(s, stream, s.Of(stream).next) && !IsWritten(s, stream, s.Of(stream).next)
    ensures StreamInv(lines, Next(lines, s, Answer(stream)), stream)
  {
    var s', next := Next(lines, s, Answer(stream)), s.Of(stream).next;
    var answer := F.Returned(CallOf(stream, next), s.filter.calls[CallOf(stream, next)].kept);
    CallsDiffer(stream, next);
    SettledStays(lines, s, Answer(stream));
    AnswerSettles(lines, s, stream);
    assert forall e | e in s'.filter.history :: e in s.filter.history || e == answer;
  }

  /** A line in hand is settled by a refusal, and safe after a consent. */
  lemma AnswerSettles(lines: Lines, s: System, stream: Stream)
    requires Enabled(lines, s, Answer(stream)) && StreamInv(lines, s, stream)
    requires !Hidden(s, stream, s.Of(stream).next) && !IsWritten(s, stream, s.Of(stream).next)
    ensures var s', next := Next(lines, s, Answer(stream)), s.Of(stream).next;
      if s.filter.calls[CallOf(stream, next)].kept then !Hidden(s', stream, next) else Settled(lines, s', stream, next)
  {
    StepExtends(lines, s, Answer(stream));
  }

  lemma WriteKeeps(lines: Lines, s: System, stream: Stream)
    requires Enabled(lines, s, Write(stream)) && StreamInv(lines, s, stream) && InOrder(s.written)
    ensures StreamInv(lines, Next(lines, s, Write(stream)), stream)
    ensures InOrder(Next(lines, s, Write(stream)).written)
  {
    SettledStays(lines, s, Write(stream));
    var s' := Next(lines, s, Write(stream));
    forall a | 0 <= a < |s.written| && s.written[a].stream == stream
      ensures s.written[a].index < s.Of(stream).next
    {
      assert IsWritten(s, stream, s.written[a].index);
    }
    assert IsWritten(s', stream, s.Of(stream).next);
  }

  lemma FilterKeeps(lines: Lines, s: System, step: Step)
    requires F.Inv(s.filter) && Enabled(lines, s, step)
    ensures F.Inv(Next(lines, s, step).filter)
  {
    if FilterStep(lines, s, step).Some? {
      F.StepKeepsInv(s.filter, FilterStep(lines, s, step).value);
    }
  }

  lemma StepKeepsInv(lines: Lines, s: System, step: Step)
    requires Inv(lines, s) && Enabled(lines, s, step)
    ensures Inv(lines, Next(lines, s, step))
  {
    FilterKeeps(lines, s, step);
    StepExtends(lines, s, step);
    OtherStreamKeeps(lines, s, Next(lines, s, step), Other(step.stream), EventsOf(lines, s, step), AddedBy(s, step));
    match step {
      case Take(stream) => TakeKeeps(lines, s, stream);
      case Answer(stream) =>
        LineInHand(lines, s, stream);
        AnswerKeeps(lines, s, stream);
      case Write(stream) => WriteKeeps(lines, s, stream);
      case _ => OperationKeeps(lines, s, step);
    }
  }

  lemma {:induction false} RunKeepsInv(lines: Lines, states: seq<System>, steps: seq<Step>, n: nat)
    requires IsRun(lines, states, steps) && n < |states|
    ensures Inv(lines, states[n])
  {
    if n > 0 {
      RunKeepsInv(lines, states, steps, n - 1);
      StepKeepsInv(lines, states[n - 1], steps[n - 1]);
    }
  }

  // ----- Every run comes to an end -----

  predicate TailerDone(lines: Lines, s: System, stream: Stream) {
    s.Of(stream) == Tailer(|lines.Of(stream)|, Idle)
  }

  /** What a tailer does next. */
  function NextStep(s: System, stream: Stream): Step {
    var tailer := s.Of(stream);
    var c := CallOf(stream, tailer.next);
    match tailer.phase
    case Idle => Take(stream)
    case Emitting => Write(stream)
    case Asking =>
      if c !in s.filter.calls then Take(stream)
      else match s.filter.calls[c]
           case Entered(_) => Load(stream)
           case Rechecking(_) => Recheck(stream)
           case Swapping(_) => Swap(stream)
           case Finished(_, _) => Answer(stream)
  }

  /** A tailer that is not done always has a step, whatever the other one does. */
  lemma TailerIsNeverBlocked(lines: Lines, s: System, stream: Stream)
    requires Inv(lines, s) && !TailerDone(lines, s, stream)
    ensures Enabled(lines, s, NextStep(s, stream))
  {
    assert StreamInv(lines, s, stream);
    CallsDiffer(stream, s.Of(stream).next);
  }

  const STEPS_PER_LINE := 5

  /** How far a tailer is, in steps; a line takes at most five. */
  function Progress(s: System, stream: Stream): nat {
    var tailer := s.Of(stream);
    var c := CallOf(stream, tailer.next);
    STEPS_PER_LINE * tailer.next +
    match tailer.phase
    case Idle => 0
    case Emitting => 4
    case Asking =>
      if c !in s.filter.calls || s.filter.calls[c].Entered? then 1
      else if s.filter.calls[c].Finished? then 3
      else 2
  }

  lemma OwnProgress(lines: Lines, s: System, step: Step)
    requires Enabled(lines, s, step)
    ensures Progress(Next(lines, s, step), step.stream) > Progress(s, step.stream)
  {
  }

  lemma OtherProgress(lines: Lines, s: System, step: Step)
    requires Enabled(lines, s, step)
    ensures Progress(Next(lines, s, step), Other(step.stream)) == Progress(s, Other(step.stream))
  {
    CallsDiffer(step.stream, s.Of(step.stream).next);
    CallsDiffer(Other(step.stream), s.Of(Other(step.stream)).next);
  }

  function Total(s: System): nat {
    Progress(s, Stdout) + Progress(s, Stderr)
  }

  lemma StepProgresses(lines: Lines, s: System, step: Step)
    requires Enabled(lines, s, step)
    ensures Total(Next(lines, s, step)) > Total(s)
  {
    OwnProgress(lines, s, step);
    OtherProgress(lines, s, step);
  }

  lemma ProgressIsBounded(lines: Lines, s: System, stream: Stream)
    requires Inv(lines, s)
    ensures Progress(s, stream) <= STEPS_PER_LINE * |lines.Of(stream)|
  {
    assert StreamInv(lines, s, stream);
  }

  lemma {:induction false} RunProgresses(lines: Lines, states: seq<System>, steps: seq<Step>, n: nat)
    requires IsRun(lines, states, steps) && n < |states|
    ensures n <= Total(states[n])
  {
    if n > 0 {
      RunProgresses(lines, states, steps, n - 1);
      StepProgresses(lines, states[n - 1], steps[n - 1]);
    }
  }

  /** No run takes more than five steps for each line, and a run that cannot be continued is done. */
  lemma EveryRunEnds(lines: Lines, states: seq<System>, steps: seq<Step>)
    requires IsRun(lines, states, steps)
    ensures |steps| <= STEPS_PER_LINE * (|lines.out| + |lines.err|)
    ensures !Done(lines, states[|steps|]) ==> exists step :: Enabled(lines, states[|steps|], step)
  {
    var s := states[|steps|];
    RunKeepsInv(lines, states, steps, |steps|);
    RunProgresses(lines, states, steps, |steps|);
    ProgressIsBounded(lines, s, Stdout);
    ProgressIsBounded(lines, s, Stderr);
    if !TailerDone(lines, s, Stdout) {
      TailerIsNeverBlocked(lines, s, Stdout);
    } else if !TailerDone(lines, s, Stderr) {
      TailerIsNeverBlocked(lines, s, Stderr);
    }
  }

  // ----- The log -----

  predicate Done(lines: Lines, s: System) {
    TailerDone(lines, s, Stdout) && TailerDone(lines, s, Stderr)
  }

  /**
   When both tailers are done, every line either file yielded is in the log once and in its
   stream's order, except those the filter hid.
   */
  lemma EveryLineIsWrittenOrHidden(lines: Lines, states: seq<System>, steps: seq<Step>, n: nat)
    requires IsRun(lines, states, steps) && n < |states| && Done(lines, states[n])
    ensures forall stream, i: nat :: IsWritten(states[n], stream, i) <==>
      i < |lines.Of(stream)| && !Hidden(states[n], stream, i)
    ensures InOrder(states[n].written)
  {
    RunKeepsInv(lines, states, steps, n);
    forall stream, i: nat
      ensures IsWritten(states[n], stream, i) <==> i < |lines.Of(stream)| && !Hidden(states[n], stream, i)
    {
      assert StreamInv(lines, states[n], stream);
      assert i < |lines.Of(stream)| ==> Settled(lines, states[n], stream, i);
    }
  }

  /** A sentinel was answered about before this line was shown to the filter. */
  ghost predicate AfterSentinel(lines: Lines, s: System, stream: Stream, i: nat) {
    exists other, j: nat ::
      && Shown(lines, s, other, j) && T.KindOf(lines.Of(other)[j]) == F.EndPreamble
      && F.Precedes(s.filter.history, CallOf(other, j), CallOf(stream, i))
  }

  /**
   At any point of any run, a hidden line is complete, is no workload line, and was not shown
   after a sentinel was answered about.
   */
  lemma OnlyPreambleIsHidden(lines: Lines, states: seq<System>, steps: seq<Step>, n: nat, stream: Stream, i: nat)
    requires IsRun(lines, states, steps) && n < |states| && Hidden(states[n], stream, i)
    ensures Shown(lines, states[n], stream, i) && T.KindOf(lines.Of(stream)[i]) != F.Workload
    ensures !AfterSentinel(lines, states[n], stream, i)
  {
    var s := states[n];
    RunKeepsInv(lines, states, steps, n);
    HiddenWasShown(lines, s, stream, i);
    var history, c, kind := s.filter.history, CallOf(stream, i), T.KindOf(lines.Of(stream)[i]);
    assert F.Linearizes(history, s.filter.effects);
    if kind == F.Workload {
      F.WorkloadIsKept(history, c, false);
    }
    forall other, j: nat | Shown(lines, s, other, j) && T.KindOf(lines.Of(other)[j]) == F.EndPreamble
      ensures !F.Precedes(history, CallOf(other, j), c)
    {
      F.HiddenBeforeSentinel(history, CallOf(other, j), c, kind);
    }
  }

  lemma HiddenWasShown(lines: Lines, s: System, stream: Stream, i: nat)
    requires Inv(lines, s) && Hidden(s, stream, i)
    ensures Shown(lines, s, stream, i)
  {
    CallsDiffer(stream, i);
    assert StreamInv(lines, s, stream);
    var tailer := s.Of(stream);
    assert IndexOf(F.Returned(CallOf(stream, i), false).call) == i;
    if i == tailer.next && tailer.phase == Asking {
      LineInHand(lines, s, stream);
    } else if i < tailer.next {
      assert Settled(lines, s, stream, i);
    }
  }

  /** At most one hidden line is a sentinel. */
  lemma OneSentinelIsHidden(lines: Lines, states: seq<System>, steps: seq<Step>, n: nat,
    stream: Stream, i: nat, other: Stream, j: nat)
    requires IsRun(lines, states, steps) && n < |states|
    requires Hidden(states[n], stream, i) && Hidden(states[n], other, j)
    requires i < |lines.Of(stream)| && T.KindOf(lines.Of(stream)[i]) == F.EndPreamble
    requires j < |lines.Of(other)| && T.KindOf(lines.Of(other)[j]) == F.EndPreamble
    ensures stream == other && i == j
  {
    var s := states[n];
    RunKeepsInv(lines, states, steps, n);
    HiddenWasShown(lines, s, stream, i);
    HiddenWasShown(lines, s, other, j);
    assert F.Linearizes(s.filter.history, s.filter.effects);
    F.OneSentinelHidden(s.filter.history, CallOf(stream, i), CallOf(other, j));
    CallsDiffer(stream, i);
    CallsDiffer(other, j);
  }

  function StreamName(stream: Stream): string {
    if stream == Stdout then "stdout" else "stderr"
  }

  predicate Genuine(lines: Lines, written: seq<Written>) {
    forall k | 0 <= k < |written| :: written[k].index < |lines.Of(written[k].stream)|
  }

  function TextAt(lines: Lines, written: seq<Written>, k: nat): string
    requires Genuine(lines, written) && k < |written|
  {
    TrimLineEnd(lines.Of(written[k].stream)[written[k].index].raw)
  }

  /** What the writer receives, at the times it receives it. */
  function InputsOf(lines: Lines, written: seq<Written>, times: seq<int>): seq<L.Input>
    requires Genuine(lines, written) && |times| == |written|
  {
    seq(|written|, k requires 0 <= k < |written| =>
      L.Input(TextAt(lines, written, k), StreamName(written[k].stream), times[k]))
  }

  /** The entry holds the text of that line, without its own line end, under its stream's name. */
  predicate Holds(entry: L.LogEntry, lines: Lines, w: Written) {
    && w.index < |lines.Of(w.stream)|
    && entry.log == TrimLineEnd(lines.Of(w.stream)[w.index].raw) + "\n"
    && entry.stream == match w.stream case Stdout => "stdout" case Stderr => "stderr"
  }

  lemma EntriesHold(lines: Lines, written: seq<Written>, times: seq<int>, k: nat)
    requires Genuine(lines, written) && |times| == |written| && k < |written|
    ensures Holds(L.Entries(InputsOf(lines, written, times))[k], lines, written[k])
  {
    L.EntriesCarryInputs(InputsOf(lines, written, times), k);
  }

  /** A console file of one stream, with its producer. */
  datatype Source = Source(console: T.Console, schedule: seq<T.Round>) {
    /** No text follows as many silent rounds after the stop as the tailer polls. */
    ghost predicate Timely(settle: nat) {
      console.Valid() && T.Timely(T.AtStart(console), schedule, T.Patience(settle))
    }

    ghost function Received(): string
      requires console.Valid()
    {
      T.Held(console) + T.RoundsText(schedule)
    }

    function LinesRead(cap: Option<nat>, settle: nat): seq<T.TailLine>
      requires console.Valid()
    {
      T.Tail(console, schedule, cap, settle).lines
    }
  }

  /**
   From the console files to the log. For producers that are not silent for too long, the
   lines read from each file make up all that it received; those that the filter does not hide
   are entered once, in their stream's order, with their text and stream; and the log on disk
   is a suffix of these entries and what was there before.
   */
  lemma LogHoldsTheConsole(out: Source, err: Source, cap: Option<nat>, settle: nat, states: seq<System>,
    steps: seq<Step>, times: seq<int>, start: L.Log, limits: L.Limits)
    requires out.Timely(settle) && err.Timely(settle)
    requires var lines := Lines(out.LinesRead(cap, settle), err.LinesRead(cap, settle));
      IsRun(lines, states, steps) && Done(lines, states[|steps|])
    requires |times| == |states[|steps|].written| && |start.segments| <= limits.Keep()
    ensures var lines, s := Lines(out.LinesRead(cap, settle), err.LinesRead(cap, settle)), states[|steps|];
      && T.Raws(lines.out) == out.Received() && T.Raws(lines.err) == err.Received()
      && (forall stream, i: nat :: IsWritten(s, stream, i) <==> i < |lines.Of(stream)| && !Hidden(s, stream, i))
      && InOrder(s.written) && Genuine(lines, s.written)
      && var entries := L.Entries(InputsOf(lines, s.written, times));
      && |entries| == |s.written| && (forall k | 0 <= k < |entries| :: Holds(entries[k], lines, s.written[k]))
      && L.IsSuffix(L.WrittenAll(start, entries, limits).History(), start.History() + entries)
  {
    var lines, s := Lines(out.LinesRead(cap, settle), err.LinesRead(cap, settle)), states[|steps|];
    T.TimelyOutputIsEmitted(out.console, out.schedule, cap, settle);
    T.TimelyOutputIsEmitted(err.console, err.schedule, cap, settle);
    EveryLineIsWrittenOrHidden(lines, states, steps, |steps|);
    assert Genuine(lines, s.written) by {
      forall k | 0 <= k < |s.written|
        ensures s.written[k].index < |lines.Of(s.written[k].stream)|
      {
        assert IsWritten(s, s.written[k].stream, s.written[k].index);
      }
    }
    var inputs := InputsOf(lines, s.written, times);
    forall k | 0 <= k < |inputs|
      ensures Holds(L.Entries(inputs)[k], lines, s.written[k])
    {
      EntriesHold(lines, s.written, times, k);
    }
    L.RotationKeepsSuffix(start, L.Entries(inputs), limits);
  }
}
