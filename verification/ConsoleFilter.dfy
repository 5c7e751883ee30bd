/**
 The filter that hides libkrun's C-init console preamble (src/core/src/log.rs).

 One filter instance is shared by the stdout and stderr tailers. `Classify` is
 the line grammar; the rest models concurrent `keep_line` calls as atomic loads
 and one swap on the shared flag, and proves them linearizable.
 */
module ConsoleFilter {
  import opened Text

  datatype Kind = Workload | Preamble | EndPreamble

  // ----- The line grammar -----

  predicate IsDecimal(s: string) {
    s != "" && forall i | 0 <= i < |s| :: '0' <= s[i] <= '9'
  }

  predicate IsFixedPreamble(line: string) {
    || line == "init.krun: mount_filesystems ok"
    || line == "init.krun: root propagation ok"
    || line == "init.krun: tty/session configured"
    || line == "init.krun: config parsed"
    || line == "init.krun: setup_redirects ok"
  }

  predicate IsEnteredMain(line: string) {
    var rest := StripPrefix(line, "init.krun: entered main argc=");
    rest.Some? && IsDecimal(rest.value)
  }

  predicate IsEnvironmentReport(line: string) {
    var fields := StripPrefix(line, "init.krun: after cmdline env import KRUN_INIT=");
    fields.Some? && HasThreeFields(fields.value, " KRUN_INIT_PID1=", " BOX_EXEC_EXEC=")
  }

  predicate HasThreeFields(s: string, first: string, second: string) {
    var left := SplitOnce(s, first);
    left.Some? &&
    var right := SplitOnce(left.value.after, second);
    right.Some? && left.value.before != "" && right.value.before != "" && right.value.after != ""
  }

  predicate IsSelectedExec(line: string) {
    var selected := StripPrefix(line, "init.krun: selected exec=");
    selected.Some? && HasFlag(selected.value, " init_pid1=")
  }

  predicate HasFlag(s: string, separator: string) {
    var parts := RSplitOnce(s, separator);
    parts.Some? && parts.value.before != "" && parts.value.after in {"0", "1"}
  }

  predicate Encloses(line: string, opening: string, closing: string) {
    var rest := StripPrefix(line, opening);
    rest.Some? &&
    var enclosed := StripSuffix(rest.value, closing);
    enclosed.Some? && enclosed.value != ""
  }

  predicate IsSentinel(line: string) {
    Encloses(line, "init.krun: execvp(", ") starting")
  }

  function Classify(raw: string): Kind {
    var line := TrimLineEnd(raw);
    if IsFixedPreamble(line) || IsEnteredMain(line) || IsEnvironmentReport(line) || IsSelectedExec(line) then Preamble
    else if IsSentinel(line) then EndPreamble
    else Workload
  }

  /** A line end makes no difference. */
  lemma ClassifyTrimmed(raw: string)
    ensures Classify(TrimLineEnd(raw)) == Classify(raw)
  {
    assert TrimLineEnd(TrimLineEnd(raw)) == TrimLineEnd(raw);
  }

  // The twelfth and thirteenth characters already tell a sentinel from every preamble line.

  lemma SentinelChars(line: string)
    requires IsSentinel(line)
    ensures |line| > 12 && line[11] == 'e' && line[12] == 'x'
  {
    var opening := "init.krun: execvp(";
    assert opening <= line && opening[11] == 'e' && opening[12] == 'x';
  }

  lemma NotFixed(line: string)
    requires |line| > 12 && line[11] == 'e'
    ensures !IsFixedPreamble(line)
  {
  }

  lemma NoOtherPreamble(line: string)
    requires |line| > 12 && line[11] == 'e' && line[12] == 'x'
    ensures !IsEnteredMain(line) && !IsEnvironmentReport(line) && !IsSelectedExec(line)
  {
    assert "init.krun: entered main argc="[12] == 'n';
    assert "init.krun: after cmdline env import KRUN_INIT="[11] == 'a';
    assert "init.krun: selected exec="[11] == 's';
  }

  lemma SentinelIsNoPreamble(line: string)
    requires IsSentinel(line)
    ensures !IsFixedPreamble(line) && !IsEnteredMain(line) && !IsEnvironmentReport(line) && !IsSelectedExec(line)
  {
    SentinelChars(line);
    NotFixed(line);
    NoOtherPreamble(line);
  }

  lemma EnclosedShape(line: string, opening: string, closing: string)
    ensures Encloses(line, opening, closing) <==>
      exists enclosed: string :: enclosed != "" && line == opening + enclosed + closing
  {
    if Encloses(line, opening, closing) {
      var rest := line[|opening|..];
      var enclosed := rest[..|rest| - |closing|];
      assert rest == enclosed + closing && line == opening + rest;
      assert line == opening + enclosed + closing;
    }
    if enclosed: string :| enclosed != "" && line == opening + enclosed + closing {
      EnclosingEncloses(opening, enclosed, closing);
    }
  }

  lemma EnclosingEncloses(opening: string, enclosed: string, closing: string)
    requires enclosed != ""
    ensures Encloses(opening + enclosed + closing, opening, closing)
  {
    var line := opening + enclosed + closing;
    assert line[|opening|..] == enclosed + closing;
    assert (enclosed + closing)[|enclosed|..] == closing && (enclosed + closing)[..|enclosed|] == enclosed;
  }

  /** Exactly the lines `init.krun: execvp(<executable>) starting` end the preamble. */
  lemma EndPreambleShape(raw: string)
    ensures Classify(raw) == EndPreamble <==>
      exists executable: string ::
        executable != "" && TrimLineEnd(raw) == "init.krun: execvp(" + executable + ") starting"
  {
    EnclosedShape(TrimLineEnd(raw), "init.krun: execvp(", ") starting");
    if IsSentinel(TrimLineEnd(raw)) {
      SentinelIsNoPreamble(TrimLineEnd(raw));
    }
  }

  lemma StripPrefixShape(line: string, prefix: string, rest: string)
    ensures StripPrefix(line, prefix) == Some(rest) <==> line == prefix + rest
  {
    assert prefix <= line ==> line == prefix + line[|prefix|..];
    assert (prefix + rest)[|prefix|..] == rest;
  }

  /** A nonempty run of digits. */
  predicate Digits(s: string) {
    s != "" && forall i | 0 <= i < |s| :: s[i] in "0123456789"
  }

  /** Three nonempty fields, each up to the first separator after it. */
  predicate ThreeFields(s: string, a: string, b: string, c: string, first: string, second: string) {
    && a != "" && b != "" && c != "" && s == a + first + (b + second + c)
    && !OccursBefore(s, first, |a|) && !OccursBefore(b + second + c, second, |b|)
  }

  lemma ThreeFieldsShape(s: string, first: string, second: string)
    ensures HasThreeFields(s, first, second) <==> exists a, b, c :: ThreeFields(s, a, b, c, first, second)
  {
    if HasThreeFields(s, first, second) {
      var left := SplitOnce(s, first).value;
      var right := SplitOnce(left.after, second).value;
      SplitOnceIsFirst(s, first);
      SplitOnceIsFirst(left.after, second);
      assert ThreeFields(s, left.before, right.before, right.after, first, second);
    }
    if a, b, c :| ThreeFields(s, a, b, c, first, second) {
      SplitOnceAt(a, first, b + second + c);
      SplitOnceAt(b, second, c);
    }
  }

  lemma SelectedShape(s: string, separator: string)
    requires separator != "" && separator[|separator| - 1] !in "01"
    ensures HasFlag(s, separator) <==>
      exists executable: string, flag: string ::
        executable != "" && flag in {"0", "1"} && s == executable + separator + flag
  {
    if executable: string, flag: string :|
      executable != "" && flag in {"0", "1"} && s == executable + separator + flag
    {
      var front := executable + separator;
      assert s[..|s| - 1] == front && [s[|s| - 1]] == flag;
      assert s[|s| - 1] != separator[|separator| - 1];
      assert s[|s| - |separator|..] != separator by {
        assert s[|s| - |separator|..][|separator| - 1] == s[|s| - 1];
      }
      assert front[|front| - |separator|..] == separator && front[..|front| - |separator|] == executable;
      assert RSplitOnce(front, separator) == Some(Pair(executable, ""));
      assert RSplitOnce(s, separator) == Some(Pair(executable, "" + flag));
    }
  }

  // The five forms of a preamble line.

  predicate IsProgress(line: string) {
    line in {
      "init.krun: mount_filesystems ok", "init.krun: root propagation ok", "init.krun: tty/session configured",
      "init.krun: config parsed", "init.krun: setup_redirects ok"}
  }

  ghost predicate IsEntry(line: string) {
    exists digits: string :: Digits(digits) && line == "init.krun: entered main argc=" + digits
  }

  ghost predicate IsReport(line: string) {
    exists fields: string, a, b, c ::
      && line == "init.krun: after cmdline env import KRUN_INIT=" + fields
      && ThreeFields(fields, a, b, c, " KRUN_INIT_PID1=", " BOX_EXEC_EXEC=")
  }

  ghost predicate IsSelection(line: string) {
    exists executable: string, flag: string ::
      && executable != "" && flag in {"0", "1"}
      && line == "init.krun: selected exec=" + (executable + " init_pid1=" + flag)
  }

  lemma EntryShape(line: string)
    ensures IsEnteredMain(line) <==> IsEntry(line)
  {
    var prefix := "init.krun: entered main argc=";
    if IsEnteredMain(line) {
      StripPrefixShape(line, prefix, StripPrefix(line, prefix).value);
    }
    if digits: string :| Digits(digits) && line == prefix + digits {
      StripPrefixShape(line, prefix, digits);
    }
  }

  lemma ReportShape(line: string)
    ensures IsEnvironmentReport(line) <==> IsReport(line)
  {
    var prefix := "init.krun: after cmdline env import KRUN_INIT=";
    if IsEnvironmentReport(line) {
      var fields := StripPrefix(line, prefix).value;
      StripPrefixShape(line, prefix, fields);
      ThreeFieldsShape(fields, " KRUN_INIT_PID1=", " BOX_EXEC_EXEC=");
    }
    if fields: string, a, b, c :|
      line == prefix + fields && ThreeFields(fields, a, b, c, " KRUN_INIT_PID1=", " BOX_EXEC_EXEC=")
    {
      StripPrefixShape(line, prefix, fields);
      ThreeFieldsShape(fields, " KRUN_INIT_PID1=", " BOX_EXEC_EXEC=");
    }
  }

  lemma SelectionShape(line: string)
    ensures IsSelectedExec(line) <==> IsSelection(line)
  {
    var prefix := "init.krun: selected exec=";
    if IsSelectedExec(line) {
      var selected := StripPrefix(line, prefix).value;
      StripPrefixShape(line, prefix, selected);
      SelectedShape(selected, " init_pid1=");
    }
    if executable: string, flag: string :|
      && executable != "" && flag in {"0", "1"} && line == prefix + (executable + " init_pid1=" + flag)
    {
      StripPrefixShape(line, prefix, executable + " init_pid1=" + flag);
      SelectedShape(executable + " init_pid1=" + flag, " init_pid1=");
    }
  }

  /** Exactly these lines are preamble; what is neither preamble nor its end is the workload's. */
  lemma PreambleShape(raw: string)
    ensures var line := TrimLineEnd(raw);
      Classify(raw) == Preamble <==> IsProgress(line) || IsEntry(line) || IsReport(line) || IsSelection(line)
  {
    EntryShape(TrimLineEnd(raw));
    ReportShape(TrimLineEnd(raw));
    SelectionShape(TrimLineEnd(raw));
  }

  // ----- The sequential filter: preamble until the sentinel -----

  function Keeps(active: bool, kind: Kind): bool {
    !active || kind == Workload
  }

  function StaysActive(active: bool, kind: Kind): bool {
    active && kind != EndPreamble
  }

  class RuntimeConsoleFilter {
    var preambleActive: bool

    constructor ()
      ensures preambleActive
    {
      preambleActive := true;
    }

    /** One call with no other in progress. */
    method KeepLine(line: string) returns (keep: bool)
      modifies this
      ensures keep <==> !old(preambleActive) || Classify(line) == Workload
      ensures preambleActive <==> old(preambleActive) && Classify(line) != EndPreamble
    {
      if !preambleActive {
        return true;
      }
      match Classify(line) {
        case Workload => keep := true;
        case Preamble => keep := !preambleActive;
        case EndPreamble =>
          keep := !preambleActive;
          preambleActive := false;
      }
    }
  }

  // ----- Concurrent calls -----

  /** A `keep_line` call between its atomic operations. */
  datatype Call =
    | Entered(kind: Kind)             // before the first load
    | Rechecking(kind: Kind)          // a preamble line, before the second load
    | Swapping(kind: Kind)            // a sentinel, before the swap
    | Finished(kind: Kind, kept: bool)

  datatype Event = Invoked(call: nat, kind: Kind) | Returned(call: nat, kept: bool)

  /** A call as it takes effect. */
  datatype Effect = Effect(call: nat, kind: Kind, kept: bool)

  /** `history` is what callers observe; `effects` records the order in which calls took effect. */
  datatype Filter = Filter(active: bool, calls: map<nat, Call>, history: seq<Event>, effects: seq<Effect>)

  const INIT := Filter(true, map[], [], [])

  datatype Step = Invoke(c: nat, k: Kind) | Load(c: nat) | Recheck(c: nat) | Swap(c: nat) | Return(c: nat)

  ghost predicate Enabled(f: Filter, step: Step) {
    match step
    case Invoke(c, k) => forall e | e in f.history :: e.call != c
    case Load(c) => c in f.calls && f.calls[c].Entered?
    case Recheck(c) => c in f.calls && f.calls[c].Rechecking?
    case Swap(c) => c in f.calls && f.calls[c].Swapping?
    case Return(c) => c in f.calls && f.calls[c].Finished?
  }

  function Finish(f: Filter, c: nat, kind: Kind, kept: bool): Filter {
    f.(calls := f.calls[c := Finished(kind, kept)], effects := f.effects + [Effect(c, kind, kept)])
  }

  function Next(f: Filter, step: Step): Filter
    requires Enabled(f, step)
  {
    match step
    case Invoke(c, k) => f.(calls := f.calls[c := Entered(k)], history := f.history + [Invoked(c, k)])
    case Load(c) =>
      var kind := f.calls[c].kind;
      if !f.active || kind == Workload then Finish(f, c, kind, true)
      else if kind == Preamble then f.(calls := f.calls[c := Rechecking(kind)])
      else f.(calls := f.calls[c := Swapping(kind)])
    case Recheck(c) => Finish(f, c, f.calls[c].kind, !f.active)
    case Swap(c) => Finish(f, c, f.calls[c].kind, !f.active).(active := false)
    case Return(c) => f.(calls := f.calls - {c}, history := f.history + [Returned(c, f.calls[c].kept)])
  }

  ghost predicate IsRun(states: seq<Filter>, steps: seq<Step>) {
    && |states| == |steps| + 1 && states[0] == INIT
    && forall i | 0 <= i < |steps| :: Enabled(states[i], steps[i]) && states[i + 1] == Next(states[i], steps[i])
  }

  // ----- Linearizability -----

  /** The flag after a sequential execution. */
  function ActiveAfter(effects: seq<Effect>): bool {
    if effects == [] then true
    else StaysActive(ActiveAfter(effects[..|effects| - 1]), effects[|effects| - 1].kind)
  }

  /** A sequential execution of the filter. */
  predicate Legal(effects: seq<Effect>) {
    forall i | 0 <= i < |effects| :: effects[i].kept == Keeps(ActiveAfter(effects[..i]), effects[i].kind)
  }

  /** `effects` holds every returned call with its answer, and only invoked calls, each once. */
  ghost predicate Accounts(history: seq<Event>, effects: seq<Effect>) {
    && (forall e | e in effects :: Invoked(e.call, e.kind) in history)
    && (forall i, j | 0 <= i < j < |effects| :: effects[i].call != effects[j].call)
    && (forall c, kept | Returned(c, kept) in history :: exists e :: e in effects && e.call == c && e.kept == kept)
  }

  /** Call `c` returned before call `d` was invoked. */
  ghost predicate Precedes(history: seq<Event>, c: nat, d: nat) {
    exists p, q | 0 <= p < q < |history| ::
      && history[p].Returned? && history[p].call == c
      && history[q].Invoked? && history[q].call == d
  }

  /** A call that returned before another was invoked takes effect before it. */
  ghost predicate RespectsTime(history: seq<Event>, effects: seq<Effect>) {
    forall i, j | 0 <= i < j < |effects| :: !Precedes(history, effects[j].call, effects[i].call)
  }

  ghost predicate Linearizes(history: seq<Event>, effects: seq<Effect>) {
    Legal(effects) && Accounts(history, effects) && RespectsTime(history, effects)
  }

  /** Each call is invoked once, and returns only after that. */
  ghost predicate WellFormed(history: seq<Event>) {
    && (forall p, q | 0 <= p < q < |history| && history[p].Invoked? && history[q].Invoked? ::
          history[p].call != history[q].call)
    && (forall q | 0 <= q < |history| && history[q].Returned? :: InvokedBefore(history, q, history[q].call))
  }

  ghost predicate InvokedBefore(history: seq<Event>, q: nat, c: nat)
    requires q <= |history|
  {
    exists p | 0 <= p < q :: history[p].Invoked? && history[p].call == c
  }

  ghost predicate CallFits(history: seq<Event>, effects: seq<Effect>, c: nat, call: Call) {
    && Invoked(c, call.kind) in history
    && (forall e | e in history && e.Returned? :: e.call != c)
    && (if call.Finished? then Effect(c, call.kind, call.kept) in effects else forall e | e in effects :: e.call != c)
    && (call.Rechecking? ==> call.kind == Preamble)
    && (call.Swapping? ==> call.kind == EndPreamble)
  }

  ghost predicate CallsFit(f: Filter) {
    forall c | c in f.calls :: CallFits(f.history, f.effects, c, f.calls[c])
  }

  ghost predicate Inv(f: Filter) {
    && Linearizes(f.history, f.effects)
    && WellFormed(f.history)
    && f.active == ActiveAfter(f.effects)
    && CallsFit(f)
  }

  // A call takes effect.

  lemma LegalAppend(effects: seq<Effect>, e: Effect)
    requires Legal(effects) && e.kept == Keeps(ActiveAfter(effects), e.kind)
    ensures Legal(effects + [e]) && ActiveAfter(effects + [e]) == StaysActive(ActiveAfter(effects), e.kind)
  {
    var longer := effects + [e];
    assert longer[..|effects|] == effects;
    assert forall i | 0 <= i < |effects| :: longer[..i] == effects[..i];
  }

  lemma AccountsAppend(history: seq<Event>, effects: seq<Effect>, e: Effect)
    requires Accounts(history, effects)
    requires Invoked(e.call, e.kind) in history && forall d | d in effects :: d.call != e.call
    ensures Accounts(history, effects + [e])
  {
    forall c, kept | Returned(c, kept) in history
      ensures exists d :: d in effects + [e] && d.call == c && d.kept == kept
    {
      var d :| d in effects && d.call == c && d.kept == kept;
      assert d in effects + [e];
    }
  }

  lemma TimeAppend(history: seq<Event>, effects: seq<Effect>, e: Effect)
    requires RespectsTime(history, effects)
    requires forall x | x in history && x.Returned? :: x.call != e.call
    ensures RespectsTime(history, effects + [e])
  {
    forall d
      ensures !Precedes(history, e.call, d)
    {
    }
  }

  lemma EffectKeepsCalls(f: Filter, c: nat, kept: bool)
    requires CallsFit(f) && c in f.calls && !f.calls[c].Finished?
    ensures CallsFit(Finish(f, c, f.calls[c].kind, kept))
  {
    var f' := Finish(f, c, f.calls[c].kind, kept);
    forall d | d in f'.calls
      ensures CallFits(f'.history, f'.effects, d, f'.calls[d])
    {
      assert CallFits(f.history, f.effects, d, f.calls[d]);
      assert forall e | e in f'.effects :: e in f.effects || e.call == c;
    }
  }

  lemma TakesEffect(f: Filter, c: nat, kept: bool, active: bool)
    requires Inv(f) && c in f.calls && !f.calls[c].Finished?
    requires kept == Keeps(f.active, f.calls[c].kind)
    requires active == StaysActive(f.active, f.calls[c].kind)
    ensures Inv(Finish(f, c, f.calls[c].kind, kept).(active := active))
  {
    var e := Effect(c, f.calls[c].kind, kept);
    var f' := Finish(f, c, f.calls[c].kind, kept).(active := active);
    assert CallFits(f.history, f.effects, c, f.calls[c]);
    LegalAppend(f.effects, e);
    AccountsAppend(f.history, f.effects, e);
    TimeAppend(f.history, f.effects, e);
    EffectKeepsCalls(f, c, kept);
  }

  // A call is invoked, or returns: the history grows.

  lemma AccountsGrow(history: seq<Event>, effects: seq<Effect>, event: Event)
    requires Accounts(history, effects)
    requires event.Returned? ==> exists e :: e in effects && e.call == event.call && e.kept == event.kept
    ensures Accounts(history + [event], effects)
  {
    assert forall x | x in history :: x in history + [event];
    assert forall x | x in history + [event] :: x in history || x == event;
  }

  lemma TimeGrows(history: seq<Event>, effects: seq<Effect>, event: Event)
    requires RespectsTime(history, effects)
    requires event.Invoked? ==> forall e | e in effects :: e.call != event.call
    ensures RespectsTime(history + [event], effects)
  {
    var longer := history + [event];
    forall i, j | 0 <= i < j < |effects|
      ensures !Precedes(longer, effects[j].call, effects[i].call)
    {
      assert effects[i] in effects;
      assert !Precedes(history, effects[j].call, effects[i].call);
    }
  }

  lemma WellFormedGrows(history: seq<Event>, event: Event)
    requires WellFormed(history)
    requires event.Invoked? ==> forall e | e in history :: e.call != event.call
    requires event.Returned? ==> InvokedBefore(history, |history|, event.call)
    ensures WellFormed(history + [event])
  {
    var longer := history + [event];
    forall q | 0 <= q < |longer| && longer[q].Returned?
      ensures InvokedBefore(longer, q, longer[q].call)
    {
      assert InvokedBefore(history, q, longer[q].call);
      var p :| 0 <= p < q && history[p].Invoked? && history[p].call == longer[q].call;
      assert longer[p] == history[p];
    }
  }

  lemma EventKeepsCalls(f: Filter, f': Filter, c: nat, event: Event)
    requires CallsFit(f) && event.call == c
    requires f'.history == f.history + [event] && f'.effects == f.effects
    requires f'.calls.Keys <= f.calls.Keys + {c}
    requires forall d | d in f'.calls && d != c :: f'.calls[d] == f.calls[d]
    requires c in f'.calls ==> CallFits(f'.history, f'.effects, c, f'.calls[c])
    ensures CallsFit(f')
  {
    forall d | d in f'.calls
      ensures CallFits(f'.history, f'.effects, d, f'.calls[d])
    {
      if d != c {
        assert CallFits(f.history, f.effects, d, f.calls[d]);
        assert forall e | e in f'.history :: e in f.history || e == event;
      }
    }
  }

  lemma InvocationKeepsInv(f: Filter, c: nat, k: Kind)
    requires Inv(f) && Enabled(f, Invoke(c, k))
    ensures Inv(Next(f, Invoke(c, k)))
  {
    var f' := Next(f, Invoke(c, k));
    var event := Invoked(c, k);
    AccountsGrow(f.history, f.effects, event);
    WellFormedGrows(f.history, event);
    forall e | e in f.effects
      ensures e.call != c
    {
      assert Invoked(e.call, e.kind) in f.history;
    }
    TimeGrows(f.history, f.effects, event);
    assert CallFits(f'.history, f'.effects, c, Entered(k));
    EventKeepsCalls(f, f', c, event);
  }

  lemma ReturnKeepsInv(f: Filter, c: nat)
    requires Inv(f) && Enabled(f, Return(c))
    ensures Inv(Next(f, Return(c)))
  {
    var f' := Next(f, Return(c));
    var event := Returned(c, f.calls[c].kept);
    assert CallFits(f.history, f.effects, c, f.calls[c]);
    assert Effect(c, f.calls[c].kind, f.calls[c].kept) in f.effects;
    AccountsGrow(f.history, f.effects, event);
    assert InvokedBefore(f.history, |f.history|, c) by {
      var p :| 0 <= p < |f.history| && f.history[p] == Invoked(c, f.calls[c].kind);
    }
    WellFormedGrows(f.history, event);
    TimeGrows(f.history, f.effects, event);
    EventKeepsCalls(f, f', c, event);
  }

  lemma StepKeepsInv(f: Filter, step: Step)
    requires Inv(f) && Enabled(f, step)
    ensures Inv(Next(f, step))
  {
    match step {
      case Invoke(c, k) => InvocationKeepsInv(f, c, k);
      case Return(c) => ReturnKeepsInv(f, c);
      case Load(c) =>
        if !f.active || f.calls[c].kind == Workload {
          TakesEffect(f, c, true, f.active);
        } else {
          AdvanceKeepsInv(f, c, Next(f, step).calls[c]);
        }
      case Recheck(c) =>
        assert CallFits(f.history, f.effects, c, f.calls[c]);
        TakesEffect(f, c, !f.active, f.active);
      case Swap(c) =>
        assert CallFits(f.history, f.effects, c, f.calls[c]);
        TakesEffect(f, c, !f.active, false);
    }
  }

  lemma AdvanceKeepsInv(f: Filter, c: nat, call: Call)
    requires Inv(f) && c in f.calls && f.calls[c].Entered?
    requires call.kind == f.calls[c].kind
    requires call == Rechecking(Preamble) || call == Swapping(EndPreamble)
    ensures Inv(f.(calls := f.calls[c := call]))
  {
    AdvancedCallFits(f, c, call);
  }

  lemma AdvancedCallFits(f: Filter, c: nat, call: Call)
    requires CallsFit(f) && c in f.calls && f.calls[c].Entered?
    requires call.kind == f.calls[c].kind
    requires call == Rechecking(Preamble) || call == Swapping(EndPreamble)
    ensures CallsFit(f.(calls := f.calls[c := call]))
  {
    assert CallFits(f.history, f.effects, c, f.calls[c]);
  }

  lemma {:induction false} RunKeepsInv(states: seq<Filter>, steps: seq<Step>, n: nat)
    requires IsRun(states, steps) && n < |states|
    ensures Inv(states[n])
  {
    if n > 0 {
      RunKeepsInv(states, steps, n - 1);
      StepKeepsInv(states[n - 1], steps[n - 1]);
    }
  }

  /** Every history of concurrent calls is linearizable to the sequential filter. */
  lemma FilterIsLinearizable(states: seq<Filter>, steps: seq<Step>, n: nat)
    requires IsRun(states, steps) && n < |states|
    ensures WellFormed(states[n].history) && exists effects :: Linearizes(states[n].history, effects)
  {
    RunKeepsInv(states, steps, n);
  }

  // ----- What linearizability means for the two tailers -----

  lemma WorkloadIsKept(history: seq<Event>, c: nat, kept: bool)
    requires (exists effects :: Linearizes(history, effects)) && WellFormed(history)
    requires Invoked(c, Workload) in history && Returned(c, kept) in history
    ensures kept
  {
    var effects :| Linearizes(history, effects);
    var i := EffectOf(history, effects, c, Workload, kept);
  }

  lemma {:induction false} InactiveAfter(effects: seq<Effect>, i: nat, j: nat)
    requires i < j <= |effects| && effects[i].kind == EndPreamble
    ensures !ActiveAfter(effects[..j])
    decreases j
  {
    var prefix := effects[..j];
    assert prefix[..j - 1] == effects[..j - 1];
    if i < j - 1 {
      InactiveAfter(effects, i, j - 1);
    }
  }

  /** At most one sentinel is hidden over the whole run. */
  lemma OneSentinelHidden(history: seq<Event>, c: nat, d: nat)
    requires (exists effects :: Linearizes(history, effects)) && WellFormed(history)
    requires Invoked(c, EndPreamble) in history && Returned(c, false) in history
    requires Invoked(d, EndPreamble) in history && Returned(d, false) in history
    ensures c == d
  {
    var effects :| Linearizes(history, effects);
    var i := EffectOf(history, effects, c, EndPreamble, false);
    var j := EffectOf(history, effects, d, EndPreamble, false);
    if i < j {
      InactiveAfter(effects, i, j);
    } else if j < i {
      InactiveAfter(effects, j, i);
    }
  }

  lemma EffectOf(history: seq<Event>, effects: seq<Effect>, c: nat, kind: Kind, kept: bool) returns (i: nat)
    requires Accounts(history, effects) && WellFormed(history)
    requires Invoked(c, kind) in history && Returned(c, kept) in history
    ensures i < |effects| && effects[i] == Effect(c, kind, kept)
  {
    var e :| e in effects && e.call == c && e.kept == kept;
    assert Invoked(e.call, e.kind) in history;
    i :| 0 <= i < |effects| && effects[i] == e;
  }

  /** A call invoked after a sentinel call returned keeps its line, whatever the line. */
  lemma KeptAfterSentinel(history: seq<Event>, p: nat, q: nat, c: nat, k: Kind, kept: bool)
    requires (exists effects :: Linearizes(history, effects)) && WellFormed(history)
    requires p < q < |history|
    requires history[p].Returned? && Invoked(history[p].call, EndPreamble) in history
    requires history[q] == Invoked(c, k) && Returned(c, kept) in history
    ensures kept
  {
    var effects :| Linearizes(history, effects);
    assert Returned(history[p].call, history[p].kept) in history;
    var i := EffectOf(history, effects, history[p].call, EndPreamble, history[p].kept);
    var j := EffectOf(history, effects, c, k, kept);
    assert i != j by {
      assert InvokedBefore(history, p, history[p].call);
    }
    if i < j {
      InactiveAfter(effects, i, j);
    }
  }

  /** So a hidden line was shown before any sentinel was answered about. */
  lemma HiddenBeforeSentinel(history: seq<Event>, sentinel: nat, c: nat, k: Kind)
    requires (exists effects :: Linearizes(history, effects)) && WellFormed(history)
    requires Invoked(sentinel, EndPreamble) in history
    requires Invoked(c, k) in history && Returned(c, false) in history
    ensures !Precedes(history, sentinel, c)
  {
    if p, q :|
      && 0 <= p < q < |history|
      && history[p].Returned? && history[p].call == sentinel
      && history[q].Invoked? && history[q].call == c
    {
      var r :| 0 <= r < |history| && history[r] == Invoked(c, k);
      assert r == q;
      KeptAfterSentinel(history, p, q, c, k, false);
    }
  }
}
