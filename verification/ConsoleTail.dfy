/**
 Tailing a raw console file while it grows and is truncated (src/core/src/log.rs).

 The producer acts at two points of every loop iteration: before the read, and
 between the read (with its truncation, taken as one atomic step) and the load
 of the stop flag. A schedule lists those actions; when it runs out, the producer
 has exited and the stop flag is set. All statements hold for every schedule.
 */
module ConsoleTail {
  import opened Text
  import F = ConsoleFilter

  datatype Action = Append(text: string) | Stop

  /** What the producer does during one iteration. */
  datatype Round = Round(before: seq<Action>, between: seq<Action>)

  const EXITED := Round([Stop], [])

  datatype EofPolicy = MayReceiveLateWrites | WriterClosed

  /** `stopped_eof_settle_polls`. */
  function SettlePolls(policy: EofPolicy): nat {
    match policy
    case MayReceiveLateWrites => 25
    case WriterClosed => 1
  }

  /** The file, the reader's position in it, the partial line, and the stop flag. */
  datatype Console = Console(file: string, pos: nat, buf: string, stop: bool) {
    ghost predicate Valid() {
      pos <= |file| && '\n' !in buf
    }

    function Unread(): string
      requires pos <= |file|
    {
      file[pos..]
    }
  }

  function Act(c: Console, action: Action): Console {
    match action
    case Append(text) => c.(file := c.file + text)
    case Stop => c.(stop := true)
  }

  function ActAll(c: Console, actions: seq<Action>): (c': Console)
    ensures c'.pos == c.pos && c'.buf == c.buf && |c.file| <= |c'.file|
    decreases actions
  {
    if actions == [] then c else ActAll(Act(c, actions[0]), actions[1..])
  }

  /** The text up to and including the first newline, or all of it. */
  function FirstLine(s: string): (line: string)
    ensures line <= s && (s != "" ==> line != "")
    ensures line != s ==> line != "" && line[|line| - 1] == '\n'
    ensures forall i | 0 <= i < |line| - 1 :: line[i] != '\n'
  {
    if s == "" then "" else if s[0] == '\n' then [s[0]] else
    var rest := FirstLine(s[1..]);
    assert s == [s[0]] + s[1..];
    [s[0]] + rest
  }

  predicate EndsLine(s: string) {
    s != "" && s[|s| - 1] == '\n'
  }

  /** `read_line`, and at end of file the truncation of a file over its budget. */
  function ReadLine(c: Console, cap: Option<nat>): Console
    requires c.pos <= |c.file|
  {
    if c.Unread() != "" then
      var line := FirstLine(c.Unread());
      c.(pos := c.pos + |line|, buf := c.buf + line)
    else if c.buf == "" && cap.Some? && |c.file| > cap.value then
      c.(file := "", pos := 0)
    else
      c
  }

  /** How an iteration ends. */
  datatype Turn =
    | Again(c: Console, polls: nat)
    | Line(c: Console, raw: string, complete: bool)
    | Drained(c: Console)

  /** The decision after a read; `polls` counts consecutive stopped end-of-file reads. */
  function Decide(c: Console, atEof: bool, polls: nat, settle: nat): Turn {
    if !atEof then
      if EndsLine(c.buf) then Line(c.(buf := ""), c.buf, true) else Again(c, 0)
    else if !c.stop then
      Again(c, polls)
    else if polls + 1 < settle then
      Again(c, polls + 1)
    else if c.buf == "" then
      Drained(c)
    else
      Line(c.(buf := ""), c.buf, false)
  }

  /** One iteration of the tail loop. */
  function TakeTurn(c: Console, polls: nat, round: Round, cap: Option<nat>, settle: nat): Turn
    requires c.pos <= |c.file|
  {
    ActAllGrows(c, round.before);
    var c1 := ActAll(c, round.before);
    Decide(ActAll(ReadLine(c1, cap), round.between), c1.Unread() == "", polls, settle)
  }

  /** The text a sequence of actions appends. */
  function TextOf(actions: seq<Action>): string {
    if actions == [] then "" else (if actions[0].Append? then actions[0].text else "") + TextOf(actions[1..])
  }

  /** Text taken in and not yet emitted: the partial line and the unread rest of the file. */
  function Held(c: Console): string
    requires c.pos <= |c.file|
  {
    c.buf + c.Unread()
  }

  lemma HeldAfterAppend(c: Console, c': Console, text: string)
    requires c.pos <= |c.file| && c'.file == c.file + text && c'.pos == c.pos && c'.buf == c.buf
    ensures Held(c') == Held(c) + text && c'.Unread() == c.Unread() + text
  {
  }

  lemma {:induction false} ActAllGrows(c: Console, actions: seq<Action>)
    requires c.pos <= |c.file|
    ensures var c' := ActAll(c, actions);
      && c'.file == c.file + TextOf(actions) && c'.pos == c.pos && c'.buf == c.buf
      && (c'.stop <==> c.stop || Stop in actions)
    decreases actions
  {
    if actions != [] {
      ActAllGrows(Act(c, actions[0]), actions[1..]);
    }
  }

  lemma MovePrefix(buf: string, file: string, pos: nat, prefix: string)
    requires pos <= |file| && prefix <= file[pos..]
    ensures pos + |prefix| <= |file| && buf + prefix + file[pos + |prefix|..] == buf + file[pos..]
  {
    assert file[pos..] == prefix + file[pos + |prefix|..];
  }

  /** Reading moves text from the file to the buffer; truncation drops only text already read. */
  lemma ReadLineConserves(c: Console, cap: Option<nat>)
    requires c.pos <= |c.file|
    ensures var c' := ReadLine(c, cap);
      && c'.pos <= |c'.file| && Held(c') == Held(c) && c'.stop == c.stop
      && (c.Unread() == "" ==> c'.buf == c.buf && c'.Unread() == "")
  {
    if c.Unread() != "" {
      MovePrefix(c.buf, c.file, c.pos, FirstLine(c.Unread()));
    }
  }

  function Emitted(turn: Turn): string {
    if turn.Line? then turn.raw else ""
  }

  lemma DecideConserves(c: Console, atEof: bool, polls: nat, settle: nat)
    requires c.pos <= |c.file|
    ensures var turn := Decide(c, atEof, polls, settle);
      turn.c.pos <= |turn.c.file| && Held(c) == Emitted(turn) + Held(turn.c)
  {
  }

  /** Conservation in one iteration: what was held, plus what the round appended, is what was
      emitted, plus what is held now. */
  lemma TurnConserves(c: Console, polls: nat, round: Round, cap: Option<nat>, settle: nat)
    requires c.pos <= |c.file|
    ensures var turn := TakeTurn(c, polls, round, cap, settle);
      && turn.c.pos <= |turn.c.file|
      && Held(c) + TextOf(round.before) + TextOf(round.between) == Emitted(turn) + Held(turn.c)
  {
    ActAllGrows(c, round.before);
    var c1 := ActAll(c, round.before);
    HeldAfterAppend(c, c1, TextOf(round.before));
    ReadLineConserves(c1, cap);
    var c2 := ReadLine(c1, cap);
    ActAllGrows(c2, round.between);
    var c3 := ActAll(c2, round.between);
    HeldAfterAppend(c2, c3, TextOf(round.between));
    DecideConserves(c3, c1.Unread() == "", polls, settle);
  }

  /** Nonempty, with no newline before the last character. */
  predicate AtMostOneLine(s: string) {
    s != "" && '\n' !in s[..|s| - 1]
  }

  /** A newline only ever arrives as the last character read. */
  lemma ReadLineShape(c: Console, cap: Option<nat>)
    requires c.Valid()
    ensures var c' := ReadLine(c, cap);
      if c.Unread() == "" then c'.buf == c.buf else AtMostOneLine(c'.buf)
  {
    if c.Unread() != "" {
      var line := FirstLine(c.Unread());
      var buf := c.buf + line;
      assert buf[..|buf| - 1] == c.buf + line[..|line| - 1];
    }
  }

  /** What an iteration hands out. */
  ghost predicate WellShaped(turn: Turn) {
    && turn.c.Valid()
    && (turn.Line? ==>
          AtMostOneLine(turn.raw) && (turn.complete <==> EndsLine(turn.raw)) && (!turn.complete ==> turn.c.stop))
    && (turn.Drained? ==> turn.c.stop && turn.c.buf == "")
  }

  lemma DecideShape(c: Console, atEof: bool, polls: nat, settle: nat)
    requires c.pos <= |c.file|
    requires if atEof then '\n' !in c.buf else AtMostOneLine(c.buf)
    ensures WellShaped(Decide(c, atEof, polls, settle))
  {
    if c.buf != "" {
      assert c.buf == c.buf[..|c.buf| - 1] + [c.buf[|c.buf| - 1]];
    }
  }

  lemma TurnShape(c: Console, polls: nat, round: Round, cap: Option<nat>, settle: nat)
    requires c.Valid()
    ensures WellShaped(TakeTurn(c, polls, round, cap, settle))
  {
    ActAllGrows(c, round.before);
    var c1 := ActAll(c, round.before);
    ReadLineConserves(c1, cap);
    ReadLineShape(c1, cap);
    ActAllGrows(ReadLine(c1, cap), round.between);
    DecideShape(ActAll(ReadLine(c1, cap), round.between), c1.Unread() == "", polls, settle);
  }

  // ----- One call, and the whole run -----

  function Head(schedule: seq<Round>): Round {
    if schedule == [] then EXITED else schedule[0]
  }

  function Rest(schedule: seq<Round>): seq<Round> {
    if schedule == [] then [] else schedule[1..]
  }

  /** After the producer exited, an iteration reads on, counts a poll, or finishes. */
  lemma ExitedTurn(c: Console, polls: nat, cap: Option<nat>, settle: nat)
    requires c.Valid()
    ensures var turn := TakeTurn(c, polls, EXITED, cap, settle);
      && turn.c.pos <= |turn.c.file|
      && if c.Unread() != "" then
           |turn.c.Unread()| < |c.Unread()|
         else
           && turn.c.Unread() == ""
           && (turn.Again? ==> polls + 1 < settle && turn.polls == polls + 1 && turn.c.buf == c.buf)
           && (turn.Line? ==> c.buf != "" && turn.c.buf == "")
  {
    var c1 := c.(stop := true);
    assert EXITED.before[1..] == [];
    assert ActAll(c, EXITED.before) == c1;
    assert c1.Unread() == c.Unread();
    ReadLineConserves(c1, cap);
  }

  datatype TailLine = TailLine(raw: string, complete: bool)

  /** The outcome of one `tail_next_line` call; `last` is the round of its final iteration. */
  datatype Found = Found(line: Option<TailLine>, c: Console, rest: seq<Round>, last: Round)

  /** `tail_next_line_with_completeness`, from any point of its loop. */
  function NextLine(c: Console, polls: nat, schedule: seq<Round>, cap: Option<nat>, settle: nat): (found: Found)
    requires c.Valid()
    ensures found.c.Valid()
    ensures schedule != [] ==> |found.rest| < |schedule|
    ensures schedule == [] ==> found.rest == []
    ensures schedule == [] && found.line.Some? ==>
      && (|found.c.Unread()| < |c.Unread()| || (found.c.Unread() == c.Unread() && |found.c.buf| < |c.buf|))
    decreases |schedule|, |c.Unread()|, if polls < settle then settle - polls else 0
  {
    TurnShape(c, polls, Head(schedule), cap, settle);
    ExitedTurn(c, polls, cap, settle);
    match TakeTurn(c, polls, Head(schedule), cap, settle)
    case Again(c', polls') => NextLine(c', polls', Rest(schedule), cap, settle)
    case Line(c', raw, complete) => Found(Some(TailLine(raw, complete)), c', Rest(schedule), Head(schedule))
    case Drained(c') => Found(None, c', Rest(schedule), Head(schedule))
  }

  /** What one turn leaves to do. */
  lemma NextLineStep(c: Console, polls: nat, schedule: seq<Round>, cap: Option<nat>, settle: nat)
    requires c.Valid()
    ensures var turn := TakeTurn(c, polls, Head(schedule), cap, settle);
      var found := NextLine(c, polls, schedule, cap, settle);
      && turn.c.Valid()
      && (turn.Again? ==> found == NextLine(turn.c, turn.polls, Rest(schedule), cap, settle))
      && (turn.Again? && schedule == [] ==>
            || |turn.c.Unread()| < |c.Unread()|
            || (turn.c.Unread() == c.Unread() && polls < turn.polls < settle))
      && (turn.Line? ==>
            found == Found(Some(TailLine(turn.raw, turn.complete)), turn.c, Rest(schedule), Head(schedule)))
      && (turn.Drained? ==> found == Found(None, turn.c, Rest(schedule), Head(schedule)))
  {
    TurnShape(c, polls, Head(schedule), cap, settle);
    ExitedTurn(c, polls, cap, settle);
  }

  datatype Outcome = Outcome(lines: seq<TailLine>, c: Console, rest: seq<Round>, last: Round)

  /** The loop of `run_tagged_tail`. */
  function Tail(c: Console, schedule: seq<Round>, cap: Option<nat>, settle: nat): (outcome: Outcome)
    requires c.Valid()
    decreases |schedule|, |c.Unread()|, |c.buf|
  {
    var found := NextLine(c, 0, schedule, cap, settle);
    if found.line.None? then
      Outcome([], found.c, found.rest, found.last)
    else
      Prepend([found.line.value], Tail(found.c, found.rest, cap, settle))
  }

  /** The tailer itself. */
  class Tailer {
    const cap: Option<nat>
    const policy: EofPolicy
    var file: string
    var pos: nat
    var buf: string
    var stop: bool

    constructor (cap: Option<nat>, policy: EofPolicy, file: string)
      ensures this.cap == cap && this.policy == policy && View() == Console(file, 0, "", false)
    {
      this.cap := cap;
      this.policy := policy;
      this.file := file;
      pos := 0;
      buf := "";
      stop := false;
    }

    function View(): Console
      reads this
    {
      Console(file, pos, buf, stop)
    }

    /** The producer's actions. */
    method Perform(actions: seq<Action>)
      modifies this`file, this`stop
      ensures View() == ActAll(old(View()), actions)
    {
      for i := 0 to |actions|
        invariant pos == old(pos) && buf == old(buf)
        invariant ActAll(View(), actions[i..]) == ActAll(old(View()), actions)
      {
        assert actions[i..][1..] == actions[i + 1..];
        match actions[i] {
          case Append(text) => file := file + text;
          case Stop => stop := true;
        }
      }
    }

    /** One read, at end of file with the truncation. */
    method ReadOnce() returns (atEof: bool)
      requires pos <= |file|
      modifies this`file, this`pos, this`buf
      ensures pos <= |file| && stop == old(stop)
      ensures atEof == (old(View()).Unread() == "") && View() == ReadLine(old(View()), cap)
      ensures !atEof ==> file == old(file) && pos > old(pos) && buf == old(buf) + file[old(pos)..pos]
      ensures atEof ==> buf == old(buf)
      ensures atEof ==>
        if old(buf) == "" && cap.Some? && |old(file)| > cap.value then file == "" && pos == 0
        else file == old(file) && pos == old(pos)
    {
      var read := FirstLine(file[pos..]);
      atEof := read == "";
      if !atEof {
        pos, buf := pos + |read|, buf + read;
      } else if buf == "" && cap.Some? && |file| > cap.value {
        file, pos := "", 0;
      }
    }

    /** A read between the producer's actions. */
    method Read(round: Round) returns (atEof: bool)
      requires View().Valid()
      modifies this`file, this`pos, this`buf, this`stop
      ensures pos <= |file|
      ensures atEof == (ActAll(old(View()), round.before).Unread() == "")
      ensures View() == ActAll(ReadLine(ActAll(old(View()), round.before), cap), round.between)
    {
      ActAllGrows(View(), round.before);
      Perform(round.before);
      atEof := ReadOnce();
      ActAllGrows(View(), round.between);
      Perform(round.between);
    }

    method TailNextLine(schedule: seq<Round>) returns (line: Option<TailLine>, rest: seq<Round>, ghost last: Round)
      requires View().Valid()
      modifies this`file, this`pos, this`buf, this`stop
      ensures Found(line, View(), rest, last) == NextLine(old(View()), 0, schedule, cap, SettlePolls(policy))
    {
      var settle := SettlePolls(policy);
      var polls := 0;
      rest := schedule;
      ghost var found := NextLine(View(), 0, schedule, cap, settle);
      while true
        invariant View().Valid()
        invariant NextLine(View(), polls, rest, cap, settle) == found
        decreases |rest|, |View().Unread()|, if polls < settle then settle - polls else 0
      {
        last := Head(rest);
        NextLineStep(View(), polls, rest, cap, settle);
        ghost var turn := TakeTurn(View(), polls, last, cap, settle);
        var atEof := Read(Head(rest));
        assert turn == Decide(View(), atEof, polls, settle);
        rest := Rest(rest);
        if atEof {
          if stop {
            polls := polls + 1;
            if polls >= settle {
              line := None;
              if buf != "" {
                line := Some(TailLine(buf, false));
                buf := "";
              }
              return;
            }
          }
        } else {
          polls := 0;
          if EndsLine(buf) {
            line := Some(TailLine(buf, true));
            buf := "";
            return;
          }
        }
        assert turn == Again(View(), polls);
      }
    }

    /** One round of the loop below. */
    method EmitNext(schedule: seq<Round>, filter: F.RuntimeConsoleFilter?)
      returns (line: Option<TailLine>, emitted: seq<string>, rest: seq<Round>, ghost last: Round)
      requires View().Valid()
      modifies this`file, this`pos, this`buf, this`stop, if filter == null then {} else {filter}
      ensures Found(line, View(), rest, last) == NextLine(old(View()), 0, schedule, cap, SettlePolls(policy))
      ensures line.None? ==> emitted == [] && On(filter) == old(On(filter))
      ensures line.Some? ==> emitted == KeptOf(Judge(line.value), old(On(filter)))
      ensures line.Some? ==> On(filter) == ActiveAfter(Judge(line.value), old(On(filter)))
    {
      line, rest, last := TailNextLine(schedule);
      emitted := [];
      if line.Some? {
        ghost var now := View();
        emitted := EmitLine(line.value, filter);
        assert View() == now;
      }
    }

    /**
     Emit every line, with its line end trimmed, that the filter keeps. Another tailer may use
     the same filter; this is a run with no other call in progress.
     */
    method RunTaggedTail(schedule: seq<Round>, filter: F.RuntimeConsoleFilter?)
      returns (emitted: seq<string>, ghost outcome: Outcome)
      requires View().Valid()
      modifies this`file, this`pos, this`buf, this`stop, if filter == null then {} else {filter}
      ensures outcome == Tail(old(View()), schedule, cap, SettlePolls(policy)) && View() == outcome.c
      ensures exists picked :: IsEmission(emitted, JudgeAll(outcome.lines), old(On(filter)), picked)
      ensures !old(On(filter)) ==> |emitted| == |outcome.lines|
      ensures !old(On(filter)) ==> forall i | 0 <= i < |emitted| :: emitted[i] == TrimLineEnd(outcome.lines[i].raw)
      ensures On(filter) <==>
        old(On(filter)) && forall j | 0 <= j < |outcome.lines| :: !IsSentinel(Judge(outcome.lines[j]))
    {
      ghost var lines: seq<TailLine> := [];
      ghost var active := On(filter);
      outcome := Tail(View(), schedule, cap, SettlePolls(policy));
      var rest := schedule;
      emitted := [];
      while true
        invariant View().Valid()
        invariant emitted == Kept(JudgeAll(lines), active) && On(filter) == StillActive(JudgeAll(lines), active)
        invariant Prepend(lines, Tail(View(), rest, cap, SettlePolls(policy))) == outcome
        decreases |rest|, |View().Unread()|, |buf|
      {
        ghost var c := View();
        var line, kept, rest', last := EmitNext(rest, filter);
        TailAdvances(lines, c, rest, cap, SettlePolls(policy), Found(line, View(), rest', last));
        if line.None? {
          EmissionOf(lines, active);
          return;
        }
        AppendJudged(lines, line.value, active);
        emitted := emitted + kept;
        lines := lines + [line.value];
        rest := rest';
      }
    }
  }

  lemma TailStep(c: Console, schedule: seq<Round>, cap: Option<nat>, settle: nat, found: Found)
    requires c.Valid() && found == NextLine(c, 0, schedule, cap, settle)
    ensures Tail(c, schedule, cap, settle) ==
      if found.line.None? then Outcome([], found.c, found.rest, found.last)
      else Prepend([found.line.value], Tail(found.c, found.rest, cap, settle))
  {
  }

  /** One round of the tailer's loop, as the reference run sees it. */
  lemma TailAdvances(lines: seq<TailLine>, c: Console, schedule: seq<Round>, cap: Option<nat>, settle: nat,
    found: Found)
    requires c.Valid() && found == NextLine(c, 0, schedule, cap, settle)
    ensures var outcome := Prepend(lines, Tail(c, schedule, cap, settle));
      if found.line.None? then outcome == Outcome(lines, found.c, found.rest, found.last)
      else outcome == Prepend(lines + [found.line.value], Tail(found.c, found.rest, cap, settle))
  {
    TailStep(c, schedule, cap, settle, found);
    if found.line.Some? {
      AppendLine(lines, found.line.value, Tail(found.c, found.rest, cap, settle));
    }
  }

  lemma AppendLine(lines: seq<TailLine>, line: TailLine, outcome: Outcome)
    ensures Prepend(lines, Prepend([line], outcome)) == Prepend(lines + [line], outcome)
  {
    assert lines + ([line] + outcome.lines) == lines + [line] + outcome.lines;
  }

  function Prepend(lines: seq<TailLine>, outcome: Outcome): Outcome {
    outcome.(lines := lines + outcome.lines)
  }

  function KindOf(line: TailLine): F.Kind {
    F.Classify(line.raw)
  }

  /** Whether a filter is hiding the preamble; without one nothing is hidden. */
  ghost predicate On(filter: F.RuntimeConsoleFilter?)
    reads filter
  {
    filter != null && filter.preambleActive
  }

  /** A line and what the filter takes it for. */
  datatype Judged = Judged(line: TailLine, kind: F.Kind)

  function Judge(line: TailLine): Judged {
    Judged(line, KindOf(line))
  }

  function JudgeAll(lines: seq<TailLine>): seq<Judged> {
    seq(|lines|, i requires 0 <= i < |lines| => Judge(lines[i]))
  }

  // Only complete lines are shown to the filter.

  function ActiveAfter(j: Judged, active: bool): bool {
    if j.line.complete then F.StaysActive(active, j.kind) else active
  }

  function KeptOf(j: Judged, active: bool): seq<string> {
    if j.line.complete && !F.Keeps(active, j.kind) then [] else [TrimLineEnd(j.line.raw)]
  }

  /** Whether the preamble is still on after these lines. */
  function StillActive(lines: seq<Judged>, active: bool): bool {
    if lines == [] then active
    else ActiveAfter(lines[|lines| - 1], StillActive(lines[..|lines| - 1], active))
  }

  /** The lines kept, trimmed. */
  function Kept(lines: seq<Judged>, active: bool): seq<string> {
    if lines == [] then []
    else
      var last, front := lines[|lines| - 1], lines[..|lines| - 1];
      Kept(front, active) + KeptOf(last, StillActive(front, active))
  }

  lemma AppendJudged(lines: seq<TailLine>, line: TailLine, active: bool)
    ensures var before, after, j := JudgeAll(lines), JudgeAll(lines + [line]), Judge(line);
      && Kept(after, active) == Kept(before, active) + KeptOf(j, StillActive(before, active))
      && StillActive(after, active) == ActiveAfter(j, StillActive(before, active))
  {
    JudgeNext(lines, line);
    KeptNext(JudgeAll(lines), Judge(line), active);
  }

  lemma JudgeNext(lines: seq<TailLine>, line: TailLine)
    ensures JudgeAll(lines + [line]) == JudgeAll(lines) + [Judge(line)]
  {
  }

  lemma KeptNext(before: seq<Judged>, j: Judged, active: bool)
    ensures Kept(before + [j], active) == Kept(before, active) + KeptOf(j, StillActive(before, active))
    ensures StillActive(before + [j], active) == ActiveAfter(j, StillActive(before, active))
  {
    assert (before + [j])[..|before|] == before;
  }

  // What that comes to, line by line.

  predicate IsSentinel(j: Judged) {
    j.line.complete && j.kind == F.EndPreamble
  }

  /** The line is incomplete, or nothing is being hidden, or it is the workload's, or it follows a sentinel. */
  predicate IsEmitted(lines: seq<Judged>, i: nat, on: bool)
    requires i < |lines|
  {
    || !lines[i].line.complete || !on || lines[i].kind == F.Workload
    || exists j | 0 <= j < i :: IsSentinel(lines[j])
  }

  function EmittedOf(lines: seq<Judged>, on: bool): set<nat> {
    set i: nat | i < |lines| && IsEmitted(lines, i, on)
  }

  /** These are the texts, without their line ends, of exactly the lines that are to be emitted, in order. */
  ghost predicate IsEmission(emitted: seq<string>, lines: seq<Judged>, on: bool, picked: seq<nat>) {
    Lists(picked, EmittedOf(lines, on)) && AreTexts(emitted, lines, picked)
  }

  predicate AreTexts(texts: seq<string>, lines: seq<Judged>, picked: seq<nat>) {
    && |texts| == |picked|
    && forall k | 0 <= k < |picked| :: picked[k] < |lines| && texts[k] == TrimLineEnd(lines[picked[k]].line.raw)
  }

  lemma TextsNext(texts: seq<string>, lines: seq<Judged>, line: Judged, picked: seq<nat>)
    requires AreTexts(texts, lines, picked)
    ensures AreTexts(texts, lines + [line], picked)
    ensures AreTexts(texts + [TrimLineEnd(line.line.raw)], lines + [line], picked + [|lines|])
  {
    assert forall k | 0 <= k < |picked| :: (lines + [line])[picked[k]] == lines[picked[k]];
  }

  /** The filter is still hiding exactly if it was and no sentinel came. */
  lemma {:induction false} StillActiveExactly(lines: seq<Judged>, on: bool)
    ensures StillActive(lines, on) <==> on && forall j | 0 <= j < |lines| :: !IsSentinel(lines[j])
  {
    if lines != [] {
      var front, last := lines[..|lines| - 1], lines[|lines| - 1];
      StillActiveExactly(front, on);
      assert forall j | 0 <= j < |front| :: front[j] == lines[j];
    }
  }

  /** One more line does not change what becomes of the lines before it. */
  lemma EmittedOfNext(lines: seq<Judged>, line: Judged, on: bool)
    ensures EmittedOf(lines + [line], on) ==
      EmittedOf(lines, on) + if IsEmitted(lines + [line], |lines|, on) then {|lines|} else {}
  {
    forall i: nat | i < |lines|
      ensures IsEmitted(lines + [line], i, on) <==> IsEmitted(lines, i, on)
    {
      assert forall j | 0 <= j <= i :: (lines + [line])[j] == lines[j];
    }
  }

  lemma LastIsKept(lines: seq<Judged>, line: Judged, on: bool)
    ensures KeptOf(line, StillActive(lines, on)) ==
      if IsEmitted(lines + [line], |lines|, on) then [TrimLineEnd(line.line.raw)] else []
  {
    StillActiveExactly(lines, on);
    assert forall j | 0 <= j < |lines| :: (lines + [line])[j] == lines[j];
  }

  lemma EmissionNext(emitted: seq<string>, lines: seq<Judged>, line: Judged, on: bool, picked: seq<nat>)
    returns (picked': seq<nat>)
    requires IsEmission(emitted, lines, on, picked)
    ensures IsEmission(emitted + KeptOf(line, StillActive(lines, on)), lines + [line], on, picked')
  {
    var n, after := |lines|, lines + [line];
    EmittedOfNext(lines, line, on);
    LastIsKept(lines, line, on);
    ListsNext(picked, EmittedOf(lines, on), n);
    TextsNext(emitted, lines, line, picked);
    picked' := if IsEmitted(after, n, on) then picked + [n] else picked;
  }

  lemma {:induction false} KeptIsEmission(lines: seq<Judged>, on: bool) returns (picked: seq<nat>)
    ensures IsEmission(Kept(lines, on), lines, on, picked)
  {
    if lines == [] {
      picked := [];
    } else {
      var n := |lines| - 1;
      var front, last := lines[..n], lines[n];
      assert lines == front + [last];
      picked := KeptIsEmission(front, on);
      picked := EmissionNext(Kept(front, on), front, last, on, picked);
    }
  }

  /** What a run emits; with nothing to hide, every line. */
  lemma EmissionOf(lines: seq<TailLine>, on: bool)
    ensures exists picked :: IsEmission(Kept(JudgeAll(lines), on), JudgeAll(lines), on, picked)
    ensures StillActive(JudgeAll(lines), on) <==> on && forall j | 0 <= j < |lines| :: !IsSentinel(Judge(lines[j]))
    ensures !on ==> |Kept(JudgeAll(lines), on)| == |lines|
    ensures !on ==> forall i | 0 <= i < |lines| :: Kept(JudgeAll(lines), on)[i] == TrimLineEnd(lines[i].raw)
  {
    var judged := JudgeAll(lines);
    assert forall j | 0 <= j < |lines| :: judged[j] == Judge(lines[j]);
    StillActiveExactly(judged, on);
    var picked := KeptIsEmission(judged, on);
    if !on {
      ListsAll(picked, EmittedOf(judged, on), |lines|);
    }
  }

  /** The body of the tailer's loop. */
  method EmitLine(line: TailLine, filter: F.RuntimeConsoleFilter?) returns (emitted: seq<string>)
    modifies if filter == null then {} else {filter}
    ensures emitted == KeptOf(Judge(line), old(On(filter)))
    ensures On(filter) == ActiveAfter(Judge(line), old(On(filter)))
  {
    var text := TrimLineEnd(line.raw);
    F.ClassifyTrimmed(line.raw);
    if line.complete && filter != null {
      var keep := filter.KeepLine(text);
      if !keep {
        return [];
      }
    }
    emitted := [text];
  }

  // ----- Nothing is lost or duplicated -----

  function RoundsText(schedule: seq<Round>): string {
    if schedule == [] then ""
    else TextOf(schedule[0].before) + TextOf(schedule[0].between) + RoundsText(schedule[1..])
  }

  function RawOf(line: Option<TailLine>): string {
    if line.Some? then line.value.raw else ""
  }

  function Raws(lines: seq<TailLine>): string {
    if lines == [] then "" else lines[0].raw + Raws(lines[1..])
  }

  lemma Regroup(a: string, b: string, c: string, d: string, e: string)
    requires a + b + c == e
    ensures a + (b + c + d) == e + d
  {
    assert a + (b + c + d) == a + b + c + d;
  }

  lemma Prefix(raw: string, a: string, b: string, c: string, d: string, e: string)
    requires a + b == c + d + e
    ensures raw + a + b == (raw + c) + d + e
  {
    assert raw + a + b == raw + (a + b);
  }

  lemma HeadText(schedule: seq<Round>)
    ensures RoundsText(schedule)
         == TextOf(Head(schedule).before) + TextOf(Head(schedule).between) + RoundsText(Rest(schedule))
  {
    assert EXITED.before[1..] == [];
  }

  lemma {:induction false} NextLineConserves(c: Console, polls: nat, schedule: seq<Round>, cap: Option<nat>,
    settle: nat)
    requires c.Valid()
    ensures var found := NextLine(c, polls, schedule, cap, settle);
      Held(c) + RoundsText(schedule) == RawOf(found.line) + Held(found.c) + RoundsText(found.rest)
    decreases |schedule|, |c.Unread()|, if polls < settle then settle - polls else 0
  {
    var round, rest := Head(schedule), Rest(schedule);
    HeadText(schedule);
    TurnShape(c, polls, round, cap, settle);
    TurnConserves(c, polls, round, cap, settle);
    ExitedTurn(c, polls, cap, settle);
    var turn := TakeTurn(c, polls, round, cap, settle);
    Regroup(Held(c), TextOf(round.before), TextOf(round.between), RoundsText(rest), Emitted(turn) + Held(turn.c));
    assert Held(c) + RoundsText(schedule) == Emitted(turn) + Held(turn.c) + RoundsText(rest);
    if turn.Again? {
      assert Emitted(turn) + Held(turn.c) == Held(turn.c);
      NextLineConserves(turn.c, turn.polls, rest, cap, settle);
    }
  }

  /**
   For every schedule, what was there and what was appended is what was emitted,
   what is still held, and what the producer had yet to append.
   */
  lemma {:induction false} TailConserves(c: Console, schedule: seq<Round>, cap: Option<nat>, settle: nat)
    requires c.Valid()
    ensures var outcome := Tail(c, schedule, cap, settle);
      && outcome.c.Valid()
      && Held(c) + RoundsText(schedule) == Raws(outcome.lines) + Held(outcome.c) + RoundsText(outcome.rest)
    decreases |schedule|, |c.Unread()|, |c.buf|
  {
    var found := NextLine(c, 0, schedule, cap, settle);
    TailStep(c, schedule, cap, settle, found);
    NextLineConserves(c, 0, schedule, cap, settle);
    if found.line.Some? {
      var more := Tail(found.c, found.rest, cap, settle);
      TailConserves(found.c, found.rest, cap, settle);
      assert ([found.line.value] + more.lines)[1..] == more.lines;
      assert Raws([found.line.value] + more.lines) == found.line.value.raw + Raws(more.lines);
      Prefix(found.line.value.raw, Held(found.c), RoundsText(found.rest),
        Raws(more.lines), Held(more.c), RoundsText(more.rest));
    }
  }

  /** Every emitted line is one line; only the last of a stopped console may be unfinished. */
  lemma {:induction false} NextLineShape(c: Console, polls: nat, schedule: seq<Round>, cap: Option<nat>, settle: nat)
    requires c.Valid()
    ensures var found := NextLine(c, polls, schedule, cap, settle);
      if found.line.Some? then
        && AtMostOneLine(found.line.value.raw)
        && (found.line.value.complete <==> EndsLine(found.line.value.raw))
        && (!found.line.value.complete ==> found.c.stop)
      else
        found.c.stop && found.c.buf == "" && found.c.Unread() == TextOf(found.last.between)
    decreases |schedule|, |c.Unread()|, if polls < settle then settle - polls else 0
  {
    var round := Head(schedule);
    TurnShape(c, polls, round, cap, settle);
    ExitedTurn(c, polls, cap, settle);
    var turn := TakeTurn(c, polls, round, cap, settle);
    if turn.Again? {
      NextLineShape(turn.c, turn.polls, Rest(schedule), cap, settle);
    } else if turn.Drained? {
      DrainedUnread(c, polls, round, cap, settle);
    }
  }

  /** What a finishing iteration leaves behind was appended after its last read. */
  lemma DrainedUnread(c: Console, polls: nat, round: Round, cap: Option<nat>, settle: nat)
    requires c.Valid() && TakeTurn(c, polls, round, cap, settle).Drained?
    ensures var turn := TakeTurn(c, polls, round, cap, settle);
      turn.c.pos <= |turn.c.file| && turn.c.Unread() == TextOf(round.between) && polls + 1 >= settle
  {
    var c1 := ActAll(c, round.before);
    ReadLineConserves(c1, cap);
    var c2 := ReadLine(c1, cap);
    ActAllGrows(c2, round.between);
    HeldAfterAppend(c2, ActAll(c2, round.between), TextOf(round.between));
  }

  lemma {:induction false} TailLeaves(c: Console, schedule: seq<Round>, cap: Option<nat>, settle: nat)
    requires c.Valid()
    ensures var outcome := Tail(c, schedule, cap, settle);
      && outcome.c.Valid() && outcome.c.stop && outcome.c.buf == ""
      && outcome.c.Unread() == TextOf(outcome.last.between)
    decreases |schedule|, |c.Unread()|, |c.buf|
  {
    var found := NextLine(c, 0, schedule, cap, settle);
    TailStep(c, schedule, cap, settle, found);
    NextLineShape(c, 0, schedule, cap, settle);
    if found.line.Some? {
      TailLeaves(found.c, found.rest, cap, settle);
    }
  }

  // ----- When a producer is slow, and when it is done -----

  lemma {:induction false} TextOfConcat(a: seq<Action>, b: seq<Action>)
    ensures TextOf(a + b) == TextOf(a) + TextOf(b)
  {
    if a == [] {
      assert a + b == b;
    } else {
      assert (a + b)[1..] == a[1..] + b;
      TextOfConcat(a[1..], b);
    }
  }

  /**
   What a schedule has shown so far: whether the stop flag is set, for how many rounds since
   then no text has arrived, and whether text arrived after the last read.
   */
  datatype Pace = Pace(stopped: bool, idle: nat, late: bool)

  function Onward(pace: Pace, round: Round): Pace {
    var stopped := pace.stopped || Stop in round.before + round.between;
    var arrived := pace.late || TextOf(round.before) != "";
    Pace(stopped, if arrived || !stopped then 0 else pace.idle + 1, TextOf(round.between) != "")
  }

  /** No text follows that many silent rounds after the stop. */
  predicate Timely(pace: Pace, schedule: seq<Round>, patience: nat)
    decreases schedule
  {
    schedule == [] ||
    var next := Onward(pace, schedule[0]);
    && (next.idle >= patience ==> !next.late && RoundsText(schedule[1..]) == "")
    && Timely(next, schedule[1..], patience)
  }

  function AtStart(c: Console): Pace {
    Pace(c.stop, 0, false)
  }

  /** The settle polls that take effect: there is always one. */
  function Patience(settle: nat): nat {
    if settle == 0 then 1 else settle
  }

  /** Everything that was there or is appended is emitted. */
  ghost predicate EmitsAll(c: Console, schedule: seq<Round>, cap: Option<nat>, settle: nat)
    requires c.Valid()
  {
    Raws(Tail(c, schedule, cap, settle).lines) == Held(c) + RoundsText(schedule)
  }

  /** The tailer's state keeps up with what the schedule has shown. */
  ghost predicate Follows(c: Console, polls: nat, pace: Pace)
    requires c.pos <= |c.file|
  {
    pace.stopped == c.stop && polls <= pace.idle && (polls > 0 ==> c.stop) && (pace.late ==> c.Unread() != "")
  }

  /** A silent poll of the tailer is a silent round of the schedule. */
  lemma TurnFollows(c: Console, polls: nat, pace: Pace, round: Round, cap: Option<nat>, settle: nat)
    requires c.Valid() && Follows(c, polls, pace)
    ensures var turn, next := TakeTurn(c, polls, round, cap, settle), Onward(pace, round);
      && turn.c.pos <= |turn.c.file|
      && Follows(turn.c, if turn.Again? then turn.polls else 0, next)
      && (turn.Drained? ==> next.idle >= Patience(settle))
  {
    ActAllGrows(c, round.before);
    var c1 := ActAll(c, round.before);
    HeldAfterAppend(c, c1, TextOf(round.before));
    ReadLineConserves(c1, cap);
    var c2 := ReadLine(c1, cap);
    ActAllGrows(c2, round.between);
    HeldAfterAppend(c2, ActAll(c2, round.between), TextOf(round.between));
  }

  lemma {:induction false} TimelyCallMissesNothing(c: Console, polls: nat, pace: Pace, schedule: seq<Round>,
    cap: Option<nat>, settle: nat) returns (pace': Pace)
    requires c.Valid() && Follows(c, polls, pace) && Timely(pace, schedule, Patience(settle))
    ensures var found := NextLine(c, polls, schedule, cap, settle);
      && Follows(found.c, 0, pace') && Timely(pace', found.rest, Patience(settle))
      && (found.line.None? ==> found.c.Unread() == "" && RoundsText(found.rest) == "")
    decreases |schedule|, |c.Unread()|, if polls < settle then settle - polls else 0
  {
    var round := Head(schedule);
    TurnShape(c, polls, round, cap, settle);
    ExitedTurn(c, polls, cap, settle);
    TurnFollows(c, polls, pace, round, cap, settle);
    var turn := TakeTurn(c, polls, round, cap, settle);
    pace' := Onward(pace, round);
    if turn.Again? {
      pace' := TimelyCallMissesNothing(turn.c, turn.polls, pace', Rest(schedule), cap, settle);
    } else if turn.Drained? {
      DrainedUnread(c, polls, round, cap, settle);
    }
  }

  lemma {:induction false} TimelyTailLeavesNothing(c: Console, pace: Pace, schedule: seq<Round>, cap: Option<nat>,
    settle: nat)
    requires c.Valid() && Follows(c, 0, pace) && Timely(pace, schedule, Patience(settle))
    ensures var outcome := Tail(c, schedule, cap, settle);
      outcome.c.Valid() && outcome.c.Unread() == "" && RoundsText(outcome.rest) == ""
    decreases |schedule|, |c.Unread()|, |c.buf|
  {
    var found := NextLine(c, 0, schedule, cap, settle);
    TailStep(c, schedule, cap, settle, found);
    var pace' := TimelyCallMissesNothing(c, 0, pace, schedule, cap, settle);
    if found.line.Some? {
      TimelyTailLeavesNothing(found.c, pace', found.rest, cap, settle);
    }
  }

  /**
   If no text follows as many silent rounds after the stop as there are settle polls, all of it
   is emitted, late output included: on every console, under every budget.
   */
  lemma TimelyOutputIsEmitted(c: Console, schedule: seq<Round>, cap: Option<nat>, settle: nat)
    requires c.Valid() && Timely(AtStart(c), schedule, Patience(settle))
    ensures EmitsAll(c, schedule, cap, settle)
  {
    TailConserves(c, schedule, cap, settle);
    TailLeaves(c, schedule, cap, settle);
    TimelyTailLeavesNothing(c, AtStart(c), schedule, cap, settle);
    var outcome := Tail(c, schedule, cap, settle);
    assert Raws(outcome.lines) + Held(outcome.c) + "" == Raws(outcome.lines);
  }

  // ----- How much patience is needed -----

  lemma {:induction false} PatienceHelps(pace: Pace, schedule: seq<Round>, less: nat, more: nat)
    requires less <= more && Timely(pace, schedule, less)
    ensures Timely(pace, schedule, more)
    decreases schedule
  {
    if schedule != [] {
      PatienceHelps(Onward(pace, schedule[0]), schedule[1..], less, more);
    }
  }

  /** A producer that stops, stays silent for `n` rounds, and then writes. */
  function Slow(n: nat, text: string): seq<Round> {
    if n == 0 then [Round([Append(text)], [])] else [Round([Stop], [])] + Slow(n - 1, text)
  }

  lemma {:induction false} SlowIsTimely(pace: Pace, n: nat, text: string, patience: nat)
    requires !pace.late && pace.idle + n < patience && (n == 0 ==> pace.stopped)
    ensures Timely(pace, Slow(n, text), patience) && RoundsText(Slow(n, text)) == text
    decreases n
  {
    var schedule := Slow(n, text);
    if n == 0 {
      assert schedule[1..] == [] && [Append(text)][1..] == [];
      assert TextOf([Append(text)]) == text + "";
    } else {
      assert schedule[1..] == Slow(n - 1, text) && [Stop][1..] == [];
      SlowIsTimely(Onward(pace, schedule[0]), n - 1, text, patience);
    }
  }

  /** A silent poll of a tailer that has caught up. */
  lemma SilentTurn(c: Console, polls: nat, cap: Option<nat>, settle: nat)
    requires c.Valid() && Held(c) == ""
    ensures var turn := TakeTurn(c, polls, Round([Stop], []), cap, settle);
      && turn.c.Valid() && Held(turn.c) == ""
      && if polls + 1 < settle then turn == Again(turn.c, polls + 1) else turn.Drained?
  {
    var round := Round([Stop], []);
    ActAllGrows(c, round.before);
    var c1 := ActAll(c, round.before);
    assert [Stop][1..] == [] && TextOf(round.before) == "";
    HeldAfterAppend(c, c1, "");
    ReadLineConserves(c1, cap);
    var c2 := ReadLine(c1, cap);
    assert ActAll(c2, []) == c2 && c2.stop;
  }

  /** A tailer that has caught up gives up after its polls. */
  lemma {:induction false} SlowOutputIsMissed(c: Console, polls: nat, n: nat, text: string, cap: Option<nat>,
    settle: nat)
    requires c.Valid() && Held(c) == "" && n > 0 && polls + n == Patience(settle)
    ensures var found := NextLine(c, polls, Slow(n, text), cap, settle);
      found.line == None && found.rest == Slow(0, text)
    decreases n
  {
    var schedule := Slow(n, text);
    assert schedule[0] == Round([Stop], []) && schedule[1..] == Slow(n - 1, text);
    SilentTurn(c, polls, cap, settle);
    if n > 1 {
      SlowOutputIsMissed(TakeTurn(c, polls, schedule[0], cap, settle).c, polls + 1, n - 1, text, cap, settle);
    }
  }

  /**
   A number of settle polls emits all output of every producer that is never silent for
   `patience` rounds after the stop and then writes, exactly when it is at least that patience.
   */
  lemma EmitsAllExactlyWithPatience(settle: nat, patience: nat)
    requires patience >= 1
    ensures Patience(settle) >= patience <==>
      forall c: Console, schedule, cap | c.Valid() && Timely(AtStart(c), schedule, patience) ::
        EmitsAll(c, schedule, cap, settle)
  {
    if Patience(settle) >= patience {
      forall c: Console, schedule, cap | c.Valid() && Timely(AtStart(c), schedule, patience)
        ensures EmitsAll(c, schedule, cap, settle)
      {
        PatienceHelps(AtStart(c), schedule, patience, Patience(settle));
        TimelyOutputIsEmitted(c, schedule, cap, settle);
      }
    } else {
      var c, n := Console("", 0, "", false), Patience(settle);
      SlowIsTimely(AtStart(c), n, "x", patience);
      SlowOutputIsMissed(c, 0, n, "x", None, settle);
      assert Tail(c, Slow(n, "x"), None, settle).lines == [] && Raws([]) == "";
      assert Held(c) + "x" == "x";
      assert !EmitsAll(c, Slow(n, "x"), None, settle);
    }
  }

  /** The policy for late writes tolerates 24 silent rounds after the stop, the one for a closed writer none. */
  lemma PolicyEmitsAllExactly(policy: EofPolicy, patience: nat)
    requires patience >= 1
    ensures patience <= (if policy == MayReceiveLateWrites then 25 else 1) <==>
      forall c: Console, schedule, cap | c.Valid() && Timely(AtStart(c), schedule, patience) ::
        EmitsAll(c, schedule, cap, SettlePolls(policy))
  {
    EmitsAllExactlyWithPatience(SettlePolls(policy), patience);
  }

  // ----- A producer that has finished when the stop flag is set -----

  predicate FinishedAtStop(stopped: bool, actions: seq<Action>)
    decreases actions
  {
    actions == [] ||
    ((stopped ==> !actions[0].Append?) && FinishedAtStop(stopped || actions[0].Stop?, actions[1..]))
  }

  /** The producer appends nothing after the stop flag is set. */
  predicate WriterFinishes(stopped: bool, schedule: seq<Round>)
    decreases schedule
  {
    schedule == [] ||
    var actions := schedule[0].before + schedule[0].between;
    FinishedAtStop(stopped, actions) && WriterFinishes(stopped || Stop in actions, schedule[1..])
  }

  /** Nothing is appended after a stop. */
  lemma {:induction false} NothingAfterStop(stopped: bool, a: seq<Action>, b: seq<Action>)
    requires FinishedAtStop(stopped, a + b) && (stopped || Stop in a)
    ensures TextOf(b) == ""
    decreases a, b
  {
    if a != [] {
      assert (a + b)[1..] == a[1..] + b;
      NothingAfterStop(stopped || a[0].Stop?, a[1..], b);
    } else if b != [] {
      assert a + b == b;
      assert [] + b[1..] == b[1..];
      NothingAfterStop(true, [], b[1..]);
    }
  }

  lemma {:induction false} FinishedRoundsAreEmpty(schedule: seq<Round>)
    requires WriterFinishes(true, schedule)
    ensures RoundsText(schedule) == ""
  {
    if schedule != [] {
      var actions := schedule[0].before + schedule[0].between;
      assert [] + actions == actions;
      NothingAfterStop(true, [], actions);
      TextOfConcat(schedule[0].before, schedule[0].between);
      FinishedRoundsAreEmpty(schedule[1..]);
    }
  }

  /** The stop flag is not raised in a round after output of that round that the read missed. */
  predicate Calm(round: Round) {
    TextOf(round.between) == "" || Stop !in round.between
  }

  predicate AllCalm(schedule: seq<Round>) {
    forall i | 0 <= i < |schedule| :: Calm(schedule[i])
  }

  /** A finished producer is timely for two polls, and on a calm schedule for one. */
  lemma {:induction false} FinishedIsTimely(pace: Pace, schedule: seq<Round>)
    requires WriterFinishes(pace.stopped, schedule) && (pace.stopped || pace.idle == 0)
    ensures Timely(pace, schedule, 2)
    ensures AllCalm(schedule) ==> Timely(pace, schedule, 1)
    decreases schedule
  {
    if schedule != [] {
      var round, next := schedule[0], Onward(pace, schedule[0]);
      FinishedIsTimely(next, schedule[1..]);
      if next.stopped {
        FinishedRoundsAreEmpty(schedule[1..]);
      }
      if pace.stopped || Stop in round.before {
        NothingAfterStop(pace.stopped, round.before, round.between);
      }
    }
  }

  /** So if the stop flag is never raised right after output the read missed, everything is emitted by any policy. */
  lemma CalmScheduleEmitsAll(c: Console, schedule: seq<Round>, cap: Option<nat>, settle: nat)
    requires c.Valid() && WriterFinishes(c.stop, schedule) && AllCalm(schedule)
    ensures EmitsAll(c, schedule, cap, settle)
  {
    FinishedIsTimely(AtStart(c), schedule);
    PatienceHelps(AtStart(c), schedule, 1, Patience(settle));
    TimelyOutputIsEmitted(c, schedule, cap, settle);
  }

  /** The producer's last output and the stop flag, both after a read. */
  function LateRound(text: string): Round {
    Round([], [Append(text), Stop])
  }

  lemma LateRoundFinishes(text: string)
    ensures WriterFinishes(false, [LateRound(text)]) && RoundsText([LateRound(text)]) == text
    ensures TextOf(LateRound(text).between) == text && Stop in LateRound(text).between
  {
    var actions := [Append(text), Stop];
    assert actions[1..] == [Stop] && [Stop][1..] == [];
    assert TextOf(actions[1..]) == "" && TextOf(actions) == text + "";
    assert [] + actions == actions;
    assert FinishedAtStop(false, actions);
    assert [LateRound(text)][1..] == [];
  }

  /** With one poll, a tailer that has caught up loses output that arrives between its read and its load of the flag. */
  lemma LateOutputIsLost(c: Console, text: string, cap: Option<nat>, settle: nat)
    requires c.Valid() && Held(c) == "" && !c.stop && settle <= 1
    ensures Tail(c, [LateRound(text)], cap, settle).lines == []
  {
    var round := LateRound(text);
    LateRoundFinishes(text);
    ReadLineConserves(c, cap);
    ActAllGrows(ReadLine(c, cap), round.between);
    assert ActAll(c, round.before) == c && c.Unread() == "" && c.buf == "";
    assert TakeTurn(c, 0, round, cap, settle).Drained?;
    assert NextLine(c, 0, [round], cap, settle).line == None;
  }

  /**
   A number of settle polls emits all output of every finished producer, on every console and
   schedule and under every budget, exactly when it is at least two.
   */
  lemma EmitsAllExactlyFromTwoPolls(settle: nat)
    ensures settle >= 2 <==> forall c: Console, schedule, cap | c.Valid() && WriterFinishes(c.stop, schedule) ::
      EmitsAll(c, schedule, cap, settle)
  {
    if settle >= 2 {
      forall c: Console, schedule, cap | c.Valid() && WriterFinishes(c.stop, schedule)
        ensures EmitsAll(c, schedule, cap, settle)
      {
        FinishedIsTimely(AtStart(c), schedule);
        PatienceHelps(AtStart(c), schedule, 2, settle);
        TimelyOutputIsEmitted(c, schedule, cap, settle);
      }
    } else {
      var c, schedule := Console("", 0, "", false), [LateRound("x")];
      LateRoundFinishes("x");
      LateOutputIsLost(c, "x", None, settle);
      assert Raws([]) == "" && Held(c) + "x" == "x";
      assert !EmitsAll(c, schedule, None, settle);
    }
  }
}
