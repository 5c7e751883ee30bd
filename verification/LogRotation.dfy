/**
 The structured log file: timestamped entries and size-based rotation
 (src/core/src/log.rs). Compression is the identity on contents; file operations succeed.
 */
module LogRotation {
  import opened Text

  datatype LogEntry = LogEntry(log: string, stream: string, time: int)

  // ----- Rotation on values -----

  /** The active file and the rotated segments, newest first: `segments[i]` is file `.{i+1}.gz`. */
  datatype Log = Log(active: seq<LogEntry>, written: nat, segments: seq<seq<LogEntry>>) {
    function History(): seq<LogEntry> {
      Contents(segments, active)
    }
  }

  datatype Limits = Limits(maxSize: nat, maxFile: nat, sizeOf: LogEntry -> nat) {
    /** How many rotated segments survive. */
    function Keep(): nat {
      if maxFile <= 2 then 1 else maxFile - 1
    }
  }

  function Newest<T>(s: seq<T>, n: nat): seq<T> {
    if |s| <= n then s else s[..n]
  }

  /** Append to the active file; hand it over as a full segment when it reached the size limit. */
  function Append(log: Log, entry: LogEntry, limits: Limits): Log {
    var active, written := log.active + [entry], log.written + limits.sizeOf(entry);
    if written >= limits.maxSize
    then Log([], 0, [active] + log.segments)
    else Log(active, written, log.segments)
  }

  /** What is written to disk: as `Append`, keeping only the newest segments. */
  function Written(log: Log, entry: LogEntry, limits: Limits): Log {
    var full := Append(log, entry, limits);
    full.(segments := if |full.segments| > |log.segments| then Newest(full.segments, limits.Keep()) else full.segments)
  }

  function WrittenAll(log: Log, entries: seq<LogEntry>, limits: Limits): Log {
    if entries == [] then log
    else Written(WrittenAll(log, entries[..|entries| - 1], limits), entries[|entries| - 1], limits)
  }

  /** The same history with nothing ever dropped. */
  function AppendAll(log: Log, entries: seq<LogEntry>, limits: Limits): Log {
    if entries == [] then log
    else Append(AppendAll(log, entries[..|entries| - 1], limits), entries[|entries| - 1], limits)
  }

  /** A log's contents, oldest entry first. */
  function Contents(segments: seq<seq<LogEntry>>, active: seq<LogEntry>): seq<LogEntry> {
    if segments == [] then active else Contents(segments[1..], segments[0]) + active
  }

  predicate IsSuffix<T(==)>(s: seq<T>, t: seq<T>) {
    |s| <= |t| && t[|t| - |s|..] == s
  }

  // ----- Nothing is lost but whole old segments -----

  /** Without retention, rotation only cuts the history into segments. */
  lemma {:induction false} AppendAllHoldsHistory(start: Log, entries: seq<LogEntry>, limits: Limits)
    ensures AppendAll(start, entries, limits).History() == start.History() + entries
  {
    if entries != [] {
      var front, last := entries[..|entries| - 1], entries[|entries| - 1];
      AppendAllHoldsHistory(start, front, limits);
      var log := AppendAll(start, front, limits);
      ContentsAppend(log.segments, log.active, [last]);
      assert start.History() + entries == (start.History() + front) + [last];
      var full := [log.active + [last]] + log.segments;
      assert full[1..] == log.segments;
      assert Contents(full, []) == Contents(log.segments, log.active + [last]) + [];
    }
  }

  lemma ContentsAppend(segments: seq<seq<LogEntry>>, active: seq<LogEntry>, more: seq<LogEntry>)
    ensures Contents(segments, active + more) == Contents(segments, active) + more
  {
  }

  /** The files on disk are the newest segments of the full history, and the same active file. */
  lemma {:induction false} RetentionIsNewest(start: Log, entries: seq<LogEntry>, limits: Limits)
    requires |start.segments| <= limits.Keep()
    ensures var kept, full := WrittenAll(start, entries, limits), AppendAll(start, entries, limits);
      kept == full.(segments := Newest(full.segments, limits.Keep()))
  {
    if entries != [] {
      RetentionIsNewest(start, entries[..|entries| - 1], limits);
    }
  }

  lemma {:induction false} DroppingKeepsSuffix(segments: seq<seq<LogEntry>>, active: seq<LogEntry>, n: nat)
    ensures IsSuffix(Contents(Newest(segments, n), active), Contents(segments, active))
  {
    if segments != [] && n > 0 {
      var kept := Newest(segments, n);
      DroppingKeepsSuffix(segments[1..], segments[0], n - 1);
      assert kept[1..] == Newest(segments[1..], n - 1);
      SuffixAppend(Contents(kept[1..], segments[0]), Contents(segments[1..], segments[0]), active);
    } else if segments != [] {
      assert Newest(segments, n) == [];
    }
  }

  lemma SuffixAppend<T>(s: seq<T>, t: seq<T>, u: seq<T>)
    requires IsSuffix(s, t)
    ensures IsSuffix(s + u, t + u)
  {
    var cut := |t| - |s|;
    assert (t + u)[cut..] == t[cut..] + u;
  }

  /**
   After any run of writes there are at most `max(1, max_file - 1)` segments, and they with the
   active file are a suffix of what was there before and everything written since.
   */
  lemma RotationKeepsSuffix(start: Log, entries: seq<LogEntry>, limits: Limits)
    requires |start.segments| <= limits.Keep()
    ensures var log := WrittenAll(start, entries, limits);
      && |log.segments| <= (if limits.maxFile <= 2 then 1 else limits.maxFile - 1)
      && (|log.segments| < |AppendAll(start, entries, limits).segments| ==> |log.segments| == limits.Keep())
      && IsSuffix(log.History(), start.History() + entries)
  {
    var full := AppendAll(start, entries, limits);
    RetentionIsNewest(start, entries, limits);
    AppendAllHoldsHistory(start, entries, limits);
    DroppingKeepsSuffix(full.segments, full.active, limits.Keep());
  }

  function Size(entries: seq<LogEntry>, limits: Limits): nat {
    if entries == [] then 0 else Size(entries[..|entries| - 1], limits) + limits.sizeOf(entries[|entries| - 1])
  }

  /** A segment reached the size limit with its last entry, not before. */
  predicate JustFull(segment: seq<LogEntry>, limits: Limits) {
    && segment != []
    && Size(segment, limits) >= limits.maxSize
    && (|segment| > 1 ==> Size(segment[..|segment| - 1], limits) < limits.maxSize)
  }

  /** Starting from an empty file, every segment was cut exactly when it became full. */
  lemma {:induction false} SegmentsAreJustFull(entries: seq<LogEntry>, limits: Limits)
    ensures var log := AppendAll(Log([], 0, []), entries, limits);
      && log.written == Size(log.active, limits)
      && (log.active != [] ==> log.written < limits.maxSize)
      && (forall i | 0 <= i < |log.segments| :: JustFull(log.segments[i], limits))
  {
    if entries != [] {
      var front, last := entries[..|entries| - 1], entries[|entries| - 1];
      SegmentsAreJustFull(front, limits);
      var log := AppendAll(Log([], 0, []), front, limits);
      assert (log.active + [last])[..|log.active|] == log.active;
    }
  }

  // ----- Files -----

  /** The rotated files: `.1.gz` to `.k.gz`, holding the segments in order. */
  ghost predicate AreFiles(files: map<nat, seq<LogEntry>>, segments: seq<seq<LogEntry>>) {
    && (forall i: nat :: i in files <==> 1 <= i <= |segments|)
    && (forall j | 0 <= j < |segments| :: files[j + 1] == segments[j])
  }

  /** Midway through the renames: files from `gap` on have moved up by one. */
  ghost predicate AreShifted(files: map<nat, seq<LogEntry>>, segments: seq<seq<LogEntry>>, gap: nat) {
    && (forall i: nat :: i in files <==> (1 <= i < gap && i <= |segments|) || gap < i <= |segments| + 1)
    && (forall j | 0 <= j < |segments| ::
          if j + 1 < gap then files[j + 1] == segments[j] else files[j + 2] == segments[j])
  }

  /** Rename file `i` to `i + 1` if it exists. */
  function Rename(files: map<nat, seq<LogEntry>>, i: nat): map<nat, seq<LogEntry>> {
    if i in files then files[i + 1 := files[i]] - {i} else files
  }

  lemma RenameMovesGap(files: map<nat, seq<LogEntry>>, segments: seq<seq<LogEntry>>, gap: nat)
    requires gap >= 2 && AreShifted(files, segments, gap)
    ensures AreShifted(Rename(files, gap - 1), segments, gap - 1)
  {
    var files' := Rename(files, gap - 1);
    forall j | 0 <= j < |segments|
      ensures if j + 1 < gap - 1
              then j + 1 in files' && files'[j + 1] == segments[j]
              else j + 2 in files' && files'[j + 2] == segments[j]
    {
    }
  }

  /** After the last rename: drop a file numbered `maxFile`, then write number 1. */
  lemma RotationEnds(files: map<nat, seq<LogEntry>>, segments: seq<seq<LogEntry>>, active: seq<LogEntry>,
    limits: Limits)
    requires |segments| <= limits.Keep()
    requires if limits.maxFile >= 2 then AreShifted(files, segments, 1) else AreFiles(files, segments)
    ensures AreFiles((files - {limits.maxFile})[1 := active], Newest([active] + segments, limits.Keep()))
  {
    var files', segments' := (files - {limits.maxFile})[1 := active], Newest([active] + segments, limits.Keep());
    forall j | 0 <= j < |segments'|
      ensures j + 1 in files' && files'[j + 1] == segments'[j]
    {
      if j > 0 {
        assert segments'[j] == segments[j - 1];
      }
    }
  }

  class RotatingWriter {
    const limits: Limits
    var active: seq<LogEntry>
    var written: nat
    var rotated: map<nat, seq<LogEntry>>
    ghost var segments: seq<seq<LogEntry>>

    ghost predicate Valid()
      reads this
    {
      AreFiles(rotated, segments) && |segments| <= limits.Keep()
    }

    ghost function View(): Log
      reads this
    {
      Log(active, written, segments)
    }

    /** Opens a log as an earlier writer may have left it. */
    constructor (limits: Limits, active: seq<LogEntry>, written: nat, rotated: map<nat, seq<LogEntry>>,
      ghost segments: seq<seq<LogEntry>>)
      requires AreFiles(rotated, segments) && |segments| <= limits.Keep()
      ensures this.limits == limits && Valid() && View() == Log(active, written, segments)
    {
      this.limits := limits;
      this.active := active;
      this.written := written;
      this.rotated := rotated;
      this.segments := segments;
    }

    method WriteLine(entry: LogEntry)
      requires Valid()
      modifies this
      ensures Valid()
      ensures View() == Written(old(View()), entry, limits)
      ensures
        if old(written) + limits.sizeOf(entry) >= limits.maxSize then active == [] && written == 0
        else active == old(active) + [entry] && written == old(written) + limits.sizeOf(entry)
    {
      active := active + [entry];
      written := written + limits.sizeOf(entry);
      if written >= limits.maxSize {
        Rotate();
      }
    }

    /** The renames, from the highest number down. */
    method ShiftFiles()
      requires Valid()
      modifies this`rotated
      ensures if limits.maxFile >= 2 then AreShifted(rotated, segments, 1) else rotated == old(rotated)
    {
      if limits.maxFile >= 2 {
        assert AreShifted(rotated, segments, limits.maxFile);
        var i := limits.maxFile - 1;
        while i >= 1
          invariant 0 <= i < limits.maxFile
          invariant AreShifted(rotated, segments, i + 1)
        {
          RenameMovesGap(rotated, segments, i + 1);
          if i in rotated {
            rotated := rotated[i + 1 := rotated[i]] - {i};
          }
          i := i - 1;
        }
      }
    }

    /** Shift the rotated files up by one, drop the oldest, and make the active file number 1. */
    method Rotate()
      requires Valid()
      modifies this
      ensures Valid()
      ensures View() == Log([], 0, Newest([old(active)] + old(segments), limits.Keep()))
    {
      ShiftFiles();
      RotationEnds(rotated, segments, active, limits);
      rotated := rotated - {limits.maxFile};
      rotated := rotated[1 := active];
      segments := Newest([active] + segments, limits.Keep());
      active := [];
      written := 0;
    }
  }

  // ----- Timestamps -----

  datatype Input = Input(line: string, stream: string, time: int)

  /** A timestamp never goes back behind the previous one. */
  function Stamp(last: Option<int>, time: int): int {
    if last.Some? && last.value > time then last.value else time
  }

  function EntryOf(last: Option<int>, input: Input): LogEntry {
    LogEntry(input.line + "\n", input.stream, Stamp(last, input.time))
  }

  /** The entries a fresh writer makes of a sequence of inputs. */
  function Entries(inputs: seq<Input>): (entries: seq<LogEntry>)
    ensures |entries| == |inputs|
  {
    if inputs == [] then []
    else
      var front := Entries(inputs[..|inputs| - 1]);
      front + [EntryOf(LastTime(front), inputs[|inputs| - 1])]
  }

  function LastTime(entries: seq<LogEntry>): Option<int> {
    if entries == [] then None else Some(entries[|entries| - 1].time)
  }

  class OrderedJsonWriter {
    const output: RotatingWriter
    var lastTimestamp: Option<int>

    constructor (output: RotatingWriter)
      ensures this.output == output && lastTimestamp == None
    {
      this.output := output;
      lastTimestamp := None;
    }

    method WriteEntry(input: Input)
      requires output.Valid()
      modifies this, output
      ensures output.Valid()
      ensures output.View() == Written(old(output.View()), EntryOf(old(lastTimestamp), input), output.limits)
      ensures lastTimestamp == Some(Stamp(old(lastTimestamp), input.time))
    {
      var time := input.time;
      if lastTimestamp.Some? && lastTimestamp.value > time {
        time := lastTimestamp.value;
      }
      var entry := LogEntry(input.line + "\n", input.stream, time);
      lastTimestamp := Some(time);
      output.WriteLine(entry);
    }

    /** Everything a fresh writer receives ends up in the log as `Entries` says. */
    method WriteInputs(inputs: seq<Input>)
      requires output.Valid() && lastTimestamp == None
      modifies this, output
      ensures output.Valid()
      ensures output.View() == WrittenAll(old(output.View()), Entries(inputs), output.limits)
    {
      assert inputs[..0] == [];
      for i := 0 to |inputs|
        invariant output.Valid()
        invariant lastTimestamp == LastTime(Entries(inputs[..i]))
        invariant output.View() == WrittenAll(old(output.View()), Entries(inputs[..i]), output.limits)
      {
        var front := Entries(inputs[..i]);
        assert inputs[..i + 1][..i] == inputs[..i];
        var entries := Entries(inputs[..i + 1]);
        assert entries[..|entries| - 1] == front;
        WriteEntry(inputs[i]);
      }
      assert inputs[..|inputs|] == inputs;
    }
  }

  /** Timestamps do not decrease along the log, and none is earlier than its own input. */
  lemma {:induction false} TimesNonDecreasing(inputs: seq<Input>)
    ensures var entries := Entries(inputs);
      && (forall i, j | 0 <= i < j < |entries| :: entries[i].time <= entries[j].time)
      && (forall i | 0 <= i < |entries| :: inputs[i].time <= entries[i].time)
  {
    if inputs != [] {
      TimesNonDecreasing(inputs[..|inputs| - 1]);
    }
  }

  /** Each timestamp is that of some input received so far. */
  lemma {:induction false} TimesComeFromInputs(inputs: seq<Input>, i: nat) returns (j: nat)
    requires i < |inputs|
    ensures j <= i && Entries(inputs)[i].time == inputs[j].time
  {
    var front := inputs[..|inputs| - 1];
    if i < |front| {
      j := TimesComeFromInputs(front, i);
    } else if Entries(inputs)[i].time == inputs[i].time {
      j := i;
    } else {
      j := TimesComeFromInputs(front, i - 1);
    }
  }

  /** Each entry carries its own input's text and stream. */
  lemma {:induction false} EntriesCarryInputs(inputs: seq<Input>, i: nat)
    requires i < |inputs|
    ensures Entries(inputs)[i].log == inputs[i].line + "\n" && Entries(inputs)[i].stream == inputs[i].stream
  {
    if i < |inputs| - 1 {
      EntriesCarryInputs(inputs[..|inputs| - 1], i);
    }
  }
}
