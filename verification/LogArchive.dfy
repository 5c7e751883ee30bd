/** Retention of archived logs of removed boxes (src/cli/src/log_archive.rs). */
module LogArchive {
  import opened Sorting

  /** An archive directory: its path, when its box was removed (in seconds), and its size. */
  datatype Archive = Archive(path: string, removedAt: int, sizeBytes: nat)

  datatype Retention = Retention(maxAgeDays: int, maxArchives: nat, maxTotalBytes: nat)

  const SECONDS_PER_DAY := 86400

  /** Whole days of a signed duration, truncated toward zero. */
  function NumDays(seconds: int): int {
    if seconds >= 0 then seconds / SECONDS_PER_DAY else -((-seconds) / SECONDS_PER_DAY)
  }

  predicate TooOld(archive: Archive, now: int, retention: Retention) {
    NumDays(now - archive.removedAt) > retention.maxAgeDays
  }

  /** In seconds: past the last second of the last day allowed. */
  lemma AgeExactly(archive: Archive, now: int, retention: Retention)
    ensures var age, days := now - archive.removedAt, retention.maxAgeDays;
      TooOld(archive, now, retention) <==> if days >= 0 then age >= (days + 1) * 86400 else age > days * 86400
  {
    var age, days := now - archive.removedAt, retention.maxAgeDays;
    if age >= 0 {
      assert age / 86400 > days <==> age >= (days + 1) * 86400;
    } else {
      assert (-age) / 86400 < -days <==> -age < (-days) * 86400;
    }
  }

  // ----- Reference definition of what is kept -----

  /** The archives that outlive the age limit: the young ones, and those that cannot be removed. */
  function Remaining(archives: seq<Archive>, now: int, retention: Retention, stuck: set<string>): seq<Archive> {
    if archives == [] then []
    else
      var front, last := Remaining(archives[..|archives| - 1], now, retention, stuck), archives[|archives| - 1];
      if TooOld(last, now, retention) && last.path !in stuck then front else front + [last]
  }

  predicate NoNewer(a: Archive, b: Archive) {
    a.removedAt <= b.removedAt
  }

  /** `sort_by_key` by removal time, oldest first. */
  function SortedByAge(archives: seq<Archive>): seq<Archive> {
    SortBy(NoNewer, archives)
  }

  function TotalBytes(archives: seq<Archive>): nat {
    if archives == [] then 0 else archives[0].sizeBytes + TotalBytes(archives[1..])
  }

  predicate WithinLimits(archives: seq<Archive>, retention: Retention) {
    |archives| <= retention.maxArchives && TotalBytes(archives) <= retention.maxTotalBytes
  }

  /** `kept` is the newest archives, and one archive more would break a limit. */
  predicate IsNeededCut(kept: seq<Archive>, sorted: seq<Archive>, retention: Retention) {
    && |kept| <= |sorted| && kept == sorted[|sorted| - |kept|..]
    && (|kept| < |sorted| ==> !WithinLimits(sorted[|sorted| - |kept| - 1..], retention))
  }

  predicate IsLongestNewest(kept: seq<Archive>, sorted: seq<Archive>, retention: Retention) {
    IsNeededCut(kept, sorted, retention) && WithinLimits(kept, retention)
  }

  // ----- The sort -----

  predicate Ascending(archives: seq<Archive>) {
    forall i, j | 0 <= i < j < |archives| :: archives[i].removedAt <= archives[j].removedAt
  }

  /** The sort yields the same archives, oldest first. */
  lemma AgeSortSorts(archives: seq<Archive>)
    ensures Ascending(SortedByAge(archives))
    ensures multiset(SortedByAge(archives)) == multiset(archives)
  {
    SortSorts(NoNewer, archives);
    var sorted := SortedByAge(archives);
    forall i, j | 0 <= i < j < |sorted|
      ensures sorted[i].removedAt <= sorted[j].removedAt
    {
      assert NoNewer(sorted[i], sorted[j]);
    }
  }

  /** Archives removed at the same time keep their order. */
  lemma AgeSortIsStable(archives: seq<Archive>, time: int)
    ensures var atTime := (a: Archive) => a.removedAt == time;
      Filter(atTime, SortedByAge(archives)) == Filter(atTime, archives)
  {
    SortIsStable(NoNewer, (a: Archive) => a.removedAt == time, archives);
  }

  // ----- The longest newest run -----

  lemma {:induction false} SuffixIsSmaller(archives: seq<Archive>, i: nat)
    requires i <= |archives|
    ensures TotalBytes(archives[i..]) <= TotalBytes(archives)
  {
    if i > 0 {
      SuffixIsSmaller(archives[1..], i - 1);
      assert archives[1..][i - 1..] == archives[i..];
    } else {
      assert archives[0..] == archives;
    }
  }

  /** Exactly the runs of newest archives no longer than the kept one are within the limits. */
  lemma LongestNewestIsLongest(kept: seq<Archive>, sorted: seq<Archive>, retention: Retention, i: nat)
    requires IsLongestNewest(kept, sorted, retention)
    requires i <= |sorted|
    ensures WithinLimits(sorted[i..], retention) <==> i >= |sorted| - |kept|
  {
    var cut := |sorted| - |kept|;
    if i >= cut {
      SuffixIsSmaller(sorted[cut..], i - cut);
      assert sorted[cut..][i - cut..] == sorted[i..];
    } else {
      SuffixIsSmaller(sorted[i..], cut - 1 - i);
      assert sorted[i..][cut - 1 - i..] == sorted[cut - 1..];
    }
  }

  lemma CutOneMore(entries: seq<Archive>, sorted: seq<Archive>, retention: Retention)
    requires IsNeededCut(entries, sorted, retention)
    requires entries != [] && !WithinLimits(entries, retention)
    ensures IsNeededCut(entries[1..], sorted, retention)
    ensures multiset(entries[1..]) <= multiset(entries)
  {
    assert entries == [entries[0]] + entries[1..];
    assert entries[1..] == sorted[|sorted| - |entries[1..]|..];
  }

  // ----- Pruning -----

  predicate DistinctPaths(archives: seq<Archive>) {
    forall i, j | 0 <= i < j < |archives| :: archives[i].path != archives[j].path
  }

  lemma DistinctOnce(archives: seq<Archive>, archive: Archive)
    requires DistinctPaths(archives)
    ensures multiset(archives)[archive] <= 1
  {
    OccursOnce((a: Archive) => a.path, archives, archive);
  }

  lemma {:induction false} RemainingIsPart(archives: seq<Archive>, now: int, retention: Retention, stuck: set<string>)
    ensures multiset(Remaining(archives, now, retention, stuck)) <= multiset(archives)
    ensures forall a :: a in Remaining(archives, now, retention, stuck) <==>
      a in archives && (!TooOld(a, now, retention) || a.path in stuck)
  {
    if archives != [] {
      RemainingIsPart(archives[..|archives| - 1], now, retention, stuck);
      assert archives == archives[..|archives| - 1] + [archives[|archives| - 1]];
    }
  }

  predicate IsArchived(archives: seq<Archive>, path: string) {
    exists i | 0 <= i < |archives| :: archives[i].path == path
  }

  // ----- What is left on disk -----

  function OnDisk(archives: seq<Archive>, directories: set<string>): seq<Archive> {
    if archives == [] then []
    else (if archives[0].path in directories then [archives[0]] else []) + OnDisk(archives[1..], directories)
  }

  lemma {:induction false} OnDiskIsPart(archives: seq<Archive>, directories: set<string>)
    ensures forall a :: a in OnDisk(archives, directories) <==> a in archives && a.path in directories
    ensures forall a :: multiset(OnDisk(archives, directories))[a] <= multiset(archives)[a]
  {
    if archives != [] {
      OnDiskIsPart(archives[1..], directories);
      assert archives == [archives[0]] + archives[1..];
    }
  }

  lemma {:induction false} TotalWithout(archives: seq<Archive>, i: nat)
    requires i < |archives|
    ensures TotalBytes(archives) == archives[i].sizeBytes + TotalBytes(archives[..i] + archives[i + 1..])
  {
    var rest := archives[..i] + archives[i + 1..];
    if i == 0 {
      assert rest == archives[1..];
    } else {
      TotalWithout(archives[1..], i - 1);
      assert rest[1..] == archives[1..][..i - 1] + archives[1..][i..];
    }
  }

  lemma WithoutOne(archives: seq<Archive>, i: nat)
    requires i < |archives|
    ensures multiset(archives[..i] + archives[i + 1..]) == multiset(archives) - multiset{archives[i]}
  {
    assert archives == archives[..i] + [archives[i]] + archives[i + 1..];
  }

  /** The total does not depend on the order. */
  lemma {:induction false} SameTotal(a: seq<Archive>, b: seq<Archive>)
    requires multiset(a) == multiset(b)
    ensures |a| == |b| && TotalBytes(a) == TotalBytes(b)
  {
    if a == [] {
      assert |multiset(b)| == 0;
    } else {
      assert a == [a[0]] + a[1..];
      assert a[0] in multiset(b);
      var i :| 0 <= i < |b| && b[i] == a[0];
      var rest := b[..i] + b[i + 1..];
      WithoutOne(b, i);
      assert multiset(a[1..]) == multiset(a) - multiset{a[0]};
      SameTotal(a[1..], rest);
      TotalWithout(b, i);
    }
  }

  /** The three limits, on the archives that are still there; and what was dropped within the age limit is no newer. */
  ghost predicate RespectsRetention(archives: seq<Archive>, now: int, retention: Retention, directories: set<string>) {
    var left := OnDisk(archives, directories);
    && WithinLimits(left, retention)
    && (forall a | a in left :: !TooOld(a, now, retention))
    && (forall a, b | a in left && b in archives && b !in left && !TooOld(b, now, retention) ::
          b.removedAt <= a.removedAt)
  }

  predicate IsKept(archives: seq<Archive>, kept: seq<Archive>, directories: set<string>) {
    forall a | a in archives :: a.path in directories <==> a in kept
  }

  lemma LeftIsKept(archives: seq<Archive>, now: int, retention: Retention, kept: seq<Archive>, directories: set<string>)
    requires DistinctPaths(archives) && IsKept(archives, kept, directories)
    requires IsLongestNewest(kept, SortedByAge(Remaining(archives, now, retention, {})), retention)
    ensures multiset(OnDisk(archives, directories)) == multiset(kept)
    ensures forall a | a in kept :: !TooOld(a, now, retention)
  {
    var left := OnDisk(archives, directories);
    OnDiskIsPart(archives, directories);
    forall a
      ensures multiset(left)[a] == multiset(kept)[a]
      ensures a in kept ==> !TooOld(a, now, retention)
    {
      KeptIsPart(archives, now, retention, kept, a);
      DistinctOnce(archives, a);
      assert a in left <==> a in multiset(left);
      assert a in kept <==> a in multiset(kept);
    }
  }

  /** When every removal succeeded, the disk respects the retention. */
  lemma KeptRunRespectsRetention(archives: seq<Archive>, now: int, retention: Retention, kept: seq<Archive>,
    directories: set<string>)
    requires DistinctPaths(archives) && IsKept(archives, kept, directories)
    requires IsLongestNewest(kept, SortedByAge(Remaining(archives, now, retention, {})), retention)
    ensures RespectsRetention(archives, now, retention, directories)
  {
    var left := OnDisk(archives, directories);
    LeftIsKept(archives, now, retention, kept, directories);
    SameTotal(left, kept);
    forall a
      ensures a in left <==> a in kept
    {
      assert a in left <==> a in multiset(left);
      assert a in kept <==> a in multiset(kept);
    }
    forall a, b | a in left && b in archives && b !in left && !TooOld(b, now, retention)
      ensures b.removedAt <= a.removedAt
    {
      DroppedIsNoNewer(archives, now, retention, kept, a, b);
    }
  }

  lemma RemainingMember(archives: seq<Archive>, now: int, retention: Retention, a: Archive)
    ensures a in Remaining(archives, now, retention, {}) <==> a in archives && !TooOld(a, now, retention)
    ensures multiset(Remaining(archives, now, retention, {}))[a] <= multiset(archives)[a]
  {
    var remaining := Remaining(archives, now, retention, {});
    RemainingIsPart(archives, now, retention, {});
    assert a in remaining <==> a in multiset(remaining);
    assert a in archives <==> a in multiset(archives);
  }

  lemma KeptIsPart(archives: seq<Archive>, now: int, retention: Retention, kept: seq<Archive>, a: Archive)
    requires IsLongestNewest(kept, SortedByAge(Remaining(archives, now, retention, {})), retention)
    ensures multiset(kept)[a] <= multiset(archives)[a]
    ensures a in kept ==> a in archives && !TooOld(a, now, retention)
  {
    var remaining := Remaining(archives, now, retention, {});
    RemainingMember(archives, now, retention, a);
    AgeSortSorts(remaining);
    SuffixIsPart(SortedByAge(remaining), |remaining| - |kept|);
    assert a in remaining <==> a in multiset(remaining);
    assert a in kept <==> a in multiset(kept);
  }

  lemma SuffixIsPart(archives: seq<Archive>, i: nat)
    requires i <= |archives|
    ensures multiset(archives[i..]) <= multiset(archives)
  {
    assert archives == archives[..i] + archives[i..];
  }

  lemma DroppedIsNoNewer(archives: seq<Archive>, now: int, retention: Retention, kept: seq<Archive>,
    left: Archive, dropped: Archive)
    requires IsLongestNewest(kept, SortedByAge(Remaining(archives, now, retention, {})), retention)
    requires left in kept && dropped in archives && dropped !in kept && !TooOld(dropped, now, retention)
    ensures dropped.removedAt <= left.removedAt
  {
    var remaining := Remaining(archives, now, retention, {});
    var sorted := SortedByAge(remaining);
    RemainingIsPart(archives, now, retention, {});
    AgeSortSorts(remaining);
    var j :| 0 <= j < |kept| && kept[j] == left;
    assert sorted[|sorted| - |kept| + j] == left;
    assert dropped in multiset(remaining) && dropped in sorted;
    var i :| 0 <= i < |sorted| && sorted[i] == dropped;
  }

  /** The archive directory: `directories` are the archives on disk, `stuck` those whose removal fails. */
  class ArchiveRoot {
    var directories: set<string>
    const stuck: set<string>

    constructor (directories: set<string>, stuck: set<string>)
      ensures this.directories == directories && this.stuck == stuck
    {
      this.directories, this.stuck := directories, stuck;
    }

    method RemoveDirectory(path: string) returns (ok: bool)
      requires path in directories
      modifies this
      ensures ok == (path !in stuck)
      ensures directories == if ok then old(directories) - {path} else old(directories)
    {
      ok := path !in stuck;
      if ok {
        directories := directories - {path};
      }
    }

    /** Of the archives, exactly the kept and the stuck ones are on disk. */
    ghost predicate Holds(archives: seq<Archive>, kept: seq<Archive>)
      reads this
    {
      forall a | a in archives :: a.path in directories <==> a in kept || a.path in stuck
    }

    /** Only archives were removed since there were `before` directories, `removed` of them. */
    ghost predicate Removed(archives: seq<Archive>, before: set<string>, removed: nat)
      reads this
    {
      && directories <= before && |directories| + removed == |before|
      && forall path | path in before && path !in directories :: IsArchived(archives, path)
    }

    /** The age pass has seen the first `i` archives. */
    ghost predicate Swept(archives: seq<Archive>, i: nat, now: int, retention: Retention)
      requires i <= |archives|
      reads this
    {
      && (forall k | i <= k < |archives| :: archives[k].path in directories)
      && (forall k | 0 <= k < i ::
            archives[k].path in directories <==> !TooOld(archives[k], now, retention) || archives[k].path in stuck)
    }

    /** One round of the age pass. */
    method Expire(archives: seq<Archive>, i: nat, now: int, retention: Retention, ghost before: set<string>,
      removed: nat) returns (keep: bool, removed': nat)
      requires i < |archives| && DistinctPaths(archives)
      requires Swept(archives, i, now, retention) && Removed(archives, before, removed)
      modifies this
      ensures keep <==> !TooOld(archives[i], now, retention) || archives[i].path in stuck
      ensures Swept(archives, i + 1, now, retention) && Removed(archives, before, removed')
    {
      keep, removed' := true, removed;
      if TooOld(archives[i], now, retention) {
        var ok := RemoveDirectory(archives[i].path);
        if ok {
          keep, removed' := false, removed + 1;
        }
      }
    }

    /** The age pass. */
    method RemoveExpired(archives: seq<Archive>, now: int, retention: Retention)
      returns (kept: seq<Archive>, removed: nat)
      requires DistinctPaths(archives)
      requires forall a | a in archives :: a.path in directories
      modifies this
      ensures kept == Remaining(archives, now, retention, stuck)
      ensures Holds(archives, kept) && Removed(archives, old(directories), removed)
    {
      kept, removed := [], 0;
      for i := 0 to |archives|
        invariant kept == Remaining(archives[..i], now, retention, stuck)
        invariant Swept(archives, i, now, retention) && Removed(archives, old(directories), removed)
      {
        assert archives[..i + 1][..i] == archives[..i];
        var keep;
        keep, removed := Expire(archives, i, now, retention, old(directories), removed);
        if keep {
          kept := kept + [archives[i]];
        }
      }
      assert archives[..|archives|] == archives;
      RemainingIsPart(archives, now, retention, stuck);
    }

    /** Takes the oldest entry off the list and removes its directory. */
    method RemoveOldest(ghost archives: seq<Archive>, ghost before: set<string>, entries: seq<Archive>, removed: nat)
      returns (rest: seq<Archive>, removed': nat)
      requires entries != [] && multiset(entries) <= multiset(archives) && DistinctPaths(archives)
      requires Holds(archives, entries) && Removed(archives, before, removed)
      modifies this
      ensures rest == entries[1..]
      ensures Holds(archives, rest) && Removed(archives, before, removed')
    {
      var entry := entries[0];
      rest := entries[1..];
      assert entries == [entry] + rest;
      DistinctOnce(archives, entry);
      assert multiset(entries)[entry] <= 1;
      assert entry in entries && entry !in rest && entry in archives;
      var ok := RemoveDirectory(entry.path);
      removed' := if ok then removed + 1 else removed;
    }

    /** The count pass. */
    method EnforceCount(ghost archives: seq<Archive>, ghost before: set<string>, sorted: seq<Archive>,
      retention: Retention, removed: nat) returns (entries: seq<Archive>, removed': nat)
      requires multiset(sorted) <= multiset(archives) && DistinctPaths(archives)
      requires Holds(archives, sorted) && Removed(archives, before, removed)
      modifies this
      ensures IsNeededCut(entries, sorted, retention) && |entries| <= retention.maxArchives
      ensures multiset(entries) <= multiset(archives)
      ensures Holds(archives, entries) && Removed(archives, before, removed')
    {
      entries, removed' := sorted, removed;
      while |entries| > retention.maxArchives
        invariant IsNeededCut(entries, sorted, retention) && multiset(entries) <= multiset(archives)
        invariant Holds(archives, entries) && Removed(archives, before, removed')
      {
        CutOneMore(entries, sorted, retention);
        entries, removed' := RemoveOldest(archives, before, entries, removed');
      }
    }

    /** The size pass. */
    method EnforceSize(ghost archives: seq<Archive>, ghost before: set<string>, ghost sorted: seq<Archive>,
      list: seq<Archive>, retention: Retention, removed: nat) returns (entries: seq<Archive>, removed': nat)
      requires IsNeededCut(list, sorted, retention) && |list| <= retention.maxArchives
      requires multiset(list) <= multiset(archives) && DistinctPaths(archives)
      requires Holds(archives, list) && Removed(archives, before, removed)
      modifies this
      ensures IsLongestNewest(entries, sorted, retention)
      ensures Holds(archives, entries) && Removed(archives, before, removed')
    {
      entries, removed' := list, removed;
      var totalBytes := TotalBytes(entries);
      while totalBytes > retention.maxTotalBytes && entries != []
        invariant totalBytes == TotalBytes(entries) && |entries| <= retention.maxArchives
        invariant IsNeededCut(entries, sorted, retention) && multiset(entries) <= multiset(archives)
        invariant Holds(archives, entries) && Removed(archives, before, removed')
        decreases |entries|
      {
        CutOneMore(entries, sorted, retention);
        totalBytes := totalBytes - entries[0].sizeBytes;
        entries, removed' := RemoveOldest(archives, before, entries, removed');
      }
    }

    /**
     `prune_archives`. The list that remains is the longest run of newest archives within
     both limits; of the archives exactly that run and the stuck ones are still on disk;
     nothing else was removed, and the result counts the removals. When no removal failed, what
     is left on disk respects the age, count and size limits.
     */
    method PruneArchives(archives: seq<Archive>, now: int, retention: Retention)
      returns (entries: seq<Archive>, removed: nat)
      requires DistinctPaths(archives)
      requires forall a | a in archives :: a.path in directories
      modifies this
      ensures IsLongestNewest(entries, SortedByAge(Remaining(archives, now, retention, stuck)), retention)
      ensures Holds(archives, entries) && Removed(archives, old(directories), removed)
      ensures stuck == {} ==> RespectsRetention(archives, now, retention, directories)
    {
      entries, removed := RemoveExpired(archives, now, retention);
      RemainingIsPart(archives, now, retention, stuck);
      AgeSortSorts(entries);
      var sorted := SortedByAge(entries);
      assert forall a | a in archives :: a in entries <==> a in multiset(entries);
      assert forall a | a in archives :: a in sorted <==> a in multiset(sorted);
      entries, removed := EnforceCount(archives, old(directories), sorted, retention, removed);
      entries, removed := EnforceSize(archives, old(directories), sorted, entries, retention, removed);
      if stuck == {} {
        assert IsKept(archives, entries, directories);
        KeptRunRespectsRetention(archives, now, retention, entries, directories);
      }
    }
  }

}
