/** String operations the Rust standard library supplies to the modelled code. */
module Text {

  datatype Option<+T> = None | Some(value: T)

  // ----- Lexicographic order (the `Ord` of `String`) and sorted key lists -----

  predicate Leq(a: string, b: string) {
    a == [] || (b != [] && (a[0] < b[0] || (a[0] == b[0] && Leq(a[1..], b[1..]))))
  }

  lemma {:induction false} LeqAntisymmetric(a: string, b: string)
    requires Leq(a, b) && Leq(b, a)
    ensures a == b
  {
    if a != [] {
      LeqAntisymmetric(a[1..], b[1..]);
      assert a == [a[0]] + a[1..] && b == [b[0]] + b[1..];
    }
  }

  lemma {:induction false} LeqTotal(a: string, b: string)
    ensures Leq(a, b) || Leq(b, a)
  {
    if a != [] && b != [] {
      LeqTotal(a[1..], b[1..]);
    }
  }

  lemma {:induction false} LeqTransitive(a: string, b: string, c: string)
    requires Leq(a, b) && Leq(b, c)
    ensures Leq(a, c)
  {
    if a != [] && a[0] == b[0] == c[0] {
      LeqTransitive(a[1..], b[1..], c[1..]);
    }
  }

  predicate IsLeast(m: string, s: set<string>) {
    m in s && forall y | y in s :: Leq(m, y)
  }

  lemma {:induction false} LeastExists(s: set<string>) returns (m: string)
    requires s != {}
    ensures IsLeast(m, s)
    decreases |s|
  {
    m :| m in s;
    LeqTotal(m, m);
    if s != {m} {
      var rest := s - {m};
      assert s == rest + {m};
      var k := LeastExists(rest);
      LeqTotal(m, k);
      forall y | y in s && Leq(m, k)
        ensures Leq(m, y)
      {
        if y != m {
          LeqTransitive(m, k, y);
        }
      }
      if !Leq(m, k) {
        m := k;
      }
    }
  }

  predicate StrictlySorted(names: seq<string>) {
    forall i, j | 0 <= i < j < |names| :: names[i] != names[j] && Leq(names[i], names[j])
  }

  /** The keys of a hash map, collected and sorted. */
  function SortedKeys(s: set<string>): (names: seq<string>)
    ensures forall x :: x in names <==> x in s
    ensures StrictlySorted(names)
    decreases |s|
  {
    if s == {} then [] else
    assert exists m :: IsLeast(m, s) by {
      var m := LeastExists(s);
    }
    assert forall m, k | IsLeast(m, s) && IsLeast(k, s) :: m == k by {
      forall m, k | IsLeast(m, s) && IsLeast(k, s)
        ensures m == k
      {
        LeqAntisymmetric(m, k);
      }
    }
    var m :| IsLeast(m, s);
    [m] + SortedKeys(s - {m})
  }

  // ----- Searching and trimming -----

  /** `strip_prefix`. */
  function StripPrefix(s: string, prefix: string): Option<string> {
    if prefix <= s then Some(s[|prefix|..]) else None
  }

  /** `strip_suffix`. */
  function StripSuffix(s: string, suffix: string): Option<string> {
    if |suffix| <= |s| && s[|s| - |suffix|..] == suffix then Some(s[..|s| - |suffix|]) else None
  }

  datatype Pair = Pair(before: string, after: string)

  /** `split_once`: around the first occurrence of the separator. */
  function SplitOnce(s: string, separator: string): (r: Option<Pair>)
    ensures r.Some? ==> s == r.value.before + separator + r.value.after
  {
    if separator <= s then
      assert s == separator + s[|separator|..];
      assert "" + separator == separator;
      Some(Pair("", s[|separator|..]))
    else if s == "" then
      None
    else
      var rest := SplitOnce(s[1..], separator);
      if rest.None? then None else
      SplitLater(s, rest.value, separator);
      Some(Pair([s[0]] + rest.value.before, rest.value.after))
  }

  lemma SplitLater(s: string, rest: Pair, separator: string)
    requires s != "" && s[1..] == rest.before + separator + rest.after
    ensures s == [s[0]] + rest.before + separator + rest.after
  {
    assert s == [s[0]] + s[1..];
  }

  /** `part` stands in `s` at position `i`. */
  predicate OccursAt(s: string, part: string, i: nat) {
    i + |part| <= |s| && s[i..i + |part|] == part
  }

  predicate OccursBefore(s: string, part: string, n: nat) {
    exists i: nat | i < n :: OccursAt(s, part, i)
  }

  lemma OccursLater(s: string, part: string, i: nat)
    requires s != "" && i > 0
    ensures OccursAt(s, part, i) <==> OccursAt(s[1..], part, i - 1)
  {
    if i + |part| <= |s| {
      assert s[1..][i - 1..i - 1 + |part|] == s[i..i + |part|];
    }
  }

  /** A split is around the first occurrence, and fails only if there is none. */
  lemma {:induction false} SplitOnceIsFirst(s: string, separator: string)
    ensures var r := SplitOnce(s, separator);
      if r.Some? then !OccursBefore(s, separator, |r.value.before|) else !OccursBefore(s, separator, |s| + 1)
  {
    if !(separator <= s) {
      assert !OccursAt(s, separator, 0);
      if s != "" {
        SplitOnceIsFirst(s[1..], separator);
        forall i: nat | i > 0 && OccursAt(s, separator, i)
          ensures OccursAt(s[1..], separator, i - 1)
        {
          OccursLater(s, separator, i);
        }
      }
    }
  }

  /** So a string is split where the separator first occurs. */
  lemma SplitOnceAt(before: string, separator: string, after: string)
    requires !OccursBefore(before + separator + after, separator, |before|)
    ensures SplitOnce(before + separator + after, separator) == Some(Pair(before, after))
  {
    var s := before + separator + after;
    SplitOnceIsFirst(s, separator);
    assert OccursAt(s, separator, |before|);
    var r := SplitOnce(s, separator).value;
    assert OccursAt(s, separator, |r.before|) by {
      assert s == r.before + separator + r.after;
    }
    assert |r.before| == |before|;
    assert before == s[..|before|] && after == s[|before| + |separator|..];
  }

  /** `rsplit_once`: around the last occurrence of the separator. */
  function RSplitOnce(s: string, separator: string): (r: Option<Pair>)
    ensures r.Some? ==> s == r.value.before + separator + r.value.after
  {
    if |separator| <= |s| && s[|s| - |separator|..] == separator then
      assert s == s[..|s| - |separator|] + separator + "";
      Some(Pair(s[..|s| - |separator|], ""))
    else if s == "" then
      None
    else
      var last := [s[|s| - 1]];
      var rest := RSplitOnce(s[..|s| - 1], separator);
      if rest.None? then None else
      assert s == s[..|s| - 1] + last == rest.value.before + separator + (rest.value.after + last);
      Some(Pair(rest.value.before, rest.value.after + last))
  }

  /** `trim_end_matches(['\n', '\r'])`. */
  function TrimLineEnd(s: string): (r: string)
    ensures r <= s
    ensures r != "" ==> r[|r| - 1] != '\n' && r[|r| - 1] != '\r'
    ensures forall i | |r| <= i < |s| :: s[i] in "\n\r"
  {
    if s != "" && s[|s| - 1] in "\n\r" then TrimLineEnd(s[..|s| - 1]) else s
  }

  // ----- Splitting at a character -----

  /** `split(separator)`. */
  function Split(s: string, separator: char): (items: seq<string>)
    ensures items != []
  {
    if s == "" then [""]
    else if s[0] == separator then [""] + Split(s[1..], separator)
    else Extend(s[0], Split(s[1..], separator))
  }

  function Extend(c: char, items: seq<string>): (r: seq<string>)
    requires items != []
    ensures |r| == |items|
  {
    [[c] + items[0]] + items[1..]
  }

  lemma ExtendFirst(c: char, a: seq<string>, b: seq<string>)
    requires a != []
    ensures Extend(c, a + b) == Extend(c, a) + b
  {
    assert (a + b)[1..] == a[1..] + b;
  }

  lemma Regroup<T>(a: seq<T>, b: seq<T>, c: seq<T>)
    ensures a + (b + c) == a + b + c
  {
  }

  /** A separator is where a split splits. */
  lemma {:induction false} SplitAround(a: string, tail: string, separator: char)
    requires tail != "" && tail[0] == separator
    ensures Split(a + tail, separator) == Split(a, separator) + Split(tail[1..], separator)
  {
    if a == "" {
      assert a + tail == tail;
    } else {
      SplitAround(a[1..], tail, separator);
      assert (a + tail)[1..] == a[1..] + tail;
      var first, rest := Split(a[1..], separator), Split(tail[1..], separator);
      if a[0] == separator {
        Regroup([""], first, rest);
      } else {
        ExtendFirst(a[0], first, rest);
      }
    }
  }

  lemma {:induction false} SplitWhole(s: string, separator: char)
    ensures separator in s ==> |Split(s, separator)| > 1
    ensures separator !in s ==> Split(s, separator) == [s]
  {
    if s != "" {
      SplitWhole(s[1..], separator);
      assert s == [s[0]] + s[1..];
    }
  }

  /** `join(separator)`. */
  function Join(items: seq<string>, separator: char): string {
    if items == [] then "" else if |items| == 1 then items[0] else items[0] + [separator] + Join(items[1..], separator)
  }

  /** What each item splits into, in order. */
  function SplitEach(items: seq<string>, separator: char): seq<string> {
    if items == [] then [] else Split(items[0], separator) + SplitEach(items[1..], separator)
  }

  lemma {:induction false} SplitJoin(items: seq<string>, separator: char)
    requires items != []
    ensures Split(Join(items, separator), separator) == SplitEach(items, separator)
  {
    if |items| == 1 {
      assert SplitEach(items[1..], separator) == [];
    } else {
      SplitJoin(items[1..], separator);
      var tail := [separator] + Join(items[1..], separator);
      SplitAround(items[0], tail, separator);
      assert tail[1..] == Join(items[1..], separator) && Join(items, separator) == items[0] + tail;
    }
  }

  /** No item holds the separator. */
  predicate Free(items: seq<string>, separator: char) {
    forall i | 0 <= i < |items| :: separator !in items[i]
  }

  lemma {:induction false} SplitEachLength(items: seq<string>, separator: char)
    ensures |SplitEach(items, separator)| >= |items|
    ensures Free(items, separator) ==> SplitEach(items, separator) == items
    ensures !Free(items, separator) ==> |SplitEach(items, separator)| > |items|
  {
    if items != [] {
      SplitEachLength(items[1..], separator);
      SplitWhole(items[0], separator);
      assert items == [items[0]] + items[1..];
      assert Free(items, separator) <==> separator !in items[0] && Free(items[1..], separator);
    }
  }

  // ----- Selections -----

  predicate Increasing(picked: seq<nat>) {
    forall i, j | 0 <= i < j < |picked| :: picked[i] < picked[j]
  }

  /** The numbers of a set, in order. */
  predicate Lists(picked: seq<nat>, chosen: set<nat>) {
    Increasing(picked) && (forall i | i in picked :: i in chosen) && forall i | i in chosen :: i in picked
  }

  lemma ListsNext(picked: seq<nat>, chosen: set<nat>, n: nat)
    requires Lists(picked, chosen) && forall i | i in chosen :: i < n
    ensures Lists(picked + [n], chosen + {n})
  {
    assert forall k | 0 <= k < |picked| :: picked[k] in picked;
  }

  /** The numbers below `n`, in order. */
  lemma {:induction false} ListsAll(picked: seq<nat>, chosen: set<nat>, n: nat)
    requires Lists(picked, chosen) && forall i: nat :: i in chosen <==> i < n
    ensures |picked| == n && forall i | 0 <= i < n :: picked[i] == i
  {
    assert forall j | 0 <= j < |picked| :: picked[j] in picked;
    if picked != [] {
      assert picked[0] < n;
    }
    if n > 0 {
      assert n - 1 in picked;
      var k :| 0 <= k < |picked| && picked[k] == n - 1;
      assert k == |picked| - 1;
      var front := picked[..k];
      assert forall j | 0 <= j < |front| :: front[j] == picked[j];
      forall i | i in chosen - {n - 1}
        ensures i in front
      {
        var j :| 0 <= j < |picked| && picked[j] == i;
        assert front[j] == i;
      }
      ListsAll(front, chosen - {n - 1}, n - 1);
    }
  }
}
