/** The stable sort the Rust standard library supplies (`sort`, `sort_by_key`), for any order. */
module Sorting {

  function Insert<T>(leq: (T, T) -> bool, x: T, sorted: seq<T>): seq<T> {
    if sorted == [] || leq(x, sorted[0]) then [x] + sorted else [sorted[0]] + Insert(leq, x, sorted[1..])
  }

  function SortBy<T>(leq: (T, T) -> bool, s: seq<T>): seq<T> {
    if s == [] then [] else Insert(leq, s[0], SortBy(leq, s[1..]))
  }

  predicate IsSorted<T>(leq: (T, T) -> bool, s: seq<T>) {
    forall i, j | 0 <= i < j < |s| :: leq(s[i], s[j])
  }

  ghost predicate IsOrder<T(!new)>(leq: (T, T) -> bool) {
    && (forall x, y :: leq(x, y) || leq(y, x))
    && (forall x, y, z | leq(x, y) && leq(y, z) :: leq(x, z))
  }

  lemma {:induction false} InsertAdds<T>(leq: (T, T) -> bool, x: T, sorted: seq<T>)
    ensures multiset(Insert(leq, x, sorted)) == multiset(sorted) + multiset{x}
  {
    if sorted != [] && !leq(x, sorted[0]) {
      InsertAdds(leq, x, sorted[1..]);
      assert sorted == [sorted[0]] + sorted[1..];
    }
  }

  lemma {:induction false} InsertSorts<T(!new)>(leq: (T, T) -> bool, x: T, sorted: seq<T>)
    requires IsOrder(leq) && IsSorted(leq, sorted)
    ensures IsSorted(leq, Insert(leq, x, sorted))
  {
    if sorted != [] && !leq(x, sorted[0]) {
      var rest := Insert(leq, x, sorted[1..]);
      InsertSorts(leq, x, sorted[1..]);
      InsertAdds(leq, x, sorted[1..]);
      forall i | 0 <= i < |rest|
        ensures leq(sorted[0], rest[i])
      {
        assert rest[i] in multiset(rest);
        assert rest[i] in sorted[1..] || rest[i] == x;
      }
    }
  }

  /** The sort yields the same elements, in order. */
  lemma {:induction false} SortSorts<T(!new)>(leq: (T, T) -> bool, s: seq<T>)
    requires IsOrder(leq)
    ensures IsSorted(leq, SortBy(leq, s)) && multiset(SortBy(leq, s)) == multiset(s)
  {
    if s != [] {
      SortSorts(leq, s[1..]);
      InsertSorts(leq, s[0], SortBy(leq, s[1..]));
      InsertAdds(leq, s[0], SortBy(leq, s[1..]));
      assert s == [s[0]] + s[1..];
    }
  }

  function Filter<T>(p: T -> bool, s: seq<T>): seq<T> {
    if s == [] then [] else (if p(s[0]) then [s[0]] else []) + Filter(p, s[1..])
  }

  lemma {:induction false} InsertIsStable<T(!new)>(leq: (T, T) -> bool, p: T -> bool, x: T, sorted: seq<T>)
    requires forall y, z | p(y) && p(z) :: leq(y, z)
    ensures Filter(p, Insert(leq, x, sorted)) == Filter(p, [x] + sorted)
  {
    assert ([x] + sorted)[1..] == sorted;
    if sorted != [] && !leq(x, sorted[0]) {
      InsertIsStable(leq, p, x, sorted[1..]);
      assert ([x] + sorted[1..])[1..] == sorted[1..];
    }
  }

  /** Elements that are equal in the order keep their order. */
  lemma {:induction false} SortIsStable<T(!new)>(leq: (T, T) -> bool, p: T -> bool, s: seq<T>)
    requires forall y, z | p(y) && p(z) :: leq(y, z)
    ensures Filter(p, SortBy(leq, s)) == Filter(p, s)
  {
    if s != [] {
      SortIsStable(leq, p, s[1..]);
      InsertIsStable(leq, p, s[0], SortBy(leq, s[1..]));
    }
  }

  // ----- Elements told apart by a key -----

  predicate DistinctBy<T, K(==)>(key: T -> K, s: seq<T>) {
    forall i, j | 0 <= i < j < |s| :: key(s[i]) != key(s[j])
  }

  lemma {:induction false} OccursOnce<T, K>(key: T -> K, s: seq<T>, x: T)
    requires DistinctBy(key, s)
    ensures multiset(s)[x] <= 1
  {
    if s != [] {
      OccursOnce(key, s[1..], x);
      assert s == [s[0]] + s[1..];
      if s[0] == x {
        assert forall i | 0 <= i < |s[1..]| :: s[1..][i] == s[i + 1];
        assert x !in s[1..];
      }
    }
  }

  /** Keys stay distinct when the elements change places. */
  lemma PermutationStaysDistinct<T, K>(key: T -> K, s: seq<T>, t: seq<T>)
    requires DistinctBy(key, s) && multiset(s) == multiset(t)
    ensures DistinctBy(key, t)
  {
    forall i, j | 0 <= i < j < |t|
      ensures key(t[i]) != key(t[j])
    {
      assert t == t[..i] + [t[i]] + t[i + 1..j] + [t[j]] + t[j + 1..];
      assert t[i] in multiset(s) && t[j] in multiset(s);
      var a :| 0 <= a < |s| && s[a] == t[i];
      var b :| 0 <= b < |s| && s[b] == t[j];
      OccursOnce(key, s, t[i]);
    }
  }
}
