/**
 Startup order of Compose services: a three-colour depth-first search over
 `depends_on` (src/core/src/compose.rs).
 */
module Compose {
  import opened Text

  datatype DependsOn =
    | Empty
    | List(names: seq<string>)
    | Map(conditions: map<string, string>)
  {
    /** The document names the service as a dependency. */
    predicate Names(service: string) {
      match this
      case Empty => false
      case List(names) => service in names
      case Map(conditions) => service in conditions
    }

    /** Exactly the names the document lists; a list in its own order, a map in the order of its names. */
    function Services(): (r: seq<string>)
      ensures forall service :: service in r <==> Names(service)
      ensures List? ==> r == names
      ensures Map? ==> StrictlySorted(r)
    {
      match this
      case Empty => []
      case List(names) => names
      case Map(conditions) => SortedKeys(conditions.Keys)
    }
  }

  /** The part of a Compose document that ordering reads: each service and its dependencies. */
  type Services = map<string, DependsOn>

  // ----- The dependency graph, independent of any search -----

  predicate Edge(services: Services, a: string, b: string) {
    a in services && services[a].Names(b)
  }

  ghost predicate IsWalk(services: Services, walk: seq<string>) {
    forall i | 0 <= i < |walk| - 1 :: Edge(services, walk[i], walk[i + 1])
  }

  /** `b` is a direct or indirect dependency of `a`. */
  ghost predicate DependsTransitively(services: Services, a: string, b: string) {
    exists walk: seq<string> ::
      |walk| >= 2 && walk[0] == a && walk[|walk| - 1] == b && IsWalk(services, walk)
  }

  ghost predicate Acyclic(services: Services) {
    forall name :: !DependsTransitively(services, name, name)
  }

  ghost predicate AllDefined(services: Services) {
    forall a, b | Edge(services, a, b) :: b in services
  }

  predicate NoDuplicates(names: seq<string>) {
    forall i, j | 0 <= i < j < |names| :: names[i] != names[j]
  }

  /** Every direct dependency of an entry stands strictly before it. */
  ghost predicate DependenciesFirst(services: Services, order: seq<string>) {
    forall i, b | 0 <= i < |order| && Edge(services, order[i], b) :: b in order[..i]
  }

  // ----- Search state -----

  datatype Mark = InProgress | Done

  datatype OrderError =
    | Cycle(name: string)
    | NotDefined(name: string, dependency: string)

  datatype Outcome = Ok | Err(error: OrderError)

  /** What an error message claims about the document. */
  ghost predicate Witnessed(services: Services, error: OrderError) {
    match error
    case Cycle(name) => DependsTransitively(services, name, name)
    case NotDefined(name, dependency) => Edge(services, name, dependency) && dependency !in services
  }

  ghost predicate IsSearchPath(services: Services, marks: map<string, Mark>, path: seq<string>) {
    && NoDuplicates(path)
    && IsWalk(services, path)
    && (forall name :: name in path <==> name in marks && marks[name] == InProgress)
  }

  ghost predicate Consistent(services: Services, marks: map<string, Mark>, order: seq<string>) {
    && marks.Keys <= services.Keys
    && NoDuplicates(order)
    && (forall name :: name in order <==> name in marks && marks[name] == Done)
    && DependenciesFirst(services, order)
    && (forall i, b | 0 <= i < |order| && Edge(services, order[i], b) :: b in services)
  }

  /** The two accumulators that `topo_visit` threads through the recursion. */
  class Search {
    const services: Services
    var marks: map<string, Mark>
    var order: seq<string>

    constructor (services: Services)
      ensures this.services == services && marks == map[] && order == []
    {
      this.services := services;
      marks := map[];
      order := [];
    }

    /**
     Visit one service. `path` is the chain of visits under way: the in-progress
     marks are exactly its elements. On success the visit leaves the in-progress marks
     as they were, and appends to the order a run that ends in the service, or nothing
     if it was there already; on failure the error is witnessed.
     */
    method TopoVisit(name: string, ghost path: seq<string>) returns (r: Outcome)
      requires name in services
      requires Consistent(services, marks, order)
      requires IsSearchPath(services, marks, path)
      requires path != [] ==> Edge(services, path[|path| - 1], name)
      modifies this`marks, this`order
      ensures r.Err? ==> Witnessed(services, r.error)
      ensures r.Ok? ==>
        && Consistent(services, marks, order)
        && IsSearchPath(services, marks, path)
        && name in order
        && old(order) <= order
        && (if name in old(order) then order == old(order) else order[|order| - 1] == name)
        && old(marks.Keys) <= marks.Keys
        && GrewBy(services, old(order), order, name)
      decreases services.Keys - marks.Keys, 0
    {
      if name in marks && marks[name] == InProgress {
        CycleOnPath(services, marks, path, name);
        return Err(Cycle(name));
      }
      if name in marks && marks[name] == Done {
        return Ok;
      }

      marks := marks[name := InProgress];
      ghost var path' := path + [name];
      ExtendPath(services, old(marks), path, name);

      assert name in services.Keys - old(marks).Keys && name !in services.Keys - marks.Keys;
      r := VisitDependencies(name, path');
      if r.Err? {
        return;
      }
      FinishVisit(services, marks, order, path, name);
      marks := marks[name := Done];
      order := order + [name];
      r := Ok;
    }

    /** The inner loop: visits the dependencies of the service being visited. */
    method VisitDependencies(name: string, ghost path: seq<string>) returns (r: Outcome)
      requires name in services && path != [] && path[|path| - 1] == name
      requires Consistent(services, marks, order) && IsSearchPath(services, marks, path)
      modifies this`marks, this`order
      ensures r.Err? ==> Witnessed(services, r.error)
      ensures r.Ok? ==>
        && Consistent(services, marks, order) && IsSearchPath(services, marks, path)
        && old(order) <= order && old(marks.Keys) <= marks.Keys
        && (forall b | Edge(services, name, b) :: b in order)
        && GrewBy(services, old(order), order, name)
      decreases services.Keys - marks.Keys, 2
    {
      var deps := services[name].Services();
      for i := 0 to |deps|
        invariant Consistent(services, marks, order) && IsSearchPath(services, marks, path)
        invariant old(order) <= order && old(marks.Keys) <= marks.Keys
        invariant GrewBy(services, old(order), order, name) && HoldsFirst(order, deps, i)
      {
        assert Edge(services, name, deps[i]);
        ghost var before := order;
        r := VisitDependency(name, deps[i], path);
        if r.Err? {
          return;
        }
        GrewChain(services, old(order), before, order, name);
        HeldOn(deps, i, before, order);
      }
      r := Ok;
    }

    /** One round of the inner loop: visits a dependency of the service being visited, if it is defined. */
    method VisitDependency(name: string, dependency: string, ghost path: seq<string>) returns (r: Outcome)
      requires path != [] && path[|path| - 1] == name && Edge(services, name, dependency)
      requires Consistent(services, marks, order) && IsSearchPath(services, marks, path)
      modifies this`marks, this`order
      ensures r.Err? ==> Witnessed(services, r.error)
      ensures r.Ok? ==>
        && Consistent(services, marks, order) && IsSearchPath(services, marks, path)
        && dependency in order && old(order) <= order && old(marks.Keys) <= marks.Keys
        && GrewBy(services, old(order), order, name)
      ensures dependency !in services ==> r == Err(NotDefined(name, dependency)) && unchanged(this)
      decreases services.Keys - marks.Keys, 1
    {
      if dependency !in services {
        return Err(NotDefined(name, dependency));
      }
      r := TopoVisit(dependency, path);
      if r.Ok? {
        GrewBelow(services, old(order), order, name, dependency);
      }
    }

    /** One round of the outer loop: visits a service unless it was visited before. */
    method VisitRoot(name: string) returns (r: Outcome)
      requires name in services
      requires Consistent(services, marks, order) && IsSearchPath(services, marks, [])
      modifies this`marks, this`order
      ensures r.Err? ==> Witnessed(services, r.error)
      ensures r.Ok? ==>
        && Consistent(services, marks, order) && IsSearchPath(services, marks, [])
        && name in order && old(order) <= order
        && (if name in old(order) then order == old(order) else order[|order| - 1] == name)
        && GrewBy(services, old(order), order, name)
    {
      if name !in marks {
        r := TopoVisit(name, []);
      } else {
        assert name !in [];
        r := Ok;
      }
    }

    /** One round of the outer loop. */
    method VisitNext(names: seq<string>, i: nat, ghost cuts: seq<nat>) returns (r: Outcome)
      requires i < |names| && names[i] in services && Visited(services, marks, order, names, cuts, i)
      modifies this`marks, this`order
      ensures r.Err? ==> Witnessed(services, r.error)
      ensures r.Ok? ==> Visited(services, marks, order, names, cuts + [|order|], i + 1)
    {
      r := VisitRoot(names[i]);
      if r.Ok? {
        HeldOn(names, i, old(order), order);
        CutsStay(services, names, old(order), order, cuts, i);
      }
    }

    /** The outer loop; `cuts[k]` is how long the order was when `names[k]` had been visited. */
    method VisitAll(names: seq<string>) returns (r: Outcome, ghost cuts: seq<nat>)
      requires marks == map[] && order == []
      requires forall name | name in names :: name in services
      modifies this`marks, this`order
      ensures r.Err? ==> Witnessed(services, r.error)
      ensures r.Ok? ==> Visited(services, marks, order, names, cuts, |names|)
    {
      NothingVisited(services, names);
      cuts := [];
      for i := 0 to |names|
        invariant Visited(services, marks, order, names, cuts, i)
      {
        assert names[i] in names;
        r := VisitNext(names, i, cuts);
        if r.Err? {
          return;
        }
        cuts := cuts + [|order|];
      }
      r := Ok;
    }
  }

  /** The first `n` services have been visited, and nothing but what they need. */
  ghost predicate Visited(services: Services, marks: map<string, Mark>, order: seq<string>, names: seq<string>,
    cuts: seq<nat>, n: nat)
  {
    && n <= |names| && Consistent(services, marks, order) && IsSearchPath(services, marks, [])
    && HoldsFirst(order, names, n) && AreCuts(services, names, order, cuts, n)
  }

  lemma NothingVisited(services: Services, names: seq<string>)
    ensures Visited(services, map[], [], names, [], 0)
  {
  }

  /** Once all are visited the order is complete, and direct dependencies come first. */
  lemma AllVisited(services: Services, marks: map<string, Mark>, order: seq<string>, names: seq<string>, cuts: seq<nat>)
    requires Visited(services, marks, order, names, cuts, |names|)
    requires forall name :: name in names <==> name in services
    ensures NoDuplicates(order) && DependenciesFirst(services, order)
    ensures forall name :: name in order <==> name in services
    ensures AreCuts(services, names, order, cuts, |names|)
  {
    forall name | name in services
      ensures name in order
    {
      var k :| 0 <= k < |names| && names[k] == name;
    }
  }

  // ----- What a visit brings into the order -----

  ghost predicate Reaches(services: Services, a: string, b: string) {
    a == b || DependsTransitively(services, a, b)
  }

  /** Everything new in the order is the service or something it depends on. */
  ghost predicate GrewBy(services: Services, before: seq<string>, after: seq<string>, name: string) {
    forall x | x in after :: x in before || Reaches(services, name, x)
  }

  lemma GrewChain(services: Services, a: seq<string>, b: seq<string>, c: seq<string>, name: string)
    requires GrewBy(services, a, b, name) && GrewBy(services, b, c, name)
    ensures GrewBy(services, a, c, name)
  {
  }

  /** The order holds the first `n` of these names. */
  predicate HoldsFirst(order: seq<string>, names: seq<string>, n: nat)
    requires n <= |names|
  {
    forall k | 0 <= k < n :: names[k] in order
  }

  lemma HeldOn(names: seq<string>, i: nat, before: seq<string>, after: seq<string>)
    requires i < |names| && HoldsFirst(before, names, i) && before <= after && names[i] in after
    ensures HoldsFirst(after, names, i + 1)
  {
    forall k | 0 <= k < i
      ensures names[k] in after
    {
      assert names[k] in before;
    }
  }

  lemma ReachesBelow(services: Services, name: string, dependency: string, x: string)
    requires Edge(services, name, dependency) && Reaches(services, dependency, x)
    ensures DependsTransitively(services, name, x)
  {
    var walk := [dependency];
    if x != dependency {
      walk :| |walk| >= 2 && walk[0] == dependency && walk[|walk| - 1] == x && IsWalk(services, walk);
    }
    var longer := [name] + walk;
    forall k | 0 <= k < |longer| - 1
      ensures Edge(services, longer[k], longer[k + 1])
    {
      assert k > 0 ==> Edge(services, walk[k - 1], walk[k - 1 + 1]);
    }
    assert IsWalk(services, longer) && longer[|longer| - 1] == x;
  }

  lemma GrewBelow(services: Services, before: seq<string>, after: seq<string>, name: string, dependency: string)
    requires GrewBy(services, before, after, dependency) && Edge(services, name, dependency)
    ensures GrewBy(services, before, after, name)
  {
    forall x | x in after && x !in before
      ensures Reaches(services, name, x)
    {
      ReachesBelow(services, name, dependency, x);
    }
  }

  /** One of the first services, up to number `k`, is or depends on `x`. */
  ghost predicate ReachedBy(services: Services, names: seq<string>, k: nat, x: string)
    requires k < |names|
  {
    exists m | 0 <= m <= k :: Reaches(services, names[m], x)
  }

  /** The first `cut` entries of the order hold `names[k]` and nothing but what the services up to it reach. */
  ghost predicate IsCut(services: Services, names: seq<string>, order: seq<string>, k: nat, cut: nat)
    requires k < |names|
  {
    cut <= |order| && names[k] in order[..cut] && forall x | x in order[..cut] :: ReachedBy(services, names, k, x)
  }

  ghost predicate AreCuts(services: Services, names: seq<string>, order: seq<string>, cuts: seq<nat>, n: nat)
    requires n <= |names|
  {
    && |cuts| == n && (forall k | 0 <= k < n :: IsCut(services, names, order, k, cuts[k]))
    && (forall x | x in order :: n > 0 && ReachedBy(services, names, n - 1, x))
  }

  lemma CutsStay(services: Services, names: seq<string>, before: seq<string>, after: seq<string>, cuts: seq<nat>,
    i: nat)
    requires i < |names| && AreCuts(services, names, before, cuts, i) && before <= after && names[i] in after
    requires GrewBy(services, before, after, names[i])
    ensures AreCuts(services, names, after, cuts + [|after|], i + 1)
  {
    forall k | 0 <= k < i
      ensures IsCut(services, names, after, k, cuts[k])
    {
      assert after[..cuts[k]] == before[..cuts[k]];
    }
    forall x | x in after
      ensures ReachedBy(services, names, i, x)
    {
      if x in before {
        assert ReachedBy(services, names, i - 1, x);
      } else {
        assert Reaches(services, names[i], x);
      }
    }
    assert after[..|after|] == after;
  }

  lemma CycleOnPath(services: Services, marks: map<string, Mark>, path: seq<string>, name: string)
    requires IsSearchPath(services, marks, path)
    requires name in marks && marks[name] == InProgress
    requires path != [] ==> Edge(services, path[|path| - 1], name)
    ensures DependsTransitively(services, name, name)
  {
    assert name in path;
    var i :| 0 <= i < |path| && path[i] == name;
    var walk := path[i..] + [name];
    assert forall k | 0 <= k < |walk| - 1 :: Edge(services, walk[k], walk[k + 1]) by {
      forall k | 0 <= k < |walk| - 1
        ensures Edge(services, walk[k], walk[k + 1])
      {
        assert walk[k] == path[i + k];
        if k < |walk| - 2 {
          assert walk[k + 1] == path[i + k + 1];
        }
      }
    }
    assert IsWalk(services, walk);
  }

  lemma ExtendPath(services: Services, marks: map<string, Mark>, path: seq<string>, name: string)
    requires IsSearchPath(services, marks, path)
    requires name !in marks
    requires path != [] ==> Edge(services, path[|path| - 1], name)
    ensures IsSearchPath(services, marks[name := InProgress], path + [name])
  {
  }

  lemma FinishVisit(services: Services, marks: map<string, Mark>, order: seq<string>, path: seq<string>, name: string)
    requires name in services
    requires Consistent(services, marks, order)
    requires IsSearchPath(services, marks, path + [name])
    requires forall b | Edge(services, name, b) :: b in order
    ensures Consistent(services, marks[name := Done], order + [name])
    ensures IsSearchPath(services, marks[name := Done], path)
  {
    var order' := order + [name];
    assert (path + [name])[|path|] == name;
    assert name in path + [name];
    forall i, b | 0 <= i < |order'| && Edge(services, order'[i], b)
      ensures b in order'[..i]
    {
      if i < |order| {
        assert order'[..i] == order[..i];
      } else {
        assert order'[..i] == order;
      }
    }
    assert forall x :: x in path <==> x in path + [name] && x != name by {
      forall x | x in path
        ensures x != name
      {
        var k :| 0 <= k < |path| && path[k] == x;
        assert (path + [name])[k] == x;
      }
    }
    assert NoDuplicates(path) by {
      assert forall k | 0 <= k < |path| :: (path + [name])[k] == path[k];
    }
    assert IsWalk(services, path) by {
      assert forall k | 0 <= k < |path| :: (path + [name])[k] == path[k];
    }
  }

  // ----- The whole computation -----

  datatype OrderResult = Ordered(order: seq<string>) | Rejected(error: OrderError)

  /** Each service exactly once, after everything it depends on directly or indirectly. */
  ghost predicate IsStartupOrder(services: Services, order: seq<string>) {
    && NoDuplicates(order)
    && (forall name :: name in order <==> name in services)
    && (forall i, b | 0 <= i < |order| && DependsTransitively(services, order[i], b) :: b in order[..i])
  }

  /** Where the dependencies leave it open: a service stands before a later-named one that no service up to it needs. */
  ghost predicate NamesDecide(services: Services, order: seq<string>) {
    forall p, q | 0 <= p < |order| && 0 <= q < |order| && order[p] != order[q] && Leq(order[p], order[q]) ::
      p < q || exists r | r in services :: Leq(r, order[p]) && Reaches(services, r, order[q])
  }

  lemma CutDecides(services: Services, names: seq<string>, order: seq<string>, k: nat, cut: nat, p: nat, q: nat)
    requires NoDuplicates(order) && StrictlySorted(names) && k < |names| && IsCut(services, names, order, k, cut)
    requires (forall name | name in names :: name in services) && q < p < |order| && names[k] == order[p]
    ensures exists r | r in services :: Leq(r, order[p]) && Reaches(services, r, order[q])
  {
    var i :| 0 <= i < cut && order[..cut][i] == order[p];
    assert order[i] == order[p] && i == p && order[..cut][q] == order[q];
    assert ReachedBy(services, names, k, order[q]);
    var m :| 0 <= m <= k && Reaches(services, names[m], order[q]);
    LeqTotal(order[p], order[p]);
    assert names[m] in names && Leq(names[m], order[p]);
  }

  lemma CutsDecide(services: Services, names: seq<string>, order: seq<string>, cuts: seq<nat>)
    requires NoDuplicates(order) && StrictlySorted(names) && AreCuts(services, names, order, cuts, |names|)
    requires (forall name :: name in names <==> name in services) && forall name :: name in order <==> name in services
    ensures NamesDecide(services, order)
  {
    forall p, q | 0 <= q < p < |order| && Leq(order[p], order[q])
      ensures exists r | r in services :: Leq(r, order[p]) && Reaches(services, r, order[q])
    {
      assert order[p] in order && order[p] in names;
      var k :| 0 <= k < |names| && names[k] == order[p];
      CutDecides(services, names, order, k, cuts[k], p, q);
    }
  }

  /**
   `service_order`: it succeeds exactly on the documents whose dependencies are
   all defined and free of cycles, and every failure names a real fault.
   */
  method ServiceOrder(services: Services) returns (r: OrderResult)
    ensures r.Ordered? <==> AllDefined(services) && Acyclic(services)
    ensures r.Ordered? ==> IsStartupOrder(services, r.order)
    ensures r.Ordered? ==> NamesDecide(services, r.order)
    ensures r.Rejected? ==> Witnessed(services, r.error)
  {
    var search := new Search(services);
    var names := SortedKeys(services.Keys);
    var visited, cuts := search.VisitAll(names);
    if visited.Err? {
      FaultExcludesOrder(services, visited.error);
      r := Rejected(visited.error);
    } else {
      AllVisited(services, search.marks, search.order, names, cuts);
      TopologicalOrderSuffices(services, search.order);
      CutsDecide(services, names, search.order, cuts);
      r := Ordered(search.order);
    }
  }

  /** A document with a witnessed fault has no startup order at all. */
  lemma FaultExcludesOrder(services: Services, error: OrderError)
    requires Witnessed(services, error)
    ensures !(AllDefined(services) && Acyclic(services))
    ensures forall order :: !IsStartupOrder(services, order)
  {
    forall order
      ensures !IsStartupOrder(services, order)
    {
      if IsStartupOrder(services, order) {
        StartupOrderIsTopological(services, order);
        TopologicalOrderSuffices(services, order);
      }
    }
  }

  lemma StartupOrderIsTopological(services: Services, order: seq<string>)
    requires IsStartupOrder(services, order)
    ensures DependenciesFirst(services, order)
  {
    forall i, b | 0 <= i < |order| && Edge(services, order[i], b)
      ensures b in order[..i]
    {
      var walk := [order[i], b];
      assert IsWalk(services, walk) && walk[|walk| - 1] == b;
    }
  }

  /** Along a walk out of an ordered service, positions only go down. */
  lemma {:induction false} WalkDescends(services: Services, order: seq<string>, walk: seq<string>, i: nat)
    requires DependenciesFirst(services, order)
    requires |walk| >= 2 && IsWalk(services, walk)
    requires i < |order| && order[i] == walk[0]
    ensures walk[|walk| - 1] in order[..i]
    decreases |walk|
  {
    assert Edge(services, walk[0], walk[1]);
    var j :| 0 <= j < i && order[j] == walk[1];
    if |walk| > 2 {
      var tail := walk[1..];
      assert forall k | 0 <= k < |tail| :: tail[k] == walk[k + 1];
      WalkDescends(services, order, tail, j);
      assert order[..j] <= order[..i];
    }
  }

  lemma TopologicalOrderSuffices(services: Services, order: seq<string>)
    requires NoDuplicates(order)
    requires forall name :: name in order <==> name in services
    requires DependenciesFirst(services, order)
    ensures AllDefined(services) && Acyclic(services) && IsStartupOrder(services, order)
  {
    forall i, b | 0 <= i < |order| && DependsTransitively(services, order[i], b)
      ensures b in order[..i]
    {
      var walk :| |walk| >= 2 && walk[0] == order[i] && walk[|walk| - 1] == b && IsWalk(services, walk);
      WalkDescends(services, order, walk, i);
    }
    forall a, b | Edge(services, a, b)
      ensures b in services
    {
      var i :| 0 <= i < |order| && order[i] == a;
      assert b in order[..i];
    }
    forall name
      ensures !DependsTransitively(services, name, name)
    {
      if name in services {
        var i :| 0 <= i < |order| && order[i] == name;
        assert name !in order[..i];
      } else {
        forall walk: seq<string> | |walk| >= 2 && walk[0] == name
          ensures !IsWalk(services, walk)
        {
          assert !Edge(services, walk[0], walk[0 + 1]);
        }
      }
    }
  }
}
