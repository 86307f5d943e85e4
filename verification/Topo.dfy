/** Ordering services so that dependencies come first, or naming a cycle. */
module Topo {
  import opened Basics
  import opened Order

  type Graph = map<string, seq<string>>

  datatype Answer =
    | Ordered(names: seq<string>)
    | UnknownDependency(service: string, dependency: string)
    | Cycle(path: seq<string>)

  // ----- what the answers mean

  predicate Known(deps: Graph) {
    forall k :: k in deps ==> forall d :: d in deps[k] ==> d in deps
  }

  /** A closed path of dependency edges. */
  ghost predicate IsCycle(deps: Graph, path: seq<string>) {
    |path| >= 2 && path[0] == path[|path| - 1] &&
    forall i :: 0 <= i < |path| - 1 ==> path[i] in deps && path[i + 1] in deps[path[i]]
  }

  ghost predicate Acyclic(deps: Graph) {
    forall path :: !IsCycle(deps, path)
  }

  /** Every service exactly once, each after all its dependencies. */
  ghost predicate DependenciesFirst(deps: Graph, order: seq<string>) {
    && Distinct(order)
    && (forall k :: k in order <==> k in deps)
    && (forall i, d :: 0 <= i < |order| && d in deps[order[i]] ==> d in order[..i])
  }

  // ----- layers

  ghost function Ready(deps: Graph, done: set<string>): set<string> {
    set k | k in deps && k !in done && forall d :: d in deps[k] ==> d in done
  }

  /** The layers left once some services are done, each in name order. */
  ghost function LayersFrom(deps: Graph, done: set<string>): seq<string>
    decreases |deps.Keys - done|
  {
    var ready := Ready(deps, done);
    if ready == {} then []
    else
      assert deps.Keys - (done + ready) < deps.Keys - done by {
        var k :| k in ready;
        assert k in deps.Keys - done;
      }
      SmallerSet(deps.Keys - (done + ready), deps.Keys - done);
      Ascending(ready) + LayersFrom(deps, done + ready)
  }

  lemma {:induction false} SmallerSet<T>(a: set<T>, b: set<T>)
    requires a < b
    ensures |a| < |b|
  {
    if a != {} {
      var x :| x in a;
      SmallerSet(a - {x}, b - {x});
    }
  }

  function Elements(xs: seq<string>): set<string> { set x | x in xs }

  lemma LayersUnfold(deps: Graph, done: set<string>)
    requires Ready(deps, done) != {}
    ensures LayersFrom(deps, done) == Ascending(Ready(deps, done)) + LayersFrom(deps, done + Ready(deps, done))
    ensures |deps.Keys - (done + Ready(deps, done))| < |deps.Keys - done|
  {
    var ready := Ready(deps, done);
    assert deps.Keys - (done + ready) < deps.Keys - done by {
      var k :| k in ready;
      assert k in deps.Keys - done;
    }
    SmallerSet(deps.Keys - (done + ready), deps.Keys - done);
  }

  lemma {:induction false} LayersMembers(deps: Graph, done: set<string>)
    ensures Distinct(LayersFrom(deps, done))
    ensures forall k :: k in LayersFrom(deps, done) ==> k in deps && k !in done
    decreases |deps.Keys - done|
  {
    var ready := Ready(deps, done);
    if ready != {} {
      LayersUnfold(deps, done);
      LayersMembers(deps, done + ready);
      AscendingFacts(ready);
      var first, rest := Ascending(ready), LayersFrom(deps, done + ready);
      assert forall x :: x in first ==> x !in rest;
      DistinctConcat(first, rest);
    }
  }

  lemma PrefixOfConcat(a: seq<string>, b: seq<string>, i: nat)
    requires |a| <= i <= |a| + |b|
    ensures (a + b)[..i] == a + b[..i - |a|]
  {
  }

  lemma {:induction false} LayersRespectEdges(deps: Graph, done: set<string>, r: seq<string>, i: nat, d: string)
    requires r == LayersFrom(deps, done) && i < |r| && r[i] in deps && d in deps[r[i]]
    ensures d in done || d in r[..i]
    decreases |deps.Keys - done|
  {
    var ready := Ready(deps, done);
    assert ready != {};
    LayersUnfold(deps, done);
    AscendingFacts(ready);
    var first, rest := Ascending(ready), LayersFrom(deps, done + ready);
    if i < |first| {
      assert r[i] == first[i] && first[i] in ready;
    } else {
      PrefixOfConcat(first, rest, i);
      assert r[i] == rest[i - |first|];
      LayersRespectEdges(deps, done + ready, rest, i - |first|, d);
    }
  }

  /** The layers of a graph are a valid order as far as they go. */
  lemma LayersAreOrdered(deps: Graph)
    requires Known(deps)
    requires forall k :: k in deps ==> k in LayersFrom(deps, {})
    ensures DependenciesFirst(deps, LayersFrom(deps, {}))
  {
    LayersMembers(deps, {});
    var r := LayersFrom(deps, {});
    forall i, d | 0 <= i < |r| && r[i] in deps && d in deps[r[i]] ensures d in r[..i] {
      LayersRespectEdges(deps, {}, r, i, d);
    }
  }

  // ----- the algorithm

  /** The dependencies still outstanding once some services are done. */
  ghost function Outstanding(deps: Graph, done: set<string>): map<string, set<string>> {
    map k | k in deps && k !in done :: Elements(deps[k]) - done
  }

  /** Remove one finished service everywhere. */
  function Finish(remaining: map<string, set<string>>, name: string): map<string, set<string>> {
    map k | k in remaining && k != name :: remaining[k] - {name}
  }

  /** The dependency is the first unknown one its service lists. */
  ghost predicate FirstUnknownOf(deps: Graph, service: string, d: string)
    requires service in deps
  {
    exists j :: 0 <= j < |deps[service]| && deps[service][j] == d && d !in deps
      && forall i :: 0 <= i < j ==> deps[service][i] in deps
  }

  /** The first unknown dependency of the first service, in name order, that has one. */
  ghost predicate IsFirstUnknown(deps: Graph, service: string, d: string) {
    && service in deps && FirstUnknownOf(deps, service, d)
    && forall k, e :: k in deps && e in deps[k] && k != service && Leq(k, service) ==> e in deps
  }

  method FirstUnknownIn(deps: Graph, service: string) returns (r: Option<string>)
    requires service in deps
    ensures r.None? <==> forall d :: d in deps[service] ==> d in deps
    ensures r.Some? ==> FirstUnknownOf(deps, service, r.value)
  {
    var ds := deps[service];
    for j := 0 to |ds|
      invariant forall i :: 0 <= i < j ==> ds[i] in deps
    {
      if ds[j] !in deps {
        return Some(ds[j]);
      }
    }
    return None;
  }

  /** In the ascending list of a set the smaller names come earlier. */
  lemma EarlierNames(s: set<string>, i: nat)
    requires i < |Ascending(s)|
    ensures forall k :: k in s && k != Ascending(s)[i] && Leq(k, Ascending(s)[i]) ==> k in Ascending(s)[..i]
  {
    AscendingFacts(s);
    AscendingIsSorted(s);
    var names := Ascending(s);
    forall k | k in s && k != names[i] && Leq(k, names[i]) ensures k in names[..i] {
      var j :| 0 <= j < |names| && names[j] == k;
      if i < j {
        LeqAntisymmetric(k, names[i]);
      }
      assert names[..i][j] == k;
    }
  }

  method FirstUnknown(deps: Graph) returns (r: Option<(string, string)>)
    ensures r.None? <==> Known(deps)
    ensures r.Some? ==> IsFirstUnknown(deps, r.value.0, r.value.1)
  {
    var names := InOrder(deps.Keys);
    AscendingFacts(deps.Keys);
    for i := 0 to |names|
      invariant forall k :: 0 <= k < i ==> forall d :: d in deps[names[k]] ==> d in deps
    {
      var bad := FirstUnknownIn(deps, names[i]);
      if bad.Some? {
        EarlierNames(deps.Keys, i);
        return Some((names[i], bad.value));
      }
    }
    forall k, d | k in deps && d in deps[k] ensures d in deps {
      assert k in names;
    }
    return None;
  }

  lemma FinishOutstanding(deps: Graph, done: set<string>, name: string)
    ensures Finish(Outstanding(deps, done), name) == Outstanding(deps, done + {name})
  {
    forall k | k in deps && k !in done + {name}
      ensures Elements(deps[k]) - done - {name} == Elements(deps[k]) - (done + {name})
    {
    }
  }

  lemma ReadyHasNothingOutstanding(deps: Graph, done: set<string>)
    ensures forall k :: k in Ready(deps, done) <==> k in Outstanding(deps, done) && Outstanding(deps, done)[k] == {}
  {
    forall k | k in deps && k !in done
      ensures Elements(deps[k]) - done == {} <==> forall d :: d in deps[k] ==> d in done
    {
      assert forall d :: d in Elements(deps[k]) - done <==> d in deps[k] && d !in done;
    }
  }

  /** Finish the services of one layer in turn. */
  method FinishLayer(ghost deps: Graph, ghost done: set<string>, remaining: map<string, set<string>>, ready: seq<string>)
    returns (left: map<string, set<string>>)
    requires remaining == Outstanding(deps, done)
    ensures left == Outstanding(deps, done + Elements(ready))
  {
    left := remaining;
    assert done + Elements([]) == done;
    for k := 0 to |ready|
      invariant left == Outstanding(deps, done + Elements(ready[..k]))
    {
      assert ready[..k + 1] == ready[..k] + [ready[k]];
      assert done + Elements(ready[..k + 1]) == done + Elements(ready[..k]) + {ready[k]};
      FinishOutstanding(deps, done + Elements(ready[..k]), ready[k]);
      left := Finish(left, ready[k]);
    }
    assert ready[..|ready|] == ready;
  }

  function AllOutstanding(deps: Graph): (r: map<string, set<string>>)
    ensures r == Outstanding(deps, {})
  {
    assert forall k :: k in deps ==> Elements(deps[k]) == Elements(deps[k]) - {};
    map k | k in deps :: Elements(deps[k])
  }

  /** Peel layer after layer; what is left has no service without outstanding dependencies. */
  method Peel(deps: Graph) returns (order: seq<string>, remaining: map<string, set<string>>)
    ensures order == LayersFrom(deps, {})
    ensures remaining == Outstanding(deps, Elements(order))
    ensures forall k :: k in remaining ==> remaining[k] != {}
  {
    remaining := AllOutstanding(deps);
    order := [];
    ghost var done: set<string>, goal := {}, LayersFrom(deps, {});
    while true
      invariant done == Elements(order)
      invariant remaining == Outstanding(deps, done)
      invariant order + LayersFrom(deps, done) == goal
      decreases |deps.Keys - done|
    {
      var ready := NextLayer(deps, done, remaining);
      if ready == [] {
        NoLayersLeft(deps, done, order);
        return;
      }
      LayerStep(deps, order, ready, done);
      remaining := FinishLayer(deps, done, remaining, ready);
      done, order := done + Elements(ready), order + ready;
    }
  }

  lemma NoLayersLeft(deps: Graph, done: set<string>, order: seq<string>)
    requires Ready(deps, done) == {}
    ensures order + LayersFrom(deps, done) == order
  {
    assert order + [] == order;
  }

  /** The services with nothing outstanding, in name order. */
  method NextLayer(ghost deps: Graph, ghost done: set<string>, remaining: map<string, set<string>>)
    returns (ready: seq<string>)
    requires remaining == Outstanding(deps, done)
    ensures ready == Ascending(Ready(deps, done))
    ensures ready == [] <==> Ready(deps, done) == {}
    ensures ready == [] ==> forall k :: k in remaining ==> remaining[k] != {}
  {
    ReadyHasNothingOutstanding(deps, done);
    var names := set k | k in remaining && remaining[k] == {};
    assert names == Ready(deps, done);
    ready := InOrder(names);
    AscendingFacts(names);
    if names != {} {
      var x :| x in names;
      assert x in ready;
    }
  }

  lemma ElementsConcat(a: seq<string>, b: seq<string>)
    ensures Elements(a + b) == Elements(a) + Elements(b)
  {
  }

  lemma Associative(a: seq<string>, b: seq<string>, c: seq<string>)
    ensures (a + b) + c == a + (b + c)
  {
  }

  lemma LayerElements(deps: Graph, order: seq<string>, ready: seq<string>, done: set<string>)
    requires done == Elements(order) && ready == Ascending(Ready(deps, done))
    ensures Elements(order + ready) == done + Elements(ready) == done + Ready(deps, done)
  {
    ElementsConcat(order, ready);
    AscendingFacts(Ready(deps, done));
    assert Elements(ready) == Ready(deps, done);
  }

  lemma LayerStep(deps: Graph, order: seq<string>, ready: seq<string>, done: set<string>)
    requires done == Elements(order) && Ready(deps, done) != {} && ready == Ascending(Ready(deps, done))
    ensures Elements(order + ready) == done + Elements(ready)
    ensures (order + ready) + LayersFrom(deps, done + Elements(ready)) == order + LayersFrom(deps, done)
    ensures |deps.Keys - (done + Elements(ready))| < |deps.Keys - done|
  {
    LayerElements(deps, order, ready, done);
    LayersUnfold(deps, done);
    Associative(order, ready, LayersFrom(deps, done + Ready(deps, done)));
  }

  function Position(path: seq<string>, name: string): (p: nat)
    requires name in path
    ensures p < |path| && path[p] == name && name !in path[..p]
  {
    if path[0] == name then 0 else 1 + Position(path[1..], name)
  }

  /** A walk along dependency edges. */
  ghost predicate IsPath(deps: Graph, path: seq<string>) {
    forall i :: 0 <= i < |path| - 1 ==> path[i] in deps && path[i + 1] in deps[path[i]]
  }

  lemma ExtendPath(deps: Graph, path: seq<string>, next: string)
    requires IsPath(deps, path) && path != []
    requires path[|path| - 1] in deps && next in deps[path[|path| - 1]]
    ensures IsPath(deps, path + [next])
  {
  }

  lemma CloseCycle(deps: Graph, path: seq<string>, pos: nat)
    requires IsPath(deps, path) && Distinct(path) && pos < |path|
    requires path[|path| - 1] in deps && path[pos] in deps[path[|path| - 1]]
    ensures IsCycle(deps, path[pos..] + [path[pos]])
    ensures forall x :: x in path[pos..] + [path[pos]] ==> x in path
  {
    assert IsPath(deps, path[pos..]) by {
      forall i | 0 <= i < |path[pos..]| - 1
        ensures path[pos..][i] in deps && path[pos..][i + 1] in deps[path[pos..][i]]
      {
        assert path[pos..][i] == path[pos + i] && path[pos..][i + 1] == path[pos + i + 1];
      }
    }
    ExtendPath(deps, path[pos..], path[pos]);
  }

  /** Follow first outstanding dependencies until one repeats. */
  method FindCycle(deps: Graph, remaining: map<string, set<string>>) returns (cycle: seq<string>)
    requires remaining != map[]
    requires forall k :: k in remaining ==> k in deps && remaining[k] != {}
    requires forall k :: k in remaining ==> remaining[k] <= Elements(deps[k]) * remaining.Keys
    ensures IsCycle(deps, cycle)
    ensures forall x :: x in cycle ==> x in remaining
  {
    var start := First(remaining.Keys);
    var path := [start];
    var cur := start;
    while true
      invariant path != [] && cur == path[|path| - 1]
      invariant Distinct(path) && (forall x :: x in path ==> x in remaining) && IsPath(deps, path)
      decreases |remaining.Keys| - |path|
    {
      assert cur in path;
      var next := First(remaining[cur]);
      assert next in Elements(deps[cur]);
      if next in path {
        var pos := Position(path, next);
        CloseCycle(deps, path, pos);
        cycle := path[pos..] + [next];
        return;
      }
      ExtendPath(deps, path, next);
      path := path + [next];
      DistinctFits(path, remaining.Keys);
      cur := next;
    }
  }

  /** The order of a known, acyclic graph, the first unknown dependency, or a cycle. */
  method TopoOrder(deps: Graph) returns (r: Answer)
    ensures r.Ordered? ==> Known(deps) && r.names == LayersFrom(deps, {}) && DependenciesFirst(deps, r.names)
    ensures r.Ordered? ==> ByDepthAndName(deps, r.names)
    ensures r.UnknownDependency? ==> IsFirstUnknown(deps, r.service, r.dependency)
    ensures r.Cycle? ==> Known(deps) && IsCycle(deps, r.path)
    ensures r.Ordered? <==> Known(deps) && Acyclic(deps)
  {
    var unknown := FirstUnknown(deps);
    if unknown.Some? {
      return UnknownDependency(unknown.value.0, unknown.value.1);
    }
    var order, remaining := Peel(deps);
    LayersMembers(deps, {});
    if remaining == map[] {
      forall k | k in deps ensures k in order {
        assert k !in remaining;
      }
      LayersAreOrdered(deps);
      OrderByDepthAndName(deps);
      SortedMeansAcyclic(deps, order);
      return Ordered(order);
    }
    var cycle := FindCycle(deps, remaining);
    return Cycle(cycle);
  }

  // ----- the order among independent services

  /** No chain of dependencies from the service is longer than n services. */
  ghost predicate Shallow(deps: Graph, k: string, n: nat)
    decreases n
  {
    n > 0 && k in deps && forall d :: d in deps[k] ==> Shallow(deps, d, n - 1)
  }

  lemma {:induction false} ShallowGrows(deps: Graph, k: string, n: nat)
    requires Shallow(deps, k, n)
    ensures Shallow(deps, k, n + 1)
    decreases n
  {
    forall d | d in deps[k] ensures Shallow(deps, d, n) {
      ShallowGrows(deps, d, n - 1);
    }
  }

  /** Shallower services come first, and services as deep as each other in name order. */
  ghost predicate ByDepthAndName(deps: Graph, order: seq<string>) {
    forall i, j :: 0 <= i < j < |order| ==> Before(deps, order[i], order[j])
  }

  ghost predicate Before(deps: Graph, a: string, b: string) {
    && (forall n: nat :: Shallow(deps, b, n) ==> Shallow(deps, a, n))
    && ((forall n: nat :: Shallow(deps, a, n) ==> Shallow(deps, b, n)) ==> Leq(a, b))
  }

  lemma {:induction false} ShallowUpTo(deps: Graph, k: string, m: nat, n: nat)
    requires m <= n && Shallow(deps, k, m)
    ensures Shallow(deps, k, n)
    decreases n - m
  {
    if m < n {
      ShallowGrows(deps, k, m);
      ShallowUpTo(deps, k, m + 1, n);
    }
  }

  /** Services of different depth, or of the same depth and in name order. */
  lemma LayersBefore(deps: Graph, a: string, b: string, n: nat)
    requires Shallow(deps, a, n + 1) && !Shallow(deps, a, n) && !Shallow(deps, b, n)
    requires Shallow(deps, b, n + 1) ==> Leq(a, b)
    ensures Before(deps, a, b)
  {
    forall m: nat | Shallow(deps, b, m) ensures Shallow(deps, a, m) {
      if m <= n {
        ShallowUpTo(deps, b, m, n);
      } else {
        ShallowUpTo(deps, a, n + 1, m);
      }
    }
  }

  lemma ReadyByDepth(deps: Graph, done: set<string>, n: nat)
    requires forall k :: k in done <==> Shallow(deps, k, n)
    ensures forall k :: k in Ready(deps, done) <==> Shallow(deps, k, n + 1) && !Shallow(deps, k, n)
    ensures forall k :: k in done + Ready(deps, done) <==> Shallow(deps, k, n + 1)
  {
    forall k | k in done ensures Shallow(deps, k, n + 1) {
      ShallowGrows(deps, k, n);
    }
    forall k ensures k in Ready(deps, done) <==> Shallow(deps, k, n + 1) && !Shallow(deps, k, n) {
      if k in deps {
        assert (forall d :: d in deps[k] ==> d in done) <==> forall d :: d in deps[k] ==> Shallow(deps, d, n);
      }
    }
  }

  lemma {:induction false} LayersByDepth(deps: Graph, done: set<string>, n: nat)
    requires forall k :: k in done <==> Shallow(deps, k, n)
    ensures ByDepthAndName(deps, LayersFrom(deps, done))
    ensures forall k :: k in LayersFrom(deps, done) ==> !Shallow(deps, k, n)
    decreases |deps.Keys - done|
  {
    var ready := Ready(deps, done);
    if ready != {} {
      LayersUnfold(deps, done);
      ReadyByDepth(deps, done, n);
      LayersByDepth(deps, done + ready, n + 1);
      AscendingFacts(ready);
      AscendingIsSorted(ready);
      var first, rest := Ascending(ready), LayersFrom(deps, done + ready);
      LayersJoin(deps, first, rest, n);
    }
  }

  lemma LayersJoin(deps: Graph, first: seq<string>, rest: seq<string>, n: nat)
    requires Sorted(first, Leq) && ByDepthAndName(deps, rest)
    requires forall k :: k in first ==> Shallow(deps, k, n + 1) && !Shallow(deps, k, n)
    requires forall k :: k in rest ==> !Shallow(deps, k, n + 1)
    ensures ByDepthAndName(deps, first + rest)
    ensures forall k :: k in first + rest ==> !Shallow(deps, k, n)
  {
    var all := first + rest;
    forall k | k in rest ensures !Shallow(deps, k, n) {
      if Shallow(deps, k, n) {
        ShallowGrows(deps, k, n);
      }
    }
    forall i, j | 0 <= i < j < |all| ensures Before(deps, all[i], all[j]) {
      if i < |first| {
        assert all[i] in first;
        assert if j < |first| then all[j] in first && Leq(all[i], all[j]) else all[j] in rest;
        LayersBefore(deps, all[i], all[j], n);
      } else {
        assert all[i] == rest[i - |first|] && all[j] == rest[j - |first|];
      }
    }
  }

  /** The whole order goes by depth and name. */
  lemma OrderByDepthAndName(deps: Graph)
    ensures ByDepthAndName(deps, LayersFrom(deps, {}))
  {
    LayersByDepth(deps, {}, 0);
  }

  // ----- soundness and completeness

  /** Along a path of dependency edges positions in the order fall. */
  lemma {:induction false} PathGoesBack(deps: Graph, order: seq<string>, path: seq<string>, n: nat)
    requires DependenciesFirst(deps, order) && 0 < n < |path|
    requires forall i :: 0 <= i < |path| - 1 ==> path[i] in deps && path[i + 1] in deps[path[i]]
    ensures path[0] in order && path[n] in order && Position(order, path[n]) < Position(order, path[0])
  {
    EdgeGoesBack(deps, order, path[n - 1], path[n]);
    if n > 1 {
      PathGoesBack(deps, order, path, n - 1);
    }
  }

  lemma {:induction false} PositionAtMost(path: seq<string>, j: nat)
    requires j < |path|
    ensures Position(path, path[j]) <= j
  {
    if path[0] != path[j] {
      PositionAtMost(path[1..], j - 1);
    }
  }

  lemma EdgeGoesBack(deps: Graph, order: seq<string>, a: string, b: string)
    requires DependenciesFirst(deps, order) && a in deps && b in deps[a]
    ensures a in order && b in order && Position(order, b) < Position(order, a)
  {
    var i := Position(order, a);
    assert b in order[..i];
    var j :| 0 <= j < i && order[..i][j] == b;
    assert order[j] == b;
    PositionAtMost(order, j);
  }

  lemma SortedMeansAcyclic(deps: Graph, order: seq<string>)
    requires DependenciesFirst(deps, order)
    ensures Acyclic(deps)
  {
    forall path ensures !IsCycle(deps, path) {
      if IsCycle(deps, path) {
        PathGoesBack(deps, order, path, |path| - 1);
      }
    }
  }

  function ShutdownOrder(order: seq<string>): (r: seq<string>)
    ensures |r| == |order|
  {
    if order == [] then [] else ShutdownOrder(order[1..]) + [order[0]]
  }

  lemma {:induction false} ReversedAt(order: seq<string>, k: nat)
    requires k < |order|
    ensures ShutdownOrder(order)[k] == order[|order| - 1 - k]
  {
    if k < |order| - 1 {
      ReversedAt(order[1..], k);
    }
  }

  /** Shutting down in the reverse order stops every dependent before what it depends on. */
  lemma DependentsStopFirst(deps: Graph, order: seq<string>, i: nat, j: nat)
    requires DependenciesFirst(deps, order) && i < |order| && j < |order|
    requires ShutdownOrder(order)[i] in deps && ShutdownOrder(order)[j] in deps[ShutdownOrder(order)[i]]
    ensures i < j
  {
    ReversedAt(order, i);
    ReversedAt(order, j);
    var a, b := |order| - 1 - i, |order| - 1 - j;
    assert order[b] in order[..a];
    var k :| 0 <= k < a && order[..a][k] == order[b];
    assert k == b;
  }
}
