/** Scaling down outside a rollout: who is drained, and what that leaves available. */
module ScaleDown {
  import opened Basics
  import opened Order
  import opened Rollout
  import opened RolloutCounting
  import opened RolloutSafety

  /** Drained earlier: less connected, or as connected with a higher index. */
  predicate Before(a: Replica, b: Replica) {
    a.connections < b.connections || (a.connections == b.connections && b.index < a.index)
  }

  function NewBefore(target: string, r: Replica): Replica -> bool {
    (x: Replica) => LiveReplica(x) && x.revision == target && Before(x, r)
  }

  /** How many replicas would be drained before this one. */
  function Ahead(s: State, r: Replica): nat { Count(s.replicas, NewBefore(s.target, r)) }

  /** Ready, with at least as many replicas ahead as are in excess. */
  function Outlasts(s: State): Replica -> bool {
    (r: Replica) => ReadyReplica(r, s.policy.minReadySecs) && Ahead(s, r) >= Sub(|s.New()|, s.desired)
  }

  // ----- counting through selections and sorts

  lemma {:induction false} CountWithin(rs: seq<Replica>, q: Replica -> bool, p: Replica -> bool, both: Replica -> bool)
    requires forall r <- rs :: both(r) <==> q(r) && p(r)
    ensures Count(Select(rs, q), p) == Count(rs, both)
  {
    if rs != [] {
      CountWithin(rs[1..], q, p, both);
      var rest := Select(rs[1..], q);
      if q(rs[0]) {
        assert ([rs[0]] + rest)[1..] == rest;
      }
    }
  }

  lemma {:induction false} CountInsert(x: Replica, xs: seq<Replica>, le: (Replica, Replica) -> bool, p: Replica -> bool)
    ensures Count(Insert(x, xs, le), p) == Count([x], p) + Count(xs, p)
  {
    if xs == [] {
      assert Count(xs, p) == 0;
    } else if le(x, xs[0]) {
      CountConcat([x], xs, p);
    } else {
      CountInsert(x, xs[1..], le, p);
      CountConcat([xs[0]], Insert(x, xs[1..], le), p);
      CountConcat([xs[0]], xs[1..], p);
      assert xs == [xs[0]] + xs[1..];
    }
  }

  lemma {:induction false} CountSort(xs: seq<Replica>, le: (Replica, Replica) -> bool, p: Replica -> bool)
    ensures Count(Sort(xs, le), p) == Count(xs, p)
  {
    if xs != [] {
      CountSort(xs[1..], le, p);
      CountInsert(xs[0], Sort(xs[1..], le), le, p);
      CountConcat([xs[0]], xs[1..], p);
      assert xs == [xs[0]] + xs[1..];
    }
  }

  lemma {:induction false} CountNobody(rs: seq<Replica>, p: Replica -> bool)
    requires forall r <- rs :: !p(r)
    ensures Count(rs, p) == 0
  {
    if rs != [] {
      CountNobody(rs[1..], p);
    }
  }

  lemma {:induction false} CountSame(rs: seq<Replica>, p: Replica -> bool, q: Replica -> bool)
    requires forall r <- rs :: p(r) <==> q(r)
    ensures Count(rs, p) == Count(rs, q)
  {
    if rs != [] {
      CountSame(rs[1..], p, q);
    }
  }

  // ----- who is ahead

  function ByPlace(s: State): seq<Replica> { Sort(s.New(), ByLoad()) }

  lemma PlacesFacts(s: State)
    requires DistinctIndexes(s.replicas)
    ensures Sorted(ByPlace(s), ByLoad()) && DistinctIndexes(ByPlace(s))
    ensures forall r :: r in ByPlace(s) <==> r in s.New()
  {
    SortSorted(s.New(), ByLoad());
    SortMembers(s.New(), ByLoad());
    SelectDistinct(s.replicas, IsNew(s.target));
    SortDistinct(s.New(), ByLoad());
  }

  lemma PlacesOrder(sorted: seq<Replica>, i: nat, j: nat)
    requires Sorted(sorted, ByLoad()) && DistinctIndexes(sorted) && i < j < |sorted|
    ensures Before(sorted[i], sorted[j]) && !Before(sorted[j], sorted[i])
  {
    assert ByLoad()(sorted[i], sorted[j]);
  }

  lemma CountBefore(sorted: seq<Replica>, target: string, j: nat)
    requires Sorted(sorted, ByLoad()) && DistinctIndexes(sorted) && j < |sorted|
    requires forall r <- sorted :: LiveReplica(r) && r.revision == target
    ensures Count(sorted, NewBefore(target, sorted[j])) == j
  {
    var p := NewBefore(target, sorted[j]);
    forall i | 0 <= i < |sorted| ensures p(sorted[i]) <==> i < j {
      assert sorted[i] in sorted;
      if i < j {
        PlacesOrder(sorted, i, j);
      } else if j < i {
        PlacesOrder(sorted, j, i);
      }
    }
    CountPrefix(sorted, j, p);
  }

  lemma {:induction false} CountPrefix(xs: seq<Replica>, j: nat, p: Replica -> bool)
    requires j <= |xs| && forall i :: 0 <= i < |xs| ==> (p(xs[i]) <==> i < j)
    ensures Count(xs, p) == j
  {
    if xs != [] {
      CountPrefix(xs[1..], Sub(j, 1), p);
    }
  }

  /** A replica's place in the draining order is the number of replicas ahead of it. */
  lemma AheadIsPlace(s: State, j: nat)
    requires DistinctIndexes(s.replicas) && j < |ByPlace(s)|
    ensures Ahead(s, ByPlace(s)[j]) == j
  {
    var p := NewBefore(s.target, ByPlace(s)[j]);
    PlacesFacts(s);
    CountWithin(s.replicas, IsNew(s.target), p, p);
    CountSort(s.New(), ByLoad(), p);
    CountBefore(ByPlace(s), s.target, j);
  }

  lemma PrefixMember(xs: seq<Replica>, n: nat, j: nat)
    requires DistinctIndexes(xs) && n <= |xs| && j < |xs|
    ensures xs[j] in xs[..n] <==> j < n
  {
    if j < n {
      assert xs[..n][j] == xs[j];
    } else {
      forall i | 0 <= i < n ensures xs[..n][i] != xs[j] {
        assert xs[i].index != xs[j].index;
      }
    }
  }

  /** Outside a rollout exactly those replicas are drained that have fewer ahead of them than are in excess. */
  lemma DrainedExactly(s: State, r: Replica)
    requires !s.RollingOut() && DistinctIndexes(s.replicas)
    ensures r in Victims(s) <==> r in s.New() && Ahead(s, r) < Sub(|s.New()|, s.desired)
  {
    var sorted, n := ByPlace(s), Sub(|s.New()|, s.desired);
    PlacesFacts(s);
    assert Victims(s) == sorted[..n];
    assert r in sorted[..n] ==> r in sorted;
    if r in s.New() {
      var j :| 0 <= j < |sorted| && sorted[j] == r;
      AheadIsPlace(s, j);
      PrefixMember(sorted, n, j);
    }
  }

  // ----- what is left available

  lemma AvailableAfter(s: State)
    requires s.Valid() && DistinctIndexes(s.replicas) && !s.paused && !s.RollingOut() && |s.New()| > s.desired
    ensures var s' := Occur(s, Plan);
      && s'.Required() == s.Required()
      && s'.Available() == s.Available() - Count(Victims(s), Ready(s.policy.minReadySecs))
  {
    assert LiveOnly(Ready(s.policy.minReadySecs));
    WorkEffect(s);
    FreshCounts(Starts(s), s.target, s.policy.minReadySecs, s.target);
    assert |DrainActions(Victims(s))| == |Victims(s)| > 0;
    WorkOnReplicas(s);
  }

  lemma PlacesOutlast(s: State, n: nat)
    requires DistinctIndexes(s.replicas) && n == Sub(|s.New()|, s.desired)
    ensures n <= |ByPlace(s)|
    ensures forall r <- ByPlace(s)[..n] :: !Outlasts(s)(r)
    ensures forall r <- ByPlace(s)[n..] :: Outlasts(s)(r) <==> ReadyReplica(r, s.policy.minReadySecs)
  {
    var sorted := ByPlace(s);
    forall r <- sorted[..n] ensures !Outlasts(s)(r) {
      var j :| 0 <= j < n && sorted[j] == r;
      AheadIsPlace(s, j);
    }
    forall r <- sorted[n..] ensures Outlasts(s)(r) <==> ReadyReplica(r, s.policy.minReadySecs) {
      var j :| n <= j < |sorted| && sorted[j] == r;
      AheadIsPlace(s, j);
    }
  }

  lemma CountByPlace(s: State, p: Replica -> bool)
    requires !s.RollingOut() && forall r :: p(r) ==> LiveReplica(r)
    ensures Count(ByPlace(s), p) == Count(s.replicas, p)
  {
    forall r <- s.replicas ensures p(r) <==> IsNew(s.target)(r) && p(r) {
      assert IsOld(s.target)(r) ==> r in s.Old();
    }
    CountWithin(s.replicas, IsNew(s.target), p, p);
    CountSort(s.New(), ByLoad(), p);
  }

  /** The ready replicas that are not drained are the ones that outlast the excess. */
  lemma SurvivorsOutlast(s: State)
    requires DistinctIndexes(s.replicas) && !s.RollingOut()
    ensures s.Available() == Count(Victims(s), Ready(s.policy.minReadySecs)) + Count(s.replicas, Outlasts(s))
  {
    var sorted, n := ByPlace(s), Sub(|s.New()|, s.desired);
    var ready, outlasts := Ready(s.policy.minReadySecs), Outlasts(s);
    CountByPlace(s, ready);
    CountByPlace(s, outlasts);
    PlacesOutlast(s, n);
    assert sorted == sorted[..n] + sorted[n..];
    CountConcat(sorted[..n], sorted[n..], ready);
    CountConcat(sorted[..n], sorted[n..], outlasts);
    CountNobody(sorted[..n], outlasts);
    CountSame(sorted[n..], ready, outlasts);
  }

  /** A lowered desired count keeps availability exactly when enough ready replicas have at least as many
      replicas ahead of them as are in excess. */
  lemma ScaleDownAvailability(s: State)
    requires s.Valid() && DistinctIndexes(s.replicas) && !s.paused && !s.RollingOut() && |s.New()| > s.desired
    ensures AvailabilityKept(Occur(s, Plan)) <==> Count(s.replicas, Outlasts(s)) >= s.Required()
  {
    AvailableAfter(s);
    SurvivorsOutlast(s);
  }

  const STARTING: Replica := Replica(0, "r", Starting, Live, false, 0)
  const SERVING: Replica := Replica(1, "r", Healthy(0), Live, false, 0)
  const SHRINKING: State :=
    State(1, "r", None, Policy(Rolling, 1, 0, 0, 0, 0, PauseOnFailure), 0, [STARTING, SERVING], 0, 0, false)

  /** And it can fail: of two equally connected replicas, the lower one starting and the higher one ready,
      wanting only one drains the ready one. */
  lemma ScaleDownMayDrainTheReadyReplica()
    ensures SHRINKING.Valid() && DistinctIndexes(SHRINKING.replicas) && AvailabilityKept(SHRINKING)
    ensures !AvailabilityKept(Occur(SHRINKING, Plan))
  {
    var s := SHRINKING;
    CountPair(STARTING, SERVING, IsAlive());
    CountPair(STARTING, SERVING, Ready(0));
    CountPair(STARTING, SERVING, IsOld("r"));
    CountPair(STARTING, SERVING, IsNew("r"));
    CountPair(STARTING, SERVING, NewBefore("r", SERVING));
    assert Ahead(s, SERVING) == 0;
    CountPair(STARTING, SERVING, Outlasts(s));
    ScaleDownAvailability(s);
  }

  lemma CountPair(a: Replica, b: Replica, p: Replica -> bool)
    ensures Count([a, b], p) == (if p(a) then 1 else 0) + (if p(b) then 1 else 0)
  {
    assert [a, b] == [a] + [b];
    CountConcat([a], [b], p);
    CountOne(a, p);
    CountOne(b, p);
  }
}
