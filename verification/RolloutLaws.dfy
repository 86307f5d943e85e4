/** What one planner step does, exactly, replica by replica and slot by slot. */
module RolloutLaws {
  import opened Basics
  import opened Order
  import opened Rollout
  import opened RolloutCounting
  import opened RolloutSafety
  import opened ScaleDown

  /** How many entries satisfy a condition. */
  ghost function Number(rs: seq<Replica>, p: Replica -> bool): nat { |set k | 0 <= k < |rs| && p(rs[k])| }

  lemma NumberOfNone(rs: seq<Replica>, p: Replica -> bool)
    ensures |rs| == 0 ==> Number(rs, p) == 0
  {
    var all := set k | 0 <= k < |rs| && p(rs[k]);
    assert |rs| == 0 ==> all == {};
  }

  lemma NumberSplit(rs: seq<Replica>, p: Replica -> bool, n: nat)
    requires |rs| == n + 1
    ensures Number(rs, p) == Number(rs[..n], p) + if p(rs[n]) then 1 else 0
  {
    var all := set k | 0 <= k < |rs| && p(rs[k]);
    var before := set k | 0 <= k < |rs[..n]| && p(rs[..n][k]);
    assert all == before + if p(rs[n]) then {n} else {};
  }

  lemma {:induction false} CountIsNumber(rs: seq<Replica>, p: Replica -> bool)
    ensures Count(rs, p) == Number(rs, p)
  {
    NumberOfNone(rs, p);
    if |rs| != 0 {
      var n := |rs| - 1;
      CountIsNumber(rs[..n], p);
      NumberSplit(rs, p, n);
      assert rs == rs[..n] + [rs[n]];
      CountConcat(rs[..n], [rs[n]], p);
      CountOne(rs[n], p);
    }
  }

  // ----- conditions on single replicas

  predicate InService(r: Replica, s: State) {
    r.lifecycle == Live && r.health.Healthy? && r.health.forSecs >= s.policy.minReadySecs
  }

  predicate Current(r: Replica, s: State) { r.lifecycle == Live && r.revision == s.target }

  predicate Outdated(r: Replica, s: State) { r.lifecycle == Live && r.revision != s.target }

  predicate Expired(r: Replica, s: State) { r.lifecycle.Draining? && r.lifecycle.drainingSecs >= s.drainSecs }

  ghost predicate InRollout(s: State) { exists r <- s.replicas :: Outdated(r, s) }

  lemma RollingOutExact(s: State)
    ensures s.RollingOut() <==> InRollout(s)
  {
    if s.RollingOut() {
      assert s.Old()[0] in s.Old();
      assert Outdated(s.Old()[0], s);
    }
    if r :| r in s.replicas && Outdated(r, s) {
      assert r in s.Old();
    }
  }

  // ----- when a rollout stops

  ghost predicate HasFailed(s: State) { exists r <- s.replicas :: Current(r, s) && r.failed }

  /** A rollout with a failed replica of the target, or past its deadline, goes back if the policy says so and there
      is somewhere to go, and pauses otherwise; a rolling rollout without any room pauses. */
  lemma ObstacleExact(s: State)
    requires s.Valid() && !s.paused && InRollout(s)
    ensures var p, failed := s.policy, HasFailed(s) || s.elapsedSecs > s.policy.progressDeadlineSecs;
      && (failed && p.onFailure == RollbackOnFailure && s.previous.Some? ==> NextStep(s) == [Rollback(s.previous.value)])
      && (failed && !(p.onFailure == RollbackOnFailure && s.previous.Some?) ==> |NextStep(s)| == 1 && NextStep(s)[0].Pause?)
      && (!failed && p.strategy == Rolling && p.maxSurge == 0 && p.maxUnavailable == 0 ==>
            |NextStep(s)| == 1 && NextStep(s)[0].Pause?)
      && (Obstacle(s).None? <==> !failed && !(p.strategy == Rolling && p.maxSurge == 0 && p.maxUnavailable == 0))
  {
    RollingOutExact(s);
    var failed := Select(s.replicas, IsFailedNew(s.target));
    if failed != [] {
      assert failed[0] in failed && Current(failed[0], s) && failed[0].failed;
    }
    if r :| r in s.replicas && Current(r, s) && r.failed {
      assert r in failed;
    }
  }

  // ----- removals

  lemma WorkMembers(s: State, a: Action)
    ensures a in Work(s) <==>
      || (a.Remove? && exists r <- Drained(s) :: r.index == a.index)
      || (a.Drain? && exists r <- Victims(s) :: r.index == a.index)
      || (a.Start? && a.revision == s.target && a.index in Starts(s))
  {
    var removes, drains, starts := RemoveActions(Drained(s)), DrainActions(Victims(s)), StartActions(Starts(s), s.target);
    assert a in Work(s) <==> a in removes || a in drains || a in starts;
    ActionsMembers(s, a);
  }

  lemma ActionsMembers(s: State, a: Action)
    ensures a in RemoveActions(Drained(s)) <==> a.Remove? && exists r <- Drained(s) :: r.index == a.index
    ensures a in DrainActions(Victims(s)) <==> a.Drain? && exists r <- Victims(s) :: r.index == a.index
    ensures a in StartActions(Starts(s), s.target) <==> a.Start? && a.revision == s.target && a.index in Starts(s)
  {
    RemoveMembers(Drained(s), a);
    DrainMembers(Victims(s), a);
    StartMembers(Starts(s), s.target, a);
  }

  lemma RemoveMembers(rs: seq<Replica>, a: Action)
    ensures a in RemoveActions(rs) <==> a.Remove? && exists r <- rs :: r.index == a.index
  {
    if a.Remove? {
      if r :| r in rs && r.index == a.index {
        var k :| 0 <= k < |rs| && rs[k] == r;
        assert RemoveActions(rs)[k] == a;
      }
    }
  }

  lemma DrainMembers(rs: seq<Replica>, a: Action)
    ensures a in DrainActions(rs) <==> a.Drain? && exists r <- rs :: r.index == a.index
  {
    if a.Drain? {
      if r :| r in rs && r.index == a.index {
        var k :| 0 <= k < |rs| && rs[k] == r;
        assert DrainActions(rs)[k] == a;
      }
    }
  }

  lemma StartMembers(ix: seq<nat>, revision: string, a: Action)
    ensures a in StartActions(ix, revision) <==> a.Start? && a.revision == revision && a.index in ix
  {
    if a.Start? && a.revision == revision && a.index in ix {
      var k :| 0 <= k < |ix| && ix[k] == a.index;
      assert StartActions(ix, revision)[k] == a;
    }
  }

  /** A step without an obstacle works, or reports completion when there is no work. */
  lemma StepMembers(s: State, a: Action)
    requires s.Valid() && !s.paused && Obstacle(s).None?
    ensures a.Remove? || a.Drain? || a.Start? ==> (a in NextStep(s) <==> a in Work(s))
  {
  }

  /** Exactly the replicas that have drained for long enough are removed. */
  lemma RemovesExactly(s: State, i: nat)
    requires s.Valid() && !s.paused && Obstacle(s).None?
    ensures Remove(i) in NextStep(s) <==> exists r <- s.replicas :: Expired(r, s) && r.index == i
  {
    StepMembers(s, Remove(i));
    WorkMembers(s, Remove(i));
    if r :| r in s.replicas && Expired(r, s) && r.index == i {
      assert r in Drained(s);
    }
    if r :| r in Drained(s) && r.index == i {
      assert Expired(r, s);
    }
  }

  function Rank(a: Action): nat {
    match a
    case Remove(_) => 0
    case Drain(_) => 1
    case Start(_, _) => 2
    case Rollback(_) => 3
    case Pause(_) => 3
    case Complete => 3
  }

  /** A step removes first, then drains, then starts. */
  lemma StepInOrder(s: State, i: nat, j: nat)
    requires s.Valid() && i < j < |NextStep(s)|
    ensures Rank(NextStep(s)[i]) <= Rank(NextStep(s)[j]) <= 2
  {
    NextStepCases(s);
  }

  // ----- the pace

  /** Before the delay since the last action has passed, a rolling or canary rollout only removes what has drained. */
  lemma BeforeTheDelay(s: State)
    requires s.Valid() && !s.paused && InRollout(s) && Obstacle(s).None?
    requires s.policy.strategy != Recreate && s.sinceLastActionSecs < s.policy.delaySecs
    ensures forall a <- NextStep(s) :: a.Remove? && exists r <- s.replicas :: Expired(r, s) && r.index == a.index
  {
    RollingOutExact(s);
    assert Victims(s) == [] && Starts(s) == [];
    forall a <- NextStep(s) ensures a.Remove? && exists r <- s.replicas :: Expired(r, s) && r.index == a.index {
      WorkMembers(s, a);
      RemovesExactly(s, a.index);
    }
  }

  /** Recreating waits for the delay too, unless something has drained; it never starts anything in a rollout. */
  lemma RecreatePace(s: State, r: Replica, i: nat)
    requires s.Valid() && !s.paused && InRollout(s) && Obstacle(s).None? && s.policy.strategy == Recreate
    requires DistinctIndexes(s.replicas) && r in s.replicas
    ensures Drain(r.index) in NextStep(s) <==>
      Outdated(r, s) && (s.sinceLastActionSecs >= s.policy.delaySecs || exists x <- s.replicas :: Expired(x, s))
    ensures forall revision :: Start(i, revision) !in NextStep(s)
  {
    RollingOutExact(s);
    StepMembers(s, Drain(r.index));
    WorkMembers(s, Drain(r.index));
    SameIndexSameReplica(s.replicas);
    if x :| x in s.replicas && Expired(x, s) {
      assert x in Drained(s);
    }
    assert Drained(s) != [] ==> Drained(s)[0] in Drained(s) && Expired(Drained(s)[0], s);
    forall revision ensures Start(i, revision) !in NextStep(s) {
      StepMembers(s, Start(i, revision));
      WorkMembers(s, Start(i, revision));
    }
  }

  lemma SameIndexSameReplica(rs: seq<Replica>)
    requires DistinctIndexes(rs)
    ensures forall x, y :: x in rs && y in rs && x.index == y.index ==> x == y
  {
  }

  // ----- who is drained by a rolling or canary rollout

  function ReadyOldAbove(s: State, r: Replica): Replica -> bool {
    (x: Replica) => Outdated(x, s) && InService(x, s) && x.index > r.index
  }

  /** How many ready replicas can be spared. */
  ghost function Spare(s: State): nat {
    Sub(Number(s.replicas, (x: Replica) => InService(x, s)), Sub(s.desired, s.policy.maxUnavailable))
  }

  lemma PlaceByIndex(s: State, j: nat)
    requires DistinctIndexes(s.replicas) && j < |ReadyOldByIndex(s)|
    ensures Number(s.replicas, ReadyOldAbove(s, ReadyOldByIndex(s)[j])) == j
  {
    var sorted, q := ReadyOldByIndex(s), ReadyOld(s.target, s.policy.minReadySecs);
    var p := ReadyOldAbove(s, sorted[j]);
    SortSorted(Select(s.replicas, q), ByIndexDown());
    SortMembers(Select(s.replicas, q), ByIndexDown());
    SelectDistinct(s.replicas, q);
    SortDistinct(Select(s.replicas, q), ByIndexDown());
    CountIsNumber(s.replicas, p);
    CountWithin(s.replicas, q, p, p);
    CountSort(Select(s.replicas, q), ByIndexDown(), p);
    CountAbove(s, sorted, j);
  }

  lemma CountAbove(s: State, sorted: seq<Replica>, j: nat)
    requires j < |sorted| && Sorted(sorted, ByIndexDown()) && DistinctIndexes(sorted)
    requires forall r <- sorted :: Outdated(r, s) && InService(r, s)
    ensures Count(sorted, ReadyOldAbove(s, sorted[j])) == j
  {
    var p := ReadyOldAbove(s, sorted[j]);
    forall i | 0 <= i < |sorted| ensures p(sorted[i]) <==> i < j {
      assert sorted[i] in sorted;
      if i < j {
        assert ByIndexDown()(sorted[i], sorted[j]);
      } else if j < i {
        assert ByIndexDown()(sorted[j], sorted[i]);
      }
    }
    CountPrefix(sorted, j, p);
  }

  lemma SpareIsAllowed(s: State)
    ensures Spare(s) == Allowed(s)
  {
    var p := (x: Replica) => InService(x, s);
    CountIsNumber(s.replicas, p);
    CountSame(s.replicas, p, Ready(s.policy.minReadySecs));
  }

  lemma VictimExact(s: State, r: Replica)
    requires DistinctIndexes(s.replicas) && r in s.replicas
    ensures r in RollingVictims(s) <==>
      Outdated(r, s) && (!InService(r, s) || Number(s.replicas, ReadyOldAbove(s, r)) < Spare(s))
  {
    var sorted := ReadyOldByIndex(s);
    var n := Min(Allowed(s), |sorted|);
    var q := ReadyOld(s.target, s.policy.minReadySecs);
    SpareIsAllowed(s);
    SortMembers(Select(s.replicas, q), ByIndexDown());
    SelectDistinct(s.replicas, q);
    SortDistinct(Select(s.replicas, q), ByIndexDown());
    assert r in RollingVictims(s) <==> r in Select(s.replicas, UnreadyOld(s.target, s.policy.minReadySecs)) || r in sorted[..n];
    assert r in sorted[..n] ==> r in sorted;
    if r in sorted {
      var j :| 0 <= j < |sorted| && sorted[j] == r;
      PlaceByIndex(s, j);
      PrefixMember(sorted, n, j);
    }
  }

  /** Once the delay has passed, exactly those old replicas are drained that are not ready, or that have fewer ready
      old ones above them than can be spared. */
  lemma RollingDrainsExactly(s: State, r: Replica)
    requires s.Valid() && !s.paused && InRollout(s) && Obstacle(s).None?
    requires s.policy.strategy != Recreate && s.sinceLastActionSecs >= s.policy.delaySecs
    requires DistinctIndexes(s.replicas) && r in s.replicas
    ensures Drain(r.index) in NextStep(s) <==>
      Outdated(r, s) && (!InService(r, s) || Number(s.replicas, ReadyOldAbove(s, r)) < Spare(s))
  {
    RollingOutExact(s);
    StepMembers(s, Drain(r.index));
    WorkMembers(s, Drain(r.index));
    SameIndexSameReplica(s.replicas);
    RollingVictimsAreOld(s);
    VictimExact(s, r);
  }

  // ----- what is started

  /** How many replicas a step has to start. */
  ghost function Missing(s: State): nat {
    var lives := Number(s.replicas, (x: Replica) => x.lifecycle == Live);
    var news := Number(s.replicas, (x: Replica) => Current(x, s));
    if !InRollout(s) then
      if s.policy.strategy == Recreate && (exists r <- s.replicas :: r.lifecycle != Live && r.revision != s.target) then 0
      else Sub(s.desired, news)
    else if s.policy.strategy == Recreate || s.sinceLastActionSecs < s.policy.delaySecs then 0
    else Min(Sub(s.desired, news), Sub(s.desired + s.policy.maxSurge, lives))
  }

  /** The slot is below the bound, and nobody uses its index. */
  predicate FreeSlot(s: State, i: nat) {
    i < s.desired + s.policy.maxSurge && forall r <- s.replicas :: r.index != i
  }

  lemma MissingStarts(s: State)
    ensures Starts(s) == FreeIndexes(s.replicas, s.Bound(), Missing(s))
  {
    RollingOutExact(s);
    var live, current := (x: Replica) => x.lifecycle == Live, (x: Replica) => Current(x, s);
    CountIsNumber(s.replicas, live);
    CountIsNumber(s.replicas, current);
    CountSame(s.replicas, live, IsAlive());
    CountSame(s.replicas, current, IsNew(s.target));
    var draining := Select(s.replicas, IsDrainingOld(s.target));
    assert draining != [] ==> draining[0] in draining;
    if r :| r in s.replicas && r.lifecycle != Live && r.revision != s.target {
      assert r in draining;
    }
    assert FreeIndexes(s.replicas, s.Bound(), 0) == [];
  }

  lemma UsedExact(s: State, i: nat)
    ensures i < s.Bound() && !Used(s.replicas, i) <==> FreeSlot(s, i)
  {
    if Used(s.replicas, i) {
      var k :| 0 <= k < |s.replicas| && s.replicas[k].index == i;
      assert s.replicas[k] in s.replicas;
    }
  }

  lemma AllFreeUsed(rs: seq<Replica>, bound: nat, want: nat, i: nat)
    requires |FreeIndexes(rs, bound, want)| < want && i < bound && !Used(rs, i)
    ensures i in FreeIndexes(rs, bound, want)
  {
    FreeFromExact(rs, 0, bound);
    assert FreeIndexes(rs, bound, want) == FreeFrom(rs, 0, bound);
  }

  lemma StartedExactly(s: State, i: nat, revision: string)
    requires s.Valid() && !s.paused && Obstacle(s).None?
    ensures Start(i, revision) in NextStep(s) <==> revision == s.target && i in Starts(s)
  {
    StepMembers(s, Start(i, revision));
    WorkMembers(s, Start(i, revision));
  }

  /** The indexes of the replicas a step starts. */
  ghost function Begun(s: State): set<nat>
    requires s.Valid()
  {
    set a | a in NextStep(s) && a.Start? :: a.index
  }

  function Members(ix: seq<nat>): set<nat> { set i | i in ix }

  lemma {:induction false} AscendingSize(ix: seq<nat>)
    requires forall j, k :: 0 <= j < k < |ix| ==> ix[j] < ix[k]
    ensures |Members(ix)| == |ix|
  {
    if ix != [] {
      var n := |ix| - 1;
      AscendingSize(ix[..n]);
      assert ix == ix[..n] + [ix[n]];
      assert ix[n] !in ix[..n];
      assert Members(ix) == Members(ix[..n]) + {ix[n]};
    }
  }

  lemma BegunIsStarts(s: State)
    requires s.Valid() && !s.paused && Obstacle(s).None?
    ensures Begun(s) == Members(Starts(s)) && |Begun(s)| == |Starts(s)|
  {
    forall i: nat ensures i in Begun(s) <==> i in Starts(s) {
      StartedExactly(s, i, s.target);
      if a :| a in NextStep(s) && a.Start? && a.index == i {
        StartedExactly(s, i, a.revision);
      }
    }
    MissingStarts(s);
    FreeIndexesExact(s.replicas, s.Bound(), Missing(s));
    AscendingSize(Starts(s));
  }

  /** Only the target is started, in free slots, the lowest ones first, in as many as are missing or are free. */
  lemma StartsExactly(s: State, i: nat, revision: string)
    requires s.Valid() && !s.paused && Obstacle(s).None?
    ensures Start(i, revision) in NextStep(s) ==> revision == s.target
    ensures i in Begun(s) ==> FreeSlot(s, i) && forall j: nat :: j < i && FreeSlot(s, j) ==> j in Begun(s)
    ensures |Begun(s)| <= Missing(s)
    ensures |Begun(s)| < Missing(s) && FreeSlot(s, i) ==> i in Begun(s)
  {
    StartedExactly(s, i, revision);
    BegunIsStarts(s);
    MissingStarts(s);
    var ix := Starts(s);
    FreeIndexesExact(s.replicas, s.Bound(), Missing(s));
    UsedExact(s, i);
    if i in ix {
      var k :| 0 <= k < |ix| && ix[k] == i;
      forall j: nat | j < i && FreeSlot(s, j) ensures j in ix {
        UsedExact(s, j);
      }
    }
    if |ix| < Missing(s) && FreeSlot(s, i) {
      AllFreeUsed(s.replicas, s.Bound(), Missing(s), i);
    }
  }

  // ----- the safety invariant in numbers

  /** What safety means: live replicas, ready replicas, indexes. */
  lemma SafeInNumbers(s: State)
    requires Safe(s)
    ensures Number(s.replicas, (x: Replica) => x.lifecycle == Live) <= s.desired + s.policy.maxSurge
    ensures s.policy.strategy != Recreate ==>
      Number(s.replicas, (x: Replica) => InService(x, s)) + s.policy.maxUnavailable >= s.desired
    ensures forall i, j :: 0 <= i < j < |s.replicas| ==> s.replicas[i].index != s.replicas[j].index
  {
    var live, serving := (x: Replica) => x.lifecycle == Live, (x: Replica) => InService(x, s);
    CountIsNumber(s.replicas, live);
    CountIsNumber(s.replicas, serving);
    CountSame(s.replicas, live, IsAlive());
    CountSame(s.replicas, serving, Ready(s.policy.minReadySecs));
  }
}
