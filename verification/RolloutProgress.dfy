/** When the planner declares completion, whom it picks, and why rollouts end. */
module RolloutProgress {
  import opened Basics
  import opened Order
  import opened Rollout
  import opened RolloutCounting
  import opened RolloutSafety

  // ----- completion

  /** Exactly the desired replicas, all live, of the target revision and ready. */
  predicate Steady(s: State) {
    |s.replicas| == s.desired &&
    forall r :: r in s.replicas ==> r.revision == s.target && ReadyReplica(r, s.policy.minReadySecs)
  }

  lemma WorkLength(s: State)
    ensures |Work(s)| == |Drained(s)| + |Victims(s)| + |Starts(s)|
  {
  }

  lemma {:induction false} SelectAll(rs: seq<Replica>, p: Replica -> bool)
    requires forall r :: r in rs ==> p(r)
    ensures Select(rs, p) == rs
  {
    if rs != [] {
      SelectAll(rs[1..], p);
    }
  }

  lemma {:induction false} SelectNone(rs: seq<Replica>, p: Replica -> bool)
    requires forall r :: r in rs ==> !p(r)
    ensures Select(rs, p) == []
  {
    if rs != [] {
      SelectNone(rs[1..], p);
    }
  }

  lemma NothingToDo(s: State)
    requires s.Valid() && !s.RollingOut() && !s.AnyDraining() && Work(s) == []
    ensures |s.replicas| == s.desired && s.New() == s.replicas
  {
    forall r | r in s.replicas ensures IsNew(s.target)(r) {
      assert IsOld(s.target)(r) ==> r in s.Old();
      assert IsDraining()(r) ==> r in Select(s.replicas, IsDraining());
    }
    SelectAll(s.replicas, IsNew(s.target));
    WorkLength(s);
    SelectNone(s.replicas, IsDrainingOld(s.target));
    FreeIndexesExact(s.replicas, s.Bound(), Sub(s.desired, |s.New()|));
  }

  lemma SteadyDoesNothing(s: State)
    requires s.Valid() && Steady(s)
    ensures !s.RollingOut() && !s.AnyDraining() && Work(s) == [] && AllNewReady(s)
  {
    SelectNone(s.replicas, IsOld(s.target));
    SelectNone(s.replicas, IsDraining());
    SelectNone(s.replicas, IsDrained(s.drainSecs));
    SelectAll(s.replicas, IsNew(s.target));
    WorkLength(s);
  }

  /** Completion is reported in the steady state and nowhere else. */
  lemma CompleteMeansSteady(s: State)
    requires s.Valid() && !s.paused
    ensures NextStep(s) == [Complete] <==> Steady(s)
  {
    if Steady(s) {
      SteadyDoesNothing(s);
    }
    if NextStep(s) == [Complete] {
      if Obstacle(s).Some? {
        ObstacleSparesReplicas(s);
      } else {
        assert Work(s) != [Complete] by {
          WorkKinds(s);
          assert Complete in [Complete];
        }
        NothingToDo(s);
      }
    }
  }

  // ----- who is picked

  lemma PrefixMembers(xs: seq<Replica>, n: nat)
    requires n <= |xs|
    ensures forall j :: 0 <= j < n ==> xs[j] in xs[..n]
  {
    forall j | 0 <= j < n ensures xs[j] in xs[..n] {
      assert xs[..n][j] == xs[j];
    }
  }

  /** Outside a rollout exactly the excess is drained, and no survivor is less connected
      than a victim. */
  lemma LeastConnectedGo(s: State, v: Replica, k: Replica)
    requires !s.RollingOut() && DistinctIndexes(s.replicas)
    ensures |Victims(s)| == Sub(|s.New()|, s.desired)
    ensures v in Victims(s) && k in s.New() && k !in Victims(s) ==>
      v.connections < k.connections || (v.connections == k.connections && k.index < v.index)
  {
    var sorted, n := Sort(s.New(), ByLoad()), Sub(|s.New()|, s.desired);
    assert Victims(s) == sorted[..n];
    if v in Victims(s) && k in s.New() && k !in Victims(s) {
      SortSorted(s.New(), ByLoad());
      SortMembers(s.New(), ByLoad());
      SelectDistinct(s.replicas, IsNew(s.target));
      SortDistinct(s.New(), ByLoad());
      PrefixFirst(sorted, n, v, k);
    }
  }

  /** The chosen part of a list sorted by load comes before the rest, and indexes decide ties. */
  lemma PrefixFirst(sorted: seq<Replica>, n: nat, v: Replica, k: Replica)
    requires n <= |sorted| && Sorted(sorted, ByLoad()) && DistinctIndexes(sorted)
    requires v in sorted[..n] && k in sorted && k !in sorted[..n]
    ensures v.connections < k.connections || (v.connections == k.connections && k.index < v.index)
  {
    var i :| 0 <= i < n && sorted[i] == v;
    var j :| 0 <= j < |sorted| && sorted[j] == k;
    PrefixMembers(sorted, n);
    assert ByLoad()(sorted[i], sorted[j]);
  }

  /** A rollout drains every unready old replica, and of the ready ones as many as the
      budget allows, from the highest index down. */
  lemma HighestReadyGo(s: State, k: Replica)
    requires s.RollingOut() && DistinctIndexes(s.replicas)
    requires !s.policy.strategy.Recreate? && s.sinceLastActionSecs >= s.policy.delaySecs
    requires k in s.Old() && k !in Victims(s)
    ensures ReadyReplica(k, s.policy.minReadySecs)
    ensures forall v :: v in Victims(s) && ReadyReplica(v, s.policy.minReadySecs) ==> k.index < v.index
    ensures Count(Victims(s), Ready(s.policy.minReadySecs)) == Allowed(s)
  {
    var m := s.policy.minReadySecs;
    var readyOld, unready := Select(s.replicas, ReadyOld(s.target, m)), Select(s.replicas, UnreadyOld(s.target, m));
    var sorted := ReadyOldByIndex(s);
    var n := Min(Allowed(s), |sorted|);
    assert Victims(s) == unready + sorted[..n];
    assert k !in unready && k in readyOld;
    SortSorted(readyOld, ByIndexDown());
    SortMembers(readyOld, ByIndexDown());
    SelectDistinct(s.replicas, ReadyOld(s.target, m));
    SortDistinct(readyOld, ByIndexDown());
    var j :| 0 <= j < |sorted| && sorted[j] == k;
    PrefixMembers(sorted, n);
    forall v | v in Victims(s) && ReadyReplica(v, m) ensures k.index < v.index {
      assert v !in unready && v in sorted[..n];
      var i :| 0 <= i < n && sorted[i] == v;
      assert ByIndexDown()(sorted[i], sorted[j]);
    }
    CountConcat(unready, sorted[..n], Ready(m));
    SelectNone(unready, Ready(m));
    forall v | v in sorted[..n] ensures Ready(m)(v) {
      assert v in sorted;
    }
    CountAll(sorted[..n], Ready(m));
  }

  // ----- progress

  /** Everything is ready, nothing is draining or failed, the delay has passed and the
      deadline has not. */
  predicate Settled(s: State) {
    && s.Valid() && !s.paused
    && (forall r :: r in s.replicas ==> ReadyReplica(r, s.policy.minReadySecs) && !r.failed)
    && s.sinceLastActionSecs >= s.policy.delaySecs
    && s.elapsedSecs <= s.policy.progressDeadlineSecs
  }

  function Distance(a: nat, b: nat): nat { if a < b then b - a else a - b }

  /** Replicas still to replace, plus replicas still missing or in excess. */
  function Measure(s: State): nat { |s.Old()| + Distance(s.desired, |s.New()|) }

  /** Without room to surge or to be unavailable a rollout cannot move: Rolling refuses, and
      Canary, which skips that check, idles once the fleet has the desired size. */
  predicate Stuck(s: State) {
    s.policy.maxSurge == 0 && s.policy.maxUnavailable == 0 &&
    (s.policy.strategy.Rolling? || (s.policy.strategy.Canary? && |s.replicas| == s.desired))
  }

  lemma SettledCounts(s: State)
    requires Settled(s)
    ensures |s.Alive()| == s.Available() == |s.replicas| == |s.Old()| + |s.New()|
    ensures Select(s.replicas, IsFailedNew(s.target)) == [] && Drained(s) == [] && !s.AnyDraining()
    ensures Select(s.replicas, IsDrainingOld(s.target)) == []
    ensures |Select(s.replicas, ReadyOld(s.target, s.policy.minReadySecs))| == |s.Old()|
    ensures Select(s.replicas, UnreadyOld(s.target, s.policy.minReadySecs)) == []
  {
    CountAll(s.replicas, IsAlive());
    CountAll(s.replicas, Ready(s.policy.minReadySecs));
    CountSplit(s.replicas, IsAlive(), IsOld(s.target), IsNew(s.target));
    SelectNone(s.replicas, IsFailedNew(s.target));
    SelectNone(s.replicas, IsDraining());
    SelectNone(s.replicas, IsDrained(s.drainSecs));
    SelectNone(s.replicas, IsDrainingOld(s.target));
    SelectNone(s.replicas, UnreadyOld(s.target, s.policy.minReadySecs));
    CountMonotone(s.replicas, ReadyOld(s.target, s.policy.minReadySecs), IsOld(s.target));
    CountMonotone(s.replicas, IsOld(s.target), ReadyOld(s.target, s.policy.minReadySecs));
  }

  /** How the ordinary work moves the two counts. */
  lemma WorkCounts(s: State)
    requires Settled(s) && DistinctIndexes(s.replicas)
    ensures var s' := s.(replicas := AfterWork(s));
      s.RollingOut() ==> |s'.Old()| == |s.Old()| - |Victims(s)| && |s'.New()| == |s.New()| + |Starts(s)|
    ensures var s' := s.(replicas := AfterWork(s));
      !s.RollingOut() ==> |s'.Old()| == 0 && |s'.New()| == |s.New()| - |Victims(s)| + |Starts(s)|
  {
    WorkEffect(s);
    VictimsAreLive(s);
    FreshCounts(Starts(s), s.target, s.policy.minReadySecs, s.target);
    assert LiveOnly(IsOld(s.target)) && LiveOnly(IsNew(s.target));
    if s.RollingOut() {
      CountAll(Victims(s), IsOld(s.target));
      SelectNone(Victims(s), IsNew(s.target));
    } else {
      SteadyVictimsAreNew(s);
      CountAll(Victims(s), IsNew(s.target));
      SelectNone(Victims(s), IsOld(s.target));
    }
  }

  lemma SteadyVictimsAreNew(s: State)
    requires !s.RollingOut() && DistinctIndexes(s.replicas)
    ensures forall v :: v in Victims(s) ==> v in s.New()
  {
    SelectDistinct(s.replicas, IsNew(s.target));
    SortedPrefix(s.New(), ByLoad(), Sub(|s.New()|, s.desired));
  }

  lemma RollingVictimCount(s: State)
    requires Settled(s) && s.RollingOut() && !s.policy.strategy.Recreate?
    ensures |Victims(s)| == Min(Allowed(s), |s.Old()|)
  {
    SettledCounts(s);
  }

  lemma RollingStartCount(s: State)
    requires Settled(s) && s.RollingOut() && !s.policy.strategy.Recreate?
    ensures |Starts(s)| == Min(Sub(s.desired, |s.New()|), Sub(s.Bound(), |s.replicas|))
  {
    SettledCounts(s);
    FreeIndexesExact(s.replicas, s.Bound(), Min(Sub(s.desired, |s.New()|), Sub(s.Bound(), |s.Alive()|)));
  }

  lemma SettledWork(s: State)
    requires Settled(s) && DistinctIndexes(s.replicas) && s.RollingOut() && Obstacle(s).None?
    ensures var s' := Occur(s, Plan);
      && s'.desired == s.desired
      && |s'.Old()| == |s.Old()| - |Victims(s)| && |s'.New()| == |s.New()| + |Starts(s)|
  {
    assert NextStep(s) == Work(s);
    WorkOnReplicas(s);
    WorkCounts(s);
  }

  lemma SettledObstacle(s: State)
    requires Settled(s) && s.RollingOut()
    ensures Obstacle(s) ==
      if s.policy.strategy.Rolling? && s.policy.maxSurge == 0 && s.policy.maxUnavailable == 0 then Some(Pause(STUCK)) else None
  {
    SettledCounts(s);
  }

  /** During a rollout a settled step gets strictly closer to the end exactly when the
      rollout is not stuck. */
  lemma SettledStepProgresses(s: State)
    requires Settled(s) && DistinctIndexes(s.replicas) && s.RollingOut()
    ensures Measure(Occur(s, Plan)) < Measure(s) <==> !Stuck(s)
  {
    SettledObstacle(s);
    if Obstacle(s).Some? {
      ApplyOne(s, Pause(STUCK));
    } else {
      SettledWork(s);
      if s.policy.strategy.Recreate? {
        RecreateVictims(s);
      } else {
        RollingMoves(s);
      }
    }
  }

  lemma RollingMoves(s: State)
    requires Settled(s) && s.RollingOut() && Obstacle(s).None? && !s.policy.strategy.Recreate?
    ensures |Victims(s)| <= |s.Old()|
    ensures var current := |s.New()| + |Starts(s)|;
      |s.Old()| - |Victims(s)| + Distance(s.desired, current) < Measure(s) <==> !Stuck(s)
  {
    RollingVictimCount(s);
    RollingStartCount(s);
    SettledObstacle(s);
    SettledCounts(s);
    RollingArithmetic(|s.Old()|, |s.New()|, s.desired, s.policy.maxSurge, s.policy.maxUnavailable);
  }

  /** With a old and b new replicas, draining within the budget and starting within the bound
      gets closer unless the fleet is full and nothing may surge or be missing. */
  lemma RollingArithmetic(a: nat, b: nat, desired: nat, surge: nat, unavailable: nat)
    requires a > 0
    ensures var victims := Min(Sub(a + b, Sub(desired, unavailable)), a);
      var starts := Min(Sub(desired, b), Sub(desired + surge, a + b));
      a - victims + Distance(desired, b + starts) < a + Distance(desired, b)
      <==> !(surge == 0 && unavailable == 0 && a + b == desired)
  {
  }

  lemma RecreateVictims(s: State)
    requires Settled(s) && s.RollingOut() && s.policy.strategy.Recreate?
    ensures Victims(s) == s.Old() && Starts(s) == []
  {
  }

  /** Outside a rollout one settled step reaches the desired number, or completion is reported. */
  lemma SettledSteadyStep(s: State)
    requires Settled(s) && DistinctIndexes(s.replicas) && !s.RollingOut()
    ensures NextStep(s) == [Complete] || (Measure(Occur(s, Plan)) == 0 < Measure(s))
  {
    SettledCounts(s);
    if |s.New()| == s.desired {
      assert Steady(s) by {
        forall r | r in s.replicas ensures r.revision == s.target {
          assert IsOld(s.target)(r) ==> r in s.Old();
        }
      }
      CompleteMeansSteady(s);
    } else {
      FreeIndexesExact(s.replicas, s.Bound(), Sub(s.desired, |s.New()|));
      WorkLength(s);
      assert |Victims(s)| + |Starts(s)| > 0;
      assert NextStep(s) == Work(s);
      WorkOnReplicas(s);
      WorkCounts(s);
    }
  }

  /** The environment lets a step settle: nothing the planner counts has changed. */
  ghost predicate SettlesTo(s: State, next: State)
    requires s.Valid()
  {
    var done := Occur(s, Plan);
    && Settled(next) && DistinctIndexes(next.replicas)
    && next.desired == s.desired && next.target == s.target && next.policy == s.policy
    && |next.Old()| == |done.Old()| && |next.New()| == |done.New()|
  }

  ghost predicate SettledRun(run: seq<State>) {
    && |run| > 0
    && (forall i :: 0 <= i < |run| ==> Settled(run[i]) && DistinctIndexes(run[i].replicas))
    && (forall i :: 0 <= i < |run| - 1 ==> SettlesTo(run[i], run[i + 1]))
  }

  /** A policy under which rollouts cannot get stuck. */
  predicate CanMove(p: Policy) { p.strategy.Recreate? || p.maxSurge + p.maxUnavailable > 0 }

  /** Every run of settled steps reports completion after at most as many steps as the
      measure of its first state. */
  lemma {:induction false} EveryRolloutCompletes(run: seq<State>)
    requires SettledRun(run) && CanMove(run[0].policy) && |run| > Measure(run[0])
    ensures exists i :: 0 <= i <= Measure(run[0]) && NextStep(run[i]) == [Complete]
    decreases Measure(run[0])
  {
    var s := run[0];
    if NextStep(s) != [Complete] {
      if s.RollingOut() {
        SettledStepProgresses(s);
      } else {
        SettledSteadyStep(s);
      }
      PlanShape(s);
      var rest := run[1..];
      assert SettlesTo(run[0], run[1]);
      assert SettledRun(rest) by {
        forall i | 0 <= i < |rest| - 1 ensures SettlesTo(rest[i], rest[i + 1]) {
          assert SettlesTo(run[i + 1], run[i + 2]);
        }
      }
      EveryRolloutCompletes(rest);
      var i :| 0 <= i <= Measure(rest[0]) && NextStep(rest[i]) == [Complete];
      assert NextStep(run[i + 1]) == [Complete];
    }
  }
}
