/** Surge, availability and index uniqueness in every state a rollout can reach. */
module RolloutSafety {
  import opened Basics
  import opened Order
  import opened Rollout
  import opened RolloutCounting

  // ----- the effect of one step

  lemma {:induction false} SortedPrefix(xs: seq<Replica>, le: (Replica, Replica) -> bool, n: nat)
    requires DistinctIndexes(xs) && n <= |xs|
    ensures DistinctIndexes(Sort(xs, le)[..n])
    ensures forall v :: v in Sort(xs, le)[..n] ==> v in xs
  {
    SortDistinct(xs, le);
    SortMembers(xs, le);
    assert forall v :: v in Sort(xs, le)[..n] ==> v in Sort(xs, le);
  }

  lemma RollingVictimsAreOld(s: State)
    requires DistinctIndexes(s.replicas)
    ensures DistinctIndexes(RollingVictims(s))
    ensures forall v :: v in RollingVictims(s) ==> v in s.replicas && LiveReplica(v) && v.revision != s.target
  {
    var m := s.policy.minReadySecs;
    var readyOld, unready := Select(s.replicas, ReadyOld(s.target, m)), Select(s.replicas, UnreadyOld(s.target, m));
    SelectDistinct(s.replicas, UnreadyOld(s.target, m));
    SelectDistinct(s.replicas, ReadyOld(s.target, m));
    var n := Min(Allowed(s), |readyOld|);
    SortedPrefix(readyOld, ByIndexDown(), n);
    var taken := ReadyOldByIndex(s)[..n];
    forall x, y | x in unready && y in taken ensures x.index != y.index {
      var i :| 0 <= i < |s.replicas| && s.replicas[i] == x;
      var j :| 0 <= j < |s.replicas| && s.replicas[j] == y;
    }
    ConcatDistinct(unready, taken);
  }

  lemma VictimsAreLive(s: State)
    requires DistinctIndexes(s.replicas)
    ensures DistinctIndexes(Victims(s))
    ensures forall v :: v in Victims(s) ==> v in s.replicas && LiveReplica(v)
    ensures s.RollingOut() ==> forall v :: v in Victims(s) ==> v in s.Old()
  {
    if !s.RollingOut() {
      SelectDistinct(s.replicas, IsNew(s.target));
      SortedPrefix(s.New(), ByLoad(), Sub(|s.New()|, s.desired));
    } else {
      SelectDistinct(s.replicas, IsOld(s.target));
      RollingVictimsAreOld(s);
    }
  }

  lemma StartsAreFree(s: State)
    ensures forall j, k :: 0 <= j < k < |Starts(s)| ==> Starts(s)[j] < Starts(s)[k]
    ensures forall k :: 0 <= k < |Starts(s)| ==> Starts(s)[k] < s.Bound() && !Used(s.replicas, Starts(s)[k])
    ensures |Starts(s)| <= Sub(s.desired, |s.New()|)
    ensures s.RollingOut() ==> |Starts(s)| <= Sub(s.Bound(), |s.Alive()|)
  {
    FreeIndexesExact(s.replicas, s.Bound(), Sub(s.desired, |s.New()|));
    FreeIndexesExact(s.replicas, s.Bound(), Min(Sub(s.desired, |s.New()|), Sub(s.Bound(), |s.Alive()|)));
  }

  /** The replicas after the ordinary work of a step. */
  function AfterWork(s: State): seq<Replica> { UpdateAll(s.replicas, Work(s)) }

  /** Removing ds, draining vs and starting ix, in that order. */
  lemma ListsEffect(rs: seq<Replica>, ds: seq<Replica>, vs: seq<Replica>, ix: seq<nat>, revision: string)
    requires DistinctIndexes(rs) && DistinctIndexes(ds) && DistinctIndexes(vs)
    requires forall d :: d in ds ==> d in rs && !LiveReplica(d)
    requires forall v :: v in vs ==> v in rs && LiveReplica(v)
    requires forall j, k :: 0 <= j < k < |ix| ==> ix[j] < ix[k]
    requires forall k :: 0 <= k < |ix| ==> !Used(rs, ix[k])
    ensures var r := UpdateAll(rs, RemoveActions(ds) + DrainActions(vs) + StartActions(ix, revision));
      && DistinctIndexes(r)
      && (forall p :: LiveOnly(p) ==> Count(r, p) == Count(rs, p) - Count(vs, p) + Count(FreshAll(ix, revision), p))
  {
    var removes, drains, starts := RemoveActions(ds), DrainActions(vs), StartActions(ix, revision);
    assert removes + drains + starts == removes + (drains + starts);
    UpdateAllConcat(rs, removes, drains + starts);
    var rs1 := UpdateAll(rs, removes);
    RemoveAllEffect(rs, ds);
    UpdateAllConcat(rs1, drains, starts);
    var rs2 := UpdateAll(rs1, drains);
    DrainAllEffect(rs1, vs);
    StartAllEffect(rs2, ix, revision);
    var started := FreshAll(ix, revision);
    forall x, y | x in rs2 && y in started ensures x.index != y.index {
      var i :| 0 <= i < |rs2| && rs2[i] == x;
      assert rs1[i] in rs;
      var k :| 0 <= k < |rs| && rs[k] == rs1[i];
    }
    ConcatDistinct(rs2, started);
    forall p | LiveOnly(p)
      ensures Count(rs2 + started, p) == Count(rs, p) - Count(vs, p) + Count(started, p)
    {
      CountConcat(rs2, started, p);
    }
  }

  lemma WorkEffect(s: State)
    requires DistinctIndexes(s.replicas)
    ensures DistinctIndexes(AfterWork(s))
    ensures forall p :: LiveOnly(p) ==>
      Count(AfterWork(s), p) == Count(s.replicas, p) - Count(Victims(s), p) + Count(FreshAll(Starts(s), s.target), p)
  {
    VictimsAreLive(s);
    StartsAreFree(s);
    SelectDistinct(s.replicas, IsDrained(s.drainSecs));
    ListsEffect(s.replicas, Drained(s), Victims(s), Starts(s), s.target);
  }

  /** A step never drains more ready replicas than the availability budget allows. */
  lemma ReadyVictims(s: State)
    requires s.RollingOut() && !s.policy.strategy.Recreate?
    ensures Count(Victims(s), Ready(s.policy.minReadySecs)) <= Allowed(s)
  {
    var m := s.policy.minReadySecs;
    var ready := ReadyOldByIndex(s);
    var unready, taken := Select(s.replicas, UnreadyOld(s.target, m)), ready[..Min(Allowed(s), |ready|)];
    CountConcat(unready, taken, Ready(m));
    CountMonotone(unready, Ready(m), (r: Replica) => false);
    NoneSelected(unready);
  }

  lemma {:induction false} NoneSelected(rs: seq<Replica>)
    ensures Count(rs, (r: Replica) => false) == 0
  {
    if rs != [] {
      NoneSelected(rs[1..]);
    }
  }

  // ----- runs

  function Apply(s: State, a: Action): State {
    match a
    case Rollback(to) => s.(target := to, previous := None, elapsedSecs := 0)
    case Pause(_) => s.(paused := true)
    case _ => s.(replicas := Update(s.replicas, a))
  }

  function ApplyAll(s: State, actions: seq<Action>): State
    decreases actions
  {
    if actions == [] then s else ApplyAll(Apply(s, actions[0]), actions[1..])
  }

  /** What can happen between and during planner steps: the planner runs, one replica's
      health or drain clock moves, a replica that is not ready disappears, a new rollout
      starts, clocks move and a pause is set or lifted. */
  datatype Event =
    | Plan
    | Change(at: nat, now: Replica)
    | Vanish(at: nat)
    | Retarget(target: string, previous: Option<string>)
    | Clock(elapsedSecs: nat, sinceLastActionSecs: nat, paused: bool)

  /** Ready replicas stay ready; identity and lifecycle belong to the planner. */
  predicate Allows(s: State, e: Event) {
    match e
    case Change(at, now) =>
      at < |s.replicas| &&
      var was := s.replicas[at];
      && now.index == was.index && now.revision == was.revision
      && LiveReplica(now) == LiveReplica(was)
      && (ReadyReplica(was, s.policy.minReadySecs) ==> ReadyReplica(now, s.policy.minReadySecs))
    case Vanish(at) => at < |s.replicas| && !ReadyReplica(s.replicas[at], s.policy.minReadySecs)
    case _ => true
  }

  function Occur(s: State, e: Event): State
    requires s.Valid() && Allows(s, e)
  {
    match e
    case Plan => ApplyAll(s, NextStep(s))
    case Change(at, now) => s.(replicas := s.replicas[at := now])
    case Vanish(at) => s.(replicas := s.replicas[..at] + s.replicas[at + 1..])
    case Retarget(target, previous) => s.(target := target, previous := previous)
    case Clock(e, l, p) => s.(elapsedSecs := e, sinceLastActionSecs := l, paused := p)
  }

  /** The events lead from one state to the other, each allowed when it occurs. */
  ghost predicate Reaches(s: State, events: seq<Event>, end: State)
    decreases events
  {
    if events == [] then s == end
    else s.Valid() && Allows(s, events[0]) && Reaches(Occur(s, events[0]), events[1..], end)
  }

  ghost predicate SurgeBounded(s: State) { |s.Alive()| <= s.Bound() }

  ghost predicate AvailabilityKept(s: State) { s.Available() >= s.Required() }

  ghost predicate NoRevisionOversized(s: State) {
    forall revision :: Count(s.replicas, IsNew(revision)) <= s.desired
  }

  ghost predicate Safe(s: State) {
    && DistinctIndexes(s.replicas)
    && SurgeBounded(s)
    && (!s.policy.strategy.Recreate? ==> AvailabilityKept(s))
    && NoRevisionOversized(s)
    && s.Bound() < U32
  }

  lemma {:induction false} ApplyWorkLists(s: State, actions: seq<Action>)
    requires forall a :: a in actions ==> a.Start? || a.Drain? || a.Remove?
    ensures ApplyAll(s, actions) == s.(replicas := UpdateAll(s.replicas, actions))
    decreases actions
  {
    if actions != [] {
      ApplyWorkLists(Apply(s, actions[0]), actions[1..]);
    }
  }

  lemma ApplyOne(s: State, a: Action)
    ensures ApplyAll(s, [a]) == Apply(s, a)
  {
    assert [a][1..] == [];
  }

  lemma WorkKinds(s: State)
    ensures forall a :: a in Work(s) ==> a.Start? || a.Drain? || a.Remove?
  {
    forall a | a in Work(s) ensures a.Start? || a.Drain? || a.Remove? {
      assert a in RemoveActions(Drained(s)) || a in DrainActions(Victims(s)) || a in StartActions(Starts(s), s.target);
    }
  }

  lemma WorkOnReplicas(s: State)
    ensures ApplyAll(s, Work(s)) == s.(replicas := AfterWork(s))
  {
    WorkKinds(s);
    ApplyWorkLists(s, Work(s));
  }

  lemma NextStepCases(s: State)
    requires s.Valid()
    ensures
      || NextStep(s) == Work(s)
      || NextStep(s) == []
      || NextStep(s) == [Complete]
      || (Obstacle(s).Some? && NextStep(s) == [Obstacle(s).value])
  {
  }

  lemma ObstacleSparesReplicas(s: State)
    requires Obstacle(s).Some?
    ensures Obstacle(s).value.Rollback? || Obstacle(s).value.Pause?
  {
  }

  /** One planner step either works on the replicas or leaves them, the desired count and
      the policy alone. */
  lemma PlanShape(s: State)
    requires s.Valid()
    ensures var s' := ApplyAll(s, NextStep(s));
      && s'.desired == s.desired && s'.policy == s.policy
      && (s'.replicas == s.replicas || s' == s.(replicas := AfterWork(s)))
  {
    var actions := NextStep(s);
    NextStepCases(s);
    if actions == Work(s) {
      WorkOnReplicas(s);
    } else if actions != [] {
      if Obstacle(s).Some? {
        ObstacleSparesReplicas(s);
      }
      assert actions == [actions[0]];
      ApplyOne(s, actions[0]);
    }
  }

  lemma FreshCounts(ix: seq<nat>, target: string, minReady: nat, revision: string)
    ensures Count(FreshAll(ix, target), IsAlive()) == |ix|
    ensures Count(FreshAll(ix, target), Ready(minReady)) == 0
    ensures Count(FreshAll(ix, target), IsNew(revision)) == if revision == target then |ix| else 0
    ensures Count(FreshAll(ix, target), IsOld(revision)) == if revision == target then 0 else |ix|
  {
    var started := FreshAll(ix, target);
    CountAll(started, IsAlive());
    NoneSelected(started);
    CountMonotone(started, Ready(minReady), (r: Replica) => false);
    if revision == target {
      CountAll(started, IsNew(revision));
      CountMonotone(started, IsOld(revision), (r: Replica) => false);
    } else {
      CountAll(started, IsOld(revision));
      CountMonotone(started, IsNew(revision), (r: Replica) => false);
    }
  }

  lemma WorkKeepsSurge(s: State)
    requires Safe(s) && s.Valid()
    ensures SurgeBounded(s.(replicas := AfterWork(s)))
  {
    WorkEffect(s);
    StartsAreFree(s);
    FreshCounts(Starts(s), s.target, s.policy.minReadySecs, s.target);
    assert LiveOnly(IsAlive());
    CountSplit(s.replicas, IsAlive(), IsOld(s.target), IsNew(s.target));
  }

  lemma WorkKeepsAvailability(s: State)
    requires Safe(s) && s.Valid() && !s.policy.strategy.Recreate?
    ensures AvailabilityKept(s.(replicas := AfterWork(s)))
  {
    var ready := Ready(s.policy.minReadySecs);
    WorkEffect(s);
    FreshCounts(Starts(s), s.target, s.policy.minReadySecs, s.target);
    assert LiveOnly(ready);
    if s.RollingOut() {
      ReadyVictims(s);
    } else {
      assert Count(s.replicas, IsNew(s.target)) <= s.desired;
      assert Victims(s) == [];
    }
  }

  lemma WorkKeepsRevisionSizes(s: State)
    requires Safe(s) && s.Valid()
    ensures NoRevisionOversized(s.(replicas := AfterWork(s)))
  {
    WorkEffect(s);
    StartsAreFree(s);
    forall revision ensures Count(AfterWork(s), IsNew(revision)) <= s.desired {
      assert LiveOnly(IsNew(revision));
      FreshCounts(Starts(s), s.target, s.policy.minReadySecs, revision);
      assert Count(s.replicas, IsNew(revision)) <= s.desired;
    }
  }

  lemma PlanKeepsSafe(s: State)
    requires Safe(s)
    ensures s.Valid() && Safe(Occur(s, Plan))
  {
    PlanShape(s);
    WorkEffect(s);
    WorkKeepsSurge(s);
    WorkKeepsRevisionSizes(s);
    if !s.policy.strategy.Recreate? {
      WorkKeepsAvailability(s);
    }
  }

  lemma ChangeKeepsSafe(s: State, e: Event)
    requires Safe(s) && s.Valid() && Allows(s, e) && e.Change?
    ensures Safe(Occur(s, e))
  {
    var rs, rs' := s.replicas, Occur(s, e).replicas;
    CountUpdate(rs, e.at, e.now, IsAlive());
    CountUpdate(rs, e.at, e.now, Ready(s.policy.minReadySecs));
    forall revision ensures Count(rs', IsNew(revision)) <= s.desired {
      CountUpdate(rs, e.at, e.now, IsNew(revision));
      assert Count(rs, IsNew(revision)) <= s.desired;
    }
  }

  lemma VanishKeepsSafe(s: State, e: Event)
    requires Safe(s) && s.Valid() && Allows(s, e) && e.Vanish?
    ensures Safe(Occur(s, e))
  {
    var rs, rs' := s.replicas, Occur(s, e).replicas;
    CountDelete(rs, e.at, IsAlive());
    CountDelete(rs, e.at, Ready(s.policy.minReadySecs));
    forall revision ensures Count(rs', IsNew(revision)) <= s.desired {
      CountDelete(rs, e.at, IsNew(revision));
      assert Count(rs, IsNew(revision)) <= s.desired;
    }
  }

  lemma EnvironmentKeepsSafe(s: State, e: Event)
    requires Safe(s) && s.Valid() && Allows(s, e) && !e.Plan?
    ensures Safe(Occur(s, e))
  {
    if e.Change? {
      ChangeKeepsSafe(s, e);
    } else if e.Vanish? {
      VanishKeepsSafe(s, e);
    } else {
      assert Occur(s, e).replicas == s.replicas;
    }
  }

  /** Every state of every run keeps the surge bound, the availability bound, distinct
      indexes, and sums that fit 32 bits, whatever the environment does in between. */
  lemma {:induction false} EveryRunIsSafe(s: State, events: seq<Event>, end: State)
    requires Safe(s) && Reaches(s, events, end)
    ensures Safe(end) && end.Valid()
    decreases events
  {
    if events != [] {
      if events[0].Plan? {
        PlanKeepsSafe(s);
      } else {
        EnvironmentKeepsSafe(s, events[0]);
      }
      EveryRunIsSafe(Occur(s, events[0]), events[1..], end);
    }
  }

  /** A fleet of exactly the desired number of ready replicas of one revision may start a rollout. */
  lemma FreshFleetIsSafe(s: State, revision: string)
    requires DistinctIndexes(s.replicas) && |s.replicas| == s.desired && s.Bound() < U32
    requires forall r :: r in s.replicas ==> ReadyReplica(r, s.policy.minReadySecs) && r.revision == revision
    ensures Safe(s)
  {
    CountAll(s.replicas, IsAlive());
    CountAll(s.replicas, Ready(s.policy.minReadySecs));
  }
}
