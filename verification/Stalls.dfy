/** Rollouts that cannot move: when the planner idles, and when the controller ends them. */
module Stalls {
  import opened Basics
  import opened Rollout
  import opened RolloutCounting
  import opened RolloutSafety
  import opened RolloutProgress
  import opened Controller
  import opened Revisions

  // ----- the planner

  lemma NoActionNoChange(s: State)
    requires s.Valid()
    ensures NextStep(s) == [] ==> Occur(s, Plan) == s
  {
  }

  /** A settled rollout gets no action at all exactly when it is stuck under the canary strategy. */
  lemma IdlesExactly(s: State)
    requires Settled(s) && DistinctIndexes(s.replicas) && s.RollingOut()
    ensures NextStep(s) == [] <==> Stuck(s) && s.policy.strategy.Canary?
  {
    SettledObstacle(s);
    if Obstacle(s).None? {
      if Stuck(s) {
        SettledCounts(s);
        RollingVictimCount(s);
        RollingStartCount(s);
      } else {
        SettledStepProgresses(s);
        NoActionNoChange(s);
      }
    }
  }

  /** All replicas are ready, they are as many as wanted, and the policy leaves no room to replace one. */
  ghost predicate StalledFleet(s: State) {
    && s.RollingOut() && s.policy.strategy.Canary? && s.policy.maxSurge == 0 && s.policy.maxUnavailable == 0
    && |s.replicas| == s.desired
    && forall r <- s.replicas :: ReadyReplica(r, s.policy.minReadySecs) && !r.failed
  }

  /** Nothing happens until the deadline, whatever the clocks say; after it the rollout fails. */
  lemma StalledStep(s: State)
    requires s.Valid() && !s.paused && StalledFleet(s)
    ensures NextStep(s) == if s.elapsedSecs > s.policy.progressDeadlineSecs then [Failure(s, DEADLINE)] else []
  {
    var settled := s.(elapsedSecs := 0, sinceLastActionSecs := s.policy.delaySecs);
    SettledCounts(settled);
    SelectNone(s.replicas, IsFailedNew(s.target));
    if s.elapsedSecs <= s.policy.progressDeadlineSecs {
      SelectNone(s.replicas, IsDrained(s.drainSecs));
      if s.sinceLastActionSecs >= s.policy.delaySecs {
        RollingVictimCount(s);
        RollingStartCount(s);
      }
      assert Victims(s) == [] && Starts(s) == [] && Drained(s) == [];
    }
  }

  const FULL: State :=
    State(1, "new", None, Policy(Canary, 0, 0, 0, 0, 600, PauseOnFailure), 0,
          [Replica(0, "old", Healthy(60), Live, false, 0)], 0, NEVER, false)

  /** One ready replica of the old revision, one wanted: the canary step is empty. */
  lemma FullCanaryIdles()
    ensures FULL.Valid() && FULL.RollingOut() && NextStep(FULL) == []
  {
    assert FULL.replicas[0] in FULL.Old();
    StalledStep(FULL);
  }

  // ----- the controller's tick

  /** The rollout is over: rolled back, or paused for somebody to look at. */
  predicate Over(m: Memory, i: Input)
    requires Fits(m, i)
  {
    RollsBack(m, i) || Tick(m, i).paused
  }

  predicate Overdue(start: Option<nat>, deadlineSecs: nat, now: nat) {
    start.Some? && now > start.value + deadlineSecs
  }

  /** A tick that sees a rollout ends it exactly in three cases: a new replica has failed, the rollout's start
      is known and the deadline has passed since, or the rolling strategy has no room. */
  lemma RolloutEndsExactly(m: Memory, i: Input)
    requires Fits(m, i) && Prepare(m, i).snapshot.Some? && Prepare(m, i).snapshot.value.RollingOut()
    ensures var f, st := FollowFile(m, i.now, i.def, i.fileRevision), Prepare(m, i).snapshot.value;
      var p := f.applied.value.def.update;
      Over(m, i) <==>
        || (exists r <- st.replicas :: IsFailedNew(st.target)(r))
        || Overdue(f.rolloutStart, p.progressDeadlineSecs, i.now)
        || (p.strategy.Rolling? && p.maxSurge == 0 && p.maxUnavailable == 0)
  {
    var p := Prepare(m, i);
    var st := p.snapshot.value;
    TickRevisions(m, i);
    SnapshotClock(m, i);
    assert (exists r <- st.replicas :: IsFailedNew(st.target)(r)) <==> Select(st.replicas, IsFailedNew(st.target)) != [] by {
      FoundOrNot(st.replicas, IsFailedNew(st.target));
    }
    if Obstacle(st).Some? {
      ExecuteSingle(p.memory, Obstacle(st).value, i.answers, i.now);
    } else {
      WorkKinds(st);
      WorkKeepsRevisions(p.memory, Work(st), 0, i.answers, i.now);
      assert Work(st) != [] ==> Work(st)[0] in Work(st);
    }
  }

  lemma FoundOrNot(rs: seq<Replica>, p: Replica -> bool)
    ensures Select(rs, p) != [] <==> exists r <- rs :: p(r)
  {
    if Select(rs, p) != [] {
      assert Select(rs, p)[0] in Select(rs, p);
    }
  }

  lemma SnapshotClock(m: Memory, i: Input)
    requires Prepare(m, i).snapshot.Some?
    ensures var f, st := FollowFile(m, i.now, i.def, i.fileRevision), Prepare(m, i).snapshot.value;
      && st.policy == f.applied.value.def.update && !st.paused && !f.paused && !Prepare(m, i).memory.paused
      && st.elapsedSecs == Sub(i.now, GetOr(f.rolloutStart, i.now))
      && Prepare(m, i).memory.rolloutStart == f.rolloutStart
  {
  }

  /** The start of a rollout is set when the file moves on or a rollback happens, forgotten on completion,
      and not set when a service is seen for the first time. */
  lemma TickClock(m: Memory, i: Input)
    requires Fits(m, i)
    ensures Tick(m, i).rolloutStart ==
      if RollsBack(m, i) then Some(i.now)
      else if Planned(m, i) == [Complete] then None
      else if m.applied.Some? && FollowFile(m, i.now, i.def, i.fileRevision).applied != m.applied then Some(i.now)
      else m.rolloutStart
  {
    var p, actions := Prepare(m, i), Planned(m, i);
    TickRevisions(m, i);
    if p.snapshot.Some? {
      var st := p.snapshot.value;
      SnapshotClock(m, i);
      NextStepCases(st);
      WorkKinds(st);
      if actions == Work(st) {
        WorkKeepsClock(p.memory, actions, 0, i.answers, i.now);
        assert actions != [] ==> actions[0] in Work(st);
      } else if actions != [] {
        if Obstacle(st).Some? {
          ObstacleSparesReplicas(st);
        }
        ExecuteSingle(p.memory, actions[0], i.answers, i.now);
        assert actions == [actions[0]];
      }
    }
  }

  lemma {:induction false} WorkKeepsClock(m: Memory, actions: seq<Action>, k: nat, answers: seq<Answer>, now: nat)
    requires m.applied.Some? && k <= |actions|
    requires forall a <- actions :: a.Start? || a.Drain? || a.Remove?
    ensures ExecuteAll(m, actions, k, answers, now).rolloutStart == m.rolloutStart
    decreases |actions| - k
  {
    if k < |actions| {
      assert actions[k] in actions;
      var r := Execute(m, actions[k], AnswerTo(answers, k), now);
      if r.Some? {
        WorkKeepsClock(r.value, actions, k + 1, answers, now);
      }
    }
  }

  // ----- runs of a stalled rollout

  /** The tick sees a stalled fleet, and the file does not move on. */
  ghost predicate StalledTick(m: Memory, i: Input) {
    && (m.applied.Some? ==> FollowFile(m, i.now, i.def, i.fileRevision) == m)
    && Fits(m, i) && Prepare(m, i).snapshot.Some? && StalledFleet(Prepare(m, i).snapshot.value)
  }

  /** Every tick sees a stalled fleet, until one ends the rollout. */
  ghost predicate Stalls(m: Memory, inputs: seq<Input>)
    decreases |inputs|
  {
    inputs == [] || (StalledTick(m, inputs[0]) && (Over(m, inputs[0]) || Stalls(Tick(m, inputs[0]), inputs[1..])))
  }

  ghost predicate Ended(m: Memory, inputs: seq<Input>)
    requires Stalls(m, inputs)
    decreases |inputs|
  {
    inputs != [] && (Over(m, inputs[0]) || Ended(Tick(m, inputs[0]), inputs[1..]))
  }

  /** A stalled tick ends the rollout once it is overdue, and otherwise leaves revisions and start as they are. */
  lemma StalledTickOutcome(m: Memory, i: Input)
    requires StalledTick(m, i)
    ensures var f := FollowFile(m, i.now, i.def, i.fileRevision);
      && f.rolloutStart == m.rolloutStart
      && (Over(m, i) <==> Overdue(m.rolloutStart, f.applied.value.def.update.progressDeadlineSecs, i.now))
      && (!Over(m, i) ==> Tick(m, i).applied == f.applied && Tick(m, i).rolloutStart == m.rolloutStart)
  {
    var st := Prepare(m, i).snapshot.value;
    SnapshotClock(m, i);
    StalledStep(st);
    RolloutEndsExactly(m, i);
    TickRevisions(m, i);
    TickClock(m, i);
    forall r <- st.replicas ensures !IsFailedNew(st.target)(r) {}
  }

  /** Main result. However long a rollout is stalled, the controller ends it if and only if it knows when
      the rollout started and some tick comes after the deadline. */
  lemma {:induction false} StalledRolloutEndsExactly(m: Memory, inputs: seq<Input>)
    requires m.applied.Some? && Stalls(m, inputs)
    ensures Ended(m, inputs) <==>
      exists k :: 0 <= k < |inputs| &&
        Overdue(m.rolloutStart, m.applied.value.def.update.progressDeadlineSecs, inputs[k].now)
    decreases |inputs|
  {
    if inputs != [] {
      var limit := m.applied.value.def.update.progressDeadlineSecs;
      StalledTickOutcome(m, inputs[0]);
      if !Over(m, inputs[0]) {
        var rest := inputs[1..];
        StalledRolloutEndsExactly(Tick(m, inputs[0]), rest);
        if k :| 0 <= k < |inputs| && Overdue(m.rolloutStart, limit, inputs[k].now) {
          assert rest[k - 1] == inputs[k];
        }
        if k :| 0 <= k < |rest| && Overdue(m.rolloutStart, limit, rest[k].now) {
          assert inputs[k + 1] == rest[k];
        }
      }
    }
  }

  /** A rollout already under way when the service is first seen is never ended while it is stalled. */
  lemma FoundStalledIdlesForEver(inputs: seq<Input>)
    requires Stalls(BLANK, inputs)
    ensures !Ended(BLANK, inputs)
  {
    if inputs != [] {
      StalledTickOutcome(BLANK, inputs[0]);
      StalledRolloutEndsExactly(Tick(BLANK, inputs[0]), inputs[1..]);
    }
  }

  const CANARY: ServiceDef := ServiceDef(1, Policy(Canary, 0, 0, 0, 0, 600, PauseOnFailure), false)
  const OLD_ONE: Container := Container(Some(0), true, Healthy(60), Some("old"), true)
  const WAITING: Memory := BLANK.(applied := Some(Applied("new", CANARY)))

  /** A tick every thousand seconds, each seeing the one old container. */
  function Ticks(from: nat, n: nat): seq<Input>
    decreases n
  {
    if n == 0 then [] else [OldOneInput(1000 * from)] + Ticks(from + 1, n - 1)
  }

  function OldOneInput(now: nat): Input { Input(now, CANARY, "new", Some([OLD_ONE]), None, []) }

  lemma OldOneSeen()
    ensures var r := Replica(0, "old", Healthy(60), Live, false, 0);
      && Look([OLD_ONE], "new", [], 0) == Sight(Some([r]), 0)
      && AnyOther([r], "new")
  {
    var r := Seen(OLD_ONE, "new");
    assert [OLD_ONE][1..] == [] && [] + [r] == [r];
    assert [r][0].revision != "new";
  }

  lemma OldOneTick(m: Memory, now: nat)
    requires m == BLANK || m == WAITING
    ensures var i := OldOneInput(now); StalledTick(m, i) && !Over(m, i) && Tick(m, i) == WAITING
  {
    var i := OldOneInput(now);
    OldOneSeen();
    var st := Prepare(m, i).snapshot.value;
    assert st.replicas == FULL.replicas;
    assert st.replicas[0] in st.Old();
    StalledStep(st);
  }

  lemma StallsOn(m: Memory, i: Input, rest: seq<Input>)
    requires StalledTick(m, i) && !Over(m, i) && Stalls(Tick(m, i), rest) && !Ended(Tick(m, i), rest)
    ensures Stalls(m, [i] + rest) && !Ended(m, [i] + rest)
  {
    assert ([i] + rest)[1..] == rest;
  }

  /** Such a run exists, of any length: the deadline of 600 seconds passes and nothing happens. */
  lemma {:induction false} StallFromStartUp(m: Memory, from: nat, n: nat)
    requires m == BLANK || m == WAITING
    ensures |Ticks(from, n)| == n && Stalls(m, Ticks(from, n)) && !Ended(m, Ticks(from, n))
    decreases n
  {
    if n > 0 {
      OldOneTick(m, 1000 * from);
      StallFromStartUp(WAITING, from + 1, n - 1);
      StallsOn(m, OldOneInput(1000 * from), Ticks(from + 1, n - 1));
    }
  }
}
