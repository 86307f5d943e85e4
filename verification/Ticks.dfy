/** What a tick of the controller sees, remembers and does, exactly; crashes and pace over runs of ticks. */
module Ticks {
  import opened Basics
  import opened Rollout
  import opened RolloutLaws
  import opened RolloutProgress
  import opened RolloutSafety
  import opened Controller
  import opened Revisions
  import opened Stalls

  // ----- the walk over the listing

  /** The positions of exited replicas of the target. */
  ghost function ExitPositions(list: seq<Container>, target: string): set<nat> {
    set k: nat | k < |list| && list[k].index.Some? && !list[k].running && list[k].revision == Some(target)
  }

  /** Every exited replica could be removed. */
  predicate AllRemoved(list: seq<Container>) { forall c <- list :: c.index.Some? && !c.running ==> c.removed }

  function ExitsOf(list: seq<Container>, target: string): nat {
    if list == [] then 0
    else
      (if list[0].index.Some? && !list[0].running && list[0].revision == Some(target) then 1 else 0)
      + ExitsOf(list[1..], target)
  }

  lemma {:induction false} ExitsLast(list: seq<Container>, target: string)
    requires list != []
    ensures var n := |list| - 1;
      ExitsOf(list, target) == ExitsOf(list[..n], target) +
        if list[n].index.Some? && !list[n].running && list[n].revision == Some(target) then 1 else 0
  {
    var n := |list| - 1;
    if n > 0 {
      ExitsLast(list[1..], target);
      assert list[1..][..n - 1] == list[..n][1..];
    } else {
      assert list[1..] == [] && list[..0] == [];
    }
  }

  lemma PositionsLast(list: seq<Container>, target: string, n: nat)
    requires |list| == n + 1
    ensures ExitPositions(list, target) == ExitPositions(list[..n], target) +
      if list[n].index.Some? && !list[n].running && list[n].revision == Some(target) then {n} else {}
    ensures n !in ExitPositions(list[..n], target)
  {
  }

  lemma {:induction false} ExitsAreCounted(list: seq<Container>, target: string)
    ensures ExitsOf(list, target) == |ExitPositions(list, target)|
  {
    var all := ExitPositions(list, target);
    if |list| == 0 {
      assert all == {};
    } else {
      var n := |list| - 1;
      ExitsAreCounted(list[..n], target);
      ExitsLast(list, target);
      PositionsLast(list, target, n);
    }
  }

  /** The replica a running container stands for. */
  function ReplicaOf(c: Container, target: string): Replica
    requires c.index.Some?
  {
    Replica(c.index.value, if c.revision.Some? then c.revision.value else "", c.health, Live,
            c.revision == Some(target) && c.health == Unhealthy, 0)
  }

  function ReplicasOf(list: seq<Container>, target: string): seq<Replica> {
    if list == [] then []
    else (if list[0].index.Some? && list[0].running then [ReplicaOf(list[0], target)] else []) + ReplicasOf(list[1..], target)
  }

  lemma {:induction false} WalkExact(list: seq<Container>, target: string, seen: seq<Replica>, crashes: nat)
    ensures var sight := Look(list, target, seen, crashes);
      && (sight.replicas.Some? <==> AllRemoved(list))
      && (AllRemoved(list) ==>
          sight.replicas == Some(seen + ReplicasOf(list, target)) && sight.crashes == crashes + ExitsOf(list, target))
  {
    if list != [] {
      var c := list[0];
      assert AllRemoved(list) <==> (c.index.Some? && !c.running ==> c.removed) && AllRemoved(list[1..]);
      var more := if c.index.Some? && c.running then [ReplicaOf(c, target)] else [];
      WalkExact(list[1..], target, seen + more, crashes + ExitsOf(list, target) - ExitsOf(list[1..], target));
      assert (seen + more) + ReplicasOf(list[1..], target) == seen + (more + ReplicasOf(list[1..], target));
      assert seen + [] == seen;
    } else {
      assert seen + [] == seen;
    }
  }

  /** A walk succeeds exactly when every exited replica can be removed. Then it has collected the running replicas
      and counted the exits of the target, and of nothing else. */
  lemma LookExact(list: seq<Container>, target: string, crashes: nat)
    ensures var sight := Look(list, target, [], crashes);
      && (sight.replicas.Some? <==> AllRemoved(list))
      && (AllRemoved(list) ==>
          sight.replicas == Some(ReplicasOf(list, target)) && sight.crashes == crashes + |ExitPositions(list, target)|)
  {
    WalkExact(list, target, [], crashes);
    ExitsAreCounted(list, target);
    assert [] + ReplicasOf(list, target) == ReplicasOf(list, target);
  }

  lemma {:induction false} ReplicasMembers(list: seq<Container>, target: string, r: Replica)
    ensures r in ReplicasOf(list, target) <==>
      exists c <- list :: c.index.Some? && c.running && r == ReplicaOf(c, target)
  {
    if list != [] {
      ReplicasMembers(list[1..], target, r);
      assert list == [list[0]] + list[1..];
    }
  }

  /** Another revision than the target still runs. */
  ghost predicate Survives(list: seq<Container>, target: string) {
    exists c <- list :: c.index.Some? && c.running && (if c.revision.Some? then c.revision.value else "") != target
  }

  lemma SurvivorSeen(list: seq<Container>, target: string)
    ensures AnyOther(ReplicasOf(list, target), target) <==> Survives(list, target)
  {
    var rs := ReplicasOf(list, target);
    if AnyOther(rs, target) {
      var k :| 0 <= k < |rs| && rs[k].revision != target;
      ReplicasMembers(list, target, rs[k]);
    }
    if Survives(list, target) {
      var c :| c in list && c.index.Some? && c.running && (if c.revision.Some? then c.revision.value else "") != target;
      ReplicasMembers(list, target, ReplicaOf(c, target));
      var k :| 0 <= k < |rs| && rs[k] == ReplicaOf(c, target);
    }
  }

  // ----- crashes over runs

  /** The tick watches the target: the file's revision is in, and the listing can be walked. */
  ghost predicate Watches(m: Memory, i: Input, target: string) {
    var f := FollowFile(m, i.now, i.def, i.fileRevision);
    && Fits(m, i) && f.applied.value.revision == target && !f.paused
    && i.listing.Some? && AllRemoved(i.listing.value)
    && forall c <- i.listing.value :: c.index.Some? ==> c.index.value < U32 - 1
  }

  /** The rollout goes on after the tick: it neither completes nor is over. */
  predicate GoesOn(m: Memory, i: Input)
    requires Fits(m, i)
  {
    !Over(m, i) && Planned(m, i) != [Complete]
  }

  /** The file brings in nothing new. */
  predicate Follows(m: Memory, i: Input) { FollowFile(m, i.now, i.def, i.fileRevision) == m }

  ghost function TotalExits(inputs: seq<Input>, target: string): nat {
    if inputs == [] then 0
    else
      (if inputs[0].listing.Some? then |ExitPositions(inputs[0].listing.value, target)| else 0)
      + TotalExits(inputs[1..], target)
  }

  /** The rollout goes on from one tick to the next, and the file brings in nothing new. */
  ghost predicate GoesOnTo(m: Memory, i: Input, m': Memory, i': Input) {
    Fits(m, i) && GoesOn(m, i) && m' == Tick(m, i) && Follows(m', i')
  }

  /** Ticks that watch the same revision, each with the memory it begins with; all but the last let it go on. */
  ghost predicate Watching(ms: seq<Memory>, inputs: seq<Input>, target: string) {
    && |ms| == |inputs| > 0
    && (forall k :: 0 <= k < |inputs| ==> Watches(ms[k], inputs[k], target))
    && (forall k :: 0 < k < |inputs| ==> GoesOnTo(ms[k - 1], inputs[k - 1], ms[k], inputs[k]))
  }

  lemma SightOf(m: Memory, i: Input, target: string)
    requires Watches(m, i, target)
    ensures var f, p := FollowFile(m, i.now, i.def, i.fileRevision), Prepare(m, i);
      && p.snapshot.Some?
      && p.memory.crashes == f.crashes + |ExitPositions(i.listing.value, target)|
      && p.snapshot.value.target == target
      && p.snapshot.value.replicas == WithStandIn(ReplicasOf(i.listing.value, target), target, p.memory.crashes)
  {
    var f := FollowFile(m, i.now, i.def, i.fileRevision);
    LookExact(i.listing.value, target, f.crashes);
  }

  lemma {:induction false} WorkKeepsCrashes(m: Memory, actions: seq<Action>, k: nat, answers: seq<Answer>, now: nat)
    requires m.applied.Some? && k <= |actions|
    requires forall a <- actions :: a.Start? || a.Drain? || a.Remove?
    ensures ExecuteAll(m, actions, k, answers, now).crashes == m.crashes
    decreases |actions| - k
  {
    if k < |actions| {
      assert actions[k] in actions;
      var r := Execute(m, actions[k], AnswerTo(answers, k), now);
      if r.Some? {
        WorkKeepsCrashes(r.value, actions, k + 1, answers, now);
      }
    }
  }

  /** A tick remembers the crashes it has counted, unless it rolls back or completes: then none. */
  lemma TickCrashes(m: Memory, i: Input)
    requires Fits(m, i)
    ensures Tick(m, i).crashes ==
      if RollsBack(m, i) || Planned(m, i) == [Complete] then 0 else Prepare(m, i).memory.crashes
  {
    var p, actions := Prepare(m, i), Planned(m, i);
    TickRevisions(m, i);
    if p.snapshot.Some? {
      var st := p.snapshot.value;
      NextStepCases(st);
      WorkKinds(st);
      if actions == Work(st) {
        WorkKeepsCrashes(p.memory, actions, 0, i.answers, i.now);
        assert actions != [] ==> actions[0] in Work(st);
      } else if actions != [] {
        if Obstacle(st).Some? {
          ObstacleSparesReplicas(st);
        }
        ExecuteSingle(p.memory, actions[0], i.answers, i.now);
        assert actions == [actions[0]];
      }
    }
  }

  /** The crashes on record when a tick begins to look. */
  function OnRecord(m: Memory, i: Input): nat { FollowFile(m, i.now, i.def, i.fileRevision).crashes }

  lemma RecordGrows(m: Memory, i: Input, next: Input, target: string)
    requires Watches(m, i, target) && GoesOn(m, i) && Follows(Tick(m, i), next)
    ensures OnRecord(Tick(m, i), next) == OnRecord(m, i) + |ExitPositions(i.listing.value, target)|
  {
    SightOf(m, i, target);
    TickCrashes(m, i);
  }

  lemma {:induction false} TotalLast(inputs: seq<Input>, target: string)
    requires inputs != [] && inputs[|inputs| - 1].listing.Some?
    ensures TotalExits(inputs, target)
      == TotalExits(inputs[..|inputs| - 1], target) + |ExitPositions(inputs[|inputs| - 1].listing.value, target)|
  {
    var n := |inputs| - 1;
    if n > 0 {
      TotalLast(inputs[1..], target);
      assert inputs[..n][1..] == inputs[1..][..n - 1];
    } else {
      assert inputs[1..] == [] && inputs[..0] == [];
    }
  }

  lemma {:induction false} CrashesAddUp(ms: seq<Memory>, inputs: seq<Input>, target: string, k: nat)
    requires Watching(ms, inputs, target) && k < |inputs|
    ensures OnRecord(ms[k], inputs[k]) == OnRecord(ms[0], inputs[0]) + TotalExits(inputs[..k], target)
  {
    if k > 0 {
      CrashesAddUp(ms, inputs, target, k - 1);
      assert Watches(ms[k - 1], inputs[k - 1], target) && GoesOnTo(ms[k - 1], inputs[k - 1], ms[k], inputs[k]);
      RecordGrows(ms[k - 1], inputs[k - 1], inputs[k], target);
      TotalLast(inputs[..k], target);
      assert inputs[..k][..k - 1] == inputs[..k - 1];
    }
  }

  /** Main result. Count the exits of a revision since it was applied. Three or more of them, with another revision
      still running, end the rollout at once; otherwise the planner sees the listed replicas and no stand-in. */
  lemma CrashesEndExactly(ms: seq<Memory>, inputs: seq<Input>, target: string)
    requires Watching(ms, inputs, target) && OnRecord(ms[0], inputs[0]) == 0
    ensures var n := |inputs| - 1;
      && Fits(ms[n], inputs[n]) && Prepare(ms[n], inputs[n]).snapshot.Some? && inputs[n].listing.Some?
      && if TotalExits(inputs, target) >= 3 && Survives(inputs[n].listing.value, target) then
           Over(ms[n], inputs[n])
         else
           Prepare(ms[n], inputs[n]).snapshot.value.replicas == ReplicasOf(inputs[n].listing.value, target)
  {
    var n := |inputs| - 1;
    assert Watches(ms[n], inputs[n], target);
    CrashesAddUp(ms, inputs, target, n);
    TotalLast(inputs, target);
    SightOf(ms[n], inputs[n], target);
    SurvivorSeen(inputs[n].listing.value, target);
    if TotalExits(inputs, target) >= 3 && Survives(inputs[n].listing.value, target) {
      EnoughCrashesEnd(ms[n], inputs[n], target);
    }
  }

  lemma EnoughCrashesEnd(m: Memory, i: Input, target: string)
    requires Watches(m, i, target) && Survives(i.listing.value, target) && Prepare(m, i).memory.crashes >= 3
    ensures Over(m, i)
  {
    var f := FollowFile(m, i.now, i.def, i.fileRevision);
    SightOf(m, i, target);
    SurvivorSeen(i.listing.value, target);
    LookExact(i.listing.value, target, f.crashes);
    ThreeCrashesEndTheRollout(m, i);
    TickRevisions(m, i);
  }

  // ----- what else is remembered

  /** A revision is applied on first sight, or when it is new and not the one rejected last; in the second case the
      one before it is kept, and the rollout starts now with no crashes. */
  lemma FollowExact(m: Memory, now: nat, def: ServiceDef, revision: string)
    ensures var f := FollowFile(m, now, def, revision);
      && (m.applied.None? ==> f == m.(applied := Some(Applied(revision, def))))
      && (m.applied.Some? && (m.applied.value.revision == revision || m.rejected == Some(revision)) ==> f == m)
      && (m.applied.Some? && m.applied.value.revision != revision && m.rejected != Some(revision) ==>
          f == Memory(Some(Applied(revision, def)), m.applied, m.rejected, m.desired, Some(now), m.lastAction, m.paused, 0))
  {
  }

  lemma {:induction false} ActionsKeepDesired(m: Memory, actions: seq<Action>, k: nat, answers: seq<Answer>, now: nat)
    requires m.applied.Some? && k <= |actions|
    ensures var r := ExecuteAll(m, actions, k, answers, now);
      r.desired == m.desired && ((forall a <- actions :: !a.Pause?) ==> r.paused == m.paused)
    decreases |actions| - k
  {
    if k < |actions| {
      assert actions[k] in actions;
      var r := Execute(m, actions[k], AnswerTo(answers, k), now);
      if r.Some? {
        ActionsKeepDesired(r.value, actions, k + 1, answers, now);
      }
    }
  }

  /** Carrying actions out leaves the desired count, and pauses the service exactly when the planner says so. */
  lemma TickPauses(m: Memory, i: Input)
    requires Fits(m, i)
    ensures Tick(m, i).desired == Prepare(m, i).memory.desired
    ensures Tick(m, i).paused <==> m.paused || exists a <- Planned(m, i) :: a.Pause?
  {
    var p, actions := Prepare(m, i), Planned(m, i);
    ActionsKeepDesired(p.memory, actions, 0, i.answers, i.now);
    if p.snapshot.Some? && exists a <- actions :: a.Pause? {
      var st := p.snapshot.value;
      NextStepCases(st);
      WorkKinds(st);
      assert actions == [Obstacle(st).value];
      ExecuteSingle(p.memory, actions[0], i.answers, i.now);
    }
  }

  // ----- the desired count

  /** The autoscaler's decision reaches the planner exactly when the service is autoscaled and no other revision is
      seen; otherwise the planner gets the count last decided, or the file's. Only in that case is it remembered. */
  lemma DesiredExact(m: Memory, i: Input)
    requires Prepare(m, i).snapshot.Some?
    ensures var p, f := Prepare(m, i), FollowFile(m, i.now, i.def, i.fileRevision);
      var st := p.snapshot.value;
      var last := if f.desired.Some? then f.desired.value else i.def.replicas;
      var free := i.def.autoscaled && forall r <- st.replicas :: r.revision == st.target;
      && st.desired == (if free && i.scaleTo.Some? then i.scaleTo.value else last)
      && p.memory.desired == (if free then Some(st.desired) else f.desired)
      && f.desired == m.desired
  {
    var f := FollowFile(m, i.now, i.def, i.fileRevision);
    var target := f.applied.value.revision;
    var st := Prepare(m, i).snapshot.value;
    var sight := Look(i.listing.value, target, [], f.crashes);
    var replicas := WithStandIn(sight.replicas.value, target, sight.crashes);
    assert st.replicas == replicas;
    assert AnyOther(replicas, target) <==> exists r <- replicas :: r.revision != target by {
      if r :| r in replicas && r.revision != target {
        var k :| 0 <= k < |replicas| && replicas[k] == r;
      }
    }
  }

  // ----- the pace

  /** The k-th action of the tick starts or drains something, and is carried out. */
  predicate ActsAt(m: Memory, i: Input, k: nat)
    requires Fits(m, i)
  {
    && k < |Planned(m, i)| && (Planned(m, i)[k].Start? || Planned(m, i)[k].Drain?)
    && AnswerTo(i.answers, k).Accepted?
    && forall j :: 0 <= j < k ==> Passes(Planned(m, i)[j], AnswerTo(i.answers, j))
  }

  /** The action does not end the tick: a refused start does not, other refusals do. */
  predicate Passes(a: Action, answer: Answer) { answer.Accepted? || (a.Start? && !answer.NotSpecified?) }

  lemma {:induction false} LastActionKept(m: Memory, actions: seq<Action>, k: nat, answers: seq<Answer>, now: nat)
    requires m.applied.Some? && k <= |actions|
    ensures var r := ExecuteAll(m, actions, k, answers, now);
      r.lastAction == m.lastAction || r.lastAction == Some(now)
    decreases |actions| - k
  {
    if k < |actions| {
      var r := Execute(m, actions[k], AnswerTo(answers, k), now);
      if r.Some? {
        LastActionKept(r.value, actions, k + 1, answers, now);
      }
    }
  }

  lemma {:induction false} ActionIsStamped(m: Memory, actions: seq<Action>, from: nat, k: nat, answers: seq<Answer>, now: nat)
    requires m.applied.Some? && from <= k < |actions| && (actions[k].Start? || actions[k].Drain?)
    requires AnswerTo(answers, k).Accepted? && forall j :: from <= j < k ==> Passes(actions[j], AnswerTo(answers, j))
    ensures ExecuteAll(m, actions, from, answers, now).lastAction == Some(now)
    decreases k - from
  {
    var r := Execute(m, actions[from], AnswerTo(answers, from), now).value;
    if from == k {
      LastActionKept(r, actions, k + 1, answers, now);
    } else {
      ActionIsStamped(r, actions, from + 1, k, answers, now);
    }
  }

  lemma TickStamps(m: Memory, i: Input)
    requires Fits(m, i)
    ensures Tick(m, i).lastAction == m.lastAction || Tick(m, i).lastAction == Some(i.now)
    ensures (exists k: nat :: ActsAt(m, i, k)) ==> Tick(m, i).lastAction == Some(i.now)
    ensures Prepare(m, i).memory.lastAction == m.lastAction
  {
    LastActionKept(Prepare(m, i).memory, Planned(m, i), 0, i.answers, i.now);
    if k: nat :| ActsAt(m, i, k) {
      ActionIsStamped(Prepare(m, i).memory, Planned(m, i), 0, k, i.answers, i.now);
    }
  }

  /** A tick of a rollout acts only when its delay has passed since the last action. */
  lemma ActsAfterTheDelay(m: Memory, i: Input, k: nat)
    requires Fits(m, i) && ActsAt(m, i, k) && Prepare(m, i).snapshot.Some?
    requires InRollout(Prepare(m, i).snapshot.value)
    ensures var delay := Prepare(m, i).snapshot.value.policy.delaySecs;
      m.lastAction.Some? ==> i.now >= m.lastAction.value + delay || delay == 0
  {
    var st := Prepare(m, i).snapshot.value;
    SnapshotIsLive(m, i);
    RollingOutExact(st);
    if Obstacle(st).Some? {
      ObstacleSparesReplicas(st);
    } else if st.sinceLastActionSecs < st.policy.delaySecs {
      NobodyDrains(st);
      assert Planned(m, i)[k] in Planned(m, i);
    }
  }

  lemma NobodyDrains(st: State)
    requires st.Valid() && !st.paused && InRollout(st) && Obstacle(st).None?
    requires st.sinceLastActionSecs < st.policy.delaySecs && forall r <- st.replicas :: LiveReplica(r)
    ensures NextStep(st) == []
  {
    RollingOutExact(st);
    SelectNone(st.replicas, IsDrained(st.drainSecs));
  }

  /** The controller shows the planner live replicas only. */
  lemma SnapshotIsLive(m: Memory, i: Input)
    requires Prepare(m, i).snapshot.Some?
    ensures forall r <- Prepare(m, i).snapshot.value.replicas :: LiveReplica(r)
    ensures Prepare(m, i).snapshot.value.sinceLastActionSecs ==
      if m.lastAction.Some? then Sub(i.now, m.lastAction.value) else Min(i.now, 0x100_0000_0000)
    ensures !Prepare(m, i).snapshot.value.paused
  {
    var f := FollowFile(m, i.now, i.def, i.fileRevision);
    var target := f.applied.value.revision;
    LookExact(i.listing.value, target, f.crashes);
    forall r <- ReplicasOf(i.listing.value, target) ensures LiveReplica(r) {
      ReplicasMembers(i.listing.value, target, r);
    }
  }

  // ----- what the planner is shown, and how far a turn gets

  /** The planner is asked exactly when the service is not paused, its containers can be listed, and every exited
      replica can be removed. It is shown the applied revision with its own policy, where it may go back to, and for
      how long the rollout has been going on. */
  lemma PlannerIsShown(m: Memory, i: Input)
    ensures var snapshot, f := Prepare(m, i).snapshot, FollowFile(m, i.now, i.def, i.fileRevision);
      && (snapshot.Some? <==> !f.paused && i.listing.Some? && AllRemoved(i.listing.value))
      && (snapshot.Some? ==>
            && snapshot.value.target == f.applied.value.revision
            && snapshot.value.policy == f.applied.value.def.update
            && snapshot.value.previous == (if f.previous.Some? then Some(f.previous.value.revision) else None)
            && snapshot.value.drainSecs == 0
            && snapshot.value.elapsedSecs == (if Dated(f, i.now) then i.now - f.rolloutStart.value else 0))
  {
    var f := FollowFile(m, i.now, i.def, i.fileRevision);
    if !f.paused && i.listing.Some? {
      LookExact(i.listing.value, f.applied.value.revision, f.crashes);
    }
  }

  /** The start of the rollout is on record and past. */
  predicate Dated(m: Memory, now: nat) { m.rolloutStart.Some? && m.rolloutStart.value <= now }

  /** After the action the turn goes on: always after what needs no call, and after a start that was merely refused. */
  predicate GoesOnAfter(a: Action, answer: Answer) { a.Rollback? || a.Pause? || a.Complete? || Passes(a, answer) }

  lemma {:induction false} CarriedOutExact(m: Memory, actions: seq<Action>, k: nat, answers: seq<Answer>, now: nat)
    requires m.applied.Some? && k <= |actions|
    ensures CarriedOut(m, actions, k, answers, now) <==>
      forall j :: k <= j < |actions| ==> GoesOnAfter(actions[j], AnswerTo(answers, j))
    decreases |actions| - k
  {
    if k < |actions| {
      var r := Execute(m, actions[k], AnswerTo(answers, k), now);
      if r.Some? { CarriedOutExact(r.value, actions, k + 1, answers, now); }
    }
  }

  /** A turn goes through exactly when the service is paused, or the planner is asked and no action ends the turn. */
  lemma TurnExact(m: Memory, i: Input)
    requires Fits(m, i)
    ensures GoesThrough(m, i) <==>
      || FollowFile(m, i.now, i.def, i.fileRevision).paused
      || (Prepare(m, i).snapshot.Some?
          && forall k :: 0 <= k < |Planned(m, i)| ==> GoesOnAfter(Planned(m, i)[k], AnswerTo(i.answers, k)))
  {
    CarriedOutExact(Prepare(m, i).memory, Planned(m, i), 0, i.answers, i.now);
  }

  /** The first action that ends a turn leaves no trace, nor do those after it. */
  lemma {:induction false} StopsAtTheFirst(m: Memory, actions: seq<Action>, k: nat, n: nat, answers: seq<Answer>, now: nat)
    requires m.applied.Some? && k <= n < |actions| && !GoesOnAfter(actions[n], AnswerTo(answers, n))
    ensures ExecuteAll(m, actions, k, answers, now) == ExecuteAll(m, actions[..n], k, answers, now)
    decreases n - k
  {
    assert k < n ==> actions[..n][k] == actions[k];
    if k < n {
      var r := Execute(m, actions[k], AnswerTo(answers, k), now);
      if r.Some? { StopsAtTheFirst(r.value, actions, k + 1, n, answers, now); }
    }
  }

  // ----- the pace over runs

  /** Ticks in a row, from the memory before the first to the memory after the last. */
  ghost predicate Runs(m: Memory, inputs: seq<Input>, end: Memory)
    decreases |inputs|
  {
    if inputs == [] then m == end else Fits(m, inputs[0]) && Runs(Tick(m, inputs[0]), inputs[1..], end)
  }

  lemma {:induction false} StampMovesOn(m: Memory, inputs: seq<Input>, end: Memory, now: nat)
    requires Runs(m, inputs, end) && m.lastAction.Some? && m.lastAction.value >= now
    requires forall k :: 0 <= k < |inputs| ==> inputs[k].now >= now
    ensures end.lastAction.Some? && end.lastAction.value >= now
    decreases |inputs|
  {
    if inputs != [] {
      TickStamps(m, inputs[0]);
      StampMovesOn(Tick(m, inputs[0]), inputs[1..], end, now);
    }
  }

  /** Main result. However many ticks lie between them, a tick that starts or drains something and a later tick of a
      rollout that does are at least the delay apart. */
  lemma ActionsAreSpaced(m: Memory, first: Input, j: nat, between: seq<Input>, m': Memory, last: Input, k: nat)
    requires Fits(m, first) && ActsAt(m, first, j) && Runs(Tick(m, first), between, m')
    requires first.now <= last.now && forall n :: 0 <= n < |between| ==> first.now <= between[n].now
    requires Fits(m', last) && ActsAt(m', last, k)
    requires Prepare(m', last).snapshot.Some? && InRollout(Prepare(m', last).snapshot.value)
    ensures last.now >= first.now + Prepare(m', last).snapshot.value.policy.delaySecs
  {
    TickStamps(m, first);
    StampMovesOn(Tick(m, first), between, m', first.now);
    ActsAfterTheDelay(m', last, k);
  }
}
