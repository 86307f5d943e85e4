/** What the revision state machine keeps over every run of ticks. */
module Revisions {
  import opened Basics
  import opened Rollout
  import opened RolloutSafety
  import opened Controller

  // ----- one tick

  predicate RollsBack(m: Memory, i: Input)
    requires Fits(m, i)
  {
    Planned(m, i) != [] && Planned(m, i)[0].Rollback?
  }

  predicate Applies(m: Memory, revision: string) { m.applied.Some? && m.applied.value.revision == revision }

  /** A memory that differs at most in counters. */
  predicate SameRevisions(a: Memory, b: Memory) {
    a.applied == b.applied && a.previous == b.previous && a.rejected == b.rejected
  }

  lemma {:induction false} WorkKeepsRevisions(m: Memory, actions: seq<Action>, k: nat, answers: seq<Answer>, now: nat)
    requires m.applied.Some? && k <= |actions|
    requires forall a :: a in actions ==> a.Start? || a.Drain? || a.Remove?
    ensures SameRevisions(ExecuteAll(m, actions, k, answers, now), m)
    ensures ExecuteAll(m, actions, k, answers, now).paused == m.paused
    decreases |actions| - k
  {
    if k < |actions| {
      assert actions[k] in actions;
      var r := Execute(m, actions[k], AnswerTo(answers, k), now);
      if r.Some? {
        WorkKeepsRevisions(r.value, actions, k + 1, answers, now);
      }
    }
  }

  lemma ExecuteSingle(m: Memory, a: Action, answers: seq<Answer>, now: nat)
    requires m.applied.Some? && !a.Start? && !a.Drain? && !a.Remove?
    ensures ExecuteAll(m, [a], 0, answers, now) == Execute(m, a, AnswerTo(answers, 0), now).value
  {
    var r := Execute(m, a, AnswerTo(answers, 0), now).value;
    assert ExecuteAll(r, [a], 1, answers, now) == r;
  }

  lemma PrepareFollows(m: Memory, i: Input)
    ensures SameRevisions(Prepare(m, i).memory, FollowFile(m, i.now, i.def, i.fileRevision))
    ensures Prepare(m, i).snapshot.Some? ==>
      var st, f := Prepare(m, i).snapshot.value, FollowFile(m, i.now, i.def, i.fileRevision);
      && !st.paused && st.target == f.applied.value.revision
      && st.previous == (if f.previous.Some? then Some(f.previous.value.revision) else None)
  {
  }

  /** A tick that rolls back swaps the applied revision for the previous one and rejects it;
      any other tick only follows the file. */
  lemma TickRevisions(m: Memory, i: Input)
    requires Fits(m, i)
    ensures var f, r := FollowFile(m, i.now, i.def, i.fileRevision), Tick(m, i);
      if RollsBack(m, i) then
        && f.previous.Some?
        && Planned(m, i) == [Rollback(f.previous.value.revision)]
        && r.applied == f.previous && r.previous == None && r.rejected == Some(f.applied.value.revision)
      else SameRevisions(r, f)
  {
    var p, actions := Prepare(m, i), Planned(m, i);
    PrepareFollows(m, i);
    if p.snapshot.Some? {
      var st := p.snapshot.value;
      NextStepCases(st);
      WorkKinds(st);
      if actions == Work(st) {
        WorkKeepsRevisions(p.memory, actions, 0, i.answers, i.now);
        assert actions != [] ==> actions[0] in Work(st);
      } else if actions != [] {
        if Obstacle(st).Some? {
          ObstacleSparesReplicas(st);
        }
        ExecuteSingle(p.memory, actions[0], i.answers, i.now);
        assert actions == [actions[0]];
      }
    }
  }

  // ----- runs

  datatype Event =
    | Ticked(input: Input)
    | Paused(on: bool)
    | AutoscaleChanged

  ghost predicate Possible(m: Memory, e: Event) { e.Ticked? ==> Fits(m, e.input) }

  function Happen(m: Memory, e: Event): Memory
    requires Possible(m, e)
  {
    match e
    case Ticked(i) => Tick(m, i)
    case Paused(on) => m.(paused := on)
    case AutoscaleChanged => m.(desired := None)
  }

  ghost predicate Reaches(m: Memory, events: seq<Event>, end: Memory)
    decreases events
  {
    if events == [] then m == end
    else Possible(m, events[0]) && Reaches(Happen(m, events[0]), events[1..], end)
  }

  /** Some tick of the run rolls back. */
  ghost predicate SomeRollback(m: Memory, events: seq<Event>)
    decreases events
  {
    events != [] && Possible(m, events[0]) &&
    ((events[0].Ticked? && RollsBack(m, events[0].input)) || SomeRollback(Happen(m, events[0]), events[1..]))
  }

  /** The applied revision is never the rejected one, nor the one kept to fall back to. */
  predicate Consistent(m: Memory) {
    && (m.applied.None? ==> m.previous.None? && m.rejected.None?)
    && (m.previous.Some? ==> m.previous.value.revision != m.applied.value.revision)
    && (m.rejected.Some? ==> m.rejected.value != m.applied.value.revision)
  }

  lemma {:induction false} EveryRunIsConsistent(m: Memory, events: seq<Event>, end: Memory)
    requires Consistent(m) && Reaches(m, events, end)
    ensures Consistent(end)
    decreases events
  {
    if events != [] {
      if events[0].Ticked? {
        TickRevisions(m, events[0].input);
      }
      EveryRunIsConsistent(Happen(m, events[0]), events[1..], end);
    }
  }

  /** The state right after the file's revision was applied and rolled back. */
  predicate JustRejected(m: Memory, revision: string) {
    && m.applied.Some? && m.applied.value.revision != revision
    && m.rejected == Some(revision)
    && m.previous.None?
  }

  lemma RollbackRejects(m: Memory, i: Input)
    requires Consistent(m) && Fits(m, i) && RollsBack(m, i)
    ensures m.rejected != Some(i.fileRevision) ==> JustRejected(Tick(m, i), i.fileRevision)
    ensures !Applies(Tick(m, i), FollowFile(m, i.now, i.def, i.fileRevision).applied.value.revision)
  {
    TickRevisions(m, i);
  }

  ghost predicate FileKeeps(events: seq<Event>, revision: string) {
    forall k :: 0 <= k < |events| && events[k].Ticked? ==> events[k].input.fileRevision == revision
  }

  /** After a rollback, for as long as the file keeps the rejected revision, the applied
      revision does not move and nothing is rolled back again. */
  lemma {:induction false} RejectedStaysRejected(m: Memory, events: seq<Event>, end: Memory, revision: string)
    requires JustRejected(m, revision) && FileKeeps(events, revision) && Reaches(m, events, end)
    ensures JustRejected(end, revision) && end.applied == m.applied
    ensures !SomeRollback(m, events)
    decreases events
  {
    if events != [] {
      if events[0].Ticked? {
        TickRevisions(m, events[0].input);
      }
      RejectedStaysRejected(Happen(m, events[0]), events[1..], end, revision);
    }
  }

  /** Only the last rejection is remembered. Whatever the file does, a rejected revision can
      only come back after some other rollback. */
  lemma {:induction false} RetryNeedsAnotherRollback(m: Memory, events: seq<Event>, end: Memory, revision: string)
    requires m.applied.Some? && m.applied.value.revision != revision && m.rejected == Some(revision)
    requires (m.previous.Some? ==> m.previous.value.revision != revision) && Reaches(m, events, end)
    ensures Applies(end, revision) ==> SomeRollback(m, events)
    decreases events
  {
    if events != [] {
      if events[0].Ticked? {
        TickRevisions(m, events[0].input);
        if RollsBack(m, events[0].input) {
          return;
        }
      }
      RetryNeedsAnotherRollback(Happen(m, events[0]), events[1..], end, revision);
    }
  }

  /** When a tick moves the file's revision in: exactly when it is not already applied and
      is not the last one rejected. */
  lemma FollowsUnlessRejected(m: Memory, i: Input)
    requires Fits(m, i) && m.applied.Some? && m.applied.value.revision != i.fileRevision && !RollsBack(m, i)
    ensures Applies(Tick(m, i), i.fileRevision) <==> m.rejected != Some(i.fileRevision)
  {
    TickRevisions(m, i);
  }

  // ----- crash loops

  lemma StandInFails(st: State)
    requires st.Valid() && !st.paused
    requires StandIn(st.target) in st.replicas && AnyOther(st.replicas, st.target)
    requires forall r :: r in st.replicas ==> LiveReplica(r)
    ensures NextStep(st) == [Failure(st, FAILED)]
  {
    var k :| 0 <= k < |st.replicas| && st.replicas[k].revision != st.target;
    assert st.replicas[k] in st.Old();
    assert IsFailedNew(st.target)(StandIn(st.target));
    assert StandIn(st.target) in Select(st.replicas, IsFailedNew(st.target));
  }

  lemma {:induction false} LookFacts(list: seq<Container>, target: string, seen: seq<Replica>, crashes: nat)
    requires forall c :: c in list && c.index.Some? ==> c.index.value < PLACEHOLDER
    requires forall r :: r in seen ==> LiveReplica(r) && r.index < PLACEHOLDER
    ensures var s := Look(list, target, seen, crashes);
      s.replicas.Some? ==> forall r :: r in s.replicas.value ==> LiveReplica(r) && r.index < PLACEHOLDER
    decreases list
  {
    if list != [] {
      var c := list[0];
      var n := if c.revision == Some(target) then crashes + 1 else crashes;
      if c.index.None? {
        LookFacts(list[1..], target, seen, crashes);
      } else if c.running {
        LookFacts(list[1..], target, seen + [Seen(c, target)], crashes);
      } else if c.removed {
        LookFacts(list[1..], target, seen, n);
      }
    }
  }

  /** A revision that crashed three times while older replicas survive ends its rollout at once:
      by a rollback if there is a previous revision and the policy allows it, else by a pause. */
  lemma ThreeCrashesEndTheRollout(m: Memory, i: Input)
    requires Fits(m, i) && Prepare(m, i).snapshot.Some?
    requires forall c :: c in i.listing.value && c.index.Some? ==> c.index.value < PLACEHOLDER
    requires var f := FollowFile(m, i.now, i.def, i.fileRevision);
      var sight := Look(i.listing.value, f.applied.value.revision, [], f.crashes);
      sight.crashes >= CRASH_LIMIT && AnyOther(sight.replicas.value, f.applied.value.revision)
    ensures var st := Prepare(m, i).snapshot.value;
      Planned(m, i) == [Failure(st, FAILED)]
    ensures var f := FollowFile(m, i.now, i.def, i.fileRevision);
      if f.applied.value.def.update.onFailure.RollbackOnFailure? && f.previous.Some?
      then Tick(m, i).applied == f.previous
      else Tick(m, i).paused
  {
    var f := FollowFile(m, i.now, i.def, i.fileRevision);
    var st := Prepare(m, i).snapshot.value;
    var seen := Look(i.listing.value, f.applied.value.revision, [], f.crashes).replicas.value;
    LookFacts(i.listing.value, st.target, [], f.crashes);
    assert st.replicas == seen + [StandIn(st.target)];
    var k :| 0 <= k < |seen| && seen[k].revision != st.target;
    assert st.replicas[k].revision != st.target;
    StandInFails(st);
    TickRevisions(m, i);
    ExecuteSingle(Prepare(m, i).memory, Failure(st, FAILED), i.answers, i.now);
  }

  /** The stand-in is never drained and free indexes stay below the bound, so the replica
      number, index plus one, always fits 32 bits. */
  lemma ReplicaNumbersFit(m: Memory, i: Input)
    requires Fits(m, i)
    requires i.listing.Some? ==> forall c :: c in i.listing.value && c.index.Some? ==> c.index.value < PLACEHOLDER
    ensures forall a :: a in Planned(m, i) && (a.Start? || a.Drain? || a.Remove?) ==> a.index + 1 < U32
  {
    var p := Prepare(m, i);
    if p.snapshot.Some? {
      var st := p.snapshot.value;
      var f := FollowFile(m, i.now, i.def, i.fileRevision);
      var sight := Look(i.listing.value, st.target, [], f.crashes);
      LookFacts(i.listing.value, st.target, [], f.crashes);
      if st.replicas != sight.replicas.value {
        ThreeCrashesEndTheRollout(m, i);
      } else {
        NextStepCases(st);
        WorkIndexes(st);
        if Obstacle(st).Some? {
          ObstacleSparesReplicas(st);
        }
      }
    }
  }

  lemma WorkIndexes(st: State)
    requires st.Valid() && forall r :: r in st.replicas ==> r.index < PLACEHOLDER
    ensures forall a :: a in Work(st) ==> (a.Start? || a.Drain? || a.Remove?) && a.index < PLACEHOLDER
  {
    VictimMembers(st);
    StartsAreFree(st);
    forall a | a in Work(st) ensures (a.Start? || a.Drain? || a.Remove?) && a.index < PLACEHOLDER {
      assert a in RemoveActions(Drained(st)) || a in DrainActions(Victims(st)) || a in StartActions(Starts(st), st.target);
    }
  }

  lemma VictimMembers(st: State)
    ensures forall v :: v in Victims(st) ==> v in st.replicas
  {
    var ready := Select(st.replicas, ReadyOld(st.target, st.policy.minReadySecs));
    PrefixOfSort(st.New(), ByLoad(), Sub(|st.New()|, st.desired));
    PrefixOfSort(ready, ByIndexDown(), Min(Allowed(st), |ready|));
  }

  lemma PrefixOfSort(xs: seq<Replica>, le: (Replica, Replica) -> bool, n: nat)
    requires n <= |xs|
    ensures forall v :: v in Order.Sort(xs, le)[..n] ==> v in xs
  {
    Order.SortMembers(xs, le);
    assert forall v :: v in Order.Sort(xs, le)[..n] ==> v in Order.Sort(xs, le);
  }
}
