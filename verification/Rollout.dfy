/** The rolling-update planner: a snapshot of replicas in, a list of actions out. */
module Rollout {
  import opened Basics
  import opened Order

  datatype Health = Starting | Healthy(forSecs: nat) | Unhealthy

  datatype Lifecycle = Live | Draining(drainingSecs: nat)

  datatype Replica = Replica(
    index: nat,
    revision: string,
    health: Health,
    lifecycle: Lifecycle,
    failed: bool,
    connections: nat)

  datatype Strategy = Rolling | Recreate | Canary

  datatype OnFailure = RollbackOnFailure | PauseOnFailure

  datatype Policy = Policy(
    strategy: Strategy,
    maxSurge: nat,
    maxUnavailable: nat,
    minReadySecs: nat,
    delaySecs: nat,
    progressDeadlineSecs: nat,
    onFailure: OnFailure)

  datatype State = State(
    desired: nat,
    target: string,
    previous: Option<string>,
    policy: Policy,
    drainSecs: nat,
    replicas: seq<Replica>,
    elapsedSecs: nat,
    sinceLastActionSecs: nat,
    paused: bool)
  {
    /** The 32-bit sums and casts of the planner do not wrap. */
    predicate Valid() {
      desired + policy.maxSurge < U32 && |Alive()| < U32
    }

    function Alive(): seq<Replica> { Select(replicas, IsAlive()) }

    function Old(): seq<Replica> { Select(replicas, IsOld(target)) }

    function New(): seq<Replica> { Select(replicas, IsNew(target)) }

    function Available(): nat { |Select(replicas, Ready(policy.minReadySecs))| }

    predicate RollingOut() { Old() != [] }

    predicate AnyDraining() { Select(replicas, IsDraining()) != [] }

    function Bound(): nat { desired + policy.maxSurge }

    function Required(): nat { Sub(desired, policy.maxUnavailable) }
  }

  datatype Action =
    | Start(index: nat, revision: string)
    | Drain(index: nat)
    | Remove(index: nat)
    | Rollback(to: string)
    | Pause(reason: string)
    | Complete

  // ----- selecting replicas

  predicate LiveReplica(r: Replica) { r.lifecycle.Live? }

  predicate ReadyReplica(r: Replica, minReady: nat) {
    LiveReplica(r) && r.health.Healthy? && r.health.forSecs >= minReady
  }

  function IsAlive(): Replica -> bool { (r: Replica) => LiveReplica(r) }

  function IsDraining(): Replica -> bool { (r: Replica) => !LiveReplica(r) }

  function IsDrained(secs: nat): Replica -> bool {
    (r: Replica) => r.lifecycle.Draining? && r.lifecycle.drainingSecs >= secs
  }

  function IsOld(target: string): Replica -> bool { (r: Replica) => LiveReplica(r) && r.revision != target }

  function IsNew(target: string): Replica -> bool { (r: Replica) => LiveReplica(r) && r.revision == target }

  function IsFailedNew(target: string): Replica -> bool { (r: Replica) => LiveReplica(r) && r.revision == target && r.failed }

  function IsDrainingOld(target: string): Replica -> bool { (r: Replica) => !LiveReplica(r) && r.revision != target }

  function Ready(minReady: nat): Replica -> bool { (r: Replica) => ReadyReplica(r, minReady) }

  function ReadyOld(target: string, minReady: nat): Replica -> bool {
    (r: Replica) => r.revision != target && ReadyReplica(r, minReady)
  }

  function UnreadyOld(target: string, minReady: nat): Replica -> bool {
    (r: Replica) => LiveReplica(r) && r.revision != target && !ReadyReplica(r, minReady)
  }

  function Select(rs: seq<Replica>, p: Replica -> bool): (r: seq<Replica>)
    ensures |r| <= |rs|
    ensures forall x :: x in r <==> x in rs && p(x)
  {
    if rs == [] then []
    else if p(rs[0]) then [rs[0]] + Select(rs[1..], p)
    else Select(rs[1..], p)
  }

  // ----- the orders in which victims are taken

  /** Scale-down takes the least connected first, then the highest index. */
  function ByLoad(): (Replica, Replica) -> bool {
    (a: Replica, b: Replica) => a.connections < b.connections || (a.connections == b.connections && b.index <= a.index)
  }

  /** A rollout takes ready old replicas from the highest index down. */
  function ByIndexDown(): (Replica, Replica) -> bool {
    (a: Replica, b: Replica) => b.index <= a.index
  }

  // ----- free indexes

  predicate Used(rs: seq<Replica>, i: nat) {
    exists k :: 0 <= k < |rs| && rs[k].index == i
  }

  /** The indexes in lo..bound that no replica uses, ascending. */
  function FreeFrom(rs: seq<Replica>, lo: nat, bound: nat): (r: seq<nat>)
    decreases bound - lo
  {
    if lo >= bound then []
    else if Used(rs, lo) then FreeFrom(rs, lo + 1, bound)
    else [lo] + FreeFrom(rs, lo + 1, bound)
  }

  function FreeIndexes(rs: seq<Replica>, bound: nat, want: nat): (r: seq<nat>)
    ensures |r| <= want
  {
    var free := FreeFrom(rs, 0, bound);
    free[..Min(want, |free|)]
  }

  // ----- one planning step

  const FAILED: string := "new replica failed to become healthy"
  const DEADLINE: string := "progress deadline exceeded"
  const STUCK: string := "max_surge and max_unavailable cannot both be zero"

  function Failure(s: State, reason: string): Action {
    if s.policy.onFailure.RollbackOnFailure? && s.previous.Some? then Rollback(s.previous.value)
    else Pause(reason)
  }

  function RemoveActions(rs: seq<Replica>): seq<Action> { seq(|rs|, i requires 0 <= i < |rs| => Remove(rs[i].index)) }

  function DrainActions(rs: seq<Replica>): seq<Action> { seq(|rs|, i requires 0 <= i < |rs| => Drain(rs[i].index)) }

  function StartActions(ix: seq<nat>, revision: string): seq<Action> {
    seq(|ix|, i requires 0 <= i < |ix| => Start(ix[i], revision))
  }

  /** Why a rollout in progress has to stop, if it has to. */
  function Obstacle(s: State): Option<Action> {
    if !s.RollingOut() then None
    else if Select(s.replicas, IsFailedNew(s.target)) != [] then Some(Failure(s, FAILED))
    else if s.elapsedSecs > s.policy.progressDeadlineSecs then Some(Failure(s, DEADLINE))
    else if s.policy.strategy.Rolling? && s.policy.maxSurge == 0 && s.policy.maxUnavailable == 0 then Some(Pause(STUCK))
    else None
  }

  function Drained(s: State): seq<Replica> { Select(s.replicas, IsDrained(s.drainSecs)) }

  /** How many ready old replicas may go without dropping below the required number. */
  function Allowed(s: State): nat { Sub(s.Available(), s.Required()) }

  function ReadyOldByIndex(s: State): seq<Replica> {
    Sort(Select(s.replicas, ReadyOld(s.target, s.policy.minReadySecs)), ByIndexDown())
  }

  function RollingVictims(s: State): seq<Replica> {
    var ready := ReadyOldByIndex(s);
    Select(s.replicas, UnreadyOld(s.target, s.policy.minReadySecs)) + ready[..Min(Allowed(s), |ready|)]
  }

  function Victims(s: State): seq<Replica> {
    if !s.RollingOut() then
      Sort(s.New(), ByLoad())[..Sub(|s.New()|, s.desired)]
    else if s.policy.strategy.Recreate? then
      if s.sinceLastActionSecs < s.policy.delaySecs && Drained(s) == [] then [] else s.Old()
    else if s.sinceLastActionSecs < s.policy.delaySecs then []
    else RollingVictims(s)
  }

  function Starts(s: State): seq<nat> {
    var missing := Sub(s.desired, |s.New()|);
    if !s.RollingOut() then
      if s.policy.strategy.Recreate? && Select(s.replicas, IsDrainingOld(s.target)) != [] then []
      else FreeIndexes(s.replicas, s.Bound(), missing)
    else if s.policy.strategy.Recreate? || s.sinceLastActionSecs < s.policy.delaySecs then []
    else FreeIndexes(s.replicas, s.Bound(), Min(missing, Sub(s.Bound(), |s.Alive()|)))
  }

  /** The ordinary work of a step: remove what has drained, drain the victims, start replacements. */
  function Work(s: State): seq<Action> {
    RemoveActions(Drained(s)) + DrainActions(Victims(s)) + StartActions(Starts(s), s.target)
  }

  predicate AllNewReady(s: State) {
    forall r :: r in s.New() ==> ReadyReplica(r, s.policy.minReadySecs)
  }

  function NextStep(s: State): seq<Action>
    requires s.Valid()
  {
    if s.paused then []
    else if Obstacle(s).Some? then [Obstacle(s).value]
    else if !s.RollingOut() && Work(s) == [] && !s.AnyDraining() && AllNewReady(s) then [Complete]
    else Work(s)
  }

  lemma NothingToDrain(s: State)
    requires !s.RollingOut() && |s.New()| <= s.desired
    ensures Work(s) == RemoveActions(Drained(s)) + StartActions(Starts(s), s.target)
  {
    assert DrainActions(Victims(s)) == [];
  }

  lemma NothingToStart(s: State)
    requires Starts(s) == []
    ensures Work(s) == RemoveActions(Drained(s)) + DrainActions(Victims(s))
  {
    assert StartActions(Starts(s), s.target) == [];
  }

  /** The planner as the program runs it: early returns and a list of actions that grows
      in place. */
  method PlanStep(s: State) returns (actions: seq<Action>)
    requires s.Valid()
    ensures actions == NextStep(s)
  {
    if s.paused {
      return [];
    }
    var pol := s.policy;
    var rolling := s.RollingOut();
    if rolling {
      if Select(s.replicas, IsFailedNew(s.target)) != [] {
        return [Failure(s, FAILED)];
      }
      if s.elapsedSecs > pol.progressDeadlineSecs {
        return [Failure(s, DEADLINE)];
      }
      if pol.strategy == Rolling && pol.maxSurge == 0 && pol.maxUnavailable == 0 {
        return [Pause(STUCK)];
      }
    }
    actions := RemoveActions(Drained(s));
    if !rolling {
      actions := SteadyWork(s, actions);
      if actions == [] && !s.AnyDraining() && AllNewReady(s) {
        return [Complete];
      }
      return;
    }
    if pol.strategy == Recreate {
      NothingToStart(s);
      if s.sinceLastActionSecs < pol.delaySecs && actions == [] {
        assert Drained(s) == [] && Victims(s) == [];
        return;
      }
      assert actions == [] ==> Drained(s) == [];
      actions := actions + DrainActions(s.Old());
      return;
    }
    if s.sinceLastActionSecs < pol.delaySecs {
      NothingToStart(s);
      assert Victims(s) == [];
      return;
    }
    var victims := TakeVictims(s);
    actions := actions + DrainActions(victims);
    var room := Sub(s.Bound(), |s.Alive()|);
    var canStart := Min(Sub(s.desired, |s.New()|), room);
    actions := actions + StartActions(FreeIndexes(s.replicas, s.Bound(), canStart), s.target);
  }

  /** The part of the planner that runs when no old replica is live. */
  method SteadyWork(s: State, removes: seq<Action>) returns (actions: seq<Action>)
    requires s.Valid() && !s.RollingOut()
    requires removes == RemoveActions(Drained(s))
    ensures actions == Work(s)
  {
    actions := removes;
    var newer := s.New();
    var missingNew := Sub(s.desired, |newer|);
    var recreateWaits := s.policy.strategy == Recreate && Select(s.replicas, IsDrainingOld(s.target)) != [];
    if |newer| > s.desired {
      NothingToStart(s);
      var victims := Sort(newer, ByLoad());
      var excess := |newer| - s.desired;
      actions := actions + DrainActions(victims[..excess]);
    } else {
      NothingToDrain(s);
      if missingNew > 0 && !recreateWaits {
        actions := actions + StartActions(FreeIndexes(s.replicas, s.Bound(), missingNew), s.target);
      } else {
        assert StartActions(Starts(s), s.target) == [];
      }
    }
  }

  /** All unready old replicas, then ready ones while the budget lasts. */
  method TakeVictims(s: State) returns (victims: seq<Replica>)
    requires s.Valid()
    ensures victims == RollingVictims(s)
  {
    var allowed := Sub(s.Available(), Sub(s.desired, s.policy.maxUnavailable));
    victims := Select(s.replicas, UnreadyOld(s.target, s.policy.minReadySecs));
    ghost var unready := victims;
    var readyOld := ReadyOldByIndex(s);
    var k := 0;
    while k < |readyOld|
      invariant 0 <= k <= |readyOld|
      invariant 0 <= allowed && allowed + k == Allowed(s)
      invariant victims == unready + readyOld[..k]
    {
      if allowed == 0 {
        break;
      }
      allowed := allowed - 1;
      victims := victims + [readyOld[k]];
      k := k + 1;
    }
    assert k == Min(Allowed(s), |readyOld|);
  }
}
