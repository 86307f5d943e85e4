/** A rejected revision can come back: a run from start-up in which it does. */
module Retry {
  import opened Basics
  import opened Rollout
  import opened Controller
  import opened Revisions

  // ----- containers the controller itself has started

  /** The containers of a service, by index and revision, once the daemon has carried the actions out. */
  function Deployed(fleet: set<(nat, string)>, actions: seq<Action>): set<(nat, string)>
    decreases |actions|
  {
    if actions == [] then fleet
    else
      var next := match actions[0]
        case Start(i, revision) => fleet + {(i, revision)}
        case Drain(i) => set c <- fleet | c.0 != i
        case Remove(i) => set c <- fleet | c.0 != i
        case Rollback(_) => fleet
        case Pause(_) => fleet
        case Complete => fleet;
      Deployed(next, actions[1..])
  }

  /** The listing shows exactly these containers, all running. */
  ghost predicate Shows(list: seq<Container>, fleet: set<(nat, string)>) {
    && (forall c <- list :: c.index.Some? && c.revision.Some? && c.running && (c.index.value, c.revision.value) in fleet)
    && (forall f <- fleet :: exists c <- list :: c.index == Some(f.0) && c.revision == Some(f.1))
    && |list| == |fleet|
  }

  /** Every tick lists exactly what the ticks before it have started and not removed, and every call is granted. */
  ghost predicate Genuine(m: Memory, fleet: set<(nat, string)>, inputs: seq<Input>)
    decreases |inputs|
  {
    inputs == [] ||
    (&& Fits(m, inputs[0]) && inputs[0].answers == []
     && inputs[0].listing.Some? && Shows(inputs[0].listing.value, fleet)
     && Genuine(Tick(m, inputs[0]), Deployed(fleet, Planned(m, inputs[0])), inputs[1..]))
  }

  /** The memories the run passes through, the first one included. */
  ghost function Memories(m: Memory, fleet: set<(nat, string)>, inputs: seq<Input>): seq<Memory>
    requires Genuine(m, fleet, inputs)
    decreases |inputs|
  {
    [m] + if inputs == [] then []
          else Memories(Tick(m, inputs[0]), Deployed(fleet, Planned(m, inputs[0])), inputs[1..])
  }

  // ----- the planner on small fleets

  predicate OneWanted(s: State) {
    && s.desired == 1 && !s.paused && s.elapsedSecs <= s.policy.progressDeadlineSecs
    && s.policy == POLICY
  }

  const POLICY: Policy := Policy(Rolling, 1, 0, 0, 0, 600, RollbackOnFailure)

  lemma FreeSlots(rs: seq<Replica>)
    ensures rs == [] ==> FreeFrom(rs, 0, 2) == [0, 1]
    ensures |rs| == 1 && rs[0].index == 0 ==> FreeFrom(rs, 0, 2) == [1]
  {
    assert FreeFrom(rs, 2, 2) == [];
    if |rs| == 1 && rs[0].index == 0 {
      assert Used(rs, 0) && !Used(rs, 1);
    }
    assert FreeFrom(rs, 1, 2) == if Used(rs, 1) then [] else [1];
  }

  lemma PlanEmpty(s: State)
    requires OneWanted(s) && s.replicas == []
    ensures s.Valid() && NextStep(s) == [Start(0, s.target)]
  {
    FreeSlots(s.replicas);
    assert Starts(s) == [0];
    assert Victims(s) == [] && Drained(s) == [];
    assert Work(s) == StartActions([0], s.target);
  }

  /** One ready old replica: its successor is started. */
  lemma PlanSuccessor(s: State, old': Replica)
    requires OneWanted(s) && s.replicas == [old'] && old'.index == 0
    requires ReadyReplica(old', 0) && old'.revision != s.target
    ensures s.Valid() && NextStep(s) == [Start(1, s.target)]
  {
    assert s.replicas[1..] == [];
    assert s.Alive() == s.Old() == [old'] && s.New() == [] && s.Available() == 1;
    assert Drained(s) == [] && Select(s.replicas, IsFailedNew(s.target)) == [];
    assert Select(s.replicas, UnreadyOld(s.target, 0)) == [];
    assert Allowed(s) == 0 && Victims(s) == [];
    FreeSlots(s.replicas);
    assert Starts(s) == [1];
    assert Work(s) == StartActions([1], s.target);
  }

  /** A ready old replica beside one of another old revision that is not ready: the latter goes. */
  lemma PlanCleanUp(s: State, old': Replica, bad: Replica)
    requires OneWanted(s) && s.replicas == [old', bad]
    requires ReadyReplica(old', 0) && old'.revision != s.target
    requires LiveReplica(bad) && !ReadyReplica(bad, 0) && bad.revision != s.target
    ensures s.Valid() && NextStep(s) == [Drain(bad.index)]
  {
    Pair(old', bad, IsAlive());
    Pair(old', bad, IsOld(s.target));
    Pair(old', bad, IsNew(s.target));
    Pair(old', bad, Ready(0));
    Pair(old', bad, IsFailedNew(s.target));
    Pair(old', bad, IsDrained(s.drainSecs));
    Pair(old', bad, UnreadyOld(s.target, 0));
    assert Allowed(s) == 0;
    assert Victims(s) == [bad] + ReadyOldByIndex(s)[..0] == [bad];
    assert Starts(s) == [];
    assert Work(s) == [Drain(bad.index)];
  }

  /** A failed replica of the target while an old one lives: back to the previous revision. */
  lemma PlanRollback(s: State, old': Replica, bad: Replica)
    requires OneWanted(s) && s.replicas == [old', bad] && s.previous.Some?
    requires LiveReplica(old') && old'.revision != s.target
    requires LiveReplica(bad) && bad.revision == s.target && bad.failed
    ensures s.Valid() && NextStep(s) == [Rollback(s.previous.value)]
  {
    Pair(old', bad, IsAlive());
    Pair(old', bad, IsOld(s.target));
    Pair(old', bad, IsFailedNew(s.target));
  }

  lemma Pair(a: Replica, b: Replica, p: Replica -> bool)
    ensures Select([a, b], p) == (if p(a) then [a] else []) + (if p(b) then [b] else [])
  {
    assert [a, b][1..] == [b] && [b][1..] == [];
  }

  /** What a tick plans and remembers. */
  ghost predicate Leads(m: Memory, i: Input, actions: seq<Action>, m': Memory) {
    Fits(m, i) && Planned(m, i) == actions && Tick(m, i) == m'
  }

  /** The k-th tick leads from the k-th memory and fleet to the next ones. */
  ghost predicate Link(inputs: seq<Input>, stages: seq<Memory>, plans: seq<seq<Action>>, fleets: seq<set<(nat, string)>>, k: nat)
    requires k < |inputs| == |plans| && |stages| == |fleets| == |inputs| + 1
  {
    && Leads(stages[k], inputs[k], plans[k], stages[k + 1])
    && inputs[k].answers == [] && inputs[k].listing.Some? && Shows(inputs[k].listing.value, fleets[k])
    && Deployed(fleets[k], plans[k]) == fleets[k + 1]
  }

  lemma {:induction false} ChainIsGenuine(
    inputs: seq<Input>, stages: seq<Memory>, plans: seq<seq<Action>>, fleets: seq<set<(nat, string)>>, k: nat)
    requires k <= |inputs| == |plans| && |stages| == |fleets| == |inputs| + 1
    requires forall j :: 0 <= j < |inputs| ==> Link(inputs, stages, plans, fleets, j)
    ensures Genuine(stages[k], fleets[k], inputs[k..])
    ensures Memories(stages[k], fleets[k], inputs[k..]) == stages[k..]
    decreases |inputs| - k
  {
    if k < |inputs| {
      assert Link(inputs, stages, plans, fleets, k);
      ChainIsGenuine(inputs, stages, plans, fleets, k + 1);
      assert inputs[k..][1..] == inputs[k + 1..];
      assert stages[k..] == [stages[k]] + stages[k + 1..];
    }
  }

  // ----- the run

  const DEF: ServiceDef := ServiceDef(1, POLICY, false)

  function Good(i: nat, revision: string): Container { Container(Some(i), true, Healthy(60), Some(revision), true) }

  function Bad(i: nat, revision: string): Container { Container(Some(i), true, Unhealthy, Some(revision), true) }

  function At(now: nat, revision: string, list: seq<Container>): Input {
    Input(now, DEF, revision, Some(list), None, [])
  }

  function Remembered(revision: string, previous: Option<string>, rejected: Option<string>, start: Option<nat>, last: nat): Memory {
    Memory(Some(Applied(revision, DEF)), if previous.Some? then Some(Applied(previous.value, DEF)) else None,
           rejected, None, start, Some(last), false, 0)
  }

  lemma LookPair(a: Container, b: Container, target: string)
    requires a.index.Some? && a.running && b.index.Some? && b.running
    ensures Look([a, b], target, [], 0) == Sight(Some([Seen(a, target), Seen(b, target)]), 0)
    ensures Look([a], target, [], 0) == Sight(Some([Seen(a, target)]), 0)
  {
    var x, y := Seen(a, target), Seen(b, target);
    assert [a, b][1..] == [b] && [b][1..] == [] && [a][1..] == [];
    assert [] + [x] == [x] && [x] + [y] == [x, y];
    assert Look([b], target, [x], 0) == Look([], target, [x, y], 0);
  }

  lemma ExecuteOne(m: Memory, a: Action, now: nat)
    requires m.applied.Some?
    ensures ExecuteAll(m, [a], 0, [], now) == Execute(m, a, Accepted, now).value
  {
    var r := Execute(m, a, Accepted, now).value;
    assert ExecuteAll(r, [a], 1, [], now) == r;
  }

  lemma FirstTick(revision: string)
    ensures Leads(BLANK, At(0, revision, []), [Start(0, revision)], Remembered(revision, None, None, None, 0))
  {
    var i := At(0, revision, []);
    var st := Prepare(BLANK, i).snapshot.value;
    PlanEmpty(st);
    ExecuteOne(Prepare(BLANK, i).memory, Start(0, revision), 0);
  }

  /** The memory once the file has moved on to another revision. */
  lemma StartTick(m: Memory, now: nat, revision: string, was: string)
    requires was != revision
    requires Prepare(m, At(now, revision, [Good(0, was)])).memory.applied == Some(Applied(revision, DEF))
    requires m.desired.None? && !m.paused && FollowFile(m, now, DEF, revision).crashes == 0
    requires FollowFile(m, now, DEF, revision).rolloutStart.Some?
    requires now <= FollowFile(m, now, DEF, revision).rolloutStart.value + 600
    ensures Leads(m, At(now, revision, [Good(0, was)]), [Start(1, revision)],
                  FollowFile(m, now, DEF, revision).(lastAction := Some(now)))
  {
    var i := At(now, revision, [Good(0, was)]);
    LookPair(Good(0, was), Good(0, was), revision);
    var st := Prepare(m, i).snapshot.value;
    PlanSuccessor(st, Seen(Good(0, was), revision));
    ExecuteOne(Prepare(m, i).memory, Start(1, revision), now);
  }

  lemma CleanUpTick(m: Memory, now: nat, revision: string, was: string, bad: string)
    requires was != revision && bad != revision && m.rejected != Some(revision)
    requires m.applied == Some(Applied(was, DEF)) && m.desired.None? && !m.paused
    ensures Leads(m, At(now, revision, [Good(0, was), Bad(1, bad)]), [Drain(1)],
                  FollowFile(m, now, DEF, revision).(lastAction := Some(now)))
  {
    var i := At(now, revision, [Good(0, was), Bad(1, bad)]);
    LookPair(Good(0, was), Bad(1, bad), revision);
    var st := Prepare(m, i).snapshot.value;
    PlanCleanUp(st, Seen(Good(0, was), revision), Seen(Bad(1, bad), revision));
    ExecuteOne(Prepare(m, i).memory, Drain(1), now);
  }

  lemma RollbackTick(m: Memory, now: nat, revision: string, was: string)
    requires was != revision && m.applied == Some(Applied(revision, DEF)) && m.previous == Some(Applied(was, DEF))
    requires m.desired.None? && !m.paused && m.crashes == 0
    requires m.rolloutStart.Some? && now <= m.rolloutStart.value + 600
    ensures Leads(m, At(now, revision, [Good(0, was), Bad(1, revision)]), [Rollback(was)],
                  m.(applied := m.previous, previous := None, rejected := Some(revision), rolloutStart := Some(now)))
  {
    var i := At(now, revision, [Good(0, was), Bad(1, revision)]);
    LookPair(Good(0, was), Bad(1, revision), revision);
    var st := Prepare(m, i).snapshot.value;
    PlanRollback(st, Seen(Good(0, was), revision), Seen(Bad(1, revision), revision));
    ExecuteOne(Prepare(m, i).memory, Rollback(was), now);
  }

  const RUN: seq<Input> := [
    At(0, "P", []),
    At(100, "F", [Good(0, "P")]),
    At(200, "F", [Good(0, "P"), Bad(1, "F")]),
    At(300, "G", [Good(0, "P"), Bad(1, "F")]),
    At(400, "G", [Good(0, "P")]),
    At(500, "G", [Good(0, "P"), Bad(1, "G")]),
    At(600, "F", [Good(0, "P"), Bad(1, "G")])]

  /** The memories of the run, one more than its ticks. */
  const STAGES: seq<Memory> := [
    BLANK,
    Remembered("P", None, None, None, 0),
    Remembered("F", Some("P"), None, Some(100), 100),
    Remembered("P", None, Some("F"), Some(200), 100),
    Remembered("G", Some("P"), Some("F"), Some(300), 300),
    Remembered("G", Some("P"), Some("F"), Some(300), 400),
    Remembered("P", None, Some("G"), Some(500), 400),
    Remembered("F", Some("P"), Some("G"), Some(600), 600)]

  const PLANS: seq<seq<Action>> := [
    [Start(0, "P")], [Start(1, "F")], [Rollback("P")], [Drain(1)], [Start(1, "G")], [Rollback("P")], [Drain(1)]]

  const FLEETS: seq<set<(nat, string)>> := [
    {}, {(0, "P")}, {(0, "P"), (1, "F")}, {(0, "P"), (1, "F")}, {(0, "P")}, {(0, "P"), (1, "G")}, {(0, "P"), (1, "G")},
    {(0, "P")}]

  lemma AppliesP()
    ensures Leads(STAGES[0], RUN[0], PLANS[0], STAGES[1])
  {
    FirstTick("P");
  }

  lemma StartsF()
    ensures Leads(STAGES[1], RUN[1], PLANS[1], STAGES[2])
  {
    StartTick(STAGES[1], 100, "F", "P");
  }

  lemma RejectsF()
    ensures Leads(STAGES[2], RUN[2], PLANS[2], STAGES[3])
  {
    RollbackTick(STAGES[2], 200, "F", "P");
  }

  lemma ClearsF()
    ensures Leads(STAGES[3], RUN[3], PLANS[3], STAGES[4])
  {
    CleanUpTick(STAGES[3], 300, "G", "P", "F");
  }

  lemma StartsG()
    ensures Leads(STAGES[4], RUN[4], PLANS[4], STAGES[5])
  {
    StartTick(STAGES[4], 400, "G", "P");
  }

  lemma RejectsG()
    ensures Leads(STAGES[5], RUN[5], PLANS[5], STAGES[6])
  {
    RollbackTick(STAGES[5], 500, "G", "P");
  }

  lemma ReturnsToF()
    ensures Leads(STAGES[6], RUN[6], PLANS[6], STAGES[7])
  {
    CleanUpTick(STAGES[6], 600, "F", "P", "G");
  }

  lemma RunDeploys(k: nat)
    requires k < 7
    ensures Deployed(FLEETS[k], PLANS[k]) == FLEETS[k + 1]
    ensures Shows(RUN[k].listing.value, FLEETS[k])
  {
    assert PLANS[k][1..] == [];
    if k == 2 || k == 3 || k == 5 || k == 6 {
      var list := RUN[k].listing.value;
      assert list[0] in list && list[1] in list;
    } else if k > 0 {
      assert RUN[k].listing.value[0] in RUN[k].listing.value;
    }
  }

  lemma RunIsGenuine()
    ensures Genuine(BLANK, {}, RUN) && Memories(BLANK, {}, RUN) == STAGES
  {
    forall k | 0 <= k < |RUN| ensures Link(RUN, STAGES, PLANS, FLEETS, k) {
      RunLinks(k);
    }
    ChainIsGenuine(RUN, STAGES, PLANS, FLEETS, 0);
    assert RUN[0..] == RUN && STAGES[0..] == STAGES;
  }

  lemma RunLinks(k: nat)
    requires k < 7
    ensures Link(RUN, STAGES, PLANS, FLEETS, k)
  {
    RunDeploys(k);
    if k == 0 {
      AppliesP();
    } else if k == 1 {
      StartsF();
    } else if k == 2 {
      RejectsF();
    } else if k == 3 {
      ClearsF();
    } else if k == 4 {
      StartsG();
    } else if k == 5 {
      RejectsG();
    } else {
      ReturnsToF();
    }
  }

  /** After two ticks the revision is applied, the third rolls it back and rejects it, and at the end it is
      applied again. */
  ghost predicate RejectedAndBack(ms: seq<Memory>, inputs: seq<Input>, revision: string) {
    && |ms| == |inputs| + 1 > 3
    && Applies(ms[2], revision) && Fits(ms[2], inputs[2]) && RollsBack(ms[2], inputs[2])
    && ms[3].rejected == Some(revision)
    && Applies(ms[|inputs|], revision)
  }

  lemma StagesReturn()
    ensures RejectedAndBack(STAGES, RUN, "F")
  {
    RejectsF();
  }

  /** From start-up, with nothing listed but what was started: the file moves to F, which fails and is rolled
      back, then to G, which fails and is rolled back, then returns to F, and F is applied again. */
  lemma RejectedRevisionCanReturn()
    ensures Genuine(BLANK, {}, RUN) && RejectedAndBack(Memories(BLANK, {}, RUN), RUN, "F")
  {
    RunIsGenuine();
    StagesReturn();
  }
}
