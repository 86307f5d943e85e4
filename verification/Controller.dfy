/** The per-service revision state machine around the planner: which revision is applied,
    which one to fall back to, and which one was rejected. */
module Controller {
  import opened Basics
  import opened Order
  import opened Rollout

  const CRASH_LIMIT: nat := 3
  const NEVER: nat := 0x100_0000_0000
  /** The index of the stand-in replica for a crash-looping revision. */
  const PLACEHOLDER: nat := U32 - 1

  datatype ServiceDef = ServiceDef(replicas: nat, update: Policy, autoscaled: bool)

  datatype Applied = Applied(revision: string, def: ServiceDef)

  /** A container of the service as the daemon lists it. The index is absent when the name
      is not that of a replica; `removed` tells whether the daemon accepts its removal. */
  datatype Container = Container(
    index: Option<nat>,
    running: bool,
    health: Health,
    revision: Option<string>,
    removed: bool)

  /** How one planner action fares: the daemon accepts or refuses its calls; a replica to start
      turns out to have another revision by now, or cannot be specified at all. */
  datatype Answer = Accepted | Refused | OtherRevision | NotSpecified

  /** What one tick is given for one service: the file's definition and revision, the
      listing (absent if the call fails), the autoscaler's decision and the answers. */
  datatype Input = Input(
    now: nat,
    def: ServiceDef,
    fileRevision: string,
    listing: Option<seq<Container>>,
    scaleTo: Option<nat>,
    answers: seq<Answer>)

  /** What the controller remembers about one service. */
  datatype Memory = Memory(
    applied: Option<Applied>,
    previous: Option<Applied>,
    rejected: Option<string>,
    desired: Option<nat>,
    rolloutStart: Option<nat>,
    lastAction: Option<nat>,
    paused: bool,
    crashes: nat)

  const BLANK: Memory := Memory(None, None, None, None, None, None, false, 0)

  // ----- the stages of a tick

  /** Follow the file, unless its revision is the rejected one. */
  function FollowFile(m: Memory, now: nat, def: ServiceDef, revision: string): (r: Memory)
    ensures r.applied.Some?
  {
    if m.applied.None? then m.(applied := Some(Applied(revision, def)))
    else if m.applied.value.revision != revision && m.rejected != Some(revision) then
      m.(previous := m.applied, applied := Some(Applied(revision, def)), rolloutStart := Some(now), crashes := 0)
    else m
  }

  /** The replicas seen, unless a removal failed halfway, and the crashes counted so far. */
  datatype Sight = Sight(replicas: Option<seq<Replica>>, crashes: nat)

  function Seen(c: Container, target: string): Replica
    requires c.index.Some?
  {
    Replica(c.index.value, GetOr(c.revision, ""), c.health, Live, c.revision == Some(target) && c.health.Unhealthy?, 0)
  }

  function Look(list: seq<Container>, target: string, seen: seq<Replica>, crashes: nat): Sight
    decreases list
  {
    if list == [] then Sight(Some(seen), crashes)
    else
      var c := list[0];
      if c.index.None? then Look(list[1..], target, seen, crashes)
      else if c.running then Look(list[1..], target, seen + [Seen(c, target)], crashes)
      else
        var n := if c.revision == Some(target) then crashes + 1 else crashes;
        if c.removed then Look(list[1..], target, seen, n) else Sight(None, n)
  }

  predicate AnyOther(rs: seq<Replica>, target: string) {
    exists k :: 0 <= k < |rs| && rs[k].revision != target
  }

  function StandIn(target: string): Replica {
    Replica(PLACEHOLDER, target, Unhealthy, Live, true, 0)
  }

  function WithStandIn(rs: seq<Replica>, target: string, crashes: nat): seq<Replica> {
    if crashes >= CRASH_LIMIT && AnyOther(rs, target) then rs + [StandIn(target)] else rs
  }

  function DesiredCount(m: Memory, i: Input, rolling: bool): nat {
    var desired := GetOr(m.desired, i.def.replicas);
    if i.def.autoscaled && !rolling then GetOr(i.scaleTo, desired) else desired
  }

  function Snapshot(m: Memory, i: Input, replicas: seq<Replica>): State
    requires m.applied.Some?
  {
    State(
      DesiredCount(m, i, AnyOther(replicas, m.applied.value.revision)),
      m.applied.value.revision,
      if m.previous.Some? then Some(m.previous.value.revision) else None,
      m.applied.value.def.update,
      0,
      replicas,
      Sub(i.now, GetOr(m.rolloutStart, i.now)),
      Sub(i.now, GetOr(m.lastAction, Sub(i.now, NEVER))),
      false)
  }

  function RememberDesired(m: Memory, i: Input, replicas: seq<Replica>): Memory
    requires m.applied.Some?
  {
    var rolling := AnyOther(replicas, m.applied.value.revision);
    if i.def.autoscaled && !rolling then m.(desired := Some(DesiredCount(m, i, rolling))) else m
  }

  /** Carry out one action; None when a failure ends the tick. */
  function Execute(m: Memory, a: Action, answer: Answer, now: nat): Option<Memory>
    requires m.applied.Some?
    ensures Execute(m, a, answer, now).Some? ==> Execute(m, a, answer, now).value.applied.Some?
  {
    match a
    case Start(_, _) =>
      if answer.NotSpecified? then None else Some(if answer.Accepted? then m.(lastAction := Some(now)) else m)
    case Drain(_) => if answer.Accepted? then Some(m.(lastAction := Some(now))) else None
    case Remove(_) => if answer.Accepted? then Some(m) else None
    case Rollback(_) =>
      Some(if m.previous.None? then m else
        m.(previous := None, rejected := Some(m.applied.value.revision), applied := m.previous,
           rolloutStart := Some(now), crashes := 0))
    case Pause(_) => Some(m.(paused := true))
    case Complete => Some(m.(rolloutStart := None, crashes := 0))
  }

  function AnswerTo(answers: seq<Answer>, k: nat): Answer {
    if k < |answers| then answers[k] else Accepted
  }

  function ExecuteAll(m: Memory, actions: seq<Action>, k: nat, answers: seq<Answer>, now: nat): Memory
    requires m.applied.Some? && k <= |actions|
    decreases |actions| - k
  {
    if k == |actions| then m
    else
      var r := Execute(m, actions[k], AnswerTo(answers, k), now);
      if r.None? then m else ExecuteAll(r.value, actions, k + 1, answers, now)
  }

  /** Every action is carried out. */
  predicate CarriedOut(m: Memory, actions: seq<Action>, k: nat, answers: seq<Answer>, now: nat)
    requires m.applied.Some? && k <= |actions|
    decreases |actions| - k
  {
    k == |actions| ||
    var r := Execute(m, actions[k], AnswerTo(answers, k), now);
    r.Some? && CarriedOut(r.value, actions, k + 1, answers, now)
  }

  /** The memory when the planner is asked, and the snapshot it is asked about; no snapshot
      when the service is paused or could not be observed. */
  datatype Prepared = Prepared(memory: Memory, snapshot: Option<State>)

  function Prepare(m: Memory, i: Input): (p: Prepared)
    ensures p.memory.applied.Some?
  {
    var m1 := FollowFile(m, i.now, i.def, i.fileRevision);
    if m1.paused || i.listing.None? then Prepared(m1, None)
    else
      var target := m1.applied.value.revision;
      var sight := Look(i.listing.value, target, [], m1.crashes);
      var m2 := m1.(crashes := sight.crashes);
      if sight.replicas.None? then Prepared(m2, None)
      else
        var replicas := WithStandIn(sight.replicas.value, target, sight.crashes);
        Prepared(RememberDesired(m2, i, replicas), Some(Snapshot(m2, i, replicas)))
  }

  /** The planner's 32-bit sums do not wrap on this input. */
  predicate Fits(m: Memory, i: Input) {
    Prepare(m, i).snapshot.Some? ==> Prepare(m, i).snapshot.value.Valid()
  }

  function Planned(m: Memory, i: Input): seq<Action>
    requires Fits(m, i)
  {
    var p := Prepare(m, i);
    if p.snapshot.None? then [] else NextStep(p.snapshot.value)
  }

  /** One tick of one service. */
  function Tick(m: Memory, i: Input): Memory
    requires Fits(m, i)
  {
    ExecuteAll(Prepare(m, i).memory, Planned(m, i), 0, i.answers, i.now)
  }

  /** The service's turn goes through; otherwise the tick ends with it. */
  predicate GoesThrough(m: Memory, i: Input)
    requires Fits(m, i)
  {
    var p := Prepare(m, i);
    p.memory.paused || (p.snapshot.Some? && CarriedOut(p.memory, Planned(m, i), 0, i.answers, i.now))
  }

  /** What a service's turn makes of its memory, and whether the tick goes on to the next one. */
  ghost predicate Turned(m: Memory, input: Option<Input>, m': Memory, through: bool) {
    if input.None? then m' == m && !through
    else Fits(m, input.value) && m' == Tick(m, input.value) && through == GoesThrough(m, input.value)
  }

  // ----- the controller as the program keeps it

  class Controller {
    var applied: map<string, Applied>
    var previous: map<string, Applied>
    var rejected: map<string, string>
    var desired: map<string, nat>
    var rolloutStart: map<string, nat>
    var lastAction: map<string, nat>
    var paused: set<string>
    var crashes: map<string, nat>

    function Recall(svc: string): Memory
      reads this
    {
      Memory(
        Lookup(applied, svc), Lookup(previous, svc), Lookup(rejected, svc), Lookup(desired, svc),
        Lookup(rolloutStart, svc), Lookup(lastAction, svc), svc in paused, GetOr(Lookup(crashes, svc), 0))
    }

    constructor ()
      ensures forall svc :: Recall(svc) == BLANK
    {
      applied, previous, rejected, desired := map[], map[], map[], map[];
      rolloutStart, lastAction, paused, crashes := map[], map[], {}, map[];
    }

    method SetPaused(svc: string, on: bool)
      modifies this
      ensures Recall(svc) == old(Recall(svc)).(paused := on)
      ensures forall other :: other != svc ==> Recall(other) == old(Recall(other))
    {
      paused := if on then paused + {svc} else paused - {svc};
    }

    method Follow(svc: string, now: nat, def: ServiceDef, revision: string)
      modifies this
      ensures Recall(svc) == FollowFile(old(Recall(svc)), now, def, revision)
      ensures forall other :: other != svc ==> Recall(other) == old(Recall(other))
    {
      var isRejected := svc in rejected && rejected[svc] == revision;
      if svc !in applied {
        applied := applied[svc := Applied(revision, def)];
      } else if applied[svc].revision != revision && !isRejected {
        previous := previous[svc := applied[svc]];
        applied := applied[svc := Applied(revision, def)];
        rolloutStart := rolloutStart[svc := now];
        crashes := crashes - {svc};
      }
    }

    /** Walk the listing: count and remove crashed replicas, collect the running ones. */
    method Observe(svc: string, list: seq<Container>, target: string) returns (replicas: Option<seq<Replica>>)
      modifies this`crashes
      ensures var sight := Look(list, target, [], old(Recall(svc)).crashes);
        && Recall(svc) == old(Recall(svc)).(crashes := sight.crashes)
        && replicas == if sight.replicas.None? then None else Some(WithStandIn(sight.replicas.value, target, sight.crashes))
      ensures forall other :: other != svc ==> Recall(other) == old(Recall(other))
    {
      ghost var sight := Look(list, target, [], Recall(svc).crashes);
      var seen: seq<Replica> := [];
      var k := 0;
      while k < |list|
        invariant 0 <= k <= |list|
        invariant Look(list[k..], target, seen, Recall(svc).crashes) == sight
        invariant Recall(svc) == old(Recall(svc)).(crashes := Recall(svc).crashes)
        invariant forall other :: other != svc ==> Recall(other) == old(Recall(other))
      {
        var c := list[k];
        assert list[k..][1..] == list[k + 1..];
        if c.index.Some? {
          if !c.running {
            if c.revision == Some(target) {
              crashes := crashes[svc := (if svc in crashes then crashes[svc] else 0) + 1];
            }
            if !c.removed {
              return None;
            }
          } else {
            seen := seen + [Seen(c, target)];
          }
        }
        k := k + 1;
      }
      var count := if svc in crashes then crashes[svc] else 0;
      if count >= CRASH_LIMIT && AnyOther(seen, target) {
        seen := seen + [StandIn(target)];
      }
      replicas := Some(seen);
    }

    method Perform(svc: string, a: Action, answer: Answer, now: nat) returns (goOn: bool)
      requires Recall(svc).applied.Some?
      modifies this
      ensures var r := Execute(old(Recall(svc)), a, answer, now);
        goOn == r.Some? && Recall(svc) == GetOr(r, old(Recall(svc)))
      ensures forall other :: other != svc ==> Recall(other) == old(Recall(other))
    {
      goOn := true;
      match a {
        case Start(_, _) =>
          if answer.NotSpecified? {
            return false;
          }
          if answer.Accepted? {
            lastAction := lastAction[svc := now];
          }
        case Drain(_) =>
          if !answer.Accepted? {
            return false;
          }
          lastAction := lastAction[svc := now];
        case Remove(_) =>
          goOn := answer.Accepted?;
        case Rollback(_) =>
          if svc in previous {
            rejected := rejected[svc := applied[svc].revision];
            applied := applied[svc := previous[svc]];
            previous := previous - {svc};
            rolloutStart := rolloutStart[svc := now];
            crashes := crashes - {svc};
          }
        case Pause(_) =>
          paused := paused + {svc};
        case Complete =>
          rolloutStart := rolloutStart - {svc};
          crashes := crashes - {svc};
      }
    }

    /** Follow the file, observe the replicas and settle the desired count. */
    method Gather(svc: string, i: Input) returns (snapshot: Option<State>)
      modifies this
      ensures var p := Prepare(old(Recall(svc)), i);
        && Recall(svc) == p.memory
        && snapshot == p.snapshot
      ensures forall other :: other != svc ==> Recall(other) == old(Recall(other))
    {
      Follow(svc, i.now, i.def, i.fileRevision);
      if svc in paused || i.listing.None? {
        return None;
      }
      var current := applied[svc];
      var observed := Observe(svc, i.listing.value, current.revision);
      if observed.None? {
        return None;
      }
      var replicas := observed.value;
      var rolling := AnyOther(replicas, current.revision);
      ghost var seen := Recall(svc);
      var count := if svc in desired then desired[svc] else i.def.replicas;
      if i.def.autoscaled && !rolling {
        count := GetOr(i.scaleTo, count);
        desired := desired[svc := count];
      }
      snapshot := Some(State(
        count,
        current.revision,
        if svc in previous then Some(previous[svc].revision) else None,
        current.def.update,
        0,
        replicas,
        Sub(i.now, if svc in rolloutStart then rolloutStart[svc] else i.now),
        Sub(i.now, if svc in lastAction then lastAction[svc] else Sub(i.now, NEVER)),
        false));
      assert Recall(svc) == RememberDesired(seen, i, replicas);
      assert snapshot == Some(Snapshot(seen, i, replicas));
    }

    /** Carry the actions out in order until one of them ends the tick. */
    method Enact(svc: string, actions: seq<Action>, answers: seq<Answer>, now: nat) returns (done: bool)
      requires Recall(svc).applied.Some?
      modifies this
      ensures Recall(svc) == ExecuteAll(old(Recall(svc)), actions, 0, answers, now)
      ensures done <==> CarriedOut(old(Recall(svc)), actions, 0, answers, now)
      ensures forall other :: other != svc ==> Recall(other) == old(Recall(other))
    {
      ghost var end := ExecuteAll(Recall(svc), actions, 0, answers, now);
      ghost var all := CarriedOut(Recall(svc), actions, 0, answers, now);
      var k := 0;
      while k < |actions|
        invariant 0 <= k <= |actions|
        invariant Recall(svc).applied.Some?
        invariant ExecuteAll(Recall(svc), actions, k, answers, now) == end
        invariant CarriedOut(Recall(svc), actions, k, answers, now) == all
        invariant forall other :: other != svc ==> Recall(other) == old(Recall(other))
      {
        var goOn := Perform(svc, actions[k], AnswerTo(answers, k), now);
        if !goOn {
          return false;
        }
        k := k + 1;
      }
      return true;
    }

    method TickService(svc: string, i: Input) returns (actions: seq<Action>, through: bool)
      requires Fits(Recall(svc), i)
      modifies this
      ensures Recall(svc) == Tick(old(Recall(svc)), i)
      ensures actions == Planned(old(Recall(svc)), i)
      ensures through <==> GoesThrough(old(Recall(svc)), i)
      ensures forall other :: other != svc ==> Recall(other) == old(Recall(other))
    {
      var snapshot := Gather(svc, i);
      actions, through := [], svc in paused;
      if snapshot.Some? {
        actions := PlanStep(snapshot.value);
        through := Enact(svc, actions, i.answers, i.now);
      }
    }

    /** One service's turn; a service whose wanted revision cannot be told fails at once. */
    method Turn(svc: string, input: Option<Input>) returns (through: bool)
      requires input.Some? ==> Fits(Recall(svc), input.value)
      modifies this
      ensures Turned(old(Recall(svc)), input, Recall(svc), through)
      ensures forall other :: other != svc ==> Recall(other) == old(Recall(other))
    {
      if input.None? {
        return false;
      }
      var _, t := TickService(svc, input.value);
      return t;
    }

    /** The services in turn, until one turn fails: then the services after it are not looked at. */
    method TickAll(order: seq<string>, inputs: seq<Option<Input>>) returns (done: nat)
      requires Distinct(order) && |inputs| == |order|
      requires forall k :: 0 <= k < |order| && inputs[k].Some? ==> Fits(Recall(order[k]), inputs[k].value)
      modifies this
      ensures done <= |order|
      ensures forall k :: 0 <= k < done ==> Turned(old(Recall(order[k])), inputs[k], Recall(order[k]), true)
      ensures done < |order| ==> Turned(old(Recall(order[done])), inputs[done], Recall(order[done]), false)
      ensures forall svc :: svc !in order[..Min(done + 1, |order|)] ==> Recall(svc) == old(Recall(svc))
    {
      for k := 0 to |order|
        invariant forall j :: 0 <= j < k ==> Turned(old(Recall(order[j])), inputs[j], Recall(order[j]), true)
        invariant forall svc :: svc !in order[..k] ==> Recall(svc) == old(Recall(svc))
      {
        assert order[..k + 1] == order[..k] + [order[k]];
        var through := Turn(order[k], inputs[k]);
        if !through {
          return k;
        }
      }
      assert order[..|order|] == order;
      return |order|;
    }
  }
}
