/** What follows the end of a life: relaunches by policy, removal, and how often a container is relaunched. */
module Restarts {
  import opened Basics
  import opened Lifecycle
  import opened LifecycleRuns

  // ----- one exit

  /** A container that nobody stopped is relaunched always, never, or after failures up to a number of them. */
  predicate Deserves(policy: Restart, stopped: bool, code: int, failures: nat) {
    match policy
    case Never => false
    case Always => !stopped
    case OnFailure(max) => !stopped && code != 0 && (max == 0 || failures < max)
  }

  /** A tenth of a second at first, twice as long each time, a minute at most. */
  lemma DelayDoubles(n: nat)
    ensures RestartDelay(0) == 100
    ensures RestartDelay(n + 1) == Min(2 * RestartDelay(n), 60000)
  {
    assert Double(0) == 1;
    DoubleGrows(n);
    DoubleGrows(n + 1);
  }

  lemma {:induction false} DoubleGrows(n: nat)
    ensures Double(n) >= 1 && (n >= 10 ==> Double(n) >= 1024)
  {
    if n > 0 {
      DoubleGrows(n - 1);
    }
    if n == 10 {
      assert Double(5) == 32 && Double(10) == 32 * Double(5);
    }
  }

  /** The failures in a row that count: a life that lasted starts the count again. */
  function Failures(s: State, id: string, e: Ending): nat {
    if e.ranLong || id !in s.restarts then 0 else s.restarts[id]
  }

  /** What an exit records and plans, exactly. */
  lemma ExitExact(s: State, id: string, e: Ending)
    requires Inv(s) && id in s.live
    ensures var r, life := OnExit(s, id, e).state, s.live[id];
      var code := if e.code.Some? then e.code.value else -1;
      var again := Deserves(life.spec.restart, life.stopRequested, code, Failures(s, id, e));
      && id !in r.live && r.live == s.live - {id}
      && id in r.store && r.store == s.store[id := life.spec.(exitStatus := Some(code))]
      && r.schedule == s.schedule +
          (if again then [Due(e.now + RestartDelay(Failures(s, id, e)), Relaunch(id))]
           else if !life.spec.persistent then [Due(e.now + 30000, RemoveExited(id))]
           else [])
      && (if again then id in r.restarts && r.restarts[id] == Failures(s, id, e) + 1
          else GetOr(Lookup(r.restarts, id), 0) == Failures(s, id, e))
      && (forall other :: other != id ==> Lookup(r.restarts, other) == Lookup(s.restarts, other))
  {
    assert id in s.store.Keys;
  }

  // ----- one request

  /** A launch gives the container a new life: its own process, no one waiting, no stop, no exit code. */
  lemma LaunchExact(s: State, id: string, spec: Spec, at: nat)
    requires id in s.store
    ensures var r := Launch(s, id, spec, Spawned(at));
      && r.live == s.live[id := Life(spec.(exitStatus := None), s.nextToken + 1, true, [], false, at)]
      && r.store == s.store[id := spec.(exitStatus := None)]
      && r.nextToken == s.nextToken + 1 && r.pidTokens == s.pidTokens[s.nextToken + 1 := id]
    ensures Launch(s, id, spec, NotSpawned) == s
    ensures Launch(s, id, spec, NotWatched) == s.(nextToken := s.nextToken + 1)
  {
  }

  /** An adopted process is not a child; the rest of its new life is the same, and its record is as it was. */
  lemma AdoptExact(s: State, id: string, spec: Spec, at: nat)
    ensures var r := Adopt(s, id, spec, Spawned(at));
      && r.live == s.live[id := Life(spec, s.nextToken + 1, false, [], false, at)]
      && r.store == s.store && r.nextToken == s.nextToken + 1 && r.pidTokens == s.pidTokens[s.nextToken + 1 := id]
    ensures Adopt(s, id, spec, NotSpawned) == s
    ensures Adopt(s, id, spec, NotWatched) == s.(nextToken := s.nextToken + 1)
  {
  }

  /** Idle means: no activity for the timeout in seconds, which counts as one second at least. */
  lemma IdleMeans(life: Life, now: nat)
    ensures IsIdle(life, now) <==>
      && life.spec.idleTimeout.Some?
      && now >= life.lastActivity + 1000 * (if life.spec.idleTimeout.value == 0 then 1 else life.spec.idleTimeout.value)
  {
  }

  /** The container is on record and live as asked for, and nothing else has changed there. */
  ghost predicate IsUp(s: State, s': State, id: string, spec: Spec) {
    && s'.store == s.store[id := spec.(exitStatus := None)]
    && id in s'.live && s'.live[id].spec == spec.(exitStatus := None)
    && s'.live - {id} == s.live - {id}
  }

  lemma EndedAndPurged(s: State, id: string, e: Ending)
    requires Inv(s) && id in s.live
    ensures var r := Purge(OnExit(s, id, e).state, id); r.store == s.store - {id} && r.live == s.live - {id}
  {
    assert s.store[id := s.live[id].spec.(exitStatus := Some(GetOr(e.code, -1)))] - {id} == s.store - {id};
  }

  /** Running, starting and removing, as the client sees them. */
  lemma RequestsExact(s: State, id: string, spec: Spec, luck: Luck, force: bool, e: Ending)
    requires Inv(s)
    ensures var run := OpRun(s, id, spec, luck);
      if id in s.store then run == Outcome(s, [], Some(Refused))
      else if luck.Spawned? then run.reply == Some(Done) && IsUp(s, run.state, id, spec)
      else run.reply == Some(Refused) && run.state.store == s.store && run.state.live == s.live
    ensures var start := OpStart(s, id, luck, true);
      if id !in s.store || id in s.live then start == Outcome(s, [], Some(Refused))
      else if luck.Spawned? then start.reply == Some(Done) && IsUp(s, start.state, id, s.store[id])
      else start.reply == Some(Refused) && start.state.store == s.store && start.state.live == s.live
    ensures var rm := OpRemove(s, id, force, e);
      if id !in s.store || (id in s.live && !force) then rm == Outcome(s, [], Some(Refused))
      else rm.reply == Some(Done) && rm.state.store == s.store - {id} && rm.state.live == s.live - {id}
  {
    if id !in s.store {
      assert (s.store[id := spec]) - {id} == s.store;
    } else if id in s.live {
      EndedAndPurged(s, id, e);
    } else {
      assert s.live - {id} == s.live;
    }
  }

  /** A command is run in a live container only. It renews the activity, and otherwise changes no life and no record. */
  lemma ExecExact(s: State, id: string, now: nat)
    requires Inv(s)
    ensures var r := OpExec(s, id, now);
      if id !in s.live then r == Outcome(s, [], Some(Refused))
      else r.reply == None && r.state.live == s.live[id := s.live[id].(lastActivity := now)] && r.state.store == s.store
  {
  }

  /** A planned relaunch brings up what is down and still on record; a planned removal takes what is down and need not
      be kept; a look at an idle container removes it if it has been idle for long enough. Otherwise nothing happens. */
  lemma TaskExact(s: State, id: string, now: nat, luck: Luck, e: Ending)
    requires Inv(s)
    ensures var r := OnTask(s, Relaunch(id), now, luck, e).state;
      if id in s.store && id !in s.live && luck.Spawned? then IsUp(s, r, id, s.store[id])
      else r.store == s.store && r.live == s.live
    ensures var r := OnTask(s, RemoveExited(id), now, luck, e).state;
      && r.live == s.live
      && r.store == if id !in s.live && id in s.store && !s.store[id].persistent then s.store - {id} else s.store
    ensures var r := OnTask(s, ReapIdle(id), now, luck, e).state;
      if id in s.live && IsIdle(s.live[id], now) then r.store == s.store - {id} && r.live == s.live - {id} else r == s
  {
    if id in s.live {
      EndedAndPurged(s, id, e);
    } else {
      assert s.live - {id} == s.live;
    }
  }

  /** A tick takes out what is due and leaves what is not. */
  lemma {:induction false} DueExact(schedule: seq<Due>, now: nat, d: Due, task: Task)
    ensures d in NotDue(schedule, now) <==> d in schedule && d.at > now
    ensures task in DueTasks(schedule, now) <==> exists x <- schedule :: x.at <= now && x.task == task
  {
    if schedule != [] {
      DueExact(schedule[1..], now, d, task);
      assert schedule == [schedule[0]] + schedule[1..];
    }
  }

  /** What was planned last comes last among what is due, and among what is left. */
  lemma {:induction false} DueInOrder(earlier: seq<Due>, d: Due, now: nat)
    ensures DueTasks(earlier + [d], now) == DueTasks(earlier, now) + if d.at <= now then [d.task] else []
    ensures NotDue(earlier + [d], now) == NotDue(earlier, now) + if d.at <= now then [] else [d]
  {
    if earlier != [] {
      assert (earlier + [d])[1..] == earlier[1..] + [d];
      DueInOrder(earlier[1..], d, now);
    }
  }

  // ----- over runs

  function Relaunches(schedule: seq<Due>, id: string): nat {
    if schedule == [] then 0 else (if schedule[0].task == Relaunch(id) then 1 else 0) + Relaunches(schedule[1..], id)
  }

  lemma {:induction false} RelaunchesConcat(a: seq<Due>, b: seq<Due>, id: string)
    ensures Relaunches(a + b, id) == Relaunches(a, id) + Relaunches(b, id)
  {
    if a == [] {
      assert a + b == b;
    } else {
      assert (a + b)[1..] == a[1..] + b;
      RelaunchesConcat(a[1..], b, id);
    }
  }

  /** How many relaunches of the container a transition adds to the schedule. */
  function Added(s: State, s': State, id: string): nat { Sub(Relaunches(s'.schedule, id), Relaunches(s.schedule, id)) }

  function AddedByTasks(s: State, tasks: seq<Task>, now: nat, fates: seq<Fate>, id: string): nat
    requires |fates| == |tasks|
    decreases |tasks|
  {
    if tasks == [] then 0
    else
      var next := OnTask(s, tasks[0], now, fates[0].luck, fates[0].ending).state;
      Added(s, next, id) + AddedByTasks(next, tasks[1..], now, fates[1..], id)
  }

  function AddedByEvent(s: State, ev: Event, id: string): nat
    requires Allows(s, ev)
  {
    if ev.Tick? then
      AddedByTasks(s.(schedule := NotDue(s.schedule, ev.now)), DueTasks(s.schedule, ev.now), ev.now, ev.fates, id)
    else Added(s, Step(s, ev).state, id)
  }

  /** How many relaunches of the container a run plans. */
  function PlannedIn(s: State, evs: seq<Event>, id: string): nat
    requires Possible(s, evs)
    decreases |evs|
  {
    if evs == [] then 0 else AddedByEvent(s, evs[0], id) + PlannedIn(Step(s, evs[0]).state, evs[1..], id)
  }

  /** The container has this policy, wherever it is on record. */
  predicate HasPolicy(s: State, id: string, policy: Restart) {
    && (id in s.store ==> s.store[id].restart == policy)
    && (id in s.live ==> s.live[id].spec.restart == policy)
  }

  /** No life in the event lasts long, and nobody gives the container another policy. */
  predicate ShortLived(ev: Event, id: string, policy: Restart) {
    && (ev.RemoveOne? ==> !ev.ending.ranLong)
    && (ev.Readable? ==> !ev.ending.ranLong)
    && (ev.Tick? ==> forall k :: 0 <= k < |ev.fates| ==> !ev.fates[k].ending.ranLong)
    && (ev.RunNew? && ev.id == id ==> ev.spec.restart == policy)
  }

  function Attempts(s: State, id: string): nat { GetOr(Lookup(s.restarts, id), 0) }

  /** One transition under a policy that relaunches at most so often: what it plans it counts. */
  ghost predicate Counts(s: State, s': State, added: nat, id: string, policy: Restart) {
    && HasPolicy(s', id, policy)
    && Attempts(s', id) == Attempts(s, id) + added
    && (policy.Never? ==> added == 0)
    && (policy.OnFailure? && policy.max > 0 && Attempts(s, id) <= policy.max ==> Attempts(s', id) <= policy.max)
  }

  lemma CountsTwice(s: State, a: State, b: State, m: nat, n: nat, id: string, policy: Restart)
    requires Counts(s, a, m, id, policy) && Counts(a, b, n, id, policy)
    ensures Counts(s, b, m + n, id, policy)
  {
  }

  lemma ExitCounts(s: State, other: string, e: Ending, id: string, policy: Restart)
    requires Inv(s) && HasPolicy(s, id, policy) && !e.ranLong
    ensures var s' := OnExit(s, other, e).state; Counts(s, s', Added(s, s', id), id, policy)
  {
    if other in s.live {
      ExitExact(s, other, e);
      var r := OnExit(s, other, e).state;
      var more := r.schedule[|s.schedule|..];
      assert r.schedule == s.schedule + more;
      RelaunchesConcat(s.schedule, more, id);
      assert |more| <= 1 && (more != [] ==> more[1..] == []);
    }
  }

  /** Transitions that leave the counts and plan nothing but looks at idle containers. */
  lemma OtherCounts(s: State, s': State, id: string, policy: Restart)
    requires HasPolicy(s', id, policy) && s'.restarts == s.restarts
    requires Relaunches(s'.schedule, id) == Relaunches(s.schedule, id)
    ensures Counts(s, s', Added(s, s', id), id, policy)
  {
  }

  lemma LookAdds(schedule: seq<Due>, other: string, timeout: Option<nat>, now: nat, id: string)
    ensures Relaunches(PlanReap(schedule, other, timeout, now), id) == Relaunches(schedule, id)
  {
    if timeout.Some? {
      var look := [Due(now + IdleMillis(timeout.value), ReapIdle(other))];
      RelaunchesConcat(schedule, look, id);
      assert look[1..] == [];
    }
  }

  lemma LaunchCounts(s: State, other: string, spec: Spec, luck: Luck, id: string, policy: Restart)
    requires HasPolicy(s, id, policy) && (other == id ==> spec.restart == policy)
    ensures var s' := Launch(s, other, spec, luck); Counts(s, s', Added(s, s', id), id, policy)
    ensures var s' := Adopt(s, other, spec, luck); Counts(s, s', Added(s, s', id), id, policy)
  {
    if luck.Spawned? {
      LookAdds(s.schedule, other, spec.idleTimeout, luck.at, id);
    }
    OtherCounts(s, Launch(s, other, spec, luck), id, policy);
    OtherCounts(s, Adopt(s, other, spec, luck), id, policy);
  }

  lemma TaskCounts(s: State, task: Task, now: nat, fate: Fate, id: string, policy: Restart)
    requires Inv(s) && HasPolicy(s, id, policy) && !fate.ending.ranLong
    ensures var s' := OnTask(s, task, now, fate.luck, fate.ending).state; Counts(s, s', Added(s, s', id), id, policy)
  {
    match task
    case Relaunch(other) => if other in s.store { LaunchCounts(s, other, s.store[other], fate.luck, id, policy); }
    case RemoveExited(_) =>
    case ReapIdle(other) => ExitCounts(s, other, fate.ending, id, policy);
  }

  lemma {:induction false} TasksCount(s: State, tasks: seq<Task>, now: nat, fates: seq<Fate>, id: string, policy: Restart)
    requires Inv(s) && HasPolicy(s, id, policy) && |tasks| == |fates|
    requires forall k :: 0 <= k < |fates| ==> !fates[k].ending.ranLong
    ensures Counts(s, RunTasks(s, tasks, now, fates).state, AddedByTasks(s, tasks, now, fates, id), id, policy)
    decreases |tasks|
  {
    if tasks != [] {
      var next := OnTask(s, tasks[0], now, fates[0].luck, fates[0].ending).state;
      TaskKeeps(s, tasks[0], now, fates[0], 0);
      TaskCounts(s, tasks[0], now, fates[0], id, policy);
      TasksCount(next, tasks[1..], now, fates[1..], id, policy);
      CountsTwice(s, next, RunTasks(next, tasks[1..], now, fates[1..]).state,
                  Added(s, next, id), AddedByTasks(next, tasks[1..], now, fates[1..], id), id, policy);
    }
  }

  lemma RunNewCounts(s: State, other: string, spec: Spec, luck: Luck, id: string, policy: Restart)
    requires HasPolicy(s, id, policy) && (other == id ==> spec.restart == policy)
    ensures var s' := OpRun(s, other, spec, luck).state; Counts(s, s', Added(s, s', id), id, policy)
  {
    if other !in s.store {
      LaunchCounts(s.(store := s.store[other := spec]), other, spec, luck, id, policy);
    }
  }

  lemma StartCounts(s: State, other: string, luck: Luck, forgetStop: bool, id: string, policy: Restart)
    requires HasPolicy(s, id, policy)
    ensures var s' := OpStart(s, other, luck, forgetStop).state; Counts(s, s', Added(s, s', id), id, policy)
  {
    if other in s.store {
      var forgotten := if forgetStop then s.(userStopped := s.userStopped - {other}) else s;
      LaunchCounts(forgotten, other, s.store[other], luck, id, policy);
    }
  }

  lemma RemoveCounts(s: State, other: string, force: bool, e: Ending, id: string, policy: Restart)
    requires Inv(s) && HasPolicy(s, id, policy) && !e.ranLong
    ensures var s' := OpRemove(s, other, force, e).state; Counts(s, s', Added(s, s', id), id, policy)
  {
    ExitCounts(s, other, e, id, policy);
  }

  lemma ReadableCounts(s: State, token: nat, exited: bool, e: Ending, id: string, policy: Restart)
    requires Inv(s) && HasPolicy(s, id, policy) && !e.ranLong
    ensures var s' := OnPidfd(s, token, exited, e).state; Counts(s, s', Added(s, s', id), id, policy)
  {
    if token in s.pidTokens {
      var other := s.pidTokens[token];
      ExitCounts(s, other, if s.live[other].child then e else e.(code := None), id, policy);
    }
  }

  lemma ExecCounts(s: State, other: string, now: nat, id: string, policy: Restart)
    requires HasPolicy(s, id, policy)
    ensures var s' := OpExec(s, other, now).state; Counts(s, s', Added(s, s', id), id, policy)
  {
    if other in s.live {
      LookAdds(s.schedule, other, s.live[other].spec.idleTimeout, now, id);
    }
  }

  lemma TickCounts(s: State, now: nat, fates: seq<Fate>, id: string, policy: Restart)
    requires Inv(s) && HasPolicy(s, id, policy) && |fates| == |DueTasks(s.schedule, now)|
    requires forall k :: 0 <= k < |fates| ==> !fates[k].ending.ranLong
    ensures Counts(s, OnTimer(s, now, fates).state, AddedByEvent(s, Tick(now, fates), id), id, policy)
  {
    var taken := s.(schedule := NotDue(s.schedule, now));
    QuietKeeps(s, taken, 0);
    TasksCount(taken, DueTasks(s.schedule, now), now, fates, id, policy);
  }

  lemma StopCounts(s: State, conn: nat, other: string, id: string, policy: Restart)
    requires HasPolicy(s, id, policy)
    ensures var s' := OpStop(s, conn, other).state; Counts(s, s', Added(s, s', id), id, policy)
    ensures var s' := OpWait(s, conn, other).state; Counts(s, s', Added(s, s', id), id, policy)
  {
  }

  lemma EventCounts(s: State, ev: Event, id: string, policy: Restart)
    requires Inv(s) && Allows(s, ev) && HasPolicy(s, id, policy) && ShortLived(ev, id, policy)
    ensures Counts(s, Step(s, ev).state, AddedByEvent(s, ev, id), id, policy)
  {
    match ev
    case AdoptOne(other, luck) => LaunchCounts(s, other, s.store[other], luck, id, policy);
    case ExecIn(other, now) => ExecCounts(s, other, now, id, policy);
    case RunNew(other, spec, luck) => RunNewCounts(s, other, spec, luck, id, policy);
    case StartAgain(other, luck, forgetStop) => StartCounts(s, other, luck, forgetStop, id, policy);
    case RemoveOne(other, force, e) => RemoveCounts(s, other, force, e, id, policy);
    case Readable(token, exited, e) => ReadableCounts(s, token, exited, e, id, policy);
    case Tick(now, fates) => TickCounts(s, now, fates, id, policy);
    case TokenTaken => OtherCounts(s, TakeToken(s), id, policy);
    case StopOne(conn, other) => StopCounts(s, conn, other, id, policy);
    case WaitFor(conn, other) => StopCounts(s, conn, other, id, policy);
  }

  lemma {:induction false} RunCounts(s: State, evs: seq<Event>, id: string, policy: Restart)
    requires Inv(s) && Possible(s, evs) && HasPolicy(s, id, policy)
    requires forall ev <- evs :: ShortLived(ev, id, policy)
    ensures Counts(s, Play(s, evs).state, PlannedIn(s, evs, id), id, policy)
    decreases |evs|
  {
    if evs != [] {
      var next := Step(s, evs[0]).state;
      StepKeeps(s, evs[0], 0);
      EventCounts(s, evs[0], id, policy);
      RunCounts(next, evs[1..], id, policy);
      CountsTwice(s, next, Play(next, evs[1..]).state, AddedByEvent(s, evs[0], id), PlannedIn(next, evs[1..], id), id, policy);
    }
  }

  /** Over every run from start-up in which no life of it lasts: a container that is never to be relaunched never
      is, and one that may be relaunched so many times after failures is relaunched at most that often. */
  lemma PolicyLimitsRelaunches(store: map<string, Spec>, evs: seq<Event>, id: string, policy: Restart)
    requires Possible(Boot(store), evs) && (id in store ==> store[id].restart == policy)
    requires forall ev <- evs :: ShortLived(ev, id, policy)
    ensures policy.Never? ==> PlannedIn(Boot(store), evs, id) == 0
    ensures policy.OnFailure? && policy.max > 0 ==> PlannedIn(Boot(store), evs, id) <= policy.max
  {
    RunCounts(Boot(store), evs, id, policy);
  }
}
