/** Idle containers: a tick of the timer ends exactly the lives that were idle for their timeout. */
module IdleReaping {
  import opened Basics
  import opened Lifecycle
  import opened LifecycleRuns

  /** The look at a container that its last activity called for. */
  function LookAt(id: string, life: Life): Due
    requires life.spec.idleTimeout.Some?
  {
    Due(life.lastActivity + IdleMillis(life.spec.idleTimeout.value), ReapIdle(id))
  }

  /** Every container with a timeout will be looked at when that look is due: it is still planned,
      or it is among the tasks the tick at hand is about to run. */
  ghost predicate Watched(s: State, tasks: seq<Task>, now: nat) {
    forall id <- s.live :: s.live[id].spec.idleTimeout.Some? ==> WatchedOne(s, id, tasks, now)
  }

  predicate WatchedOne(s: State, id: string, tasks: seq<Task>, now: nat)
    requires id in s.live && s.live[id].spec.idleTimeout.Some?
  {
    var look := LookAt(id, s.live[id]);
    look in s.schedule || (look.at <= now && look.task in tasks)
  }

  lemma ExitWatched(s: State, id: string, e: Ending, tasks: seq<Task>, now: nat)
    requires Watched(s, tasks, now)
    ensures Watched(OnExit(s, id, e).state, tasks, now)
  {
    var s' := OnExit(s, id, e).state;
    forall other <- s'.live | s'.live[other].spec.idleTimeout.Some? ensures WatchedOne(s', other, tasks, now) {
      assert s'.live[other] == s.live[other] && WatchedOne(s, other, tasks, now);
    }
  }

  lemma LaunchWatched(s: State, id: string, spec: Spec, luck: Luck, tasks: seq<Task>, now: nat)
    requires Watched(s, tasks, now)
    ensures Watched(Launch(s, id, spec, luck), tasks, now)
    ensures Watched(Adopt(s, id, spec, luck), tasks, now)
  {
    forall s' | s' == Launch(s, id, spec, luck) || s' == Adopt(s, id, spec, luck) ensures Watched(s', tasks, now) {
      forall other <- s'.live | s'.live[other].spec.idleTimeout.Some? ensures WatchedOne(s', other, tasks, now) {
        if other != id || !luck.Spawned? {
          assert s'.live[other] == s.live[other] && WatchedOne(s, other, tasks, now);
        }
      }
    }
  }

  lemma TaskWatched(s: State, tasks: seq<Task>, now: nat, fate: Fate)
    requires tasks != [] && Watched(s, tasks, now)
    ensures Watched(OnTask(s, tasks[0], now, fate.luck, fate.ending).state, tasks[1..], now)
  {
    var task := tasks[0];
    var s' := OnTask(s, task, now, fate.luck, fate.ending).state;
    match task
    case Relaunch(id) => if id in s.store { LaunchWatched(s, id, s.store[id], fate.luck, tasks, now); }
    case RemoveExited(_) => assert Watched(s', tasks, now);
    case ReapIdle(id) => ExitWatched(s, id, fate.ending, tasks, now);
    assert Watched(s', tasks, now);
    forall id <- s'.live | s'.live[id].spec.idleTimeout.Some? ensures WatchedOne(s', id, tasks[1..], now) {
      assert WatchedOne(s', id, tasks, now);
      assert task == ReapIdle(id) ==> s' == s && !IsIdle(s.live[id], now);
    }
  }

  lemma {:induction false} TasksWatched(s: State, tasks: seq<Task>, now: nat, fates: seq<Fate>)
    requires |tasks| == |fates| && Watched(s, tasks, now)
    ensures Watched(RunTasks(s, tasks, now, fates).state, [], now)
    decreases |tasks|
  {
    if tasks != [] {
      TaskWatched(s, tasks, now, fates[0]);
      TasksWatched(OnTask(s, tasks[0], now, fates[0].luck, fates[0].ending).state, tasks[1..], now, fates[1..]);
    }
  }

  lemma {:induction false} DueOrNotDue(schedule: seq<Due>, now: nat, d: Due)
    requires d in schedule
    ensures d.at <= now ==> d.task in DueTasks(schedule, now)
    ensures d.at > now ==> d in NotDue(schedule, now)
  {
    if schedule[0] != d {
      DueOrNotDue(schedule[1..], now, d);
    }
  }

  lemma TickWatched(s: State, now: nat, fates: seq<Fate>)
    requires Watched(s, [], 0) && |fates| == |DueTasks(s.schedule, now)|
    ensures Watched(OnTimer(s, now, fates).state, [], now)
  {
    var taken, tasks := s.(schedule := NotDue(s.schedule, now)), DueTasks(s.schedule, now);
    forall id <- taken.live | taken.live[id].spec.idleTimeout.Some? ensures WatchedOne(taken, id, tasks, now) {
      assert WatchedOne(s, id, [], 0);
      DueOrNotDue(s.schedule, now, LookAt(id, s.live[id]));
    }
    TasksWatched(taken, tasks, now, fates);
  }

  /** With no tasks at hand the moment does not matter. */
  lemma WatchedAtRest(s: State, now: nat)
    requires Watched(s, [], now)
    ensures Watched(s, [], 0)
  {
    forall id <- s.live | s.live[id].spec.idleTimeout.Some? ensures WatchedOne(s, id, [], 0) {
      assert WatchedOne(s, id, [], now);
    }
  }

  /** Transitions that leave the lives' clocks alone and only add to the schedule. */
  lemma SameClocksWatched(s: State, s': State)
    requires Watched(s, [], 0) && s'.live.Keys <= s.live.Keys
    requires forall id <- s'.live ::
      s'.live[id].spec == s.live[id].spec && s'.live[id].lastActivity == s.live[id].lastActivity
    requires forall d <- s.schedule :: d in s'.schedule
    ensures Watched(s', [], 0)
  {
    forall id <- s'.live | s'.live[id].spec.idleTimeout.Some? ensures WatchedOne(s', id, [], 0) {
      assert id in s.live.Keys && WatchedOne(s, id, [], 0);
    }
  }

  lemma ExecWatched(s: State, id: string, now: nat)
    requires Watched(s, [], 0)
    ensures Watched(OpExec(s, id, now).state, [], 0)
  {
    var s' := OpExec(s, id, now).state;
    forall other <- s'.live | s'.live[other].spec.idleTimeout.Some? ensures WatchedOne(s', other, [], 0) {
      if other != id || s' == s {
        assert s'.live[other] == s.live[other] && WatchedOne(s, other, [], 0);
      }
    }
  }

  lemma StepWatched(s: State, ev: Event)
    requires Allows(s, ev) && Watched(s, [], 0)
    ensures Watched(Step(s, ev).state, [], 0)
  {
    var s' := Step(s, ev).state;
    match ev
    case AdoptOne(id, luck) => LaunchWatched(s, id, s.store[id], luck, [], 0);
    case ExecIn(id, now) => ExecWatched(s, id, now);
    case RunNew(id, spec, luck) =>
      var stored := s.(store := s.store[id := spec]);
      SameClocksWatched(s, stored);
      LaunchWatched(stored, id, spec, luck, [], 0);
      SameClocksWatched(Launch(stored, id, spec, luck), Purge(Launch(stored, id, spec, luck), id));
    case StartAgain(id, luck, forgetStop) =>
      var forgotten := if forgetStop then s.(userStopped := s.userStopped - {id}) else s;
      SameClocksWatched(s, forgotten);
      if id in s.store { LaunchWatched(forgotten, id, s.store[id], luck, [], 0); }
    case RemoveOne(id, force, e) =>
      ExitWatched(s, id, e, [], 0);
      SameClocksWatched(OnExit(s, id, e).state, Purge(OnExit(s, id, e).state, id));
    case Readable(token, _, e) =>
      if token in s.pidTokens && s.pidTokens[token] in s.live {
        var id := s.pidTokens[token];
        ExitWatched(s, id, if s.live[id].child then e else e.(code := None), [], 0);
      }
    case Tick(now, fates) =>
      TickWatched(s, now, fates);
      WatchedAtRest(s', now);
    case TokenTaken => SameClocksWatched(s, s');
    case StopOne(_, _) => SameClocksWatched(s, s');
    case WaitFor(_, _) => SameClocksWatched(s, s');
  }

  /** Over every run, a container with a timeout has the look its last activity called for still planned. */
  lemma {:induction false} EveryRunIsWatched(s: State, evs: seq<Event>)
    requires Possible(s, evs) && Watched(s, [], 0)
    ensures Watched(Play(s, evs).state, [], 0)
    decreases |evs|
  {
    if evs != [] {
      StepWatched(s, evs[0]);
      EveryRunIsWatched(Step(s, evs[0]).state, evs[1..]);
    }
  }

  // ----- what a tick ends

  /** Looks planned for later than the moment. */
  ghost predicate AllLater(s: State, now: nat) {
    forall d <- s.schedule :: d.task.ReapIdle? ==> d.at > now
  }

  predicate NotBefore(fate: Fate, now: nat) { fate.luck.Spawned? ==> fate.luck.at >= now }

  lemma {:induction false} TasksLater(s: State, tasks: seq<Task>, now: nat, fates: seq<Fate>)
    requires |tasks| == |fates| && AllLater(s, now) && forall fate <- fates :: NotBefore(fate, now)
    ensures AllLater(RunTasks(s, tasks, now, fates).state, now)
    decreases |tasks|
  {
    if tasks != [] {
      assert NotBefore(fates[0], now);
      TasksLater(OnTask(s, tasks[0], now, fates[0].luck, fates[0].ending).state, tasks[1..], now, fates[1..]);
    }
  }

  lemma {:induction false} NotDueIsLater(schedule: seq<Due>, now: nat)
    ensures forall d <- NotDue(schedule, now) :: d.at > now
  {
    if schedule != [] {
      NotDueIsLater(schedule[1..], now);
    }
  }

  /** The life under a token, which a tick either ends because it is idle or leaves as it is. */
  ghost predicate Spared(s: State, s': State, t: nat, now: nat)
    requires t in s.pidTokens && s.pidTokens[t] in s.live
  {
    var id := s.pidTokens[t];
    if t in s'.pidTokens then s'.pidTokens[t] == id && id in s'.live && s'.live[id] == s.live[id]
    else IsIdle(s.live[id], now)
  }

  lemma TaskSpares(s: State, task: Task, now: nat, fate: Fate, t: nat)
    requires Inv(s) && t in s.pidTokens
    ensures Spared(s, OnTask(s, task, now, fate.luck, fate.ending).state, t, now)
  {
  }

  /** After a first transition that spares the life, the rest decides; a life that ended stays ended. */
  lemma SparedTwice(s: State, next: State, s': State, t: nat, now: nat)
    requires t in s.pidTokens && s.pidTokens[t] in s.live && Spared(s, next, t, now)
    requires t in next.pidTokens ==> Spared(next, s', t, now)
    requires t !in next.pidTokens ==> t !in s'.pidTokens
    ensures Spared(s, s', t, now)
  {
  }

  lemma {:induction false} TasksSpare(s: State, tasks: seq<Task>, now: nat, fates: seq<Fate>, t: nat)
    requires Inv(s) && t in s.pidTokens && |tasks| == |fates|
    ensures Spared(s, RunTasks(s, tasks, now, fates).state, t, now)
    decreases |tasks|
  {
    if tasks != [] {
      var next := OnTask(s, tasks[0], now, fates[0].luck, fates[0].ending).state;
      TaskSpares(s, tasks[0], now, fates[0], t);
      StaysEnded(s, tasks, now, fates, t);
      if t in next.pidTokens {
        TasksSpare(next, tasks[1..], now, fates[1..], t);
      }
      SparedTwice(s, next, RunTasks(next, tasks[1..], now, fates[1..]).state, t, now);
    }
  }

  /** A life that the first task ends is not back after the others. */
  lemma StaysEnded(s: State, tasks: seq<Task>, now: nat, fates: seq<Fate>, t: nat)
    requires Inv(s) && t in s.pidTokens && tasks != [] && |tasks| == |fates|
    ensures var next := OnTask(s, tasks[0], now, fates[0].luck, fates[0].ending).state;
      && Inv(next)
      && (t !in next.pidTokens ==> t !in RunTasks(next, tasks[1..], now, fates[1..]).state.pidTokens)
  {
    var first := OnTask(s, tasks[0], now, fates[0].luck, fates[0].ending);
    TaskKeeps(s, tasks[0], now, fates[0], t);
    TaskTokens(s, tasks[0], now, fates[0]);
    TasksKeep(first.state, tasks[1..], now, fates[1..], t);
  }

  /** Main result. At a tick of any run from start-up, a life ends if and only if it has been idle for its timeout. */
  lemma ATickEndsExactlyTheIdle(store: map<string, Spec>, evs: seq<Event>, now: nat, fates: seq<Fate>, t: nat)
    requires Possible(Boot(store), evs)
    requires var s := Play(Boot(store), evs).state; Allows(s, Tick(now, fates)) && t in s.pidTokens
    requires forall fate <- fates :: NotBefore(fate, now)
    ensures var s := Play(Boot(store), evs).state;
      && s.pidTokens[t] in s.live
      && (Ends(s, Step(s, Tick(now, fates)).state, t) <==> IsIdle(s.live[s.pidTokens[t]], now))
  {
    var s := Play(Boot(store), evs).state;
    EveryRunKeepsTheBooks(Boot(store), evs, t);
    EveryRunIsWatched(Boot(store), evs);
    TickEndsExactly(s, now, fates, t);
  }

  lemma TickEndsExactly(s: State, now: nat, fates: seq<Fate>, t: nat)
    requires Inv(s) && Watched(s, [], 0) && t in s.pidTokens
    requires |fates| == |DueTasks(s.schedule, now)| && forall fate <- fates :: NotBefore(fate, now)
    ensures Ends(s, OnTimer(s, now, fates).state, t) <==> IsIdle(s.live[s.pidTokens[t]], now)
  {
    var taken, s' := s.(schedule := NotDue(s.schedule, now)), OnTimer(s, now, fates).state;
    NotDueIsLater(s.schedule, now);
    TasksLater(taken, DueTasks(s.schedule, now), now, fates);
    TickWatched(s, now, fates);
    QuietKeeps(s, taken, t);
    TasksSpare(taken, DueTasks(s.schedule, now), now, fates, t);
    var id := s.pidTokens[t];
    if t in s'.pidTokens && s.live[id].spec.idleTimeout.Some? {
      assert WatchedOne(s', id, [], now);
      assert LookAt(id, s.live[id]) in s'.schedule;
    }
  }
}
