/** The daemon's bookkeeping of live containers: event tokens, waiters, restarts. */
module Lifecycle {
  import opened Basics

  const FIRST_DYNAMIC: nat := 100
  const EXITED_GRACE: nat := 30000

  datatype Restart = Never | Always | OnFailure(max: nat)

  /** The idle timeout is in seconds; moments are in milliseconds. */
  datatype Spec = Spec(persistent: bool, restart: Restart, exitStatus: Option<int>, idleTimeout: Option<nat>)

  datatype WaitKind = ForExit | ForStop

  datatype Waiter = Waiter(conn: nat, kind: WaitKind)

  /** One life of a container, from launch or adoption to exit. */
  datatype Life = Life(
    spec: Spec,
    token: nat,
    child: bool,
    waiters: seq<Waiter>,
    stopRequested: bool,
    lastActivity: nat)

  datatype Task = Relaunch(id: string) | RemoveExited(id: string) | ReapIdle(id: string)

  datatype Due = Due(at: nat, task: Task)

  datatype State = State(
    live: map<string, Life>,
    pidTokens: map<nat, string>,
    store: map<string, Spec>,
    restarts: map<string, nat>,
    userStopped: set<string>,
    schedule: seq<Due>,
    nextToken: nat)

  datatype Response = Done | Exited(status: int) | Refused

  /** What is owed and what is paid: a request accepted without an immediate reply, and a
      reply sent later, each with the token of the life it concerns. */
  datatype Note =
    | Deferred(token: nat, waiter: Waiter)
    | Answered(token: nat, waiter: Waiter, response: Response)

  datatype Outcome = Outcome(state: State, notes: seq<Note>, reply: Option<Response>)

  /** How a launch fares: before the process runs, when it cannot be watched, or well and when. */
  datatype Luck = NotSpawned | NotWatched | Spawned(at: nat)

  /** The circumstances of an exit: its code if known, whether it ran for long, and when. */
  datatype Ending = Ending(code: Option<int>, ranLong: bool, now: nat)

  // ----- single steps

  function TakeToken(s: State): State { s.(nextToken := s.nextToken + 1) }

  /** How long a container may be idle; at least a second. */
  function IdleMillis(timeout: nat): nat { 1000 * Max(timeout, 1) }

  /** Plan to look at the container once it may have been idle for long enough. */
  function PlanReap(schedule: seq<Due>, id: string, timeout: Option<nat>, now: nat): seq<Due> {
    if timeout.Some? then schedule + [Due(now + IdleMillis(timeout.value), ReapIdle(id))] else schedule
  }

  predicate IsIdle(life: Life, now: nat) {
    life.spec.idleTimeout.Some? && Sub(now, life.lastActivity) >= IdleMillis(life.spec.idleTimeout.value)
  }

  /** Enter a new life under the next token. */
  function Enter(s: State, id: string, spec: Spec, child: bool, now: nat): State {
    var t := s.nextToken + 1;
    s.(nextToken := t,
       pidTokens := s.pidTokens[t := id],
       live := s.live[id := Life(spec, t, child, [], false, now)],
       schedule := PlanReap(s.schedule, id, spec.idleTimeout, now))
  }

  function UpdateStore(store: map<string, Spec>, id: string, spec: Spec): map<string, Spec> {
    if id in store then store[id := spec] else store
  }

  function Launch(s: State, id: string, spec: Spec, luck: Luck): State {
    match luck
    case NotSpawned => s
    case NotWatched => TakeToken(s)
    case Spawned(at) =>
      var fresh' := spec.(exitStatus := None);
      Enter(s, id, fresh', true, at).(store := UpdateStore(s.store, id, fresh'))
  }

  function Adopt(s: State, id: string, spec: Spec, luck: Luck): State {
    match luck
    case NotSpawned => s
    case NotWatched => TakeToken(s)
    case Spawned(at) => Enter(s, id, spec, false, at)
  }

  function Answer(kind: WaitKind, code: int): Response { if kind == ForExit then Exited(code) else Done }

  function Answers(token: nat, waiters: seq<Waiter>, code: int): seq<Note> {
    seq(|waiters|, i requires 0 <= i < |waiters| => Answered(token, waiters[i], Answer(waiters[i].kind, code)))
  }

  predicate ShouldRestart(policy: Restart, code: int, attempts: nat, stopped: bool) {
    !stopped && (policy.Always? || (policy.OnFailure? && code != 0 && (policy.max == 0 || attempts < policy.max)))
  }

  /** Milliseconds before the next try. */
  function RestartDelay(attempts: nat): nat {
    if attempts >= 20 then 60000 else Min(100 * Double(attempts), 60000)
  }

  function Double(n: nat): nat { if n == 0 then 1 else 2 * Double(n - 1) }

  /** A life ends: forget it, record the code, answer its waiters, and plan what follows. */
  function OnExit(s: State, id: string, e: Ending): Outcome {
    if id !in s.live then Outcome(s, [], None)
    else
      var life := s.live[id];
      var code := GetOr(e.code, -1);
      var spec := life.spec.(exitStatus := Some(code));
      var restarts := if e.ranLong then s.restarts - {id} else s.restarts;
      var attempts := GetOr(Lookup(restarts, id), 0);
      var again := ShouldRestart(spec.restart, code, attempts, id in s.userStopped);
      Outcome(
        State(
          s.live - {id},
          s.pidTokens - {life.token},
          UpdateStore(s.store, id, spec),
          if again then restarts[id := attempts + 1] else restarts,
          s.userStopped - {id},
          s.schedule +
            (if again then [Due(e.now + RestartDelay(attempts), Relaunch(id))]
             else if !spec.persistent then [Due(e.now + EXITED_GRACE, RemoveExited(id))]
             else []),
          s.nextToken),
        Answers(life.token, life.waiters, code),
        None)
  }

  function Purge(s: State, id: string): State { s.(store := s.store - {id}) }

  function AddWaiter(s: State, id: string, w: Waiter): State
    requires id in s.live
  {
    s.(live := s.live[id := s.live[id].(waiters := s.live[id].waiters + [w])])
  }

  function OpWait(s: State, conn: nat, id: string): Outcome {
    if id in s.live then
      var w := Waiter(conn, ForExit);
      Outcome(AddWaiter(s, id, w), [Deferred(s.live[id].token, w)], None)
    else if id in s.store then Outcome(s, [], Some(Exited(GetOr(s.store[id].exitStatus, 0))))
    else Outcome(s, [], Some(Refused))
  }

  function OpStop(s: State, conn: nat, id: string): Outcome {
    if id !in s.store then Outcome(s, [], Some(Refused))
    else if id !in s.live then Outcome(s, [], Some(Done))
    else
      var w := Waiter(conn, ForStop);
      var waiting := AddWaiter(s, id, w);
      var life := waiting.live[id];
      Outcome(
        if life.stopRequested then waiting
        else waiting.(live := waiting.live[id := life.(stopRequested := true)], userStopped := waiting.userStopped + {id}),
        [Deferred(life.token, w)],
        None)
  }

  /** Start and restart: only for a container that is known and not running. */
  function OpStart(s: State, id: string, luck: Luck, forgetStop: bool): Outcome {
    if id !in s.store || id in s.live then Outcome(s, [], Some(Refused))
    else
      var s1 := if forgetStop then s.(userStopped := s.userStopped - {id}) else s;
      Outcome(Launch(s1, id, s1.store[id], luck), [], Some(if luck.Spawned? then Done else Refused))
  }

  function OpRun(s: State, id: string, spec: Spec, luck: Luck): Outcome {
    if id in s.store then Outcome(s, [], Some(Refused))
    else
      var s1 := Launch(s.(store := s.store[id := spec]), id, spec, luck);
      if luck.Spawned? then Outcome(s1, [], Some(Done)) else Outcome(Purge(s1, id), [], Some(Refused))
  }

  function OpRemove(s: State, id: string, force: bool, e: Ending): Outcome {
    if id !in s.store || (id in s.live && !force) then Outcome(s, [], Some(Refused))
    else
      var ended := OnExit(s, id, e);
      Outcome(Purge(ended.state, id), ended.notes, Some(Done))
  }

  /** A readable token: the life it belongs to has ended, unless it is a child that can still be waited for. */
  function OnPidfd(s: State, token: nat, exited: bool, e: Ending): Outcome {
    if token !in s.pidTokens || s.pidTokens[token] !in s.live then Outcome(s, [], None)
    else
      var id := s.pidTokens[token];
      if !s.live[id].child then OnExit(s, id, e.(code := None))
      else if exited then OnExit(s, id, e)
      else Outcome(s, [], None)
  }

  /** A command run inside a container counts as activity. */
  function OpExec(s: State, id: string, now: nat): Outcome {
    if id !in s.store || id !in s.live then Outcome(s, [], Some(Refused))
    else
      var life := s.live[id];
      Outcome(
        TakeToken(s).(live := s.live[id := life.(lastActivity := now)],
                      schedule := PlanReap(s.schedule, id, life.spec.idleTimeout, now)),
        [], None)
  }

  function OnTask(s: State, task: Task, now: nat, luck: Luck, e: Ending): Outcome {
    match task
    case Relaunch(id) =>
      if id in s.store && id !in s.live then Outcome(Launch(s, id, s.store[id], luck), [], None) else Outcome(s, [], None)
    case RemoveExited(id) =>
      if id !in s.live && id in s.store && !s.store[id].persistent then Outcome(Purge(s, id), [], None) else Outcome(s, [], None)
    case ReapIdle(id) =>
      if id in s.live && IsIdle(s.live[id], now) then
        var ended := OnExit(s, id, e);
        Outcome(Purge(ended.state, id), ended.notes, None)
      else Outcome(s, [], None)
  }

  /** Take the due tasks out of the schedule. */
  function DueTasks(schedule: seq<Due>, now: nat): seq<Task> {
    if schedule == [] then []
    else (if schedule[0].at <= now then [schedule[0].task] else []) + DueTasks(schedule[1..], now)
  }

  function NotDue(schedule: seq<Due>, now: nat): seq<Due> {
    if schedule == [] then []
    else (if schedule[0].at <= now then [] else [schedule[0]]) + NotDue(schedule[1..], now)
  }

  /** What each due task meets: how a launch fares, how a container ends. */
  datatype Fate = Fate(luck: Luck, ending: Ending)

  function RunTasks(s: State, tasks: seq<Task>, now: nat, fates: seq<Fate>): Outcome
    requires |fates| == |tasks|
    decreases |tasks|
  {
    if tasks == [] then Outcome(s, [], None)
    else
      var first := OnTask(s, tasks[0], now, fates[0].luck, fates[0].ending);
      var rest := RunTasks(first.state, tasks[1..], now, fates[1..]);
      Outcome(rest.state, first.notes + rest.notes, None)
  }

  lemma RunTasksFrom(s: State, tasks: seq<Task>, now: nat, fates: seq<Fate>, k: nat, first: Outcome)
    requires k < |tasks| == |fates|
    requires first == OnTask(s, tasks[k], now, fates[k].luck, fates[k].ending)
    ensures RunTasks(s, tasks[k..], now, fates[k..]).state == RunTasks(first.state, tasks[k + 1..], now, fates[k + 1..]).state
    ensures forall sent: seq<Note> ::
        sent + RunTasks(s, tasks[k..], now, fates[k..]).notes
        == (sent + first.notes) + RunTasks(first.state, tasks[k + 1..], now, fates[k + 1..]).notes
  {
    assert tasks[k..][1..] == tasks[k + 1..] && fates[k..][1..] == fates[k + 1..];
  }

  /** A tick of the timer: take the due tasks out, then run them in order. */
  function OnTimer(s: State, now: nat, fates: seq<Fate>): Outcome
    requires |fates| == |DueTasks(s.schedule, now)|
  {
    RunTasks(s.(schedule := NotDue(s.schedule, now)), DueTasks(s.schedule, now), now, fates)
  }

  // ----- the daemon as the program keeps it

  class Daemon {
    var live: map<string, Life>
    var pidTokens: map<nat, string>
    var store: map<string, Spec>
    var restarts: map<string, nat>
    var userStopped: set<string>
    var schedule: seq<Due>
    var nextToken: nat
    ghost var log: seq<Note>

    function View(): State
      reads this
    {
      State(live, pidTokens, store, restarts, userStopped, schedule, nextToken)
    }

    constructor (store: map<string, Spec>)
      ensures View() == State(map[], map[], store, map[], {}, [], FIRST_DYNAMIC) && log == []
    {
      this.store := store;
      live, pidTokens, restarts := map[], map[], map[];
      userStopped, schedule, nextToken, log := {}, [], FIRST_DYNAMIC, [];
    }

    method Token() returns (t: nat)
      modifies this`nextToken
      ensures View() == TakeToken(old(View())) && t == nextToken
    {
      nextToken := nextToken + 1;
      t := nextToken;
    }

    method ScheduleIdleReap(id: string, timeout: Option<nat>, now: nat)
      modifies this`schedule
      ensures schedule == PlanReap(old(schedule), id, timeout, now)
    {
      if timeout.Some? {
        schedule := schedule + [Due(now + IdleMillis(timeout.value), ReapIdle(id))];
      }
    }

    /** The end of launching: watch the process, then enter it into both maps. */
    method DoLaunch(id: string, spec: Spec, luck: Luck) returns (ok: bool)
      modifies this
      ensures View() == Launch(old(View()), id, spec, luck) && log == old(log) && ok == luck.Spawned?
    {
      if luck.NotSpawned? {
        return false;
      }
      var t := Token();
      if luck.NotWatched? {
        return false;
      }
      pidTokens := pidTokens[t := id];
      var started := spec.(exitStatus := None);
      store := UpdateStore(store, id, started);
      live := live[id := Life(started, t, true, [], false, luck.at)];
      ScheduleIdleReap(id, spec.idleTimeout, luck.at);
      return true;
    }

    method DoAdopt(id: string, spec: Spec, luck: Luck)
      modifies this
      ensures View() == Adopt(old(View()), id, spec, luck) && log == old(log)
    {
      if luck.NotSpawned? {
        return;
      }
      var t := Token();
      if luck.NotWatched? {
        return;
      }
      pidTokens := pidTokens[t := id];
      live := live[id := Life(spec, t, false, [], false, luck.at)];
      ScheduleIdleReap(id, spec.idleTimeout, luck.at);
    }

    method DoOnExit(id: string, e: Ending)
      modifies this
      ensures var r := OnExit(old(View()), id, e); View() == r.state && log == old(log) + r.notes
    {
      if id !in live {
        return;
      }
      var life := live[id];
      live := live - {id};
      pidTokens := pidTokens - {life.token};
      var code := GetOr(e.code, -1);
      var spec := life.spec.(exitStatus := Some(code));
      store := UpdateStore(store, id, spec);
      if e.ranLong {
        restarts := restarts - {id};
      }
      SendAll(life.token, life.waiters, code);
      var stopped := id in userStopped;
      userStopped := userStopped - {id};
      var attempts := GetOr(Lookup(restarts, id), 0);
      if ShouldRestart(spec.restart, code, attempts, stopped) {
        restarts := restarts[id := attempts + 1];
        schedule := schedule + [Due(e.now + RestartDelay(attempts), Relaunch(id))];
      } else if !spec.persistent {
        schedule := schedule + [Due(e.now + EXITED_GRACE, RemoveExited(id))];
      }
    }

    /** Answer the waiters one after the other. */
    method SendAll(token: nat, waiters: seq<Waiter>, code: int)
      modifies this`log
      ensures log == old(log) + Answers(token, waiters, code)
    {
      for k := 0 to |waiters|
        invariant log == old(log) + Answers(token, waiters[..k], code)
      {
        var response := if waiters[k].kind == ForExit then Exited(code) else Done;
        assert Answers(token, waiters[..k + 1], code)
            == Answers(token, waiters[..k], code) + [Answered(token, waiters[k], response)];
        log := log + [Answered(token, waiters[k], response)];
      }
      assert waiters[..|waiters|] == waiters;
    }

    method DoWait(conn: nat, id: string) returns (reply: Option<Response>)
      modifies this
      ensures var r := OpWait(old(View()), conn, id);
        View() == r.state && log == old(log) + r.notes && reply == r.reply
    {
      if id !in live && id !in store {
        return Some(Refused);
      }
      if id in live {
        var w := Waiter(conn, ForExit);
        live := live[id := live[id].(waiters := live[id].waiters + [w])];
        log := log + [Deferred(live[id].token, w)];
        return None;
      }
      return Some(Exited(GetOr(store[id].exitStatus, 0)));
    }

    method DoStop(conn: nat, id: string) returns (reply: Option<Response>)
      modifies this
      ensures var r := OpStop(old(View()), conn, id);
        View() == r.state && log == old(log) + r.notes && reply == r.reply
    {
      if id !in store {
        return Some(Refused);
      }
      if id !in live {
        return Some(Done);
      }
      var w := Waiter(conn, ForStop);
      live := live[id := live[id].(waiters := live[id].waiters + [w])];
      log := log + [Deferred(live[id].token, w)];
      if !live[id].stopRequested {
        live := live[id := live[id].(stopRequested := true)];
        userStopped := userStopped + {id};
      }
      return None;
    }

    method DoExec(id: string, now: nat) returns (reply: Option<Response>)
      modifies this
      ensures var r := OpExec(old(View()), id, now);
        View() == r.state && log == old(log) && reply == r.reply
    {
      if id !in store || id !in live {
        return Some(Refused);
      }
      live := live[id := live[id].(lastActivity := now)];
      ScheduleIdleReap(id, live[id].spec.idleTimeout, now);
      var _ := Token();
      return None;
    }

    method DoPidfd(token: nat, exited: bool, e: Ending)
      modifies this
      ensures var r := OnPidfd(old(View()), token, exited, e); View() == r.state && log == old(log) + r.notes
    {
      if token in pidTokens {
        var id := pidTokens[token];
        if id in live {
          if !live[id].child {
            DoOnExit(id, e.(code := None));
          } else if exited {
            DoOnExit(id, e);
          }
        }
      }
    }

    method DoRun(id: string, spec: Spec, luck: Luck) returns (reply: Response)
      modifies this
      ensures var r := OpRun(old(View()), id, spec, luck);
        View() == r.state && log == old(log) && Some(reply) == r.reply
    {
      if id in store {
        return Refused;
      }
      store := store[id := spec];
      var ok := DoLaunch(id, spec, luck);
      if !ok {
        store := store - {id};
        return Refused;
      }
      return Done;
    }

    method DoStart(id: string, luck: Luck, forgetStop: bool) returns (reply: Response)
      modifies this
      ensures var r := OpStart(old(View()), id, luck, forgetStop);
        View() == r.state && log == old(log) && Some(reply) == r.reply
    {
      if id !in store || id in live {
        return Refused;
      }
      if forgetStop {
        userStopped := userStopped - {id};
      }
      var ok := DoLaunch(id, store[id], luck);
      return if ok then Done else Refused;
    }

    method DoRemove(id: string, force: bool, e: Ending) returns (reply: Response)
      modifies this
      ensures var r := OpRemove(old(View()), id, force, e);
        View() == r.state && log == old(log) + r.notes && Some(reply) == r.reply
    {
      if id !in store || (id in live && !force) {
        return Refused;
      }
      DoOnExit(id, e);
      store := store - {id};
      return Done;
    }

    /** Take the due tasks out of the schedule, in place and in order. */
    method TakeDue(now: nat) returns (due: seq<Task>)
      modifies this`schedule
      ensures View() == old(View()).(schedule := NotDue(old(schedule), now))
      ensures due == DueTasks(old(schedule), now)
    {
      due := [];
      var i := 0;
      ghost var all := schedule;
      while i < |schedule|
        invariant 0 <= i <= |schedule|
        invariant schedule[..i] + NotDue(schedule[i..], now) == NotDue(all, now)
        invariant due + DueTasks(schedule[i..], now) == DueTasks(all, now)
        decreases |schedule| - i
      {
        ghost var before := schedule;
        assert schedule[i..][1..] == schedule[i + 1..];
        if schedule[i].at <= now {
          due := due + [schedule[i].task];
          schedule := schedule[..i] + schedule[i + 1..];
          assert schedule[..i] == before[..i] && schedule[i..] == before[i + 1..];
        } else {
          assert schedule[..i + 1] == schedule[..i] + [schedule[i]];
          i := i + 1;
        }
      }
      assert schedule[..i] == schedule;
    }

    method DoTask(task: Task, now: nat, luck: Luck, e: Ending)
      modifies this
      ensures var r := OnTask(old(View()), task, now, luck, e); View() == r.state && log == old(log) + r.notes
    {
      match task {
        case Relaunch(id) =>
          if id in store && id !in live {
            var _ := DoLaunch(id, store[id], luck);
          }
        case RemoveExited(id) =>
          if id !in live && id in store && !store[id].persistent {
            store := store - {id};
          }
        case ReapIdle(id) =>
          if id in live && IsIdle(live[id], now) {
            DoOnExit(id, e);
            store := store - {id};
          }
      }
    }

    method DoTimer(now: nat, fates: seq<Fate>)
      requires |fates| == |DueTasks(schedule, now)|
      modifies this
      ensures var r := OnTimer(old(View()), now, fates); View() == r.state && log == old(log) + r.notes
    {
      var due := TakeDue(now);
      RunDue(due, now, fates);
    }

    method RunDue(due: seq<Task>, now: nat, fates: seq<Fate>)
      requires |fates| == |due|
      modifies this
      ensures var r := RunTasks(old(View()), due, now, fates); View() == r.state && log == old(log) + r.notes
    {
      ghost var at, sent, whole := View(), [], RunTasks(View(), due, now, fates);
      assert due[0..] == due && fates[0..] == fates;
      for k := 0 to |due|
        invariant View() == at && log == old(log) + sent
        invariant whole.state == RunTasks(at, due[k..], now, fates[k..]).state
        invariant whole.notes == sent + RunTasks(at, due[k..], now, fates[k..]).notes
      {
        ghost var first := OnTask(at, due[k], now, fates[k].luck, fates[k].ending);
        RunTasksFrom(at, due, now, fates, k, first);
        DoTask(due[k], now, fates[k].luck, fates[k].ending);
        assert old(log) + sent + first.notes == old(log) + (sent + first.notes);
        at, sent := first.state, sent + first.notes;
      }
    }
  }
}
