/** Who is told what about the end of a container: the requests of a run against the answers of a run. */
module Requests {
  import opened Basics
  import opened Lifecycle
  import opened LifecycleRuns

  // ----- counting requests and answers

  /** A stop or a wait that meets a live container, under the token of its life. */
  predicate Meets(s: State, ev: Event, t: nat) {
    (ev.StopOne? || ev.WaitFor?) && ev.id in s.store && ev.id in s.live && s.live[ev.id].token == t
  }

  /** How often a client asked to stop, or to wait for, the life under a token. */
  function Asked(s: State, evs: seq<Event>, t: nat, conn: nat, stop: bool): nat
    requires Possible(s, evs)
    decreases |evs|
  {
    if evs == [] then 0
    else
      (if Meets(s, evs[0], t) && evs[0].conn == conn && evs[0].StopOne? == stop then 1 else 0)
      + Asked(Step(s, evs[0]).state, evs[1..], t, conn, stop)
  }

  /** How often a client was sent a response about the life under a token. */
  function Sent(notes: seq<Note>, t: nat, conn: nat, response: Response): nat {
    if notes == [] then 0
    else
      var n := notes[0];
      (if n.Answered? && n.token == t && n.waiter.conn == conn && n.response == response then 1 else 0)
      + Sent(notes[1..], t, conn, response)
  }

  lemma {:induction false} SentConcat(a: seq<Note>, b: seq<Note>, t: nat, conn: nat, response: Response)
    ensures Sent(a + b, t, conn, response) == Sent(a, t, conn, response) + Sent(b, t, conn, response)
  {
    if a == [] {
      assert a + b == b;
    } else {
      assert (a + b)[1..] == a[1..] + b;
      SentConcat(a[1..], b, t, conn, response);
    }
  }

  lemma AnswerIsPaid(notes: seq<Note>, t: nat)
    requires notes != []
    ensures notes[0].Answered? && notes[0].token == t ==> Paid(notes, t) != multiset{}
  {
    if notes[0].Answered? && notes[0].token == t {
      assert notes[0].waiter in Paid(notes, t);
    }
  }

  lemma {:induction false} NothingPaidNothingSent(notes: seq<Note>, t: nat, conn: nat, response: Response)
    requires Paid(notes, t) == multiset{}
    ensures Sent(notes, t, conn, response) == 0
    ensures forall n <- notes :: n.Answered? ==> n.token != t
  {
    if notes != [] {
      assert Paid(notes[1..], t) <= Paid(notes, t);
      NothingPaidNothingSent(notes[1..], t, conn, response);
      AnswerIsPaid(notes, t);
    }
  }

  // ----- what is sent

  /** Those who stopped are told it is done, those who waited are told the code. */
  ghost predicate Tells(notes: seq<Note>, t: nat, code: int) {
    forall n <- notes :: n.Answered? && n.token == t ==>
      n.response == if n.waiter.kind.ForStop? then Done else Exited(code)
  }

  lemma {:induction false} SentIsPaid(notes: seq<Note>, t: nat, conn: nat, code: int)
    requires Tells(notes, t, code)
    ensures Sent(notes, t, conn, Done) == Paid(notes, t)[Waiter(conn, ForStop)]
    ensures Sent(notes, t, conn, Exited(code)) == Paid(notes, t)[Waiter(conn, ForExit)]
    ensures forall r :: r != Done && r != Exited(code) ==> Sent(notes, t, conn, r) == 0
  {
    if notes != [] {
      SentIsPaid(notes[1..], t, conn, code);
    }
  }

  /** The code with which an event ends the life under a token: that of the ending, or -1 if it has none or the
      container was adopted. */
  ghost predicate EndsWith(s: State, ev: Event, t: nat, code: int)
    requires Allows(s, ev) && t in s.pidTokens && s.pidTokens[t] in s.live
  {
    var id := s.pidTokens[t];
    match ev
    case RemoveOne(other, _, e) => other == id && code == GetOr(e.code, -1)
    case Readable(token, _, e) => token == t && code == if s.live[id].child then GetOr(e.code, -1) else -1
    case Tick(now, fates) => ReapedWith(DueTasks(s.schedule, now), fates, id, code)
    case _ => false
  }

  ghost predicate ReapedWith(tasks: seq<Task>, fates: seq<Fate>, id: string, code: int)
    requires |tasks| == |fates|
  {
    exists k :: 0 <= k < |tasks| && tasks[k] == ReapIdle(id) && code == GetOr(fates[k].ending.code, -1)
  }

  lemma ExitTells(s: State, id: string, e: Ending, t: nat)
    requires Inv(s)
    ensures Tells(OnExit(s, id, e).notes, t, GetOr(e.code, -1))
    ensures Ends(s, OnExit(s, id, e).state, t) ==> s.pidTokens[t] == id
  {
  }

  lemma TellsBoth(a: seq<Note>, b: seq<Note>, t: nat, code: int)
    requires Tells(a, t, code) && Tells(b, t, code)
    ensures Tells(a + b, t, code)
  {
  }

  lemma NoneTells(notes: seq<Note>, t: nat, code: int)
    requires forall n <- notes :: n.Answered? ==> n.token != t
    ensures Tells(notes, t, code)
  {
  }

  lemma TaskTells(s: State, task: Task, now: nat, fate: Fate, t: nat)
    requires Inv(s) && Ends(s, OnTask(s, task, now, fate.luck, fate.ending).state, t)
    ensures Tells(OnTask(s, task, now, fate.luck, fate.ending).notes, t, GetOr(fate.ending.code, -1))
    ensures task == ReapIdle(s.pidTokens[t])
  {
    ExitTells(s, task.id, fate.ending, t);
  }

  lemma {:induction false} TasksTell(s: State, tasks: seq<Task>, now: nat, fates: seq<Fate>, t: nat) returns (code: int)
    requires Inv(s) && |tasks| == |fates| && Ends(s, RunTasks(s, tasks, now, fates).state, t)
    ensures Tells(RunTasks(s, tasks, now, fates).notes, t, code) && ReapedWith(tasks, fates, s.pidTokens[t], code)
    decreases |tasks|
  {
    var first := OnTask(s, tasks[0], now, fates[0].luck, fates[0].ending);
    var rest := RunTasks(first.state, tasks[1..], now, fates[1..]);
    TaskKeeps(s, tasks[0], now, fates[0], t);
    TaskTokens(s, tasks[0], now, fates[0]);
    if t in first.state.pidTokens {
      TaskLife(s, tasks[0], now, fates[0], t);
      code := TasksTell(first.state, tasks[1..], now, fates[1..], t);
      var k :| 0 <= k < |tasks| - 1 && tasks[1..][k] == ReapIdle(s.pidTokens[t]) && code == GetOr(fates[1..][k].ending.code, -1);
      assert tasks[k + 1] == ReapIdle(s.pidTokens[t]) && fates[k + 1] == fates[1..][k];
      NothingPaidNothingSent(first.notes, t, 0, Done);
      NoneTells(first.notes, t, code);
    } else {
      code := GetOr(fates[0].ending.code, -1);
      TaskTells(s, tasks[0], now, fates[0], t);
      TasksKeep(first.state, tasks[1..], now, fates[1..], t);
      NothingPaidNothingSent(rest.notes, t, 0, Done);
      NoneTells(rest.notes, t, code);
    }
    TellsBoth(first.notes, rest.notes, t, code);
  }

  /** A task that leaves a life leaves it under its token, and answers nobody under it. */
  lemma TaskLife(s: State, task: Task, now: nat, fate: Fate, t: nat)
    requires Inv(s) && t in s.pidTokens && t in OnTask(s, task, now, fate.luck, fate.ending).state.pidTokens
    ensures var r := OnTask(s, task, now, fate.luck, fate.ending);
      r.state.pidTokens[t] == s.pidTokens[t] && Paid(r.notes, t) == multiset{}
  {
    TaskSurvives(s, task, now, fate, t);
  }

  /** Whatever ends a life, all who waited on it hear the code of that ending. */
  lemma EndingTells(s: State, ev: Event, t: nat) returns (code: int)
    requires Inv(s) && Allows(s, ev) && Ends(s, Step(s, ev).state, t)
    ensures EndsWith(s, ev, t, code) && Tells(Step(s, ev).notes, t, code)
  {
    match ev
    case RemoveOne(id, _, e) =>
      code := GetOr(e.code, -1);
      ExitTells(s, id, e, t);
    case Readable(token, _, e) =>
      var id := s.pidTokens[token];
      var e' := if s.live[id].child then e else e.(code := None);
      code := GetOr(e'.code, -1);
      ExitTells(s, id, e', t);
    case Tick(now, fates) =>
      var taken := s.(schedule := NotDue(s.schedule, now));
      QuietKeeps(s, taken, t);
      code := TasksTell(taken, DueTasks(s.schedule, now), now, fates, t);
    case _ =>
      code := 0;
      OtherEventsEndNothing(s, ev, t);
  }

  lemma OtherEventsEndNothing(s: State, ev: Event, t: nat)
    requires Inv(s) && Allows(s, ev) && !ev.RemoveOne? && !ev.Readable? && !ev.Tick?
    ensures !Ends(s, Step(s, ev).state, t)
  {
  }

  // ----- who is waiting

  /** An accepted request waits: a stop as a stop, a wait as a wait, each for its own client. */
  lemma RequestsWait(s: State, ev: Event, t: nat)
    requires Inv(s) && Allows(s, ev)
    ensures Owed(Step(s, ev).notes, t) ==
      if Meets(s, ev, t) then multiset{Waiter(ev.conn, if ev.StopOne? then ForStop else ForExit)} else multiset{}
  {
    var r := Step(s, ev);
    if ev.StopOne? || ev.WaitFor? {
      assert r.notes == [] || r.notes[1..] == [];
    } else {
      EventSurvives(s, ev, t);
    }
  }

  function Waiting(s: State, t: nat, conn: nat, stop: bool): nat {
    Pending(s, t)[Waiter(conn, if stop then ForStop else ForExit)]
  }

  lemma StepWaiting(s: State, ev: Event, t: nat, conn: nat, stop: bool)
    requires Inv(s) && Allows(s, ev) && !Ends(s, Step(s, ev).state, t)
    ensures Waiting(Step(s, ev).state, t, conn, stop)
      == Waiting(s, t, conn, stop) + if Meets(s, ev, t) && ev.conn == conn && ev.StopOne? == stop then 1 else 0
    ensures forall r :: Sent(Step(s, ev).notes, t, conn, r) == 0
  {
    StepKeeps(s, ev, t);
    AnswersComeFromTheExit(s, ev, t);
    RequestsWait(s, ev, t);
    forall r ensures Sent(Step(s, ev).notes, t, conn, r) == 0 {
      NothingPaidNothingSent(Step(s, ev).notes, t, conn, r);
    }
    var w := Waiter(conn, if stop then ForStop else ForExit);
    var s' := Step(s, ev).state;
    assert (Pending(s, t) + Owed(Step(s, ev).notes, t))[w] == (Paid(Step(s, ev).notes, t) + Pending(s', t))[w];
  }

  // ----- over runs

  /** While a life goes on, all that was asked of it waits, and nothing has been sent about it. */
  lemma {:induction false} UntilTheEnd(s: State, evs: seq<Event>, t: nat, conn: nat, stop: bool)
    requires Inv(s) && Possible(s, evs)
    requires t in Play(s, evs).state.pidTokens
    ensures Waiting(Play(s, evs).state, t, conn, stop) == Waiting(s, t, conn, stop) + Asked(s, evs, t, conn, stop)
    ensures forall r :: Sent(Play(s, evs).notes, t, conn, r) == 0
    decreases |evs|
  {
    if evs != [] {
      var first := Step(s, evs[0]);
      var rest := Play(first.state, evs[1..]);
      StepKeeps(s, evs[0], t);
      StepTokens(s, evs[0]);
      EveryRunKeepsTheBooks(first.state, evs[1..], t);
      assert t in s.pidTokens ==> t <= first.state.nextToken;
      StepWaiting(s, evs[0], t, conn, stop);
      UntilTheEnd(first.state, evs[1..], t, conn, stop);
      forall r ensures Sent(first.notes + rest.notes, t, conn, r) == 0 {
        SentConcat(first.notes, rest.notes, t, conn, r);
      }
    }
  }

  lemma StepTokens(s: State, ev: Event)
    requires Inv(s) && Allows(s, ev)
    ensures s.nextToken <= Step(s, ev).state.nextToken
  {
    match ev
    case Tick(now, fates) => TasksTokens(s.(schedule := NotDue(s.schedule, now)), DueTasks(s.schedule, now), now, fates);
    case _ =>
  }

  lemma {:induction false} TasksTokens(s: State, tasks: seq<Task>, now: nat, fates: seq<Fate>)
    requires |tasks| == |fates|
    ensures s.nextToken <= RunTasks(s, tasks, now, fates).state.nextToken
    decreases |tasks|
  {
    if tasks != [] {
      TasksTokens(OnTask(s, tasks[0], now, fates[0].luck, fates[0].ending).state, tasks[1..], now, fates[1..]);
    }
  }

  /** Main result. In a run from start-up, let an event end the life under a token. Until then nothing was sent
      about it. The event sends each client one Done for each of its stops and one Exited with the code of that
      ending for each of its waits, and nothing else. After it nothing more is sent. */
  lemma EachRequestIsAnsweredByItsExit(
      store: map<string, Spec>, before: seq<Event>, ev: Event, after: seq<Event>, t: nat, conn: nat)
    returns (code: int)
    requires Possible(Boot(store), before)
    requires var s := Play(Boot(store), before).state;
      Allows(s, ev) && Ends(s, Step(s, ev).state, t) && Possible(Step(s, ev).state, after)
    ensures Inv(Play(Boot(store), before).state) && EndsWith(Play(Boot(store), before).state, ev, t, code)
    ensures forall r :: Sent(Play(Boot(store), before).notes, t, conn, r) == 0
    ensures var sent := Step(Play(Boot(store), before).state, ev).notes;
      && Sent(sent, t, conn, Done) == Asked(Boot(store), before, t, conn, true)
      && Sent(sent, t, conn, Exited(code)) == Asked(Boot(store), before, t, conn, false)
      && forall r :: r != Done && r != Exited(code) ==> Sent(sent, t, conn, r) == 0
    ensures forall r :: Sent(Play(Step(Play(Boot(store), before).state, ev).state, after).notes, t, conn, r) == 0
  {
    var s := Play(Boot(store), before).state;
    EveryRunKeepsTheBooks(Boot(store), before, t);
    UntilTheEnd(Boot(store), before, t, conn, true);
    UntilTheEnd(Boot(store), before, t, conn, false);
    code := EndingTells(s, ev, t);
    SentIsPaid(Step(s, ev).notes, t, conn, code);
    AnswersComeFromTheExit(s, ev, t);
    var next := Step(s, ev).state;
    StepKeeps(s, ev, t);
    StepTokens(s, ev);
    EveryRunKeepsTheBooks(next, after, t);
    forall r ensures Sent(Play(next, after).notes, t, conn, r) == 0 {
      NothingPaidNothingSent(Play(next, after).notes, t, conn, r);
    }
  }

  /** A request that meets a live container is not answered at once; one that does not is. */
  lemma WhoIsAnsweredAtOnce(s: State, conn: nat, id: string)
    requires Inv(s)
    ensures OpStop(s, conn, id).reply == if id !in s.store then Some(Refused) else if id in s.live then None else Some(Done)
    ensures OpWait(s, conn, id).reply ==
      if id !in s.store then Some(Refused) else if id in s.live then None else Some(Exited(GetOr(s.store[id].exitStatus, 0)))
  {
  }
}
