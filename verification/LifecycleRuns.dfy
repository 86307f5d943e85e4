/** What the daemon's bookkeeping keeps over every sequence of events. */
module LifecycleRuns {
  import opened Basics
  import opened Lifecycle

  datatype Event =
    | AdoptOne(id: string, luck: Luck)
    | TokenTaken
    | ExecIn(id: string, now: nat)
    | RunNew(id: string, spec: Spec, luck: Luck)
    | StartAgain(id: string, luck: Luck, forgetStop: bool)
    | StopOne(conn: nat, id: string)
    | WaitFor(conn: nat, id: string)
    | RemoveOne(id: string, force: bool, ending: Ending)
    | Readable(token: nat, exited: bool, ending: Ending)
    | Tick(now: nat, fates: seq<Fate>)

  predicate Allows(s: State, ev: Event) {
    match ev
    case AdoptOne(id, _) => id in s.store && id !in s.live
    case Tick(now, fates) => |fates| == |DueTasks(s.schedule, now)|
    case TokenTaken => true
    case ExecIn(_, _) => true
    case RunNew(_, _, _) => true
    case StartAgain(_, _, _) => true
    case StopOne(_, _) => true
    case WaitFor(_, _) => true
    case RemoveOne(_, _, _) => true
    case Readable(_, _, _) => true
  }

  function Step(s: State, ev: Event): Outcome
    requires Allows(s, ev)
  {
    match ev
    case AdoptOne(id, luck) => Outcome(Adopt(s, id, s.store[id], luck), [], None)
    case TokenTaken => Outcome(TakeToken(s), [], None)
    case ExecIn(id, now) => OpExec(s, id, now)
    case RunNew(id, spec, luck) => OpRun(s, id, spec, luck)
    case StartAgain(id, luck, forgetStop) => OpStart(s, id, luck, forgetStop)
    case StopOne(conn, id) => OpStop(s, conn, id)
    case WaitFor(conn, id) => OpWait(s, conn, id)
    case RemoveOne(id, force, e) => OpRemove(s, id, force, e)
    case Readable(token, exited, e) => OnPidfd(s, token, exited, e)
    case Tick(now, fates) => OnTimer(s, now, fates)
  }

  predicate Possible(s: State, evs: seq<Event>)
    decreases |evs|
  {
    evs == [] || (Allows(s, evs[0]) && Possible(Step(s, evs[0]).state, evs[1..]))
  }

  /** The state a run ends in and everything it owed and paid. */
  function Play(s: State, evs: seq<Event>): Outcome
    requires Possible(s, evs)
    decreases |evs|
  {
    if evs == [] then Outcome(s, [], None)
    else
      var first := Step(s, evs[0]);
      var rest := Play(first.state, evs[1..]);
      Outcome(rest.state, first.notes + rest.notes, None)
  }

  function Boot(store: map<string, Spec>): State { State(map[], map[], store, map[], {}, [], FIRST_DYNAMIC) }

  // ----- the invariant

  ghost predicate Inv(s: State) {
    && (forall id <- s.live :: s.live[id].token in s.pidTokens && s.pidTokens[s.live[id].token] == id)
    && (forall t <- s.pidTokens :: s.pidTokens[t] in s.live && s.live[s.pidTokens[t]].token == t)
    && (forall t <- s.pidTokens :: FIRST_DYNAMIC < t <= s.nextToken)
    && FIRST_DYNAMIC <= s.nextToken
    && s.live.Keys <= s.store.Keys
    && (forall id :: id in s.userStopped <==> id in s.live && s.live[id].stopRequested)
  }

  /** The requests deferred under a token, and those answered under it. */
  function Owed(notes: seq<Note>, t: nat): multiset<Waiter> {
    if notes == [] then multiset{}
    else (if notes[0].Deferred? && notes[0].token == t then multiset{notes[0].waiter} else multiset{}) + Owed(notes[1..], t)
  }

  function Paid(notes: seq<Note>, t: nat): multiset<Waiter> {
    if notes == [] then multiset{}
    else (if notes[0].Answered? && notes[0].token == t then multiset{notes[0].waiter} else multiset{}) + Paid(notes[1..], t)
  }

  function Pending(s: State, t: nat): multiset<Waiter> {
    if t in s.pidTokens && s.pidTokens[t] in s.live then multiset(s.live[s.pidTokens[t]].waiters) else multiset{}
  }

  /** A token that was given out and belongs to no life. */
  predicate Retired(s: State, t: nat) { t <= s.nextToken && t !in s.pidTokens }

  lemma {:induction false} LedgerConcat(a: seq<Note>, b: seq<Note>, t: nat)
    ensures Owed(a + b, t) == Owed(a, t) + Owed(b, t)
    ensures Paid(a + b, t) == Paid(a, t) + Paid(b, t)
  {
    if a == [] {
      assert a + b == b;
    } else {
      assert (a + b)[1..] == a[1..] + b;
      LedgerConcat(a[1..], b, t);
    }
  }

  lemma {:induction false} AnswersPayAll(token: nat, waiters: seq<Waiter>, code: int, t: nat)
    ensures Owed(Answers(token, waiters, code), t) == multiset{}
    ensures Paid(Answers(token, waiters, code), t) == if t == token then multiset(waiters) else multiset{}
  {
    if waiters != [] {
      var w := waiters[0];
      AnswersUnfold(token, waiters, code);
      AnswersPayAll(token, waiters[1..], code, t);
      LedgerConcat([Answered(token, w, Answer(w.kind, code))], Answers(token, waiters[1..], code), t);
      assert waiters == [w] + waiters[1..];
    }
  }

  lemma AnswersUnfold(token: nat, waiters: seq<Waiter>, code: int)
    requires waiters != []
    ensures Answers(token, waiters, code)
         == [Answered(token, waiters[0], Answer(waiters[0].kind, code))] + Answers(token, waiters[1..], code)
  {
  }

  /** A transition keeps the books: the invariant, the balance of a token, and that a retired token stays so. */
  ghost predicate Keeps(s: State, r: Outcome, t: nat) {
    Inv(r.state) && Balances(s, r, t) && StaysRetired(s, r, t)
  }

  predicate Balances(s: State, r: Outcome, t: nat) {
    Pending(s, t) + Owed(r.notes, t) == Paid(r.notes, t) + Pending(r.state, t)
  }

  predicate StaysRetired(s: State, r: Outcome, t: nat) {
    Retired(s, t) ==> Retired(r.state, t) && Owed(r.notes, t) == Paid(r.notes, t) == multiset{}
  }

  // ----- each primitive transition keeps the books

  lemma QuietKeeps(s: State, s': State, t: nat)
    requires Inv(s)
    requires s'.live == s.live && s'.pidTokens == s.pidTokens && s'.userStopped == s.userStopped
    requires s.live.Keys <= s'.store.Keys && s.nextToken <= s'.nextToken
    ensures Keeps(s, Outcome(s', [], None), t)
  {
  }

  lemma EnterKeeps(s: State, id: string, spec: Spec, child: bool, now: nat, t: nat)
    requires Inv(s) && id in s.store && id !in s.live
    ensures Keeps(s, Outcome(Enter(s, id, spec, child, now), [], None), t)
  {
    var s' := Enter(s, id, spec, child, now);
    if t in s.pidTokens { assert s'.pidTokens[t] == s.pidTokens[t] != id; }
  }

  lemma LaunchKeeps(s: State, id: string, spec: Spec, luck: Luck, t: nat)
    requires Inv(s) && id in s.store && id !in s.live
    ensures Keeps(s, Outcome(Launch(s, id, spec, luck), [], None), t)
  {
    if luck.Spawned? {
      EnterKeeps(s, id, spec.(exitStatus := None), true, luck.at, t);
      var entered := Enter(s, id, spec.(exitStatus := None), true, luck.at);
      var s' := Launch(s, id, spec, luck);
      QuietKeeps(entered, s', t);
      KeepsTwice(s, Outcome(entered, [], None), Outcome(s', [], None), t);
    } else {
      QuietKeeps(s, Launch(s, id, spec, luck), t);
    }
  }

  lemma OnExitKeeps(s: State, id: string, e: Ending, t: nat)
    requires Inv(s)
    ensures Keeps(s, OnExit(s, id, e), t)
  {
    var r := OnExit(s, id, e);
    if id in s.live {
      var life := s.live[id];
      AnswersPayAll(life.token, life.waiters, GetOr(e.code, -1), t);
    } else {
      QuietKeeps(s, s, t);
    }
  }

  lemma WaiterKeeps(s: State, id: string, w: Waiter, t: nat)
    requires Inv(s) && id in s.live
    ensures Keeps(s, Outcome(AddWaiter(s, id, w), [Deferred(s.live[id].token, w)], None), t)
  {
    var token := s.live[id].token;
    var r := Outcome(AddWaiter(s, id, w), [Deferred(token, w)], None);
    assert r.notes[1..] == [];
    if t in s.pidTokens && t != token { assert s.pidTokens[t] != id; }
    assert multiset(s.live[id].waiters + [w]) == multiset(s.live[id].waiters) + multiset{w};
  }

  lemma StopMarkKeeps(s: State, id: string, t: nat)
    requires Inv(s) && id in s.live
    ensures var marked := s.live[id].(stopRequested := true);
      Keeps(s, Outcome(s.(live := s.live[id := marked], userStopped := s.userStopped + {id}), [], None), t)
  {
  }

  /** Two transitions in a row. */
  lemma KeepsTwice(s: State, a: Outcome, b: Outcome, t: nat)
    requires Keeps(s, a, t) && Keeps(a.state, b, t)
    ensures Keeps(s, Outcome(b.state, a.notes + b.notes, None), t)
  {
    var r := Outcome(b.state, a.notes + b.notes, None);
    LedgerConcat(a.notes, b.notes, t);
    Chain(Pending(s, t), Owed(a.notes, t), Paid(a.notes, t), Pending(a.state, t),
          Owed(b.notes, t), Paid(b.notes, t), Pending(b.state, t));
    assert Balances(s, r, t) && StaysRetired(s, r, t);
  }

  lemma Chain(p: multiset<Waiter>, o: multiset<Waiter>, q: multiset<Waiter>, m: multiset<Waiter>,
              o': multiset<Waiter>, q': multiset<Waiter>, n: multiset<Waiter>)
    requires p + o == q + m && m + o' == q' + n
    ensures p + (o + o') == (q + q') + n
  {
    assert p + (o + o') == (p + o) + o' == (q + m) + o' == q + (m + o') == q + (q' + n);
  }

  // ----- each event keeps the books

  lemma ExitThenPurgeKeeps(s: State, id: string, e: Ending, t: nat)
    requires Inv(s)
    ensures var r := OnExit(s, id, e); Keeps(s, Outcome(Purge(r.state, id), r.notes, None), t)
  {
    OnExitKeeps(s, id, e, t);
    var r := OnExit(s, id, e);
    var purge := Outcome(Purge(r.state, id), [], None);
    QuietKeeps(r.state, purge.state, t);
    KeepsTwice(s, r, purge, t);
    assert r.notes + [] == r.notes;
  }

  lemma StopKeeps(s: State, conn: nat, id: string, t: nat)
    requires Inv(s)
    ensures Keeps(s, OpStop(s, conn, id), t)
  {
    var r := OpStop(s, conn, id);
    if id in s.live {
      var w := Waiter(conn, ForStop);
      WaiterKeeps(s, id, w, t);
      var waiting := Outcome(AddWaiter(s, id, w), [Deferred(s.live[id].token, w)], None);
      if !s.live[id].stopRequested {
        StopMarkKeeps(waiting.state, id, t);
        KeepsTwice(s, waiting, Outcome(r.state, [], None), t);
        assert waiting.notes + [] == r.notes;
      }
    } else {
      QuietKeeps(s, s, t);
    }
  }

  lemma RunKeeps(s: State, id: string, spec: Spec, luck: Luck, t: nat)
    requires Inv(s)
    ensures Keeps(s, OpRun(s, id, spec, luck), t)
  {
    if id in s.store {
      QuietKeeps(s, s, t);
    } else {
      var stored := s.(store := s.store[id := spec]);
      QuietKeeps(s, stored, t);
      LaunchKeeps(stored, id, spec, luck, t);
      var launched := Launch(stored, id, spec, luck);
      KeepsTwice(s, Outcome(stored, [], None), Outcome(launched, [], None), t);
      if !luck.Spawned? {
        QuietKeeps(launched, Purge(launched, id), t);
        KeepsTwice(s, Outcome(launched, [], None), Outcome(Purge(launched, id), [], None), t);
      }
    }
  }

  lemma StartKeeps(s: State, id: string, luck: Luck, forgetStop: bool, t: nat)
    requires Inv(s)
    ensures Keeps(s, OpStart(s, id, luck, forgetStop), t)
  {
    if id in s.store && id !in s.live {
      assert s.(userStopped := s.userStopped - {id}) == s;
      LaunchKeeps(s, id, s.store[id], luck, t);
    } else {
      QuietKeeps(s, s, t);
    }
  }

  lemma TaskKeeps(s: State, task: Task, now: nat, fate: Fate, t: nat)
    requires Inv(s)
    ensures Keeps(s, OnTask(s, task, now, fate.luck, fate.ending), t)
  {
    QuietKeeps(s, s, t);
    match task
    case Relaunch(id) => if id in s.store && id !in s.live { LaunchKeeps(s, id, s.store[id], fate.luck, t); }
    case RemoveExited(id) => if id !in s.live { QuietKeeps(s, Purge(s, id), t); }
    case ReapIdle(id) => ExitThenPurgeKeeps(s, id, fate.ending, t);
  }

  lemma {:induction false} TasksKeep(s: State, tasks: seq<Task>, now: nat, fates: seq<Fate>, t: nat)
    requires Inv(s) && |tasks| == |fates|
    ensures Keeps(s, RunTasks(s, tasks, now, fates), t)
    decreases |tasks|
  {
    if tasks == [] {
      QuietKeeps(s, s, t);
    } else {
      var first := OnTask(s, tasks[0], now, fates[0].luck, fates[0].ending);
      TaskKeeps(s, tasks[0], now, fates[0], t);
      TasksKeep(first.state, tasks[1..], now, fates[1..], t);
      KeepsTwice(s, first, RunTasks(first.state, tasks[1..], now, fates[1..]), t);
    }
  }

  lemma ReadableKeeps(s: State, token: nat, exited: bool, e: Ending, t: nat)
    requires Inv(s)
    ensures Keeps(s, OnPidfd(s, token, exited, e), t)
  {
    if token in s.pidTokens {
      var id := s.pidTokens[token];
      OnExitKeeps(s, id, if s.live[id].child then e else e.(code := None), t);
      QuietKeeps(s, s, t);
    } else {
      QuietKeeps(s, s, t);
    }
  }

  lemma TickKeeps(s: State, now: nat, fates: seq<Fate>, t: nat)
    requires Inv(s) && |fates| == |DueTasks(s.schedule, now)|
    ensures Keeps(s, OnTimer(s, now, fates), t)
  {
    var taken := s.(schedule := NotDue(s.schedule, now));
    QuietKeeps(s, taken, t);
    TasksKeep(taken, DueTasks(s.schedule, now), now, fates, t);
    var r := OnTimer(s, now, fates);
    KeepsTwice(s, Outcome(taken, [], None), r, t);
    assert [] + r.notes == r.notes;
  }

  lemma ExecKeeps(s: State, id: string, now: nat, t: nat)
    requires Inv(s)
    ensures Keeps(s, OpExec(s, id, now), t)
  {
    QuietKeeps(s, s, t);
  }

  lemma StepKeeps(s: State, ev: Event, t: nat)
    requires Inv(s) && Allows(s, ev)
    ensures Keeps(s, Step(s, ev), t)
  {
    match ev
    case AdoptOne(id, luck) =>
      if luck.Spawned? { EnterKeeps(s, id, s.store[id], false, luck.at, t); } else { QuietKeeps(s, Adopt(s, id, s.store[id], luck), t); }
    case TokenTaken => QuietKeeps(s, TakeToken(s), t);
    case ExecIn(id, now) => ExecKeeps(s, id, now, t);
    case RunNew(id, spec, luck) => RunKeeps(s, id, spec, luck, t);
    case StartAgain(id, luck, forgetStop) => StartKeeps(s, id, luck, forgetStop, t);
    case StopOne(conn, id) => StopKeeps(s, conn, id, t);
    case WaitFor(conn, id) => if id in s.live { WaiterKeeps(s, id, Waiter(conn, ForExit), t); } else { QuietKeeps(s, s, t); }
    case RemoveOne(id, force, e) => QuietKeeps(s, s, t); ExitThenPurgeKeeps(s, id, e, t);
    case Readable(token, exited, e) => ReadableKeeps(s, token, exited, e, t);
    case Tick(now, fates) => TickKeeps(s, now, fates, t);
  }

  /** Main result. Over every run the two maps stay inverse, no token comes back, and under each token what was
      deferred is what was answered plus what still waits; a retired token neither owes nor pays again. */
  lemma {:induction false} EveryRunKeepsTheBooks(s: State, evs: seq<Event>, t: nat)
    requires Inv(s) && Possible(s, evs)
    ensures Keeps(s, Play(s, evs), t)
    decreases |evs|
  {
    if evs == [] {
      QuietKeeps(s, s, t);
    } else {
      var first := Step(s, evs[0]);
      StepKeeps(s, evs[0], t);
      EveryRunKeepsTheBooks(first.state, evs[1..], t);
      KeepsTwice(s, first, Play(first.state, evs[1..]), t);
    }
  }

  /** From start-up: what was deferred under a token and not yet answered is exactly what waits on its life. */
  lemma RequestsAreAnsweredOnce(store: map<string, Spec>, evs: seq<Event>, t: nat)
    requires Possible(Boot(store), evs)
    ensures var r := Play(Boot(store), evs);
      && Inv(r.state)
      && Owed(r.notes, t) == Paid(r.notes, t) + Pending(r.state, t)
      && (t !in r.state.pidTokens ==> Owed(r.notes, t) == Paid(r.notes, t))
  {
    EveryRunKeepsTheBooks(Boot(store), evs, t);
  }

  // ----- a request is answered by the exit of its own container

  /** No request is deferred, and a life that goes on answers nobody. */
  predicate Survives(s: State, r: Outcome, t: nat) {
    Owed(r.notes, t) == multiset{} && (t in s.pidTokens && t in r.state.pidTokens ==> Paid(r.notes, t) == multiset{})
  }

  lemma ExitSurvives(s: State, id: string, e: Ending, t: nat)
    requires Inv(s)
    ensures Survives(s, OnExit(s, id, e), t)
  {
    if id in s.live {
      AnswersPayAll(s.live[id].token, s.live[id].waiters, GetOr(e.code, -1), t);
    }
  }

  lemma TaskSurvives(s: State, task: Task, now: nat, fate: Fate, t: nat)
    requires Inv(s)
    ensures Survives(s, OnTask(s, task, now, fate.luck, fate.ending), t)
  {
    ExitSurvives(s, task.id, fate.ending, t);
  }

  lemma SurvivesTwice(s: State, a: Outcome, b: Outcome, t: nat)
    requires Keeps(s, a, t) && Keeps(a.state, b, t) && s.nextToken <= a.state.nextToken
    requires t in s.pidTokens ==> t <= s.nextToken
    requires Survives(s, a, t) && Survives(a.state, b, t)
    ensures Survives(s, Outcome(b.state, a.notes + b.notes, None), t)
  {
    LedgerConcat(a.notes, b.notes, t);
    assert t in s.pidTokens && t !in a.state.pidTokens ==> Retired(a.state, t);
  }

  lemma TaskTokens(s: State, task: Task, now: nat, fate: Fate)
    requires Inv(s)
    ensures s.nextToken <= OnTask(s, task, now, fate.luck, fate.ending).state.nextToken
  {
  }

  lemma {:induction false} TasksSurvive(s: State, tasks: seq<Task>, now: nat, fates: seq<Fate>, t: nat)
    requires Inv(s) && |tasks| == |fates|
    ensures Survives(s, RunTasks(s, tasks, now, fates), t)
    decreases |tasks|
  {
    if tasks != [] {
      var first := OnTask(s, tasks[0], now, fates[0].luck, fates[0].ending);
      TaskKeeps(s, tasks[0], now, fates[0], t);
      TaskSurvives(s, tasks[0], now, fates[0], t);
      TaskTokens(s, tasks[0], now, fates[0]);
      TasksSurvive(first.state, tasks[1..], now, fates[1..], t);
      TasksKeep(first.state, tasks[1..], now, fates[1..], t);
      SurvivesTwice(s, first, RunTasks(first.state, tasks[1..], now, fates[1..]), t);
    }
  }

  predicate Ends(s: State, s': State, t: nat) { t in s.pidTokens && t !in s'.pidTokens }

  /** An event answers exactly those who waited on the lives it ends, and all of them. */
  lemma AnswersComeFromTheExit(s: State, ev: Event, t: nat)
    requires Inv(s) && Allows(s, ev)
    ensures var r := Step(s, ev); Paid(r.notes, t) == if Ends(s, r.state, t) then Pending(s, t) else multiset{}
  {
    StepKeeps(s, ev, t);
    if ev.StopOne? || ev.WaitFor? {
      RequestsAnswerNobody(s, ev, t);
    } else {
      EventSurvives(s, ev, t);
      SurvivorsPayNothing(s, Step(s, ev), t);
    }
  }

  lemma RequestsAnswerNobody(s: State, ev: Event, t: nat)
    requires Allows(s, ev) && (ev.StopOne? || ev.WaitFor?)
    ensures var r := Step(s, ev); Paid(r.notes, t) == multiset{} && !Ends(s, r.state, t)
  {
    var r := Step(s, ev);
    assert r.notes == [] || r.notes[1..] == [];
  }

  lemma SurvivorsPayNothing(s: State, r: Outcome, t: nat)
    requires Balances(s, r, t) && Survives(s, r, t)
    ensures Paid(r.notes, t) == if Ends(s, r.state, t) then Pending(s, t) else multiset{}
  {
    var paid := Paid(r.notes, t);
    assert paid <= paid + Pending(r.state, t) == Pending(s, t);
  }

  lemma EventSurvives(s: State, ev: Event, t: nat)
    requires Inv(s) && Allows(s, ev) && !ev.StopOne? && !ev.WaitFor?
    ensures Survives(s, Step(s, ev), t)
  {
    match ev
    case Tick(now, fates) =>
      TasksSurvive(s.(schedule := NotDue(s.schedule, now)), DueTasks(s.schedule, now), now, fates, t);
    case RemoveOne(id, force, e) => ExitSurvives(s, id, e, t);
    case Readable(token, _, e) =>
      if token in s.pidTokens {
        var id := s.pidTokens[token];
        ExitSurvives(s, id, if s.live[id].child then e else e.(code := None), t);
      }
    case AdoptOne(_, _) =>
    case TokenTaken =>
    case ExecIn(_, _) =>
    case RunNew(_, _, _) =>
    case StartAgain(_, _, _) =>
  }

  /** Who waited hears the code, who stopped hears it is done, and who asks afterwards hears the same code. */
  lemma LateWaitHearsTheSame(s: State, id: string, e: Ending, k: nat, conn: nat)
    requires Inv(s) && id in s.live && k < |s.live[id].waiters|
    ensures var r := OnExit(s, id, e);
      var code := GetOr(e.code, -1);
      var w := s.live[id].waiters[k];
      && r.notes[k] == Answered(s.live[id].token, w, if w.kind.ForStop? then Done else Exited(code))
      && OpWait(r.state, conn, id) == Outcome(r.state, [], Some(Exited(code)))
  {
    assert id in s.store;
  }

  /** Start forgets an earlier stop that the exit has always forgotten already. */
  lemma ForgettingAStopChangesNothing(s: State, id: string, luck: Luck)
    requires Inv(s)
    ensures OpStart(s, id, luck, true) == OpStart(s, id, luck, false)
  {
    if id !in s.live { assert s.userStopped - {id} == s.userStopped; }
  }

  // ----- does a stopped container stay down?

  /** No relaunch is planned, and if it still runs its stop has been asked for. */
  ghost predicate Quiet(s: State, id: string) {
    && (forall d <- s.schedule :: d.task != Relaunch(id))
    && (id in s.live ==> s.live[id].stopRequested)
  }

  predicate Starts(ev: Event, id: string) {
    (ev.RunNew? || ev.StartAgain? || ev.AdoptOne?) && ev.id == id
  }

  lemma DueAreScheduled(schedule: seq<Due>, now: nat)
    ensures forall task <- DueTasks(schedule, now) :: exists d <- schedule :: d.task == task
    ensures forall d <- NotDue(schedule, now) :: d in schedule
  {
  }

  lemma ExitQuiet(s: State, id: string, other: string, e: Ending)
    requires Inv(s) && Quiet(s, id)
    ensures Quiet(OnExit(s, other, e).state, id)
    ensures id !in s.live ==> id !in OnExit(s, other, e).state.live
  {
    if other == id && id in s.live { assert id in s.userStopped; }
  }

  lemma TaskQuiet(s: State, task: Task, now: nat, fate: Fate, id: string)
    requires Inv(s) && Quiet(s, id) && task != Relaunch(id)
    ensures var r := OnTask(s, task, now, fate.luck, fate.ending);
      Quiet(r.state, id) && (id !in s.live ==> id !in r.state.live)
  {
    ExitQuiet(s, id, task.id, fate.ending);
  }

  lemma {:induction false} TasksQuiet(s: State, tasks: seq<Task>, now: nat, fates: seq<Fate>, id: string)
    requires Inv(s) && Quiet(s, id) && |tasks| == |fates| && Relaunch(id) !in tasks
    ensures var r := RunTasks(s, tasks, now, fates); Quiet(r.state, id) && (id !in s.live ==> id !in r.state.live)
    decreases |tasks|
  {
    if tasks != [] {
      TaskKeeps(s, tasks[0], now, fates[0], 0);
      TaskQuiet(s, tasks[0], now, fates[0], id);
      TasksQuiet(OnTask(s, tasks[0], now, fates[0].luck, fates[0].ending).state, tasks[1..], now, fates[1..], id);
    }
  }

  lemma TickQuiet(s: State, now: nat, fates: seq<Fate>, id: string)
    requires Inv(s) && Quiet(s, id) && |fates| == |DueTasks(s.schedule, now)|
    ensures var r := OnTimer(s, now, fates); Quiet(r.state, id) && (id !in s.live ==> id !in r.state.live)
  {
    var taken := s.(schedule := NotDue(s.schedule, now));
    DueAreScheduled(s.schedule, now);
    QuietKeeps(s, taken, 0);
    TasksQuiet(taken, DueTasks(s.schedule, now), now, fates, id);
  }

  lemma ReadableQuiet(s: State, token: nat, exited: bool, e: Ending, id: string)
    requires Inv(s) && Quiet(s, id)
    ensures var r := OnPidfd(s, token, exited, e); Quiet(r.state, id) && (id !in s.live ==> id !in r.state.live)
  {
    if token in s.pidTokens {
      var other := s.pidTokens[token];
      ExitQuiet(s, id, other, if s.live[other].child then e else e.(code := None));
    }
  }

  lemma LaunchQuiet(s: State, id: string, other: string, spec: Spec, luck: Luck)
    requires Quiet(s, id) && other != id
    ensures Quiet(Launch(s, other, spec, luck), id) && Quiet(Adopt(s, other, spec, luck), id)
    ensures id !in s.live ==> id !in Launch(s, other, spec, luck).live && id !in Adopt(s, other, spec, luck).live
  {
  }

  lemma StepQuiet(s: State, ev: Event, id: string)
    requires Inv(s) && Allows(s, ev) && Quiet(s, id) && !Starts(ev, id)
    ensures var r := Step(s, ev); Quiet(r.state, id) && (id !in s.live ==> id !in r.state.live)
  {
    match ev
    case Tick(now, fates) => TickQuiet(s, now, fates, id);
    case RemoveOne(other, force, e) => ExitQuiet(s, id, other, e);
    case Readable(token, exited, e) => ReadableQuiet(s, token, exited, e, id);
    case AdoptOne(other, luck) => LaunchQuiet(s, id, other, s.store[other], luck);
    case RunNew(other, spec, luck) => LaunchQuiet(s.(store := s.store[other := spec]), id, other, spec, luck);
    case StartAgain(other, luck, forgetStop) =>
      if other in s.store {
        LaunchQuiet(if forgetStop then s.(userStopped := s.userStopped - {other}) else s, id, other, s.store[other], luck);
      }
    case TokenTaken =>
    case ExecIn(_, _) =>
    case StopOne(_, _) =>
    case WaitFor(_, _) =>
  }

  /** Once stopped with no relaunch planned, a container is down until somebody starts it. */
  lemma {:induction false} StoppedStaysDown(s: State, evs: seq<Event>, id: string)
    requires Inv(s) && Possible(s, evs) && Quiet(s, id)
    requires forall ev <- evs :: !Starts(ev, id)
    ensures var r := Play(s, evs); Quiet(r.state, id) && (id !in s.live ==> id !in r.state.live)
    decreases |evs|
  {
    if evs != [] {
      StepKeeps(s, evs[0], 0);
      StepQuiet(s, evs[0], id);
      StoppedStaysDown(Step(s, evs[0]).state, evs[1..], id);
    }
  }

  /** The first due task that does something to a container that is down is a relaunch. */
  predicate Returns(tasks: seq<Task>, id: string, persistent: bool) {
    if tasks == [] then false
    else if tasks[0] == Relaunch(id) then true
    else if tasks[0] == RemoveExited(id) && !persistent then false
    else Returns(tasks[1..], id, persistent)
  }

  /** The launch succeeds, at the tick or after it. */
  predicate Kind(fate: Fate, now: nat) { fate.luck.Spawned? && fate.luck.at >= now }

  lemma {:induction false} LiveStays(s: State, tasks: seq<Task>, now: nat, fates: seq<Fate>, id: string)
    requires id in s.live && s.live[id].lastActivity >= now && |tasks| == |fates| && forall fate <- fates :: Kind(fate, now)
    ensures id in RunTasks(s, tasks, now, fates).state.live
    decreases |tasks|
  {
    if tasks != [] {
      assert Kind(fates[0], now);
      var first := OnTask(s, tasks[0], now, fates[0].luck, fates[0].ending);
      LiveStays(first.state, tasks[1..], now, fates[1..], id);
    }
  }

  lemma {:induction false} GoneStaysGone(s: State, tasks: seq<Task>, now: nat, fates: seq<Fate>, id: string)
    requires Inv(s) && id !in s.store && |tasks| == |fates|
    ensures id !in RunTasks(s, tasks, now, fates).state.live
    decreases |tasks|
  {
    if tasks != [] {
      var first := OnTask(s, tasks[0], now, fates[0].luck, fates[0].ending);
      TaskKeeps(s, tasks[0], now, fates[0], 0);
      GoneStaysGone(first.state, tasks[1..], now, fates[1..], id);
    }
  }

  /** What one task does to a container that is down. */
  lemma TaskOnDown(s: State, task: Task, now: nat, fate: Fate, id: string)
    requires id in s.store && id !in s.live
    ensures var s' := OnTask(s, task, now, fate.luck, fate.ending).state;
      && (id in s'.live <==> task == Relaunch(id) && fate.luck.Spawned?)
      && (id in s'.live ==> s'.live[id].lastActivity == fate.luck.at)
      && (id !in s'.store <==> task == RemoveExited(id) && !s.store[id].persistent)
      && (id in s'.store ==> s'.store[id].persistent == s.store[id].persistent)
  {
  }

  lemma {:induction false} TasksReturn(s: State, tasks: seq<Task>, now: nat, fates: seq<Fate>, id: string)
    requires Inv(s) && id in s.store && id !in s.live && |tasks| == |fates|
    ensures !Returns(tasks, id, s.store[id].persistent) ==> id !in RunTasks(s, tasks, now, fates).state.live
    ensures Returns(tasks, id, s.store[id].persistent) && (forall fate <- fates :: Kind(fate, now))
      ==> id in RunTasks(s, tasks, now, fates).state.live
    decreases |tasks|
  {
    if tasks != [] {
      var first := OnTask(s, tasks[0], now, fates[0].luck, fates[0].ending);
      TaskKeeps(s, tasks[0], now, fates[0], 0);
      TaskOnDown(s, tasks[0], now, fates[0], id);
      assert (forall fate <- fates :: Kind(fate, now)) ==> Kind(fates[0], now);
      if id in first.state.live {
        if forall fate <- fates :: Kind(fate, now) { LiveStays(first.state, tasks[1..], now, fates[1..], id); }
      } else if id !in first.state.store {
        GoneStaysGone(first.state, tasks[1..], now, fates[1..], id);
      } else {
        TasksReturn(first.state, tasks[1..], now, fates[1..], id);
      }
    }
  }

  /** A stop of a container that is down is answered at once; a later tick brings it back (when launches succeed)
      exactly if the first due task that concerns it is a relaunch planned before the stop. */
  lemma StoppedComesBackExactly(s: State, conn: nat, id: string, now: nat, fates: seq<Fate>)
    requires Inv(s) && id in s.store && id !in s.live
    requires Allows(s, Tick(now, fates)) && forall fate <- fates :: Kind(fate, now)
    ensures OpStop(s, conn, id) == Outcome(s, [], Some(Done))
    ensures id in Step(s, Tick(now, fates)).state.live
       <==> Returns(DueTasks(s.schedule, now), id, s.store[id].persistent)
  {
    TasksReturn(s.(schedule := NotDue(s.schedule, now)), DueTasks(s.schedule, now), now, fates, id);
  }

  const WEB: string := "web"
  const CRASH: Ending := Ending(Some(1), false, 0)
  const SERVER: Spec := Spec(true, Always, None, None)
  const CRASHED: seq<Event> := [RunNew(WEB, SERVER, Spawned(0)), Readable(101, true, CRASH)]
  const FIRST_TRY: seq<Event> := [Tick(100, [Fate(Spawned(100), CRASH)])]

  lemma PlayFirst(s: State, evs: seq<Event>)
    requires evs != [] && Allows(s, evs[0]) && Possible(Step(s, evs[0]).state, evs[1..])
    ensures Possible(s, evs) && Play(s, evs).state == Play(Step(s, evs[0]).state, evs[1..]).state
  {
  }

  /** The case happens: a container crashes, its user stops it and is told it is done, and the next tick starts it. */
  lemma StopMayBeUndone()
    ensures Possible(Boot(map[]), CRASHED)
    ensures var s := Play(Boot(map[]), CRASHED).state;
      && OpStop(s, 7, WEB) == Outcome(s, [], Some(Done))
      && Possible(s, FIRST_TRY)
      && WEB in Play(s, FIRST_TRY).state.live
  {
    var s0 := Boot(map[]);
    var s1 := Step(s0, CRASHED[0]).state;
    assert s1.live[WEB] == Life(SERVER, 101, true, [], false, 0) && s1.pidTokens[101] == WEB;
    var s2 := Step(s1, CRASHED[1]).state;
    assert Double(0) == 1 && RestartDelay(0) == 100;
    assert s2.schedule == [Due(100, Relaunch(WEB))];
    assert CRASHED[1..][1..] == [];
    PlayFirst(s1, CRASHED[1..]);
    PlayFirst(s0, CRASHED);
    assert DueTasks(s2.schedule, 100) == [Relaunch(WEB)];
    assert WEB in s2.store && WEB !in s2.live;
    assert FIRST_TRY[1..] == [];
    PlayFirst(s2, FIRST_TRY);
    StoppedComesBackExactly(s2, 7, WEB, 100, FIRST_TRY[0].fates);
  }
}
