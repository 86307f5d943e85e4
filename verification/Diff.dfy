/** The difference between the containers wanted and the containers there. */
module Diff {
  import opened Order

  datatype Item = Item(name: string, hash: string)

  datatype Actual = Actual(name: string, hash: string, running: bool)

  datatype Plan = Plan(
    create: seq<string>,
    recreate: seq<string>,
    start: seq<string>,
    keep: seq<string>,
    remove: seq<string>)
  {
    predicate IsNoop() { create == [] && recreate == [] && start == [] && remove == [] }
  }

  datatype Verdict = Missing | Changed | Stopped | Same

  /** Later entries of a name win, as when a map is collected from a list. */
  function Have(actual: seq<Actual>): map<string, Actual> {
    if actual == [] then map[]
    else
      var last := actual[|actual| - 1];
      Have(actual[..|actual| - 1])[last.name := last]
  }

  function Judge(item: Item, have: map<string, Actual>): Verdict {
    if item.name !in have then Missing
    else if have[item.name].hash != item.hash then Changed
    else if !have[item.name].running then Stopped
    else Same
  }

  /** The names of the items that get a verdict, in the order they are wanted. */
  function Judged(desired: seq<Item>, have: map<string, Actual>, v: Verdict): seq<string> {
    if desired == [] then []
    else
      var n := |desired| - 1;
      Judged(desired[..n], have, v) + (if Judge(desired[n], have) == v then [desired[n].name] else [])
  }

  predicate Wanted(desired: seq<Item>, name: string) {
    exists i :: 0 <= i < |desired| && desired[i].name == name
  }

  function Unwanted(desired: seq<Item>, actual: seq<Actual>): seq<string> {
    if actual == [] then []
    else (if Wanted(desired, actual[0].name) then [] else [actual[0].name]) + Unwanted(desired, actual[1..])
  }

  function DiffOf(desired: seq<Item>, actual: seq<Actual>): Plan {
    var have := Have(actual);
    Plan(
      Judged(desired, have, Missing), Judged(desired, have, Changed),
      Judged(desired, have, Stopped), Judged(desired, have, Same),
      Sort(Unwanted(desired, actual), Leq))
  }

  method ComputeDiff(desired: seq<Item>, actual: seq<Actual>) returns (plan: Plan)
    ensures plan == DiffOf(desired, actual)
  {
    var have: map<string, Actual> := map[];
    for k := 0 to |actual|
      invariant have == Have(actual[..k])
    {
      assert actual[..k + 1][..k] == actual[..k];
      have := have[actual[k].name := actual[k]];
    }
    assert actual[..|actual|] == actual;
    plan := Plan([], [], [], [], []);
    for k := 0 to |desired|
      invariant plan.create == Judged(desired[..k], have, Missing)
      invariant plan.recreate == Judged(desired[..k], have, Changed)
      invariant plan.start == Judged(desired[..k], have, Stopped)
      invariant plan.keep == Judged(desired[..k], have, Same)
      invariant plan.remove == []
    {
      var item := desired[k];
      assert desired[..k + 1][..k] == desired[..k];
      match Judge(item, have) {
        case Missing => plan := plan.(create := plan.create + [item.name]);
        case Changed => plan := plan.(recreate := plan.recreate + [item.name]);
        case Stopped => plan := plan.(start := plan.start + [item.name]);
        case Same => plan := plan.(keep := plan.keep + [item.name]);
      }
    }
    assert desired[..|desired|] == desired;
    plan := plan.(remove := Sort(Unwanted(desired, actual), Leq));
  }

  // ----- what the plan says

  function Names(desired: seq<Item>): seq<string> {
    seq(|desired|, i requires 0 <= i < |desired| => desired[i].name)
  }

  /** The items of each verdict together, as a multiset of names. */
  ghost function AllJudged(desired: seq<Item>, have: map<string, Actual>): multiset<string> {
    multiset(Judged(desired, have, Missing)) + multiset(Judged(desired, have, Changed)) +
    (multiset(Judged(desired, have, Stopped)) + multiset(Judged(desired, have, Same)))
  }

  lemma AllJudgedLast(desired: seq<Item>, have: map<string, Actual>)
    requires desired != []
    ensures AllJudged(desired, have) == AllJudged(desired[..|desired| - 1], have) + multiset{desired[|desired| - 1].name}
  {
    var n := |desired| - 1;
    forall v ensures multiset(Judged(desired, have, v)) ==
      multiset(Judged(desired[..n], have, v)) + (if Judge(desired[n], have) == v then multiset{desired[n].name} else multiset{})
    {
    }
  }

  /** Every wanted item lands in exactly one of the four lists. */
  lemma {:induction false} PlanPartitions(desired: seq<Item>, have: map<string, Actual>)
    ensures AllJudged(desired, have) == multiset(Names(desired))
  {
    if desired != [] {
      var n := |desired| - 1;
      PlanPartitions(desired[..n], have);
      AllJudgedLast(desired, have);
      NamesLast(desired);
    } else {
      assert Names(desired) == [];
    }
  }

  lemma NamesLast(desired: seq<Item>)
    requires desired != []
    ensures multiset(Names(desired)) == multiset(Names(desired[..|desired| - 1])) + multiset{desired[|desired| - 1].name}
  {
    assert Names(desired) == Names(desired[..|desired| - 1]) + [desired[|desired| - 1].name];
  }

  lemma {:induction false} JudgedMembers(desired: seq<Item>, have: map<string, Actual>, v: Verdict, name: string)
    ensures name in Judged(desired, have, v) <==>
      exists i :: 0 <= i < |desired| && desired[i].name == name && Judge(desired[i], have) == v
  {
    if desired != [] {
      var n := |desired| - 1;
      JudgedMembers(desired[..n], have, v, name);
      if name in Judged(desired[..n], have, v) {
        var i :| 0 <= i < n && desired[..n][i].name == name && Judge(desired[..n][i], have) == v;
        assert desired[i].name == name && Judge(desired[i], have) == v;
      }
      if exists i :: 0 <= i < |desired| && desired[i].name == name && Judge(desired[i], have) == v {
        var i :| 0 <= i < |desired| && desired[i].name == name && Judge(desired[i], have) == v;
        if i < n {
          assert desired[..n][i] == desired[i];
        }
      }
    }
  }

  lemma {:induction false} UnwantedMembers(desired: seq<Item>, actual: seq<Actual>, name: string)
    ensures name in Unwanted(desired, actual) <==>
      !Wanted(desired, name) && exists i :: 0 <= i < |actual| && actual[i].name == name
  {
    if actual != [] {
      UnwantedMembers(desired, actual[1..], name);
      if exists i :: 0 <= i < |actual[1..]| && actual[1..][i].name == name {
        var i :| 0 <= i < |actual[1..]| && actual[1..][i].name == name;
        assert actual[i + 1].name == name;
      }
      if exists i :: 0 <= i < |actual| && actual[i].name == name {
        var i :| 0 <= i < |actual| && actual[i].name == name;
        if i > 0 {
          assert actual[1..][i - 1].name == name;
        }
      }
    }
  }

  lemma RemovedMembers(desired: seq<Item>, actual: seq<Actual>, name: string)
    ensures name in DiffOf(desired, actual).remove <==>
      !Wanted(desired, name) && exists i :: 0 <= i < |actual| && actual[i].name == name
  {
    SortMembers(Unwanted(desired, actual), Leq);
    UnwantedMembers(desired, actual, name);
  }

  lemma RemovalsAreSorted(desired: seq<Item>, actual: seq<Actual>)
    ensures Sorted(DiffOf(desired, actual).remove, Leq)
  {
    LeqIsTotalOrder();
    SortSorted(Unwanted(desired, actual), Leq);
  }

  /** There is nothing to do exactly when every wanted container runs with the wanted hash
      and no other container is there. */
  lemma NoopMeansMatching(desired: seq<Item>, actual: seq<Actual>)
    ensures DiffOf(desired, actual).IsNoop() <==>
      && (forall i :: 0 <= i < |desired| ==>
          desired[i].name in Have(actual) && Have(actual)[desired[i].name].hash == desired[i].hash
          && Have(actual)[desired[i].name].running)
      && (forall i :: 0 <= i < |actual| ==> Wanted(desired, actual[i].name))
  {
    var have, plan := Have(actual), DiffOf(desired, actual);
    forall i | 0 <= i < |desired| && plan.IsNoop() ensures Judge(desired[i], have) == Same {
      JudgedMembers(desired, have, Judge(desired[i], have), desired[i].name);
    }
    forall i | 0 <= i < |actual| && plan.IsNoop() ensures Wanted(desired, actual[i].name) {
      RemovedMembers(desired, actual, actual[i].name);
    }
    if (forall i :: 0 <= i < |desired| ==> Judge(desired[i], have) == Same) &&
       (forall i :: 0 <= i < |actual| ==> Wanted(desired, actual[i].name)) {
      EmptyLists(desired, actual);
    }
    assert forall i :: 0 <= i < |desired| ==> (Judge(desired[i], have) == Same <==>
      desired[i].name in have && have[desired[i].name].hash == desired[i].hash && have[desired[i].name].running);
  }

  lemma EmptyLists(desired: seq<Item>, actual: seq<Actual>)
    requires forall i :: 0 <= i < |desired| ==> Judge(desired[i], Have(actual)) == Same
    requires forall i :: 0 <= i < |actual| ==> Wanted(desired, actual[i].name)
    ensures DiffOf(desired, actual).IsNoop()
  {
    var plan := DiffOf(desired, actual);
    forall name ensures name !in plan.create && name !in plan.recreate && name !in plan.start && name !in plan.remove {
      JudgedMembers(desired, Have(actual), Missing, name);
      JudgedMembers(desired, Have(actual), Changed, name);
      JudgedMembers(desired, Have(actual), Stopped, name);
      RemovedMembers(desired, actual, name);
    }
    NonemptyHasMember(plan.create);
    NonemptyHasMember(plan.recreate);
    NonemptyHasMember(plan.start);
    NonemptyHasMember(plan.remove);
  }

  lemma NonemptyHasMember(xs: seq<string>)
    ensures xs != [] ==> exists x :: x in xs
  {
    if xs != [] {
      assert xs[0] in xs;
    }
  }

  lemma {:induction false} HaveAt(actual: seq<Actual>, name: string)
    ensures name in Have(actual) <==> exists i :: 0 <= i < |actual| && actual[i].name == name
    ensures name in Have(actual) ==> Have(actual)[name] in actual && Have(actual)[name].name == name
  {
    if actual != [] {
      var n := |actual| - 1;
      HaveAt(actual[..n], name);
      if exists i :: 0 <= i < |actual| && actual[i].name == name {
        var i :| 0 <= i < |actual| && actual[i].name == name;
        if i < n {
          assert actual[..n][i].name == name;
        }
      }
      if exists i :: 0 <= i < n && actual[..n][i].name == name {
        var i :| 0 <= i < n && actual[..n][i].name == name;
        assert actual[i].name == name;
      }
      assert actual[n] in actual;
    }
  }
}
