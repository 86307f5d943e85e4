/** Carrying the start-up plan out: what it leaves, and that a second plan changes nothing. */
module ReconcileRuns {
  import opened Order
  import opened Reconcile

  // ----- each id is cleaned once

  /** The specs of an id: at most one when ids are distinct. */
  function Copies(specs: seq<Spec>, id: string): nat {
    if specs == [] then 0 else Copies(specs[..|specs| - 1], id) + if specs[|specs| - 1].id == id then 1 else 0
  }

  lemma {:induction false} CleanedPerSpec(specs: seq<Spec>, o: Observed, id: string)
    ensures multiset(ForSpecs(specs, o))[CleanRuntime(id)] == if Running(o, id) then 0 else Copies(specs, id)
  {
    if specs != [] {
      var n := |specs| - 1;
      CleanedPerSpec(specs[..n], o, id);
      CleanedByOne(specs[n], o, id);
    }
  }

  lemma CleanedByOne(s: Spec, o: Observed, id: string)
    ensures multiset(ForSpec(s, o))[CleanRuntime(id)] == if s.id == id && !Running(o, id) then 1 else 0
  {
    var tail := [if s.persistent then MarkStopped(s.id) else RemoveSpec(s.id), CleanRuntime(s.id)];
    assert multiset(tail)[CleanRuntime(id)] == if s.id == id then 1 else 0;
  }

  lemma {:induction false} CleanedLeftovers(ids: seq<string>, adopted: set<string>, cleaned: set<string>, id: string)
    ensures multiset(ForLeftovers(ids, adopted, cleaned))[CleanRuntime(id)]
         == if id in ids && id !in adopted && id !in cleaned then 1 else 0
  {
    if ids != [] {
      var n := |ids| - 1;
      CleanedLeftovers(ids[..n], adopted, cleaned, id);
      assert ids == ids[..n] + [ids[n]];
    }
  }

  lemma NotThere(xs: seq<Action>, a: Action)
    requires a !in xs
    ensures multiset(xs)[a] == 0
  {
    assert a !in multiset(xs);
  }

  /** How often an id is cleaned: once per spec that is down, else once if it left something behind. */
  lemma CleanedExactly(specs: seq<Spec>, o: Observed, id: string)
    ensures multiset(PlanOf(specs, o))[CleanRuntime(id)] ==
      if Running(o, id) && id in Known(specs) then 0
      else if id in Known(specs) then Copies(specs, id)
      else if id in o.leftovers then 1 else 0
  {
    var adopted := Adopted(specs, o);
    var a := CleanRuntime(id);
    var unknown := ForUnknown(Ascending(Unknown(specs, o)));
    var veths := ForVeths(Sort(o.veths, Leq), KeptVeths(adopted));
    var tags := ForTags(Sort(o.tags, Leq), KeptTags(adopted));
    ForUnknownExact(Ascending(Unknown(specs, o)), a);
    ForVethsExact(Sort(o.veths, Leq), KeptVeths(adopted), a);
    ForTagsExact(Sort(o.tags, Leq), KeptTags(adopted), a);
    NotThere(unknown, a);
    NotThere(veths, a);
    NotThere(tags, a);
    CleanedPerSpec(specs, o, id);
    CopiesOfUnknown(specs, id);
    SortMembers(o.leftovers, Leq);
    CleanedLeftovers(Sort(o.leftovers, Leq), adopted, Down(specs, o), id);
    SetsExact(specs, o, id);
  }

  lemma {:induction false} CopiesOfUnknown(specs: seq<Spec>, id: string)
    ensures Copies(specs, id) > 0 <==> id in Known(specs)
  {
    if specs != [] {
      var n := |specs| - 1;
      CopiesOfUnknown(specs[..n], id);
      assert specs == specs[..n] + [specs[n]];
    }
  }

  /** With distinct ids nothing is cleaned twice. */
  lemma CleanedAtMostOnce(specs: seq<Spec>, o: Observed, id: string)
    requires forall i, j :: 0 <= i < j < |specs| ==> specs[i].id != specs[j].id
    ensures multiset(PlanOf(specs, o))[CleanRuntime(id)] <= 1
  {
    CleanedExactly(specs, o, id);
    DistinctCopies(specs, id);
  }

  lemma {:induction false} DistinctCopies(specs: seq<Spec>, id: string)
    requires forall i, j :: 0 <= i < j < |specs| ==> specs[i].id != specs[j].id
    ensures Copies(specs, id) <= 1
  {
    if specs != [] {
      var n := |specs| - 1;
      DistinctCopies(specs[..n], id);
      CopiesOfUnknown(specs[..n], id);
    }
  }

  // ----- kill before remove

  /** Every removal of the cgroup comes right after its kill. */
  ghost predicate KilledFirst(actions: seq<Action>, id: string) {
    forall i :: 0 <= i < |actions| && actions[i] == RemoveCgroup(id) ==> i > 0 && actions[i - 1] == KillCgroup(id)
  }

  lemma KilledFirstConcat(a: seq<Action>, b: seq<Action>, id: string)
    requires KilledFirst(a, id) && KilledFirst(b, id)
    ensures KilledFirst(a + b, id)
  {
    forall i | 0 <= i < |a + b| && (a + b)[i] == RemoveCgroup(id) ensures i > 0 && (a + b)[i - 1] == KillCgroup(id) {
      if i >= |a| { assert b[i - |a|] == RemoveCgroup(id); }
    }
  }

  lemma {:induction false} UnknownKilledFirst(ids: seq<string>, id: string)
    ensures KilledFirst(ForUnknown(ids), id)
  {
    if ids != [] {
      var n := |ids| - 1;
      UnknownKilledFirst(ids[..n], id);
      KilledFirstConcat(ForUnknown(ids[..n]), [KillCgroup(ids[n]), RemoveCgroup(ids[n])], id);
    }
  }

  lemma {:induction false} SpecsKilledFirst(specs: seq<Spec>, o: Observed, id: string)
    requires id !in Known(specs)
    ensures KilledFirst(ForSpecs(specs, o), id)
  {
    if specs != [] {
      var n := |specs| - 1;
      assert specs == specs[..n] + [specs[n]];
      SpecsKilledFirst(specs[..n], o, id);
      assert specs[n].id in Known(specs);
      KilledFirstConcat(ForSpecs(specs[..n], o), ForSpec(specs[n], o), id);
    }
  }

  /** The cgroup of an unknown container is killed right before it is removed. */
  lemma KilledBeforeRemoved(specs: seq<Spec>, o: Observed, id: string)
    requires id !in Known(specs)
    ensures KilledFirst(PlanOf(specs, o), id)
  {
    var judged, unknown := ForSpecs(specs, o), ForUnknown(Ascending(Unknown(specs, o)));
    var veths := ForVeths(Sort(o.veths, Leq), KeptVeths(Adopted(specs, o)));
    var tags := ForTags(Sort(o.tags, Leq), KeptTags(Adopted(specs, o)));
    var rest := ForLeftovers(Sort(o.leftovers, Leq), Adopted(specs, o), Down(specs, o));
    SpecsKilledFirst(specs, o, id);
    UnknownKilledFirst(Ascending(Unknown(specs, o)), id);
    ForVethsExact(Sort(o.veths, Leq), KeptVeths(Adopted(specs, o)), RemoveCgroup(id));
    ForTagsExact(Sort(o.tags, Leq), KeptTags(Adopted(specs, o)), RemoveCgroup(id));
    ForLeftoversExact(Sort(o.leftovers, Leq), Adopted(specs, o), Down(specs, o), RemoveCgroup(id));
    KilledFirstConcat(judged, unknown, id);
    KilledFirstConcat(judged + unknown, veths, id);
    KilledFirstConcat(judged + unknown + veths, tags, id);
    KilledFirstConcat(judged + unknown + veths + tags, rest, id);
  }

  // ----- the machine after the plan

  datatype World = World(specs: seq<Spec>, seen: Observed)

  function Without(xs: seq<string>, gone: set<string>): seq<string> {
    if xs == [] then [] else (if xs[0] in gone then [] else [xs[0]]) + Without(xs[1..], gone)
  }

  function WithoutSpecs(specs: seq<Spec>, gone: set<string>): seq<Spec> {
    if specs == [] then [] else (if specs[0].id in gone then [] else [specs[0]]) + WithoutSpecs(specs[1..], gone)
  }

  /** The effect each action names. */
  function Apply(w: World, a: Action): World {
    match a
    case Adopt(_) => w
    case MarkStopped(_) => w
    case RemoveSpec(id) => w.(specs := WithoutSpecs(w.specs, {id}))
    case CleanRuntime(id) => w.(seen := w.seen.(leftovers := Without(w.seen.leftovers, {id})))
    case KillCgroup(id) =>
      if id in w.seen.cgroups then w.(seen := w.seen.(cgroups := w.seen.cgroups[id := false])) else w
    case RemoveCgroup(id) => w.(seen := w.seen.(cgroups := w.seen.cgroups - {id}))
    case DeleteVeth(v) => w.(seen := w.seen.(veths := Without(w.seen.veths, {v})))
    case DeleteNftTag(t) => w.(seen := w.seen.(tags := Without(w.seen.tags, {t})))
  }

  function ApplyAll(w: World, actions: seq<Action>): World
    decreases |actions|
  {
    if actions == [] then w else ApplyAll(Apply(w, actions[0]), actions[1..])
  }

  lemma {:induction false} WithoutMembers(xs: seq<string>, gone: set<string>, x: string)
    ensures x in Without(xs, gone) <==> x in xs && x !in gone
  {
    if xs != [] {
      WithoutMembers(xs[1..], gone, x);
    }
  }

  lemma {:induction false} WithoutSpecsMembers(specs: seq<Spec>, gone: set<string>, s: Spec)
    ensures s in WithoutSpecs(specs, gone) <==> s in specs && s.id !in gone
  {
    if specs != [] {
      WithoutSpecsMembers(specs[1..], gone, s);
    }
  }

  lemma {:induction false} WithoutNone(xs: seq<string>, gone: set<string>)
    requires forall x <- xs :: x !in gone
    ensures Without(xs, gone) == xs
  {
    if xs != [] {
      WithoutNone(xs[1..], gone);
    }
  }

  /** What is left of the machine, item by item. */
  ghost predicate Remains(w: World, actions: seq<Action>, w': World) {
    && (forall s :: s in w'.specs <==> s in w.specs && RemoveSpec(s.id) !in actions)
    && (forall id :: id in w'.seen.cgroups <==> id in w.seen.cgroups && RemoveCgroup(id) !in actions)
    && (forall id <- w'.seen.cgroups :: id in w.seen.cgroups &&
          w'.seen.cgroups[id] == (w.seen.cgroups[id] && KillCgroup(id) !in actions))
    && (forall v :: v in w'.seen.veths <==> v in w.seen.veths && DeleteVeth(v) !in actions)
    && (forall t :: t in w'.seen.tags <==> t in w.seen.tags && DeleteNftTag(t) !in actions)
    && (forall id :: id in w'.seen.leftovers <==> id in w.seen.leftovers && CleanRuntime(id) !in actions)
  }

  lemma ApplyRemains(w: World, a: Action)
    ensures Remains(w, [a], Apply(w, a))
  {
    match a
    case RemoveSpec(id) =>
      forall s ensures s in Apply(w, a).specs <==> s in w.specs && s.id != id { WithoutSpecsMembers(w.specs, {id}, s); }
    case CleanRuntime(id) =>
      forall x ensures x in Apply(w, a).seen.leftovers <==> x in w.seen.leftovers && x != id {
        WithoutMembers(w.seen.leftovers, {id}, x);
      }
    case DeleteVeth(v) =>
      forall x ensures x in Apply(w, a).seen.veths <==> x in w.seen.veths && x != v {
        WithoutMembers(w.seen.veths, {v}, x);
      }
    case DeleteNftTag(t) =>
      forall x ensures x in Apply(w, a).seen.tags <==> x in w.seen.tags && x != t {
        WithoutMembers(w.seen.tags, {t}, x);
      }
    case Adopt(_) =>
    case MarkStopped(_) =>
    case KillCgroup(_) =>
    case RemoveCgroup(_) =>
  }

  lemma {:induction false} ApplyAllRemains(w: World, actions: seq<Action>)
    ensures Remains(w, actions, ApplyAll(w, actions))
    decreases |actions|
  {
    if actions != [] {
      var a, rest := actions[0], actions[1..];
      ApplyRemains(w, a);
      ApplyAllRemains(Apply(w, a), rest);
      assert forall b :: b in actions <==> b in [a] || b in rest;
    }
  }

  /** Nothing to do is nothing done: actions that touch nothing present leave the machine as it is. */
  ghost predicate Idle(w: World, a: Action) {
    match a
    case Adopt(_) => true
    case MarkStopped(_) => true
    case CleanRuntime(id) => id !in w.seen.leftovers
    case _ => false
  }

  lemma {:induction false} IdleChangesNothing(w: World, actions: seq<Action>)
    requires forall a <- actions :: Idle(w, a)
    ensures ApplyAll(w, actions) == w
    decreases |actions|
  {
    if actions != [] {
      var a := actions[0];
      assert Idle(w, a);
      if a.CleanRuntime? { WithoutNone(w.seen.leftovers, {a.id}); }
      assert Apply(w, a) == w;
      IdleChangesNothing(w, actions[1..]);
    }
  }

  /** The second plan: adopt again what runs, and go over the stopped containers that are kept. */
  ghost predicate Repeated(a: Action, first: seq<Action>) {
    match a
    case Adopt(_) => a in first
    case MarkStopped(id) => a in first && RemoveSpec(id) !in first
    case CleanRuntime(id) => MarkStopped(id) in first && RemoveSpec(id) !in first
    case _ => false
  }

  /** Main result. Once the plan is carried out, the next plan holds exactly the repeated actions. */
  lemma SecondPlan(w: World, a: Action)
    ensures var first := PlanOf(w.specs, w.seen);
      var w' := ApplyAll(w, first);
      a in PlanOf(w'.specs, w'.seen) <==> Repeated(a, first)
  {
    var first := PlanOf(w.specs, w.seen);
    var w' := ApplyAll(w, first);
    ApplyAllRemains(w, first);
    forall b ensures b in first <==> Warranted(b, w.specs, w.seen) { PlanExact(w.specs, w.seen, b); }
    PlanExact(w'.specs, w'.seen, a);
    RemainingRun(w, w', first);
    RemainingWarranted(w, w', first, a);
  }

  /** Afterwards a cgroup remains only for an adopted container, and it still runs. */
  lemma RemainingRun(w: World, w': World, first: seq<Action>)
    requires Remains(w, first, w') && forall b :: b in first <==> Warranted(b, w.specs, w.seen)
    ensures forall id <- w'.seen.cgroups :: id in Known(w.specs) && Running(w.seen, id) && Running(w'.seen, id)
    ensures forall id :: id in Known(w.specs) && Running(w.seen, id) ==> Running(w'.seen, id) && id in Known(w'.specs)
    ensures forall id :: id in Known(w'.specs) ==> id in Known(w.specs)
  {
    forall id <- w'.seen.cgroups ensures id in Known(w.specs) && Running(w.seen, id) && Running(w'.seen, id) {
      assert RemoveCgroup(id) !in first;
      assert !Warranted(KillCgroup(id), w.specs, w.seen);
    }
    forall id | id in Known(w.specs) && Running(w.seen, id) ensures Running(w'.seen, id) && id in Known(w'.specs) {
      assert !Warranted(RemoveCgroup(id), w.specs, w.seen) && !Warranted(KillCgroup(id), w.specs, w.seen);
      assert !Warranted(RemoveSpec(id), w.specs, w.seen);
      var s :| s in w.specs && s.id == id;
      assert s in w'.specs;
    }
    forall id | id in Known(w'.specs) ensures id in Known(w.specs) {
      var s :| s in w'.specs && s.id == id;
      assert s in w.specs;
    }
  }

  lemma RemainingWarranted(w: World, w': World, first: seq<Action>, a: Action)
    requires Remains(w, first, w') && forall b :: b in first <==> Warranted(b, w.specs, w.seen)
    requires forall id <- w'.seen.cgroups :: id in Known(w.specs) && Running(w.seen, id) && Running(w'.seen, id)
    requires forall id :: id in Known(w.specs) && Running(w.seen, id) ==> Running(w'.seen, id) && id in Known(w'.specs)
    requires forall id :: id in Known(w'.specs) ==> id in Known(w.specs)
    ensures Warranted(a, w'.specs, w'.seen) <==> Repeated(a, first)
  {
    match a
    case Adopt(id) =>
    case MarkStopped(id) =>
    case RemoveSpec(id) =>
      assert HasSpec(w'.specs, id, false) ==> HasSpec(w.specs, id, false) && a !in first;
      assert a in first <==> Warranted(a, w.specs, w.seen);
    case CleanRuntime(id) => RemainingCleaned(w, w', first, id);
    case KillCgroup(id) =>
    case RemoveCgroup(id) =>
    case DeleteVeth(v) => if v in w'.seen.veths { assert !Warranted(a, w.specs, w.seen); }
    case DeleteNftTag(t) => if t in w'.seen.tags { assert !Warranted(a, w.specs, w.seen); }
  }

  lemma RemainingCleaned(w: World, w': World, first: seq<Action>, id: string)
    requires Remains(w, first, w') && forall b :: b in first <==> Warranted(b, w.specs, w.seen)
    requires forall id <- w'.seen.cgroups :: id in Known(w.specs) && Running(w.seen, id) && Running(w'.seen, id)
    requires forall id :: id in Known(w.specs) && Running(w.seen, id) ==> Running(w'.seen, id) && id in Known(w'.specs)
    requires forall id :: id in Known(w'.specs) ==> id in Known(w.specs)
    ensures Warranted(CleanRuntime(id), w'.specs, w'.seen) <==> Repeated(CleanRuntime(id), first)
  {
    if id in w'.seen.leftovers {
      assert !Warranted(CleanRuntime(id), w.specs, w.seen);
    }
    if id in Known(w'.specs) && !Running(w'.seen, id) {
      var s :| s in w'.specs && s.id == id;
      assert s == Spec(id, s.persistent) && s in w.specs && RemoveSpec(id) !in first;
      assert !Running(w.seen, id);
      assert s.persistent && MarkStopped(id) in first by { assert !Warranted(RemoveSpec(id), w.specs, w.seen); }
    }
    if Repeated(CleanRuntime(id), first) {
      assert Warranted(MarkStopped(id), w.specs, w.seen);
      assert Spec(id, true) in w'.specs;
    }
  }

  /** Carrying the second plan out changes nothing: the machine is where the first plan left it. */
  lemma ReconcileOnce(w: World)
    ensures var w' := ApplyAll(w, PlanOf(w.specs, w.seen));
      ApplyAll(w', PlanOf(w'.specs, w'.seen)) == w'
  {
    var first := PlanOf(w.specs, w.seen);
    var w' := ApplyAll(w, first);
    var second := PlanOf(w'.specs, w'.seen);
    ApplyAllRemains(w, first);
    forall a <- second ensures Idle(w', a) {
      SecondPlan(w, a);
      if a.CleanRuntime? {
        PlanExact(w.specs, w.seen, MarkStopped(a.id));
        PlanExact(w.specs, w.seen, a);
        assert a.id in Known(w.specs) by { assert Spec(a.id, true) in w.specs; }
        assert a in first;
      }
    }
    IdleChangesNothing(w', second);
  }
}
