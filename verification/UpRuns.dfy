/** What a successful up leaves behind, and in which order it got there. */
module UpRuns {
  import opened Basics
  import opened Order
  import opened Diff
  import opened Up
  import Topo

  // ----- names

  /** All replicas in the order they are handled. */
  function SpecsOf(services: seq<Service>): seq<Spec> {
    if services == [] then [] else SpecsOf(services[..|services| - 1]) + services[|services| - 1].specs
  }

  ghost predicate NamesDistinct(specs: seq<Spec>) {
    forall i, j :: 0 <= i < j < |specs| ==> specs[i].name != specs[j].name
  }

  predicate Named(specs: seq<Spec>, name: string) {
    exists i :: 0 <= i < |specs| && specs[i].name == name
  }

  /** The listing shows exactly the containers, each once. */
  ghost predicate Lists(existing: seq<Actual>, cs: Containers) {
    && (forall i, j :: 0 <= i < j < |existing| ==> existing[i].name != existing[j].name)
    && (forall i :: 0 <= i < |existing| ==>
        existing[i].name in cs && cs[existing[i].name] == Container(existing[i].hash, existing[i].running))
    && (forall n :: n in cs ==> exists i :: 0 <= i < |existing| && existing[i].name == n)
  }

  /** No container carries the mark of a rotation as its revision. */
  ghost predicate NoneRotated(services: seq<Service>, cs: Containers) {
    forall s, spec, n :: s in services && s.forced && spec in s.specs && n in cs ==> cs[n].revision != spec.revision + ROTATE
  }

  lemma ListingIsHave(existing: seq<Actual>, cs: Containers, name: string)
    requires Lists(existing, cs)
    ensures name in Have(existing) <==> name in cs
    ensures name in cs ==> cs[name] == Container(Have(existing)[name].hash, Have(existing)[name].running)
  {
    HaveAt(existing, name);
  }

  // ----- the plan fits the containers it was made from

  /** What membership in the lists of the plan says about a replica. */
  predicate Fits(cs: Containers, plan: Plan, spec: Spec) {
    if spec.name in plan.recreate then spec.name in cs
    else if spec.name in plan.create then spec.name !in cs
    else if spec.name in plan.start then spec.name in cs && cs[spec.name] == Container(spec.revision, false)
    else spec.name in cs && cs[spec.name] == Container(spec.revision, true)
  }

  lemma {:induction false} DesiredAt(services: seq<Service>, k: nat)
    ensures |DesiredOf(services)| == |SpecsOf(services)|
    ensures k < |SpecsOf(services)| ==>
      var item, spec := DesiredOf(services)[k], SpecsOf(services)[k];
      && item.name == spec.name
      && exists s :: s in services && spec in s.specs && item.hash == spec.revision + (if s.forced then ROTATE else "")
  {
    if services != [] {
      var n := |services| - 1;
      var svc := services[n];
      DesiredAt(services[..n], k);
      var before := SpecsOf(services[..n]);
      if |before| <= k < |SpecsOf(services)| {
        var spec := svc.specs[k - |before|];
        assert SpecsOf(services)[k] == spec && svc in services && spec in svc.specs;
        assert DesiredOf(services)[k] == ItemsOf(svc.specs, svc.forced)[k - |before|];
      } else if k < |before| {
        assert SpecsOf(services)[k] == before[k];
        assert DesiredOf(services)[k] == DesiredOf(services[..n])[k];
      }
    }
  }

  lemma VerdictOf(prep: Prepared, existing: seq<Actual>, k: nat)
    requires NamesDistinct(SpecsOf(prep.services)) && k < |SpecsOf(prep.services)|
    ensures k < |DesiredOf(prep.services)|
    ensures var plan, name := MakePlan(prep, existing), SpecsOf(prep.services)[k].name;
      var verdict := Judge(DesiredOf(prep.services)[k], Have(existing));
      && (name in plan.create <==> verdict == Missing)
      && (name in plan.recreate <==> verdict == Changed)
      && (name in plan.start <==> verdict == Stopped)
  {
    var desired, have := DesiredOf(prep.services), Have(existing);
    var specs := SpecsOf(prep.services);
    DesiredAt(prep.services, k);
    var name := specs[k].name;
    forall i | 0 <= i < |desired| && desired[i].name == name ensures i == k {
      DesiredAt(prep.services, i);
    }
    JudgedMembers(desired, have, Missing, name);
    JudgedMembers(desired, have, Changed, name);
    JudgedMembers(desired, have, Stopped, name);
  }

  lemma PlanFits(prep: Prepared, existing: seq<Actual>, cs: Containers, k: nat)
    requires NamesDistinct(SpecsOf(prep.services)) && k < |SpecsOf(prep.services)|
    requires Lists(existing, cs) && NoneRotated(prep.services, cs)
    ensures Fits(cs, MakePlan(prep, existing), SpecsOf(prep.services)[k])
  {
    var spec := SpecsOf(prep.services)[k];
    VerdictOf(prep, existing, k);
    DesiredAt(prep.services, k);
    ListingIsHave(existing, cs, spec.name);
    var item := DesiredOf(prep.services)[k];
    var s :| s in prep.services && spec in s.specs && item.hash == spec.revision + (if s.forced then ROTATE else "");
    assert spec.revision + "" == spec.revision;
  }

  // ----- what the calls do

  /** The containers once some replicas are up. */
  function Overlay(cs: Containers, up: seq<Spec>): Containers {
    if up == [] then cs
    else
      var last := up[|up| - 1];
      Overlay(cs, up[..|up| - 1])[last.name := Container(last.revision, true)]
  }

  lemma {:induction false} OverlayAt(cs: Containers, up: seq<Spec>, name: string)
    ensures !Named(up, name) ==> Lookup(Overlay(cs, up), name) == Lookup(cs, name)
    ensures Named(up, name) ==> name in Overlay(cs, up) && Overlay(cs, up)[name].running
  {
    if up != [] {
      var n := |up| - 1;
      OverlayAt(cs, up[..n], name);
      if Named(up[..n], name) {
        var i :| 0 <= i < n && up[..n][i].name == name;
        assert up[i].name == name;
      }
      if Named(up, name) && up[n].name != name {
        var i :| 0 <= i < |up| && up[i].name == name;
        assert up[..n][i].name == name;
      }
    }
  }

  lemma {:induction false} OverlayRevision(cs: Containers, up: seq<Spec>, k: nat)
    requires NamesDistinct(up) && k < |up|
    ensures up[k].name in Overlay(cs, up) && Overlay(cs, up)[up[k].name] == Container(up[k].revision, true)
  {
    var n := |up| - 1;
    if k < n {
      OverlayRevision(cs, up[..n], k);
      assert up[..n][k] == up[k];
    }
  }

  lemma EffectTwo(cs: Containers, a: Call, b: Call)
    ensures EffectAll(cs, [a, b]) == Effect(Effect(cs, a), b)
    ensures GrantsAll(cs, [a, b]) <==> Grants(cs, a) && Grants(Effect(cs, a), b)
  {
    assert [a, b][1..] == [b] && [b][1..] == [];
    EffectOne(Effect(cs, a), b);
  }

  lemma EffectOne(cs: Containers, a: Call)
    ensures EffectAll(cs, [a]) == Effect(cs, a)
    ensures GrantsAll(cs, [a]) <==> Grants(cs, a)
  {
    assert [a][1..] == [];
  }

  lemma OneSpec(cs: Containers, plan: Plan, up: seq<Spec>, spec: Spec)
    requires Fits(cs, plan, spec) && !Named(up, spec.name)
    ensures GrantsAll(Overlay(cs, up), SpecCalls(plan, spec))
    ensures EffectAll(Overlay(cs, up), SpecCalls(plan, spec)) == Overlay(cs, up + [spec])
  {
    var cur, name := Overlay(cs, up), spec.name;
    OverlayAt(cs, up, name);
    assert (up + [spec])[..|up|] == up;
    if name in plan.recreate {
      assert [Stop(name)] + [Rm(name), Run(spec)] == SpecCalls(plan, spec);
      EffectAllConcat(cur, [Stop(name)], [Rm(name), Run(spec)]);
      EffectOne(cur, Stop(name));
      EffectTwo(Effect(cur, Stop(name)), Rm(name), Run(spec));
    } else if name in plan.create {
      EffectOne(cur, Run(spec));
    } else if name in plan.start {
      EffectOne(cur, Start(name));
    }
  }

  /** In a list of distinct names the last one is new. */
  lemma LastIsNew(up: seq<Spec>, specs: seq<Spec>)
    requires NamesDistinct(up + specs) && specs != []
    ensures var n := |specs| - 1;
      && NamesDistinct(up + specs[..n]) && !Named(up + specs[..n], specs[n].name)
      && up + specs == (up + specs[..n]) + [specs[n]]
  {
    var n := |specs| - 1;
    var all, before := up + specs, up + specs[..n];
    assert all[|up| + n] == specs[n];
    assert forall i :: 0 <= i < |before| ==> before[i] == all[i];
  }

  lemma SpecsCallsLast(cs: Containers, plan: Plan, specs: seq<Spec>)
    requires specs != []
    ensures var n := |specs| - 1;
      var mid := EffectAll(cs, SpecsCalls(plan, specs[..n]));
      && EffectAll(cs, SpecsCalls(plan, specs)) == EffectAll(mid, SpecCalls(plan, specs[n]))
      && (GrantsAll(cs, SpecsCalls(plan, specs)) <==>
          GrantsAll(cs, SpecsCalls(plan, specs[..n])) && GrantsAll(mid, SpecCalls(plan, specs[n])))
  {
    EffectAllConcat(cs, SpecsCalls(plan, specs[..|specs| - 1]), SpecCalls(plan, specs[|specs| - 1]));
  }

  lemma {:induction false} ManySpecs(cs: Containers, plan: Plan, up: seq<Spec>, specs: seq<Spec>)
    requires NamesDistinct(up + specs) && forall k :: 0 <= k < |specs| ==> Fits(cs, plan, specs[k])
    ensures GrantsAll(Overlay(cs, up), SpecsCalls(plan, specs))
    ensures EffectAll(Overlay(cs, up), SpecsCalls(plan, specs)) == Overlay(cs, up + specs)
  {
    if specs == [] {
      assert up + specs == up;
    } else {
      var n := |specs| - 1;
      LastIsNew(up, specs);
      ManySpecs(cs, plan, up, specs[..n]);
      SpecsCallsLast(Overlay(cs, up), plan, specs);
      OneSpec(cs, plan, up + specs[..n], specs[n]);
    }
  }

  lemma {:induction false} TouchedAreNamed(plan: Plan, specs: seq<Spec>, name: string)
    requires name in Touched(plan, specs)
    ensures Named(specs, name) && Touches(plan, name)
  {
    var n := |specs| - 1;
    if name in Touched(plan, specs[..n]) {
      TouchedAreNamed(plan, specs[..n], name);
      var i :| 0 <= i < n && specs[..n][i].name == name;
      assert specs[i].name == name;
    } else {
      assert specs[n].name == name;
    }
  }

  lemma {:induction false} BalancersDoNothing(cs: Containers, balancers: seq<(string, string)>, svc: string)
    ensures GrantsAll(cs, BalancerCalls(balancers, svc)) && EffectAll(cs, BalancerCalls(balancers, svc)) == cs
  {
    if balancers != [] {
      var n := |balancers| - 1;
      BalancersDoNothing(cs, balancers[..n], svc);
      EffectAllConcat(cs, BalancerCalls(balancers[..n], svc), [RegisterBalancer(balancers[n].0)]);
      EffectOne(cs, RegisterBalancer(balancers[n].0));
      assert BalancerCalls(balancers[..n], svc) + [] == BalancerCalls(balancers[..n], svc);
    }
  }

  lemma OneService(cs: Containers, balancers: seq<(string, string)>, plan: Plan, up: seq<Spec>, svc: Service)
    requires NamesDistinct(up + svc.specs)
    requires forall k :: 0 <= k < |svc.specs| ==> Fits(cs, plan, svc.specs[k])
    ensures GrantsAll(Overlay(cs, up), ServiceCalls(balancers, plan, svc))
    ensures EffectAll(Overlay(cs, up), ServiceCalls(balancers, plan, svc)) == Overlay(cs, up + svc.specs)
  {
    var specs := svc.specs;
    var touched := Touched(plan, specs);
    var cur := Overlay(cs, up + specs);
    var run, wait, lbs := SpecsCalls(plan, specs), ReadyCalls(svc.name, touched), BalancerCalls(balancers, svc.name);
    ManySpecs(cs, plan, up, specs);
    EffectAllConcat(Overlay(cs, up), run + wait, lbs);
    EffectAllConcat(Overlay(cs, up), run, wait);
    assert EffectAll(cur, wait) == cur && GrantsAll(cur, wait) by {
      if touched != [] {
        EffectOne(cur, WaitReady(svc.name, touched));
        forall name | name in touched ensures name in cur && cur[name].running {
          TouchedAreNamed(plan, specs, name);
          var i :| 0 <= i < |specs| && specs[i].name == name;
          assert (up + specs)[|up| + i].name == name;
          OverlayAt(cs, up + specs, name);
        }
      }
    }
    BalancersDoNothing(cur, balancers, svc.name);
  }

  lemma {:induction false} ManyServices(cs: Containers, balancers: seq<(string, string)>, plan: Plan, services: seq<Service>)
    requires NamesDistinct(SpecsOf(services))
    requires forall k :: 0 <= k < |SpecsOf(services)| ==> Fits(cs, plan, SpecsOf(services)[k])
    ensures GrantsAll(cs, ServicesCalls(balancers, plan, services))
    ensures EffectAll(cs, ServicesCalls(balancers, plan, services)) == Overlay(cs, SpecsOf(services))
  {
    if services != [] {
      var n := |services| - 1;
      var svc := services[n];
      var before, specs := SpecsOf(services[..n]), svc.specs;
      assert SpecsOf(services) == before + specs;
      assert forall k :: 0 <= k < |before| ==> SpecsOf(services)[k] == before[k];
      forall k | 0 <= k < |specs| ensures Fits(cs, plan, specs[k]) {
        assert SpecsOf(services)[|before| + k] == specs[k];
      }
      ManyServices(cs, balancers, plan, services[..n]);
      OneService(cs, balancers, plan, before, svc);
      EffectAllConcat(cs, ServicesCalls(balancers, plan, services[..n]), ServiceCalls(balancers, plan, svc));
    }
  }

  /** Removing distinct names that are there. */
  lemma {:induction false} ManyRemovals(cs: Containers, names: seq<string>)
    requires Distinct(names) && forall n :: n in names ==> n in cs
    ensures GrantsAll(cs, RemovalCalls(names))
    ensures EffectAll(cs, RemovalCalls(names)) == cs - Topo.Elements(names)
  {
    if names != [] {
      var n := |names| - 1;
      ManyRemovals(cs, names[..n]);
      var cur, pair := cs - Topo.Elements(names[..n]), [Stop(names[n]), Rm(names[n])];
      EffectAllConcat(cs, RemovalCalls(names[..n]), pair);
      assert names[n] in cur;
      EffectTwo(cur, Stop(names[n]), Rm(names[n]));
      assert names == names[..n] + [names[n]];
      assert Topo.Elements(names) == Topo.Elements(names[..n]) + {names[n]};
    }
  }

  lemma {:induction false} ShutdownMembers(xs: seq<string>)
    requires Distinct(xs)
    ensures Distinct(Topo.ShutdownOrder(xs)) && forall x :: x in Topo.ShutdownOrder(xs) <==> x in xs
  {
    if xs != [] {
      ShutdownMembers(xs[1..]);
      assert xs == [xs[0]] + xs[1..];
      DistinctConcat(Topo.ShutdownOrder(xs[1..]), [xs[0]]);
    }
  }

  lemma {:induction false} UnwantedDistinct(desired: seq<Item>, actual: seq<Actual>)
    requires forall i, j :: 0 <= i < j < |actual| ==> actual[i].name != actual[j].name
    ensures Distinct(Unwanted(desired, actual))
  {
    if actual != [] {
      UnwantedDistinct(desired, actual[1..]);
      UnwantedMembers(desired, actual[1..], actual[0].name);
    }
  }

  lemma {:induction false} InsertKeepsDistinct(x: string, xs: seq<string>)
    requires Distinct(xs) && x !in xs
    ensures Distinct(Insert(x, xs, Leq))
  {
    if xs == [] {
      assert Insert(x, xs, Leq) == [x];
    } else if Leq(x, xs[0]) {
      assert Insert(x, xs, Leq) == [x] + xs;
      DistinctConcat([x], xs);
    } else {
      InsertKeepsDistinct(x, xs[1..]);
      var r := Insert(x, xs[1..], Leq);
      forall y <- r ensures y != xs[0] {
        assert y in multiset(r);
        assert y == x || y in xs[1..];
      }
      assert Insert(x, xs, Leq) == [xs[0]] + r;
      DistinctConcat([xs[0]], r);
    }
  }

  lemma {:induction false} SortKeepsDistinct(xs: seq<string>)
    requires Distinct(xs)
    ensures Distinct(Sort(xs, Leq))
  {
    if xs != [] {
      SortKeepsDistinct(xs[1..]);
      SortMembers(xs[1..], Leq);
      InsertKeepsDistinct(xs[0], Sort(xs[1..], Leq));
    }
  }

  lemma RemovalsFacts(prep: Prepared, existing: seq<Actual>, cs: Containers)
    requires Lists(existing, cs)
    ensures var removals := Topo.ShutdownOrder(MakePlan(prep, existing).remove);
      && Distinct(removals)
      && forall n :: n in removals <==> n in cs && !Named(SpecsOf(prep.services), n)
  {
    var plan, desired := MakePlan(prep, existing), DesiredOf(prep.services);
    UnwantedDistinct(desired, existing);
    SortKeepsDistinct(Unwanted(desired, existing));
    ShutdownMembers(plan.remove);
    forall n ensures n in Topo.ShutdownOrder(plan.remove) <==> n in cs && !Named(SpecsOf(prep.services), n) {
      RemovedMembers(desired, existing, n);
      WantedIsNamed(prep.services, n);
    }
  }

  lemma WantedIsNamed(services: seq<Service>, n: string)
    ensures Wanted(DesiredOf(services), n) <==> Named(SpecsOf(services), n)
  {
    DesiredAt(services, 0);
    forall k | 0 <= k < |SpecsOf(services)| ensures DesiredOf(services)[k].name == SpecsOf(services)[k].name {
      DesiredAt(services, k);
    }
  }

  // ----- main results

  /** The containers of exactly the wanted replicas, all running their own revision. */
  ghost predicate IsUp(services: seq<Service>, cs: Containers) {
    && (forall k :: 0 <= k < |SpecsOf(services)| ==>
        var spec := SpecsOf(services)[k]; spec.name in cs && cs[spec.name] == Container(spec.revision, true))
    && (forall n :: n in cs ==> Named(SpecsOf(services), n))
  }

  /** A plan made from what is there never asks for anything the daemon must refuse, and
      carrying it out leaves exactly the wanted containers running. */
  lemma PlanLeadsUp(prep: Prepared, existing: seq<Actual>, cs: Containers)
    requires NamesDistinct(SpecsOf(prep.services)) && Lists(existing, cs) && NoneRotated(prep.services, cs)
    ensures GrantsAll(cs, AllCalls(prep, MakePlan(prep, existing)))
    ensures IsUp(prep.services, EffectAll(cs, AllCalls(prep, MakePlan(prep, existing))))
  {
    var plan, specs := MakePlan(prep, existing), SpecsOf(prep.services);
    var removals := Topo.ShutdownOrder(plan.remove);
    forall k | 0 <= k < |specs| ensures Fits(cs, plan, specs[k]) {
      PlanFits(prep, existing, cs, k);
    }
    ManyServices(cs, prep.balancers, plan, prep.services);
    var cur := Overlay(cs, specs);
    RemovalsFacts(prep, existing, cs);
    forall n | n in removals ensures n in cur {
      OverlayAt(cs, specs, n);
    }
    ManyRemovals(cur, removals);
    EffectAllConcat(cs, ServicesCalls(prep.balancers, plan, prep.services), RemovalCalls(removals));
    var end := cur - Topo.Elements(removals);
    forall k | 0 <= k < |specs| ensures specs[k].name in end && end[specs[k].name] == Container(specs[k].revision, true) {
      OverlayRevision(cs, specs, k);
      assert Named(specs, specs[k].name);
    }
    forall n | n in end ensures Named(specs, n) {
      OverlayAt(cs, specs, n);
    }
  }

  function Unforced(services: seq<Service>): (r: seq<Service>)
    ensures |r| == |services|
  {
    seq(|services|, i requires 0 <= i < |services| => services[i].(forced := false))
  }

  lemma {:induction false} UnforcedSpecs(services: seq<Service>)
    ensures SpecsOf(Unforced(services)) == SpecsOf(services)
  {
    if services != [] {
      UnforcedSpecs(services[..|services| - 1]);
      assert Unforced(services)[..|services| - 1] == Unforced(services[..|services| - 1]);
    }
  }

  /** Once everything is up, planning again finds nothing to do exactly when no replica
      belongs to a service under forced rotation. */
  lemma SecondPlan(prep: Prepared, existing: seq<Actual>, cs: Containers)
    requires NamesDistinct(SpecsOf(prep.services)) && IsUp(prep.services, cs) && Lists(existing, cs)
    ensures MakePlan(prep, existing).IsNoop() <==> forall s :: s in prep.services && s.forced ==> s.specs == []
  {
    var desired, specs := DesiredOf(prep.services), SpecsOf(prep.services);
    NoopMeansMatching(desired, existing);
    DesiredAt(prep.services, 0);
    forall k | 0 <= k < |desired|
      ensures desired[k].name in Have(existing) && Have(existing)[desired[k].name].running
      ensures Have(existing)[desired[k].name].hash == desired[k].hash <==> desired[k].hash == specs[k].revision
    {
      DesiredAt(prep.services, k);
      ListingIsHave(existing, cs, specs[k].name);
    }
    forall i | 0 <= i < |existing| ensures Wanted(desired, existing[i].name) {
      WantedIsNamed(prep.services, existing[i].name);
    }
    RotationShows(prep.services);
  }

  /** The wanted hashes are the plain revisions exactly when no replica is forced. */
  lemma {:induction false} RotationShows(services: seq<Service>)
    ensures |DesiredOf(services)| == |SpecsOf(services)|
    ensures (forall k :: 0 <= k < |SpecsOf(services)| ==> DesiredOf(services)[k].hash == SpecsOf(services)[k].revision) <==>
      (forall s :: s in services && s.forced ==> s.specs == [])
  {
    if services != [] {
      var n := |services| - 1;
      var svc := services[n];
      RotationShows(services[..n]);
      var before, items := DesiredOf(services[..n]), ItemsOf(svc.specs, svc.forced);
      assert services == services[..n] + [svc];
      forall k | 0 <= k < |svc.specs|
        ensures DesiredOf(services)[|before| + k] == items[k] && SpecsOf(services)[|before| + k] == svc.specs[k]
        ensures items[k].hash == svc.specs[k].revision <==> !svc.forced
      {
        assert svc.specs[k].revision + "" == svc.specs[k].revision;
        assert |svc.specs[k].revision + ROTATE| == |svc.specs[k].revision| + 7;
      }
      assert forall k :: 0 <= k < |before| ==>
        DesiredOf(services)[k] == before[k] && SpecsOf(services)[k] == SpecsOf(services[..n])[k];
      if svc.forced && svc.specs != [] {
        assert DesiredOf(services)[|before|].hash != SpecsOf(services)[|before|].revision;
      }
    }
  }

  /** After a successful up, a second one without rotation has nothing to do. */
  lemma SecondUpIsNoop(prep: Prepared, existing: seq<Actual>, cs: Containers, later: seq<Actual>)
    requires NamesDistinct(SpecsOf(prep.services)) && Lists(existing, cs) && NoneRotated(prep.services, cs)
    requires Lists(later, EffectAll(cs, AllCalls(prep, MakePlan(prep, existing))))
    ensures MakePlan(prep.(services := Unforced(prep.services)), later).IsNoop()
  {
    PlanLeadsUp(prep, existing, cs);
    UnforcedSpecs(prep.services);
    SecondPlan(prep.(services := Unforced(prep.services)), later, EffectAll(cs, AllCalls(prep, MakePlan(prep, existing))));
  }

  // ----- order

  /** A call that runs or starts a replica of the service. */
  predicate Brings(c: Call, svc: Service) {
    || (c.Run? && c.spec in svc.specs)
    || (c.Start? && Named(svc.specs, c.name))
  }

  predicate SharesNoName(a: Service, b: Service) {
    forall spec :: spec in b.specs ==> !Named(a.specs, spec.name)
  }

  lemma {:induction false} SpecsCallsBringOwn(plan: Plan, specs: seq<Spec>, c: Call)
    requires c in SpecsCalls(plan, specs)
    ensures (c.Run? && c.spec in specs) || (c.Start? && Named(specs, c.name)) || c.Stop? || c.Rm?
  {
    var n := |specs| - 1;
    if c in SpecsCalls(plan, specs[..n]) {
      SpecsCallsBringOwn(plan, specs[..n], c);
      if c.Start? {
        var i :| 0 <= i < n && specs[..n][i].name == c.name;
        assert specs[i].name == c.name;
      }
    } else {
      assert c in SpecCalls(plan, specs[n]);
      assert specs[n] in specs;
    }
  }

  lemma {:induction false} BalancerCallsOnly(balancers: seq<(string, string)>, svc: string, c: Call)
    requires c in BalancerCalls(balancers, svc)
    ensures c.RegisterBalancer?
  {
    if c in BalancerCalls(balancers[..|balancers| - 1], svc) {
      BalancerCallsOnly(balancers[..|balancers| - 1], svc, c);
    }
  }

  lemma MembersAreNamed(specs: seq<Spec>)
    ensures forall spec :: spec in specs ==> Named(specs, spec.name)
  {
    forall spec | spec in specs ensures Named(specs, spec.name) {
      var i :| 0 <= i < |specs| && specs[i] == spec;
    }
  }

  lemma {:induction false} OthersDoNotBring(
    balancers: seq<(string, string)>, plan: Plan, services: seq<Service>, a: Service, c: Call)
    requires c in ServicesCalls(balancers, plan, services)
    requires forall s :: s in services ==> SharesNoName(a, s)
    ensures !Brings(c, a)
  {
    var n := |services| - 1;
    if c in ServicesCalls(balancers, plan, services[..n]) {
      OthersDoNotBring(balancers, plan, services[..n], a, c);
    } else {
      var s := services[n];
      assert SharesNoName(a, s);
      if c in SpecsCalls(plan, s.specs) {
        SpecsCallsBringOwn(plan, s.specs, c);
        MembersAreNamed(a.specs);
        if c.Start? && Named(s.specs, c.name) {
          var i :| 0 <= i < |s.specs| && s.specs[i].name == c.name;
          assert s.specs[i] in s.specs;
        }
      } else if c in BalancerCalls(balancers, s.name) {
        BalancerCallsOnly(balancers, s.name, c);
      }
    }
  }

  /** Before call k all touched replicas of the service were waited for. */
  ghost predicate WaitedFor(calls: seq<Call>, plan: Plan, dep: Service, k: nat) {
    var touched := Touched(plan, dep.specs);
    touched != [] ==> exists j :: 0 <= j < k && j < |calls| && calls[j] == WaitReady(dep.name, touched)
  }

  /** The calls of the services up to b bring up nothing of a later service. */
  lemma NotBroughtEarly(prep: Prepared, plan: Plan, b: nat, a: nat, c: Call)
    requires b < a < |prep.services|
    requires forall i :: 0 <= i < |prep.services| && i != a ==> SharesNoName(prep.services[a], prep.services[i])
    requires c in ServicesCalls(prep.balancers, plan, prep.services[..b + 1])
    ensures !Brings(c, prep.services[a])
  {
    var first := prep.services[..b + 1];
    forall s | s in first ensures SharesNoName(prep.services[a], s) {
      var i :| 0 <= i < b + 1 && first[i] == s;
      assert prep.services[i] == s;
    }
    OthersDoNotBring(prep.balancers, plan, first, prep.services[a], c);
  }

  /** The wait for service b is among the calls of the services up to b. */
  lemma WaitPosition(prep: Prepared, plan: Plan, b: nat) returns (j: nat)
    requires b < |prep.services| && Touched(plan, prep.services[b].specs) != []
    ensures var first := ServicesCalls(prep.balancers, plan, prep.services[..b + 1]);
      j < |first| && first[j] == WaitReady(prep.services[b].name, Touched(plan, prep.services[b].specs))
    ensures j == |ServicesCalls(prep.balancers, plan, prep.services[..b])| + |SpecsCalls(plan, prep.services[b].specs)|
  {
    ServicesCallsStep(prep.balancers, plan, prep.services, b);
    j := |ServicesCalls(prep.balancers, plan, prep.services[..b])| + |SpecsCalls(plan, prep.services[b].specs)|;
  }

  lemma FirstCalls(prep: Prepared, plan: Plan, n: nat)
    requires n <= |prep.services|
    ensures ServicesCalls(prep.balancers, plan, prep.services[..n]) <= AllCalls(prep, plan)
  {
    CallsPrefix(prep.balancers, plan, prep.services, n);
  }

  /** However far up got, no replica of a service was run or started before every touched
      replica of an earlier service had been waited for. */
  lemma EarlierServiceIsReady(prep: Prepared, plan: Plan, made: seq<Call>, b: nat, a: nat, k: nat)
    requires made <= AllCalls(prep, plan) && b < a < |prep.services|
    requires forall i :: 0 <= i < |prep.services| && i != a ==> SharesNoName(prep.services[a], prep.services[i])
    requires k < |made| && Brings(made[k], prep.services[a])
    ensures WaitedFor(made, plan, prep.services[b], k)
  {
    var all, first := AllCalls(prep, plan), ServicesCalls(prep.balancers, plan, prep.services[..b + 1]);
    FirstCalls(prep, plan, b + 1);
    assert made[k] == all[k];
    if k < |first| {
      assert all[k] == first[k] && first[k] in first;
      NotBroughtEarly(prep, plan, b, a, all[k]);
    } else if Touched(plan, prep.services[b].specs) != [] {
      var j := WaitPosition(prep, plan, b);
      assert made[j] == all[j] == first[j];
    }
  }

  function ServiceNames(services: seq<Service>): seq<string> {
    seq(|services|, i requires 0 <= i < |services| => services[i].name)
  }

  /** With the services in the order of the sorted dependency graph, this covers every
      declared dependency. */
  lemma DependenciesAreReady(prep: Prepared, plan: Plan, made: seq<Call>, deps: Topo.Graph, a: nat, k: nat, d: string)
    requires made <= AllCalls(prep, plan) && a < |prep.services|
    requires Topo.DependenciesFirst(deps, ServiceNames(prep.services))
    requires prep.services[a].name in deps && d in deps[prep.services[a].name]
    requires forall i :: 0 <= i < |prep.services| && i != a ==> SharesNoName(prep.services[a], prep.services[i])
    requires k < |made| && Brings(made[k], prep.services[a])
    ensures exists b :: 0 <= b < a && prep.services[b].name == d && WaitedFor(made, plan, prep.services[b], k)
  {
    var order := ServiceNames(prep.services);
    assert order[a] == prep.services[a].name;
    assert d in order[..a];
    var b :| 0 <= b < a && order[..a][b] == d;
    assert order[b] == d && prep.services[b].name == d;
    EarlierServiceIsReady(prep, plan, made, b, a, k);
  }
}
