/** Which list of the plan a container is in, and when load balancers are registered. */
module DeployLaws {
  import opened Diff
  import opened Up
  import opened UpRuns
  import Topo

  // ----- the plan

  /** The entry that counts for a name is the last one. */
  predicate IsLast(actual: seq<Actual>, name: string, k: nat) {
    k < |actual| && actual[k].name == name && forall j :: k < j < |actual| ==> actual[j].name != name
  }

  lemma {:induction false} HaveIsLast(actual: seq<Actual>, name: string)
    ensures name in Have(actual) <==> exists k: nat :: IsLast(actual, name, k)
    ensures forall k: nat :: IsLast(actual, name, k) ==> name in Have(actual) && Have(actual)[name] == actual[k]
  {
    if actual != [] {
      var n := |actual| - 1;
      HaveIsLast(actual[..n], name);
      if actual[n].name == name {
        assert IsLast(actual, name, n);
      } else {
        forall k: nat ensures IsLast(actual, name, k) <==> IsLast(actual[..n], name, k) {}
        if name in Have(actual) {
          var k: nat :| IsLast(actual[..n], name, k);
          assert IsLast(actual, name, k);
        }
      }
    }
  }

  /** Something of the name is wanted with a hash that fits what is there. */
  ghost predicate WantedAs(desired: seq<Item>, actual: seq<Actual>, name: string, sameHash: bool, k: nat) {
    && IsLast(actual, name, k)
    && exists i :: 0 <= i < |desired| && desired[i].name == name && (desired[i].hash == actual[k].hash) == sameHash
  }

  /** A name is created if it is wanted and not there; recreated if it is there with another hash; started if it is
      there with the wanted hash and stopped; kept if it runs with the wanted hash. */
  lemma ListsExact(desired: seq<Item>, actual: seq<Actual>, name: string)
    ensures var plan := DiffOf(desired, actual);
      && (name in plan.create <==> Wanted(desired, name) && forall j :: 0 <= j < |actual| ==> actual[j].name != name)
      && (name in plan.recreate <==> exists k: nat :: WantedAs(desired, actual, name, false, k))
      && (name in plan.start <==> exists k: nat :: WantedAs(desired, actual, name, true, k) && !actual[k].running)
      && (name in plan.keep <==> exists k: nat :: WantedAs(desired, actual, name, true, k) && actual[k].running)
  {
    var have := Have(actual);
    JudgedMembers(desired, have, Missing, name);
    JudgedMembers(desired, have, Changed, name);
    JudgedMembers(desired, have, Stopped, name);
    JudgedMembers(desired, have, Same, name);
    HaveIsLast(actual, name);
    HaveAt(actual, name);
    if name in have {
      var k: nat :| IsLast(actual, name, k);
      OnlyOneLast(actual, name, k);
      JudgedAs(desired, actual, name, k, true);
      JudgedAs(desired, actual, name, k, false);
    } else {
      forall k: nat ensures !IsLast(actual, name, k) {}
    }
  }

  lemma OnlyOneLast(actual: seq<Actual>, name: string, k: nat)
    requires IsLast(actual, name, k)
    ensures forall j: nat :: IsLast(actual, name, j) ==> j == k
  {
  }

  lemma JudgedAs(desired: seq<Item>, actual: seq<Actual>, name: string, k: nat, sameHash: bool)
    requires IsLast(actual, name, k)
    ensures WantedAs(desired, actual, name, sameHash, k) <==>
      exists i :: 0 <= i < |desired| && desired[i].name == name &&
        Judge(desired[i], Have(actual)) == if !sameHash then Changed else if actual[k].running then Same else Stopped
  {
    HaveIsLast(actual, name);
    forall i | 0 <= i < |desired| && desired[i].name == name
      ensures Judge(desired[i], Have(actual)) ==
        if desired[i].hash != actual[k].hash then Changed else if actual[k].running then Same else Stopped
    {
    }
  }

  // ----- the calls

  /** A replica with another hash is stopped, removed and run; a missing one is run; a stopped one is started; the
      others are left alone. */
  lemma CallsExact(plan: Plan, spec: Spec)
    ensures spec.name in plan.recreate ==> SpecCalls(plan, spec) == [Stop(spec.name), Rm(spec.name), Run(spec)]
    ensures spec.name in plan.create && spec.name !in plan.recreate ==> SpecCalls(plan, spec) == [Run(spec)]
    ensures spec.name in plan.start && spec.name !in plan.recreate + plan.create ==> SpecCalls(plan, spec) == [Start(spec.name)]
    ensures spec.name !in plan.recreate + plan.create + plan.start ==> SpecCalls(plan, spec) == []
  {
  }

  /** The replicas that a wait is about are those with a call. */
  lemma {:induction false} TouchedExact(plan: Plan, specs: seq<Spec>, name: string)
    ensures name in Touched(plan, specs) <==>
      exists i :: 0 <= i < |specs| && specs[i].name == name && name in plan.recreate + plan.create + plan.start
  {
    if specs != [] {
      var n := |specs| - 1;
      TouchedExact(plan, specs[..n], name);
      if i :| 0 <= i < n && specs[..n][i].name == name && name in plan.recreate + plan.create + plan.start {
        assert specs[i].name == name;
      }
      if i :| 0 <= i < |specs| && specs[i].name == name && name in plan.recreate + plan.create + plan.start {
        assert i < n ==> specs[..n][i].name == name;
      }
    }
  }

  // ----- load balancers

  predicate Registers(c: Call, name: string) { c == RegisterBalancer(name) }

  function Registrations(calls: seq<Call>, name: string): nat {
    if calls == [] then 0 else Registrations(calls[..|calls| - 1], name) + if Registers(calls[|calls| - 1], name) then 1 else 0
  }

  lemma {:induction false} RegistrationsConcat(a: seq<Call>, b: seq<Call>, name: string)
    ensures Registrations(a + b, name) == Registrations(a, name) + Registrations(b, name)
  {
    if b == [] {
      assert a + b == a;
    } else {
      var n := |b| - 1;
      assert (a + b)[..|a + b| - 1] == a + b[..n];
      RegistrationsConcat(a, b[..n], name);
    }
  }

  lemma {:induction false} NoRegistrations(calls: seq<Call>, name: string)
    requires forall c <- calls :: !c.RegisterBalancer?
    ensures Registrations(calls, name) == 0
  {
    if calls != [] {
      NoRegistrations(calls[..|calls| - 1], name);
    }
  }

  /** How many entries of the table send a balancer to a service. */
  function Entries(balancers: seq<(string, string)>, name: string, svc: string): nat {
    if balancers == [] then 0
    else Entries(balancers[..|balancers| - 1], name, svc) + if balancers[|balancers| - 1] == (name, svc) then 1 else 0
  }

  lemma {:induction false} BalancersRegister(balancers: seq<(string, string)>, svc: string, name: string)
    ensures Registrations(BalancerCalls(balancers, svc), name) == Entries(balancers, name, svc)
  {
    if balancers != [] {
      var n := |balancers| - 1;
      BalancersRegister(balancers[..n], svc, name);
      var last := if balancers[n].1 == svc then [RegisterBalancer(balancers[n].0)] else [];
      RegistrationsConcat(BalancerCalls(balancers[..n], svc), last, name);
      assert last != [] ==> last[..0] == [];
    }
  }

  lemma {:induction false} SpecsRegisterNothing(plan: Plan, specs: seq<Spec>)
    ensures forall c <- SpecsCalls(plan, specs) :: !c.RegisterBalancer?
  {
    if specs != [] {
      SpecsRegisterNothing(plan, specs[..|specs| - 1]);
    }
  }

  lemma {:induction false} RemovalsRegisterNothing(names: seq<string>)
    ensures forall c <- RemovalCalls(names) :: !c.RegisterBalancer?
  {
    if names != [] {
      RemovalsRegisterNothing(names[..|names| - 1]);
    }
  }

  lemma ServiceRegisters(balancers: seq<(string, string)>, plan: Plan, svc: Service, name: string)
    ensures Registrations(ServiceCalls(balancers, plan, svc), name) == Entries(balancers, name, svc.name)
  {
    var specs, ready := SpecsCalls(plan, svc.specs), ReadyCalls(svc.name, Touched(plan, svc.specs));
    var own := BalancerCalls(balancers, svc.name);
    SpecsRegisterNothing(plan, svc.specs);
    NoRegistrations(specs, name);
    NoRegistrations(ready, name);
    BalancersRegister(balancers, svc.name, name);
    RegistrationsConcat(specs, ready, name);
    RegistrationsConcat(specs + ready, own, name);
  }

  /** All entries of a balancer whose backend is one of the services. */
  function ServedEntries(balancers: seq<(string, string)>, name: string, services: seq<Service>): nat {
    if services == [] then 0
    else ServedEntries(balancers, name, services[..|services| - 1]) + Entries(balancers, name, services[|services| - 1].name)
  }

  lemma {:induction false} ServicesRegister(balancers: seq<(string, string)>, plan: Plan, services: seq<Service>, name: string)
    ensures Registrations(ServicesCalls(balancers, plan, services), name) == ServedEntries(balancers, name, services)
  {
    if services != [] {
      var n := |services| - 1;
      ServicesRegister(balancers, plan, services[..n], name);
      ServiceRegisters(balancers, plan, services[n], name);
      RegistrationsConcat(ServicesCalls(balancers, plan, services[..n]), ServiceCalls(balancers, plan, services[n]), name);
    }
  }

  lemma {:induction false} NoOtherEntries(balancers: seq<(string, string)>, k: nat, svc: string)
    requires k < |balancers| && forall i, j :: 0 <= i < j < |balancers| ==> balancers[i].0 != balancers[j].0
    ensures Entries(balancers, balancers[k].0, svc) == if svc == balancers[k].1 then 1 else 0
  {
    var n := |balancers| - 1;
    if k < n {
      NoOtherEntries(balancers[..n], k, svc);
    } else {
      Unlisted(balancers[..n], balancers[n].0, svc);
    }
  }

  lemma {:induction false} Unlisted(balancers: seq<(string, string)>, name: string, svc: string)
    requires forall i :: 0 <= i < |balancers| ==> balancers[i].0 != name
    ensures Entries(balancers, name, svc) == 0
  {
    if balancers != [] {
      Unlisted(balancers[..|balancers| - 1], name, svc);
    }
  }

  lemma {:induction false} OneServes(balancers: seq<(string, string)>, k: nat, services: seq<Service>, a: nat)
    requires k < |balancers| && forall i, j :: 0 <= i < j < |balancers| ==> balancers[i].0 != balancers[j].0
    requires forall i, j :: 0 <= i < j < |services| ==> services[i].name != services[j].name
    requires a <= |services| && (a < |services| ==> services[a].name == balancers[k].1)
    requires a == |services| ==> forall i :: 0 <= i < |services| ==> services[i].name != balancers[k].1
    ensures ServedEntries(balancers, balancers[k].0, services) == if a < |services| then 1 else 0
  {
    if services != [] {
      var n := |services| - 1;
      NoOtherEntries(balancers, k, services[n].name);
      if a < n {
        OneServes(balancers, k, services[..n], a);
      } else {
        OneServes(balancers, k, services[..n], n);
      }
    }
  }

  /** On success every balancer has been registered exactly once, if its backend is one of the services. */
  lemma BalancersRegisterOnce(prep: Prepared, plan: Plan, k: nat, a: nat)
    requires k < |prep.balancers| && a < |prep.services| && prep.services[a].name == prep.balancers[k].1
    requires forall i, j :: 0 <= i < j < |prep.balancers| ==> prep.balancers[i].0 != prep.balancers[j].0
    requires forall i, j :: 0 <= i < j < |prep.services| ==> prep.services[i].name != prep.services[j].name
    ensures Registrations(AllCalls(prep, plan), prep.balancers[k].0) == 1
  {
    var name := prep.balancers[k].0;
    var first, rest := ServicesCalls(prep.balancers, plan, prep.services), RemovalCalls(Topo.ShutdownOrder(plan.remove));
    ServicesRegister(prep.balancers, plan, prep.services, name);
    OneServes(prep.balancers, k, prep.services, a);
    RemovalsRegisterNothing(Topo.ShutdownOrder(plan.remove));
    NoRegistrations(rest, name);
    RegistrationsConcat(first, rest, name);
  }

  lemma {:induction false} OwnBalancersOnly(balancers: seq<(string, string)>, svc: string, c: Call)
    requires c in BalancerCalls(balancers, svc)
    ensures c.RegisterBalancer? && (c.name, svc) in balancers
  {
    var n := |balancers| - 1;
    if c in BalancerCalls(balancers[..n], svc) {
      OwnBalancersOnly(balancers[..n], svc, c);
    }
  }

  lemma PlaceInService(balancers: seq<(string, string)>, plan: Plan, svc: Service, k: nat)
    requires k < |ServiceCalls(balancers, plan, svc)| && ServiceCalls(balancers, plan, svc)[k].RegisterBalancer?
    ensures (ServiceCalls(balancers, plan, svc)[k].name, svc.name) in balancers
    ensures |SpecsCalls(plan, svc.specs)| + |ReadyCalls(svc.name, Touched(plan, svc.specs))| <= k
  {
    var specs, ready := SpecsCalls(plan, svc.specs), ReadyCalls(svc.name, Touched(plan, svc.specs));
    SpecsRegisterNothing(plan, svc.specs);
    PlaceInThird(specs, ready, BalancerCalls(balancers, svc.name), k);
    OwnBalancersOnly(balancers, svc.name, ServiceCalls(balancers, plan, svc)[k]);
  }

  /** A registration comes after the replicas' calls and the wait of its own backend service. */
  lemma {:induction false} RegistrationPlace(balancers: seq<(string, string)>, plan: Plan, services: seq<Service>, k: nat)
    returns (a: nat)
    requires k < |ServicesCalls(balancers, plan, services)| && ServicesCalls(balancers, plan, services)[k].RegisterBalancer?
    ensures a < |services| && (ServicesCalls(balancers, plan, services)[k].name, services[a].name) in balancers
    ensures |ServicesCalls(balancers, plan, services[..a])| + |SpecsCalls(plan, services[a].specs)|
      + |ReadyCalls(services[a].name, Touched(plan, services[a].specs))| <= k
    decreases |services|
  {
    var n := |services| - 1;
    var before, own := ServicesCalls(balancers, plan, services[..n]), ServiceCalls(balancers, plan, services[n]);
    assert ServicesCalls(balancers, plan, services) == before + own;
    if k < |before| {
      a := RegistrationPlace(balancers, plan, services[..n], k);
      assert services[..n][..a] == services[..a];
    } else {
      a := n;
      PlaceInService(balancers, plan, services[n], k - |before|);
    }
  }

  lemma PlaceOf(a: seq<Call>, b: seq<Call>, c: seq<Call>, k: nat)
    requires k < |a + b + c|
    ensures k < |a| ==> (a + b + c)[k] in a
    ensures |a| <= k < |a| + |b| ==> (a + b + c)[k] in b
    ensures k >= |a| + |b| ==> (a + b + c)[k] in c
  {
    if k < |a| {
      assert (a + b + c)[k] == a[k];
    } else if k < |a| + |b| {
      assert (a + b + c)[k] == b[k - |a|];
    } else {
      assert (a + b + c)[k] == c[k - |a| - |b|];
    }
  }

  lemma PlaceInThird(a: seq<Call>, b: seq<Call>, c: seq<Call>, k: nat)
    requires k < |a + b + c| && (a + b + c)[k].RegisterBalancer?
    requires forall x <- a :: !x.RegisterBalancer?
    requires forall x <- b :: !x.RegisterBalancer?
    ensures k >= |a| + |b| && (a + b + c)[k] in c
  {
    PlaceOf(a, b, c, k);
  }

  /** However far up got, a balancer was registered only after the touched replicas of its backend had been waited for. */
  lemma RegisteredWhenReady(prep: Prepared, plan: Plan, made: seq<Call>, k: nat) returns (a: nat)
    requires made <= AllCalls(prep, plan) && k < |made| && made[k].RegisterBalancer?
    ensures a < |prep.services| && (made[k].name, prep.services[a].name) in prep.balancers
    ensures WaitedFor(made, plan, prep.services[a], k)
  {
    var first, rest := ServicesCalls(prep.balancers, plan, prep.services), RemovalCalls(Topo.ShutdownOrder(plan.remove));
    RemovalsRegisterNothing(Topo.ShutdownOrder(plan.remove));
    assert made[k] == (first + rest + [])[k];
    PlaceOf(first, rest, [], k);
    a := RegistrationPlace(prep.balancers, plan, prep.services, k);
    if Touched(plan, prep.services[a].specs) != [] {
      var j := WaitPosition(prep, plan, a);
      FirstCalls(prep, plan, a + 1);
      assert j < k && made[j] == AllCalls(prep, plan)[j];
    }
  }
}
