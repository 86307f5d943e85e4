/** Bringing a whole project up: order the services, plan against what is there, carry the plan out. */
module Deploy {
  import opened Order
  import opened Diff
  import opened Up
  import opened UpRuns
  import Topo

  /** The services in start order with their replicas. */
  function ServicesIn(order: seq<string>, specs: map<string, seq<Spec>>, forced: set<string>): seq<Service>
    requires forall n <- order :: n in specs
  {
    seq(|order|, i requires 0 <= i < |order| => Service(order[i], specs[order[i]], order[i] in forced))
  }

  /** Replica names say which replica of which service they belong to. */
  ghost predicate NamesTell(specs: map<string, seq<Spec>>) {
    forall m, n, i, j ::
      (m in specs && n in specs && 0 <= i < |specs[m]| && 0 <= j < |specs[n]| && specs[m][i].name == specs[n][j].name)
      ==> m == n && i == j
  }

  lemma {:induction false} SpecsOfMember(services: seq<Service>, k: nat) returns (a: nat, i: nat)
    requires k < |SpecsOf(services)|
    ensures a < |services| && i < |services[a].specs| && services[a].specs[i] == SpecsOf(services)[k]
    ensures k < |SpecsOf(services[..a + 1])| && k == |SpecsOf(services[..a])| + i
    decreases |services|
  {
    var n := |services| - 1;
    var before := SpecsOf(services[..n]);
    assert services[..n + 1] == services;
    if k < |before| {
      a, i := SpecsOfMember(services[..n], k);
      assert services[..n][..a] == services[..a] && services[..n][..a + 1] == services[..a + 1];
    } else {
      a, i := n, k - |before|;
    }
  }

  lemma OwnNamesAreDistinct(order: seq<string>, specs: map<string, seq<Spec>>, forced: set<string>)
    requires Distinct(order) && (forall n <- order :: n in specs) && NamesTell(specs)
    ensures NamesDistinct(SpecsOf(ServicesIn(order, specs, forced)))
  {
    var services := ServicesIn(order, specs, forced);
    var all := SpecsOf(services);
    forall k, l | 0 <= k < l < |all| ensures all[k].name != all[l].name {
      var a, i := SpecsOfMember(services, k);
      var b, j := SpecsOfMember(services, l);
      assert order[a] in order && order[b] in order;
      assert a == b ==> i != j;
      assert a != b ==> order[a] != order[b];
    }
  }

  lemma OwnNamesAreNotShared(order: seq<string>, specs: map<string, seq<Spec>>, forced: set<string>, a: nat, b: nat)
    requires Distinct(order) && (forall n <- order :: n in specs) && NamesTell(specs)
    requires a < |order| && b < |order| && a != b
    ensures SharesNoName(ServicesIn(order, specs, forced)[a], ServicesIn(order, specs, forced)[b])
  {
    assert order[a] in order && order[b] in order && order[a] != order[b];
  }

  /** No replica was brought up before the touched replicas of each dependency had been waited for. */
  ghost predicate DependenciesWaited(made: seq<Call>, plan: Plan, services: seq<Service>, deps: Topo.Graph) {
    forall a, d, k | 0 <= a < |services| && Needs(services, deps, a, d) && 0 <= k < |made| ::
      Brings(made[k], services[a]) ==> DependencyWaited(made, plan, services, a, d, k)
  }

  predicate Needs(services: seq<Service>, deps: Topo.Graph, a: nat, d: string)
    requires a < |services|
  {
    services[a].name in deps && d in deps[services[a].name]
  }

  ghost predicate DependencyWaited(made: seq<Call>, plan: Plan, services: seq<Service>, a: nat, d: string, k: nat)
    requires a < |services|
  {
    exists b :: 0 <= b < a && services[b].name == d && WaitedFor(made, plan, services[b], k)
  }

  lemma CallsWaitForDependencies(prep: Prepared, plan: Plan, made: seq<Call>, deps: Topo.Graph, order: seq<string>,
                                 specs: map<string, seq<Spec>>, forced: set<string>)
    requires Topo.DependenciesFirst(deps, order) && deps.Keys == specs.Keys && NamesTell(specs)
    requires prep.services == ServicesIn(order, specs, forced) && made <= AllCalls(prep, plan)
    ensures DependenciesWaited(made, plan, prep.services, deps)
  {
    forall a, d, k | 0 <= a < |prep.services| && Needs(prep.services, deps, a, d) && 0 <= k < |made| &&
      Brings(made[k], prep.services[a])
      ensures DependencyWaited(made, plan, prep.services, a, d, k)
    {
      CallWaitsForDependency(prep, plan, made, deps, order, specs, forced, a, d, k);
    }
  }

  lemma CallWaitsForDependency(prep: Prepared, plan: Plan, made: seq<Call>, deps: Topo.Graph, order: seq<string>,
                               specs: map<string, seq<Spec>>, forced: set<string>, a: nat, d: string, k: nat)
    requires Topo.DependenciesFirst(deps, order) && deps.Keys == specs.Keys && NamesTell(specs)
    requires prep.services == ServicesIn(order, specs, forced) && made <= AllCalls(prep, plan)
    requires a < |prep.services| && Needs(prep.services, deps, a, d) && k < |made| && Brings(made[k], prep.services[a])
    ensures DependencyWaited(made, plan, prep.services, a, d, k)
  {
    assert ServiceNames(prep.services) == order;
    forall i | 0 <= i < |prep.services| && i != a ensures SharesNoName(prep.services[a], prep.services[i]) {
      OwnNamesAreNotShared(order, specs, forced, a, i);
    }
    DependenciesAreReady(prep, plan, made, deps, a, k, d);
  }

  /** No container carries the mark of a rotation as its revision. */
  ghost predicate NoMarks(specs: map<string, seq<Spec>>, forced: set<string>, cs: Containers) {
    forall n, spec, c :: n in forced && n in specs && spec in specs[n] && c in cs ==> cs[c].revision != spec.revision + ROTATE
  }

  lemma CallsLeadUp(d0: seq<Call>, initial: Containers, prep: Prepared, existing: seq<Actual>, cs: Containers,
                    order: seq<string>, specs: map<string, seq<Spec>>, forced: set<string>)
    requires cs == EffectAll(initial, d0) && Lists(existing, cs) && NoMarks(specs, forced, cs)
    requires Distinct(order) && (forall n <- order :: n in specs) && NamesTell(specs)
    requires prep.services == ServicesIn(order, specs, forced)
    ensures IsUp(prep.services, EffectAll(initial, d0 + AllCalls(prep, MakePlan(prep, existing))))
  {
    OwnNamesAreDistinct(order, specs, forced);
    PlanLeadsUp(prep, existing, cs);
    EffectAllConcat(initial, d0, AllCalls(prep, MakePlan(prep, existing)));
  }

  lemma SinceThen(before: seq<Call>, log: seq<Call>, calls: seq<Call>)
    requires before <= log <= before + calls
    ensures log[|before|..] <= calls && before + log[|before|..] == log
  {
  }

  /** The calls made for services in a given order keep to the dependencies, however far they get, and
      success leaves exactly the wanted containers running. */
  method UpInOrder(d: Daemon, deps: Topo.Graph, order: seq<string>, specs: map<string, seq<Spec>>, forced: set<string>,
                   balancers: seq<(string, string)>, existing: seq<Actual>, dryRun: bool)
    returns (ok: bool, plan: Plan)
    requires d.Valid() && deps.Keys == specs.Keys && NamesTell(specs) && Topo.DependenciesFirst(deps, order)
    requires Lists(existing, d.containers) && NoMarks(specs, forced, d.containers)
    modifies d
    ensures d.Valid() && old(d.log) <= d.log
    ensures DependenciesWaited(d.log[|old(d.log)|..], plan, ServicesIn(order, specs, forced), deps)
    ensures ok && !dryRun ==> IsUp(ServicesIn(order, specs, forced), d.containers)
    ensures dryRun ==> d.log == old(d.log)
  {
    var prep := Prepared(ServicesIn(order, specs, forced), balancers);
    ghost var before := d.log;
    CallsLeadUp(before, d.initial, prep, existing, d.containers, order, specs, forced);
    ok, plan := BringUp(d, prep, existing, dryRun);
    SinceThen(before, d.log, AllCalls(prep, plan));
    CallsWaitForDependencies(prep, plan, d.log[|before|..], deps, order, specs, forced);
  }

  /** Up as a whole. An unknown dependency or a cycle stops it before any call. */
  method UpProject(d: Daemon, deps: Topo.Graph, specs: map<string, seq<Spec>>, forced: set<string>,
                   balancers: seq<(string, string)>, existing: seq<Actual>, dryRun: bool)
    returns (order: Topo.Answer, ok: bool, plan: Plan)
    requires d.Valid() && deps.Keys == specs.Keys && NamesTell(specs)
    requires Lists(existing, d.containers) && NoMarks(specs, forced, d.containers)
    modifies d
    ensures d.Valid() && old(d.log) <= d.log
    ensures order.Ordered? <==> Topo.Known(deps) && Topo.Acyclic(deps)
    ensures !order.Ordered? ==> !ok && d.log == old(d.log)
    ensures order.Ordered? ==> Topo.DependenciesFirst(deps, order.names)
    ensures order.Ordered? ==>
      DependenciesWaited(d.log[|old(d.log)|..], plan, ServicesIn(order.names, specs, forced), deps)
    ensures order.Ordered? && ok && !dryRun ==> IsUp(ServicesIn(order.names, specs, forced), d.containers)
    ensures dryRun ==> d.log == old(d.log)
  {
    order := Topo.TopoOrder(deps);
    ok, plan := false, Plan([], [], [], [], []);
    if order.Ordered? {
      ok, plan := UpInOrder(d, deps, order.names, specs, forced, balancers, existing, dryRun);
    }
  }
}
