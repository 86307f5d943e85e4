/** Bringing a project up: the plan is carried out service by service, dependencies first. */
module Up {
  import opened Diff
  import Topo

  datatype Spec = Spec(name: string, revision: string)

  /** A service with the replicas wanted; forced when one of its secrets is being rotated. */
  datatype Service = Service(name: string, specs: seq<Spec>, forced: bool)

  /** The services in start order, and the load balancers with their backend services. */
  datatype Prepared = Prepared(services: seq<Service>, balancers: seq<(string, string)>)

  const ROTATE: string := "+rotate"

  datatype Container = Container(revision: string, running: bool)

  type Containers = map<string, Container>

  datatype Call =
    | Stop(name: string)
    | Rm(name: string)
    | Run(spec: Spec)
    | Start(name: string)
    | WaitReady(service: string, names: seq<string>)
    | RegisterBalancer(name: string)

  // ----- the plan

  function ItemsOf(specs: seq<Spec>, forced: bool): seq<Item> {
    seq(|specs|, i requires 0 <= i < |specs| => Item(specs[i].name, specs[i].revision + (if forced then ROTATE else "")))
  }

  function DesiredOf(services: seq<Service>): seq<Item> {
    if services == [] then []
    else
      var svc := services[|services| - 1];
      DesiredOf(services[..|services| - 1]) + ItemsOf(svc.specs, svc.forced)
  }

  function MakePlan(prep: Prepared, existing: seq<Actual>): Plan {
    DiffOf(DesiredOf(prep.services), existing)
  }

  // ----- the daemon

  /** Whether the daemon can grant a call at all. */
  predicate Grants(cs: Containers, c: Call) {
    match c
    case Stop(name) => name in cs
    case Rm(name) => name in cs
    case Run(spec) => spec.name !in cs
    case Start(name) => name in cs && !cs[name].running
    case WaitReady(_, names) => forall n :: n in names ==> n in cs && cs[n].running
    case RegisterBalancer(_) => true
  }

  function Effect(cs: Containers, c: Call): Containers {
    match c
    case Stop(name) => if name in cs then cs[name := cs[name].(running := false)] else cs
    case Rm(name) => cs - {name}
    case Run(spec) => cs[spec.name := Container(spec.revision, true)]
    case Start(name) => if name in cs then cs[name := cs[name].(running := true)] else cs
    case _ => cs
  }

  function EffectAll(cs: Containers, calls: seq<Call>): Containers
    decreases calls
  {
    if calls == [] then cs else EffectAll(Effect(cs, calls[0]), calls[1..])
  }

  ghost predicate GrantsAll(cs: Containers, calls: seq<Call>)
    decreases calls
  {
    calls == [] || (Grants(cs, calls[0]) && GrantsAll(Effect(cs, calls[0]), calls[1..]))
  }

  /** The daemon as up sees it, with the calls it granted. A call may also fail for reasons of
      the daemon's own; then nothing changes. */
  class Daemon {
    ghost const initial: Containers
    var containers: Containers
    ghost var log: seq<Call>

    /** The containers are what the granted calls made of the initial ones. */
    ghost predicate Valid()
      reads this
    {
      containers == EffectAll(initial, log) && GrantsAll(initial, log)
    }

    constructor (containers: Containers)
      ensures Valid() && initial == containers && log == []
    {
      this.initial := containers;
      this.containers := containers;
      log := [];
    }

    method Invoke(c: Call) returns (ok: bool)
      requires Valid()
      modifies this
      ensures Valid()
      ensures log == if ok then old(log) + [c] else old(log)
    {
      var fault: bool := *;
      if fault || !Grants(containers, c) {
        return false;
      }
      EffectAllConcat(initial, log, [c]);
      assert [c][1..] == [];
      containers := Effect(containers, c);
      log := log + [c];
      return true;
    }
  }

  // ----- the calls up makes

  function SpecCalls(plan: Plan, spec: Spec): seq<Call> {
    if spec.name in plan.recreate then [Stop(spec.name), Rm(spec.name), Run(spec)]
    else if spec.name in plan.create then [Run(spec)]
    else if spec.name in plan.start then [Start(spec.name)]
    else []
  }

  function SpecsCalls(plan: Plan, specs: seq<Spec>): seq<Call> {
    if specs == [] then [] else SpecsCalls(plan, specs[..|specs| - 1]) + SpecCalls(plan, specs[|specs| - 1])
  }

  predicate Touches(plan: Plan, name: string) {
    name in plan.recreate || name in plan.create || name in plan.start
  }

  function Touched(plan: Plan, specs: seq<Spec>): seq<string> {
    if specs == [] then []
    else
      var spec := specs[|specs| - 1];
      Touched(plan, specs[..|specs| - 1]) + (if Touches(plan, spec.name) then [spec.name] else [])
  }

  function BalancerCalls(balancers: seq<(string, string)>, svc: string): seq<Call> {
    if balancers == [] then []
    else
      var b := balancers[|balancers| - 1];
      BalancerCalls(balancers[..|balancers| - 1], svc) + (if b.1 == svc then [RegisterBalancer(b.0)] else [])
  }

  function ReadyCalls(svc: string, touched: seq<string>): seq<Call> {
    if touched == [] then [] else [WaitReady(svc, touched)]
  }

  function ServiceCalls(balancers: seq<(string, string)>, plan: Plan, svc: Service): seq<Call> {
    SpecsCalls(plan, svc.specs) + ReadyCalls(svc.name, Touched(plan, svc.specs)) + BalancerCalls(balancers, svc.name)
  }

  function ServicesCalls(balancers: seq<(string, string)>, plan: Plan, services: seq<Service>): seq<Call> {
    if services == [] then []
    else
      ServicesCalls(balancers, plan, services[..|services| - 1]) + ServiceCalls(balancers, plan, services[|services| - 1])
  }

  function RemovalCalls(names: seq<string>): seq<Call> {
    if names == [] then [] else RemovalCalls(names[..|names| - 1]) + [Stop(names[|names| - 1]), Rm(names[|names| - 1])]
  }

  function AllCalls(prep: Prepared, plan: Plan): seq<Call> {
    ServicesCalls(prep.balancers, plan, prep.services) + RemovalCalls(Topo.ShutdownOrder(plan.remove))
  }

  /** Calls made while carrying out one part belong to the whole, as far as they got. */
  lemma Within(log: seq<Call>, start: seq<Call>, done: seq<Call>, next: seq<Call>, all: seq<Call>)
    requires log <= (start + done) + next && done + next <= all
    ensures log <= start + all
  {
    assert (start + done) + next == start + (done + next);
  }

  lemma {:induction false} SpecsCallsPrefix(plan: Plan, specs: seq<Spec>, k: nat)
    requires k < |specs|
    ensures SpecsCalls(plan, specs[..k]) + SpecCalls(plan, specs[k]) <= SpecsCalls(plan, specs)
  {
    var n := |specs| - 1;
    if k < n {
      SpecsCallsPrefix(plan, specs[..n], k);
      assert specs[..n][..k] == specs[..k];
    }
  }

  lemma {:induction false} BalancerCallsPrefix(balancers: seq<(string, string)>, svc: string, k: nat)
    requires k < |balancers|
    ensures BalancerCalls(balancers[..k], svc) + (if balancers[k].1 == svc then [RegisterBalancer(balancers[k].0)] else [])
         <= BalancerCalls(balancers, svc)
  {
    var n := |balancers| - 1;
    if k < n {
      BalancerCallsPrefix(balancers[..n], svc, k);
      assert balancers[..n][..k] == balancers[..k];
    }
  }

  lemma {:induction false} RemovalCallsPrefix(names: seq<string>, k: nat)
    requires k < |names|
    ensures RemovalCalls(names[..k]) + [Stop(names[k]), Rm(names[k])] <= RemovalCalls(names)
  {
    var n := |names| - 1;
    if k < n {
      RemovalCallsPrefix(names[..n], k);
      assert names[..n][..k] == names[..k];
    }
  }

  lemma {:induction false} CallsPrefix(balancers: seq<(string, string)>, plan: Plan, services: seq<Service>, n: nat)
    requires n <= |services|
    ensures ServicesCalls(balancers, plan, services[..n]) <= ServicesCalls(balancers, plan, services)
  {
    if n < |services| {
      CallsPrefix(balancers, plan, services[..|services| - 1], n);
      assert services[..|services| - 1][..n] == services[..n];
    } else {
      assert services[..n] == services;
    }
  }

  lemma ServicesCallsPrefix(balancers: seq<(string, string)>, plan: Plan, services: seq<Service>, k: nat)
    requires k < |services|
    ensures ServicesCalls(balancers, plan, services[..k]) + ServiceCalls(balancers, plan, services[k])
         <= ServicesCalls(balancers, plan, services)
  {
    ServicesCallsStep(balancers, plan, services, k);
    CallsPrefix(balancers, plan, services, k + 1);
  }

  // ----- the loops

  method CallSpec(d: Daemon, plan: Plan, spec: Spec) returns (ok: bool)
    requires d.Valid()
    modifies d
    ensures d.Valid()
    ensures old(d.log) <= d.log <= old(d.log) + SpecCalls(plan, spec)
    ensures ok ==> d.log == old(d.log) + SpecCalls(plan, spec)
  {
    ok := true;
    if spec.name in plan.recreate {
      ok := RemoveOne(d, spec.name);
      if !ok { return; }
      ok := d.Invoke(Run(spec));
    } else if spec.name in plan.create {
      ok := d.Invoke(Run(spec));
    } else if spec.name in plan.start {
      ok := d.Invoke(Start(spec.name));
    }
  }

  method CallService(d: Daemon, balancers: seq<(string, string)>, plan: Plan, svc: Service) returns (ok: bool)
    requires d.Valid()
    modifies d
    ensures d.Valid()
    ensures old(d.log) <= d.log <= old(d.log) + ServiceCalls(balancers, plan, svc)
    ensures ok ==> d.log == old(d.log) + ServiceCalls(balancers, plan, svc)
  {
    ok := true;
    ghost var start := d.log;
    var touched;
    ok, touched := CallSpecs(d, plan, svc.specs);
    if !ok { return; }
    if touched != [] {
      ok := d.Invoke(WaitReady(svc.name, touched));
      if !ok { return; }
    }
    ghost var run, wait := SpecsCalls(plan, svc.specs), ReadyCalls(svc.name, touched);
    assert d.log == start + (run + wait);
    ok := CallBalancers(d, balancers, svc.name);
    AppendCalls(start, run + wait, BalancerCalls(balancers, svc.name));
  }

  /** Handle the replicas of one service and note which ones were touched. */
  method CallSpecs(d: Daemon, plan: Plan, specs: seq<Spec>) returns (ok: bool, touched: seq<string>)
    requires d.Valid()
    modifies d
    ensures d.Valid()
    ensures old(d.log) <= d.log <= old(d.log) + SpecsCalls(plan, specs)
    ensures ok ==> d.log == old(d.log) + SpecsCalls(plan, specs) && touched == Touched(plan, specs)
  {
    ok, touched := true, [];
    for k := 0 to |specs|
      invariant ok && d.Valid() && touched == Touched(plan, specs[..k])
      invariant d.log == old(d.log) + SpecsCalls(plan, specs[..k])
    {
      assert specs[..k + 1][..k] == specs[..k];
      SpecsCallsPrefix(plan, specs, k);
      ok := CallSpec(d, plan, specs[k]);
      Within(d.log, old(d.log), SpecsCalls(plan, specs[..k]), SpecCalls(plan, specs[k]), SpecsCalls(plan, specs));
      if !ok { return; }
      if Touches(plan, specs[k].name) {
        touched := touched + [specs[k].name];
      }
    }
    assert specs[..|specs|] == specs;
  }

  method CallBalancers(d: Daemon, balancers: seq<(string, string)>, svc: string) returns (ok: bool)
    requires d.Valid()
    modifies d
    ensures d.Valid()
    ensures old(d.log) <= d.log <= old(d.log) + BalancerCalls(balancers, svc)
    ensures ok ==> d.log == old(d.log) + BalancerCalls(balancers, svc)
  {
    ok := true;
    for k := 0 to |balancers|
      invariant ok && d.Valid() && d.log == old(d.log) + BalancerCalls(balancers[..k], svc)
    {
      assert balancers[..k + 1][..k] == balancers[..k];
      BalancerCallsPrefix(balancers, svc, k);
      if balancers[k].1 == svc {
        ok := d.Invoke(RegisterBalancer(balancers[k].0));
        if !ok { return; }
      }
    }
    assert balancers[..|balancers|] == balancers;
  }

  /** Stop a container and remove it. */
  method RemoveOne(d: Daemon, name: string) returns (ok: bool)
    requires d.Valid()
    modifies d
    ensures d.Valid()
    ensures old(d.log) <= d.log <= old(d.log) + [Stop(name), Rm(name)]
    ensures ok ==> d.log == old(d.log) + [Stop(name), Rm(name)]
  {
    ok := d.Invoke(Stop(name));
    if ok {
      ok := d.Invoke(Rm(name));
    }
  }

  method CallRemovals(d: Daemon, names: seq<string>) returns (ok: bool)
    requires d.Valid()
    modifies d
    ensures d.Valid()
    ensures old(d.log) <= d.log <= old(d.log) + RemovalCalls(names)
    ensures ok ==> d.log == old(d.log) + RemovalCalls(names)
  {
    ok := true;
    for k := 0 to |names|
      invariant ok && d.Valid() && d.log == old(d.log) + RemovalCalls(names[..k])
    {
      assert names[..k + 1][..k] == names[..k];
      RemovalCallsPrefix(names, k);
      ok := RemoveOne(d, names[k]);
      Within(d.log, old(d.log), RemovalCalls(names[..k]), [Stop(names[k]), Rm(names[k])], RemovalCalls(names));
      if !ok { return; }
    }
    assert names[..|names|] == names;
  }

  method CallServices(d: Daemon, prep: Prepared, plan: Plan) returns (ok: bool)
    requires d.Valid()
    modifies d
    ensures d.Valid()
    ensures old(d.log) <= d.log <= old(d.log) + ServicesCalls(prep.balancers, plan, prep.services)
    ensures ok ==> d.log == old(d.log) + ServicesCalls(prep.balancers, plan, prep.services)
  {
    ok := true;
    ghost var start, done := d.log, ServicesCalls(prep.balancers, plan, []);
    for k := 0 to |prep.services|
      invariant ok && d.Valid() && done == ServicesCalls(prep.balancers, plan, prep.services[..k])
      invariant d.log == start + done
    {
      ServicesCallsStep(prep.balancers, plan, prep.services, k);
      ServicesCallsPrefix(prep.balancers, plan, prep.services, k);
      ok := CallService(d, prep.balancers, plan, prep.services[k]);
      Within(d.log, start, done, ServiceCalls(prep.balancers, plan, prep.services[k]),
             ServicesCalls(prep.balancers, plan, prep.services));
      if !ok { return; }
      AppendCalls(start, done, ServiceCalls(prep.balancers, plan, prep.services[k]));
      done := done + ServiceCalls(prep.balancers, plan, prep.services[k]);
    }
    assert prep.services[..|prep.services|] == prep.services;
  }

  lemma AppendCalls(a: seq<Call>, b: seq<Call>, c: seq<Call>)
    ensures (a + b) + c == a + (b + c)
  {
  }

  lemma ServicesCallsStep(balancers: seq<(string, string)>, plan: Plan, services: seq<Service>, k: nat)
    requires k < |services|
    ensures ServicesCalls(balancers, plan, services[..k + 1]) ==
      ServicesCalls(balancers, plan, services[..k]) + ServiceCalls(balancers, plan, services[k])
  {
    assert services[..k + 1][..k] == services[..k];
  }

  /** Carry the plan out. The calls made are the first ones of the plan's calls; success means all
      of them were granted, in exactly this order. */
  method BringUp(d: Daemon, prep: Prepared, existing: seq<Actual>, dryRun: bool) returns (ok: bool, plan: Plan)
    requires d.Valid()
    modifies d
    ensures d.Valid() && plan == MakePlan(prep, existing)
    ensures dryRun ==> ok && d.log == old(d.log)
    ensures old(d.log) <= d.log <= old(d.log) + AllCalls(prep, plan)
    ensures ok && !dryRun ==> d.log == old(d.log) + AllCalls(prep, plan)
  {
    plan := ComputePlan(prep, existing);
    ok := true;
    if dryRun {
      return;
    }
    ok := CallAll(d, prep, plan);
  }

  method CallAll(d: Daemon, prep: Prepared, plan: Plan) returns (ok: bool)
    requires d.Valid()
    modifies d
    ensures d.Valid()
    ensures old(d.log) <= d.log <= old(d.log) + AllCalls(prep, plan)
    ensures ok ==> d.log == old(d.log) + AllCalls(prep, plan)
  {
    ghost var start := d.log;
    ghost var first, rest := ServicesCalls(prep.balancers, plan, prep.services), RemovalCalls(Topo.ShutdownOrder(plan.remove));
    ok := CallServices(d, prep, plan);
    Within(d.log, start, [], first, first + rest);
    if !ok { return; }
    ok := CallRemovals(d, Topo.ShutdownOrder(plan.remove));
    AppendCalls(start, first, rest);
  }

  method ComputePlan(prep: Prepared, existing: seq<Actual>) returns (plan: Plan)
    ensures plan == MakePlan(prep, existing)
  {
    plan := ComputeDiff(DesiredOf(prep.services), existing);
  }

  lemma {:induction false} EffectAllConcat(cs: Containers, a: seq<Call>, b: seq<Call>)
    ensures EffectAll(cs, a + b) == EffectAll(EffectAll(cs, a), b)
    ensures GrantsAll(cs, a + b) <==> GrantsAll(cs, a) && GrantsAll(EffectAll(cs, a), b)
    decreases a
  {
    if a == [] {
      assert a + b == b;
    } else {
      assert (a + b)[1..] == a[1..] + b;
      EffectAllConcat(Effect(cs, a[0]), a[1..], b);
    }
  }
}
