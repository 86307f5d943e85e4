/** Scaling decisions over a pruned, time-windowed history of recommendations. */
module Autoscaler {
  import opened Basics

  datatype Rule = Rule(stabilizationSecs: nat, maxStep: nat)

  datatype MetricKind = Cpu | Memory | Connections

  datatype Target = Target(kind: MetricKind, target: real)

  /** A reading; `finite` is false for the infinities and not-a-number. */
  datatype Reading = Reading(kind: MetricKind, value: real, finite: bool)

  datatype Policy = Policy(min: nat, max: nat, metrics: seq<Target>, up: Rule, down: Rule, tolerancePct: real) {
    /** What validation demands, and the 32-bit width of the counts. */
    predicate Valid() { 0 < min <= max <= U32 - 1 }

    function Longest(): nat {
      if up.stabilizationSecs >= down.stabilizationSecs then up.stabilizationSecs else down.stabilizationSecs
    }
  }

  datatype Reason = NoMetrics | WithinTolerance | Stabilizing

  datatype Decision = Hold(reason: Reason) | Scale(to: nat)

  /** A recommendation and the time it was made. */
  datatype Entry = Entry(at: nat, wanted: nat)

  function Clamp(x: nat, lo: nat, hi: nat): nat
    requires lo <= hi
  {
    if x < lo then lo else if x > hi then hi else x
  }

  // ----- the recommendation of one tick

  /** The first usable reading of a kind. */
  function Find(readings: seq<Reading>, kind: MetricKind): Option<real> {
    if readings == [] then None
    else if readings[0].kind == kind && readings[0].finite && readings[0].value >= 0.0 then Some(readings[0].value)
    else Find(readings[1..], kind)
  }

  function Ceiling(x: real): int { -((-x).Floor) }

  /** A count scaled by a ratio and rounded up. */
  function Scaled(current: nat, ratio: real): nat {
    var count := Ceiling(current as real * ratio - 0.000000001);
    if count < 0 then 0 else Min(count, U32 - 1)
  }

  /** What one metric asks for, if it is usable: the current count inside the tolerance band,
      otherwise the count scaled by the ratio and rounded up, saturating at the width of the count. */
  function Wanted(p: Policy, t: Target, current: nat, readings: seq<Reading>): Option<nat> {
    if t.target <= 0.0 || Find(readings, t.kind).None? then None
    else
      var ratio := Find(readings, t.kind).value / t.target;
      var off := if ratio >= 1.0 then ratio - 1.0 else 1.0 - ratio;
      Some(if off <= p.tolerancePct / 100.0 then current else Scaled(current, ratio))
  }

  // ----- windows over a history

  function Window(h: seq<Entry>, since: nat): seq<nat> {
    if h == [] then []
    else if h[0].at >= since then [h[0].wanted] + Window(h[1..], since)
    else Window(h[1..], since)
  }

  function Smallest(xs: seq<nat>): (r: nat)
    requires xs != []
    ensures r in xs && forall x :: x in xs ==> r <= x
  {
    assert xs == [xs[0]] + xs[1..];
    if |xs| == 1 then xs[0] else Min(xs[0], Smallest(xs[1..]))
  }

  function Largest(xs: seq<nat>): (r: nat)
    requires xs != []
    ensures r in xs && forall x :: x in xs ==> x <= r
  {
    assert xs == [xs[0]] + xs[1..];
    if |xs| == 1 then xs[0] else Max(xs[0], Largest(xs[1..]))
  }

  // ----- one decision

  /** The decision once the recommendation is part of the history. */
  function Decide(p: Policy, h: seq<Entry>, now: nat, current: nat, wanted: nat): Decision {
    if wanted > current then
      var recent := Window(h, Sub(now, p.up.stabilizationSecs));
      var stable := if recent == [] then wanted else Smallest(recent);
      if stable > current then Scale(Min(Min(stable, Min(current + p.up.maxStep, U32 - 1)), p.max)) else Hold(Stabilizing)
    else if wanted < current then
      var recent := Window(h, Sub(now, p.down.stabilizationSecs));
      var stable := if recent == [] then wanted else Largest(recent);
      if stable < current then Scale(Max(Max(stable, Sub(current, p.down.maxStep)), p.min)) else Hold(Stabilizing)
    else Hold(WithinTolerance)
  }

  /** Forget entries from the front while they are older than the longest window. */
  function Prune(h: seq<Entry>, longest: nat, now: nat): seq<Entry> {
    if h != [] && h[0].at + longest < now then Prune(h[1..], longest, now) else h
  }

  class Scaler {
    const policy: Policy
    var history: seq<Entry>

    constructor (policy: Policy)
      ensures this.policy == policy && history == []
    {
      this.policy := policy;
      history := [];
    }

    /** The largest count any usable metric asks for; nothing when no metric is usable. */
    method Recommendation(current: nat, readings: seq<Reading>) returns (best: Option<nat>)
      ensures best.None? <==> forall t :: t in policy.metrics ==> Wanted(policy, t, current, readings).None?
      ensures best.Some? ==>
        && (exists t :: t in policy.metrics && Wanted(policy, t, current, readings) == best)
        && forall t :: t in policy.metrics && Wanted(policy, t, current, readings).Some? ==>
            Wanted(policy, t, current, readings).value <= best.value
    {
      best := None;
      for k := 0 to |policy.metrics|
        invariant best.None? <==> forall t :: t in policy.metrics[..k] ==> Wanted(policy, t, current, readings).None?
        invariant best.Some? ==>
          && (exists t :: t in policy.metrics[..k] && Wanted(policy, t, current, readings) == best)
          && forall t :: t in policy.metrics[..k] && Wanted(policy, t, current, readings).Some? ==>
              Wanted(policy, t, current, readings).value <= best.value
      {
        var t := policy.metrics[k];
        assert policy.metrics[..k + 1] == policy.metrics[..k] + [t];
        var wanted := Wanted(policy, t, current, readings);
        if wanted.Some? {
          best := Some(if best.None? then wanted.value else Max(best.value, wanted.value));
          assert t in policy.metrics[..k + 1];
        }
      }
      assert policy.metrics[..|policy.metrics|] == policy.metrics;
    }

    /** Decide at one tick; the recommendation is absent when no metric is usable. */
    method Step(now: nat, current: nat, recommended: Option<nat>) returns (d: Decision)
      requires policy.Valid()
      requires now + policy.Longest() < U64 && forall e :: e in history ==> e.at + policy.Longest() < U64
      modifies this
      ensures var r := Stepped(policy, old(history), now, current, recommended);
        d == r.decision && history == r.history
      ensures forall e :: e in history ==> e.at + policy.Longest() < U64
    {
      if current < policy.min {
        return Scale(policy.min);
      }
      if current > policy.max {
        return Scale(policy.max);
      }
      if recommended.None? {
        return Hold(NoMetrics);
      }
      var wanted := Clamp(recommended.value, policy.min, policy.max);
      history := history + [Entry(now, wanted)];
      var longest := policy.Longest();
      ghost var pruned := Prune(history, longest, now);
      while history != [] && history[0].at + longest < now
        invariant Prune(history, longest, now) == pruned
        invariant forall e :: e in history ==> e.at + longest < U64
        decreases |history|
      {
        history := history[1..];
      }
      d := Decide(policy, history, now, current, wanted);
    }
  }

  datatype Outcome = Outcome(decision: Decision, history: seq<Entry>)

  /** The whole of one tick on values. */
  function Stepped(p: Policy, h: seq<Entry>, now: nat, current: nat, recommended: Option<nat>): Outcome
    requires p.Valid()
  {
    if current < p.min then Outcome(Scale(p.min), h)
    else if current > p.max then Outcome(Scale(p.max), h)
    else if recommended.None? then Outcome(Hold(NoMetrics), h)
    else
      var wanted := Clamp(recommended.value, p.min, p.max);
      var h' := Prune(h + [Entry(now, wanted)], p.Longest(), now);
      Outcome(Decide(p, h', now, current, wanted), h')
  }

  // ----- runs

  datatype Tick = Tick(now: nat, current: nat, recommended: Option<nat>)

  ghost predicate TimeMovesForward(ticks: seq<Tick>) {
    forall i, j :: 0 <= i < j < |ticks| ==> ticks[i].now <= ticks[j].now
  }

  /** The pruned history after some ticks. */
  function HistoryAfter(p: Policy, ticks: seq<Tick>): seq<Entry>
    requires p.Valid()
  {
    if ticks == [] then []
    else
      var n := |ticks| - 1;
      Stepped(p, HistoryAfter(p, ticks[..n]), ticks[n].now, ticks[n].current, ticks[n].recommended).history
  }

  /** The decision the scaler takes at the last tick. */
  function LastDecision(p: Policy, ticks: seq<Tick>): Decision
    requires p.Valid() && ticks != []
  {
    var n := |ticks| - 1;
    Stepped(p, HistoryAfter(p, ticks[..n]), ticks[n].now, ticks[n].current, ticks[n].recommended).decision
  }

  /** Whether a tick gets as far as recording a recommendation. */
  predicate Records(p: Policy, t: Tick) { p.min <= t.current <= p.max && t.recommended.Some? }

  /** Every recommendation ever recorded, never pruned. */
  function FullLog(p: Policy, ticks: seq<Tick>): seq<Entry>
    requires p.Valid()
  {
    if ticks == [] then []
    else
      var n := |ticks| - 1;
      FullLog(p, ticks[..n]) +
      (if Records(p, ticks[n]) then [Entry(ticks[n].now, Clamp(ticks[n].recommended.value, p.min, p.max))] else [])
  }
}
