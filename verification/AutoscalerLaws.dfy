/** What the autoscaler decides, exactly, in terms of the ticks of a run and of the readings of a tick. */
module AutoscalerLaws {
  import opened Autoscaler
  import opened AutoscalerRuns
  import opened Basics

  // ----- decisions

  /** The tick has a count in range and a recommendation, and is no older than the window. */
  predicate Recent(p: Policy, ticks: seq<Tick>, i: nat, secs: nat)
    requires i < |ticks|
  {
    && p.min <= ticks[i].current <= p.max && ticks[i].recommended.Some?
    && ticks[i].now + secs >= ticks[|ticks| - 1].now
  }

  /** The recommendation of a tick, kept within the policy. */
  function Asked(p: Policy, t: Tick): nat
    requires t.recommended.Some?
  {
    if t.recommended.value < p.min then p.min else if t.recommended.value > p.max then p.max else t.recommended.value
  }

  predicate AllAbove(p: Policy, ticks: seq<Tick>, secs: nat, current: nat) {
    forall i :: 0 <= i < |ticks| && Recent(p, ticks, i, secs) ==> Asked(p, ticks[i]) > current
  }

  predicate AllBelow(p: Policy, ticks: seq<Tick>, secs: nat, current: nat) {
    forall i :: 0 <= i < |ticks| && Recent(p, ticks, i, secs) ==> Asked(p, ticks[i]) < current
  }

  ghost predicate IsLeast(p: Policy, ticks: seq<Tick>, secs: nat, n: nat) {
    && (exists i :: 0 <= i < |ticks| && Recent(p, ticks, i, secs) && Asked(p, ticks[i]) == n)
    && (forall i :: 0 <= i < |ticks| && Recent(p, ticks, i, secs) ==> n <= Asked(p, ticks[i]))
  }

  ghost predicate IsGreatest(p: Policy, ticks: seq<Tick>, secs: nat, n: nat) {
    && (exists i :: 0 <= i < |ticks| && Recent(p, ticks, i, secs) && Asked(p, ticks[i]) == n)
    && (forall i :: 0 <= i < |ticks| && Recent(p, ticks, i, secs) ==> Asked(p, ticks[i]) <= n)
  }

  /** The log shows in a window what the recent ticks asked for. */
  lemma {:induction false} LogIsTheTicks(p: Policy, ticks: seq<Tick>, since: nat, w: nat)
    requires p.Valid()
    ensures w in Window(FullLog(p, ticks), since) <==>
      exists i :: 0 <= i < |ticks| && Records(p, ticks[i]) && ticks[i].now >= since && Asked(p, ticks[i]) == w
  {
    if ticks != [] {
      var n := |ticks| - 1;
      var before, t := ticks[..n], ticks[n];
      LogIsTheTicks(p, before, since, w);
      if Records(p, t) {
        WindowConcat(FullLog(p, before), [Entry(t.now, Asked(p, t))], since);
        assert [Entry(t.now, Asked(p, t))][1..] == [];
      } else {
        assert FullLog(p, ticks) == FullLog(p, before);
      }
      if i :| 0 <= i < n && Records(p, before[i]) && before[i].now >= since && Asked(p, before[i]) == w {
        assert ticks[i] == before[i];
      }
      if i :| 0 <= i < |ticks| && Records(p, ticks[i]) && ticks[i].now >= since && Asked(p, ticks[i]) == w {
        assert i < n ==> before[i] == ticks[i];
      }
    }
  }

  /** The window at the last tick, tick by tick. */
  lemma WindowIsRecent(p: Policy, ticks: seq<Tick>, secs: nat)
    requires p.Valid() && ticks != []
    ensures var window := Window(FullLog(p, ticks), Sub(ticks[|ticks| - 1].now, secs));
      && (forall i :: 0 <= i < |ticks| && Recent(p, ticks, i, secs) ==> Asked(p, ticks[i]) in window)
      && (forall w <- window :: exists i :: 0 <= i < |ticks| && Recent(p, ticks, i, secs) && Asked(p, ticks[i]) == w)
  {
    var since := Sub(ticks[|ticks| - 1].now, secs);
    forall i | 0 <= i < |ticks| && Recent(p, ticks, i, secs) ensures Asked(p, ticks[i]) in Window(FullLog(p, ticks), since) {
      LogIsTheTicks(p, ticks, since, Asked(p, ticks[i]));
    }
    forall w <- Window(FullLog(p, ticks), since)
      ensures exists i :: 0 <= i < |ticks| && Recent(p, ticks, i, secs) && Asked(p, ticks[i]) == w
    {
      LogIsTheTicks(p, ticks, since, w);
      var i :| 0 <= i < |ticks| && Records(p, ticks[i]) && ticks[i].now >= since && Asked(p, ticks[i]) == w;
      assert Recent(p, ticks, i, secs);
    }
  }

  /** Scaling up: exactly when everything asked for within the up window exceeds the current count; then to the
      least of it, or as far as step and maximum allow. */
  lemma ScalesUpExactly(p: Policy, ticks: seq<Tick>)
    requires p.Valid() && ticks != [] && TimeMovesForward(ticks) && Records(p, ticks[|ticks| - 1])
    requires Asked(p, ticks[|ticks| - 1]) > ticks[|ticks| - 1].current
    ensures var current, d := ticks[|ticks| - 1].current, LastDecision(p, ticks);
      if AllAbove(p, ticks, p.up.stabilizationSecs, current) then
        exists n :: IsLeast(p, ticks, p.up.stabilizationSecs, n) && d == Scale(Min(Min(n, current + p.up.maxStep), p.max))
      else d == Hold(Stabilizing)
  {
    var t, secs := ticks[|ticks| - 1], p.up.stabilizationSecs;
    var window := Window(FullLog(p, ticks), Sub(t.now, secs));
    PrunedDecidesAsFull(p, ticks);
    WindowIsRecent(p, ticks, secs);
    assert Recent(p, ticks, |ticks| - 1, secs);
    assert IsLeast(p, ticks, secs, Smallest(window));
  }

  /** Scaling down: exactly when everything asked for within the down window is below the current count; then to
      the greatest of it, or as far as step and minimum allow. */
  lemma ScalesDownExactly(p: Policy, ticks: seq<Tick>)
    requires p.Valid() && ticks != [] && TimeMovesForward(ticks) && Records(p, ticks[|ticks| - 1])
    requires Asked(p, ticks[|ticks| - 1]) < ticks[|ticks| - 1].current
    ensures var current, d := ticks[|ticks| - 1].current, LastDecision(p, ticks);
      if AllBelow(p, ticks, p.down.stabilizationSecs, current) then
        exists n :: IsGreatest(p, ticks, p.down.stabilizationSecs, n)
          && d == Scale(Max(Max(n, Sub(current, p.down.maxStep)), p.min))
      else d == Hold(Stabilizing)
  {
    var t, secs := ticks[|ticks| - 1], p.down.stabilizationSecs;
    var window := Window(FullLog(p, ticks), Sub(t.now, secs));
    PrunedDecidesAsFull(p, ticks);
    WindowIsRecent(p, ticks, secs);
    assert Recent(p, ticks, |ticks| - 1, secs);
    assert IsGreatest(p, ticks, secs, Largest(window));
  }

  /** In every other case: a count out of range goes to the nearest bound, and otherwise nothing moves. */
  lemma OtherwiseHolds(p: Policy, ticks: seq<Tick>)
    requires p.Valid() && ticks != []
    ensures var t, d := ticks[|ticks| - 1], LastDecision(p, ticks);
      && (t.current < p.min ==> d == Scale(p.min))
      && (t.current > p.max ==> d == Scale(p.max))
      && (p.min <= t.current <= p.max && t.recommended.None? ==> d == Hold(NoMetrics))
      && (Records(p, t) && Asked(p, t) == t.current ==> d == Hold(WithinTolerance))
  {
  }

  // ----- recommendations

  /** The first reading of the kind that is finite and not negative. */
  lemma {:induction false} FindFirst(readings: seq<Reading>, kind: MetricKind, k: nat)
    requires k <= |readings|
    requires forall i :: 0 <= i < k ==> !(readings[i].kind == kind && readings[i].finite && readings[i].value >= 0.0)
    requires k < |readings| ==> readings[k].kind == kind && readings[k].finite && readings[k].value >= 0.0
    ensures Find(readings, kind) == if k < |readings| then Some(readings[k].value) else None
  {
    if k > 0 {
      FindFirst(readings[1..], kind, k - 1);
    }
  }

  lemma CeilingIsLeast(x: real)
    ensures Ceiling(x) as real >= x && Ceiling(x) as real - 1.0 < x
  {
  }

  lemma AtLeast(a: real, b: real, t: real, bound: real)
    requires t > 0.0 && a >= b && b * t == bound
    ensures a * t >= bound
  {
  }

  lemma Below(a: real, b: real, t: real, bound: real)
    requires t > 0.0 && a < b && b * t == bound
    ensures a * t < bound
  {
  }

  lemma LoadAt(current: real, value: real, target: real, slack: real)
    requires target > 0.0
    ensures (current * (value / target) - slack) * target == current * value - slack * target
  {
    var ratio := value / target;
    assert ratio * target == value;
    assert (current * ratio) * target == current * (ratio * target);
  }

  /** The least count over which the load spreads at no more than the target, but for a billionth of a replica and
      within the width of a count. */
  predicate SpreadsLoad(w: nat, load: real, target: real) {
    && w <= 0xffff_ffff
    && (w < 0xffff_ffff ==> w as real * target >= load - 0.000000001 * target)
    && (w > 0 ==> (w as real - 1.0) * target < load - 0.000000001 * target)
  }

  lemma CountSpreadsLoad(current: nat, value: real, target: real)
    requires target > 0.0
    ensures SpreadsLoad(Scaled(current, value / target), current as real * value, target)
  {
    var load := current as real * (value / target) - 0.000000001;
    var bound := current as real * value - 0.000000001 * target;
    var w := Scaled(current, value / target);
    CeilingIsLeast(load);
    LoadAt(current as real, value, target, 0.000000001);
    if w < U32 - 1 {
      AtLeast(w as real, load, target, bound);
    }
    if w > 0 {
      Below(w as real - 1.0, load, target, bound);
    }
  }

  lemma WantedIs(p: Policy, t: Target, current: nat, readings: seq<Reading>)
    requires t.target > 0.0 && Find(readings, t.kind).Some?
    ensures var value := Find(readings, t.kind).value;
      Wanted(p, t, current, readings)
      == Some(if InBand(value / t.target, p.tolerancePct / 100.0) then current else Scaled(current, value / t.target))
  {
  }

  /** A usable metric asks for the current count while the reading is within the tolerance of its target, and
      otherwise for the least count that spreads the load. */
  lemma WantedExact(p: Policy, t: Target, current: nat, readings: seq<Reading>)
    requires t.target > 0.0 && Find(readings, t.kind).Some?
    ensures var value, w := Find(readings, t.kind).value, Wanted(p, t, current, readings);
      && w.Some?
      && if InBand(value / t.target, p.tolerancePct / 100.0) then w.value == current
         else SpreadsLoad(w.value, current as real * value, t.target)
  {
    WantedIs(p, t, current, readings);
    CountSpreadsLoad(current, Find(readings, t.kind).value, t.target);
  }

  /** Within the tolerance of the target, as a share of it. */
  predicate InBand(ratio: real, tolerance: real) { 1.0 - tolerance <= ratio <= 1.0 + tolerance }

  /** A metric without a positive target or without a usable reading asks for nothing. */
  lemma UnusableMetric(p: Policy, t: Target, current: nat, readings: seq<Reading>)
    ensures Wanted(p, t, current, readings).None? <==> t.target <= 0.0 || Find(readings, t.kind).None?
  {
  }
}
