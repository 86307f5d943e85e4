/** Guarantees of the autoscaler over whole runs. */
module AutoscalerRuns {
  import opened Autoscaler
  import opened Basics

  // ----- the pruned history stands for the full log

  lemma {:induction false} WindowConcat(a: seq<Entry>, b: seq<Entry>, since: nat)
    ensures Window(a + b, since) == Window(a, since) + Window(b, since)
  {
    if a == [] {
      assert a + b == b;
    } else {
      assert (a + b)[1..] == a[1..] + b;
      WindowConcat(a[1..], b, since);
    }
  }

  /** Pruning drops only entries that no window of the current or a later time shows. */
  lemma {:induction false} PruneKeepsWindows(h: seq<Entry>, longest: nat, now: nat, later: nat, secs: nat)
    requires now <= later && secs <= longest
    ensures Window(Prune(h, longest, now), Sub(later, secs)) == Window(h, Sub(later, secs))
  {
    if h != [] && h[0].at + longest < now {
      PruneKeepsWindows(h[1..], longest, now, later, secs);
    }
  }

  /** At any time not before the last tick, every window no longer than the longest one shows
      the same recommendations in the pruned history as in the full log. */
  lemma {:induction false} PrunedRefinesFull(p: Policy, ticks: seq<Tick>, later: nat, secs: nat)
    requires p.Valid() && TimeMovesForward(ticks) && secs <= p.Longest()
    requires ticks != [] ==> ticks[|ticks| - 1].now <= later
    ensures Window(HistoryAfter(p, ticks), Sub(later, secs)) == Window(FullLog(p, ticks), Sub(later, secs))
  {
    if ticks != [] {
      var n := |ticks| - 1;
      var before, t := ticks[..n], ticks[n];
      PrunedRefinesFull(p, before, later, secs);
      if Records(p, t) {
        var entry := [Entry(t.now, Clamp(t.recommended.value, p.min, p.max))];
        PruneKeepsWindows(HistoryAfter(p, before) + entry, p.Longest(), t.now, later, secs);
        WindowConcat(HistoryAfter(p, before), entry, Sub(later, secs));
        WindowConcat(FullLog(p, before), entry, Sub(later, secs));
      } else {
        assert FullLog(p, ticks) == FullLog(p, before);
      }
    }
  }

  /** The scaler with a pruned history decides as the one that forgets nothing. */
  lemma PrunedDecidesAsFull(p: Policy, ticks: seq<Tick>)
    requires p.Valid() && ticks != [] && TimeMovesForward(ticks)
    requires Records(p, ticks[|ticks| - 1])
    ensures var t := ticks[|ticks| - 1];
      LastDecision(p, ticks) == Decide(p, FullLog(p, ticks), t.now, t.current, Clamp(t.recommended.value, p.min, p.max))
  {
    var t := ticks[|ticks| - 1];
    PrunedRefinesFull(p, ticks, t.now, p.up.stabilizationSecs);
    PrunedRefinesFull(p, ticks, t.now, p.down.stabilizationSecs);
  }

  // ----- bounds

  lemma {:induction false} WindowMembers(h: seq<Entry>, since: nat)
    ensures forall e :: e in h && e.at >= since ==> e.wanted in Window(h, since)
    ensures forall w :: w in Window(h, since) ==> exists e :: e in h && e.at >= since && e.wanted == w
  {
    if h != [] {
      WindowMembers(h[1..], since);
      forall w | w in Window(h, since) ensures exists e :: e in h && e.at >= since && e.wanted == w {
        if h[0].at >= since && w == h[0].wanted {
          assert h[0] in h;
        } else {
          assert w in Window(h[1..], since);
          var e :| e in h[1..] && e.at >= since && e.wanted == w;
          assert e in h;
        }
      }
    }
  }

  /** The log holds the recommendation of every recording tick and only counts within the policy. */
  lemma {:induction false} LogContents(p: Policy, ticks: seq<Tick>)
    requires p.Valid()
    ensures forall i :: 0 <= i < |ticks| && Records(p, ticks[i]) ==>
      Entry(ticks[i].now, Clamp(ticks[i].recommended.value, p.min, p.max)) in FullLog(p, ticks)
    ensures forall e :: e in FullLog(p, ticks) ==> p.min <= e.wanted <= p.max
  {
    if ticks != [] {
      var n := |ticks| - 1;
      LogContents(p, ticks[..n]);
      forall i | 0 <= i < |ticks| && Records(p, ticks[i])
        ensures Entry(ticks[i].now, Clamp(ticks[i].recommended.value, p.min, p.max)) in FullLog(p, ticks)
      {
        if i < n {
          assert ticks[..n][i] == ticks[i];
        }
      }
    }
  }

  lemma {:induction false} HistoryWithinBounds(p: Policy, ticks: seq<Tick>)
    requires p.Valid()
    ensures forall e :: e in HistoryAfter(p, ticks) ==> p.min <= e.wanted <= p.max
  {
    if ticks != [] {
      var n := |ticks| - 1;
      HistoryWithinBounds(p, ticks[..n]);
      if Records(p, ticks[n]) {
        var entry := Entry(ticks[n].now, Clamp(ticks[n].recommended.value, p.min, p.max));
        PruneMembers(HistoryAfter(p, ticks[..n]) + [entry], p.Longest(), ticks[n].now);
      }
    }
  }

  lemma {:induction false} PruneMembers(h: seq<Entry>, longest: nat, now: nat)
    ensures forall e :: e in Prune(h, longest, now) ==> e in h
  {
    if h != [] && h[0].at + longest < now {
      PruneMembers(h[1..], longest, now);
    }
  }

  /** Every target lies within the policy; a count already in range moves only in the decided
      direction and by no more than that direction's step. */
  lemma ScalingIsBounded(p: Policy, ticks: seq<Tick>)
    requires p.Valid() && ticks != [] && LastDecision(p, ticks).Scale?
    ensures p.min <= LastDecision(p, ticks).to <= p.max
    ensures var t, to := ticks[|ticks| - 1], LastDecision(p, ticks).to;
      p.min <= t.current <= p.max ==>
        && t.recommended.Some?
        && (if t.recommended.value > t.current then t.current <= to <= t.current + p.up.maxStep
            else t.recommended.value < t.current && t.current - p.down.maxStep <= to <= t.current)
  {
    var t := ticks[|ticks| - 1];
    if Records(p, t) {
      HistoryWithinBounds(p, ticks);
      WindowMembers(HistoryAfter(p, ticks), Sub(t.now, p.up.stabilizationSecs));
      WindowMembers(HistoryAfter(p, ticks), Sub(t.now, p.down.stabilizationSecs));
    }
  }

  // ----- no flapping

  lemma OwnEntryInWindow(p: Policy, ticks: seq<Tick>, i: nat, secs: nat)
    requires p.Valid() && i < |ticks| && TimeMovesForward(ticks) && Records(p, ticks[i])
    requires ticks[|ticks| - 1].now <= ticks[i].now + secs
    ensures Clamp(ticks[i].recommended.value, p.min, p.max) in Window(FullLog(p, ticks), Sub(ticks[|ticks| - 1].now, secs))
  {
    LogContents(p, ticks);
    WindowMembers(FullLog(p, ticks), Sub(ticks[|ticks| - 1].now, secs));
  }

  /** An upward decision never passes its own tick's recommendation, nor a downward one. */
  lemma DecisionWithinRecommendation(p: Policy, ticks: seq<Tick>)
    requires p.Valid() && ticks != [] && TimeMovesForward(ticks)
    requires Records(p, ticks[|ticks| - 1]) && LastDecision(p, ticks).Scale?
    ensures var t, to := ticks[|ticks| - 1], LastDecision(p, ticks).to;
      var wanted := Clamp(t.recommended.value, p.min, p.max);
      if wanted > t.current then to <= wanted else to >= wanted
  {
    var t := ticks[|ticks| - 1];
    PrunedDecidesAsFull(p, ticks);
    OwnEntryInWindow(p, ticks, |ticks| - 1, p.up.stabilizationSecs);
    OwnEntryInWindow(p, ticks, |ticks| - 1, p.down.stabilizationSecs);
  }

  /** After scaling up to n, no decision within the down window goes below n. */
  lemma NoFlapDown(p: Policy, ticks: seq<Tick>, i: nat)
    requires p.Valid() && TimeMovesForward(ticks) && i < |ticks| - 1
    requires LastDecision(p, ticks[..i + 1]).Scale? && LastDecision(p, ticks[..i + 1]).to > ticks[i].current
    requires ticks[|ticks| - 1].now <= ticks[i].now + p.down.stabilizationSecs
    requires LastDecision(p, ticks).Scale? && LastDecision(p, ticks).to < ticks[|ticks| - 1].current
    ensures LastDecision(p, ticks).to >= LastDecision(p, ticks[..i + 1]).to
  {
    var first, t := ticks[..i + 1], ticks[|ticks| - 1];
    ScalingIsBounded(p, first);
    ScalingIsBounded(p, ticks);
    if Records(p, ticks[i]) && Records(p, t) {
      DecisionWithinRecommendation(p, first);
      PrunedDecidesAsFull(p, ticks);
      OwnEntryInWindow(p, ticks, i, p.down.stabilizationSecs);
    }
  }

  /** After scaling down to n, no decision within the up window goes above n. */
  lemma NoFlapUp(p: Policy, ticks: seq<Tick>, i: nat)
    requires p.Valid() && TimeMovesForward(ticks) && i < |ticks| - 1
    requires LastDecision(p, ticks[..i + 1]).Scale? && LastDecision(p, ticks[..i + 1]).to < ticks[i].current
    requires ticks[|ticks| - 1].now <= ticks[i].now + p.up.stabilizationSecs
    requires LastDecision(p, ticks).Scale? && LastDecision(p, ticks).to > ticks[|ticks| - 1].current
    ensures LastDecision(p, ticks).to <= LastDecision(p, ticks[..i + 1]).to
  {
    var first, t := ticks[..i + 1], ticks[|ticks| - 1];
    ScalingIsBounded(p, first);
    ScalingIsBounded(p, ticks);
    if Records(p, ticks[i]) && Records(p, t) {
      DecisionWithinRecommendation(p, first);
      PrunedDecidesAsFull(p, ticks);
      OwnEntryInWindow(p, ticks, i, p.up.stabilizationSecs);
    }
  }
}
