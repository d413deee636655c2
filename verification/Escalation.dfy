/** When update_tier2 raises a candidate: the flag count over a run, and the six-window escalation. */
module Escalation {
  import opened Reputation

  // ── The flag history is the run ──────────────────────────────────────────

  function FlagsOf(events: seq<WindowEvent>, cfg: Tier2Config): seq<(real, bool)>
    requires AllDivide(events, cfg)
  {
    seq(|events|, i requires 0 <= i < |events| => (events[i].timestamp, Flagged(events[i], cfg)))
  }

  lemma {:induction false} RunFlags(s: State, events: seq<WindowEvent>, cfg: Tier2Config, decay: Decay)
    requires AllDivide(events, cfg)
    ensures RunFrom(s, events, cfg, decay).flags == s.flags + FlagsOf(events, cfg)
  {
    hide Advance, Flagged;
    if events != [] {
      RunStep(s, events, cfg, decay);
      RunFlags(s, events[..|events| - 1], cfg, decay);
    }
  }

  /** The windows of a run flagged at or after start. */
  ghost function FlaggedSince(events: seq<WindowEvent>, start: real, cfg: Tier2Config): set<nat>
    requires AllDivide(events, cfg)
  {
    set i: nat | i < |events| && Flagged(events[i], cfg) && events[i].timestamp >= start
  }

  lemma {:induction false} CountIsCardinality(events: seq<WindowEvent>, start: real, cfg: Tier2Config)
    requires AllDivide(events, cfg)
    ensures CountFlags(FlagsOf(events, cfg), start) == |FlaggedSince(events, start, cfg)|
  {
    hide Flagged;
    if events == [] {
      assert FlaggedSince(events, start, cfg) == {};
    } else {
      var before, n := events[..|events| - 1], |events| - 1;
      CountIsCardinality(before, start, cfg);
      assert FlagsOf(events, cfg)[..n] == FlagsOf(before, cfg);
      FlaggedLast(events, start, cfg);
      hide FlaggedSince;
    }
  }

  lemma FlaggedLast(events: seq<WindowEvent>, start: real, cfg: Tier2Config)
    requires AllDivide(events, cfg) && events != []
    ensures var n := |events| - 1;
            |FlaggedSince(events, start, cfg)| == |FlaggedSince(events[..n], start, cfg)|
            + (if Flagged(events[n], cfg) && events[n].timestamp >= start then 1 else 0)
  {
    hide Flagged;
    var n := |events| - 1;
    var here := if Flagged(events[n], cfg) && events[n].timestamp >= start then {n} else {};
    assert FlaggedSince(events, start, cfg) == FlaggedSince(events[..n], start, cfg) + here;
  }

  /**
   * From fresh, the last window of a run is a candidate exactly when the score has reached the
   * threshold and at least n_min windows of the run were flagged inside the horizon.
   */
  lemma CandidateExactlyWhen(events: seq<WindowEvent>, cfg: Tier2Config, decay: Decay)
    requires AllDivide(events, cfg) && events != []
    ensures LastUpdate(FRESH, events, cfg, decay).candidate <==>
            && RunFrom(FRESH, events, cfg, decay).score >= cfg.actionThreshold
            && var start := events[|events| - 1].timestamp - cfg.horizonWindows as real * cfg.windowSeconds;
               |FlaggedSince(events, start, cfg)| >= cfg.nMin
  {
    hide LastUpdate, RunFrom, FlaggedSince;
    var start := events[|events| - 1].timestamp - cfg.horizonWindows as real * cfg.windowSeconds;
    CandidateSince(events, cfg, decay, start);
  }

  lemma CandidateSince(events: seq<WindowEvent>, cfg: Tier2Config, decay: Decay, start: real)
    requires AllDivide(events, cfg) && events != [] && start == HorizonStart(events[|events| - 1].timestamp, cfg)
    ensures LastUpdate(FRESH, events, cfg, decay).candidate <==>
            && RunFrom(FRESH, events, cfg, decay).score >= cfg.actionThreshold
            && |FlaggedSince(events, start, cfg)| >= cfg.nMin
  {
    hide SmoothedRatio, Contribution, Flagged, HorizonStart;
    RunStep(FRESH, events, cfg, decay);
    RunFlags(FRESH, events, cfg, decay);
    CountIsCardinality(events, start, cfg);
    assert FRESH.flags + FlagsOf(events, cfg) == FlagsOf(events, cfg);
  }

  // ── A steady stream ──────────────────────────────────────────────────────

  /** Windows exactly gap apart, each with the share x of failures above baseline. */
  ghost predicate Steady(events: seq<WindowEvent>, gap: real, x: real, cfg: Tier2Config) {
    && (forall i :: 0 < i < |events| ==> events[i].timestamp - events[i - 1].timestamp == gap)
    && forall i :: 0 <= i < |events| ==>
         var n, f := events[i].attempts as real, events[i].failures as real;
         x * (n + cfg.priorN) == f - cfg.baseline * n
  }

  /** Its score is exactly x times the geometric sum. */
  lemma {:induction false} SteadyScore(events: seq<WindowEvent>, gap: real, x: real, cfg: Tier2Config, decay: Decay)
    requires AllDivide(events, cfg) && Steady(events, gap, x, cfg) && 0.0 <= x <= cfg.maxPerWindow
    ensures RunFrom(FRESH, events, cfg, decay).score == x * Geometric(decay(gap), |events|)
  {
    hide Advance, Geometric, RunFrom;
    NoRun(FRESH, cfg, decay);
    GeometricStep(decay(gap), |events|);
    if events != [] {
      var before, e := events[..|events| - 1], events[|events| - 1];
      SteadyScore(before, gap, x, cfg, decay);
      RunLast(events, cfg, decay);
      OneWindowAdds(RunFrom(FRESH, before, cfg, decay), e, cfg, decay, x);
      if |events| > 1 {
        RunStep(FRESH, before, cfg, decay);
      }
      Distribute(x, Geometric(decay(gap), |before|), decay(gap));
    }
  }

  lemma RunLast(events: seq<WindowEvent>, cfg: Tier2Config, decay: Decay)
    requires AllDivide(events, cfg) && events != []
    ensures RunFrom(FRESH, events, cfg, decay) ==
            Advance(RunFrom(FRESH, events[..|events| - 1], cfg, decay), events[|events| - 1], cfg, decay).0
  {
    hide Advance;
  }

  lemma {:induction false} SteadyTimes(events: seq<WindowEvent>, gap: real, x: real, cfg: Tier2Config, i: nat)
    requires Steady(events, gap, x, cfg) && i < |events|
    ensures events[|events| - 1].timestamp - events[i].timestamp == gap * (|events| - 1 - i) as real
    decreases |events| - i
  {
    if i < |events| - 1 {
      SteadyTimes(events, gap, x, cfg, i + 1);
    }
  }

  /** The numbers from a up to b. */
  function Numbers(a: nat, b: nat): (s: set<nat>)
    requires a <= b
    ensures |s| == b - a
    ensures forall i: nat :: i in s <==> a <= i < b
  {
    if a == b then {} else Numbers(a, b - 1) + {b - 1}
  }

  lemma SubsetSize(a: set<nat>, b: set<nat>)
    requires a <= b
    ensures |a| <= |b|
  {
    assert b == a + (b - a);
  }

  /** A set that holds what follows each of its numbers has m of them exactly when it holds the m-th last. */
  lemma LastOnes(recent: set<nat>, n: nat, m: nat)
    requires m > 0 && (forall i :: i in recent ==> i < n)
    requires forall i: nat, j: nat :: i in recent && i <= j < n ==> j in recent
    ensures |recent| >= m <==> m <= n && n - m in recent
  {
    if m <= n && n - m in recent {
      SubsetSize(Numbers(n - m, n), recent);
    } else if m <= n {
      assert forall i :: i in recent ==> i > n - m;
      SubsetSize(recent, Numbers(n - m + 1, n));
    } else {
      SubsetSize(recent, Numbers(0, n));
    }
  }

  /** How long k gaps take. */
  function Apart(gap: real, k: int): real {
    gap * k as real
  }

  lemma RecentIs(events: seq<WindowEvent>, gap: real, x: real, cfg: Tier2Config, horizon: real, i: nat)
    requires AllDivide(events, cfg) && Steady(events, gap, x, cfg) && i < |events| && Flagged(events[i], cfg)
    ensures i in FlaggedSince(events, events[|events| - 1].timestamp - horizon, cfg) <==>
            Apart(gap, |events| - 1 - i) <= horizon
  {
    hide Flagged;
    SteadyTimes(events, gap, x, cfg, i);
  }

  lemma LaterRecent(events: seq<WindowEvent>, gap: real, x: real, cfg: Tier2Config, horizon: real, i: nat, j: nat)
    requires AllDivide(events, cfg) && Steady(events, gap, x, cfg) && gap >= 0.0 && i <= j < |events|
    requires Flagged(events[i], cfg) && Flagged(events[j], cfg)
    requires i in FlaggedSince(events, events[|events| - 1].timestamp - horizon, cfg)
    ensures j in FlaggedSince(events, events[|events| - 1].timestamp - horizon, cfg)
  {
    hide Flagged, Steady, FlaggedSince;
    RecentIs(events, gap, x, cfg, horizon, i);
    RecentIs(events, gap, x, cfg, horizon, j);
    GapsGrow(gap, |events| - 1 - j, |events| - 1 - i);
  }

  lemma GapsGrow(gap: real, m: nat, n: nat)
    requires gap >= 0.0 && m <= n
    ensures gap * m as real <= gap * n as real
  {
    MulMono(gap, gap, m as real, n as real);
  }

  /** At least m of n evenly spaced windows lie within the horizon exactly when the last m of them do. */
  lemma WithinHorizon(events: seq<WindowEvent>, gap: real, x: real, cfg: Tier2Config, horizon: real, m: nat)
    requires AllDivide(events, cfg) && Steady(events, gap, x, cfg) && gap >= 0.0 && events != [] && m > 0
    requires forall i :: 0 <= i < |events| ==> Flagged(events[i], cfg)
    ensures |FlaggedSince(events, events[|events| - 1].timestamp - horizon, cfg)| >= m <==>
            m <= |events| && Apart(gap, m - 1) <= horizon
  {
    var n := |events|;
    var recent := FlaggedSince(events, events[n - 1].timestamp - horizon, cfg);
    assert forall i :: i in recent ==> i < n;
    hide Flagged, Steady, FlaggedSince, Apart;
    forall i: nat, j: nat | i in recent && i <= j < n
      ensures j in recent
    {
      LaterRecent(events, gap, x, cfg, horizon, i, j);
    }
    LastOnes(recent, n, m);
    if m <= n {
      RecentIs(events, gap, x, cfg, horizon, n - m);
    }
  }

  /**
   * A steady stream above the flag margin raises a candidate exactly when x times the geometric sum reaches
   * the threshold and the last n_min windows are there, all within the horizon.
   */
  lemma SteadyCandidate(events: seq<WindowEvent>, gap: real, x: real, cfg: Tier2Config, decay: Decay)
    requires AllDivide(events, cfg) && Steady(events, gap, x, cfg) && events != [] && gap >= 0.0
    requires cfg.flagMargin < x <= cfg.maxPerWindow && x >= 0.0
    ensures LastUpdate(FRESH, events, cfg, decay).candidate <==>
            && x * Geometric(decay(gap), |events|) >= cfg.actionThreshold
            && (cfg.nMin <= 0
                || (cfg.nMin <= |events|
                    && gap * (cfg.nMin - 1) as real <= cfg.horizonWindows as real * cfg.windowSeconds))
  {
    hide RunFrom, Geometric, LastUpdate, Steady;
    SteadyScore(events, gap, x, cfg, decay);
    CandidateExactlyWhen(events, cfg, decay);
    forall i | 0 <= i < |events|
      ensures Flagged(events[i], cfg)
    {
      SteadyFlagged(events, gap, x, cfg, i);
    }
    if cfg.nMin > 0 {
      WithinHorizon(events, gap, x, cfg, cfg.horizonWindows as real * cfg.windowSeconds, cfg.nMin);
    }
  }

  lemma SteadyFlagged(events: seq<WindowEvent>, gap: real, x: real, cfg: Tier2Config, i: nat)
    requires AllDivide(events, cfg) && Steady(events, gap, x, cfg) && i < |events|
    ensures Flagged(events[i], cfg) <==> x > cfg.flagMargin
  {
    ShareIs(events[i], cfg, x);
  }

  /** In the default configuration 20 failures in every 100 attempts, every 30 s: a candidate from the seventh on. */
  lemma SeventhOfTwenty(events: seq<WindowEvent>, decay: Decay)
    requires HalvesInThree(decay) && events != []
    requires forall i :: 0 <= i < |events| ==> events[i].attempts == 100 && events[i].failures == 20
    requires forall i :: 0 < i < |events| ==> events[i].timestamp - events[i - 1].timestamp == 30.0
    ensures AllDivide(events, DEFAULT_TIER2)
    ensures LastUpdate(FRESH, events, DEFAULT_TIER2, decay).candidate <==> |events| >= 7
  {
    hide Geometric, LastUpdate;
    var r, x := decay(30.0), 15.0 / 112.0;
    SteadyCandidate(events, 30.0, x, DEFAULT_TIER2, decay);
    SixBelowSevenAbove(r);
    if |events| >= 7 {
      GeometricGrows(r, 7, |events|);
    } else {
      GeometricGrows(r, |events|, 6);
    }
  }

  /** Six windows of share 15/112 stay under the threshold, seven reach it. */
  lemma SixBelowSevenAbove(r: real)
    requires 0.0 < r <= 1.0 && r * r * r == 0.5
    ensures 15.0 / 112.0 * Geometric(r, 6) < 0.5 <= 15.0 / 112.0 * Geometric(r, 7)
  {
    SixSum(r);
    hide Geometric;
    CubeRootOfHalf(r);
    MulMono(r, 0.794, r, 0.794);
    MulMono(0.79, r, 0.79, r);
    GeometricStep(r, 7);
    MulMono(3.6, Geometric(r, 6), 0.79, r);
  }

  lemma SixSum(r: real)
    requires r * r * r == 0.5
    ensures Geometric(r, 6) == 1.5 * (r * r + r + 1.0)
  {
    assert Geometric(r, 1) == 1.0;
    assert Geometric(r, 2) == r + 1.0;
    assert Geometric(r, 3) == r * r + r + 1.0;
    assert Geometric(r, 4) == 0.5 + (r * r + r + 1.0);
    assert Geometric(r, 5) == 0.5 * r + 0.5 + (r * r + r + 1.0);
  }

  // ── Six windows, in the default configuration ────────────────────────────

  /** A half-life of three windows: three windows of decay halve the score. */
  ghost predicate HalvesInThree(decay: Decay) {
    IsDecay(decay) && decay(30.0) * decay(30.0) * decay(30.0) == 0.5
  }

  lemma CubeRootOfHalf(r: real)
    requires 0.0 < r <= 1.0 && r * r * r == 0.5
    ensures 0.79 < r < 0.794
  {
    if r >= 0.794 {
      MulMono(0.794, r, 0.794, r);
      MulMono(0.794 * 0.794, r * r, 0.794, r);
    }
    if r <= 0.79 {
      MulMono(r, 0.79, r, 0.79);
      MulMono(r * r, 0.79 * 0.79, r, 0.79);
    }
  }

  /** Five full contributions stay under the threshold, six reach it. */
  lemma FiveBelowSixAbove(r: real)
    requires 0.0 < r <= 1.0 && r * r * r == 0.5
    ensures 0.15 * Geometric(r, 5) < 0.5 <= 0.15 * Geometric(r, 6)
  {
    CubeRootOfHalf(r);
    MulMono(r, 0.794, r, 0.794);
    MulMono(0.79, r, 0.79, r);
    var g2, g3 := r + 1.0, r * r + r + 1.0;
    assert Geometric(r, 1) == 1.0;
    assert Geometric(r, 2) == g2;
    assert Geometric(r, 3) == g3;
    assert Geometric(r, 4) == 0.5 + g3;
    assert Geometric(r, 5) == 0.5 * r + g3 + 0.5;
    assert Geometric(r, 6) == 0.5 * r * r + (r * r + r + 0.5) + 0.5 * r + 1.0;
  }

  lemma {:induction false} GeometricGrows(q: real, m: nat, n: nat)
    requires 0.0 <= q && m <= n
    ensures Geometric(q, m) <= Geometric(q, n)
  {
    hide Geometric;
    GeometricStep(q, m);
    GeometricStep(q, n);
    if m > 0 {
      GeometricGrows(q, m - 1, n - 1);
      GeometricNonNegative(q, m - 1);
      MulMono(Geometric(q, m - 1), Geometric(q, n - 1), q, q);
    } else {
      GeometricNonNegative(q, n);
    }
  }

  /** A fresh subscriber whose windows are at least 30 s apart is no candidate before its sixth window. */
  lemma NeverBeforeSixth(events: seq<WindowEvent>, decay: Decay)
    requires HalvesInThree(decay) && SpacedAtLeast(events, 30.0) && 1 <= |events| <= 5
    requires AllDivide(events, DEFAULT_TIER2)
    ensures !LastUpdate(FRESH, events, DEFAULT_TIER2, decay).candidate
  {
    hide SmoothedRatio, Contribution, Flagged, HorizonStart, RunFrom, Geometric, CountFlags;
    var r := decay(30.0);
    ScoreUnderGeometric(events, 30.0, DEFAULT_TIER2, decay);
    GeometricGrows(r, |events|, 5);
    FiveBelowSixAbove(r);
    CandidateExactlyWhen(events, DEFAULT_TIER2, decay);
  }

  /** Full contributions at most `gap` apart hold the score above the geometric sum of ratio decay(gap). */
  lemma {:induction false} ScoreAboveGeometric(s: State, events: seq<WindowEvent>, gap: real, cfg: Tier2Config,
                                               decay: Decay)
    requires AllDivide(events, cfg) && cfg.maxPerWindow >= 0.0 && IsDecay(decay) && SpacedAtMost(events, gap)
             && s.score >= 0.0
    requires forall i :: 0 <= i < |events| ==> Contribution(events[i], cfg) == cfg.maxPerWindow
    ensures RunFrom(s, events, cfg, decay).score >= cfg.maxPerWindow * Geometric(decay(gap), |events|)
  {
    hide SmoothedRatio, Contribution, Flagged, CountFlags, HorizonStart, RunFrom, Geometric;
    NoRun(s, cfg, decay);
    GeometricStep(decay(gap), |events|);
    if events != [] {
      var before, e, n := events[..|events| - 1], events[|events| - 1], |events| - 1;
      var q, cap := decay(gap), cfg.maxPerWindow;
      var p := RunFrom(s, before, cfg, decay);
      ScoreAboveGeometric(s, before, gap, cfg, decay);
      RunStep(s, events, cfg, decay);
      GeometricNonNegative(q, n);
      if n > 0 {
        RunStep(s, before, cfg, decay);
      }
      StepAbove(p.score, cap, Geometric(q, n), decay(e.timestamp - p.lastUpdate), q);
    }
  }

  lemma StepAbove(score: real, cap: real, g: real, d: real, q: real)
    requires score >= cap * g && score >= 0.0 && cap >= 0.0 && g >= 0.0 && d >= 0.0
    requires g == 0.0 || d >= q >= 0.0
    ensures score * d + cap >= cap * (g * q + 1.0)
  {
    Distribute(cap, g, q);
    MulMono(0.0, cap, g, g);
    if g == 0.0 {
      MulMono(0.0, score, d, d);
    } else {
      MulMono(cap * g, score, q, d);
    }
  }

  /**
   * From any state with a non-negative score (every reachable one), six updates 0 to 30 s apart, each
   * with smoothed ratio at least baseline + cap, end in a candidate.
   */
  lemma AlwaysAtSixth(s: State, events: seq<WindowEvent>, decay: Decay)
    requires HalvesInThree(decay) && SpacedAtMost(events, 30.0) && |events| == 6 && s.score >= 0.0
    requires AllDivide(events, DEFAULT_TIER2)
    requires forall i :: 0 <= i < 6 ==>
               SmoothedRatio(events[i], DEFAULT_TIER2) >= DEFAULT_TIER2.baseline + DEFAULT_TIER2.maxPerWindow
    ensures LastUpdate(s, events, DEFAULT_TIER2, decay).candidate
  {
    hide SmoothedRatio, RunFrom, Geometric, CountFlags;
    var r := decay(30.0);
    ScoreAboveGeometric(s, events, 30.0, DEFAULT_TIER2, decay);
    FiveBelowSixAbove(r);
    RunFlags(s, events, DEFAULT_TIER2, decay);
    RunStep(s, events, DEFAULT_TIER2, decay);
    forall i | 0 <= i < 6
      ensures events[5].timestamp - events[i].timestamp <= 150.0
    {
      Span(events, i, 5);
    }
    CountTail(s.flags, FlagsOf(events, DEFAULT_TIER2), HorizonStart(events[5].timestamp, DEFAULT_TIER2));
  }

  lemma {:induction false} Span(events: seq<WindowEvent>, i: nat, j: nat)
    requires SpacedAtMost(events, 30.0) && i <= j < |events|
    ensures events[j].timestamp - events[i].timestamp <= 30.0 * (j - i) as real
  {
    if i < j {
      Span(events, i, j - 1);
    }
  }

  /** A tail of entries that are all flagged and recent counts in full. */
  lemma {:induction false} CountTail(older: seq<(real, bool)>, recent: seq<(real, bool)>, start: real)
    requires forall i :: 0 <= i < |recent| ==> recent[i].0 >= start && recent[i].1
    ensures CountFlags(older + recent, start) >= |recent|
  {
    if recent != [] {
      CountTail(older, recent[..|recent| - 1], start);
      assert (older + recent)[..|older + recent| - 1] == older + recent[..|recent| - 1];
    }
  }
}
