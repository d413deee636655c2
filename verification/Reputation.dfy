/** tier1.py and tier2.py: the hard rule, and the per-subscriber reputation score with decay. */
module Reputation {
  import opened Wrappers

  datatype WindowEvent = WindowEvent(supi: string, origin: Option<string>, window: int,
                                     attempts: int, failures: int, timestamp: real)
  {
    function RawRatio(): real {
      if attempts > 0 then failures as real / attempts as real else 0.0
    }
  }

  // ── Tier 1 ───────────────────────────────────────────────────────────────

  datatype Tier1Config = Tier1Config(threshold: real, minAttempts: int)

  predicate Tier1Candidate(e: WindowEvent, cfg: Tier1Config) {
    e.attempts >= cfg.minAttempts && e.RawRatio() >= cfg.threshold
  }

  /**
   * The hard rule without a division: enough attempts, and failures at least the threshold's share of
   * them; a window without attempts has ratio zero.
   */
  lemma Tier1ExactlyWhen(e: WindowEvent, cfg: Tier1Config)
    ensures Tier1Candidate(e, cfg) <==>
            && e.attempts >= cfg.minAttempts
            && if e.attempts > 0 then e.failures as real >= cfg.threshold * e.attempts as real else cfg.threshold <= 0.0
  {
    if e.attempts >= 1 {
      QuotientAtLeast(e.failures as real, e.attempts as real, cfg.threshold);
    }
  }

  lemma QuotientAtLeast(x: real, y: real, t: real)
    requires y > 0.0
    ensures x / y >= t <==> x >= t * y
  {
    assert (x / y) * y == x;
    if x / y >= t {
      assert (x / y - t) * y >= 0.0;
    } else {
      assert (t - x / y) * y > 0.0;
    }
  }

  // ── Tier 2 ───────────────────────────────────────────────────────────────

  /** half_life_windows enters only through the decay function, which is a parameter. */
  datatype Tier2Config = Tier2Config(baseline: real, priorN: real, maxPerWindow: real, windowSeconds: real,
                                     actionThreshold: real, flagMargin: real, horizonWindows: int, nMin: int)

  const DEFAULT_TIER2 := Tier2Config(0.05, 12.0, 0.15, 30.0, 0.5, 0.10, 10, 4)

  type Decay = real -> real

  /** exp(-lambda * dt), and 1 for a clock that did not advance. */
  ghost predicate IsDecay(decay: Decay) {
    && (forall x :: x <= 0.0 ==> decay(x) == 1.0)
    && (forall x :: 0.0 < decay(x) <= 1.0)
    && (forall x, y :: x <= y ==> decay(y) <= decay(x))
  }

  datatype State = State(score: real, lastUpdate: real, flags: seq<(real, bool)>)

  const FRESH := State(0.0, 0.0, [])

  datatype Verdict = Verdict(ratio: real, contribution: real, score: real, flagged: bool, recentFlags: nat,
                             candidate: bool)

  /** Where attempts and prior cancel out, the smoothed ratio divides by zero and update_tier2 raises. */
  predicate Divides(e: WindowEvent, cfg: Tier2Config) {
    e.attempts as real + cfg.priorN != 0.0
  }

  /** So for every window of a run; counters that are not negative always do, with a positive prior. */
  predicate AllDivide(events: seq<WindowEvent>, cfg: Tier2Config) {
    forall i :: 0 <= i < |events| ==> Divides(events[i], cfg)
  }

  function SmoothedRatio(e: WindowEvent, cfg: Tier2Config): real
    requires Divides(e, cfg)
  {
    (e.failures as real + cfg.priorN * cfg.baseline) / (e.attempts as real + cfg.priorN)
  }

  /**
   * Smoothing pulls a window toward the baseline by prior_n attempts' worth: it is flagged exactly when
   * its failures above baseline exceed the margin on all attempts, the prior's included.
   */
  lemma FlaggedExactlyWhen(e: WindowEvent, cfg: Tier2Config)
    requires e.attempts as real + cfg.priorN > 0.0
    ensures var n := e.attempts as real;
            Flagged(e, cfg) <==> e.failures as real - cfg.baseline * n > cfg.flagMargin * (n + cfg.priorN)
  {
    var n, x := e.attempts as real + cfg.priorN, e.failures as real + cfg.priorN * cfg.baseline;
    QuotientAbove(x, n, cfg.baseline + cfg.flagMargin);
    assert (cfg.baseline + cfg.flagMargin) * n
           == cfg.baseline * e.attempts as real + cfg.priorN * cfg.baseline + cfg.flagMargin * n;
  }

  lemma QuotientAbove(x: real, y: real, t: real)
    requires y > 0.0
    ensures x / y > t <==> x > t * y
  {
    assert (x / y) * y == x;
    if x / y > t {
      assert (x / y - t) * y > 0.0;
    } else {
      assert (t - x / y) * y >= 0.0;
    }
  }

  function Min(x: real, y: real): real { if y < x then y else x }
  function Max(x: real, y: real): real { if y > x then y else x }

  function Contribution(e: WindowEvent, cfg: Tier2Config): real
    requires Divides(e, cfg)
  {
    Min(Max(0.0, SmoothedRatio(e, cfg) - cfg.baseline), cfg.maxPerWindow)
  }

  predicate Flagged(e: WindowEvent, cfg: Tier2Config)
    requires Divides(e, cfg)
  {
    SmoothedRatio(e, cfg) > cfg.baseline + cfg.flagMargin
  }

  function HorizonStart(now: real, cfg: Tier2Config): real {
    now - cfg.horizonWindows as real * cfg.windowSeconds
  }

  function CountFlags(flags: seq<(real, bool)>, start: real): nat {
    if flags == [] then 0
    else CountFlags(flags[..|flags| - 1], start) +
         (if flags[|flags| - 1].0 >= start && flags[|flags| - 1].1 then 1 else 0)
  }

  /** update_tier2, as the new state and the returned result. */
  function Advance(s: State, e: WindowEvent, cfg: Tier2Config, decay: Decay): (State, Verdict)
    requires Divides(e, cfg)
  {
    var score := s.score * decay(e.timestamp - s.lastUpdate) + Contribution(e, cfg);
    var flags := s.flags + [(e.timestamp, Flagged(e, cfg))];
    var recent := CountFlags(flags, HorizonStart(e.timestamp, cfg));
    (State(score, e.timestamp, flags),
     Verdict(SmoothedRatio(e, cfg), Contribution(e, cfg), score, Flagged(e, cfg), recent,
            score >= cfg.actionThreshold && recent >= cfg.nMin))
  }

  /** The mutable record update_tier2 works on. */
  class SupiState {
    var score: real
    var lastUpdateTs: real
    var flagHistory: seq<(real, bool)>

    constructor ()
      ensures Value() == FRESH
    {
      score, lastUpdateTs, flagHistory := 0.0, 0.0, [];
    }

    function Value(): State
      reads this
    {
      State(score, lastUpdateTs, flagHistory)
    }

    /** None where the division raises, the record untouched. */
    method Update(e: WindowEvent, cfg: Tier2Config, decay: Decay) returns (r: Option<Verdict>)
      modifies this
      ensures !Divides(e, cfg) ==> r == None && Value() == old(Value())
      ensures Divides(e, cfg) ==> r.Some? && (Value(), r.value) == Advance(old(Value()), e, cfg, decay)
    {
      hide SmoothedRatio, HorizonStart, CountFlags, Divides;
      if !Divides(e, cfg) {
        return None;
      }
      var ratio := SmoothedRatio(e, cfg);
      var excess := Max(0.0, ratio - cfg.baseline);
      var contribution := Min(excess, cfg.maxPerWindow);
      var dt := e.timestamp - lastUpdateTs;
      score := score * decay(dt) + contribution;
      lastUpdateTs := e.timestamp;
      var flagged := ratio > cfg.baseline + cfg.flagMargin;
      flagHistory := flagHistory + [(e.timestamp, flagged)];
      var recent := CountFlags(flagHistory, HorizonStart(e.timestamp, cfg));
      var candidate := score >= cfg.actionThreshold && recent >= cfg.nMin;
      r := Some(Verdict(ratio, contribution, score, flagged, recent, candidate));
      assert r.value == Advance(old(Value()), e, cfg, decay).1;
    }
  }

  // ── Runs ─────────────────────────────────────────────────────────────────

  function RunFrom(s: State, events: seq<WindowEvent>, cfg: Tier2Config, decay: Decay): State
    requires AllDivide(events, cfg)
  {
    if events == [] then s
    else Advance(RunFrom(s, events[..|events| - 1], cfg, decay), events[|events| - 1], cfg, decay).0
  }

  /** What the last update of a run returned. */
  function LastUpdate(s: State, events: seq<WindowEvent>, cfg: Tier2Config, decay: Decay): Verdict
    requires AllDivide(events, cfg) && events != []
  {
    Advance(RunFrom(s, events[..|events| - 1], cfg, decay), events[|events| - 1], cfg, decay).1
  }

  predicate SpacedAtLeast(events: seq<WindowEvent>, gap: real) {
    forall i :: 0 < i < |events| ==> events[i].timestamp - events[i - 1].timestamp >= gap
  }

  predicate SpacedAtMost(events: seq<WindowEvent>, gap: real) {
    forall i :: 0 < i < |events| ==> 0.0 <= events[i].timestamp - events[i - 1].timestamp <= gap
  }

  function Pow(q: real, n: nat): real {
    if n == 0 then 1.0 else Pow(q, n - 1) * q
  }

  /** 1 + q + ... + q^(n-1) */
  function Geometric(q: real, n: nat): real {
    if n == 0 then 0.0 else Geometric(q, n - 1) * q + 1.0
  }

  lemma {:induction false} GeometricClosed(q: real, n: nat)
    ensures Geometric(q, n) * (1.0 - q) == 1.0 - Pow(q, n)
  {
    if n > 0 {
      GeometricClosed(q, n - 1);
      var g := Geometric(q, n - 1);
      assert (g * q + 1.0) * (1.0 - q) == (g * (1.0 - q)) * q + (1.0 - q);
    }
  }

  lemma {:induction false} GeometricNonNegative(q: real, n: nat)
    requires q >= 0.0
    ensures Geometric(q, n) >= 0.0
  {
    if n > 0 {
      GeometricNonNegative(q, n - 1);
    }
  }

  lemma GeometricStep(q: real, n: nat)
    ensures Geometric(q, 0) == 0.0
    ensures n > 0 ==> Geometric(q, n) == Geometric(q, n - 1) * q + 1.0
  {
  }

  lemma MulMono(a: real, b: real, x: real, y: real)
    requires 0.0 <= a <= b && 0.0 <= x <= y
    ensures a * x <= b * y
  {
    assert a * x <= a * y;
    assert a * y <= b * y;
  }

  lemma ContributionBounds(e: WindowEvent, cfg: Tier2Config)
    requires Divides(e, cfg) && cfg.maxPerWindow >= 0.0
    ensures 0.0 <= Contribution(e, cfg) <= cfg.maxPerWindow
  {
  }

  /**
   * What one window does, without its division: x is the share of failures above baseline on all attempts,
   * the prior's included. It adds x to the decayed score where that lies between 0 and the cap, 0 below and
   * the cap above, and is flagged above the margin.
   */
  lemma OneWindowAdds(s: State, e: WindowEvent, cfg: Tier2Config, decay: Decay, x: real)
    requires Divides(e, cfg) && cfg.maxPerWindow >= 0.0
    requires x * (e.attempts as real + cfg.priorN) == e.failures as real - cfg.baseline * e.attempts as real
    ensures var (next, v) := Advance(s, e, cfg, decay);
            var added := if x < 0.0 then 0.0 else if x <= cfg.maxPerWindow then x else cfg.maxPerWindow;
            && next == State(s.score * decay(e.timestamp - s.lastUpdate) + added, e.timestamp,
                             s.flags + [(e.timestamp, x > cfg.flagMargin)])
            && v.ratio == cfg.baseline + x && v.contribution == added && v.score == next.score
            && (v.flagged <==> x > cfg.flagMargin)
  {
    hide CountFlags, HorizonStart;
    ShareIs(e, cfg, x);
  }

  lemma ShareIs(e: WindowEvent, cfg: Tier2Config, x: real)
    requires Divides(e, cfg)
    requires x * (e.attempts as real + cfg.priorN) == e.failures as real - cfg.baseline * e.attempts as real
    ensures SmoothedRatio(e, cfg) == cfg.baseline + x
  {
    var n := e.attempts as real + cfg.priorN;
    assert cfg.baseline * n == cfg.baseline * e.attempts as real + cfg.priorN * cfg.baseline;
    assert (cfg.baseline + x) * n == cfg.baseline * n + x * n;
    QuotientIs(e.failures as real + cfg.priorN * cfg.baseline, n, cfg.baseline + x);
  }

  lemma QuotientIs(x: real, y: real, t: real)
    requires y != 0.0 && t * y == x
    ensures x / y == t
  {
    assert (x / y - t) * y == 0.0;
  }

  /** One update of a run. */
  lemma RunStep(s: State, events: seq<WindowEvent>, cfg: Tier2Config, decay: Decay)
    requires AllDivide(events, cfg) && events != []
    ensures var before, e := events[..|events| - 1], events[|events| - 1];
            var p, r := RunFrom(s, before, cfg, decay), RunFrom(s, events, cfg, decay);
            && r.score == p.score * decay(e.timestamp - p.lastUpdate) + Contribution(e, cfg)
            && r.lastUpdate == e.timestamp
            && r.flags == p.flags + [(e.timestamp, Flagged(e, cfg))]
  {
    hide SmoothedRatio, Contribution, Flagged, CountFlags, HorizonStart;
  }

  lemma NoRun(s: State, cfg: Tier2Config, decay: Decay)
    ensures RunFrom(s, [], cfg, decay) == s
  {
  }

  lemma ScoreStep(score: real, bound: real, d: real, q: real, c: real, cap: real)
    requires 0.0 <= score <= bound && 0.0 < d <= q && 0.0 <= c <= cap
    ensures 0.0 <= score * d + c <= bound * q + cap
  {
    MulMono(score, bound, d, q);
  }

  /** Windows at least `gap` apart keep the score under the geometric sum of ratio decay(gap). */
  lemma {:induction false} ScoreUnderGeometric(events: seq<WindowEvent>, gap: real, cfg: Tier2Config, decay: Decay)
    requires AllDivide(events, cfg) && cfg.maxPerWindow >= 0.0 && IsDecay(decay) && SpacedAtLeast(events, gap)
    ensures 0.0 <= RunFrom(FRESH, events, cfg, decay).score <= cfg.maxPerWindow * Geometric(decay(gap), |events|)
  {
    hide SmoothedRatio, Contribution, Flagged, CountFlags, HorizonStart, Geometric, RunFrom;
    GeometricStep(decay(gap), |events|);
    NoRun(FRESH, cfg, decay);
    if events != [] {
      RunStep(FRESH, events, cfg, decay);
      var before, e, n := events[..|events| - 1], events[|events| - 1], |events| - 1;
      var s, q, cap := RunFrom(FRESH, before, cfg, decay), decay(gap), cfg.maxPerWindow;
      ScoreUnderGeometric(before, gap, cfg, decay);
      ContributionBounds(e, cfg);
      if n > 0 {
        RunStep(FRESH, before, cfg, decay);
        ScoreStep(s.score, cap * Geometric(q, n), decay(e.timestamp - s.lastUpdate), q, Contribution(e, cfg), cap);
      } else {
        ScoreStep(0.0, 0.0, decay(e.timestamp - s.lastUpdate), 1.0, Contribution(e, cfg), cap);
      }
      Distribute(cap, Geometric(q, n), q);
    }
  }

  lemma Distribute(cap: real, g: real, q: real)
    ensures (cap * g) * q + cap == cap * (g * q + 1.0)
  {
  }

  /** After n updates at least w apart, 0 <= score and score (1 - q) <= cap (1 - q^n), with q = decay(w) < 1. */
  lemma GeometricScoreBound(events: seq<WindowEvent>, w: real, cfg: Tier2Config, decay: Decay)
    requires AllDivide(events, cfg) && cfg.maxPerWindow >= 0.0 && IsDecay(decay) && SpacedAtLeast(events, w)
    requires decay(w) < 1.0
    ensures var q, n, score := decay(w), |events|, RunFrom(FRESH, events, cfg, decay).score;
            0.0 <= score && score * (1.0 - q) <= cfg.maxPerWindow * (1.0 - Pow(q, n))
  {
    hide RunFrom, Geometric, Pow, IsDecay;
    var q, n := decay(w), |events|;
    ScoreUnderGeometric(events, w, cfg, decay);
    GeometricClosed(q, n);
    Closed(RunFrom(FRESH, events, cfg, decay).score, cfg.maxPerWindow, Geometric(q, n), Pow(q, n), 1.0 - q);
  }

  lemma Closed(score: real, cap: real, g: real, p: real, d: real)
    requires 0.0 <= score <= cap * g && d > 0.0 && g * d == 1.0 - p
    ensures score * d <= cap * (1.0 - p)
  {
    MulMono(score, cap * g, d, d);
    assert (cap * g) * d == cap * (g * d);
  }

  /** Whatever the spacing, n updates from fresh reach at most n times the cap. */
  lemma {:induction false} ScoreAtMostCaps(events: seq<WindowEvent>, cfg: Tier2Config, decay: Decay)
    requires AllDivide(events, cfg) && cfg.maxPerWindow >= 0.0 && IsDecay(decay)
    ensures 0.0 <= RunFrom(FRESH, events, cfg, decay).score <= |events| as real * cfg.maxPerWindow
  {
    hide SmoothedRatio, Contribution, Flagged, CountFlags, HorizonStart, RunFrom;
    NoRun(FRESH, cfg, decay);
    if events != [] {
      RunStep(FRESH, events, cfg, decay);
      var before, e, cap := events[..|events| - 1], events[|events| - 1], cfg.maxPerWindow;
      var s, n := RunFrom(FRESH, before, cfg, decay), |before| as real;
      ScoreAtMostCaps(before, cfg, decay);
      ContributionBounds(e, cfg);
      ScoreStep(s.score, n * cap, decay(e.timestamp - s.lastUpdate), 1.0, Contribution(e, cfg), cap);
      assert |events| as real == n + 1.0;
      Distribute(1.0, n, cap);
    }
  }
}
