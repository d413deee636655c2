/** trust_risk_repository.py: one trust record per subscriber, moved by each assessment. */
module Trust {
  import opened Wrappers
  import opened Assessment

  datatype TrustLevel = TRUSTED | NORMAL | WATCHLIST | BLOCKED
  {
    function Rank(): nat {
      match this case TRUSTED => 0 case NORMAL => 1 case WATCHLIST => 2 case BLOCKED => 3
    }
  }

  datatype HistoryEntry = HistoryEntry(timestamp: real, level: RiskLevel, score: int, reasons: seq<string>)

  datatype Record = Record(supi: string, trust: TrustLevel, latest: Option<RiskLevel>, latestScore: int,
                           reputation: real, consecutive: nat, total: nat, lastUpdated: real,
                           history: seq<HistoryEntry>)

  datatype Limits = Limits(blockThreshold: int, maxHistory: nat)

  type Repository = map<string, Record>

  function NewRecord(supi: string): Record {
    Record(supi, TRUSTED, None, 0, 0.0, 0, 0, 0.0, [])
  }

  function Clamp(x: real): real {
    if x < 0.0 then 0.0 else if x > 1.0 then 1.0 else x
  }

  function Drift(level: RiskLevel): real {
    match level case LOW => 0.05 case MEDIUM => 0.01 case HIGH => -0.05
  }

  /** history[-max:] once it is longer than max; with max == 0 that slice is the whole list. */
  function Trimmed(history: seq<HistoryEntry>, max: nat): seq<HistoryEntry> {
    if |history| > max && max > 0 then history[|history| - max..] else history
  }

  function Resolve(consecutive: nat, latest: RiskLevel, limits: Limits): TrustLevel {
    if consecutive >= limits.blockThreshold then BLOCKED
    else match latest case HIGH => WATCHLIST case MEDIUM => NORMAL case LOW => TRUSTED
  }

  function EntryOf(a: RiskAssessment): HistoryEntry {
    HistoryEntry(a.timestamp, a.level, a.score, a.reasons)
  }

  function Updated(r: Record, a: RiskAssessment, limits: Limits): Record {
    var consecutive := if a.level == HIGH then r.consecutive + 1 else 0;
    Record(r.supi, Resolve(consecutive, a.level, limits), Some(a.level), a.score, Clamp(r.reputation + Drift(a.level)),
           consecutive, r.total + 1, a.timestamp, Trimmed(r.history + [EntryOf(a)], limits.maxHistory))
  }

  function RecordOf(repo: Repository, supi: string): Record {
    if supi in repo then repo[supi] else NewRecord(supi)
  }

  function UpdateFrom(repo: Repository, a: RiskAssessment, limits: Limits): Repository {
    repo[a.supi := Updated(RecordOf(repo, a.supi), a, limits)]
  }

  // ── The mutable objects ──────────────────────────────────────────────────

  class TrustRecord {
    const supi: string
    var trust: TrustLevel
    var latest: Option<RiskLevel>
    var latestScore: int
    var reputation: real
    var consecutive: nat
    var total: nat
    var lastUpdated: real
    var history: seq<HistoryEntry>

    constructor (supi: string)
      ensures Value() == NewRecord(supi)
    {
      this.supi := supi;
      trust, latest, latestScore, reputation := TRUSTED, None, 0, 0.0;
      consecutive, total, lastUpdated, history := 0, 0, 0.0, [];
    }

    function Value(): Record
      reads this
    {
      Record(supi, trust, latest, latestScore, reputation, consecutive, total, lastUpdated, history)
    }

    /** The body of update_from_assessment, on one record. */
    method Update(a: RiskAssessment, limits: Limits)
      modifies this
      ensures Value() == Updated(old(Value()), a, limits)
    {
      hide Trimmed, Clamp, Resolve, EntryOf;
      total := total + 1;
      lastUpdated := a.timestamp;
      latest := Some(a.level);
      latestScore := a.score;
      if a.level == HIGH {
        consecutive := consecutive + 1;
      } else {
        consecutive := 0;
      }
      if a.level == LOW {
        reputation := Clamp(reputation + 0.05);
      } else if a.level == MEDIUM {
        reputation := Clamp(reputation + 0.01);
      } else {
        reputation := Clamp(reputation - 0.05);
      }
      history := history + [EntryOf(a)];
      history := Trimmed(history, limits.maxHistory);
      trust := Resolve(consecutive, a.level, limits);
    }
  }

  class TrustRiskRepository {
    const limits: Limits
    var records: map<string, TrustRecord>

    ghost predicate Valid()
      reads this
    {
      forall a, b :: a in records && b in records && a != b ==> records[a] != records[b]
    }

    ghost function Objects(): set<object>
      reads this
    {
      set supi | supi in records :: records[supi]
    }

    ghost function Contents(): Repository
      reads this, Objects()
    {
      map supi | supi in records :: records[supi].Value()
    }

    constructor (limits: Limits)
      ensures Valid() && this.limits == limits && Contents() == map[] && Objects() == {}
    {
      this.limits := limits;
      records := map[];
    }

    method CreateRecord(supi: string) returns (record: TrustRecord)
      requires Valid()
      modifies this
      ensures Valid() && fresh(Objects() - old(Objects()))
      ensures supi in records && records[supi] == record
      ensures Contents() == old(Contents())[supi := RecordOf(old(Contents()), supi)]
    {
      if supi in records {
        return records[supi];
      }
      record := new TrustRecord(supi);
      records := records[supi := record];
    }

    /** Moving one record leaves every other record alone. */
    method UpdateRecord(record: TrustRecord, supi: string, a: RiskAssessment)
      requires Valid() && supi in records && records[supi] == record
      modifies record
      ensures Valid()
      ensures record.Value() == Updated(old(record.Value()), a, limits)
      ensures Contents() == old(Contents())[supi := record.Value()]
    {
      hide Updated;
      record.Update(a, limits);
      assert forall other :: other in records && other != supi ==> records[other] != record;
    }

    method UpdateFromAssessment(a: RiskAssessment) returns (record: TrustRecord)
      requires Valid()
      modifies this, Objects()
      ensures Valid() && fresh(Objects() - old(Objects()))
      ensures a.supi in records && records[a.supi] == record
      ensures Contents() == UpdateFrom(old(Contents()), a, limits)
      ensures record.Value() == Contents()[a.supi]
    {
      hide Updated;
      record := CreateRecord(a.supi);
      ghost var got := Contents();
      assert got[a.supi] == record.Value();
      UpdateRecord(record, a.supi, a);
      assert old(Contents())[a.supi := record.Value()] == got[a.supi := record.Value()];
    }

    method GetRecord(supi: string) returns (r: Option<TrustRecord>)
      ensures r == if supi in records then Some(records[supi]) else None
    {
      return if supi in records then Some(records[supi]) else None;
    }
  }

  // ── Repositories fed only by assessments of signals ──────────────────────

  /** The repository a sequence of signals leaves. */
  function Fed(signals: seq<Signal>, cfg: AssessmentConfig, limits: Limits): Repository {
    if signals == [] then map[]
    else UpdateFrom(Fed(signals[..|signals| - 1], cfg, limits), Assessed(signals[|signals| - 1], cfg), limits)
  }

  function LevelsOf(signals: seq<Signal>, cfg: AssessmentConfig, supi: string): seq<RiskLevel> {
    if signals == [] then []
    else
      var s := signals[|signals| - 1];
      LevelsOf(signals[..|signals| - 1], cfg, supi) + (if s.supi == supi then [LevelOf(s, cfg)] else [])
  }

  /** How many HIGH levels the list ends in. */
  function TrailingHigh(levels: seq<RiskLevel>): nat {
    if levels == [] || levels[|levels| - 1] != HIGH then 0 else 1 + TrailingHigh(levels[..|levels| - 1])
  }

  /** A record as the levels assessed for its subscriber leave it. */
  ghost predicate Reached(r: Record, levels: seq<RiskLevel>, limits: Limits) {
    && levels != []
    && var last := levels[|levels| - 1];
    && r.latest == Some(last) && r.latestScore == ScoreOf(last)
    && r.consecutive == TrailingHigh(levels) && r.total == |levels|
    && r.trust == Resolve(r.consecutive, last, limits)
    && 0.0 <= r.reputation <= 1.0
    && Remembers(r.history, levels, limits.maxHistory)
  }

  /** The history holds the last levels, as many as it keeps. */
  ghost predicate Remembers(history: seq<HistoryEntry>, levels: seq<RiskLevel>, max: nat) {
    |history| == Kept(|levels|, max) && HistoryLevels(history) == levels[|levels| - |history|..]
  }

  /** How many of n entries the history keeps; a bound of 0 keeps them all. */
  function Kept(n: nat, max: nat): (k: nat)
    ensures k <= n
  {
    if n > max > 0 then max else n
  }

  function HistoryLevels(history: seq<HistoryEntry>): seq<RiskLevel> {
    seq(|history|, i requires 0 <= i < |history| => history[i].level)
  }

  lemma HistoryStep(history: seq<HistoryEntry>, levels: seq<RiskLevel>, e: HistoryEntry, max: nat)
    requires Remembers(history, levels, max)
    ensures Remembers(Trimmed(history + [e], max), levels + [e.level], max)
  {
    var grown, levels' := history + [e], levels + [e.level];
    var cut := |grown| - Kept(|levels'|, max);
    assert Trimmed(grown, max) == grown[cut..];
    forall i | 0 <= i < |grown|
      ensures grown[i].level == levels'[|levels'| - |grown| + i]
    {
      assert i < |history| ==> history[i].level == HistoryLevels(history)[i];
    }
  }

  lemma UpdatedReached(r: Record, levels: seq<RiskLevel>, a: RiskAssessment, limits: Limits)
    requires if levels == [] then r == NewRecord(r.supi) else Reached(r, levels, limits)
    requires a.score == ScoreOf(a.level)
    ensures Reached(Updated(r, a, limits), levels + [a.level], limits)
  {
    hide Trimmed, Remembers, Resolve;
    if levels == [] {
      NoHistory(limits.maxHistory);
    }
    HistoryStep(r.history, levels, EntryOf(a), limits.maxHistory);
    TrailingStep(levels, a.level);
  }

  lemma NoHistory(max: nat)
    ensures Remembers([], [], max)
  {
  }

  lemma TrailingStep(levels: seq<RiskLevel>, level: RiskLevel)
    ensures TrailingHigh(levels + [level]) == if level == HIGH then 1 + TrailingHigh(levels) else 0
  {
    assert (levels + [level])[..|levels|] == levels;
  }

  /** There is a record exactly for the subscribers seen, each as its own levels leave it. */
  lemma {:induction false} FedReached(signals: seq<Signal>, cfg: AssessmentConfig, limits: Limits, supi: string)
    ensures var repo, levels := Fed(signals, cfg, limits), LevelsOf(signals, cfg, supi);
            && (supi in repo <==> levels != [])
            && (supi in repo ==> repo[supi].supi == supi && Reached(repo[supi], levels, limits))
  {
    hide Reached, Updated, LevelOf;
    if signals != [] {
      var n := |signals| - 1;
      FedReached(signals[..n], cfg, limits, supi);
      if signals[n].supi == supi {
        UpdatedReached(RecordOf(Fed(signals[..n], cfg, limits), supi), LevelsOf(signals[..n], cfg, supi),
                       Assessed(signals[n], cfg), limits);
        UpdatedKeepsName(RecordOf(Fed(signals[..n], cfg, limits), supi), Assessed(signals[n], cfg), limits);
      } else {
        assert LevelsOf(signals[..n], cfg, supi) + [] == LevelsOf(signals[..n], cfg, supi);
      }
    }
  }

  lemma UpdatedKeepsName(r: Record, a: RiskAssessment, limits: Limits)
    ensures Updated(r, a, limits).supi == r.supi
  {
  }

  /** Trust read off the levels: blocked on block_threshold HIGH in a row, watched on fewer. */
  lemma TrustMeaning(signals: seq<Signal>, cfg: AssessmentConfig, limits: Limits, supi: string)
    requires limits.blockThreshold >= 1 && supi in Fed(signals, cfg, limits)
    ensures var trust, levels := Fed(signals, cfg, limits)[supi].trust, LevelsOf(signals, cfg, supi);
            && levels != []
            && (trust == BLOCKED <==> TrailingHigh(levels) >= limits.blockThreshold)
            && (trust == BLOCKED || trust == WATCHLIST <==> levels[|levels| - 1] == HIGH)
            && (trust == NORMAL <==> levels[|levels| - 1] == MEDIUM)
            && (trust == TRUSTED <==> levels[|levels| - 1] == LOW)
  {
    FedReached(signals, cfg, limits, supi);
  }

  // ── The reputation ───────────────────────────────────────────────────────

  function ReputationIn(repo: Repository, supi: string): real {
    if supi in repo then repo[supi].reputation else 0.0
  }

  /**
   * One more signal: LOW raises the reputation of its subscriber by 0.05 and MEDIUM by 0.01, up to 1; HIGH
   * lowers it by 0.05, down to 0. Nobody else's record moves.
   */
  lemma ReputationMoves(signals: seq<Signal>, s: Signal, cfg: AssessmentConfig, limits: Limits)
    ensures var was, now := Fed(signals, cfg, limits), Fed(signals + [s], cfg, limits);
            var r, level := ReputationIn(was, s.supi), LevelOf(s, cfg);
            && s.supi in now && 0.0 <= r <= 1.0
            && (level == LOW ==> now[s.supi].reputation == if r <= 0.95 then r + 0.05 else 1.0)
            && (level == MEDIUM ==> now[s.supi].reputation == if r <= 0.99 then r + 0.01 else 1.0)
            && (level == HIGH ==> now[s.supi].reputation == if r >= 0.05 then r - 0.05 else 0.0)
            && forall x :: x != s.supi ==> (x in now <==> x in was) && (x in was ==> now[x] == was[x])
  {
    hide LevelOf, Trimmed, Resolve, LevelsOf;
    assert (signals + [s])[..|signals|] == signals;
    FedReached(signals, cfg, limits, s.supi);
    hide Reached;
  }

  /** A subscriber only ever assessed LOW, n times, stands at 0.05 n, at most at 1. */
  lemma {:induction false} LowRun(signals: seq<Signal>, cfg: AssessmentConfig, limits: Limits, supi: string)
    requires forall level :: level in LevelsOf(signals, cfg, supi) ==> level == LOW
    ensures var n := |LevelsOf(signals, cfg, supi)|;
            ReputationIn(Fed(signals, cfg, limits), supi) == if n <= 20 then 0.05 * n as real else 1.0
  {
    hide LevelOf, Fed;
    if signals == [] {
      NothingFed(cfg, limits);
    } else {
      var n := |signals| - 1;
      var before := LevelsOf(signals[..n], cfg, supi);
      assert forall level :: level in before ==> level in LevelsOf(signals, cfg, supi);
      LowRun(signals[..n], cfg, limits, supi);
      ReputationMoves(signals[..n], signals[n], cfg, limits);
      assert signals[..n] + [signals[n]] == signals;
      if signals[n].supi == supi {
        assert LevelOf(signals[n], cfg) in LevelsOf(signals, cfg, supi);
      }
    }
  }

  lemma NothingFed(cfg: AssessmentConfig, limits: Limits)
    ensures Fed([], cfg, limits) == map[]
  {
  }

  /** Of two runs over the same subscribers, the one nowhere riskier never leaves anybody the lower reputation. */
  lemma {:induction false} RiskierNeverTrusted(a: seq<Signal>, b: seq<Signal>, cfg: AssessmentConfig, limits: Limits,
                                               supi: string)
    requires |a| == |b| && forall i :: 0 <= i < |a| ==> NoRiskier(a[i], b[i])
    ensures ReputationIn(Fed(a, cfg, limits), supi) >= ReputationIn(Fed(b, cfg, limits), supi)
  {
    hide LevelOf, Fed, NoRiskier;
    if a != [] {
      var n := |a| - 1;
      RiskierNeverTrusted(a[..n], b[..n], cfg, limits, supi);
      AssessmentIsMonotone(a[n], b[n], cfg);
      SameSubscriber(a[n], b[n]);
      ReputationMoves(a[..n], a[n], cfg, limits);
      ReputationMoves(b[..n], b[n], cfg, limits);
      assert a[..n] + [a[n]] == a && b[..n] + [b[n]] == b;
    } else {
      NothingFed(cfg, limits);
    }
  }

  lemma SameSubscriber(a: Signal, b: Signal)
    requires NoRiskier(a, b)
    ensures a.supi == b.supi
  {
  }

  // ── The history ──────────────────────────────────────────────────────────

  /** The signals about one subscriber. */
  function OwnSignals(signals: seq<Signal>, supi: string): seq<Signal> {
    if signals == [] then []
    else
      var s := signals[|signals| - 1];
      OwnSignals(signals[..|signals| - 1], supi) + (if s.supi == supi then [s] else [])
  }

  /** An entry says what its signal was assessed as. */
  ghost predicate Logs(e: HistoryEntry, s: Signal, cfg: AssessmentConfig) {
    var a := Assessed(s, cfg);
    e.timestamp == s.timestamp && e.level == a.level && e.score == a.score && e.reasons == a.reasons
  }

  ghost predicate LogsLast(history: seq<HistoryEntry>, own: seq<Signal>, cfg: AssessmentConfig) {
    && |history| <= |own|
    && forall i :: 0 <= i < |history| ==> Logs(history[i], own[|own| - |history| + i], cfg)
  }

  /** The history of a record logs its subscriber's last signals, and its time is that of the last. */
  lemma {:induction false} HistoryLogs(signals: seq<Signal>, cfg: AssessmentConfig, limits: Limits, supi: string)
    ensures var repo, own := Fed(signals, cfg, limits), OwnSignals(signals, supi);
            && (supi in repo <==> own != [])
            && (supi in repo ==> repo[supi].lastUpdated == own[|own| - 1].timestamp
                                 && LogsLast(repo[supi].history, own, cfg))
  {
    hide Logs, LogsLast, Resolve, Assessed, Trimmed;
    if signals != [] {
      var n := |signals| - 1;
      var s := signals[n];
      HistoryLogs(signals[..n], cfg, limits, supi);
      AssessedIsLogged(s, cfg);
      if s.supi == supi {
        var was := RecordOf(Fed(signals[..n], cfg, limits), supi);
        NothingLogged(cfg);
        LogsOneMore(was.history, OwnSignals(signals[..n], supi), s, cfg, limits.maxHistory);
      } else {
        assert OwnSignals(signals[..n], supi) + [] == OwnSignals(signals[..n], supi);
      }
    }
  }

  lemma NothingLogged(cfg: AssessmentConfig)
    ensures LogsLast([], [], cfg)
  {
  }

  lemma AssessedIsLogged(s: Signal, cfg: AssessmentConfig)
    ensures Assessed(s, cfg).supi == s.supi && Assessed(s, cfg).timestamp == s.timestamp
  {
  }

  lemma LogsOneMore(history: seq<HistoryEntry>, own: seq<Signal>, s: Signal, cfg: AssessmentConfig, max: nat)
    requires LogsLast(history, own, cfg)
    ensures LogsLast(Trimmed(history + [EntryOf(Assessed(s, cfg))], max), own + [s], cfg)
  {
    hide Logs, Assessed, EntryOf, LogsLast, Trimmed;
    EntryLogs(s, cfg);
    LogsGrown(history, own, EntryOf(Assessed(s, cfg)), s, cfg);
    LogsTrimmed(history + [EntryOf(Assessed(s, cfg))], own + [s], cfg, max);
  }

  lemma LogsGrown(history: seq<HistoryEntry>, own: seq<Signal>, e: HistoryEntry, s: Signal, cfg: AssessmentConfig)
    requires LogsLast(history, own, cfg) && Logs(e, s, cfg)
    ensures LogsLast(history + [e], own + [s], cfg)
  {
    hide Logs;
    var grown, all := history + [e], own + [s];
    forall i | 0 <= i < |grown|
      ensures Logs(grown[i], all[|all| - |grown| + i], cfg)
    {
      assert i < |history| ==> grown[i] == history[i] && all[|all| - |grown| + i] == own[|own| - |history| + i];
    }
  }

  lemma LogsTrimmed(history: seq<HistoryEntry>, own: seq<Signal>, cfg: AssessmentConfig, max: nat)
    requires LogsLast(history, own, cfg)
    ensures LogsLast(Trimmed(history, max), own, cfg)
  {
    hide Logs;
    var kept := Trimmed(history, max);
    forall i | 0 <= i < |kept|
      ensures Logs(kept[i], own[|own| - |kept| + i], cfg)
    {
      assert kept[i] == history[|history| - |kept| + i];
    }
  }

  lemma EntryLogs(s: Signal, cfg: AssessmentConfig)
    ensures Logs(EntryOf(Assessed(s, cfg)), s, cfg)
  {
  }
}
