/**
 * adaptive_authentication_pipeline.py: assessment, trust record, neighbours, policy, execution, one event at a
 * time.
 */
module Pipeline {
  import opened Wrappers
  import opened Assessment
  import opened Trust
  import opened Propagation
  import opened Policy

  datatype Config = Config(assessment: AssessmentConfig, limits: Limits)

  datatype State = State(repo: Repository, rels: seq<Relationship>)

  const EMPTY := State(map[], [])

  datatype Outcome = Outcome(assessment: RiskAssessment, record: Record, propagated: PropagatedRisk,
                             decision: Decision, result: AuthResult)

  function Handle(cfg: Config, s: State, signal: Signal): (State, Outcome) {
    var a := Assessed(signal, cfg.assessment);
    var repo := UpdateFrom(s.repo, a, cfg.limits);
    var record := repo[a.supi];
    var propagated := Propagate(repo, s.rels, record.supi);
    var decision := Evaluate(Some(record), Some(propagated));
    (State(repo, s.rels), Outcome(a, record, propagated, decision, Execute(decision)))
  }

  /** The signal of an event; None where process raises: no supi key, or no time to convert. */
  function SignalOf(e: Stage1): Option<Signal> {
    if e.supi.Absent? then None else FromStage1(e)
  }

  datatype Input =
    | Request(event: Stage1)
    | Relate(r: Relationship)
    | Unrelate(source: string, target: string, kind: RelationshipType)
    | ClearRelations

  /** An event that raises changes nothing. */
  function Step(cfg: Config, s: State, i: Input): (State, Option<Outcome>) {
    match i
    case Request(e) =>
      if SignalOf(e).None? then (s, None)
      else
        var (next, o) := Handle(cfg, s, SignalOf(e).value);
        (next, Some(o))
    case Relate(r) => (s.(rels := s.rels + [r]), None)
    case Unrelate(source, target, kind) => (s.(rels := Without(s.rels, source, target, kind)), None)
    case ClearRelations => (s.(rels := []), None)
  }

  function Run(cfg: Config, inputs: seq<Input>): (State, seq<Option<Outcome>>) {
    if inputs == [] then (EMPTY, [])
    else
      var (s, outs) := Run(cfg, inputs[..|inputs| - 1]);
      var (next, o) := Step(cfg, s, inputs[|inputs| - 1]);
      (next, outs + [o])
  }

  /** What process may be called with. */
  datatype Event = NoEvent | NotAMapping | Mapping(value: Stage1)

  datatype Raised = ValueError | TypeError

  class AdaptiveAuthenticationPipeline {
    const cfg: Config
    const repository: TrustRiskRepository
    const propagation: CollaborativeRiskPropagation

    ghost predicate Valid()
      reads repository
    {
      repository.Valid() && repository.limits == cfg.limits && propagation.repository == repository
    }

    ghost function Contents(): State
      reads repository, repository.Objects(), propagation
    {
      State(repository.Contents(), propagation.relationships)
    }

    constructor (cfg: Config)
      ensures Valid() && this.cfg == cfg && Contents() == EMPTY
    {
      this.cfg := cfg;
      var repo := new TrustRiskRepository(cfg.limits);
      repository := repo;
      propagation := new CollaborativeRiskPropagation(repo);
    }

    method ProcessSignal(signal: Signal) returns (o: Outcome)
      requires Valid()
      modifies repository, repository.Objects()
      ensures Valid() && (Contents(), o) == Handle(cfg, old(Contents()), signal)
    {
      hide Assessed, UpdateFrom, Propagate, Evaluate, Execute, LevelOf;
      var a := Assess(signal, cfg.assessment);
      var record := repository.UpdateFromAssessment(a);
      var value := record.Value();
      var propagated := propagation.CalculatePropagatedRisk(value.supi);
      var decision := Evaluate(Some(value), Some(propagated));
      o := Outcome(a, value, propagated, decision, Execute(decision));
    }

    /** A missing event, one that is no mapping, and one without a supi raise before anything is touched. */
    method Process(event: Event) returns (r: Result<Outcome, Raised>)
      requires Valid()
      modifies repository, repository.Objects()
      ensures Valid()
      ensures r.Err? ==> Contents() == old(Contents())
      ensures event.NoEvent? ==> r == Err(ValueError)
      ensures event.NotAMapping? ==> r == Err(TypeError)
      ensures event.Mapping? ==>
                && (Contents(), if r.Ok? then Some(r.value) else None) ==
                   Step(cfg, old(Contents()), Request(event.value))
                && (r == Err(ValueError) <==> event.value.supi.Absent?)
                && (r == Err(TypeError) <==> !event.value.supi.Absent? && event.value.timestamp.Null?)
    {
      hide Handle;
      if event.NoEvent? {
        return Err(ValueError);
      }
      if event.NotAMapping? {
        return Err(TypeError);
      }
      if event.value.supi.Absent? {
        return Err(ValueError);
      }
      var signal := FromStage1(event.value);
      if signal.None? {
        return Err(TypeError);
      }
      var o := ProcessSignal(signal.value);
      return Ok(o);
    }
  }

  // ── Runs are fed only by assessments ─────────────────────────────────────

  function SignalsOf(inputs: seq<Input>): seq<Signal> {
    if inputs == [] then []
    else
      var i := inputs[|inputs| - 1];
      SignalsOf(inputs[..|inputs| - 1])
          + (if i.Request? && SignalOf(i.event).Some? then [SignalOf(i.event).value] else [])
  }

  lemma HandleFeeds(cfg: Config, signals: seq<Signal>, rels: seq<Relationship>, a: Signal)
    ensures Handle(cfg, State(Fed(signals, cfg.assessment, cfg.limits), rels), a).0.repo
            == Fed(signals + [a], cfg.assessment, cfg.limits)
  {
    hide UpdateFrom;
    assert (signals + [a])[..|signals|] == signals;
  }

  lemma {:induction false} RunIsFed(cfg: Config, inputs: seq<Input>)
    ensures Run(cfg, inputs).0.repo == Fed(SignalsOf(inputs), cfg.assessment, cfg.limits)
    ensures |Run(cfg, inputs).1| == |inputs|
  {
    hide Handle, Fed, SignalOf;
    if inputs == [] {
      NothingFed(cfg);
    } else {
      var n := |inputs| - 1;
      RunIsFed(cfg, inputs[..n]);
      var before := SignalsOf(inputs[..n]);
      assert before + [] == before;
      if inputs[n].Request? && SignalOf(inputs[n].event).Some? {
        HandleFeeds(cfg, before, Run(cfg, inputs[..n]).0.rels, SignalOf(inputs[n].event).value);
      }
    }
  }

  lemma NothingFed(cfg: Config)
    ensures Fed([], cfg.assessment, cfg.limits) == map[]
  {
  }

  // ── The action, read off the signals ─────────────────────────────────────

  /** The action after the last of some signals, about its subscriber. */
  function ActionAfter(signals: seq<Signal>, cfg: Config, rels: seq<Relationship>, supi: string): Action {
    var levels := LevelsOf(signals, cfg.assessment, supi);
    var weight := WeightFrom(signals, cfg.assessment, rels, supi);
    if TrailingHigh(levels) >= cfg.limits.blockThreshold then TEMPORARY_BLOCK
    else if levels != [] && levels[|levels| - 1] != RiskLevel.LOW then STEP_UP
    else if weight <= 0.0 then ALLOW
    else if weight <= 0.74 then MONITOR
    else STEP_UP
  }

  /** What the policy makes of a record as its levels leave it, and of propagated risk by weight. */
  lemma ReachedAction(r: Record, levels: seq<RiskLevel>, limits: Limits, p: PropagatedRisk, weight: real)
    requires limits.blockThreshold >= 1 && Reached(r, levels, limits)
    requires Weighed(p, weight)
    ensures Evaluate(Some(r), Some(p)).action ==
            if TrailingHigh(levels) >= limits.blockThreshold then TEMPORARY_BLOCK
            else if levels[|levels| - 1] != RiskLevel.LOW then STEP_UP
            else if weight <= 0.0 then ALLOW
            else if weight <= 0.74 then MONITOR
            else STEP_UP
    ensures Evaluate(Some(r), Some(p)).confidence == Medium <==>
            Evaluate(Some(r), Some(p)).action == MONITOR || levels[|levels| - 1] == RiskLevel.MEDIUM
  {
    hide Remembers;
  }

  /**
   * The whole chain in closed form. After any run, a request is blocked exactly when its subscriber was
   * assessed HIGH block_threshold times in a row; challenged when last assessed MEDIUM or HIGH; and else
   * let in, monitored or challenged by the weights of its neighbours last assessed HIGH.
   */
  lemma ActionClosedForm(cfg: Config, inputs: seq<Input>, e: Stage1)
    requires cfg.limits.blockThreshold >= 1 && SignalOf(e).Some?
    ensures var s, x := Run(cfg, inputs).0, SignalOf(e).value;
            var o := Handle(cfg, s, x).1;
            && o.decision.action == ActionAfter(SignalsOf(inputs) + [x], cfg, s.rels, x.supi)
            && (o.decision.confidence == Medium <==>
                  o.decision.action == MONITOR || LevelOf(x, cfg.assessment) == RiskLevel.MEDIUM)
            && o.decision.supi == x.supi
            && (o.result.success <==> o.decision.action != TEMPORARY_BLOCK)
  {
    hide Run, WeightFrom, LevelsOf, TrailingHigh, Reached, Propagate, Fed, UpdateFrom, Evaluate;
    var s, x := Run(cfg, inputs).0, SignalOf(e).value;
    var all := SignalsOf(inputs) + [x];
    RunIsFed(cfg, inputs);
    HandleFeeds(cfg, SignalsOf(inputs), s.rels, x);
    UpdateIn(s.repo, Assessed(x, cfg.assessment), cfg.limits);
    FedReached(all, cfg.assessment, cfg.limits, x.supi);
    PropagationClosedForm(all, cfg.assessment, cfg.limits, s.rels, x.supi);
    var o := Handle(cfg, s, x).1;
    LastLevel(SignalsOf(inputs), x, cfg.assessment);
    ReachedAction(o.record, LevelsOf(all, cfg.assessment, x.supi), cfg.limits, o.propagated,
                  WeightFrom(all, cfg.assessment, s.rels, x.supi));
    DecisionNames(o.record, o.propagated);
  }

  lemma LastLevel(signals: seq<Signal>, x: Signal, cfg: AssessmentConfig)
    ensures var levels := LevelsOf(signals + [x], cfg, x.supi);
            levels != [] && levels[|levels| - 1] == LevelOf(x, cfg)
  {
    assert (signals + [x])[..|signals|] == signals;
  }

  /**
   * What process returns besides: the assessment of the event, the record it left, and the risk propagated
   * by the neighbours last assessed HIGH.
   */
  lemma OutcomeMeaning(cfg: Config, inputs: seq<Input>, e: Stage1)
    requires cfg.limits.blockThreshold >= 1 && SignalOf(e).Some?
    ensures var s, x := Run(cfg, inputs).0, SignalOf(e).value;
            var (next, o) := Handle(cfg, s, x);
            var all := SignalsOf(inputs) + [x];
            && o.assessment == Assessed(x, cfg.assessment)
            && x.supi in next.repo && o.record == next.repo[x.supi] && next.rels == s.rels
            && o.propagated.supi == x.supi && Weighed(o.propagated, WeightFrom(all, cfg.assessment, s.rels, x.supi))
            && o.propagated.neighbours == HighNeighbours(all, cfg.assessment, s.rels, x.supi)
  {
    hide Run, WeightFrom, HighNeighbours, Propagate, Fed, UpdateFrom, Evaluate, LevelOf;
    var s, x := Run(cfg, inputs).0, SignalOf(e).value;
    var all := SignalsOf(inputs) + [x];
    RunIsFed(cfg, inputs);
    HandleFeeds(cfg, SignalsOf(inputs), s.rels, x);
    UpdateIn(s.repo, Assessed(x, cfg.assessment), cfg.limits);
    FedReached(all, cfg.assessment, cfg.limits, x.supi);
    PropagationClosedForm(all, cfg.assessment, cfg.limits, s.rels, x.supi);
  }

  /** With the relationships cleared no neighbour weighs on anybody: assessed LOW is let in. */
  lemma ClearedIsAllowed(cfg: Config, inputs: seq<Input>, e: Stage1)
    requires cfg.limits.blockThreshold >= 1 && SignalOf(e).Some?
    requires LevelOf(SignalOf(e).value, cfg.assessment) == RiskLevel.LOW
    ensures Handle(cfg, Run(cfg, inputs + [ClearRelations]).0, SignalOf(e).value).1.decision.action == ALLOW
  {
    hide Handle, LevelsOf, TrailingHigh, SignalOf, LevelOf;
    var all, x := inputs + [ClearRelations], SignalOf(e).value;
    ActionClosedForm(cfg, all, e);
    LastLevel(SignalsOf(all), x, cfg.assessment);
    LowIsNotHigh(LevelsOf(SignalsOf(all) + [x], cfg.assessment, x.supi));
    RunOne(cfg, inputs, ClearRelations);
  }

  lemma LowIsNotHigh(levels: seq<RiskLevel>)
    requires levels != [] && levels[|levels| - 1] == RiskLevel.LOW
    ensures TrailingHigh(levels) == 0
  {
  }

  lemma DecisionNames(r: Record, p: PropagatedRisk)
    ensures Evaluate(Some(r), Some(p)).supi == r.supi
  {
  }

  // ── Monotonicity ─────────────────────────────────────────────────────────

  /** The two runs differ at most in signals of the same subscribers, the second at least as risky. */
  predicate SideBySide(i: Input, j: Input) {
    if i.Request? then
      && j.Request? && SignalOf(i.event).Some? == SignalOf(j.event).Some?
      && (SignalOf(i.event).Some? ==> NoRiskier(SignalOf(i.event).value, SignalOf(j.event).value))
    else i == j
  }

  ghost predicate Comparable(a: seq<Input>, b: seq<Input>) {
    && |a| == |b|
    && (forall k :: 0 <= k < |a| ==> SideBySide(a[k], b[k]))
    && (forall k :: 0 <= k < |a| && a[k].Relate? ==> a[k].r.weight >= 0.0)
  }

  /** A record as an update leaves it. */
  predicate Sane(r: Record, limits: Limits) {
    && r.latest.Some? && r.trust == Resolve(r.consecutive, r.latest.value, limits)
    && r.latestScore == ScoreOf(r.latest.value)
    && (r.consecutive > 0 ==> r.latest.value == RiskLevel.HIGH)
  }

  predicate RecordBelow(r: Record, q: Record, limits: Limits) {
    && Sane(r, limits) && Sane(q, limits) && r.supi == q.supi
    && r.latest.value.Rank() <= q.latest.value.Rank() && r.consecutive <= q.consecutive
  }

  ghost predicate Below(a: Repository, b: Repository, limits: Limits) {
    && (forall x :: x in a <==> x in b)
    && (forall x :: x in a ==> a[x].supi == b[x].supi == x && RecordBelow(a[x], b[x], limits))
  }

  lemma UpdateKeepsBelow(a: Repository, b: Repository, s: Signal, t: Signal, cfg: Config)
    requires Below(a, b, cfg.limits) && NoRiskier(s, t)
    ensures Below(UpdateFrom(a, Assessed(s, cfg.assessment), cfg.limits),
                  UpdateFrom(b, Assessed(t, cfg.assessment), cfg.limits), cfg.limits)
  {
    AssessmentIsMonotone(s, t, cfg.assessment);
    UpdatedBelow(RecordOf(a, s.supi), RecordOf(b, s.supi), Assessed(s, cfg.assessment), Assessed(t, cfg.assessment),
                 cfg.limits);
    hide Updated, Assessed, RecordBelow;
  }

  lemma UpdatedBelow(r: Record, q: Record, a: RiskAssessment, b: RiskAssessment, limits: Limits)
    requires r == q == NewRecord(r.supi) || RecordBelow(r, q, limits)
    requires a.level.Rank() <= b.level.Rank() && a.score == ScoreOf(a.level) && b.score == ScoreOf(b.level)
    ensures RecordBelow(Updated(r, a, limits), Updated(q, b, limits), limits)
  {
  }

  /** A neighbour that weighs on a subscriber in the milder run weighs the same in the other. */
  lemma ContributesBelow(a: Repository, b: Repository, r: Relationship, supi: string, limits: Limits)
    requires limits.blockThreshold >= 1 && Below(a, b, limits)
    ensures Contributes(a, r, supi) ==> Contributes(b, r, supi) && a[r.source].latestScore == 100
    ensures Contributes(b, r, supi) ==> b[r.source].latestScore == 100
  {
  }

  /** The unscored sum so far, and with one more relationship. */
  lemma TotalStep(repo: Repository, rels: seq<Relationship>, r: Relationship, supi: string)
    requires Contributes(repo, r, supi) ==> repo[r.source].latestScore == 100
    ensures var before, after := Contributing(repo, rels, supi), Contributing(repo, rels + [r], supi);
            && Total(repo, after) == Total(repo, before)
               + (if Contributes(repo, r, supi) then 100.0 * r.weight else 0.0)
            && (after == [] <==> before == [] && !Contributes(repo, r, supi))
  {
    hide Contributing, Total, Contributes;
    var before := Contributing(repo, rels, supi);
    ContributingOne(repo, rels, r, supi);
    if Contributes(repo, r, supi) {
      SourceKnown(repo, r, supi);
      TotalOne(repo, before, r);
    } else {
      assert before + [] == before;
    }
  }

  lemma {:induction false} TotalBelow(a: Repository, b: Repository, rels: seq<Relationship>, supi: string,
                                      limits: Limits)
    requires limits.blockThreshold >= 1 && Below(a, b, limits) && NonNegative(rels)
    ensures 0.0 <= Total(a, Contributing(a, rels, supi)) <= Total(b, Contributing(b, rels, supi))
    ensures Contributing(b, rels, supi) == [] ==> Contributing(a, rels, supi) == []
  {
    if rels != [] {
      hide Contributes, Total, Contributing, Below;
      var n := |rels| - 1;
      var r := rels[n];
      TotalBelow(a, b, rels[..n], supi, limits);
      assert rels == rels[..n] + [r];
      ContributesBelow(a, b, r, supi, limits);
      TotalStep(a, rels[..n], r, supi) by { if Contributes(a, r, supi) { SourceKnown(a, r, supi); } }
      TotalStep(b, rels[..n], r, supi) by { if Contributes(b, r, supi) { SourceKnown(b, r, supi); } }
    }
  }

  lemma PropagateBelow(a: Repository, b: Repository, rels: seq<Relationship>, supi: string, limits: Limits)
    requires limits.blockThreshold >= 1 && Below(a, b, limits) && NonNegative(rels)
    ensures Propagate(a, rels, supi).level.Rank() <= Propagate(b, rels, supi).level.Rank()
  {
    hide Contributing, Total, Below;
    TotalBelow(a, b, rels, supi, limits);
  }

  lemma ActionBelow(r: Record, q: Record, p: PropagatedRisk, o: PropagatedRisk, limits: Limits)
    requires limits.blockThreshold >= 1 && RecordBelow(r, q, limits) && p.level.Rank() <= o.level.Rank()
    ensures Evaluate(Some(r), Some(p)).action.Rank() <= Evaluate(Some(q), Some(o)).action.Rank()
  {
    UpdatedIsMonotone(Seen(r.trust, r.latest.value, p.level), Seen(q.trust, q.latest.value, o.level));
  }

  lemma HandleBelow(cfg: Config, s: State, t: State, x: Signal, y: Signal)
    requires cfg.limits.blockThreshold >= 1 && Below(s.repo, t.repo, cfg.limits) && s.rels == t.rels
             && NonNegative(s.rels)
    requires NoRiskier(x, y)
    ensures var (s', o) := Handle(cfg, s, x);
            var (t', p) := Handle(cfg, t, y);
            && Below(s'.repo, t'.repo, cfg.limits)
            && o.decision.action.Rank() <= p.decision.action.Rank()
  {
    hide UpdateFrom, Propagate, Evaluate, RecordBelow;
    UpdateKeepsBelow(s.repo, t.repo, x, y, cfg);
    var a, b := UpdateFrom(s.repo, Assessed(x, cfg.assessment), cfg.limits),
        UpdateFrom(t.repo, Assessed(y, cfg.assessment), cfg.limits);
    PropagateBelow(a, b, s.rels, x.supi, cfg.limits);
    UpdateIn(s.repo, Assessed(x, cfg.assessment), cfg.limits);
    assert a[x.supi].supi == x.supi == y.supi && b[x.supi].supi == x.supi;
    ActionBelow(a[x.supi], b[x.supi], Propagate(a, s.rels, x.supi), Propagate(b, s.rels, x.supi), cfg.limits);
  }

  lemma UpdateIn(repo: Repository, a: RiskAssessment, limits: Limits)
    ensures a.supi in UpdateFrom(repo, a, limits)
  {
  }

  function ActionOf(o: Option<Outcome>): int {
    if o.Some? then o.value.decision.action.Rank() else -1
  }

  lemma RelsNonNegative(cfg: Config, s: State, i: Input)
    requires NonNegative(s.rels) && (i.Relate? ==> i.r.weight >= 0.0)
    ensures NonNegative(Step(cfg, s, i).0.rels)
  {
    if i.Unrelate? {
      WithoutNonNegative(s.rels, i.source, i.target, i.kind);
    }
  }

  lemma {:induction false} WithoutNonNegative(rels: seq<Relationship>, source: string, target: string,
                                              kind: RelationshipType)
    requires NonNegative(rels)
    ensures NonNegative(Without(rels, source, target, kind))
  {
    if rels != [] {
      WithoutNonNegative(rels[..|rels| - 1], source, target, kind);
    }
  }

  lemma StepBelow(cfg: Config, s: State, t: State, i: Input, j: Input)
    requires cfg.limits.blockThreshold >= 1 && Below(s.repo, t.repo, cfg.limits) && s.rels == t.rels
             && NonNegative(s.rels)
    requires SideBySide(i, j) && (i.Relate? ==> i.r.weight >= 0.0)
    ensures var (s', o) := Step(cfg, s, i);
            var (t', p) := Step(cfg, t, j);
            && Below(s'.repo, t'.repo, cfg.limits) && s'.rels == t'.rels && NonNegative(s'.rels)
            && o.Some? == p.Some? && ActionOf(o) <= ActionOf(p)
  {
    RelsNonNegative(cfg, s, i);
    hide Below, NonNegative, Without, Handle;
    if i.Request? && SignalOf(i.event).Some? {
      HandleBelow(cfg, s, t, SignalOf(i.event).value, SignalOf(j.event).value);
      HandleKeepsRels(cfg, s, SignalOf(i.event).value);
      HandleKeepsRels(cfg, t, SignalOf(j.event).value);
    }
  }

  lemma HandleKeepsRels(cfg: Config, s: State, x: Signal)
    ensures Handle(cfg, s, x).0.rels == s.rels
  {
  }

  /**
   * Two runs over the same subscribers and relationships of non-negative weight, the first nowhere riskier:
   * none of its actions is stricter than the action at the same place of the second.
   */
  lemma {:induction false} RiskierNeverMilder(cfg: Config, a: seq<Input>, b: seq<Input>)
    requires cfg.limits.blockThreshold >= 1 && Comparable(a, b)
    ensures var (s, outs) := Run(cfg, a);
            var (t, others) := Run(cfg, b);
            && Below(s.repo, t.repo, cfg.limits) && s.rels == t.rels && NonNegative(s.rels)
            && |outs| == |others| == |a|
            && forall k :: 0 <= k < |outs| ==>
                 outs[k].Some? == others[k].Some? && ActionOf(outs[k]) <= ActionOf(others[k])
  {
    hide Step, SideBySide, ActionOf;
    if a != [] {
      var n := |a| - 1;
      RiskierNeverMilder(cfg, a[..n], b[..n]);
      StepBelow(cfg, Run(cfg, a[..n]).0, Run(cfg, b[..n]).0, a[n], b[n]);
    }
  }

  // ── Which weights are safe ───────────────────────────────────────────────

  ghost predicate AllSideBySide(a: seq<Input>, b: seq<Input>) {
    |a| == |b| && forall k :: 0 <= k < |a| ==> SideBySide(a[k], b[k])
  }

  /** Every relationship weighs w or is not negative. */
  ghost predicate WeighsOrMore(a: seq<Input>, w: real) {
    forall k :: 0 <= k < |a| && a[k].Relate? ==> a[k].r.weight == w || a[k].r.weight >= 0.0
  }

  ghost predicate NeverMilder(cfg: Config, a: seq<Input>, b: seq<Input>) {
    var outs, others := Run(cfg, a).1, Run(cfg, b).1;
    forall k :: 0 <= k < |outs| && k < |others| ==> ActionOf(outs[k]) <= ActionOf(others[k])
  }

  /** Relationships of this weight, beside any that are not negative, never let a riskier run off lighter. */
  ghost predicate SafeWeight(cfg: Config, w: real) {
    forall a, b :: AllSideBySide(a, b) && WeighsOrMore(a, w) ==> NeverMilder(cfg, a, b)
  }

  /** An event both rules call bad, or neither. */
  function Report(cfg: Config, supi: string, bad: bool): Stage1 {
    Stage1(Given(supi), Given(bad), if bad then Some(cfg.assessment.reputationThreshold) else None, None, None, None,
           Given(0.0), None, None, None)
  }

  /** b weighs w on a, c the opposite; c is bad, b is or is not, then a asks. */
  function Rivals(cfg: Config, w: real, bad: bool): seq<Input> {
    [Relate(Relationship("b", "a", CUSTOM, w, 0.0)), Relate(Relationship("c", "a", CUSTOM, -w, 0.0)),
     Request(Report(cfg, "c", true)), Request(Report(cfg, "b", bad)), Request(Report(cfg, "a", false))]
  }

  lemma ReportLevel(cfg: Config, supi: string, bad: bool)
    ensures SignalOf(Report(cfg, supi, bad)).Some?
    ensures var x := SignalOf(Report(cfg, supi, bad)).value;
            x.supi == supi && LevelOf(x, cfg.assessment) == if bad then RiskLevel.HIGH else RiskLevel.LOW
  {
  }

  lemma RunOne(cfg: Config, inputs: seq<Input>, i: Input)
    ensures var (s, outs) := Run(cfg, inputs);
            var (next, o) := Step(cfg, s, i);
            Run(cfg, inputs + [i]) == (next, outs + [o])
  {
    assert (inputs + [i])[..|inputs|] == inputs;
  }

  lemma SignalsOne(inputs: seq<Input>, i: Input)
    ensures SignalsOf(inputs + [i]) ==
            SignalsOf(inputs) + (if i.Request? && SignalOf(i.event).Some? then [SignalOf(i.event).value] else [])
  {
    assert (inputs + [i])[..|inputs|] == inputs;
  }

  lemma RelsOne(cfg: Config, inputs: seq<Input>, i: Input)
    requires i.Request? || i.Relate?
    ensures Run(cfg, inputs + [i]).0.rels == Run(cfg, inputs).0.rels + (if i.Relate? then [i.r] else [])
  {
    hide Handle, Run, SignalOf;
    RunOne(cfg, inputs, i);
    var rels := Run(cfg, inputs).0.rels;
    assert rels + [] == rels;
    if i.Request? && SignalOf(i.event).Some? {
      HandleKeepsRels(cfg, Run(cfg, inputs).0, SignalOf(i.event).value);
    }
  }

  lemma RunNothing(cfg: Config)
    ensures Run(cfg, []) == (EMPTY, [])
  {
  }

  /** The run up to a's request: its relationships. */
  lemma RivalsRels(cfg: Config, w: real, bad: bool)
    ensures Run(cfg, Rivals(cfg, w, bad)[..4]).0.rels ==
            [Relationship("b", "a", CUSTOM, w, 0.0), Relationship("c", "a", CUSTOM, -w, 0.0)]
  {
    hide Report, Run;
    var i := Rivals(cfg, w, bad);
    RunNothing(cfg);
    RelsOne(cfg, [], i[0]);
    RelsOne(cfg, [i[0]], i[1]);
    RelsOne(cfg, [i[0], i[1]], i[2]);
    RelsOne(cfg, [i[0], i[1], i[2]], i[3]);
    assert [] + [i[0]] == [i[0]] && [i[0]] + [i[1]] == [i[0], i[1]] && [i[0], i[1]] + [i[2]] == [i[0], i[1], i[2]];
    assert [i[0], i[1], i[2]] + [i[3]] == i[..4];
  }

  /** And its signals. */
  lemma RivalsSignals(cfg: Config, w: real, bad: bool)
    ensures SignalOf(Report(cfg, "c", true)).Some? && SignalOf(Report(cfg, "b", bad)).Some?
    ensures SignalsOf(Rivals(cfg, w, bad)[..4]) ==
            [SignalOf(Report(cfg, "c", true)).value, SignalOf(Report(cfg, "b", bad)).value]
  {
    ReportLevel(cfg, "c", true);
    ReportLevel(cfg, "b", bad);
    hide Report;
    var i := Rivals(cfg, w, bad);
    SignalsOne([], i[0]);
    SignalsOne([i[0]], i[1]);
    SignalsOne([i[0], i[1]], i[2]);
    SignalsOne([i[0], i[1], i[2]], i[3]);
    assert SignalsOf([]) == [];
    hide SignalsOf;
    assert [] + [i[0]] == [i[0]] && [i[0]] + [i[1]] == [i[0], i[1]] && [i[0], i[1]] + [i[2]] == [i[0], i[1], i[2]];
    assert [i[0], i[1], i[2]] + [i[3]] == i[..4];
  }

  lemma LastHighOne(signals: seq<Signal>, s: Signal, cfg: AssessmentConfig, supi: string)
    ensures LastHigh(signals + [s], cfg, supi) <==>
            if s.supi == supi then LevelOf(s, cfg) == RiskLevel.HIGH else LastHigh(signals, cfg, supi)
  {
    assert (signals + [s])[..|signals|] == signals;
    assert LevelsOf(signals, cfg, supi) + [] == LevelsOf(signals, cfg, supi);
  }

  lemma RivalsWeight(signals: seq<Signal>, cfg: AssessmentConfig, w: real)
    ensures var rels := [Relationship("b", "a", CUSTOM, w, 0.0), Relationship("c", "a", CUSTOM, -w, 0.0)];
            WeightFrom(signals, cfg, rels, "a") ==
            (if LastHigh(signals, cfg, "b") then w else 0.0) + (if LastHigh(signals, cfg, "c") then -w else 0.0)
  {
    hide LastHigh;
    var rels := [Relationship("b", "a", CUSTOM, w, 0.0), Relationship("c", "a", CUSTOM, -w, 0.0)];
    var one := rels[..1];
    assert one == [rels[0]] && one[..0] == [];
    assert WeightFrom(signals, cfg, one, "a") == if LastHigh(signals, cfg, "b") then w else 0.0;
  }

  lemma LowHasNoHigh(signals: seq<Signal>, s: Signal, cfg: AssessmentConfig)
    requires LevelOf(s, cfg) == RiskLevel.LOW
    ensures var levels := LevelsOf(signals + [s], cfg, s.supi);
            levels != [] && levels[|levels| - 1] == RiskLevel.LOW && TrailingHigh(levels) == 0
  {
    assert (signals + [s])[..|signals|] == signals;
  }

  /** a is let in if b is bad, and not if it is not. */
  lemma RivalsAnswer(cfg: Config, w: real, bad: bool)
    requires cfg.limits.blockThreshold >= 1 && w < 0.0
    ensures var outs := Run(cfg, Rivals(cfg, w, bad)).1;
            |outs| == 5 && (ActionOf(outs[4]) == ALLOW.Rank() <==> bad) && ActionOf(outs[4]) >= 0
  {
    hide Handle, Report, LevelOf, LevelsOf, TrailingHigh, LastHigh, WeightFrom, SignalsOf;
    var i := Rivals(cfg, w, bad);
    var before := i[..4];
    ReportLevel(cfg, "c", true);
    ReportLevel(cfg, "b", bad);
    ReportLevel(cfg, "a", false);
    var c, b := SignalOf(Report(cfg, "c", true)).value, SignalOf(Report(cfg, "b", bad)).value;
    var a := SignalOf(Report(cfg, "a", false)).value;
    RivalsRels(cfg, w, bad);
    RivalsSignals(cfg, w, bad);
    ActionClosedForm(cfg, before, Report(cfg, "a", false));
    RunIsFed(cfg, before);
    RunOne(cfg, before, i[4]);
    assert before + [i[4]] == i;
    var signals := [c, b] + [a];
    LowHasNoHigh([c, b], a, cfg.assessment);
    RivalsWeight(signals, cfg.assessment, w);
    assert [] + [c] == [c] && [c] + [b] == [c, b];
    LastHighOne([c, b], a, cfg.assessment, "b");
    LastHighOne([c, b], a, cfg.assessment, "c");
    LastHighOne([c], b, cfg.assessment, "b");
    LastHighOne([c], b, cfg.assessment, "c");
    LastHighOne([], c, cfg.assessment, "c");
  }

  /** Only b gets riskier, yet a, watched or challenged before, is let in: b's negative weight takes c's risk away. */
  lemma NegativeWeightBreaksIt(cfg: Config, w: real)
    requires cfg.limits.blockThreshold >= 1 && w < 0.0
    ensures var a, b := Rivals(cfg, w, false), Rivals(cfg, w, true);
            AllSideBySide(a, b) && WeighsOrMore(a, w) && !NeverMilder(cfg, a, b)
  {
    hide Run, SideBySide, Rivals;
    RivalsSideBySide(cfg, w);
    RivalsAnswer(cfg, w, false);
    RivalsAnswer(cfg, w, true);
  }

  lemma RivalsSideBySide(cfg: Config, w: real)
    requires w < 0.0
    ensures AllSideBySide(Rivals(cfg, w, false), Rivals(cfg, w, true)) && WeighsOrMore(Rivals(cfg, w, false), w)
  {
    hide SideBySide;
    var a, b := Rivals(cfg, w, false), Rivals(cfg, w, true);
    forall k | 0 <= k < 5
      ensures SideBySide(a[k], b[k])
    {
      if k == 3 {
        ReportSideBySide(cfg);
      } else {
        SameSideBySide(a[k]);
      }
    }
  }

  lemma ReportSideBySide(cfg: Config)
    ensures SideBySide(Request(Report(cfg, "b", false)), Request(Report(cfg, "b", true)))
  {
  }

  lemma SameSideBySide(i: Input)
    ensures SideBySide(i, i)
  {
  }

  /** A weight is safe in every context exactly when it is not negative. */
  lemma SafeExactlyWhen(cfg: Config, w: real)
    requires cfg.limits.blockThreshold >= 1
    ensures SafeWeight(cfg, w) <==> w >= 0.0
  {
    hide SideBySide, NeverMilder, Run;
    if w >= 0.0 {
      forall a, b | AllSideBySide(a, b) && WeighsOrMore(a, w)
        ensures NeverMilder(cfg, a, b)
      {
        ComparableNeverMilder(cfg, a, b);
      }
    } else {
      NegativeWeightBreaksIt(cfg, w);
    }
  }

  lemma ComparableNeverMilder(cfg: Config, a: seq<Input>, b: seq<Input>)
    requires cfg.limits.blockThreshold >= 1 && Comparable(a, b)
    ensures NeverMilder(cfg, a, b)
  {
    hide SideBySide, ActionOf, Run;
    RiskierNeverMilder(cfg, a, b);
  }
}
