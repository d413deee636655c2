/** contextual_risk_assessment.py: a Stage 1 signal turned into a risk level. */
module Assessment {
  import opened Wrappers

  datatype RiskLevel = LOW | MEDIUM | HIGH
  {
    function Rank(): nat {
      match this case LOW => 0 case MEDIUM => 1 case HIGH => 2
    }
  }

  datatype Signal = Signal(supi: string, rule: bool, reputation: Option<real>, source: Option<string>,
                           ratio: Option<real>, timestamp: real)

  /** A key of a mapping: not there, there with null, or with a value. */
  datatype Field<+T> = Absent | Null | Given(value: T)

  /** A Stage 1 mapping; where absent and null read the same, the key is an Option. */
  datatype Stage1 = Stage1(supi: Field<string>, rule: Field<bool>, reputation: Option<real>,
                           detectionSource: Option<string>, source: Option<string>, ratio: Option<real>,
                           timestamp: Field<real>, tier1Candidate: Option<bool>, tier1Ratio: Option<real>,
                           tier2Score: Option<real>)
  {
    /** str() of the value: a null is the text None. */
    function Supi(): string {
      match supi
      case Absent => "unknown"
      case Null => "None"
      case Given(s) => s
    }

    /** The hard rule's verdict: its own key if there, else tier 1's. */
    function Rule(): bool {
      match rule
      case Absent => tier1Candidate.GetOr(false)
      case Null => false
      case Given(b) => b
    }
  }

  function OrElse<T>(a: Option<T>, b: Option<T>): Option<T> {
    if a.Some? then a else b
  }

  /** CandidateDetection.from_stage1_output; None where it raises, float() having no null. */
  function FromStage1(o: Stage1): Option<Signal> {
    if o.timestamp.Null? then None
    else
      var at := if o.timestamp.Given? then o.timestamp.value else 0.0;
      Some(Signal(o.Supi(), o.Rule(), OrElse(o.reputation, o.tier2Score), OrElse(o.detectionSource, o.source),
                  OrElse(o.ratio, o.tier1Ratio), at))
  }

  datatype AssessmentConfig = AssessmentConfig(reputationThreshold: real, repeatedFailureThreshold: real)

  datatype RiskAssessment = RiskAssessment(supi: string, level: RiskLevel, score: int, source: Option<string>,
                                           timestamp: real, reasons: seq<string>)

  predicate HighReputation(s: Signal, cfg: AssessmentConfig) {
    s.reputation.Some? && s.reputation.value >= cfg.reputationThreshold
  }

  predicate Repeated(s: Signal, cfg: AssessmentConfig) {
    s.ratio.Some? && s.ratio.value >= cfg.repeatedFailureThreshold && s.rule && HighReputation(s, cfg)
  }

  function LevelOf(s: Signal, cfg: AssessmentConfig): RiskLevel {
    if s.rule && HighReputation(s, cfg) then HIGH
    else if s.rule || HighReputation(s, cfg) then MEDIUM
    else LOW
  }

  function ScoreOf(level: RiskLevel): int {
    match level case LOW => 0 case MEDIUM => 50 case HIGH => 100
  }

  function ReasonsOf(s: Signal, cfg: AssessmentConfig): seq<string> {
    (if s.rule then ["Rule threshold exceeded"] else [])
    + (if HighReputation(s, cfg) then ["Reputation score exceeded threshold"] else [])
    + (if Repeated(s, cfg) then ["Repeated authentication failures detected"] else [])
  }

  function Assessed(s: Signal, cfg: AssessmentConfig): RiskAssessment {
    RiskAssessment(s.supi, LevelOf(s, cfg), ScoreOf(LevelOf(s, cfg)), s.source, s.timestamp, ReasonsOf(s, cfg))
  }

  /**
   * The points of the rules add up to 0, 50 or 100 and nothing else: the 20 points for repeated failures
   * only ever come on top of 100, where the cap takes them away again.
   */
  method Assess(s: Signal, cfg: AssessmentConfig) returns (a: RiskAssessment)
    ensures a == Assessed(s, cfg)
    ensures a.level == HIGH <==> s.rule && HighReputation(s, cfg)
    ensures a.level == LOW <==> !s.rule && !HighReputation(s, cfg)
  {
    var reasons, score: int := [], 0;
    if s.rule {
      reasons := reasons + ["Rule threshold exceeded"];
      score := score + 50;
    }
    if HighReputation(s, cfg) {
      reasons := reasons + ["Reputation score exceeded threshold"];
      score := score + 50;
    }
    if Repeated(s, cfg) {
      reasons := reasons + ["Repeated authentication failures detected"];
      score := score + 20;
    }
    score := if score < 100 then score else 100;
    var level := if score >= 100 then HIGH else if score >= 50 then MEDIUM else LOW;
    a := RiskAssessment(s.supi, level, score, s.source, s.timestamp, reasons);
  }

  /**
   * The assessment of a Stage 1 mapping, on its own keys: the hard rule is its own verdict or, where the key
   * is absent, tier 1's; the reputation is its own score or tier 2's, high from the threshold on; both make
   * HIGH and 100, one makes MEDIUM and 50, none LOW and 0.
   */
  lemma AssessedMeaning(o: Stage1, cfg: AssessmentConfig)
    requires !o.timestamp.Null?
    ensures FromStage1(o).Some?
    ensures var a := Assessed(FromStage1(o).value, cfg);
            var rule := o.rule == Given(true) || (o.rule.Absent? && o.tier1Candidate == Some(true));
            var score := if o.reputation.Some? then o.reputation else o.tier2Score;
            var high := score.Some? && score.value >= cfg.reputationThreshold;
            && (a.level == HIGH <==> rule && high) && (a.level == LOW <==> !rule && !high)
            && a.score == (if rule then 50 else 0) + (if high then 50 else 0)
            && a.supi == (if o.supi.Given? then o.supi.value else if o.supi.Absent? then "unknown" else "None")
            && a.timestamp == (if o.timestamp.Given? then o.timestamp.value else 0.0)
            && a.source == (if o.detectionSource.Some? then o.detectionSource else o.source)
  {
    hide ReasonsOf;
  }

  /** Its reasons: one for each rule that holds, and one more for repeated failures where both do. */
  lemma ReasonsMeaning(o: Stage1, cfg: AssessmentConfig)
    requires !o.timestamp.Null?
    ensures FromStage1(o).Some?
    ensures var a := Assessed(FromStage1(o).value, cfg);
            var ratio := if o.ratio.Some? then o.ratio else o.tier1Ratio;
            && (a.level == LOW ==> a.reasons == [])
            && (a.level == MEDIUM ==>
                  a.reasons == [if FromStage1(o).value.rule then "Rule threshold exceeded"
                                else "Reputation score exceeded threshold"])
            && (a.level == HIGH ==>
                  a.reasons == ["Rule threshold exceeded", "Reputation score exceeded threshold"]
                               + (if ratio.Some? && ratio.value >= cfg.repeatedFailureThreshold
                                  then ["Repeated authentication failures detected"] else []))
  {
    hide Stage1.Supi, Stage1.Rule, HighReputation;
  }

  /** b is about the same subscriber and at least as risky; the failure ratio plays no part. */
  predicate NoRiskier(a: Signal, b: Signal) {
    && a.supi == b.supi && (a.rule ==> b.rule)
    && (a.reputation.Some? ==> b.reputation.Some? && a.reputation.value <= b.reputation.value)
  }

  lemma AssessmentIsMonotone(a: Signal, b: Signal, cfg: AssessmentConfig)
    requires NoRiskier(a, b)
    ensures LevelOf(a, cfg).Rank() <= LevelOf(b, cfg).Rank()
  {
  }
}
