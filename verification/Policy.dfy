/**
 * adaptive_authentication_policy_engine.py and adaptive_hmac_authentication.py: the action, and what executing
 * it says.
 */
module Policy {
  import opened Wrappers
  import opened Assessment
  import opened Trust
  import opened Propagation

  datatype Action = ALLOW | MONITOR | STEP_UP | TEMPORARY_BLOCK
  {
    function Rank(): nat {
      match this case ALLOW => 0 case MONITOR => 1 case STEP_UP => 2 case TEMPORARY_BLOCK => 3
    }
  }

  datatype Confidence = Medium | High

  datatype Decision = Decision(supi: string, action: Action, confidence: Confidence)

  function Evaluate(record: Option<Record>, propagated: Option<PropagatedRisk>): Decision {
    if record.None? then Decision("unknown", MONITOR, Medium)
    else
      var r := record.value;
      var level := if propagated.Some? then propagated.value.level else NONE;
      var (action, confidence) := Choose(r.trust, r.latest, level);
      Decision(r.supi, action, confidence)
  }

  function Choose(trust: TrustLevel, own: Option<RiskLevel>, level: PropagatedLevel): (Action, Confidence) {
    if trust == BLOCKED then (TEMPORARY_BLOCK, High)
    else if trust == WATCHLIST then (STEP_UP, High)
    else if own == Some(RiskLevel.HIGH) && level == PropagatedLevel.HIGH then (TEMPORARY_BLOCK, High)
    else if own == Some(RiskLevel.HIGH) then (STEP_UP, High)
    else if trust == NORMAL && own == Some(RiskLevel.MEDIUM) then (STEP_UP, Medium)
    else if trust == TRUSTED && own == Some(RiskLevel.LOW) && level == PropagatedLevel.LOW then (MONITOR, Medium)
    else if trust == TRUSTED && own == Some(RiskLevel.LOW) && level == PropagatedLevel.HIGH then (STEP_UP, High)
    else if trust == TRUSTED && own == Some(RiskLevel.LOW) && level == NONE then (ALLOW, High)
    else if trust == NORMAL then (STEP_UP, Medium)
    else (MONITOR, Medium)
  }

  /** What the policy engine sees of a subscriber. */
  datatype Seen = Seen(trust: TrustLevel, own: RiskLevel, level: PropagatedLevel)
  {
    function Act(): Action {
      Choose(trust, Some(own), level).0
    }

    /** Every part at least as bad. */
    predicate AtMost(that: Seen) {
      trust.Rank() <= that.trust.Rank() && own.Rank() <= that.own.Rank() && level.Rank() <= that.level.Rank()
    }

    /** Trust and own risk as an update leaves them together. */
    predicate Updated() {
      match trust
      case TRUSTED => own == RiskLevel.LOW
      case NORMAL => own == RiskLevel.MEDIUM
      case _ => own == RiskLevel.HIGH
    }
  }

  /**
   * The policy alone is not monotone. It answers a worse subscriber more mildly exactly in two cases: an
   * unwatched subscriber with HIGH own and propagated risk against a watched one, and a trusted one whose
   * own risk rises from LOW to MEDIUM under HIGH propagated risk.
   */
  lemma MilderExactlyWhen(a: Seen, b: Seen)
    requires a.AtMost(b)
    ensures a.Act().Rank() > b.Act().Rank() <==>
            || (a.trust.Rank() <= NORMAL.Rank() && a.own == RiskLevel.HIGH && a.level == PropagatedLevel.HIGH
                && b.trust == WATCHLIST)
            || (a == Seen(TRUSTED, RiskLevel.LOW, PropagatedLevel.HIGH)
                && b == Seen(TRUSTED, RiskLevel.MEDIUM, PropagatedLevel.HIGH))
  {
  }

  /** Neither case survives an update: on records just updated the policy is monotone. */
  lemma UpdatedIsMonotone(a: Seen, b: Seen)
    requires a.AtMost(b) && a.Updated() && b.Updated()
    ensures a.Act().Rank() <= b.Act().Rank()
  {
  }

  /** The whole table: which action for whom, and how sure. */
  lemma ChooseMeaning(trust: TrustLevel, own: Option<RiskLevel>, level: PropagatedLevel)
    ensures var (action, confidence) := Choose(trust, own, level);
            var high := own == Some(RiskLevel.HIGH);
            && (action == TEMPORARY_BLOCK <==>
                  trust == BLOCKED || (trust != WATCHLIST && high && level == PropagatedLevel.HIGH))
            && (action == ALLOW <==> trust == TRUSTED && own == Some(RiskLevel.LOW) && level == NONE)
            && (action == MONITOR <==>
                  trust == TRUSTED && !high && !(own == Some(RiskLevel.LOW) && level in {NONE, PropagatedLevel.HIGH}))
            && (confidence == Medium <==> action == MONITOR || (trust == NORMAL && !high))
  {
  }

  /** A subscriber without a record is monitored; one without neighbours is as one they do not weigh on. */
  lemma EvaluateMeaning(record: Option<Record>, p: Option<PropagatedRisk>)
    ensures record.None? ==> Evaluate(record, p) == Decision("unknown", MONITOR, Medium)
    ensures record.Some? ==>
              var r, level := record.value, if p.Some? then p.value.level else NONE;
              var d := Evaluate(record, p);
              d.supi == r.supi && (d.action, d.confidence) == Choose(r.trust, r.latest, level)
  {
    hide Choose;
  }

  // ── Execution ────────────────────────────────────────────────────────────

  datatype Method = NORMAL_AUTHENTICATION | HMAC_STEP_UP | ACCESS_BLOCKED
  datatype Status = SUCCESS | MONITORING_ENABLED | CHALLENGED | TEMPORARILY_BLOCKED

  datatype AuthResult = AuthResult(supi: string, action: Action, success: bool, how: Method, status: Status)

  function Execute(d: Decision): (r: AuthResult)
    ensures r.supi == d.supi && r.action == d.action
    ensures r.success <==> d.action != TEMPORARY_BLOCK
    ensures r.how == ACCESS_BLOCKED <==> d.action == TEMPORARY_BLOCK
    ensures r.how == HMAC_STEP_UP <==> d.action == STEP_UP
    ensures r.status == CHALLENGED <==> d.action == STEP_UP
    ensures r.status == TEMPORARILY_BLOCKED <==> d.action == TEMPORARY_BLOCK
    ensures r.status == MONITORING_ENABLED <==> d.action == MONITOR
  {
    match d.action
    case ALLOW => AuthResult(d.supi, d.action, true, NORMAL_AUTHENTICATION, SUCCESS)
    case MONITOR => AuthResult(d.supi, d.action, true, NORMAL_AUTHENTICATION, MONITORING_ENABLED)
    case STEP_UP => AuthResult(d.supi, d.action, true, HMAC_STEP_UP, CHALLENGED)
    case TEMPORARY_BLOCK => AuthResult(d.supi, d.action, false, ACCESS_BLOCKED, TEMPORARILY_BLOCKED)
  }
}
