/** realtime_engine.py: the streaming engine, one call per window event, re-authentication or block query. */
module Engine {
  import opened Wrappers
  import opened Reputation
  import opened BlockTable

  datatype Config = Config(tier1: Tier1Config, tier2: Tier2Config, decay: Decay, expiry: real, hmac: Hmac)

  datatype EngineState = EngineState(tier2: map<string, State>, entries: Table)

  const FRESH_ENGINE := EngineState(map[], map[])

  /** The result record of process_event; blocked is blocked_target_id, set with enforcement_triggered. */
  datatype Decision = Decision(supi: string, origin: Option<string>, window: int, tier1: bool, tier2: Verdict,
                               candidate: bool, blocked: Option<string>)

  function StateOf(tier2: map<string, State>, supi: string): State {
    if supi in tier2 then tier2[supi] else FRESH
  }

  function Source(tier1: bool): string {
    if tier1 then "tier1" else "tier2"
  }

  /** None where update_tier2 raises, which leaves nothing behind but a record got on first use. */
  function Process(cfg: Config, s: EngineState, e: WindowEvent, now: real): (EngineState, Option<Decision>) {
    if !Divides(e, cfg.tier2) then (s.(tier2 := s.tier2[e.supi := StateOf(s.tier2, e.supi)]), None)
    else
      var (next, d) := Decide(cfg, s, e, now);
      (next, Some(d))
  }

  function Decide(cfg: Config, s: EngineState, e: WindowEvent, now: real): (EngineState, Decision)
    requires Divides(e, cfg.tier2)
  {
    var tier1 := Tier1Candidate(e, cfg.tier1);
    var (next, verdict) := Advance(StateOf(s.tier2, e.supi), e, cfg.tier2, cfg.decay);
    var candidate := tier1 || verdict.candidate;
    var entries :=
      if candidate then
        s.entries[e.supi := RiskEntry(e.supi, "supi", "high", Source(tier1), now, ExpiryOr(None, cfg.expiry), false)]
      else s.entries;
    (EngineState(s.tier2[e.supi := next], entries),
     Decision(e.supi, e.origin, e.window, tier1, verdict, candidate, if candidate then Some(e.supi) else None))
  }

  // ── The stateful object ──────────────────────────────────────────────────

  class SecurityLayerEngine {
    const cfg: Config
    const trr: TrustRiskRepository
    var tier2State: map<string, SupiState>

    /** One record per subscriber, never shared. */
    ghost predicate Valid()
      reads this, trr
    {
      && trr.defaultExpiry == cfg.expiry
      && forall a, b :: a in tier2State && b in tier2State && a != b ==> tier2State[a] != tier2State[b]
    }

    ghost function Records(): set<object>
      reads this
    {
      set supi | supi in tier2State :: tier2State[supi]
    }

    ghost function Reputations(): map<string, State>
      reads this, Records()
    {
      map supi | supi in tier2State :: tier2State[supi].Value()
    }

    ghost function Snapshot(): EngineState
      reads this, trr, Records()
    {
      EngineState(Reputations(), trr.entries)
    }

    constructor (cfg: Config)
      ensures Valid() && this.cfg == cfg && Snapshot() == FRESH_ENGINE
      ensures fresh(trr)
    {
      this.cfg := cfg;
      trr := new TrustRiskRepository(cfg.expiry);
      tier2State := map[];
    }

    /** The live record of a subscriber, created on first use. */
    method GetTier2State(supi: string) returns (state: SupiState)
      requires Valid()
      modifies this
      ensures Valid() && fresh(Records() - old(Records()))
      ensures supi in tier2State && tier2State[supi] == state
      ensures Reputations() == old(Reputations())[supi := StateOf(old(Reputations()), supi)]
    {
      if supi !in tier2State {
        state := new SupiState();
        tier2State := tier2State[supi := state];
      } else {
        state := tier2State[supi];
      }
    }

    method UpdateReputation(e: WindowEvent) returns (verdict: Option<Verdict>)
      requires Valid()
      modifies this, Records()
      ensures Valid() && fresh(Records() - old(Records()))
      ensures verdict.Some? <==> Divides(e, cfg.tier2)
      ensures if verdict.None? then
                Reputations() == old(Reputations())[e.supi := StateOf(old(Reputations()), e.supi)]
              else
                var (next, v) := Advance(StateOf(old(Reputations()), e.supi), e, cfg.tier2, cfg.decay);
                verdict.value == v && Reputations() == old(Reputations())[e.supi := next]
    {
      hide Advance, CountFlags, Divides;
      var state := GetTier2State(e.supi);
      ghost var got := Reputations();
      assert got[e.supi] == state.Value();
      verdict := UpdateRecord(state, e);
      assert old(Reputations())[e.supi := state.Value()] == got[e.supi := state.Value()];
    }

    /** update_tier2 on one live record leaves every other record alone. */
    method UpdateRecord(state: SupiState, e: WindowEvent) returns (verdict: Option<Verdict>)
      requires Valid() && e.supi in tier2State && tier2State[e.supi] == state
      modifies state
      ensures Valid()
      ensures verdict.Some? <==> Divides(e, cfg.tier2)
      ensures if verdict.None? then state.Value() == old(state.Value())
              else (state.Value(), verdict.value) == Advance(old(state.Value()), e, cfg.tier2, cfg.decay)
      ensures Reputations() == old(Reputations())[e.supi := state.Value()]
    {
      hide Advance, CountFlags, Divides;
      verdict := state.Update(e, cfg.tier2, cfg.decay);
      assert forall supi :: supi in tier2State && supi != e.supi ==> tier2State[supi] != state;
    }

    /** None is a ZeroDivisionError. */
    method ProcessEvent(e: WindowEvent, now: Option<real>) returns (r: Option<Decision>)
      requires Valid()
      modifies this, trr, Records()
      ensures Valid() && fresh(Records() - old(Records()))
      ensures (Snapshot(), r) == Process(cfg, old(Snapshot()), e, now.GetOr(e.timestamp))
    {
      hide Advance, Tier1Candidate, ExpiryOr, CountFlags, Divides;
      var at := now.GetOr(e.timestamp);
      var tier1 := Tier1Candidate(e, cfg.tier1);
      var verdict := UpdateReputation(e);
      if verdict.None? {
        return None;
      }
      var candidate := tier1 || verdict.value.candidate;
      var d := Decision(e.supi, e.origin, e.window, tier1, verdict.value, candidate, None);
      if candidate {
        var _ := trr.AddRisk(e.supi, "supi", "high", Source(tier1), at, None);
        d := d.(blocked := Some(e.supi));
      }
      r := Some(d);
    }

    method AttemptReauth(target: string, claimed: Secret, real_: Secret, nonce: Nonce, now: real)
        returns (r: StepUpResult)
      requires Valid()
      modifies trr
      ensures Valid()
      ensures (Snapshot().entries, r) == StepUp(old(Snapshot()).entries, cfg.hmac, target, claimed, real_, nonce, now)
      ensures Snapshot().tier2 == old(Snapshot()).tier2
    {
      r := trr.StepUpFlow(cfg.hmac, target, claimed, real_, nonce, now);
    }

    method IsCurrentlyBlocked(target: string, now: real) returns (blocked: bool)
      requires Valid()
      modifies trr
      ensures Valid()
      ensures (Snapshot().entries, blocked) == Ask(old(Snapshot()).entries, target, now)
      ensures Snapshot().tier2 == old(Snapshot()).tier2
    {
      blocked := trr.IsBlocked(target, now);
    }
  }
}
