/** trr.py and stepup_auth.py: expiring block entries, deleted lazily, cleared by a verified step-up. */
module BlockTable {
  import opened Wrappers

  datatype RiskEntry = RiskEntry(target: string, targetType: string, riskLevel: string, source: string,
                                 createdAt: real, expiry: real, verified: bool)
  {
    predicate Expired(now: real) {
      now >= createdAt + expiry
    }
  }

  type Table = map<string, RiskEntry>

  /** `expiry_seconds or default`: a zero is taken for no value. */
  function ExpiryOr(expiry: Option<real>, default: real): real {
    if expiry.Some? && expiry.value != 0.0 then expiry.value else default
  }

  function Ask(t: Table, target: string, now: real): (Table, bool) {
    if target !in t then (t, false)
    else if t[target].Expired(now) then (t - {target}, false)
    else (t, !t[target].verified)
  }

  function Clear(t: Table, target: string): (Table, bool) {
    if target in t then (t - {target}, true) else (t, false)
  }

  class TrustRiskRepository {
    var entries: Table
    const defaultExpiry: real

    constructor (defaultExpiry: real)
      ensures entries == map[] && this.defaultExpiry == defaultExpiry
    {
      entries := map[];
      this.defaultExpiry := defaultExpiry;
    }

    method AddRisk(target: string, targetType: string, riskLevel: string, source: string, now: real,
                   expiry: Option<real>)
      returns (entry: RiskEntry)
      modifies this
      ensures entry == RiskEntry(target, targetType, riskLevel, source, now, ExpiryOr(expiry, defaultExpiry), false)
      ensures entries == old(entries)[target := entry]
    {
      entry := RiskEntry(target, targetType, riskLevel, source, now, ExpiryOr(expiry, defaultExpiry), false);
      entries := entries[target := entry];
    }

    /** Reading an expired entry deletes it. */
    method IsBlocked(target: string, now: real) returns (blocked: bool)
      modifies this
      ensures (entries, blocked) == Ask(old(entries), target, now)
    {
      if target !in entries {
        return false;
      }
      if entries[target].Expired(now) {
        entries := entries - {target};
        return false;
      }
      return !entries[target].verified;
    }

    method ClearOnVerification(target: string) returns (cleared: bool)
      modifies this
      ensures (entries, cleared) == Clear(old(entries), target)
      ensures cleared <==> target in old(entries)
    {
      if target in entries {
        entries := entries - {target};
        return true;
      }
      return false;
    }

    method StepUpFlow(hmac: Hmac, target: string, claimed: Secret, real_: Secret, nonce: Nonce, now: real)
      returns (r: StepUpResult)
      modifies this
      ensures (entries, r) == StepUp(old(entries), hmac, target, claimed, real_, nonce, now)
    {
      var blocked := IsBlocked(target, now);
      if !blocked {
        return Allowed;
      }
      var response := hmac(claimed, nonce);
      var verified := hmac(real_, nonce) == response;
      if verified {
        var _ := ClearOnVerification(target);
        return VerifiedCleared;
      }
      return FailedStillBlocked;
    }
  }

  // ── Step-up ──────────────────────────────────────────────────────────────

  type Secret = seq<bv8>
  type Nonce = seq<bv8>
  /** HMAC-SHA256 as an uninterpreted function of key and message. */
  type Hmac = (Secret, Nonce) -> string

  datatype StepUpResult = Allowed | VerifiedCleared | FailedStillBlocked

  function StepUp(t: Table, hmac: Hmac, target: string, claimed: Secret, real_: Secret, nonce: Nonce, now: real)
    : (Table, StepUpResult)
  {
    var (t1, blocked) := Ask(t, target, now);
    if !blocked then (t1, Allowed)
    else if hmac(real_, nonce) == hmac(claimed, nonce) then (Clear(t1, target).0, VerifiedCleared)
    else (t1, FailedStillBlocked)
  }

  /** The right secret always passes; a failed step-up leaves the whole table as it was. */
  lemma StepUpMeaning(t: Table, hmac: Hmac, target: string, claimed: Secret, real_: Secret, nonce: Nonce, now: real)
    ensures var (t', r) := StepUp(t, hmac, target, claimed, real_, nonce, now);
            && (r.Allowed? <==> !Ask(t, target, now).1)
            && (r.VerifiedCleared? ==> hmac(real_, nonce) == hmac(claimed, nonce))
            && (r.FailedStillBlocked? ==> hmac(real_, nonce) != hmac(claimed, nonce))
            && (claimed == real_ ==> !r.FailedStillBlocked?)
            && (r.FailedStillBlocked? ==> t' == t)
            && (r.VerifiedCleared? ==> t' == t - {target})
            && (forall now' :: now <= now' ==> Ask(t', target, now').1 ==> r.FailedStillBlocked?)
  {
  }

  // ── The table against the log ────────────────────────────────────────────

  datatype Op =
    | Added(target: string, at: real, expiry: Option<real>)
    | Asked(target: string, at: real)
    | Cleared(target: string)

  function Apply(t: Table, op: Op, default: real): Table {
    match op
    case Added(target, at, expiry) =>
      t[target := RiskEntry(target, "supi", "high", "", at, ExpiryOr(expiry, default), false)]
    case Asked(target, at) => Ask(t, target, at).0
    case Cleared(target) => Clear(t, target).0
  }

  function TableAfter(log: seq<Op>, default: real): Table {
    if log == [] then map[] else Apply(TableAfter(log[..|log| - 1], default), log[|log| - 1], default)
  }

  /** log[i] is the latest add of target, and no clear of it follows. */
  ghost predicate LatestAdd(log: seq<Op>, target: string, i: int) {
    && 0 <= i < |log| && log[i].Added? && log[i].target == target
    && forall j :: i < j < |log| && log[j].target == target ==> log[j].Asked?
  }

  /** Its position, if there is one. */
  function LastAdd(log: seq<Op>, target: string): (r: Option<int>)
    ensures r.Some? ==> LatestAdd(log, target, r.value)
    ensures r.None? ==> forall i :: !LatestAdd(log, target, i)
  {
    if log == [] then None
    else
      var n, op := |log| - 1, log[|log| - 1];
      if op.target == target && op.Added? then Some(n)
      else if op.target == target && op.Cleared? then
        assert forall i :: LatestAdd(log, target, i) ==> log[n].Asked?;
        None
      else
        var r := LastAdd(log[..n], target);
        assert forall i :: LatestAdd(log, target, i) ==> LatestAdd(log[..n], target, i);
        r
  }

  /** When the entry of an add ends. */
  function Ends(op: Op, default: real): real
    requires op.Added?
  {
    op.at + (if op.expiry.Some? && op.expiry.value != 0.0 then op.expiry.value else default)
  }

  /** Some reading of target after log[i] came at or after the end of its entry. */
  ghost predicate ReadExpired(log: seq<Op>, target: string, i: int, default: real)
    requires LatestAdd(log, target, i)
  {
    exists j :: i < j < |log| && log[j].target == target && log[j].at >= Ends(log[i], default)
  }

  /** The table holds an entry exactly for a latest add never read after its end. */
  lemma {:induction false} TableIsLog(log: seq<Op>, default: real, target: string)
    ensures var t, last := TableAfter(log, default), LastAdd(log, target);
            && (target in t <==> last.Some? && !ReadExpired(log, target, last.value, default))
            && (target in t ==> t[target].createdAt == log[last.value].at && !t[target].verified
                                && t[target].createdAt + t[target].expiry == Ends(log[last.value], default))
  {
    if log != [] {
      var n, before, op := |log| - 1, log[..|log| - 1], log[|log| - 1];
      TableIsLog(before, default, target);
      var last, last' := LastAdd(before, target), LastAdd(log, target);
      if last'.Some? && last'.value < n {
        assert last' == last;
        assert ReadExpired(log, target, last.value, default) <==>
          ReadExpired(before, target, last.value, default)
              || (op.target == target && op.at >= Ends(log[last.value], default))
        by {
          assert forall j :: 0 <= j < n ==> before[j] == log[j];
        }
      }
    }
  }

  ghost predicate NonDecreasing(log: seq<Op>) {
    forall i, j :: 0 <= i < j < |log| && !log[i].Cleared? && !log[j].Cleared? ==> log[i].at <= log[j].at
  }

  /**
   * Exactly what a reading answers, on any clock: the latest add is not cleared, not over at now, and
   * was never read when over.
   */
  lemma ReadingAnyClock(log: seq<Op>, default: real, target: string, now: real)
    ensures Ask(TableAfter(log, default), target, now).1 <==>
            var last := LastAdd(log, target);
            last.Some? && now < Ends(log[last.value], default) && !ReadExpired(log, target, last.value, default)
  {
    TableIsLog(log, default, target);
  }

  /** On a clock that never goes back, lazy deletion cannot be seen: the log alone answers. */
  lemma ReadingIsLog(log: seq<Op>, default: real, target: string, now: real)
    requires NonDecreasing(log + [Asked(target, now)])
    ensures Ask(TableAfter(log, default), target, now).1 <==>
            var last := LastAdd(log, target); last.Some? && now < Ends(log[last.value], default)
  {
    ReadingAnyClock(log, default, target, now);
    var full := log + [Asked(target, now)];
    assert forall j :: 0 <= j < |log| ==> full[j] == log[j];
    assert full[|log|] == Asked(target, now);
  }

  /** On a clock that goes back it can: an entry read once when over is gone for the earlier time too. */
  lemma ClockGoingBackShows(default: real)
    requires default > 0.0
    ensures var log := [Added("a", 0.0, None), Asked("a", default)];
            && !Ask(TableAfter(log, default), "a", 0.0).1
            && LastAdd(log, "a") == Some(0) && 0.0 < Ends(log[0], default)
  {
    var log := [Added("a", 0.0, None), Asked("a", default)];
    assert log[..1] == [Added("a", 0.0, None)];
    assert LatestAdd(log, "a", 0);
    ReadingAnyClock(log, default, "a", 0.0);
  }
}
