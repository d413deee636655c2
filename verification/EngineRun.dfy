/** Whole runs of the engine over any interleaving of windows, step-ups and block queries. */
module EngineRun {
  import opened Wrappers
  import opened Reputation
  import opened BlockTable
  import opened Engine
  import opened Escalation

  datatype Input =
    | Window(event: WindowEvent, at: real)
    | Reauth(target: string, claimed: Secret, real_: Secret, nonce: Nonce, at: real)
    | Query(target: string, at: real)
  {
    function Who(): string {
      if Window? then event.supi else target
    }
  }

  /** Raised: the window's smoothed ratio divided by zero. */
  datatype Output = Decided(decision: Decision) | Answered(result: StepUpResult) | Told(blocked: bool) | Raised

  function React(cfg: Config, s: EngineState, i: Input): (EngineState, Output)
  {
    match i
    case Window(e, at) =>
      var (next, d) := Process(cfg, s, e, at);
      (next, if d.Some? then Decided(d.value) else Raised)
    case Reauth(target, claimed, real_, nonce, at) =>
      var (entries, r) := StepUp(s.entries, cfg.hmac, target, claimed, real_, nonce, at);
      (s.(entries := entries), Answered(r))
    case Query(target, at) =>
      var (entries, b) := Ask(s.entries, target, at);
      (s.(entries := entries), Told(b))
  }

  function RunAll(cfg: Config, s: EngineState, inputs: seq<Input>): (r: (EngineState, seq<Output>))
    ensures |r.1| == |inputs|
  {
    if inputs == [] then (s, [])
    else
      var (mid, outs) := RunAll(cfg, s, inputs[..|inputs| - 1]);
      var (next, o) := React(cfg, mid, inputs[|inputs| - 1]);
      (next, outs + [o])
  }

  lemma RunAllOne(cfg: Config, s: EngineState, inputs: seq<Input>, i: Input)
    ensures var (mid, outs) := RunAll(cfg, s, inputs);
            var (next, o) := React(cfg, mid, i);
            RunAll(cfg, s, inputs + [i]) == (next, outs + [o])
  {
    assert (inputs + [i])[..|inputs|] == inputs;
  }

  // ── One subscriber at a time ─────────────────────────────────────────────

  /** All the engine holds about one subscriber. */
  datatype Part = Part(tier2: Option<State>, entry: Option<RiskEntry>)

  function PartOf(s: EngineState, who: string): Part {
    Part(if who in s.tier2 then Some(s.tier2[who]) else None,
         if who in s.entries then Some(s.entries[who]) else None)
  }

  function InputsOf(inputs: seq<Input>, who: string): seq<Input> {
    if inputs == [] then []
    else
      var n := |inputs| - 1;
      InputsOf(inputs[..n], who) + (if inputs[n].Who() == who then [inputs[n]] else [])
  }

  function OutputsOf(inputs: seq<Input>, outs: seq<Output>, who: string): seq<Output>
    requires |inputs| == |outs|
  {
    if inputs == [] then []
    else
      var n := |inputs| - 1;
      OutputsOf(inputs[..n], outs[..n], who) + (if inputs[n].Who() == who then [outs[n]] else [])
  }

  lemma ReactIsLocal(cfg: Config, s: EngineState, t: EngineState, i: Input, who: string)
    requires PartOf(s, who) == PartOf(t, who)
    ensures i.Who() != who ==> PartOf(React(cfg, s, i).0, who) == PartOf(t, who)
    ensures i.Who() == who ==>
              React(cfg, s, i).1 == React(cfg, t, i).1
              && PartOf(React(cfg, s, i).0, who) == PartOf(React(cfg, t, i).0, who)
  {
    hide Process, StepUp, Ask;
    match i
    case Window(e, at) => ProcessIsLocal(cfg, s, t, e, at, who);
    case Reauth(target, claimed, real_, nonce, at) =>
      StepUpIsLocal(cfg, s.entries, t.entries, target, claimed, real_, nonce, at, who);
    case Query(target, at) => AskIsLocal(s.entries, t.entries, target, at, who);
  }

  lemma ProcessIsLocal(cfg: Config, s: EngineState, t: EngineState, e: WindowEvent, at: real, who: string)
    requires PartOf(s, who) == PartOf(t, who)
    ensures e.supi != who ==> PartOf(Process(cfg, s, e, at).0, who) == PartOf(t, who)
    ensures e.supi == who ==>
              && Process(cfg, s, e, at).1 == Process(cfg, t, e, at).1
              && PartOf(Process(cfg, s, e, at).0, who) == PartOf(Process(cfg, t, e, at).0, who)
  {
    hide Advance, Tier1Candidate, ExpiryOr, Divides;
  }

  /** Two block tables hold the same about a target. */
  predicate SameEntry(a: Table, b: Table, who: string) {
    (who in a <==> who in b) && (who in a ==> a[who] == b[who])
  }

  lemma StepUpIsLocal(cfg: Config, a: Table, b: Table, target: string,
                      claimed: Secret, real_: Secret, nonce: Nonce, at: real, who: string)
    requires SameEntry(a, b, who)
    ensures var x, y := StepUp(a, cfg.hmac, target, claimed, real_, nonce, at),
                        StepUp(b, cfg.hmac, target, claimed, real_, nonce, at);
            if target == who then x.1 == y.1 && SameEntry(x.0, y.0, who) else SameEntry(x.0, b, who)
  {
  }

  lemma AskIsLocal(a: Table, b: Table, target: string, at: real, who: string)
    requires SameEntry(a, b, who)
    ensures var x, y := Ask(a, target, at), Ask(b, target, at);
            if target == who then x.1 == y.1 && SameEntry(x.0, y.0, who) else SameEntry(x.0, b, who)
  {
  }

  /**
   * In any interleaving, what the engine answers about a subscriber and what it holds about it are what an
   * engine fed with that subscriber's inputs alone answers and holds.
   */
  lemma {:induction false} NonInterference(cfg: Config, s: EngineState, t: EngineState, inputs: seq<Input>, who: string)
    requires PartOf(s, who) == PartOf(t, who)
    ensures var (s', outs) := RunAll(cfg, s, inputs);
            var (t', alone) := RunAll(cfg, t, InputsOf(inputs, who));
            PartOf(s', who) == PartOf(t', who) && OutputsOf(inputs, outs, who) == alone
  {
    hide React, PartOf;
    if inputs != [] {
      var n := |inputs| - 1;
      var before, i := inputs[..n], inputs[n];
      NonInterference(cfg, s, t, before, who);
      var (mid, outs) := RunAll(cfg, s, before);
      var (mid', alone) := RunAll(cfg, t, InputsOf(before, who));
      ReactIsLocal(cfg, mid, mid', i, who);
      assert RunAll(cfg, s, inputs).1[..n] == outs;
      if i.Who() == who {
        RunAllOne(cfg, t, InputsOf(before, who), i);
      } else {
        assert InputsOf(before, who) + [] == InputsOf(before, who);
        assert OutputsOf(before, outs, who) + [] == OutputsOf(before, outs, who);
      }
    }
  }

  // ── Who is blocked, read off the inputs and the answers ──────────────────

  predicate Alarm(i: Input, o: Output, who: string) {
    i.Who() == who && i.Window? && o.Decided? && o.decision.candidate
  }

  predicate Verified(i: Input, o: Output, who: string) {
    i.Who() == who && o == Answered(VerifiedCleared)
  }

  /** inputs[k] is the subscriber's latest candidate window, with no verified step-up after it. */
  ghost predicate Standing(inputs: seq<Input>, outs: seq<Output>, who: string, k: int)
    requires |inputs| == |outs|
  {
    && 0 <= k < |inputs| && Alarm(inputs[k], outs[k], who)
    && forall j :: k < j < |inputs| ==> !Alarm(inputs[j], outs[j], who) && !Verified(inputs[j], outs[j], who)
  }

  function Find(inputs: seq<Input>, outs: seq<Output>, who: string): (r: Option<nat>)
    requires |inputs| == |outs|
    ensures r.Some? ==> Standing(inputs, outs, who, r.value)
    ensures r.None? ==> forall k :: !Standing(inputs, outs, who, k)
  {
    if inputs == [] then None
    else
      var n := |inputs| - 1;
      if Alarm(inputs[n], outs[n], who) then Some(n)
      else if Verified(inputs[n], outs[n], who) then None
      else
        var r := Find(inputs[..n], outs[..n], who);
        assert forall k :: Standing(inputs, outs, who, k) ==> Standing(inputs[..n], outs[..n], who, k);
        r
  }

  /** The subscriber's own clock never goes back; other subscribers' clocks do not matter. */
  ghost predicate ClockOf(inputs: seq<Input>, who: string) {
    forall i, j :: 0 <= i < j < |inputs| && inputs[i].Who() == who && inputs[j].Who() == who ==>
        inputs[i].at <= inputs[j].at
  }

  /** The entry an alarm leaves. */
  function RaisedBy(d: Decision, who: string, at: real, expiry: real): RiskEntry {
    RiskEntry(who, "supi", "high", if d.tier1 then "tier1" else "tier2", at, expiry, false)
  }

  /** The entry that goes with the standing alarm; gone only if an input came at or after its end. */
  ghost predicate Explains(inputs: seq<Input>, outs: seq<Output>, k: Option<nat>, entry: Option<RiskEntry>, who: string,
                           expiry: real)
    requires |inputs| == |outs| && (k.Some? ==> k.value < |inputs| && outs[k.value].Decided?)
  {
    && (entry.Some? ==> k.Some? && entry.value == RaisedBy(outs[k.value].decision, who, inputs[k.value].at, expiry))
    && (k.Some? && entry.None? ==>
          exists j :: 0 <= j < |inputs| && inputs[j].Who() == who && inputs[j].at >= inputs[k.value].at + expiry)
  }

  /** What one input does to a subscriber's entry. */
  lemma EntryStep(cfg: Config, s: EngineState, i: Input, who: string)
    ensures var (next, o) := React(cfg, s, i);
            var was, entry := PartOf(s, who).entry, PartOf(next, who).entry;
            if Alarm(i, o, who) then
              entry == Some(RaisedBy(o.decision, who, i.at, cfg.expiry))
            else if Verified(i, o, who) then entry.None?
            else entry == was || (i.Who() == who && was.Some? && entry.None? && was.value.Expired(i.at))
  {
    hide Advance, Tier1Candidate;
  }

  lemma {:induction false} TableExplained(cfg: Config, inputs: seq<Input>, who: string)
    ensures var (s, outs) := RunAll(cfg, FRESH_ENGINE, inputs);
            && (Find(inputs, outs, who).Some? ==> outs[Find(inputs, outs, who).value].Decided?)
            && Explains(inputs, outs, Find(inputs, outs, who), PartOf(s, who).entry, who, cfg.expiry)
  {
    hide React, Verified;
    if inputs != [] {
      var n := |inputs| - 1;
      var before, i := inputs[..n], inputs[n];
      TableExplained(cfg, before, who);
      var (mid, outs) := RunAll(cfg, FRESH_ENGINE, before);
      EntryStep(cfg, mid, i, who);
      assert RunAll(cfg, FRESH_ENGINE, inputs).1[..n] == outs;
      var k := Find(before, outs, who);
      if k.Some? && PartOf(mid, who).entry.None? {
        var j :| 0 <= j < |before| && before[j].Who() == who && before[j].at >= before[k.value].at + cfg.expiry;
        assert inputs[j] == before[j];
      }
      assert inputs[n].Who() == i.Who();
    }
  }

  /**
   * Every entry of the block table is that of the subscriber's standing alarm: created at its time, for the
   * configured time, and laid to the hard rule exactly when that window met it.
   */
  lemma EntriesSay(cfg: Config, inputs: seq<Input>, who: string)
    ensures var (s, outs) := RunAll(cfg, FRESH_ENGINE, inputs);
            who in s.entries ==>
              exists k :: Standing(inputs, outs, who, k)
                          && s.entries[who] == RiskEntry(who, "supi", "high",
                                                         if Tier1Candidate(inputs[k].event, cfg.tier1) then "tier1"
                                                         else "tier2", inputs[k].at, cfg.expiry, false)
  {
    hide React, Tier1Candidate;
    TableExplained(cfg, inputs, who);
    var (s, outs) := RunAll(cfg, FRESH_ENGINE, inputs);
    if who in s.entries {
      var k := Find(inputs, outs, who).value;
      assert Standing(inputs, outs, who, k);
      OutputAt(cfg, inputs, k);
    }
  }

  /** The k-th answer is that to the k-th input. */
  lemma {:induction false} OutputAt(cfg: Config, inputs: seq<Input>, k: nat)
    requires k < |inputs|
    ensures var outs := RunAll(cfg, FRESH_ENGINE, inputs).1;
            && outs[k] == React(cfg, RunAll(cfg, FRESH_ENGINE, inputs[..k]).0, inputs[k]).1
            && (outs[k].Decided? ==>
                  inputs[k].Window? && outs[k].decision.tier1 == Tier1Candidate(inputs[k].event, cfg.tier1))
  {
    var n := |inputs| - 1;
    if k < n {
      hide React, Tier1Candidate;
      OutputAt(cfg, inputs[..n], k);
      assert inputs[..n][..k] == inputs[..k];
    } else {
      hide Advance, Tier1Candidate;
    }
  }

  /** What an answer to a window says. */
  lemma DecisionSays(cfg: Config, s: EngineState, e: WindowEvent, at: real)
    ensures var (next, o) := React(cfg, s, Window(e, at));
            && (o == Raised <==> e.attempts as real + cfg.tier2.priorN == 0.0)
            && (o != Raised ==>
                  && o.Decided? && o.decision.supi == e.supi && o.decision.origin == e.origin
                  && o.decision.window == e.window
                  && (o.decision.tier1 <==>
                        e.attempts >= cfg.tier1.minAttempts
                        && if e.attempts > 0 then e.failures as real >= cfg.tier1.threshold * e.attempts as real
                           else cfg.tier1.threshold <= 0.0)
                  && (o.decision.candidate <==> o.decision.tier1 || o.decision.tier2.candidate)
                  && o.decision.blocked == (if o.decision.candidate then Some(e.supi) else None)
                  && next.entries == if o.decision.candidate
                                     then s.entries[e.supi := RaisedBy(o.decision, e.supi, at, cfg.expiry)]
                                     else s.entries)
  {
    hide Advance, Tier1Candidate;
    Tier1ExactlyWhen(e, cfg.tier1);
  }

  /**
   * On a subscriber's non-decreasing clock a query says blocked exactly when some candidate window of it is
   * less than the expiry ago, with neither a later candidate nor a verified step-up since.
   */
  lemma BlockedExactlyWhen(cfg: Config, inputs: seq<Input>, who: string, now: real)
    requires ClockOf(inputs + [Query(who, now)], who)
    ensures var (s, outs) := RunAll(cfg, FRESH_ENGINE, inputs);
            React(cfg, s, Query(who, now)).1 ==
            Told(exists k :: Standing(inputs, outs, who, k) && now < inputs[k].at + cfg.expiry)
  {
    TableExplained(cfg, inputs, who);
    var (s, outs) := RunAll(cfg, FRESH_ENGINE, inputs);
    var found := Find(inputs, outs, who);
    var full := inputs + [Query(who, now)];
    assert full[|inputs|].Who() == who && full[|inputs|].at == now;
    assert forall j :: 0 <= j < |inputs| && inputs[j].Who() == who ==> full[j] == inputs[j] && inputs[j].at <= now;
    if found.Some? {
      assert forall k :: Standing(inputs, outs, who, k) ==> k == found.value;
    }
  }

  /** No candidate, no block: whatever the clock does. */
  lemma NeverBlockedWithoutCandidate(cfg: Config, inputs: seq<Input>, who: string, now: real)
    ensures var (s, outs) := RunAll(cfg, FRESH_ENGINE, inputs);
            React(cfg, s, Query(who, now)).1 == Told(true) ==>
              exists k :: 0 <= k < |inputs| && Alarm(inputs[k], outs[k], who)
  {
    TableExplained(cfg, inputs, who);
  }

  /** A failed step-up might as well not have happened. */
  lemma FailedStepUpChangesNothing(cfg: Config, s: EngineState, i: Input)
    requires i.Reauth? && React(cfg, s, i).1 == Answered(FailedStillBlocked)
    ensures React(cfg, s, i).0 == s && i.claimed != i.real_
    ensures React(cfg, s, Query(i.target, i.at)).1 == Told(true)
  {
    StepUpMeaning(s.entries, cfg.hmac, i.target, i.claimed, i.real_, i.nonce, i.at);
  }

  // ── The reputation in the engine is the subscriber's own run ─────────────

  /** A window about a subscriber that update_tier2 can weigh. */
  predicate WindowOf(cfg: Config, i: Input, who: string) {
    i.Window? && i.event.supi == who && Divides(i.event, cfg.tier2)
  }

  function WindowsOf(cfg: Config, inputs: seq<Input>, who: string): (own: seq<WindowEvent>)
    ensures AllDivide(own, cfg.tier2)
  {
    if inputs == [] then []
    else
      var i := inputs[|inputs| - 1];
      WindowsOf(cfg, inputs[..|inputs| - 1], who) + (if WindowOf(cfg, i, who) then [i.event] else [])
  }

  lemma Tier2Step(cfg: Config, s: EngineState, i: Input, who: string)
    ensures var (next, o) := React(cfg, s, i);
            if WindowOf(cfg, i, who) then
              var (state, verdict) := Advance(StateOf(s.tier2, who), i.event, cfg.tier2, cfg.decay);
              && PartOf(next, who).tier2 == Some(state) && o.Decided?
              && o.decision.candidate == (Tier1Candidate(i.event, cfg.tier1) || verdict.candidate)
            else StateOf(next.tier2, who) == StateOf(s.tier2, who) && !Alarm(i, o, who)
  {
    hide Advance, Tier1Candidate;
  }

  /** The last window of a subscriber's run is a candidate, by the hard rule or by reputation. */
  predicate Raises(cfg: Config, own: seq<WindowEvent>)
    requires AllDivide(own, cfg.tier2)
  {
    own != [] && (Tier1Candidate(own[|own| - 1], cfg.tier1) || LastUpdate(FRESH, own, cfg.tier2, cfg.decay).candidate)
  }

  lemma OwnWindowRaises(cfg: Config, s: EngineState, i: Input, was: seq<WindowEvent>)
    requires i.Window? && Divides(i.event, cfg.tier2) && AllDivide(was, cfg.tier2)
    requires StateOf(s.tier2, i.event.supi) == RunFrom(FRESH, was, cfg.tier2, cfg.decay)
    ensures var (next, o) := React(cfg, s, i);
            && StateOf(next.tier2, i.event.supi) == RunFrom(FRESH, was + [i.event], cfg.tier2, cfg.decay)
            && (Alarm(i, o, i.event.supi) <==> Raises(cfg, was + [i.event]))
  {
    hide Advance, Tier1Candidate;
    assert (was + [i.event])[..|was|] == was;
    Tier2Step(cfg, s, i, i.event.supi);
  }

  lemma OtherInputKeeps(cfg: Config, s: EngineState, i: Input, who: string)
    requires !WindowOf(cfg, i, who)
    ensures var (next, o) := React(cfg, s, i);
            StateOf(next.tier2, who) == StateOf(s.tier2, who) && !Alarm(i, o, who)
  {
    hide Advance, Tier1Candidate;
    Tier2Step(cfg, s, i, who);
  }

  /**
   * Whatever is interleaved, a subscriber's reputation is that of its own windows run alone from fresh, and
   * input k is an alarm about it exactly when it is a window of its that ends such a run in a candidate.
   */
  lemma {:induction false} ReputationIsOwnRun(cfg: Config, inputs: seq<Input>, who: string)
    ensures var (s, outs) := RunAll(cfg, FRESH_ENGINE, inputs);
            && StateOf(s.tier2, who) == RunFrom(FRESH, WindowsOf(cfg, inputs, who), cfg.tier2, cfg.decay)
            && forall k :: 0 <= k < |inputs| ==>
                 (Alarm(inputs[k], outs[k], who) <==>
                  WindowOf(cfg, inputs[k], who) && Raises(cfg, WindowsOf(cfg, inputs[..k + 1], who)))
  {
    hide React, Raises, Alarm, RunFrom;
    if inputs == [] {
      NoRun(FRESH, cfg.tier2, cfg.decay);
    } else {
      var n := |inputs| - 1;
      var before, i := inputs[..n], inputs[n];
      ReputationIsOwnRun(cfg, before, who);
      var (mid, outs) := RunAll(cfg, FRESH_ENGINE, before);
      var (s, all) := RunAll(cfg, FRESH_ENGINE, inputs);
      assert inputs[..n + 1] == inputs;
      if WindowOf(cfg, i, who) {
        OwnWindowRaises(cfg, mid, i, WindowsOf(cfg, before, who));
      } else {
        OtherInputKeeps(cfg, mid, i, who);
        assert WindowsOf(cfg, before, who) + [] == WindowsOf(cfg, before, who);
      }
      forall k | 0 <= k < |inputs|
        ensures Alarm(inputs[k], all[k], who) <==>
                WindowOf(cfg, inputs[k], who) && Raises(cfg, WindowsOf(cfg, inputs[..k + 1], who))
      {
        if k < n {
          assert before[..k + 1] == inputs[..k + 1] && before[k] == inputs[k] && outs[k] == all[k];
        }
      }
    }
  }

  lemma {:induction false} WindowsPrefix(cfg: Config, inputs: seq<Input>, k: nat, who: string)
    requires k <= |inputs|
    ensures WindowsOf(cfg, inputs[..k], who) <= WindowsOf(cfg, inputs, who)
  {
    if k == |inputs| {
      assert inputs[..k] == inputs;
    } else {
      var n := |inputs| - 1;
      WindowsPrefix(cfg, inputs[..n], k, who);
      assert inputs[..n][..k] == inputs[..k];
    }
  }

  /**
   * In the default configuration a subscriber the hard rule never catches, its windows at least 30 s
   * apart, is not blocked by its first five windows, whatever else the engine is fed.
   */
  lemma FirstFiveNeverBlock(cfg: Config, inputs: seq<Input>, who: string, now: real)
    requires cfg.tier2 == DEFAULT_TIER2 && HalvesInThree(cfg.decay)
    requires var own := WindowsOf(cfg, inputs, who);
             |own| <= 5 && SpacedAtLeast(own, 30.0) && forall i :: 0 <= i < |own| ==> !Tier1Candidate(own[i], cfg.tier1)
    ensures React(cfg, RunAll(cfg, FRESH_ENGINE, inputs).0, Query(who, now)).1 == Told(false)
  {
    hide HalvesInThree, Tier1Candidate, Raises, RunAll, Alarm, React, WindowsOf, WindowOf;
    forall k | 0 <= k < |inputs|
      ensures WindowOf(cfg, inputs[k], who) ==> !Raises(cfg, WindowsOf(cfg, inputs[..k + 1], who))
    {
      WindowsPrefix(cfg, inputs, k + 1, who);
      FirstFiveQuiet(cfg, WindowsOf(cfg, inputs, who), WindowsOf(cfg, inputs[..k + 1], who));
    }
    ReputationIsOwnRun(cfg, inputs, who);
    NeverBlockedWithoutCandidate(cfg, inputs, who, now);
    QueryTells(cfg, RunAll(cfg, FRESH_ENGINE, inputs).0, who, now);
  }

  lemma FirstFiveQuiet(cfg: Config, own: seq<WindowEvent>, part: seq<WindowEvent>)
    requires cfg.tier2 == DEFAULT_TIER2 && HalvesInThree(cfg.decay) && part <= own && AllDivide(part, cfg.tier2)
    requires |own| <= 5 && SpacedAtLeast(own, 30.0) && forall i :: 0 <= i < |own| ==> !Tier1Candidate(own[i], cfg.tier1)
    ensures !Raises(cfg, part)
  {
    hide HalvesInThree, Tier1Candidate, LastUpdate;
    if part != [] {
      assert forall i :: 0 <= i < |part| ==> part[i] == own[i];
      NeverBeforeSixth(part, cfg.decay);
    }
  }

  /**
   * In the default configuration, 20 failures in every 100 attempts every 30 s raise the subscriber from its
   * seventh window on, whatever else the engine is fed, where the hard rule does not catch the window.
   */
  lemma SeventhWindowAlarms(cfg: Config, inputs: seq<Input>, who: string, k: nat)
    requires cfg.tier2 == DEFAULT_TIER2 && HalvesInThree(cfg.decay) && k < |inputs|
    requires WindowOf(cfg, inputs[k], who) && !Tier1Candidate(inputs[k].event, cfg.tier1)
    requires var own := WindowsOf(cfg, inputs, who);
             && (forall i :: 0 <= i < |own| ==> own[i].attempts == 100 && own[i].failures == 20)
             && forall i :: 0 < i < |own| ==> own[i].timestamp - own[i - 1].timestamp == 30.0
    ensures Alarm(inputs[k], RunAll(cfg, FRESH_ENGINE, inputs).1[k], who) <==>
            |WindowsOf(cfg, inputs[..k + 1], who)| >= 7
  {
    hide HalvesInThree, Tier1Candidate, RunAll, Alarm, Raises, WindowOf, WindowsOf;
    ReputationIsOwnRun(cfg, inputs, who);
    WindowsPrefix(cfg, inputs, k + 1, who);
    LastOwn(cfg, inputs, k, who);
    SeventhRaises(cfg, WindowsOf(cfg, inputs, who), WindowsOf(cfg, inputs[..k + 1], who));
  }

  lemma SeventhRaises(cfg: Config, own: seq<WindowEvent>, part: seq<WindowEvent>)
    requires cfg.tier2 == DEFAULT_TIER2 && HalvesInThree(cfg.decay) && part <= own && AllDivide(part, cfg.tier2)
    requires part != [] && !Tier1Candidate(part[|part| - 1], cfg.tier1)
    requires forall i :: 0 <= i < |own| ==> own[i].attempts == 100 && own[i].failures == 20
    requires forall i :: 0 < i < |own| ==> own[i].timestamp - own[i - 1].timestamp == 30.0
    ensures Raises(cfg, part) <==> |part| >= 7
  {
    hide HalvesInThree, Tier1Candidate, LastUpdate;
    assert forall i :: 0 <= i < |part| ==> part[i] == own[i];
    SeventhOfTwenty(part, cfg.decay);
  }

  lemma LastOwn(cfg: Config, inputs: seq<Input>, k: nat, who: string)
    requires k < |inputs| && WindowOf(cfg, inputs[k], who)
    ensures var part := WindowsOf(cfg, inputs[..k + 1], who);
            part != [] && part[|part| - 1] == inputs[k].event
  {
    hide WindowOf;
    assert inputs[..k + 1][..k] == inputs[..k];
  }

  lemma QueryTells(cfg: Config, s: EngineState, who: string, now: real)
    ensures React(cfg, s, Query(who, now)).1.Told?
  {
  }
}
