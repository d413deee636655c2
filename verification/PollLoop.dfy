/** realtime_engine.py, run_against_real_nwdaf: the nested loops over polls, subscribers and events. */
module PollLoop {
  import opened Wrappers
  import opened Reputation
  import opened Engine
  import opened EngineRun
  import opened Nwdaf
  import opened Polling

  function Round(supis: seq<string>, answers: seq<Option<seq<Row>>>): (r: seq<Poll>)
    requires |supis| == |answers|
    ensures |r| == |supis|
  {
    seq(|supis|, i requires 0 <= i < |supis| => Poll(supis[i], answers[i]))
  }

  function Rounds(supis: seq<string>, answers: seq<seq<Option<seq<Row>>>>): seq<Poll>
    requires forall k :: 0 <= k < |answers| ==> |supis| == |answers[k]|
  {
    if answers == [] then []
    else Rounds(supis, answers[..|answers| - 1]) + Round(supis, answers[|answers| - 1])
  }

  lemma RoundNext(supis: seq<string>, answers: seq<Option<seq<Row>>>, i: nat)
    requires i < |supis| == |answers|
    ensures Round(supis, answers)[..i + 1] == Round(supis, answers)[..i] + [Poll(supis[i], answers[i])]
  {
  }

  lemma RoundsNext(supis: seq<string>, answers: seq<seq<Option<seq<Row>>>>, k: nat)
    requires k < |answers| && forall i :: 0 <= i < |answers| ==> |supis| == |answers[i]|
    ensures Rounds(supis, answers[..k + 1]) == Rounds(supis, answers[..k]) + Round(supis, answers[k])
  {
    assert answers[..k + 1][..k] == answers[..k];
  }

  lemma PollAllOne(lib: Library, field: Option<string>, l: Live, polls: seq<Poll>, p: Poll)
    ensures PollAll(lib, field, l, polls + [p]) == PollOne(lib, field, PollAll(lib, field, l, polls), p)
  {
    assert (polls + [p])[..|polls|] == polls;
  }

  lemma {:induction false} CrashStaysAll(lib: Library, field: Option<string>, l: Live, a: seq<Poll>, b: seq<Poll>)
    requires a <= b && PollAll(lib, field, l, a).crashed
    ensures PollAll(lib, field, l, b) == PollAll(lib, field, l, a)
  {
    if a != b {
      var n := |b| - 1;
      CrashStaysAll(lib, field, l, a, b[..n]);
    }
  }

  lemma {:induction false} RoundsPrefix(supis: seq<string>, answers: seq<seq<Option<seq<Row>>>>, k: nat)
    requires k <= |answers| && forall i :: 0 <= i < |answers| ==> |supis| == |answers[i]|
    ensures Rounds(supis, answers[..k]) <= Rounds(supis, answers)
  {
    if k < |answers| {
      var n := |answers| - 1;
      RoundsPrefix(supis, answers[..n], k);
      assert answers[..n][..k] == answers[..k];
    } else {
      assert answers[..k] == answers;
    }
  }

  // ── An event that raises ─────────────────────────────────────────────────

  /** The engine can weigh the window of this input. */
  predicate Weighs(cfg: Config, i: Input) {
    i.Window? ==> Divides(i.event, cfg.tier2)
  }

  predicate Weighed(cfg: Config, fed: seq<Input>) {
    forall i :: 0 <= i < |fed| ==> Weighs(cfg, fed[i])
  }

  /** The inputs that reach the engine: up to the first that raises, it included. */
  function Taken(cfg: Config, fed: seq<Input>): seq<Input> {
    if fed == [] then []
    else if !Weighs(cfg, fed[0]) then [fed[0]]
    else [fed[0]] + Taken(cfg, fed[1..])
  }

  lemma {:induction false} TakenAll(cfg: Config, fed: seq<Input>)
    requires Weighed(cfg, fed)
    ensures Taken(cfg, fed) == fed
  {
    if fed != [] {
      TakenAll(cfg, fed[1..]);
    }
  }

  lemma {:induction false} TakenStops(cfg: Config, fed: seq<Input>, n: nat)
    requires n < |fed| && Weighed(cfg, fed[..n]) && !Weighs(cfg, fed[n])
    ensures Taken(cfg, fed) == fed[..n + 1]
  {
    if n > 0 {
      assert fed[..n][0] == fed[0] && fed[1..][..n - 1] == fed[..n][1..];
      TakenStops(cfg, fed[1..], n - 1);
    }
  }

  lemma {:induction false} FedGrows(lib: Library, field: Option<string>, l: Live, a: seq<Poll>, b: seq<Poll>)
    requires a <= b
    ensures PollAll(lib, field, l, a).fed <= PollAll(lib, field, l, b).fed
  {
    hide Fetch, Newer, AsInputs;
    if a != b {
      FedGrows(lib, field, l, a, b[..|b| - 1]);
    }
  }

  // ── The loops ────────────────────────────────────────────────────────────

  /** The engine has been fed exactly these inputs since it held start. */
  ghost predicate Fed(engine: SecurityLayerEngine, start: EngineState, fed: seq<Input>)
    reads engine, engine.trr, engine.Records()
  {
    engine.Snapshot() == RunAll(engine.cfg, start, fed).0
  }

  method FeedOne(engine: SecurityLayerEngine, ev: WindowEvent, ghost start: EngineState, ghost fed: seq<Input>)
    returns (raised: bool)
    requires engine.Valid() && Fed(engine, start, fed)
    modifies engine, engine.trr, engine.Records()
    ensures engine.Valid() && fresh(engine.Records() - old(engine.Records()))
    ensures Fed(engine, start, fed + AsInputs([ev]))
    ensures raised <==> !Divides(ev, engine.cfg.tier2)
  {
    hide RunAll, Decide;
    var r := engine.ProcessEvent(ev, None);
    raised := r.None?;
    RunAllOne(engine.cfg, start, fed, Window(ev, ev.timestamp));
    assert AsInputs([ev]) == [Window(ev, ev.timestamp)];
  }

  datatype End = Running | FetchRaised | EngineRaised

  lemma WeighedOne(cfg: Config, fed: seq<Input>, ev: WindowEvent)
    requires Weighed(cfg, fed)
    ensures Weighed(cfg, fed + AsInputs([ev])) <==> Divides(ev, cfg.tier2)
  {
    var all := fed + AsInputs([ev]);
    assert all[|fed|] == Window(ev, ev.timestamp);
  }

  /** The run stops inside the first |part| inputs of fed, at its last one. */
  ghost predicate StopsAfter(cfg: Config, fed: seq<Input>, part: seq<Input>) {
    part != [] && part <= fed && Weighed(cfg, part[..|part| - 1]) && !Weighs(cfg, part[|part| - 1])
  }

  lemma StopsMeaning(cfg: Config, fed: seq<Input>, part: seq<Input>)
    requires StopsAfter(cfg, fed, part)
    ensures Taken(cfg, fed) == part && !Weighed(cfg, fed)
  {
    var n := |part| - 1;
    assert fed[..n] == part[..n] && fed[n] == part[n];
    TakenStops(cfg, fed, n);
  }

  /** Feeding the newer events one by one, the mark following; taken is what the engine got. */
  method FeedNewer(engine: SecurityLayerEngine, supi: string, newer: seq<WindowEvent>, seen: map<string, int>,
                   ghost start: EngineState, ghost fed: seq<Input>)
    returns (seen': map<string, int>, raised: bool, ghost taken: seq<Input>)
    requires engine.Valid() && Fed(engine, start, fed) && Weighed(engine.cfg, fed) && supi in seen
    modifies engine, engine.trr, engine.Records()
    ensures engine.Valid() && fresh(engine.Records() - old(engine.Records()))
    ensures Fed(engine, start, taken)
    ensures !raised ==> taken == fed + AsInputs(newer) && Weighed(engine.cfg, taken)
                        && seen' == seen[supi := MarkAfter(seen[supi], newer)]
    ensures raised ==> StopsAfter(engine.cfg, fed + AsInputs(newer), taken)
  {
    hide RunAll, AsInputs, Fed, Weighed, StopsAfter, Weighs, Divides;
    seen', raised, taken := seen, false, fed;
    assert fed + AsInputs(newer[..0]) == fed;
    for i := 0 to |newer|
      invariant engine.Valid() && fresh(engine.Records() - old(engine.Records()))
      invariant taken == fed + AsInputs(newer[..i]) && Fed(engine, start, taken) && Weighed(engine.cfg, taken)
      invariant seen' == seen[supi := MarkAfter(seen[supi], newer[..i])]
    {
      var ev := newer[i];
      WeighedOne(engine.cfg, taken, ev);
      raised := FeedOne(engine, ev, start, taken);
      assert newer[..i + 1] == newer[..i] + [ev];
      AsInputsAppend(newer[..i], [ev]);
      assert taken + AsInputs([ev]) == fed + AsInputs(newer[..i + 1]);
      if raised {
        RaisedHere(engine.cfg, fed, newer, i, taken);
        taken := taken + AsInputs([ev]);
        return;
      }
      taken := taken + AsInputs([ev]);
      seen' := seen'[supi := ev.window];
    }
    assert newer[..|newer|] == newer;
  }

  lemma RaisedHere(cfg: Config, fed: seq<Input>, newer: seq<WindowEvent>, i: nat, taken: seq<Input>)
    requires i < |newer| && taken == fed + AsInputs(newer[..i]) && Weighed(cfg, taken)
    requires !Divides(newer[i], cfg.tier2)
    ensures StopsAfter(cfg, fed + AsInputs(newer), taken + AsInputs([newer[i]]))
  {
    var part := taken + AsInputs([newer[i]]);
    assert part[..|part| - 1] == taken;
    assert part[|part| - 1] == Window(newer[i], newer[i].timestamp);
  }

  /** One subscriber in one poll: each event above the mark goes through the engine, and the mark follows. */
  method PollSubscriber(engine: SecurityLayerEngine, lib: Library, field: Option<string>, p: Poll,
                        seen: map<string, int>, ghost start: EngineState, ghost l: Live)
    returns (seen': map<string, int>, end: End, ghost taken: seq<Input>)
    requires engine.Valid() && Fed(engine, start, l.fed) && Weighed(engine.cfg, l.fed) && seen == l.seen && !l.crashed
    modifies engine, engine.trr, engine.Records()
    ensures engine.Valid() && fresh(engine.Records() - old(engine.Records())) && Fed(engine, start, taken)
    ensures var next := PollOne(lib, field, l, p);
            && (end.EngineRaised? ==> StopsAfter(engine.cfg, next.fed, taken))
            && (!end.EngineRaised? ==> taken == next.fed && Weighed(engine.cfg, next.fed) && seen' == next.seen
                                       && (end.FetchRaised? <==> next.crashed))
  {
    hide Fetch, RunAll, Newer, AsInputs, Fed, Weighed, StopsAfter;
    seen', end, taken := seen, Running, l.fed;
    if p.answer.None? {
      return;
    }
    var events := FetchEvents(lib, p.answer.value, field);
    if events.None? {
      end := FetchRaised;
      return;
    }
    var mark := if p.supi in seen then seen[p.supi] else -1;
    var newer := Newer(events.value, mark);
    var raised;
    seen', raised, taken := FeedNewer(engine, p.supi, newer, seen[p.supi := mark], start, l.fed);
    if raised {
      end := EngineRaised;
    }
  }

  /**
   * answers[k][i] is what the core answers the k-th poll of supis[i] with. The run raises exactly when a
   * fetch does or a window fed to the engine cannot be weighed; the engine has then been fed what the polls
   * give up to there, and otherwise all of it.
   */
  method RunAgainstNwdaf(engine: SecurityLayerEngine, supis: seq<string>, answers: seq<seq<Option<seq<Row>>>>,
                         lib: Library, field: Option<string>)
    returns (end: End)
    requires engine.Valid() && forall k :: 0 <= k < |answers| ==> |supis| == |answers[k]|
    modifies engine, engine.trr, engine.Records()
    ensures engine.Valid()
    ensures var l := PollAll(lib, field, START, Rounds(supis, answers));
            && (end.EngineRaised? <==> !Weighed(engine.cfg, l.fed))
            && (end.FetchRaised? <==> Weighed(engine.cfg, l.fed) && l.crashed)
            && Fed(engine, old(engine.Snapshot()), Taken(engine.cfg, l.fed))
  {
    hide PollOne, PollAll, RunAll, Weighed, StopsAfter, Taken, Fed, Round, Rounds;
    ghost var start, l := engine.Snapshot(), START;
    var seen: map<string, int> := map[];
    end := Running;
    StartsFed(engine, lib, field);
    NoRounds(supis);
    for k := 0 to |answers|
      invariant engine.Valid() && fresh(engine.Records() - old(engine.Records()))
      invariant l == PollAll(lib, field, START, Rounds(supis, answers[..k]))
      invariant Fed(engine, start, l.fed) && Weighed(engine.cfg, l.fed) && seen == l.seen && !l.crashed
    {
      ghost var before, round := Rounds(supis, answers[..k]), Round(supis, answers[k]);
      RoundsNext(supis, answers, k);
      assert before + round[..0] == before;
      for i := 0 to |supis|
        invariant engine.Valid() && fresh(engine.Records() - old(engine.Records()))
        invariant l == PollAll(lib, field, START, before + round[..i])
        invariant Fed(engine, start, l.fed) && Weighed(engine.cfg, l.fed) && seen == l.seen && !l.crashed
      {
        var p := Poll(supis[i], answers[k][i]);
        ghost var here := before + round[..i + 1];
        RoundNext(supis, answers[k], i);
        assert here == before + round[..i] + [p];
        PollAllOne(lib, field, START, before + round[..i], p);
        ghost var taken;
        seen, end, taken := PollSubscriber(engine, lib, field, p, seen, start, l);
        l := PollOne(lib, field, l, p);
        if !end.Running? {
          RoundsPrefix(supis, answers, k + 1);
          assert here <= before + round;
          EndsHere(engine.cfg, lib, field, here, Rounds(supis, answers), end, taken);
          return;
        }
      }
      assert round[..|supis|] == round;
    }
    assert answers[..|answers|] == answers;
    TakenAll(engine.cfg, l.fed);
    end := Running;
  }

  lemma NoRounds(supis: seq<string>)
    ensures Rounds(supis, []) == []
  {
  }

  lemma StartsFed(engine: SecurityLayerEngine, lib: Library, field: Option<string>)
    ensures Fed(engine, engine.Snapshot(), []) && Weighed(engine.cfg, [])
    ensures PollAll(lib, field, START, []) == START
  {
  }

  /** The polls that were not made change neither the end nor what was taken. */
  lemma EndsHere(cfg: Config, lib: Library, field: Option<string>, here: seq<Poll>, all: seq<Poll>, end: End,
                 taken: seq<Input>)
    requires here <= all && !end.Running?
    requires var l := PollAll(lib, field, START, here);
             if end.EngineRaised? then StopsAfter(cfg, l.fed, taken)
             else taken == l.fed && Weighed(cfg, l.fed) && l.crashed
    ensures var l := PollAll(lib, field, START, all);
            && (end.EngineRaised? <==> !Weighed(cfg, l.fed))
            && (end.FetchRaised? <==> Weighed(cfg, l.fed) && l.crashed)
            && Taken(cfg, l.fed) == taken
  {
    hide PollAll, Weighed, Taken;
    if end.EngineRaised? {
      FedGrows(lib, field, START, here, all);
      StopsMeaning(cfg, PollAll(lib, field, START, all).fed, taken);
    } else {
      CrashStaysAll(lib, field, START, here, all);
      TakenAll(cfg, taken);
    }
  }
}
