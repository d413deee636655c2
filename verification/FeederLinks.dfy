/** ntn.go, FeederLinkManager: which ground station serves a satellite, and the log of its switches. */
module FeederLinks {
  import opened Wrappers

  datatype Link = Link(gs: string, gnbIp: string, since: int)

  datatype Switch = Switch(sat: string, from: string, to: string, at: int)

  datatype State = State(active: map<string, Link>, history: seq<Switch>)

  datatype Call = Call(sat: string, gs: string, gnbIp: string, now: int)

  /** RegisterFeederLink: the link replaced, if it was to another station. */
  function Register(s: State, c: Call): (State, Option<Link>) {
    var active := s.active[c.sat := Link(c.gs, c.gnbIp, c.now)];
    if c.sat in s.active && s.active[c.sat].gs != c.gs then
      (State(active, s.history + [Switch(c.sat, s.active[c.sat].gs, c.gs, c.now)]), Some(s.active[c.sat]))
    else (State(active, s.history), None)
  }

  datatype Reply = Switched(sat: string, from: string, to: string) | NotSwitched

  class FeederLinkManager {
    var activeLinks: map<string, Link>
    var switchHistory: seq<Switch>

    function Value(): State
      reads this
    {
      State(activeLinks, switchHistory)
    }

    constructor ()
      ensures Value() == State(map[], [])
    {
      activeLinks, switchHistory := map[], [];
    }

    method RegisterFeederLink(c: Call) returns (was: Option<Link>)
      modifies this
      ensures (Value(), was) == Register(old(Value()), c)
      ensures was == if c.sat in old(activeLinks) && old(activeLinks)[c.sat].gs != c.gs
                     then Some(old(activeLinks)[c.sat]) else None
    {
      was := if c.sat in activeLinks then Some(activeLinks[c.sat]) else None;
      activeLinks := activeLinks[c.sat := Link(c.gs, c.gnbIp, c.now)];
      if was.Some? && was.value.gs != c.gs {
        switchHistory := switchHistory + [Switch(c.sat, was.value.gs, c.gs, c.now)];
        return;
      }
      was := None;
    }

    /** A switch is reported exactly when the history grew, and then it is the one just recorded. */
    method InitiateSwitch(c: Call) returns (r: Reply)
      modifies this
      ensures Value() == Register(old(Value()), c).0
      ensures r.Switched? <==> |switchHistory| == |old(switchHistory)| + 1
      ensures r.NotSwitched? <==> switchHistory == old(switchHistory)
      ensures r.Switched? ==> switchHistory[|switchHistory| - 1] == Switch(r.sat, r.from, r.to, c.now)
                              && r.sat == c.sat && r.to == activeLinks[c.sat].gs
    {
      var was := RegisterFeederLink(c);
      if was.None? {
        return NotSwitched;
      }
      return Switched(c.sat, was.value.gs, c.gs);
    }
  }

  // ── Runs ─────────────────────────────────────────────────────────────────

  function Run(calls: seq<Call>): State {
    if calls == [] then State(map[], []) else Register(Run(calls[..|calls| - 1]), calls[|calls| - 1]).0
  }

  /** The stations a satellite was bound to, call by call. */
  function Stations(calls: seq<Call>, sat: string): seq<string> {
    if calls == [] then []
    else Stations(calls[..|calls| - 1], sat) + (if calls[|calls| - 1].sat == sat then [calls[|calls| - 1].gs] else [])
  }

  function HistoryOf(history: seq<Switch>, sat: string): seq<(string, string)> {
    if history == [] then []
    else
      var last := history[|history| - 1];
      HistoryOf(history[..|history| - 1], sat) + (if last.sat == sat then [(last.from, last.to)] else [])
  }

  /** The places where a list changes, as pairs of the value before and after. */
  function Changes(stations: seq<string>): seq<(string, string)> {
    if |stations| < 2 then []
    else
      var n := |stations| - 1;
      Changes(stations[..n]) + (if stations[n - 1] != stations[n] then [(stations[n - 1], stations[n])] else [])
  }

  lemma HistoryOfOne(history: seq<Switch>, s: Switch, sat: string)
    ensures HistoryOf(history + [s], sat) == HistoryOf(history, sat) + (if s.sat == sat then [(s.from, s.to)] else [])
  {
    assert (history + [s])[..|history|] == history;
  }

  lemma ChangesOne(stations: seq<string>, gs: string)
    ensures Changes(stations + [gs]) ==
            Changes(stations) + (if stations != [] && stations[|stations| - 1] != gs
                                 then [(stations[|stations| - 1], gs)] else [])
  {
    var all := stations + [gs];
    assert all[..|stations|] == stations;
    assert stations != [] ==> all[|stations| - 1] == stations[|stations| - 1];
  }

  /** What one call does to a satellite. */
  lemma RegisterOne(s: State, c: Call, sat: string)
    ensures var s' := Register(s, c).0;
            if c.sat != sat then
              HistoryOf(s'.history, sat) == HistoryOf(s.history, sat)
              && (sat in s'.active <==> sat in s.active) && (sat in s.active ==> s'.active[sat] == s.active[sat])
            else
              sat in s'.active && s'.active[sat].gs == c.gs
              && HistoryOf(s'.history, sat) == HistoryOf(s.history, sat)
                   + (if sat in s.active && s.active[sat].gs != c.gs then [(s.active[sat].gs, c.gs)] else [])
  {
    hide HistoryOf;
    if c.sat in s.active {
      HistoryOfOne(s.history, Switch(c.sat, s.active[c.sat].gs, c.gs, c.now), sat);
    }
    assert HistoryOf(s.history, sat) + [] == HistoryOf(s.history, sat);
  }

  lemma Unregistered(sat: string)
    ensures HistoryOf(Run([]).history, sat) == Changes([]) && Run([]).active == map[]
  {
  }

  /** A satellite's switches are exactly the changes of station, and its active link is to the last station. */
  lemma {:induction false} HistoryIsChanges(calls: seq<Call>, sat: string)
    ensures var s, stations := Run(calls), Stations(calls, sat);
            && HistoryOf(s.history, sat) == Changes(stations)
            && (sat in s.active <==> stations != [])
            && (stations != [] ==> s.active[sat].gs == stations[|stations| - 1])
  {
    hide HistoryOf, Changes, Register;
    if calls == [] {
      Unregistered(sat);
    } else {
      var n := |calls| - 1;
      HistoryIsChanges(calls[..n], sat);
      RegisterOne(Run(calls[..n]), calls[n], sat);
      ChangesOne(Stations(calls[..n], sat), calls[n].gs);
      assert Stations(calls[..n], sat) + [] == Stations(calls[..n], sat);
    }
  }

  /** ops[k] is the last call for the satellite. */
  ghost predicate LastCall(calls: seq<Call>, sat: string, k: int) {
    0 <= k < |calls| && calls[k].sat == sat && forall j :: k < j < |calls| ==> calls[j].sat != sat
  }

  /** The active link is the last call's, address and time. */
  lemma {:induction false} LinkIsLastCall(calls: seq<Call>, sat: string, k: nat)
    requires LastCall(calls, sat, k)
    ensures var active := Run(calls).active;
            sat in active && active[sat] == Link(calls[k].gs, calls[k].gnbIp, calls[k].now)
  {
    if k < |calls| - 1 {
      LinkIsLastCall(calls[..|calls| - 1], sat, k);
    }
  }

  /** Each switch is a call for its satellite, to the new station, at its time. */
  ghost predicate CalledFor(calls: seq<Call>, s: Switch) {
    exists k :: 0 <= k < |calls| && calls[k].sat == s.sat && calls[k].gs == s.to && calls[k].now == s.at
  }

  lemma {:induction false} SwitchesAreCalls(calls: seq<Call>)
    ensures forall s :: s in Run(calls).history ==> CalledFor(calls, s)
  {
    hide CalledFor;
    if calls != [] {
      var n := |calls| - 1;
      SwitchesAreCalls(calls[..n]);
      forall s | s in Run(calls).history
        ensures CalledFor(calls, s)
      {
        CalledLater(calls, s);
      }
    }
  }

  lemma CalledLater(calls: seq<Call>, s: Switch)
    requires calls != []
    requires var c := calls[|calls| - 1];
             CalledFor(calls[..|calls| - 1], s) || (s.sat == c.sat && s.to == c.gs && s.at == c.now)
    ensures CalledFor(calls, s)
  {
    var n := |calls| - 1;
    if CalledFor(calls[..n], s) {
      var k :| 0 <= k < n && calls[..n][k].sat == s.sat && calls[..n][k].gs == s.to && calls[..n][k].now == s.at;
      assert calls[k] == calls[..n][k];
    }
  }

  /** Per satellite: the active link has station, address and time of the last call, and every switch is a call. */
  lemma LinksAreCalls(calls: seq<Call>, sat: string)
    ensures var s := Run(calls);
            && (forall k :: 0 <= k < |calls| && LastCall(calls, sat, k) ==>
                  sat in s.active && s.active[sat] == Link(calls[k].gs, calls[k].gnbIp, calls[k].now))
            && forall switch :: switch in s.history ==> CalledFor(calls, switch)
  {
    hide Run, LastCall, CalledFor;
    forall k | 0 <= k < |calls| && LastCall(calls, sat, k)
      ensures sat in Run(calls).active
      ensures Run(calls).active[sat] == Link(calls[k].gs, calls[k].gnbIp, calls[k].now)
    {
      LinkIsLastCall(calls, sat, k);
    }
    SwitchesAreCalls(calls);
  }

  /** Each step starts where the one before ended, and goes somewhere else. */
  ghost predicate Path(steps: seq<(string, string)>) {
    && (forall i :: 0 <= i < |steps| ==> steps[i].0 != steps[i].1)
    && (forall i :: 0 < i < |steps| ==> steps[i - 1].1 == steps[i].0)
  }

  lemma PathOne(steps: seq<(string, string)>, step: (string, string))
    requires Path(steps) && step.0 != step.1 && (steps != [] ==> steps[|steps| - 1].1 == step.0)
    ensures Path(steps + [step])
  {
  }

  lemma {:induction false} ChangesArePath(stations: seq<string>)
    ensures var steps := Changes(stations);
            && Path(steps)
            && (steps != [] ==>
                  stations != [] && steps[0].0 == stations[0] && steps[|steps| - 1].1 == stations[|stations| - 1])
            && (steps == [] ==> forall i :: 0 <= i < |stations| ==> stations[i] == stations[0])
  {
    hide Path;
    if |stations| < 2 {
      NoSteps();
    } else {
      var n := |stations| - 1;
      var before, gs := stations[..n], stations[n];
      ChangesArePath(before);
      assert stations == before + [gs];
      ChangesOne(before, gs);
      hide Changes;
      assert Changes(before) + [] == Changes(before);
      assert forall i :: 0 <= i < n ==> stations[i] == before[i];
      if before[n - 1] != gs {
        PathOne(Changes(before), (before[n - 1], gs));
      }
    }
  }

  lemma NoSteps()
    ensures Path([])
  {
  }

  /**
   * Per satellite the history is a path from the first station registered to the active one; it is empty
   * exactly while the satellite never left its first station.
   */
  lemma HistoryIsPath(calls: seq<Call>, sat: string)
    ensures var s, stations := Run(calls), Stations(calls, sat);
            var steps := HistoryOf(s.history, sat);
            && Path(steps)
            && (steps != [] ==> stations != [] && sat in s.active
                                && steps[0].0 == stations[0] && steps[|steps| - 1].1 == s.active[sat].gs)
            && (steps == [] <==> forall i :: 0 <= i < |stations| ==> stations[i] == stations[0])
  {
    HistoryIsChanges(calls, sat);
    ChangesArePath(Stations(calls, sat));
    var stations := Stations(calls, sat);
    if forall i :: 0 <= i < |stations| ==> stations[i] == stations[0] {
      NoChanges(stations);
    }
  }

  lemma {:induction false} NoChanges(stations: seq<string>)
    requires forall i :: 0 <= i < |stations| ==> stations[i] == stations[0]
    ensures Changes(stations) == []
  {
    if |stations| >= 2 {
      NoChanges(stations[..|stations| - 1]);
    }
  }
}
