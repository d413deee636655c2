/** realtime_engine.py, run_against_real_nwdaf: polling an export that grows, with a high-water mark per subscriber. */
module Polling {
  import opened Wrappers
  import opened Reputation
  import opened Engine
  import opened EngineRun
  import opened Nwdaf

  /** One fetch: the rows the core answered with, or None where it could not be reached. */
  datatype Poll = Poll(supi: string, answer: Option<seq<Row>>)

  /** fed is what the engine was given; crashed is an exception that ended the run. */
  datatype Live = Live(seen: map<string, int>, fed: seq<Input>, crashed: bool)

  function SeenOf(l: Live, supi: string): int {
    if supi in l.seen then l.seen[supi] else -1
  }

  function Newer(events: seq<WindowEvent>, mark: int): seq<WindowEvent> {
    if events == [] then []
    else
      Newer(events[..|events| - 1], mark)
      + (if events[|events| - 1].window > mark then [events[|events| - 1]] else [])
  }

  function AsInputs(events: seq<WindowEvent>): (r: seq<Input>)
    ensures |r| == |events|
    ensures forall i :: 0 <= i < |r| ==> r[i] == Window(events[i], events[i].timestamp)
  {
    seq(|events|, i requires 0 <= i < |events| => Window(events[i], events[i].timestamp))
  }

  function MarkAfter(mark: int, events: seq<WindowEvent>): int {
    if events == [] then mark else events[|events| - 1].window
  }

  function PollOne(lib: Library, field: Option<string>, l: Live, p: Poll): Live {
    if l.crashed || p.answer.None? then l
    else
      var events := Fetch(lib, p.answer.value, field);
      if events.None? then l.(crashed := true)
      else
        var fresh_ := Newer(events.value, SeenOf(l, p.supi));
        Live(l.seen[p.supi := MarkAfter(SeenOf(l, p.supi), fresh_)], l.fed + AsInputs(fresh_), false)
  }

  function PollAll(lib: Library, field: Option<string>, l: Live, polls: seq<Poll>): Live {
    if polls == [] then l
    else PollOne(lib, field, PollAll(lib, field, l, polls[..|polls| - 1]), polls[|polls| - 1])
  }

  const START := Live(map[], [], false)

  // ── Every usable row once ────────────────────────────────────────────────

  /** The last answer the core gave about a subscriber; no rows before the first. */
  function LastExport(polls: seq<Poll>, supi: string): seq<Row> {
    if polls == [] then []
    else
      var p := polls[|polls| - 1];
      if p.supi == supi && p.answer.Some? then p.answer.value else LastExport(polls[..|polls| - 1], supi)
  }

  /** Each answer about a subscriber holds that subscriber's rows and extends the last one. */
  ghost predicate Consistent(lib: Library, field: Option<string>, polls: seq<Poll>) {
    forall k :: 0 <= k < |polls| && polls[k].answer.Some? ==>
      && Extends(LastExport(polls[..k], polls[k].supi), polls[k].answer.value)
      && Owned(Fetch(lib, polls[k].answer.value, field), polls[k].supi)
  }

  ghost predicate Owned(events: Option<seq<WindowEvent>>, supi: string) {
    events.Some? ==> forall i :: 0 <= i < |events.value| ==> events.value[i].supi == supi
  }

  lemma {:induction false} NewerOfGrowth(a: seq<WindowEvent>, b: seq<WindowEvent>, mark: int)
    requires forall i :: 0 <= i < |a| ==> a[i].window <= mark
    requires forall i :: 0 <= i < |b| ==> b[i].window > mark
    ensures Newer(a + b, mark) == b
  {
    if b == [] {
      assert a + b == a;
      NewerNone(a, mark);
    } else {
      var n := |b| - 1;
      assert (a + b)[..|a| + n] == a + b[..n];
      NewerOfGrowth(a, b[..n], mark);
    }
  }

  lemma {:induction false} NewerNone(a: seq<WindowEvent>, mark: int)
    requires forall i :: 0 <= i < |a| ==> a[i].window <= mark
    ensures Newer(a, mark) == []
  {
    if a != [] {
      NewerNone(a[..|a| - 1], mark);
    }
  }

  lemma InputsOfLast(inputs: seq<Input>, i: Input, who: string)
    ensures InputsOf(inputs + [i], who) == InputsOf(inputs, who) + (if i.Who() == who then [i] else [])
  {
    hide Input.Who;
    assert (inputs + [i])[..|inputs|] == inputs;
  }

  lemma {:induction false} InputsOfAppend(a: seq<Input>, b: seq<Input>, who: string)
    ensures InputsOf(a + b, who) == InputsOf(a, who) + InputsOf(b, who)
  {
    hide InputsOf, Input.Who;
    if b == [] {
      assert a + b == a;
      NoInputs(who);
    } else {
      var n := |b| - 1;
      assert b == b[..n] + [b[n]] && a + b == (a + b[..n]) + [b[n]];
      InputsOfAppend(a, b[..n], who);
      InputsOfLast(b[..n], b[n], who);
      InputsOfLast(a + b[..n], b[n], who);
    }
  }

  lemma NoInputs(who: string)
    ensures InputsOf([], who) == []
  {
  }

  lemma {:induction false} InputsOfOne(events: seq<WindowEvent>, supi: string, who: string)
    requires forall i :: 0 <= i < |events| ==> events[i].supi == supi
    ensures InputsOf(AsInputs(events), who) == if supi == who then AsInputs(events) else []
  {
    if events == [] {
      assert AsInputs(events) == [];
      NoInputs(who);
    } else {
      hide InputsOf, AsInputs;
      var n := |events| - 1;
      InputsOfOne(events[..n], supi, who);
      AsInputsLast(events);
      InputsOfLast(AsInputs(events[..n]), Window(events[n], events[n].timestamp), who);
    }
  }

  lemma AsInputsLast(events: seq<WindowEvent>)
    requires events != []
    ensures var n := |events| - 1;
            AsInputs(events) == AsInputs(events[..n]) + [Window(events[n], events[n].timestamp)]
  {
  }

  /** What is known of one subscriber between polls. */
  ghost predicate CaughtUp(lib: Library, field: Option<string>, l: Live, rows: seq<Row>, who: string) {
    var events := Fetch(lib, rows, field);
    && events.Some?
    && InputsOf(l.fed, who) == AsInputs(events.value)
    && SeenOf(l, who) == MarkAfter(-1, events.value)
  }

  lemma MarkIsHighest(events: seq<WindowEvent>, n: nat)
    requires Increasing(events, 0, n)
    ensures MarkAfter(-1, events) < n
    ensures forall i :: 0 <= i < |events| ==> events[i].window <= MarkAfter(-1, events)
  {
  }

  lemma MarkOfAppend(a: seq<WindowEvent>, b: seq<WindowEvent>)
    ensures MarkAfter(MarkAfter(-1, a), b) == MarkAfter(-1, a + b)
  {
    if b == [] {
      assert a + b == a;
    }
  }

  lemma NewerAfterMark(known: seq<WindowEvent>, more: seq<WindowEvent>, n: nat, m: int)
    requires Increasing(known, 0, n) && Increasing(more, n, m)
    ensures var mark := MarkAfter(-1, known);
            Newer(known + more, mark) == more && MarkAfter(mark, more) == MarkAfter(-1, known + more)
  {
    hide Newer, MarkAfter;
    MarkIsHighest(known, n);
    NewerOfGrowth(known, more, MarkAfter(-1, known));
    MarkOfAppend(known, more);
  }

  lemma PollCatchesUp(lib: Library, field: Option<string>, l: Live, was: seq<Row>, p: Poll)
    requires !l.crashed && CaughtUp(lib, field, l, was, p.supi)
    requires p.answer.Some? && Extends(was, p.answer.value) && Owned(Fetch(lib, p.answer.value, field), p.supi)
    requires !PollOne(lib, field, l, p).crashed
    ensures CaughtUp(lib, field, PollOne(lib, field, l, p), p.answer.value, p.supi)
  {
    hide Fetch, Extends, InputsOf, Newer, Increasing, AsInputs, MarkAfter;
    var rows := p.answer.value;
    var known, events := Fetch(lib, was, field).value, Fetch(lib, rows, field).value;
    var more := GrowthKeepsEvents(lib, was, rows, field);
    NewerAfterMark(known, more, |was|, |rows|);
    InputsOfAppend(l.fed, AsInputs(more), p.supi);
    assert forall i :: 0 <= i < |more| ==> more[i] == events[|known| + i];
    InputsOfOne(more, p.supi, p.supi);
    AsInputsAppend(known, more);
  }

  lemma AsInputsAppend(a: seq<WindowEvent>, b: seq<WindowEvent>)
    ensures AsInputs(a + b) == AsInputs(a) + AsInputs(b)
  {
  }

  lemma PollLeavesOthers(lib: Library, field: Option<string>, l: Live, p: Poll, who: string)
    requires p.supi != who || p.answer.None?
    requires p.answer.Some? ==> Owned(Fetch(lib, p.answer.value, field), p.supi)
    ensures var next := PollOne(lib, field, l, p);
            InputsOf(next.fed, who) == InputsOf(l.fed, who) && SeenOf(next, who) == SeenOf(l, who)
  {
    hide Fetch, InputsOf;
    if !l.crashed && p.answer.Some? && Fetch(lib, p.answer.value, field).Some? {
      var events := Fetch(lib, p.answer.value, field).value;
      var new_ := Newer(events, SeenOf(l, p.supi));
      InputsOfAppend(l.fed, AsInputs(new_), who);
      NewerMembers(events, SeenOf(l, p.supi), p.supi);
      InputsOfOne(new_, p.supi, who);
    }
  }

  lemma {:induction false} NewerMembers(events: seq<WindowEvent>, mark: int, supi: string)
    requires forall i :: 0 <= i < |events| ==> events[i].supi == supi
    ensures forall i :: 0 <= i < |Newer(events, mark)| ==> Newer(events, mark)[i].supi == supi
  {
    if events != [] {
      NewerMembers(events[..|events| - 1], mark, supi);
    }
  }

  /** Over any polls, some failing, the events fed for a subscriber are those of its last export, once and in order. */
  lemma {:induction false} EachRowOnce(lib: Library, field: Option<string>, polls: seq<Poll>, who: string)
    requires Consistent(lib, field, polls) && !PollAll(lib, field, START, polls).crashed
    ensures CaughtUp(lib, field, PollAll(lib, field, START, polls), LastExport(polls, who), who)
  {
    hide Extends, Owned, PollOne;
    if polls == [] {
      assert Fetch(lib, [], field) == Some([]);
      assert InputsOf([], who) == AsInputs([]);
    } else {
      var n := |polls| - 1;
      var before, p := polls[..n], polls[n];
      assert forall k :: 0 <= k < n ==> before[..k] == polls[..k] && before[k] == polls[k];
      var l := PollAll(lib, field, START, before);
      CrashStays(lib, field, l, p);
      EachRowOnce(lib, field, before, who);
      if p.supi == who && p.answer.Some? {
        PollCatchesUp(lib, field, l, LastExport(before, who), p);
      } else {
        PollLeavesOthers(lib, field, l, p, who);
      }
    }
  }

  lemma CrashStays(lib: Library, field: Option<string>, l: Live, p: Poll)
    ensures l.crashed ==> PollOne(lib, field, l, p) == l
  {
  }

  /** A fetch that raises ends the run for every subscriber: exactly when some answer cannot be fetched. */
  lemma {:induction false} RunEndsExactlyWhen(lib: Library, field: Option<string>, polls: seq<Poll>)
    ensures PollAll(lib, field, START, polls).crashed <==>
            exists k :: 0 <= k < |polls| && polls[k].answer.Some? && Fetch(lib, polls[k].answer.value, field).None?
  {
    hide Fetch;
    if polls != [] {
      var n := |polls| - 1;
      RunEndsExactlyWhen(lib, field, polls[..n]);
      assert forall k :: 0 <= k < n ==> polls[..n][k] == polls[k];
      if PollAll(lib, field, START, polls[..n]).crashed {
        var k :| 0 <= k < n && polls[..n][k].answer.Some? && Fetch(lib, polls[..n][k].answer.value, field).None?;
        assert polls[k] == polls[..n][k];
      }
    }
  }

  /** So the engine holds about a subscriber what one pass over its last export would have left. */
  lemma PollingIsOneBatch(cfg: Config, lib: Library, field: Option<string>, polls: seq<Poll>, who: string,
                          s: EngineState)
    requires Consistent(lib, field, polls) && !PollAll(lib, field, START, polls).crashed
    ensures var events := Fetch(lib, LastExport(polls, who), field);
            && events.Some?
            && PartOf(RunAll(cfg, s, PollAll(lib, field, START, polls).fed).0, who)
               == PartOf(RunAll(cfg, s, AsInputs(events.value)).0, who)
  {
    EachRowOnce(lib, field, polls, who);
    NonInterference(cfg, s, s, PollAll(lib, field, START, polls).fed, who);
  }

  lemma {:induction false} NewerAbove(events: seq<WindowEvent>, mark: int)
    ensures var newer := Newer(events, mark);
            newer != [] ==> newer[|newer| - 1].window > mark
  {
    if events != [] {
      NewerAbove(events[..|events| - 1], mark);
    }
  }

  lemma MarkReaches(events: seq<WindowEvent>, mark: int, n: int)
    requires events != [] && events[|events| - 1].window == n
    ensures MarkAfter(mark, Newer(events, mark)) >= n
  {
    NewerAbove(events, mark);
  }

  lemma LastIndex(lib: Library, rows: seq<Row>, field: Option<string>)
    requires rows != [] && EventsOf(lib, rows, field).Some?
    requires RowToEvent(lib, rows[|rows| - 1], |rows| - 1, field).Usable?
    ensures var events := EventsOf(lib, rows, field).value;
            events != [] && events[|events| - 1].window == |rows| - 1
  {
    IndexIsCopied(lib, rows[|rows| - 1], |rows| - 1, |rows| - 1, field);
  }

  /** An answer whose last row is usable puts the mark there. */
  lemma AnswerSetsMark(lib: Library, field: Option<string>, l: Live, p: Poll)
    requires !l.crashed && p.answer.Some? && p.answer.value != [] && Fetch(lib, p.answer.value, field).Some?
    requires var sorted := StableSort(p.answer.value);
             sorted != [] && RowToEvent(lib, sorted[|sorted| - 1], |sorted| - 1, field).Usable?
    ensures SeenOf(PollOne(lib, field, l, p), p.supi) >= |p.answer.value| - 1
  {
    hide EventsOf, RowToEvent, Newer, MarkAfter, StableSort;
    var sorted := StableSort(p.answer.value);
    StableSortMeaning(p.answer.value, Num(0.0));
    LastIndex(lib, sorted, field);
    MarkReaches(Fetch(lib, p.answer.value, field).value, SeenOf(l, p.supi), |sorted| - 1);
  }
}
