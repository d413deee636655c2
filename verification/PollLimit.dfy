/** The limit of an export: the core answers with its newest rows only, and the poller numbers them from zero. */
module PollLimit {
  import opened Wrappers
  import opened Reputation
  import opened EngineRun
  import opened Nwdaf
  import opened Polling

  // ── At most limit windows per subscriber, ever ───────────────────────────

  lemma {:induction false} NewerCount(events: seq<WindowEvent>, mark: int, hi: int)
    requires Increasing(events, 0, hi) && mark >= -1
    ensures var newer := Newer(events, mark);
            && |newer| <= MarkAfter(mark, newer) - mark
            && MarkAfter(mark, newer) <= (if mark < hi then hi - 1 else mark)
  {
    if events != [] {
      var n := |events| - 1;
      NewerCount(events[..n], mark, events[n].window);
    }
  }

  /** Answers of at most limit rows, each about the subscriber asked for. */
  ghost predicate Limited(lib: Library, field: Option<string>, polls: seq<Poll>, limit: nat) {
    forall k :: 0 <= k < |polls| && polls[k].answer.Some? ==>
      |polls[k].answer.value| <= limit && Owned(Fetch(lib, polls[k].answer.value, field), polls[k].supi)
  }

  lemma PollCount(lib: Library, field: Option<string>, l: Live, p: Poll, limit: nat)
    requires p.answer.Some? && |p.answer.value| <= limit && Owned(Fetch(lib, p.answer.value, field), p.supi)
    requires |InputsOf(l.fed, p.supi)| <= SeenOf(l, p.supi) + 1 <= limit
    ensures var next := PollOne(lib, field, l, p);
            |InputsOf(next.fed, p.supi)| <= SeenOf(next, p.supi) + 1 <= limit
  {
    hide Sortable, EventsOf, InputsOf, Newer, Increasing, MarkAfter;
    var events := Fetch(lib, p.answer.value, field);
    if !l.crashed && events.Some? {
      var mark := SeenOf(l, p.supi);
      var newer := Newer(events.value, mark);
      EventsIncrease(lib, StableSort(p.answer.value), field);
      StableSortMeaning(p.answer.value, Num(0.0));
      NewerCount(events.value, mark, |p.answer.value|);
      NewerMembers(events.value, mark, p.supi);
      InputsOfAppend(l.fed, AsInputs(newer), p.supi);
      InputsOfOne(newer, p.supi, p.supi);
    }
  }

  /** However many rows the core collects, however often it is asked. */
  lemma {:induction false} FedAtMostLimit(lib: Library, field: Option<string>, polls: seq<Poll>, who: string,
                                          limit: nat)
    requires Limited(lib, field, polls, limit)
    ensures var l := PollAll(lib, field, START, polls);
            |InputsOf(l.fed, who)| <= SeenOf(l, who) + 1 <= limit
  {
    hide Owned, PollOne, InputsOf, Fetch;
    if polls == [] {
      NothingFed(who);
    } else {
      var n := |polls| - 1;
      FedAtMostLimit(lib, field, polls[..n], who, limit);
      var l := PollAll(lib, field, START, polls[..n]);
      if polls[n].supi == who && polls[n].answer.Some? {
        PollCount(lib, field, l, polls[n], limit);
      } else {
        PollLeavesOthers(lib, field, l, polls[n], who);
      }
    }
  }

  lemma NothingFed(who: string)
    ensures InputsOf(START.fed, who) == [] && SeenOf(START, who) == -1
  {
  }

  // ── Answers of good rows ─────────────────────────────────────────────────

  /** A usable row about the subscriber. */
  predicate Good(lib: Library, field: Option<string>, supi: string, row: Row) {
    var o := RowToEvent(lib, row, 0, field);
    o.Usable? && o.event.supi == supi
  }

  ghost predicate GoodAnswer(lib: Library, field: Option<string>, p: Poll)
    requires p.answer.Some?
  {
    Sortable(p.answer.value) && forall r :: r in p.answer.value ==> Good(lib, field, p.supi, r)
  }

  ghost predicate GoodAnswers(lib: Library, field: Option<string>, polls: seq<Poll>) {
    forall k :: 0 <= k < |polls| && polls[k].answer.Some? ==> GoodAnswer(lib, field, polls[k])
  }

  /** The length of the longest answer about a subscriber. */
  function Longest(polls: seq<Poll>, who: string): nat {
    if polls == [] then 0
    else
      var n, before := |polls| - 1, Longest(polls[..|polls| - 1], who);
      if polls[n].supi == who && polls[n].answer.Some? && |polls[n].answer.value| > before then |polls[n].answer.value|
      else before
  }

  /** The events of good rows: one each, numbered by place. */
  ghost predicate Numbered(events: seq<WindowEvent>, supi: string) {
    forall i :: 0 <= i < |events| ==> events[i].window == i && events[i].supi == supi
  }

  lemma {:induction false} GoodEvents(lib: Library, rows: seq<Row>, field: Option<string>, supi: string)
    requires forall r :: r in rows ==> Good(lib, field, supi, r)
    ensures var events := EventsOf(lib, rows, field);
            events.Some? && |events.value| == |rows| && Numbered(events.value, supi)
  {
    hide RowToEvent;
    if rows != [] {
      var n := |rows| - 1;
      assert forall r :: r in rows[..n] ==> r in rows;
      GoodEvents(lib, rows[..n], field, supi);
      assert Good(lib, field, supi, rows[n]);
      IndexIsCopied(lib, rows[n], n, 0, field);
    }
  }

  lemma {:induction false} NewerSuffix(events: seq<WindowEvent>, supi: string, n: nat)
    requires Numbered(events, supi) && n <= |events|
    ensures Newer(events, n - 1) == events[n..]
  {
    if n == |events| {
      NewerNone(events, n - 1);
    } else {
      var m := |events| - 1;
      NewerSuffix(events[..m], supi, n);
      assert events[n..] == events[..m][n..] + [events[m]];
    }
  }

  lemma GoodFetched(lib: Library, field: Option<string>, p: Poll)
    requires p.answer.Some? && GoodAnswer(lib, field, p)
    ensures var events := Fetch(lib, p.answer.value, field);
            events.Some? && |events.value| == |p.answer.value| && Numbered(events.value, p.supi)
            && events == EventsOf(lib, StableSort(p.answer.value), field)
  {
    hide StableSort, EventsOf, Good, Numbered;
    var rows := p.answer.value;
    forall r | r in StableSort(rows)
      ensures Good(lib, field, p.supi, r)
    {
      SortMembers(rows, r);
    }
    StableSortMeaning(rows, Num(0.0));
    GoodEvents(lib, StableSort(rows), field, p.supi);
  }

  /** What an answer adds: its windows from the mark on, if it reaches that far. */
  lemma PollTakesSuffix(lib: Library, field: Option<string>, l: Live, p: Poll, events: seq<WindowEvent>, n: nat)
    requires !l.crashed && p.answer.Some? && Fetch(lib, p.answer.value, field) == Some(events)
    requires Numbered(events, p.supi) && SeenOf(l, p.supi) == n - 1
    ensures var next, more := PollOne(lib, field, l, p), if n <= |events| then events[n..] else [];
            && !next.crashed && SeenOf(next, p.supi) == (if n <= |events| then |events| else n) - 1
            && InputsOf(next.fed, p.supi) == InputsOf(l.fed, p.supi) + AsInputs(more)
            && |AsInputs(more)| == |more|
  {
    hide Fetch, InputsOf, AsInputs, Newer;
    var more := if n <= |events| then events[n..] else [];
    if n <= |events| {
      NewerSuffix(events, p.supi, n);
    } else {
      NewerNone(events, n - 1);
    }
    InputsOfAppend(l.fed, AsInputs(more), p.supi);
    InputsOfOne(more, p.supi, p.supi);
    assert n < |events| ==> more[|more| - 1].window == |events| - 1;
  }

  /**
   * Whatever the core keeps, prunes or cuts off: as long as its answers hold good rows, a subscriber has
   * been fed as many windows as its longest answer had rows, and the mark stands there.
   */
  lemma {:induction false} FedIsLongest(lib: Library, field: Option<string>, polls: seq<Poll>, who: string)
    requires GoodAnswers(lib, field, polls)
    ensures var l := PollAll(lib, field, START, polls);
            !l.crashed && |InputsOf(l.fed, who)| == Longest(polls, who) == SeenOf(l, who) + 1
  {
    hide PollOne, InputsOf, Fetch, GoodAnswer, Numbered, EventsOf, StableSort, Owned;
    if polls == [] {
      NothingFed(who);
    } else {
      var n := |polls| - 1;
      FedIsLongest(lib, field, polls[..n], who);
      FedOne(lib, field, PollAll(lib, field, START, polls[..n]), polls[n], who, Longest(polls[..n], who),
             Longest(polls[..n], polls[n].supi)) by {
        FedIsLongest(lib, field, polls[..n], polls[n].supi);
      }
    }
  }

  lemma FedOne(lib: Library, field: Option<string>, l: Live, p: Poll, who: string, n: nat, mine: nat)
    requires !l.crashed && |InputsOf(l.fed, who)| == n == SeenOf(l, who) + 1
    requires |InputsOf(l.fed, p.supi)| == mine == SeenOf(l, p.supi) + 1
    requires p.answer.Some? ==> GoodAnswer(lib, field, p)
    ensures var next := PollOne(lib, field, l, p);
            var m := if p.supi == who && p.answer.Some? && |p.answer.value| > n then |p.answer.value| else n;
            !next.crashed && |InputsOf(next.fed, who)| == m == SeenOf(next, who) + 1
  {
    hide InputsOf, Fetch, GoodAnswer, Numbered, EventsOf, StableSort, PollOne;
    if p.answer.None? {
      NoAnswer(lib, field, l, p);
    } else {
      GoodFetched(lib, field, p);
      PollTakesSuffix(lib, field, l, p, Fetch(lib, p.answer.value, field).value, mine);
      if p.supi != who {
        NumberedOwned(Fetch(lib, p.answer.value, field).value, p.supi);
        PollLeavesOthers(lib, field, l, p, who);
      }
    }
  }

  lemma NumberedOwned(events: seq<WindowEvent>, supi: string)
    requires Numbered(events, supi)
    ensures Owned(Some(events), supi)
  {
  }

  lemma NoAnswer(lib: Library, field: Option<string>, l: Live, p: Poll)
    requires p.answer.None?
    ensures PollOne(lib, field, l, p) == l
  {
  }

  // ── A growing log, cut from the front ────────────────────────────────────

  /** The log at the last successful poll about a subscriber. */
  function LastLog(polls: seq<Poll>, logs: seq<seq<Row>>, supi: string): seq<Row>
    requires |polls| == |logs|
  {
    if polls == [] then []
    else
      var n := |polls| - 1;
      if polls[n].supi == supi && polls[n].answer.Some? then logs[n] else LastLog(polls[..n], logs[..n], supi)
  }

  /** How many of its oldest rows were cut off then. */
  function LastCut(polls: seq<Poll>, cuts: seq<nat>, supi: string): nat
    requires |polls| == |cuts|
  {
    if polls == [] then 0
    else
      var n := |polls| - 1;
      if polls[n].supi == supi && polls[n].answer.Some? then cuts[n] else LastCut(polls[..n], cuts[..n], supi)
  }

  function Drop(rows: seq<Row>, cut: nat): seq<Row> {
    if cut <= |rows| then rows[cut..] else []
  }

  /** The answer is the log without its cut oldest rows, listed in whatever order. */
  ghost predicate CutOnce(lib: Library, field: Option<string>, p: Poll, log: seq<Row>, cut: nat)
    requires p.answer.Some?
  {
    && cut <= |log| && StableSort(p.answer.value) == Drop(StableSort(log), cut)
    && Sortable(log) && forall r :: r in log ==> Good(lib, field, p.supi, r)
  }

  /**
   * logs[k] is all the core ever collected about the subscriber of poll k: usable rows, grown by later ones
   * since its last poll. The answer lacks the cuts[k] oldest, pruned by age or over the limit, and what was
   * cut off once stays cut off.
   */
  ghost predicate Cut(lib: Library, field: Option<string>, polls: seq<Poll>, logs: seq<seq<Row>>, cuts: seq<nat>) {
    && |polls| == |logs| == |cuts|
    && forall k :: 0 <= k < |polls| && polls[k].answer.Some? ==>
         && CutOnce(lib, field, polls[k], logs[k], cuts[k])
         && Grows(LastLog(polls[..k], logs[..k], polls[k].supi), logs[k])
         && LastCut(polls[..k], cuts[..k], polls[k].supi) <= cuts[k]
  }

  lemma CutBefore(lib: Library, field: Option<string>, polls: seq<Poll>, logs: seq<seq<Row>>, cuts: seq<nat>, n: nat)
    requires Cut(lib, field, polls, logs, cuts) && n <= |polls|
    ensures Cut(lib, field, polls[..n], logs[..n], cuts[..n])
  {
    hide CutOnce, Grows, LastLog, LastCut;
    assert forall k :: 0 <= k < n ==>
      polls[..n][..k] == polls[..k] && logs[..n][..k] == logs[..k] && cuts[..n][..k] == cuts[..k];
  }

  lemma CutIsGood(lib: Library, field: Option<string>, p: Poll, log: seq<Row>, cut: nat)
    requires p.answer.Some? && CutOnce(lib, field, p, log, cut)
    ensures GoodAnswer(lib, field, p) && |p.answer.value| == |log| - cut
  {
    hide StableSort, Good;
    var rows := p.answer.value;
    forall r | r in rows
      ensures r in log
    {
      SortMembers(rows, r);
      SortMembers(log, r);
    }
    StableSortMeaning(log, Num(0.0));
    StableSortMeaning(rows, Num(0.0));
    assert forall i :: 0 <= i < |rows| ==> rows[i] in rows && rows[i] in log;
  }

  lemma CutsAreGood(lib: Library, field: Option<string>, polls: seq<Poll>, logs: seq<seq<Row>>, cuts: seq<nat>)
    requires Cut(lib, field, polls, logs, cuts)
    ensures GoodAnswers(lib, field, polls)
  {
    hide CutOnce, GoodAnswer, Grows;
    forall k | 0 <= k < |polls| && polls[k].answer.Some?
      ensures GoodAnswer(lib, field, polls[k])
    {
      CutIsGood(lib, field, polls[k], logs[k], cuts[k]);
    }
  }

  /** The subscriber has been fed the whole of its log. */
  ghost predicate Whole(lib: Library, field: Option<string>, l: Live, log: seq<Row>, who: string) {
    var events := EventsOf(lib, StableSort(log), field);
    events.Some? && InputsOf(l.fed, who) == AsInputs(events.value)
  }

  /** The events of a beginning of the rows are a beginning of the events, where every row has one. */
  lemma PrefixEvents(lib: Library, field: Option<string>, a: seq<Row>, rows: seq<Row>, events: seq<WindowEvent>)
    requires a <= rows && EventsOf(lib, rows, field) == Some(events) && |events| == |rows|
    ensures EventsOf(lib, a, field) == Some(events[..|a|])
  {
    hide EventsOf;
    assert rows == a + rows[|a|..];
    var more := EventsAppend(lib, a, rows[|a|..], field);
    EventsNotMore(lib, a, field);
    EventsIncrease(lib, rows[..|rows|], field) by { assert rows[..|rows|] == rows; }
    MoreNotMore(more, |a|, |rows|);
  }

  lemma {:induction false} EventsNotMore(lib: Library, rows: seq<Row>, field: Option<string>)
    requires EventsOf(lib, rows, field).Some?
    ensures |EventsOf(lib, rows, field).value| <= |rows|
  {
    hide RowToEvent;
    if rows != [] {
      EventsNotMore(lib, rows[..|rows| - 1], field);
    }
  }

  lemma {:induction false} MoreNotMore(more: seq<WindowEvent>, lo: int, hi: int)
    requires Increasing(more, lo, hi) && lo <= hi
    ensures |more| <= hi - lo
  {
    if more != [] {
      var n := |more| - 1;
      MoreNotMore(more[..n], lo, more[n].window);
    }
  }

  /** An answer that is the whole log completes what was whole before. */
  lemma WholeGrows(lib: Library, field: Option<string>, l: Live, was: seq<Row>, p: Poll, log: seq<Row>)
    requires !l.crashed && p.answer.Some? && CutOnce(lib, field, p, log, 0) && Extends(was, log)
    requires Whole(lib, field, l, was, p.supi) && SeenOf(l, p.supi) == |was| - 1
    ensures Whole(lib, field, PollOne(lib, field, l, p), log, p.supi)
  {
    hide Fetch, InputsOf, AsInputs, PollOne, StableSort, EventsOf, Numbered, GoodAnswer, Good;
    CutIsGood(lib, field, p, log, 0);
    GoodFetched(lib, field, p);
    StableSortMeaning(was, Num(0.0));
    StableSortMeaning(log, Num(0.0));
    assert Drop(StableSort(log), 0) == StableSort(log);
    hide Drop, Sorted, CutOnce;
    var events := EventsOf(lib, StableSort(log), field).value;
    PollTakesSuffix(lib, field, l, p, events, |was|);
    PrefixEvents(lib, field, StableSort(was), StableSort(log), events);
    AsInputsAppend(events[..|was|], events[|was|..]);
    assert events[..|was|] + events[|was|..] == events;
  }

  /** An answer no longer than what is known adds nothing. */
  lemma NothingAdded(lib: Library, field: Option<string>, l: Live, p: Poll)
    requires p.answer.Some? && GoodAnswer(lib, field, p) && !l.crashed && |p.answer.value| <= SeenOf(l, p.supi) + 1
    ensures InputsOf(PollOne(lib, field, l, p).fed, p.supi) == InputsOf(l.fed, p.supi)
  {
    hide Fetch, InputsOf, PollOne, StableSort, EventsOf, Numbered, GoodAnswer;
    GoodFetched(lib, field, p);
    PollTakesSuffix(lib, field, l, p, Fetch(lib, p.answer.value, field).value, SeenOf(l, p.supi) + 1);
    assert InputsOf(l.fed, p.supi) + [] == InputsOf(l.fed, p.supi);
  }

  /** What the answers so far leave of a log: n is the longest of them. */
  ghost predicate Standing(lib: Library, field: Option<string>, l: Live, log: seq<Row>, cut: nat, n: nat, who: string) {
    && !l.crashed && SeenOf(l, who) == n - 1
    && cut <= |log| && |log| - cut <= n <= |log|
    && (n == |log| ==> Whole(lib, field, l, log, who))
  }

  lemma StandingStep(lib: Library, field: Option<string>, l: Live, was: seq<Row>, cut: nat, n: nat, p: Poll,
                     log: seq<Row>, cut': nat)
    requires p.answer.Some? && CutOnce(lib, field, p, log, cut') && Extends(was, log) && cut <= cut'
    requires Standing(lib, field, l, was, cut, n, p.supi)
    ensures var m := if |p.answer.value| > n then |p.answer.value| else n;
            m == |log| ==> Whole(lib, field, PollOne(lib, field, l, p), log, p.supi)
    ensures |p.answer.value| == |log| - cut' && n <= |log|
  {
    hide Whole, InputsOf, PollOne, StableSort, CutOnce, GoodAnswer;
    CutIsGood(lib, field, p, log, cut');
    StableSortMeaning(was, Num(0.0));
    StableSortMeaning(log, Num(0.0));
    if |p.answer.value| == |log| {
      WholeGrows(lib, field, l, was, p, log);
    } else if n == |log| {
      NothingAdded(lib, field, l, p);
      SameWhole(lib, field, l, PollOne(lib, field, l, p), was, log, p.supi);
    }
  }

  lemma SameWhole(lib: Library, field: Option<string>, l: Live, next: Live, was: seq<Row>, log: seq<Row>, who: string)
    requires Whole(lib, field, l, was, who) && StableSort(was) == StableSort(log)
    requires InputsOf(next.fed, who) == InputsOf(l.fed, who)
    ensures Whole(lib, field, next, log, who)
  {
  }

  lemma {:induction false} CutStands(lib: Library, field: Option<string>, polls: seq<Poll>, logs: seq<seq<Row>>,
                                     cuts: seq<nat>, who: string)
    requires Cut(lib, field, polls, logs, cuts)
    ensures Standing(lib, field, PollAll(lib, field, START, polls), LastLog(polls, logs, who),
                     LastCut(polls, cuts, who), Longest(polls, who), who)
  {
    hide CutOnce, Grows, PollOne, Whole, GoodAnswers, InputsOf;
    CutsAreGood(lib, field, polls, logs, cuts);
    FedIsLongest(lib, field, polls, who);
    if polls == [] {
      NothingStands(lib, field, who);
    } else {
      var n := |polls| - 1;
      var before, was, cut := polls[..n], logs[..n], cuts[..n];
      CutBefore(lib, field, polls, logs, cuts, n);
      CutStands(lib, field, before, was, cut, who);
      var l := PollAll(lib, field, START, before);
      if polls[n].answer.Some? && polls[n].supi == who {
        GrowthExtends(LastLog(before, was, who), logs[n]);
        StandingStep(lib, field, l, LastLog(before, was, who), LastCut(before, cut, who), Longest(before, who),
                     polls[n], logs[n], cuts[n]);
      } else {
        OtherStands(lib, field, l, polls, LastLog(before, was, who), who);
      }
    }
  }

  lemma OtherStands(lib: Library, field: Option<string>, l: Live, polls: seq<Poll>, log: seq<Row>, who: string)
    requires polls != [] && GoodAnswers(lib, field, polls)
    requires polls[|polls| - 1].supi != who || polls[|polls| - 1].answer.None?
    ensures Whole(lib, field, l, log, who) ==> Whole(lib, field, PollOne(lib, field, l, polls[|polls| - 1]), log, who)
  {
    hide PollOne, Fetch, EventsOf, StableSort, InputsOf, GoodAnswer, Numbered, Owned;
    var p := polls[|polls| - 1];
    if p.answer.Some? {
      GoodFetched(lib, field, p);
      NumberedOwned(Fetch(lib, p.answer.value, field).value, p.supi);
    }
    PollLeavesOthers(lib, field, l, p, who);
  }

  lemma NothingStands(lib: Library, field: Option<string>, who: string)
    ensures Whole(lib, field, START, [], who)
  {
    NothingFed(who);
  }

  /** Some answer about the subscriber had n rows; none is needed for none. */
  ghost predicate Held(polls: seq<Poll>, who: string, n: nat) {
    n == 0 ||
    exists k :: 0 <= k < |polls| && polls[k].supi == who && polls[k].answer.Some? && |polls[k].answer.value| == n
  }

  lemma {:induction false} LongestMeaning(polls: seq<Poll>, who: string)
    ensures Held(polls, who, Longest(polls, who))
    ensures forall k :: 0 <= k < |polls| && polls[k].supi == who && polls[k].answer.Some? ==>
              |polls[k].answer.value| <= Longest(polls, who)
  {
    if polls != [] {
      var n := |polls| - 1;
      LongestMeaning(polls[..n], who);
      assert forall k :: 0 <= k < n ==> polls[..n][k] == polls[k];
    }
  }

  /**
   * The engine is fed the windows of the whole log, once each and in order, exactly when some answer held
   * the whole last log; always as many windows as the longest answer had rows, and the others are lost.
   */
  lemma WholeLogExactlyWhen(lib: Library, field: Option<string>, polls: seq<Poll>, logs: seq<seq<Row>>, cuts: seq<nat>,
                            who: string)
    requires Cut(lib, field, polls, logs, cuts)
    ensures var l, log := PollAll(lib, field, START, polls), LastLog(polls, logs, who);
            && !l.crashed
            && (Whole(lib, field, l, log, who) <==> Held(polls, who, |log|))
            && |InputsOf(l.fed, who)| == Longest(polls, who) <= |log|
  {
    hide InputsOf, PollAll, Whole, GoodAnswers;
    var l, log := PollAll(lib, field, START, polls), LastLog(polls, logs, who);
    CutStands(lib, field, polls, logs, cuts, who);
    CutsAreGood(lib, field, polls, logs, cuts);
    FedIsLongest(lib, field, polls, who);
    LongestMeaning(polls, who);
    LastLogGood(lib, field, polls, logs, cuts, who);
    WholeLength(lib, field, l, log, who);
  }

  lemma WholeLength(lib: Library, field: Option<string>, l: Live, log: seq<Row>, who: string)
    requires Whole(lib, field, l, log, who) ==> forall r :: r in log ==> Good(lib, field, who, r)
    ensures Whole(lib, field, l, log, who) ==> |InputsOf(l.fed, who)| == |log|
  {
    hide EventsOf, StableSort, InputsOf, Good, Numbered;
    if Whole(lib, field, l, log, who) {
      forall r | r in StableSort(log)
        ensures Good(lib, field, who, r)
      {
        SortMembers(log, r);
      }
      GoodEvents(lib, StableSort(log), field, who);
      StableSortMeaning(log, Num(0.0));
    }
  }

  lemma {:induction false} LastLogGood(lib: Library, field: Option<string>, polls: seq<Poll>, logs: seq<seq<Row>>,
                                       cuts: seq<nat>, who: string)
    requires Cut(lib, field, polls, logs, cuts)
    ensures forall r :: r in LastLog(polls, logs, who) ==> Good(lib, field, who, r)
  {
    hide Good, Grows, Sortable, StableSort;
    if polls != [] {
      var n := |polls| - 1;
      CutBefore(lib, field, polls, logs, cuts, n);
      if !(polls[n].supi == who && polls[n].answer.Some?) {
        LastLogGood(lib, field, polls[..n], logs[..n], cuts[..n], who);
      }
    }
  }

  // ── The limit ────────────────────────────────────────────────────────────

  function Over(n: nat, limit: nat): nat {
    if n <= limit then 0 else n - limit
  }

  /** ORDER BY collected_at DESC LIMIT: each answer is the newest rows of the log, none pruned. */
  ghost predicate Served(lib: Library, field: Option<string>, polls: seq<Poll>, logs: seq<seq<Row>>, limit: nat) {
    && |polls| == |logs|
    && forall k :: 0 <= k < |polls| && polls[k].answer.Some? ==>
         && CutOnce(lib, field, polls[k], logs[k], Over(|logs[k]|, limit))
         && Grows(LastLog(polls[..k], logs[..k], polls[k].supi), logs[k])
  }

  function Overs(logs: seq<seq<Row>>, limit: nat): seq<nat> {
    seq(|logs|, i requires 0 <= i < |logs| => Over(|logs[i]|, limit))
  }

  lemma ServedBefore(lib: Library, field: Option<string>, polls: seq<Poll>, logs: seq<seq<Row>>, limit: nat, n: nat)
    requires Served(lib, field, polls, logs, limit) && n <= |polls|
    ensures Served(lib, field, polls[..n], logs[..n], limit) && Overs(logs, limit)[..n] == Overs(logs[..n], limit)
  {
    hide CutOnce, Grows, LastLog;
    assert forall k :: 0 <= k < n ==> polls[..n][..k] == polls[..k] && logs[..n][..k] == logs[..k];
  }

  /** A longer log, longer answers: the last is the longest, and what is over the limit stays over it. */
  lemma {:induction false} ServedLasts(lib: Library, field: Option<string>, polls: seq<Poll>, logs: seq<seq<Row>>,
                                       who: string, limit: nat)
    requires Served(lib, field, polls, logs, limit)
    ensures var log := LastLog(polls, logs, who);
            && Longest(polls, who) == |log| - Over(|log|, limit)
            && LastCut(polls, Overs(logs, limit), who) == Over(|log|, limit)
  {
    hide CutOnce, Grows;
    if polls != [] {
      var n := |polls| - 1;
      ServedBefore(lib, field, polls, logs, limit, n);
      ServedLasts(lib, field, polls[..n], logs[..n], who, limit);
      if polls[n].supi == who && polls[n].answer.Some? {
        LogGrew(lib, field, polls[n], LastLog(polls[..n], logs[..n], who), logs[n], limit);
      }
    }
  }

  lemma LogGrew(lib: Library, field: Option<string>, p: Poll, was: seq<Row>, log: seq<Row>, limit: nat)
    requires p.answer.Some? && CutOnce(lib, field, p, log, Over(|log|, limit)) && Grows(was, log)
    ensures |was| <= |log| && |p.answer.value| == |log| - Over(|log|, limit)
  {
    hide CutOnce, Grows, StableSort;
    CutIsGood(lib, field, p, log, Over(|log|, limit));
    GrowthExtends(was, log);
    StableSortMeaning(was, Num(0.0));
    StableSortMeaning(log, Num(0.0));
  }

  lemma ServedIsCut(lib: Library, field: Option<string>, polls: seq<Poll>, logs: seq<seq<Row>>, limit: nat)
    requires Served(lib, field, polls, logs, limit)
    ensures Cut(lib, field, polls, logs, Overs(logs, limit))
  {
    hide CutOnce, Grows;
    var cuts := Overs(logs, limit);
    forall k | 0 <= k < |polls| && polls[k].answer.Some?
      ensures LastCut(polls[..k], cuts[..k], polls[k].supi) <= cuts[k]
    {
      ServedBefore(lib, field, polls, logs, limit, k);
      ServedLasts(lib, field, polls[..k], logs[..k], polls[k].supi, limit);
      LogGrew(lib, field, polls[k], LastLog(polls[..k], logs[..k], polls[k].supi), logs[k], limit);
    }
  }

  /** With nothing pruned: all of the log exactly when it is within the limit, and else limit windows. */
  lemma WithinLimitExactlyWhen(lib: Library, field: Option<string>, polls: seq<Poll>, logs: seq<seq<Row>>, who: string,
                               limit: nat)
    requires Served(lib, field, polls, logs, limit)
    ensures var l, log := PollAll(lib, field, START, polls), LastLog(polls, logs, who);
            && !l.crashed
            && (Whole(lib, field, l, log, who) <==> |log| <= limit)
            && |InputsOf(l.fed, who)| == if |log| <= limit then |log| else limit
  {
    hide InputsOf, PollAll, Whole, Served, Cut;
    ServedIsCut(lib, field, polls, logs, limit);
    WholeLogExactlyWhen(lib, field, polls, logs, Overs(logs, limit), who);
    ServedLasts(lib, field, polls, logs, who, limit);
    LongestMeaning(polls, who);
  }

  // ── Runs that lose a row ─────────────────────────────────────────────────

  lemma PlaceLast(q: seq<Row>, x: Row)
    requires Sorted(q + [x])
    ensures Place(q, x) == q + [x]
  {
    assert q != [] ==> (q + [x])[|q| - 1] == q[|q| - 1] && (q + [x])[|q|] == x;
  }

  lemma {:induction false} SortedStays(q: seq<Row>)
    requires Sorted(q)
    ensures StableSort(q) == q
  {
    if q != [] {
      var n := |q| - 1;
      SortedStays(q[..n]);
      assert q == q[..n] + [q[n]];
      PlaceLast(q[..n], q[n]);
    }
  }

  /** Whatever is cut off, some answer is the rest. */
  lemma RestIsAnswer(lib: Library, field: Option<string>, supi: string, log: seq<Row>, cut: nat)
    requires cut <= |log| && Sortable(log) && forall r :: r in log ==> Good(lib, field, supi, r)
    ensures CutOnce(lib, field, Poll(supi, Some(Drop(StableSort(log), cut))), log, cut)
  {
    hide Good;
    StableSortMeaning(log, Num(0.0));
    SortedStays(Drop(StableSort(log), cut));
  }

  /** A row with ten attempts, none failed. */
  function Quiet(at: real): Row {
    Row(Text("u"), PostedPayload(10, 0, None, map[], None), Num(at))
  }

  lemma QuietIsGood(lib: Library, at: real)
    requires lib.str(Text("u")) == "u"
    ensures Good(lib, None, "u", Quiet(at))
    ensures RowToEvent(lib, Quiet(at), 0, None) == Usable(WindowEvent("u", None, 0, 10, 0, at))
  {
    assert "pm_counters" in PostedPayload(10, 0, None, map[], None).fields.Keys;
    PostedReadsBack(lib, Quiet(at), 0, "u", 10, 0, at, None, map[], None);
  }

  const FIRST_LOG: seq<Row> := [Quiet(1.0)]
  const SECOND_LOG: seq<Row> := [Quiet(1.0), Quiet(2.0), Quiet(3.0)]

  lemma UpToOne(rows: seq<Row>, r: Row, top: Key)
    ensures UpTo(rows + [r], top) == UpTo(rows, top) + (if KeyLess(top, r.collectedAt) then [] else [r])
  {
    assert (rows + [r])[..|rows|] == rows;
  }

  lemma EventsOne(lib: Library, rows: seq<Row>, r: Row, field: Option<string>)
    requires EventsOf(lib, rows, field).Some? && RowToEvent(lib, r, |rows|, field).Usable?
    ensures EventsOf(lib, rows + [r], field) ==
            Some(EventsOf(lib, rows, field).value + [RowToEvent(lib, r, |rows|, field).event])
  {
    assert (rows + [r])[..|rows|] == rows;
  }

  lemma NewerOne(events: seq<WindowEvent>, e: WindowEvent, mark: int)
    ensures Newer(events + [e], mark) == Newer(events, mark) + (if e.window > mark then [e] else [])
  {
    assert (events + [e])[..|events|] == events;
  }

  lemma SecondLogGrows()
    ensures Grows(FIRST_LOG, SECOND_LOG) && Grows([], FIRST_LOG) && Sorted(SECOND_LOG) && Sortable(SECOND_LOG)
  {
    ThreeUpTo(Quiet(1.0), Quiet(2.0), Quiet(3.0), Num(1.0));
    ThreeSorted(Quiet(1.0), Quiet(2.0), Quiet(3.0));
  }

  lemma ThreeUpTo(a: Row, b: Row, c: Row, top: Key)
    ensures UpTo([a, b, c], top) == (if KeyLess(top, a.collectedAt) then [] else [a]) +
                                    (if KeyLess(top, b.collectedAt) then [] else [b]) +
                                    (if KeyLess(top, c.collectedAt) then [] else [c])
  {
    hide UpTo, KeyLess;
    UpToNone(top);
    UpToOne([], a, top);
    UpToOne([a], b, top);
    UpToOne([a, b], c, top);
    assert [] + [a] == [a] && [a] + [b] == [a, b] && [a, b] + [c] == [a, b, c];
  }

  lemma ThreeSorted(a: Row, b: Row, c: Row)
    requires a.collectedAt.Num? && b.collectedAt.Num? && c.collectedAt.Num?
    requires a.collectedAt.value <= b.collectedAt.value <= c.collectedAt.value
    ensures Sorted([a, b, c]) && Sortable([a, b, c])
  {
  }

  lemma UpToNone(top: Key)
    ensures UpTo([], top) == []
  {
  }

  /**
   * With a limit of two, one row polled and two more collected: the core answers with the last two, the
   * poller takes the older of them for the row it knows, and the window at time 2 is never fed. The mark
   * had not reached the limit.
   */
  lemma LosesARow(lib: Library)
    requires lib.str(Text("u")) == "u"
    ensures var polls := [Poll("u", Some(FIRST_LOG)), Poll("u", Some(SECOND_LOG[1..]))];
            && Served(lib, None, polls, [FIRST_LOG, SECOND_LOG], 2)
            && PollAll(lib, None, START, polls).fed ==
                 AsInputs([WindowEvent("u", None, 0, 10, 0, 1.0), WindowEvent("u", None, 1, 10, 0, 3.0)])
  {
    hide Served, PollOne, AsInputs;
    var first, second := Poll("u", Some(FIRST_LOG)), Poll("u", Some(SECOND_LOG[1..]));
    var polls := [first, second];
    LosesARowServed(lib, polls);
    FirstPoll(lib, first);
    var l := PollOne(lib, None, START, first);
    SecondPoll(lib, l, second);
    assert polls[..1] == [first] && [first][..0] == [];
    assert PollAll(lib, None, START, [first]) == l;
    AsInputsAppend([WindowEvent("u", None, 0, 10, 0, 1.0)], [WindowEvent("u", None, 1, 10, 0, 3.0)]);
    assert [WindowEvent("u", None, 0, 10, 0, 1.0)] + [WindowEvent("u", None, 1, 10, 0, 3.0)]
           == [WindowEvent("u", None, 0, 10, 0, 1.0), WindowEvent("u", None, 1, 10, 0, 3.0)];
  }

  lemma QuietCut(lib: Library, log: seq<Row>, cut: nat)
    requires lib.str(Text("u")) == "u" && Sorted(log) && Sortable(log) && cut <= |log|
    requires forall r :: r in log ==> r.collectedAt.Num? && r == Quiet(r.collectedAt.value)
    ensures CutOnce(lib, None, Poll("u", Some(log[cut..])), log, cut)
  {
    forall r | r in log
      ensures Good(lib, None, "u", r)
    {
      QuietIsGood(lib, r.collectedAt.value);
    }
    hide Quiet, Good;
    SortedStays(log);
    SortedStays(log[cut..]);
  }

  lemma LosesARowServed(lib: Library, polls: seq<Poll>)
    requires polls == [Poll("u", Some(FIRST_LOG)), Poll("u", Some(SECOND_LOG[1..]))]
    requires lib.str(Text("u")) == "u"
    ensures Served(lib, None, polls, [FIRST_LOG, SECOND_LOG], 2)
  {
    hide Served, CutOnce, Grows, Sorted, Sortable, Quiet;
    SecondLogGrows();
    OneQuiet(1.0);
    QuietLogs(1.0, 2.0, 3.0);
    OneThenThree(lib, FIRST_LOG, SECOND_LOG);
  }

  lemma OneQuiet(at: real)
    ensures Sorted([Quiet(at)]) && Sortable([Quiet(at)])
    ensures forall r :: r in [Quiet(at)] ==> r.collectedAt.Num? && r == Quiet(r.collectedAt.value)
  {
  }

  lemma QuietLogs(x: real, y: real, z: real)
    ensures forall r :: r in [Quiet(x), Quiet(y), Quiet(z)] ==> r.collectedAt.Num? && r == Quiet(r.collectedAt.value)
  {
  }

  lemma OneThenThree(lib: Library, was: seq<Row>, log: seq<Row>)
    requires lib.str(Text("u")) == "u" && |was| == 1 && |log| == 3 && Grows([], was) && Grows(was, log)
    requires Sorted(was) && Sortable(was) && Sorted(log) && Sortable(log)
    requires forall r :: r in was || r in log ==> r.collectedAt.Num? && r == Quiet(r.collectedAt.value)
    ensures Served(lib, None, [Poll("u", Some(was)), Poll("u", Some(log[1..]))], [was, log], 2)
  {
    hide Served, CutOnce, Grows, Sorted, Sortable, Quiet;
    QuietCut(lib, was, 0);
    QuietCut(lib, log, 1);
    assert was[0..] == was;
    TwoPollsServed(lib, Poll("u", Some(was)), Poll("u", Some(log[1..])), was, log, 2);
  }

  lemma TwoPollsServed(lib: Library, p: Poll, q: Poll, was: seq<Row>, log: seq<Row>, limit: nat)
    requires p.answer.Some? && q.answer.Some? && p.supi == q.supi && Grows([], was) && Grows(was, log)
    requires CutOnce(lib, None, p, was, Over(|was|, limit)) && CutOnce(lib, None, q, log, Over(|log|, limit))
    ensures Served(lib, None, [p, q], [was, log], limit)
  {
    hide CutOnce, Grows;
    var polls, logs: seq<seq<Row>> := [p, q], [was, log];
    assert polls[..1] == [p] && logs[..1] == [was] && polls[..0] == [] && logs[..0] == [];
    assert LastLog([p], [was], q.supi) == was;
  }

  lemma FirstPoll(lib: Library, p: Poll)
    requires p == Poll("u", Some(FIRST_LOG)) && lib.str(Text("u")) == "u"
    ensures var l := PollOne(lib, None, START, p);
            !l.crashed && SeenOf(l, "u") == 0 && l.fed == AsInputs([WindowEvent("u", None, 0, 10, 0, 1.0)])
  {
    hide RowToEvent, Quiet, Good, AsInputs, EventsOf, Newer, StableSort;
    QuietIsGood(lib, 1.0);
    SortedStays(FIRST_LOG);
    var e := WindowEvent("u", None, 0, 10, 0, 1.0);
    NoEvents(lib);
    EventsOne(lib, [], Quiet(1.0), None);
    NewerNothing(-1);
    NewerOne([], e, -1);
    assert [] + [Quiet(1.0)] == FIRST_LOG && [] + [e] == [e];
    PollGives(lib, START, p, [e], [e]);
    assert START.fed + AsInputs([e]) == AsInputs([e]);
  }

  lemma NewerNothing(mark: int)
    ensures Newer([], mark) == []
  {
  }

  lemma SecondEvents(lib: Library)
    requires lib.str(Text("u")) == "u"
    ensures EventsOf(lib, [Quiet(2.0), Quiet(3.0)], None) ==
            Some([WindowEvent("u", None, 0, 10, 0, 2.0), WindowEvent("u", None, 1, 10, 0, 3.0)])
  {
    hide RowToEvent, Quiet, Good, EventsOf;
    var x, y := Quiet(2.0), Quiet(3.0);
    var a, b := WindowEvent("u", None, 0, 10, 0, 2.0), WindowEvent("u", None, 1, 10, 0, 3.0);
    QuietIsGood(lib, 2.0);
    QuietIsGood(lib, 3.0);
    IndexIsCopied(lib, y, 0, 1, None);
    NoEvents(lib);
    EventsOne(lib, [], x, None);
    assert [] + [x] == [x] && [] + [a] == [a];
    EventsOne(lib, [x], y, None);
    assert [x] + [y] == [x, y] && [a] + [b] == [a, b];
  }

  lemma NoEvents(lib: Library)
    ensures EventsOf(lib, [], None) == Some([])
  {
  }

  lemma SecondPoll(lib: Library, l: Live, p: Poll)
    requires p == Poll("u", Some(SECOND_LOG[1..])) && lib.str(Text("u")) == "u"
    requires !l.crashed && SeenOf(l, "u") == 0
    ensures PollOne(lib, None, l, p).fed == l.fed + AsInputs([WindowEvent("u", None, 1, 10, 0, 3.0)])
  {
    SecondLogGrows();
    SortedStays(SECOND_LOG[1..]);
    SecondEvents(lib);
    assert SECOND_LOG[1..] == [Quiet(2.0), Quiet(3.0)];
    hide AsInputs, Newer, EventsOf, StableSort, Sorted, Grows, RowToEvent, Quiet;
    var a, b := WindowEvent("u", None, 0, 10, 0, 2.0), WindowEvent("u", None, 1, 10, 0, 3.0);
    NewerTwo(a, b);
    PollGives(lib, l, p, [a, b], [b]);
  }

  lemma NewerTwo(a: WindowEvent, b: WindowEvent)
    requires a.window == 0 && b.window == 1
    ensures Newer([a, b], 0) == [b]
  {
    NewerOne([], a, 0);
    assert [] + [a] == [a] && [a] + [b] == [a, b];
    NewerOne([a], b, 0);
  }

  lemma PollGives(lib: Library, l: Live, p: Poll, events: seq<WindowEvent>, newer: seq<WindowEvent>)
    requires !l.crashed && p.answer.Some? && Fetch(lib, p.answer.value, None) == Some(events)
    requires Newer(events, SeenOf(l, p.supi)) == newer != []
    ensures var next := PollOne(lib, None, l, p);
            && !next.crashed && SeenOf(next, p.supi) == newer[|newer| - 1].window
            && next.fed == l.fed + AsInputs(newer)
  {
    hide Newer, Fetch;
  }

  /**
   * No limit in sight: two rows polled, both pruned, one collected. The answer's one row is taken for a
   * known one, and the window at time 3 is never fed.
   */
  lemma PrunedLosesARow(lib: Library)
    requires lib.str(Text("u")) == "u"
    ensures var polls := [Poll("u", Some(SECOND_LOG[..2])), Poll("u", Some(SECOND_LOG[2..]))];
            var l := PollAll(lib, None, START, polls);
            && Cut(lib, None, polls, [SECOND_LOG[..2], SECOND_LOG], [0, 2])
            && |InputsOf(l.fed, "u")| == 2 && !Whole(lib, None, l, SECOND_LOG, "u")
  {
    hide PollAll, InputsOf, Whole;
    var polls := [Poll("u", Some(SECOND_LOG[..2])), Poll("u", Some(SECOND_LOG[2..]))];
    var logs: seq<seq<Row>> := [SECOND_LOG[..2], SECOND_LOG];
    PrunedIsCut(lib, polls, logs, [0, 2]);
    hide Cut, CutOnce, Quiet;
    WholeLogExactlyWhen(lib, None, polls, logs, [0, 2], "u");
    assert LastLog(polls, logs, "u") == SECOND_LOG;
    LongestOfTwo(polls);
  }

  lemma LongestOfTwo(polls: seq<Poll>)
    requires |polls| == 2 && polls[0].supi == polls[1].supi && polls[0].answer.Some? && polls[1].answer.Some?
    requires |polls[0].answer.value| == 2 && |polls[1].answer.value| == 1
    ensures Longest(polls, polls[0].supi) == 2 && !Held(polls, polls[0].supi, 3)
  {
    LongestMeaning(polls, polls[0].supi);
  }

  lemma PrunedGrows()
    ensures Grows(SECOND_LOG[..2], SECOND_LOG) && Grows([], SECOND_LOG[..2])
    ensures Sorted(SECOND_LOG[..2]) && Sortable(SECOND_LOG[..2])
  {
    ThreeUpTo(Quiet(1.0), Quiet(2.0), Quiet(3.0), Num(2.0));
    ThreeSorted(Quiet(1.0), Quiet(2.0), Quiet(3.0));
    assert SECOND_LOG[..2] == [Quiet(1.0), Quiet(2.0)];
  }

  lemma PrunedIsCut(lib: Library, polls: seq<Poll>, logs: seq<seq<Row>>, cuts: seq<nat>)
    requires lib.str(Text("u")) == "u" && cuts == [0, 2]
    requires polls == [Poll("u", Some(SECOND_LOG[..2])), Poll("u", Some(SECOND_LOG[2..]))]
    requires logs == [SECOND_LOG[..2], SECOND_LOG]
    ensures Cut(lib, None, polls, logs, cuts)
  {
    SecondLogGrows();
    PrunedGrows();
    QuietCut(lib, SECOND_LOG[..2], 0);
    QuietCut(lib, SECOND_LOG, 2);
    assert SECOND_LOG[..2][0..] == SECOND_LOG[..2];
    TwoPollsCut(lib, polls[0], polls[1], logs[0], logs[1], 2);
    assert [polls[0], polls[1]] == polls && [logs[0], logs[1]] == logs;
  }

  lemma TwoPollsCut(lib: Library, p: Poll, q: Poll, was: seq<Row>, log: seq<Row>, cut: nat)
    requires p.answer.Some? && q.answer.Some? && p.supi == q.supi && Grows([], was) && Grows(was, log)
    requires CutOnce(lib, None, p, was, 0) && CutOnce(lib, None, q, log, cut)
    ensures Cut(lib, None, [p, q], [was, log], [0, cut])
  {
    hide CutOnce, Grows;
    var polls, logs: seq<seq<Row>>, cuts: seq<nat> := [p, q], [was, log], [0, cut];
    assert polls[..1] == [p] && logs[..1] == [was] && cuts[..1] == [0];
    assert polls[..0] == [] && logs[..0] == [] && cuts[..0] == [];
    assert LastLog([p], [was], q.supi) == was && LastCut([p], [0], q.supi) == 0;
  }
}
