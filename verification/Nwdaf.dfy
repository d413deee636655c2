/** nwdaf_client.py: an export of the core's data points turned into window events. */
module Nwdaf {
  import opened Wrappers
  import opened Reputation
  import T = Text

  datatype Json = Null | Bool(b: bool) | Number(value: real) | Text(text: string) | List(items: seq<Json>)
                | Object(fields: map<string, Json>)
  {
    /** Python's truth value. */
    predicate Truthy() {
      match this
      case Null => false
      case Bool(b) => b
      case Number(v) => v != 0.0
      case Text(t) => t != ""
      case List(items) => items != []
      case Object(fields) => fields.Keys != {}
    }

    /** dict.get, None being Null. */
    function Get(key: string): Json
      requires Object?
    {
      if key in fields then fields[key] else Null
    }

    function Or(other: Json): Json {
      if Truthy() then this else other
    }
  }

  /** collected_at: SQLite hands it back as text, a test server as a number. */
  datatype Key = Num(value: real) | Str(text: string)

  /** The fields the client reads, each under its lower-case name or else its capitalised one. */
  datatype Row = Row(imsi: Json, data: Json, collectedAt: Key)

  /** Python's json.loads, int and float on text, and str. */
  datatype Library = Library(loads: string -> Option<Json>, int_: string -> Option<int>,
                             float_: string -> Option<real>, str: Json -> string)

  datatype Outcome = Usable(event: WindowEvent) | Skipped | Crashed

  // ── One row ──────────────────────────────────────────────────────────────

  /** int(x) truncates toward zero; None where it raises. */
  function AsInt(lib: Library, j: Json): Option<int> {
    match j
    case Number(v) => Some(if v >= 0.0 then v.Floor else -((-v).Floor))
    case Bool(b) => Some(if b then 1 else 0)
    case Text(t) => lib.int_(t)
    case _ => None
  }

  function AsFloat(lib: Library, k: Key): Option<real> {
    match k
    case Num(v) => Some(v)
    case Str(t) => lib.float_(t)
  }

  /** The payload: text is parsed, anything else taken as it is; None where it is not JSON. */
  function Payload(lib: Library, data: Json): Option<Json> {
    if data.Text? then lib.loads(data.text) else Some(data)
  }

  /** Some(origin) where the lookup succeeds. Only a text is an origin here. */
  function OriginOf(payload: Json, field: Option<string>): Option<Option<string>>
    requires payload.Object?
  {
    if field.None? || field.value == "" then Some(None)
    else
      var experiment := payload.Get("experiment").Or(Object(map[]));
      if !experiment.Object? then None
      else
        var origin := experiment.Get(field.value).Or(payload.Get(field.value));
        Some(if origin.Text? then Some(origin.text) else None)
  }

  function RowToEvent(lib: Library, row: Row, index: nat, field: Option<string>): Outcome {
    if !row.imsi.Truthy() || !row.data.Truthy() then Skipped
    else
      var payload := Payload(lib, row.data);
      if payload.None? then Skipped
      else if !payload.value.Object? then Crashed
      else
        var pm := payload.value.Get("pm_counters").Or(Object(map[]));
        if !pm.Object? then Crashed
        else
          var attempts, failures := pm.Get("AUTH.Att"), pm.Get("AUTH.Fail");
          if attempts.Null? || failures.Null? then Skipped
          else
            var origin := OriginOf(payload.value, field);
            var att, fail, at := AsInt(lib, attempts), AsInt(lib, failures), AsFloat(lib, row.collectedAt);
            if origin.None? || att.None? || fail.None? || at.None? then Crashed
            else Usable(WindowEvent(lib.str(row.imsi), origin.value, index, att.value, fail.value, at.value))
  }

  /**
   * The guards of the raising branches: there is JSON, and it is no object, or its counters are no object,
   * or both counters are there and a counter, the time or the origin does not convert.
   */
  predicate Breaks(lib: Library, row: Row, field: Option<string>) {
    && row.imsi.Truthy() && row.data.Truthy() && Payload(lib, row.data).Some?
    && var payload := Payload(lib, row.data).value;
    (payload.Object? ==>
      var pm := payload.Get("pm_counters").Or(Object(map[]));
      (pm.Object? ==>
        && !pm.Get("AUTH.Att").Null? && !pm.Get("AUTH.Fail").Null?
        && (AsInt(lib, pm.Get("AUTH.Att")).None? || AsInt(lib, pm.Get("AUTH.Fail")).None?
            || AsFloat(lib, row.collectedAt).None? || OriginOf(payload, field).None?)))
  }

  lemma CrashesExactlyWhen(lib: Library, row: Row, index: nat, field: Option<string>)
    ensures RowToEvent(lib, row, index, field).Crashed? <==> Breaks(lib, row, field)
  {
  }

  /** The values Python takes for false. */
  lemma FalsyMeaning(j: Json)
    ensures !j.Truthy() <==>
            j == Null || j == Bool(false) || j == Number(0.0) || j == Text("") || j == List([]) || j == Object(map[])
  {
    if j.Object? {
      assert j.fields.Keys == {} <==> j.fields == map[];
    }
  }

  /** A number loses its fraction, on either side of zero. */
  lemma AsIntMeaning(lib: Library, v: real)
    ensures AsInt(lib, Number(v)).Some?
    ensures var n := AsInt(lib, Number(v)).value;
            if v >= 0.0 then n as real <= v < n as real + 1.0 else n as real - 1.0 < v <= n as real
  {
  }

  /** The text under a key of an object, if a text is there. */
  function TextAt(j: Json, key: string): Option<string>
    requires j.Object?
  {
    if key in j.fields && j.fields[key].Text? then Some(j.fields[key].text) else None
  }

  /** A key of an object holds something Python takes for true. */
  predicate Filled(j: Json, key: string)
    requires j.Object?
  {
    key in j.fields && j.fields[key].Truthy()
  }

  /**
   * The origin is looked up under the configured field, in the experiment first and in the payload where the
   * experiment has nothing there; it raises where the experiment is something else than an object.
   */
  lemma OriginMeaning(payload: Json, field: Option<string>)
    requires payload.Object?
    ensures field.None? || field == Some("") ==> OriginOf(payload, field) == Some(None)
    ensures field.Some? && field != Some("") ==>
              var f, filled := field.value, Filled(payload, "experiment");
              && (OriginOf(payload, field).None? <==> filled && !payload.fields["experiment"].Object?)
              && (filled && payload.fields["experiment"].Object? && Filled(payload.fields["experiment"], f) ==>
                    OriginOf(payload, field) == Some(TextAt(payload.fields["experiment"], f)))
              && (!filled || (payload.fields["experiment"].Object? && !Filled(payload.fields["experiment"], f)) ==>
                    OriginOf(payload, field) == Some(TextAt(payload, f)))
  {
  }

  /** Both counters are there, with a value. */
  predicate Counted(payload: Json)
    requires payload.Object?
  {
    && "pm_counters" in payload.fields && payload.fields["pm_counters"].Object?
    && var pm := payload.fields["pm_counters"].fields;
    "AUTH.Att" in pm && pm["AUTH.Att"] != Null && "AUTH.Fail" in pm && pm["AUTH.Fail"] != Null
  }

  /** A row's JSON: text is parsed, anything else stands for itself. */
  function JsonOf(lib: Library, row: Row): Option<Json> {
    match row.data
    case Text(t) => lib.loads(t)
    case other => Some(other)
  }

  /** Everything a window needs is there and converts, whatever else the payload holds. */
  predicate Complete(lib: Library, row: Row, field: Option<string>) {
    && row.imsi.Truthy() && row.data.Truthy()
    && JsonOf(lib, row).Some? && JsonOf(lib, row).value.Object? && Counted(JsonOf(lib, row).value)
    && var payload := JsonOf(lib, row).value;
    var pm := payload.fields["pm_counters"].fields;
    && AsInt(lib, pm["AUTH.Att"]).Some? && AsInt(lib, pm["AUTH.Fail"]).Some?
    && (row.collectedAt.Num? || lib.float_(row.collectedAt.text).Some?)
    && OriginOf(payload, field).Some?
  }

  /** A row is usable exactly when it is complete, and its event has the row's own values. */
  lemma UsableExactlyWhen(lib: Library, row: Row, index: nat, field: Option<string>)
    ensures var o := RowToEvent(lib, row, index, field);
            && (o.Usable? <==> Complete(lib, row, field))
            && (o.Usable? ==>
                  var payload := JsonOf(lib, row).value;
                  var pm := payload.fields["pm_counters"].fields;
                  o.event == WindowEvent(lib.str(row.imsi), OriginOf(payload, field).value, index,
                                         AsInt(lib, pm["AUTH.Att"]).value, AsInt(lib, pm["AUTH.Fail"]).value,
                                         if row.collectedAt.Num? then row.collectedAt.value
                                         else lib.float_(row.collectedAt.text).value))
  {
    hide OriginOf, AsInt;
  }

  /**
   * It is skipped exactly when the IMSI or the data is missing, the text is no JSON, or the payload is an
   * object whose counters are missing, or lack one.
   */
  lemma SkippedExactlyWhen(lib: Library, row: Row, index: nat, field: Option<string>)
    ensures RowToEvent(lib, row, index, field).Skipped? <==>
            || !row.imsi.Truthy() || !row.data.Truthy() || JsonOf(lib, row).None?
            || (JsonOf(lib, row).value.Object?
                && var payload := JsonOf(lib, row).value;
                   !Filled(payload, "pm_counters")
                   || (payload.fields["pm_counters"].Object? && !Counted(payload)))
  {
    hide OriginOf, AsInt, AsFloat;
  }

  /** The index is only copied: whether a row is usable, skipped or crashes does not depend on its place. */
  lemma IndexIsCopied(lib: Library, row: Row, i: nat, j: nat, field: Option<string>)
    ensures var a, b := RowToEvent(lib, row, i, field), RowToEvent(lib, row, j, field);
            if a.Usable? then a.event.window == i && b == Usable(a.event.(window := j)) else a == b
  {
  }

  // ── Reading back a posted data point ─────────────────────────────────────

  /** The data_json of post_test_datapoint. */
  function PostedPayload(attempts: int, failures: int, origin: Option<string>, meta: map<string, Json>,
                         field: Option<string>): Json {
    var experiment :=
      if origin.Some? && field.Some? && field.value != "" then meta[field.value := Text(origin.value)] else meta;
    Object(map[
      "pm_counters" := Object(map["AUTH.Att" := Number(attempts as real), "AUTH.Fail" := Number(failures as real),
                                  "AUTH.FailMAC" := Number(0.0)]),
      "experiment" := Object(experiment)])
  }

  lemma IntReadsBack(lib: Library, n: int)
    ensures AsInt(lib, Number(n as real)) == Some(n)
  {
  }

  /**
   * A posted data point comes back as the window it was posted as, its origin too where one was given
   * and the field to carry it is configured; whether the core hands the JSON back parsed or as text.
   */
  lemma PostedReadsBack(lib: Library, row: Row, index: nat, supi: string, attempts: int, failures: int, at: real,
                        origin: Option<string>, meta: map<string, Json>, field: Option<string>)
    requires supi != "" && row.imsi == Text(supi) && lib.str(row.imsi) == supi
             && AsFloat(lib, row.collectedAt) == Some(at)
    requires row.data.Truthy() && Payload(lib, row.data) == Some(PostedPayload(attempts, failures, origin, meta, field))
    ensures var o := RowToEvent(lib, row, index, field);
            && o.Usable?
            && o.event == WindowEvent(supi, o.event.origin, index, attempts, failures, at)
            && (field.None? || field.value == "" ==> o.event.origin == None)
            && (field.Some? && field.value != "" && origin.Some? && origin.value != "" ==> o.event.origin == origin)
  {
    var payload := PostedPayload(attempts, failures, origin, meta, field);
    IntReadsBack(lib, attempts);
    IntReadsBack(lib, failures);
    var pm := payload.Get("pm_counters");
    assert "AUTH.Att" in pm.fields.Keys;
    assert pm.Get("AUTH.Att") == Number(attempts as real) && pm.Get("AUTH.Fail") == Number(failures as real);
  }

  // ── The sort ─────────────────────────────────────────────────────────────

  predicate KeyLess(a: Key, b: Key) {
    match (a, b)
    case (Num(x), Num(y)) => x < y
    case (Str(x), Str(y)) => T.Less(x, y)
    case (Num(_), Str(_)) => true
    case (Str(_), Num(_)) => false
  }

  lemma KeyOrder(a: Key, b: Key, c: Key)
    ensures !KeyLess(a, a)
    ensures KeyLess(a, b) ==> !KeyLess(b, a)
    ensures KeyLess(a, b) && !KeyLess(c, b) ==> KeyLess(a, c)
    ensures KeyLess(a, b) && !KeyLess(a, c) ==> KeyLess(c, b)
  {
    if a.Str? {
      T.LessIrreflexive(a.text);
      if b.Str? {
        T.LessTrichotomy(a.text, b.text);
        if c.Str? {
          T.LessTrichotomy(b.text, c.text);
          T.LessTrichotomy(a.text, c.text);
          if KeyLess(a, b) && KeyLess(b, c) { T.LessTransitive(a.text, b.text, c.text); }
          if KeyLess(c, a) && KeyLess(a, b) { T.LessTransitive(c.text, a.text, b.text); }
        }
      }
    }
  }

  /** Comparing a number with a text raises. */
  predicate Sortable(rows: seq<Row>) {
    forall i, j :: 0 <= i < |rows| && 0 <= j < |rows| ==> rows[i].collectedAt.Num? == rows[j].collectedAt.Num?
  }

  /** x after every row it is not less than. */
  function Place(q: seq<Row>, x: Row): seq<Row> {
    if q != [] && KeyLess(x.collectedAt, q[|q| - 1].collectedAt) then Place(q[..|q| - 1], x) + [q[|q| - 1]]
    else q + [x]
  }

  /** list.sort by collected_at, which is stable. */
  function StableSort(rows: seq<Row>): seq<Row> {
    if rows == [] then [] else Place(StableSort(rows[..|rows| - 1]), rows[|rows| - 1])
  }

  ghost predicate Sorted(q: seq<Row>) {
    forall i, j :: 0 <= i < j < |q| ==> !KeyLess(q[j].collectedAt, q[i].collectedAt)
  }

  function WithKey(rows: seq<Row>, k: Key): seq<Row> {
    if rows == [] then []
    else WithKey(rows[..|rows| - 1], k) + (if rows[|rows| - 1].collectedAt == k then [rows[|rows| - 1]] else [])
  }

  lemma {:induction false} PlaceMembers(q: seq<Row>, x: Row, y: Row)
    requires y in Place(q, x)
    ensures y in q || y == x
  {
    if q != [] && KeyLess(x.collectedAt, q[|q| - 1].collectedAt) && y != q[|q| - 1] {
      PlaceMembers(q[..|q| - 1], x, y);
    }
  }

  lemma {:induction false} PlaceSorts(q: seq<Row>, x: Row)
    requires Sorted(q)
    ensures Sorted(Place(q, x))
  {
    hide KeyLess;
    if q == [] {
    } else if KeyLess(x.collectedAt, q[|q| - 1].collectedAt) {
      var n := |q| - 1;
      PlaceSorts(q[..n], x);
      var r := Place(q[..n], x);
      forall i | 0 <= i < |r|
        ensures !KeyLess(q[n].collectedAt, r[i].collectedAt)
      {
        PlaceMembers(q[..n], x, r[i]);
        KeyOrder(x.collectedAt, q[n].collectedAt, x.collectedAt);
      }
    } else {
      forall i | 0 <= i < |q|
        ensures !KeyLess(x.collectedAt, q[i].collectedAt)
      {
        KeyOrder(x.collectedAt, q[i].collectedAt, q[|q| - 1].collectedAt);
      }
    }
  }

  lemma {:induction false} PlaceKeepsKeys(q: seq<Row>, x: Row, k: Key)
    ensures WithKey(Place(q, x), k) == WithKey(q + [x], k) && |Place(q, x)| == |q| + 1
  {
    hide KeyLess;
    assert (q + [x])[..|q|] == q;
    if q != [] && KeyLess(x.collectedAt, q[|q| - 1].collectedAt) {
      var n := |q| - 1;
      PlaceKeepsKeys(q[..n], x, k);
      var r := Place(q[..n], x);
      assert (r + [q[n]])[..|r|] == r && (q[..n] + [x])[..n] == q[..n];
      KeyOrder(x.collectedAt, q[n].collectedAt, k);
    }
  }

  /** Sorted, and rows of equal keys keep their order and number. */
  lemma {:induction false} StableSortMeaning(rows: seq<Row>, k: Key)
    ensures Sorted(StableSort(rows)) && WithKey(StableSort(rows), k) == WithKey(rows, k)
    ensures |StableSort(rows)| == |rows|
  {
    if rows != [] {
      var n := |rows| - 1;
      StableSortMeaning(rows[..n], k);
      var q := StableSort(rows[..n]);
      PlaceSorts(q, rows[n]);
      PlaceKeepsKeys(q, rows[n], k);
      assert (q + [rows[n]])[..n] == q;
    }
  }

  /** Numbers ascend; so do texts, byte by byte. */
  lemma SortAscends(rows: seq<Row>, i: nat, j: nat)
    requires i < j < |rows|
    ensures |StableSort(rows)| == |rows|
    ensures var a, b := StableSort(rows)[i].collectedAt, StableSort(rows)[j].collectedAt;
            && (a.Num? && b.Num? ==> a.value <= b.value)
            && (a.Str? && b.Str? ==> a.text == b.text || T.Less(a.text, b.text))
  {
    StableSortMeaning(rows, Num(0.0));
    var a, b := StableSort(rows)[i].collectedAt, StableSort(rows)[j].collectedAt;
    if a.Str? && b.Str? {
      T.LessTrichotomy(a.text, b.text);
    }
  }

  // ── An export that grows by later rows ───────────────────────────────────

  function UpTo(rows: seq<Row>, top: Key): seq<Row> {
    if rows == [] then []
    else UpTo(rows[..|rows| - 1], top) + (if KeyLess(top, rows[|rows| - 1].collectedAt) then [] else [rows[|rows| - 1]])
  }

  function After(rows: seq<Row>, top: Key): seq<Row> {
    if rows == [] then []
    else
      After(rows[..|rows| - 1], top)
      + (if KeyLess(top, rows[|rows| - 1].collectedAt) then [rows[|rows| - 1]] else [])
  }

  /** The rows up to some time are the old export, in its order; the others are later and may stand anywhere. */
  ghost predicate Grows(was: seq<Row>, rows: seq<Row>) {
    was == [] || exists top :: UpTo(rows, top) == was
  }

  lemma {:induction false} PlaceLate(a: seq<Row>, b: seq<Row>, x: Row)
    requires forall y :: y in a ==> !KeyLess(x.collectedAt, y.collectedAt)
    ensures Place(a + b, x) == a + Place(b, x)
  {
    if b == [] {
      assert a + b == a;
      assert a != [] ==> a[|a| - 1] in a;
    } else {
      var n := |b| - 1;
      assert (a + b)[..|a| + n] == a + b[..n];
      PlaceLate(a, b[..n], x);
    }
  }

  lemma {:induction false} PlaceEarly(a: seq<Row>, b: seq<Row>, x: Row)
    requires forall y :: y in b ==> KeyLess(x.collectedAt, y.collectedAt)
    ensures Place(a + b, x) == Place(a, x) + b
  {
    if b == [] {
      assert a + b == a;
    } else {
      var n := |b| - 1;
      assert (a + b)[..|a| + n] == a + b[..n] && b[n] in b;
      PlaceEarly(a, b[..n], x);
    }
  }

  ghost predicate Split(a: seq<Row>, b: seq<Row>, top: Key) {
    && (forall y :: y in a ==> !KeyLess(top, y.collectedAt))
    && (forall y :: y in b ==> KeyLess(top, y.collectedAt))
  }

  /** The sorted export is the sorted old part followed by the sorted later part. */
  lemma {:induction false} SortAppends(rows: seq<Row>, top: Key)
    ensures StableSort(rows) == StableSort(UpTo(rows, top)) + StableSort(After(rows, top))
    ensures Split(StableSort(UpTo(rows, top)), StableSort(After(rows, top)), top)
  {
    hide KeyLess, Place;
    if rows != [] {
      var n := |rows| - 1;
      var x := rows[n];
      SortAppends(rows[..n], top);
      var lo, hi := UpTo(rows[..n], top), After(rows[..n], top);
      PlaceSplit(StableSort(lo), StableSort(hi), x, top);
      assert (hi + [x])[..|hi|] == hi && (lo + [x])[..|lo|] == lo;
      assert lo + [] == lo && hi + [] == hi;
    }
  }

  lemma PlaceSplit(a: seq<Row>, b: seq<Row>, x: Row, top: Key)
    requires Split(a, b, top)
    ensures if KeyLess(top, x.collectedAt) then Place(a + b, x) == a + Place(b, x) && Split(a, Place(b, x), top)
            else Place(a + b, x) == Place(a, x) + b && Split(Place(a, x), b, top)
  {
    hide KeyLess, Place;
    if KeyLess(top, x.collectedAt) {
      forall y | y in a ensures !KeyLess(x.collectedAt, y.collectedAt) {
        KeyOrder(top, x.collectedAt, y.collectedAt);
        KeyOrder(y.collectedAt, x.collectedAt, top);
      }
      PlaceLate(a, b, x);
      forall y | y in Place(b, x) ensures KeyLess(top, y.collectedAt) { PlaceMembers(b, x, y); }
    } else {
      forall y | y in b ensures KeyLess(x.collectedAt, y.collectedAt) {
        KeyOrder(top, y.collectedAt, x.collectedAt);
      }
      PlaceEarly(a, b, x);
      forall y | y in Place(a, x) ensures !KeyLess(top, y.collectedAt) { PlaceMembers(a, x, y); }
    }
  }

  /** Sorted by time, an answer begins with the sorted earlier one. */
  ghost predicate Extends(was: seq<Row>, rows: seq<Row>) {
    StableSort(was) <= StableSort(rows)
  }

  /** An export that grows by later rows, wherever the core lists them, extends the old one. */
  lemma GrowthExtends(was: seq<Row>, rows: seq<Row>)
    requires Grows(was, rows)
    ensures Extends(was, rows)
  {
    if was != [] {
      var top :| UpTo(rows, top) == was;
      SortAppends(rows, top);
    }
  }

  // ── fetch_events ─────────────────────────────────────────────────────────

  /** The events of rows already sorted, each with its place among all the rows; None where a row crashes. */
  function EventsOf(lib: Library, rows: seq<Row>, field: Option<string>): Option<seq<WindowEvent>> {
    if rows == [] then Some([])
    else
      var n := |rows| - 1;
      var before := EventsOf(lib, rows[..n], field);
      var o := RowToEvent(lib, rows[n], n, field);
      if before.None? || o.Crashed? then None
      else if o.Usable? then Some(before.value + [o.event])
      else before
  }

  ghost predicate Increasing(events: seq<WindowEvent>, lo: int, hi: int) {
    && (forall i :: 0 <= i < |events| ==> lo <= events[i].window < hi)
    && (forall i, j :: 0 <= i < j < |events| ==> events[i].window < events[j].window)
  }

  lemma {:induction false} EventsIncrease(lib: Library, rows: seq<Row>, field: Option<string>)
    requires EventsOf(lib, rows, field).Some?
    ensures Increasing(EventsOf(lib, rows, field).value, 0, |rows|)
  {
    if rows != [] {
      var n := |rows| - 1;
      EventsIncrease(lib, rows[..n], field);
      IndexIsCopied(lib, rows[n], n, n, field);
    }
  }

  /** More sorted rows: the same events first, then events with higher indices. */
  lemma {:induction false} EventsAppend(lib: Library, a: seq<Row>, b: seq<Row>, field: Option<string>)
      returns (more: seq<WindowEvent>)
    requires EventsOf(lib, a + b, field).Some?
    ensures EventsOf(lib, a, field).Some?
    ensures EventsOf(lib, a + b, field).value == EventsOf(lib, a, field).value + more
    ensures Increasing(more, |a|, |a| + |b|)
  {
    hide RowToEvent;
    if b == [] {
      assert a + b == a;
      more := [];
    } else {
      var n := |b| - 1;
      assert (a + b)[..|a| + n] == a + b[..n];
      more := EventsAppend(lib, a, b[..n], field);
      IndexIsCopied(lib, b[n], |a| + n, |a| + n, field);
      var o := RowToEvent(lib, b[n], |a| + n, field);
      if o.Usable? {
        more := more + [o.event];
      }
    }
  }

  /** The events are those of the complete rows, each numbered by its row's place. */
  lemma {:induction false} EventsMember(lib: Library, rows: seq<Row>, field: Option<string>, e: WindowEvent)
    requires EventsOf(lib, rows, field).Some?
    ensures e in EventsOf(lib, rows, field).value <==>
            exists i ::
              0 <= i < |rows| && Complete(lib, rows[i], field) && RowToEvent(lib, rows[i], i, field) == Usable(e)
  {
    hide RowToEvent, Complete;
    if rows != [] {
      var n := |rows| - 1;
      EventsMember(lib, rows[..n], field, e);
      UsableExactlyWhen(lib, rows[n], n, field);
      assert forall i :: 0 <= i < n ==> rows[..n][i] == rows[i];
      assert e in EventsOf(lib, rows[..n], field).value <==>
        exists i :: 0 <= i < n && Complete(lib, rows[i], field) && RowToEvent(lib, rows[i], i, field) == Usable(e);
    }
  }

  /** None stands for an exception other than NWDAFUnavailable. */
  function Fetch(lib: Library, rows: seq<Row>, field: Option<string>): Option<seq<WindowEvent>> {
    if Sortable(rows) then EventsOf(lib, StableSort(rows), field) else None
  }

  method FetchEvents(lib: Library, rows: seq<Row>, field: Option<string>) returns (r: Option<seq<WindowEvent>>)
    ensures r == Fetch(lib, rows, field)
  {
    hide RowToEvent, Sortable, StableSort;
    if !Sortable(rows) {
      return None;
    }
    var sorted := StableSort(rows);
    var events := [];
    for idx := 0 to |sorted|
      invariant EventsOf(lib, sorted[..idx], field) == Some(events)
    {
      assert sorted[..idx + 1][..idx] == sorted[..idx];
      var o := RowToEvent(lib, sorted[idx], idx, field);
      if o.Crashed? {
        CrashSpreads(lib, sorted[..idx + 1], sorted[idx + 1..], field);
        assert sorted[..idx + 1] + sorted[idx + 1..] == sorted;
        return None;
      }
      if o.Usable? {
        events := events + [o.event];
      }
    }
    assert sorted[..|sorted|] == sorted;
    return Some(events);
  }

  lemma CrashSpreads(lib: Library, a: seq<Row>, b: seq<Row>, field: Option<string>)
    requires EventsOf(lib, a, field).None?
    ensures EventsOf(lib, a + b, field).None?
  {
    if EventsOf(lib, a + b, field).Some? {
      var _ := EventsAppend(lib, a, b, field);
    }
  }

  // ── When a fetch fails ───────────────────────────────────────────────────

  lemma {:induction false} EventsExactlyWhen(lib: Library, rows: seq<Row>, field: Option<string>)
    ensures EventsOf(lib, rows, field).Some? <==> forall r :: r in rows ==> !Breaks(lib, r, field)
  {
    hide RowToEvent, Breaks;
    if rows != [] {
      var n := |rows| - 1;
      EventsExactlyWhen(lib, rows[..n], field);
      CrashesExactlyWhen(lib, rows[n], n, field);
      assert forall r :: r in rows <==> r in rows[..n] || r == rows[n];
    }
  }

  lemma {:induction false} PlacePermutes(q: seq<Row>, x: Row)
    ensures multiset(Place(q, x)) == multiset(q) + multiset{x}
  {
    hide KeyLess;
    if q != [] && KeyLess(x.collectedAt, q[|q| - 1].collectedAt) {
      PlacePermutes(q[..|q| - 1], x);
      assert q == q[..|q| - 1] + [q[|q| - 1]];
    }
  }

  lemma {:induction false} SortPermutes(rows: seq<Row>)
    ensures multiset(StableSort(rows)) == multiset(rows)
  {
    hide Place;
    if rows != [] {
      SortPermutes(rows[..|rows| - 1]);
      PlacePermutes(StableSort(rows[..|rows| - 1]), rows[|rows| - 1]);
      assert rows == rows[..|rows| - 1] + [rows[|rows| - 1]];
    }
  }

  lemma SortMembers(rows: seq<Row>, r: Row)
    ensures r in StableSort(rows) <==> r in rows
  {
    SortPermutes(rows);
    assert r in StableSort(rows) <==> r in multiset(StableSort(rows));
  }

  /**
   * The docstring says malformed data never crashes the live engine. A fetch fails exactly when the
   * answer mixes numbers and texts as times, or holds a row that breaks - anywhere, however many good
   * rows stand around it.
   */
  lemma FetchFailsExactlyWhen(lib: Library, rows: seq<Row>, field: Option<string>)
    ensures Fetch(lib, rows, field).None? <==>
            || (exists a, b :: a in rows && b in rows && a.collectedAt.Num? && b.collectedAt.Str?)
            || (exists r :: r in rows && Breaks(lib, r, field))
  {
    hide StableSort, Breaks;
    EventsExactlyWhen(lib, StableSort(rows), field);
    forall r ensures r in StableSort(rows) <==> r in rows { SortMembers(rows, r); }
    if !Sortable(rows) {
      var i, j :| 0 <= i < |rows| && 0 <= j < |rows| && rows[i].collectedAt.Num? != rows[j].collectedAt.Num?;
      assert rows[i] in rows && rows[j] in rows;
    }
  }

  /** One row that breaks the promise: counters that are a number. */
  lemma NumberForCountersCrashes(lib: Library, supi: string, at: Key)
    requires supi != ""
    ensures var row := Row(Text(supi), Object(map["pm_counters" := Number(5.0)]), at);
            RowToEvent(lib, row, 0, None) == Crashed && Fetch(lib, [row], None) == None
  {
    var payload := Object(map["pm_counters" := Number(5.0)]);
    var row := Row(Text(supi), payload, at);
    assert "pm_counters" in payload.fields.Keys;
    assert RowToEvent(lib, row, 0, None) == Crashed;
    FetchFailsExactlyWhen(lib, [row], None);
    assert row in [row];
  }

  /** A grown export: the events already known, unchanged, and then only higher indices. */
  lemma GrowthKeepsEvents(lib: Library, was: seq<Row>, rows: seq<Row>, field: Option<string>)
    returns (more: seq<WindowEvent>)
    requires Extends(was, rows) && Fetch(lib, was, field).Some? && Fetch(lib, rows, field).Some?
    ensures Fetch(lib, rows, field).value == Fetch(lib, was, field).value + more
    ensures Increasing(Fetch(lib, was, field).value, 0, |was|) && Increasing(more, |was|, |rows|)
  {
    hide StableSort, EventsOf, Increasing, Sortable;
    var later := StableSort(rows)[|StableSort(was)|..];
    assert StableSort(rows) == StableSort(was) + later;
    more := EventsAppend(lib, StableSort(was), later, field);
    EventsIncrease(lib, StableSort(was), field);
    StableSortMeaning(was, Num(0.0));
    StableSortMeaning(rows, Num(0.0));
  }
}
