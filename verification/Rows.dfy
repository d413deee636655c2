/**
 * The row-level statements the operations are made of: keyed SELECTs, INSERT OR IGNORE with its
 * foreign-key check, and DELETE with its cascade. Each keeps every constraint, and each is stated by
 * what it does to `Flags`.
 */
module Rows {
  import opened Wrappers
  import opened FirstWins
  import opened Keyed
  import opened Schema

  // ── SELECT id ... WHERE <unique key> ─────────────────────────────────────
  // Under the UNIQUE constraint at most one row matches; the least id makes the functions total.

  function FindUe(ue: map<int, UeRow>, imsi: string): (r: Option<int>)
    ensures r.Some? ==> r.value in ue && ue[r.value].imsi == imsi
    ensures UniqueImsi(ue) ==> forall i :: i in ue && ue[i].imsi == imsi ==> r == Some(i)
  {
    if i :| i in ue && ue[i].imsi == imsi &&
            forall j :: j in ue && ue[j].imsi == imsi ==> i <= j
    then Some(i) else None
  }

  function FindAuth(auth: map<int, AuthRow>, u: int): (r: Option<int>)
    ensures r.Some? ==> r.value in auth && auth[r.value].ue == u
    ensures UniqueAuth(auth) ==> forall i :: i in auth && auth[i].ue == u ==> r == Some(i)
  {
    if i :| i in auth && auth[i].ue == u &&
            forall j :: j in auth && auth[j].ue == u ==> i <= j
    then Some(i) else None
  }

  function FindSlice(slices: map<int, SliceRow>, u: int, n: int): (r: Option<int>)
    ensures r.Some? ==> r.value in slices && slices[r.value].ue == u && slices[r.value].nssai == n
    ensures UniqueSlices(slices) ==> forall i :: i in slices && slices[i].ue == u && slices[i].nssai == n ==>
            r == Some(i)
  {
    if i :| i in slices && slices[i].ue == u && slices[i].nssai == n &&
            forall j :: j in slices && slices[j].ue == u && slices[j].nssai == n ==> i <= j
    then Some(i) else None
  }

  function FindDnn(dnns: map<int, DnnRow>, s: int, dnn: string): (r: Option<int>)
    ensures r.Some? ==> r.value in dnns && dnns[r.value].slice == s && dnns[r.value].dnn == dnn
    ensures UniqueDnns(dnns) ==> forall i :: i in dnns && dnns[i].slice == s && dnns[i].dnn == dnn ==> r == Some(i)
  {
    if i :| i in dnns && dnns[i].slice == s && dnns[i].dnn == dnn &&
            forall j :: j in dnns && dnns[j].slice == s && dnns[j].dnn == dnn ==> i <= j
    then Some(i) else None
  }

  function FindBinding(bindings: map<int, BindingRow>, d: int, service: string): (r: Option<int>)
    ensures r.Some? ==> r.value in bindings && bindings[r.value].sliceDnn == d && bindings[r.value].service == service
    ensures UniqueBindings(bindings) ==>
              forall i :: i in bindings && bindings[i].sliceDnn == d && bindings[i].service == service ==> r == Some(i)
  {
    if i :| i in bindings && bindings[i].sliceDnn == d && bindings[i].service == service &&
            forall j :: j in bindings && bindings[j].sliceDnn == d && bindings[j].service == service ==> i <= j
    then Some(i) else None
  }

  function FindCatalog(catalog: map<int, CatalogRow>, sst: int, sd: string): (r: Option<int>)
    ensures r.Some? ==> r.value in catalog && catalog[r.value].sst == sst && catalog[r.value].sd.GetOr("") == sd
    ensures UniqueCatalog(catalog) ==>
              forall i :: i in catalog && catalog[i].sst == sst && catalog[i].sd.GetOr("") == sd ==> r == Some(i)
  {
    if i :| i in catalog && catalog[i].sst == sst && catalog[i].sd.GetOr("") == sd &&
            forall j :: j in catalog && catalog[j].sst == sst && catalog[j].sd.GetOr("") == sd ==> i <= j
    then Some(i) else None
  }

  // ── Reading Flags back as rows ───────────────────────────────────────────

  lemma FlagOfSlice(s: map<int, SliceRow>, d: map<int, DnnRow>, b: map<int, BindingRow>, u: int, n: int)
    requires Linked(s, d, b)
    ensures (u, SlicePath(n)) in TreeFlags(s, d, b) <==> FindSlice(s, u, n).Some?
    ensures FindSlice(s, u, n).Some? ==> TreeFlags(s, d, b)[(u, SlicePath(n))] == s[FindSlice(s, u, n).value].isDefault
  {
    var rows := SliceEntries(s);
    var found := FindSlice(s, u, n);
    if found.Some? {
      assert rows[found.value].0 in Index(rows);
    }
  }

  lemma FlagOfDnn(s: map<int, SliceRow>, d: map<int, DnnRow>, b: map<int, BindingRow>, i: int, dnn: string)
    requires Linked(s, d, b) && i in s
    ensures (s[i].ue, DnnPath(s[i].nssai, dnn)) in TreeFlags(s, d, b) <==> FindDnn(d, i, dnn).Some?
    ensures FindDnn(d, i, dnn).Some? ==>
              TreeFlags(s, d, b)[(s[i].ue, DnnPath(s[i].nssai, dnn))] == d[FindDnn(d, i, dnn).value].isDefault
  {
    var rows := DnnEntries(s, d);
    var found := FindDnn(d, i, dnn);
    if found.Some? {
      assert rows[found.value].0 in Index(rows);
    }
  }

  lemma FlagOfBinding(s: map<int, SliceRow>, d: map<int, DnnRow>, b: map<int, BindingRow>, i: int, service: string)
    requires Linked(s, d, b) && i in d
    ensures var key := (s[d[i].slice].ue, ServicePath(s[d[i].slice].nssai, d[i].dnn, service));
            && (key in TreeFlags(s, d, b) <==> FindBinding(b, i, service).Some?)
            && (FindBinding(b, i, service).Some? ==>
                  TreeFlags(s, d, b)[key] == b[FindBinding(b, i, service).value].isDefault)
  {
    var rows := BindingEntries(s, d, b);
    var found := FindBinding(b, i, service);
    if found.Some? {
      assert rows[found.value].0 in Index(rows);
    }
  }

  lemma UnionUpdateLeft(x: Flagging, y: Flagging, k: (int, Path), v: bool)
    requires k !in y
    ensures x[k := v] + y == (x + y)[k := v]
  {
  }

  lemma UnionUpdateRight(x: Flagging, y: Flagging, k: (int, Path), v: bool)
    ensures x + y[k := v] == (x + y)[k := v]
  {
  }

  // ── INSERT ───────────────────────────────────────────────────────────────

  lemma SliceFlagsAdd(s: map<int, SliceRow>, id: int, row: SliceRow)
    requires UniqueSlices(s) && id !in s && FindSlice(s, row.ue, row.nssai).None?
    ensures UniqueSlices(s[id := row])
    ensures SliceFlags(s[id := row]) == SliceFlags(s)[SliceKey(row) := row.isDefault]
  {
    assert SliceEntries(s[id := row]) == SliceEntries(s)[id := (SliceKey(row), row.isDefault)];
    IndexInsert(SliceEntries(s), id, SliceKey(row), row.isDefault);
  }

  /** Rows are seen under the same path whatever rows are added above them. */
  lemma DnnEntriesKept(s: map<int, SliceRow>, s': map<int, SliceRow>, d: map<int, DnnRow>)
    requires DnnRefs(s, d) && forall i :: i in s ==> i in s' && s'[i] == s[i]
    ensures DnnRefs(s', d) && DnnEntries(s', d) == DnnEntries(s, d)
  {
    var m, m' := DnnEntries(s, d), DnnEntries(s', d);
    forall i | i in d
      ensures m'[i] == m[i]
    {
      assert s'[d[i].slice] == s[d[i].slice];
    }
  }

  lemma BindingEntriesKept(s: map<int, SliceRow>, s': map<int, SliceRow>, d: map<int, DnnRow>, d': map<int, DnnRow>,
                           b: map<int, BindingRow>)
    requires DnnRefs(s, d) && DnnRefs(s', d') && BindingRefs(d, b)
    requires forall i :: i in s ==> i in s' && s'[i] == s[i]
    requires forall i :: i in d ==> i in d' && d'[i] == d[i]
    ensures BindingRefs(d', b) && BindingEntries(s', d', b) == BindingEntries(s, d, b)
  {
    var m, m' := BindingEntries(s, d, b), BindingEntries(s', d', b);
    forall i | i in b
      ensures m'[i] == m[i]
    {
      assert d'[b[i].sliceDnn] == d[b[i].sliceDnn];
      assert s'[d[b[i].sliceDnn].slice] == s[d[b[i].sliceDnn].slice];
    }
  }

  lemma TreeFlagsAddSlice(s: map<int, SliceRow>, d: map<int, DnnRow>, b: map<int, BindingRow>, id: int, row: SliceRow)
    requires Linked(s, d, b) && id !in s && FindSlice(s, row.ue, row.nssai).None?
    ensures Linked(s[id := row], d, b)
    ensures TreeFlags(s[id := row], d, b) == TreeFlags(s, d, b)[SliceKey(row) := row.isDefault]
  {
    SliceFlagsAdd(s, id, row);
    DnnEntriesKept(s, s[id := row], d);
    BindingEntriesKept(s, s[id := row], d, d, b);
    UnionUpdateLeft(SliceFlags(s), DnnFlags(s, d), SliceKey(row), row.isDefault);
    UnionUpdateLeft(SliceFlags(s) + DnnFlags(s, d), BindingFlags(s, d, b), SliceKey(row), row.isDefault);
  }

  lemma DnnFlagsAdd(s: map<int, SliceRow>, d: map<int, DnnRow>, id: int, row: DnnRow)
    requires UniqueSlices(s) && UniqueDnns(d) && DnnRefs(s, d)
    requires id !in d && row.slice in s && FindDnn(d, row.slice, row.dnn).None?
    ensures UniqueDnns(d[id := row])
    ensures DnnFlags(s, d[id := row]) == DnnFlags(s, d)[DnnKey(s[row.slice], row) := row.isDefault]
  {
    assert DnnEntries(s, d[id := row]) == DnnEntries(s, d)[id := (DnnKey(s[row.slice], row), row.isDefault)];
    IndexInsert(DnnEntries(s, d), id, DnnKey(s[row.slice], row), row.isDefault);
  }

  lemma TreeFlagsAddDnn(s: map<int, SliceRow>, d: map<int, DnnRow>, b: map<int, BindingRow>, id: int, row: DnnRow)
    requires Linked(s, d, b) && id !in d && row.slice in s && FindDnn(d, row.slice, row.dnn).None?
    ensures Linked(s, d[id := row], b)
    ensures TreeFlags(s, d[id := row], b) == TreeFlags(s, d, b)[DnnKey(s[row.slice], row) := row.isDefault]
  {
    DnnFlagsAdd(s, d, id, row);
    BindingEntriesKept(s, s, d, d[id := row], b);
    UnionUpdateRight(SliceFlags(s), DnnFlags(s, d), DnnKey(s[row.slice], row), row.isDefault);
    UnionUpdateLeft(SliceFlags(s) + DnnFlags(s, d), BindingFlags(s, d, b), DnnKey(s[row.slice], row), row.isDefault);
  }

  lemma BindingFlagsAdd(s: map<int, SliceRow>, d: map<int, DnnRow>, b: map<int, BindingRow>, id: int, row: BindingRow)
    requires Linked(s, d, b) && id !in b && row.sliceDnn in d && FindBinding(b, row.sliceDnn, row.service).None?
    ensures Linked(s, d, b[id := row])
    ensures var key := BindingKey(s[d[row.sliceDnn].slice], d[row.sliceDnn], row);
            BindingFlags(s, d, b[id := row]) == BindingFlags(s, d, b)[key := row.isDefault]
  {
    var key := BindingKey(s[d[row.sliceDnn].slice], d[row.sliceDnn], row);
    assert BindingEntries(s, d, b[id := row]) == BindingEntries(s, d, b)[id := (key, row.isDefault)];
    IndexInsert(BindingEntries(s, d, b), id, key, row.isDefault);
  }

  lemma TreeFlagsAddBinding(s: map<int, SliceRow>, d: map<int, DnnRow>, b: map<int, BindingRow>, id: int,
                            row: BindingRow)
    requires Linked(s, d, b) && id !in b && row.sliceDnn in d && FindBinding(b, row.sliceDnn, row.service).None?
    ensures Linked(s, d, b[id := row])
    ensures var key := BindingKey(s[d[row.sliceDnn].slice], d[row.sliceDnn], row);
            TreeFlags(s, d, b[id := row]) == TreeFlags(s, d, b)[key := row.isDefault]
  {
    var key := BindingKey(s[d[row.sliceDnn].slice], d[row.sliceDnn], row);
    BindingFlagsAdd(s, d, b, id, row);
    UnionUpdateRight(SliceFlags(s) + DnnFlags(s, d), BindingFlags(s, d, b), key, row.isDefault);
  }

  // ── INSERT OR IGNORE ─────────────────────────────────────────────────────

  /** The tables a path refers to are untouched. */
  predicate SameCatalogs(a: Db, b: Db) {
    a.catalog == b.catalog && a.apns == b.apns && a.services == b.services
  }

  /** The tables outside the subscription forest are untouched. */
  predicate SameAccounts(a: Db, b: Db) {
    a.ue == b.ue && a.auth == b.auth && SameCatalogs(a, b)
  }

  /** INSERT OR IGNORE INTO ue_subscribed_nssai; a foreign-key failure is not ignored. */
  function PutSlice(db: Db, u: int, n: int, flag: bool): Result<Db, Error> {
    if FindSlice(db.slices.rows, u, n).Some? then Ok(db)
    else if u !in db.ue.rows || n !in db.catalog.rows then Err(ForeignKey)
    else Ok(db.(slices := db.slices.Insert(SliceRow(u, n, flag))))
  }

  /** INSERT OR IGNORE INTO ue_slice_dnn. */
  function PutDnn(db: Db, s: int, dnn: string, flag: bool): Result<Db, Error> {
    if FindDnn(db.dnns.rows, s, dnn).Some? then Ok(db)
    else if s !in db.slices.rows || dnn !in db.apns then Err(ForeignKey)
    else Ok(db.(dnns := db.dnns.Insert(DnnRow(s, dnn, flag))))
  }

  /** INSERT OR IGNORE INTO service_bindings. */
  function PutBinding(db: Db, d: int, service: string, flag: bool): Result<Db, Error> {
    if FindBinding(db.bindings.rows, d, service).Some? then Ok(db)
    else if d !in db.dnns.rows || service !in db.services then Err(ForeignKey)
    else Ok(db.(bindings := db.bindings.Insert(BindingRow(d, service, flag))))
  }

  lemma PutSliceMeaning(db: Db, u: int, n: int, flag: bool)
    requires Integrity(db)
    ensures var r := PutSlice(db, u, n, flag);
            && (r.Err? <==> !(u in db.ue.rows && n in db.catalog.rows))
            && (r.Ok? ==> Integrity(r.value) && SameAccounts(db, r.value))
            && (r.Ok? ==> Flags(r.value) == Put(Flags(db), (u, SlicePath(n)), flag))
            && (r.Ok? ==> FindSlice(r.value.slices.rows, u, n).Some?)
  {
    hide TreeFlags;
    FlagOfSlice(db.slices.rows, db.dnns.rows, db.bindings.rows, u, n);
    var r := PutSlice(db, u, n, flag);
    if FindSlice(db.slices.rows, u, n).None? && r.Ok? {
      TreeFlagsAddSlice(db.slices.rows, db.dnns.rows, db.bindings.rows, db.slices.last + 1, SliceRow(u, n, flag));
      assert r.value.slices.rows[db.slices.last + 1] == SliceRow(u, n, flag);
    }
  }

  lemma PutDnnMeaning(db: Db, s: int, dnn: string, flag: bool)
    requires Integrity(db) && s in db.slices.rows
    ensures var r := PutDnn(db, s, dnn, flag);
            var key := (db.slices.rows[s].ue, DnnPath(db.slices.rows[s].nssai, dnn));
            && (r.Err? <==> dnn !in db.apns)
            && (r.Ok? ==> Integrity(r.value) && SameAccounts(db, r.value) && r.value.slices == db.slices)
            && (r.Ok? ==> Flags(r.value) == Put(Flags(db), key, flag))
            && (r.Ok? ==> FindDnn(r.value.dnns.rows, s, dnn).Some?)
  {
    hide TreeFlags;
    FlagOfDnn(db.slices.rows, db.dnns.rows, db.bindings.rows, s, dnn);
    var r := PutDnn(db, s, dnn, flag);
    if FindDnn(db.dnns.rows, s, dnn).None? && r.Ok? {
      TreeFlagsAddDnn(db.slices.rows, db.dnns.rows, db.bindings.rows, db.dnns.last + 1, DnnRow(s, dnn, flag));
      assert r.value.dnns.rows[db.dnns.last + 1] == DnnRow(s, dnn, flag);
    }
  }

  lemma PutBindingMeaning(db: Db, d: int, service: string, flag: bool)
    requires Integrity(db) && d in db.dnns.rows
    ensures var r := PutBinding(db, d, service, flag);
            var s := db.slices.rows[db.dnns.rows[d].slice];
            var key := (s.ue, ServicePath(s.nssai, db.dnns.rows[d].dnn, service));
            && (r.Err? <==> service !in db.services)
            && (r.Ok? ==> Integrity(r.value) && SameAccounts(db, r.value))
            && (r.Ok? ==> r.value.slices == db.slices && r.value.dnns == db.dnns)
            && (r.Ok? ==> Flags(r.value) == Put(Flags(db), key, flag))
  {
    hide TreeFlags;
    FlagOfBinding(db.slices.rows, db.dnns.rows, db.bindings.rows, d, service);
    var r := PutBinding(db, d, service, flag);
    if FindBinding(db.bindings.rows, d, service).None? && r.Ok? {
      var row := BindingRow(d, service, flag);
      TreeFlagsAddBinding(db.slices.rows, db.dnns.rows, db.bindings.rows, db.bindings.last + 1, row);
    }
  }

  // ── A run of inserts for one UE ──────────────────────────────────────────

  /** Each path of ue u keeps its flag if it has one, else gets that of its first item. */
  function PutTree(m: Flagging, u: int, items: seq<(Path, bool)>): Flagging
    decreases |items|
  {
    if items == [] then m else PutTree(Put(m, (u, items[0].0), items[0].1), u, items[1..])
  }

  lemma {:induction false} PutTreeConcat(m: Flagging, u: int, a: seq<(Path, bool)>, b: seq<(Path, bool)>)
    ensures PutTree(m, u, a + b) == PutTree(PutTree(m, u, a), u, b)
    decreases |a|
  {
    if a == [] {
      assert a + b == b;
    } else {
      assert (a + b)[1..] == a[1..] + b;
      PutTreeConcat(Put(m, (u, a[0].0), a[0].1), u, a[1..], b);
    }
  }

  // ── DELETE ... (ON DELETE CASCADE) ───────────────────────────────────────

  /** The (ue, nssai) pairs of the slice rows in ids. */
  ghost function Owners(s: map<int, SliceRow>, ids: set<int>): set<(int, int)> {
    set i | i in ids && i in s :: (s[i].ue, s[i].nssai)
  }

  /** The tree keys at or below those slices. */
  ghost function Under(m: Flagging, owners: set<(int, int)>): set<(int, Path)> {
    set k | k in m && (k.0, k.1.nssai) in owners
  }

  /** The tree keys strictly below those slices. */
  ghost function Below(m: Flagging, owners: set<(int, int)>): set<(int, Path)> {
    set k | k in m && (k.0, k.1.nssai) in owners && !k.1.SlicePath?
  }

  /** DELETE FROM ue_slice_dnn WHERE subscribed_nssai_id IN ids, with its cascade into service_bindings. */
  function DeleteDnnsOf(db: Db, ids: set<int>): Db {
    var d := set i | i in db.dnns.rows && db.dnns.rows[i].slice in ids;
    var b := set i | i in db.bindings.rows && db.bindings.rows[i].sliceDnn in d;
    db.(dnns := db.dnns.Delete(d), bindings := db.bindings.Delete(b))
  }

  /** DELETE FROM ue_subscribed_nssai WHERE id IN ids, with its cascade. */
  function DeleteSlices(db: Db, ids: set<int>): Db {
    var db1 := DeleteDnnsOf(db, ids);
    db1.(slices := db1.slices.Delete(ids))
  }

  lemma DnnFlagsDrop(s: map<int, SliceRow>, d: map<int, DnnRow>, d': map<int, DnnRow>, ids: set<int>)
    requires UniqueSlices(s) && UniqueDnns(d) && DnnRefs(s, d)
    requires d' == map i | i in d && d[i].slice !in ids :: d[i]
    ensures DnnFlags(s, d') == DnnFlags(s, d) - Below(DnnFlags(s, d), Owners(s, ids))
  {
    var e, e', gone := DnnEntries(s, d), DnnEntries(s, d'), Below(DnnFlags(s, d), Owners(s, ids));
    forall i | i in d
      ensures i in e' <==> e[i].0 !in gone
      ensures i in e' ==> e'[i] == e[i]
    {
      assert e[i].0 in DnnFlags(s, d);
      if d[i].slice in ids {
        assert (s[d[i].slice].ue, s[d[i].slice].nssai) in Owners(s, ids);
      }
    }
    IndexRestrict(e, e', gone);
  }

  lemma BindingFlagsDrop(s: map<int, SliceRow>, d: map<int, DnnRow>, d': map<int, DnnRow>,
                         b: map<int, BindingRow>, b': map<int, BindingRow>, ids: set<int>)
    requires Linked(s, d, b)
    requires d' == map i | i in d && d[i].slice !in ids :: d[i]
    requires b' == map i | i in b && d[b[i].sliceDnn].slice !in ids :: b[i]
    ensures Linked(s, d', b')
    ensures BindingFlags(s, d', b') == BindingFlags(s, d, b) - Below(BindingFlags(s, d, b), Owners(s, ids))
  {
    LinkedDrop(s, d, d', b, b', ids);
    BindingRowsDrop(s, d, d', b, b', ids);
    hide BindingEntries, Owners, Below, Index, IsIndex, Injective, UniqueSlices, UniqueDnns, UniqueBindings;
    forall i | i in b {
      BindingGone(s, d, b, ids, i);
    }
    BindingsInjective(s, d, b);
    RestrictBindings(BindingEntries(s, d, b), BindingEntries(s, d', b'), Below(BindingFlags(s, d, b), Owners(s, ids)));
  }

  lemma BindingsInjective(s: map<int, SliceRow>, d: map<int, DnnRow>, b: map<int, BindingRow>)
    requires Linked(s, d, b)
    ensures Injective(BindingEntries(s, d, b)) && BindingEntries(s, d, b).Keys == b.Keys
  {
  }

  lemma BindingRowsDrop(s: map<int, SliceRow>, d: map<int, DnnRow>, d': map<int, DnnRow>,
                        b: map<int, BindingRow>, b': map<int, BindingRow>, ids: set<int>)
    requires Linked(s, d, b) && Linked(s, d', b')
    requires d' == map i | i in d && d[i].slice !in ids :: d[i]
    requires b' == map i | i in b && d[b[i].sliceDnn].slice !in ids :: b[i]
    ensures forall i :: i in BindingEntries(s, d', b') <==> i in b && d[b[i].sliceDnn].slice !in ids
    ensures forall i :: i in BindingEntries(s, d', b') ==> BindingEntries(s, d', b')[i] == BindingEntries(s, d, b)[i]
  {
    hide UniqueSlices, UniqueDnns, UniqueBindings;
  }

  lemma RestrictBindings(e: map<int, ((int, Path), bool)>, e': map<int, ((int, Path), bool)>, gone: set<(int, Path)>)
    requires Injective(e) && (forall i :: i in e' ==> i in e)
    requires forall i :: i in e ==> (i in e' <==> e[i].0 !in gone) && (i in e' ==> e'[i] == e[i])
    ensures Injective(e') && Index(e') == Index(e) - gone
  {
    IndexRestrict(e, e', gone);
  }

  lemma LinkedDrop(s: map<int, SliceRow>, d: map<int, DnnRow>, d': map<int, DnnRow>,
                   b: map<int, BindingRow>, b': map<int, BindingRow>, ids: set<int>)
    requires Linked(s, d, b)
    requires d' == map i | i in d && d[i].slice !in ids :: d[i]
    requires b' == map i | i in b && d[b[i].sliceDnn].slice !in ids :: b[i]
    ensures Linked(s, d', b')
  {
  }

  /** A binding's path goes exactly when its slice row does. */
  lemma BindingGone(s: map<int, SliceRow>, d: map<int, DnnRow>, b: map<int, BindingRow>, ids: set<int>, i: int)
    requires Linked(s, d, b) && i in b
    ensures BindingEntries(s, d, b)[i].0 in Below(BindingFlags(s, d, b), Owners(s, ids)) <==>
            d[b[i].sliceDnn].slice in ids
  {
    var slice := d[b[i].sliceDnn].slice;
    assert BindingEntries(s, d, b)[i].0 in BindingFlags(s, d, b);
    if slice in ids {
      assert (s[slice].ue, s[slice].nssai) in Owners(s, ids);
    }
  }

  lemma SliceFlagsDrop(s: map<int, SliceRow>, ids: set<int>)
    requires UniqueSlices(s)
    ensures UniqueSlices(s - ids)
    ensures SliceFlags(s - ids) == SliceFlags(s) - Under(SliceFlags(s), Owners(s, ids))
  {
    var e, e', gone := SliceEntries(s), SliceEntries(s - ids), Under(SliceFlags(s), Owners(s, ids));
    forall i | i in s
      ensures i in e' <==> e[i].0 !in gone
    {
      assert e[i].0 in SliceFlags(s);
      if i in ids {
        assert (s[i].ue, s[i].nssai) in Owners(s, ids);
      }
    }
    IndexRestrict(e, e', gone);
  }

  lemma DeleteDnnsOfRows(db: Db, ids: set<int>)
    requires Integrity(db)
    ensures var db' := DeleteDnnsOf(db, ids);
            var d, b := db.dnns.rows, db.bindings.rows;
            && db'.dnns.rows == (map i | i in d && d[i].slice !in ids :: d[i])
            && db'.bindings.rows == (map i | i in b && d[b[i].sliceDnn].slice !in ids :: b[i])
            && Integrity(db')
  {
    var db' := DeleteDnnsOf(db, ids);
    var d, b := db.dnns.rows, db.bindings.rows;
    assert forall i :: i in db'.dnns.rows <==> i in d && d[i].slice !in ids;
    assert forall i :: i in db'.bindings.rows <==> i in b && d[b[i].sliceDnn].slice !in ids;
  }

  lemma DeleteDnnsOfMeaning(db: Db, ids: set<int>)
    requires Integrity(db)
    ensures var db' := DeleteDnnsOf(db, ids);
            && Integrity(db') && SameAccounts(db, db') && db'.slices == db.slices
            && Flags(db') == Flags(db) - Below(Flags(db), Owners(db.slices.rows, ids))
  {
    var db' := DeleteDnnsOf(db, ids);
    var s, d, b := db.slices.rows, db.dnns.rows, db.bindings.rows;
    DeleteDnnsOfRows(db, ids);
    DnnFlagsDrop(s, d, db'.dnns.rows, ids);
    BindingFlagsDrop(s, d, db'.dnns.rows, b, db'.bindings.rows, ids);
    UnionBelow(SliceFlags(s), DnnFlags(s, d), BindingFlags(s, d, b), Owners(s, ids));
  }

  lemma DeleteSlicesMeaning(db: Db, ids: set<int>)
    requires Integrity(db)
    ensures var db' := DeleteSlices(db, ids);
            && Integrity(db') && SameAccounts(db, db')
            && Flags(db') == Flags(db) - Under(Flags(db), Owners(db.slices.rows, ids))
  {
    var db1, db' := DeleteDnnsOf(db, ids), DeleteSlices(db, ids);
    var s, d, b := db.slices.rows, db.dnns.rows, db.bindings.rows;
    DeleteDnnsOfRows(db, ids);
    DnnFlagsDrop(s, d, db1.dnns.rows, ids);
    BindingFlagsDrop(s, d, db1.dnns.rows, b, db1.bindings.rows, ids);
    SliceFlagsDrop(s, ids);
    LowerFlagsKept(s - ids, s, db1.dnns.rows, db1.bindings.rows);
    UnionUnder(SliceFlags(s), DnnFlags(s, d), BindingFlags(s, d, b), Owners(s, ids));
  }

  lemma LowerFlagsKept(s: map<int, SliceRow>, s': map<int, SliceRow>, d: map<int, DnnRow>, b: map<int, BindingRow>)
    requires Linked(s, d, b) && Linked(s', d, b)
    requires forall i :: i in s ==> i in s' && s'[i] == s[i]
    ensures DnnFlags(s, d) == DnnFlags(s', d)
    ensures BindingFlags(s, d, b) == BindingFlags(s', d, b)
  {
    hide DnnEntries, BindingEntries;
    DnnEntriesKept(s, s', d);
    BindingEntriesKept(s, s', d, d, b);
  }

  lemma UnionBelow(x: Flagging, y: Flagging, z: Flagging, owners: set<(int, int)>)
    requires forall k :: k in x ==> k.1.SlicePath?
    ensures x + (y - Below(y, owners)) + (z - Below(z, owners)) == (x + y + z) - Below(x + y + z, owners)
  {
  }

  lemma UnionUnder(x: Flagging, y: Flagging, z: Flagging, owners: set<(int, int)>)
    requires forall k :: k in x ==> k.1.SlicePath?
    requires forall k :: k in y ==> !k.1.SlicePath?
    requires forall k :: k in z ==> !k.1.SlicePath?
    ensures (x - Under(x, owners)) + (y - Below(y, owners)) + (z - Below(z, owners)) ==
            (x + y + z) - Under(x + y + z, owners)
  {
  }
}
