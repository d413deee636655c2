/**
 * The loops of package crud, each over a transaction's working copy of the tables and each proved to
 * compute what the recursive definitions say.
 */
module Loops {
  import opened Wrappers
  import opened Schema
  import opened Rows
  import opened SubscriptionTree
  import opened Ordering
  import opened Accounts
  import TreeGet
  import NssaiSave
  import DnnSave
  import Clone
  import Bulk
  import TreeSave
  import Text

  // ── Loops over a transaction's copy ──────────────────────────────────────

  /** Counts so far, then the rest of the walk. */
  function Continue(counts: Counts, rest: Result<Saved, Error>): Result<Saved, Error> {
    match rest
    case Ok(saved) => Ok(Saved(saved.db, Plus(counts, saved.counts)))
    case Err(e) => Err(e)
  }

  lemma ContinueSteps(a: Counts, b: Counts, rest: Result<Saved, Error>)
    ensures Continue(a, Continue(b, rest)) == Continue(Plus(a, b), rest)
    ensures Continue(Counts(0, 0, 0), rest) == rest
  {
  }

  lemma ContinueEnds(counts: Counts)
    ensures forall tx :: Continue(counts, Ok(Saved(tx, Counts(0, 0, 0)))) == Ok(Saved(tx, counts))
    ensures forall e :: Continue(counts, Err(e)) == Err(e)
  {
  }

  /** An empty rest changes nothing. */
  lemma EmptyWalks(tx: Db, id: int)
    ensures SaveServices(tx, id, []) == Ok(Saved(tx, Counts(0, 0, 0)))
    ensures SaveDnns(tx, id, []) == Ok(Saved(tx, Counts(0, 0, 0)))
    ensures SaveSlices(tx, id, []) == Ok(Saved(tx, Counts(0, 0, 0)))
  {
  }

  lemma ServicesFrom(tx: Db, d: int, services: seq<TreeService>, i: nat)
    requires i < |services|
    ensures SaveServices(tx, d, services[i..]) ==
            if services[i].service == "" then SaveServices(tx, d, services[i + 1..])
            else match PutBinding(tx, d, services[i].service, services[i].isDefault)
                 case Err(e) => Err(e)
                 case Ok(tx1) => Continue(Counts(0, 0, 1), SaveServices(tx1, d, services[i + 1..]))
  {
    assert services[i..][1..] == services[i + 1..];
  }

  lemma DnnsFrom(tx: Db, s: int, dnns: seq<TreeDnn>, i: nat)
    requires i < |dnns|
    ensures SaveDnns(tx, s, dnns[i..]) ==
            if dnns[i].dnn == "" then SaveDnns(tx, s, dnns[i + 1..])
            else match SaveDnn(tx, s, dnns[i])
                 case Err(e) => Err(e)
                 case Ok(here) => Continue(here.counts, SaveDnns(here.db, s, dnns[i + 1..]))
  {
    assert dnns[i..][1..] == dnns[i + 1..];
  }

  lemma SlicesFrom(tx: Db, u: int, slices: seq<TreeSlice>, i: nat)
    requires i < |slices|
    ensures SaveSlices(tx, u, slices[i..]) ==
            match SaveSlice(tx, u, slices[i])
            case Err(e) => Err(e)
            case Ok(here) => Continue(here.counts, SaveSlices(here.db, u, slices[i + 1..]))
  {
    assert slices[i..][1..] == slices[i + 1..];
  }

  method InsertServices(db: Db, d: int, services: seq<TreeService>) returns (r: Result<Saved, Error>)
    ensures r == SaveServices(db, d, services)
  {
    hide SaveServices, PutBinding, Plus, Continue;
    var tx, counts := db, Counts(0, 0, 0);
    ContinueSteps(counts, counts, SaveServices(db, d, services));
    assert services[0..] == services;
    for i := 0 to |services|
      invariant SaveServices(db, d, services) == Continue(counts, SaveServices(tx, d, services[i..]))
    {
      ServicesFrom(tx, d, services, i);
      ContinueEnds(counts);
      var sv := services[i];
      if sv.service != "" {
        var inserted := PutBinding(tx, d, sv.service, sv.isDefault);
        if inserted.Err? {
          return Err(inserted.error);
        }
        ContinueSteps(counts, Counts(0, 0, 1), SaveServices(inserted.value, d, services[i + 1..]));
        tx, counts := inserted.value, Plus(counts, Counts(0, 0, 1));
      }
    }
    assert services[|services|..] == [];
    EmptyWalks(tx, d);
    ContinueEnds(counts);
    return Ok(Saved(tx, counts));
  }

  method InsertDnn(db: Db, s: int, dn: TreeDnn) returns (r: Result<Saved, Error>)
    ensures r == SaveDnn(db, s, dn)
  {
    var inserted := PutDnn(db, s, dn.dnn, dn.isDefault);
    if inserted.Err? {
      return Err(inserted.error);
    }
    var found := FindDnn(inserted.value.dnns.rows, s, dn.dnn);
    if found.None? {
      return Err(Missing("ue_slice_dnn"));
    }
    var below := InsertServices(inserted.value, found.value, dn.services);
    return Continue(Counts(0, 1, 0), below);
  }

  method InsertDnns(db: Db, s: int, dnns: seq<TreeDnn>) returns (r: Result<Saved, Error>)
    ensures r == SaveDnns(db, s, dnns)
  {
    hide SaveDnns, SaveDnn, Plus, Continue;
    var tx, counts := db, Counts(0, 0, 0);
    ContinueSteps(counts, counts, SaveDnns(db, s, dnns));
    assert dnns[0..] == dnns;
    for i := 0 to |dnns|
      invariant SaveDnns(db, s, dnns) == Continue(counts, SaveDnns(tx, s, dnns[i..]))
    {
      DnnsFrom(tx, s, dnns, i);
      ContinueEnds(counts);
      if dnns[i].dnn != "" {
        var here := InsertDnn(tx, s, dnns[i]);
        if here.Err? {
          return here;
        }
        ContinueSteps(counts, here.value.counts, SaveDnns(here.value.db, s, dnns[i + 1..]));
        tx, counts := here.value.db, Plus(counts, here.value.counts);
      }
    }
    assert dnns[|dnns|..] == [];
    EmptyWalks(tx, s);
    ContinueEnds(counts);
    return Ok(Saved(tx, counts));
  }

  method InsertSlice(db: Db, u: int, sl: TreeSlice) returns (r: Result<Saved, Error>)
    ensures r == SaveSlice(db, u, sl)
  {
    var tx, n := db, sl.nssaiId;
    if n == 0 {
      var created := GetOrCreateNssai(tx, sl.sst, sl.sd);
      tx, n := created.0, created.1;
    }
    var inserted := PutSlice(tx, u, n, sl.isDefault);
    if inserted.Err? {
      return Err(inserted.error);
    }
    var found := FindSlice(inserted.value.slices.rows, u, n);
    if found.None? {
      return Err(Missing("ue_subscribed_nssai"));
    }
    var below := InsertDnns(inserted.value, found.value, sl.dnns);
    return Continue(Counts(1, 0, 0), below);
  }

  method InsertSlices(db: Db, u: int, slices: seq<TreeSlice>) returns (r: Result<Saved, Error>)
    ensures r == SaveSlices(db, u, slices)
  {
    hide SaveSlices, SaveSlice, Plus, Continue;
    var tx, counts := db, Counts(0, 0, 0);
    ContinueSteps(counts, counts, SaveSlices(db, u, slices));
    assert slices[0..] == slices;
    for i := 0 to |slices|
      invariant SaveSlices(db, u, slices) == Continue(counts, SaveSlices(tx, u, slices[i..]))
    {
      SlicesFrom(tx, u, slices, i);
      ContinueEnds(counts);
      var here := InsertSlice(tx, u, slices[i]);
      if here.Err? {
        return here;
      }
      ContinueSteps(counts, here.value.counts, SaveSlices(here.value.db, u, slices[i + 1..]));
      tx, counts := here.value.db, Plus(counts, here.value.counts);
    }
    assert slices[|slices|..] == [];
    EmptyWalks(tx, u);
    ContinueEnds(counts);
    return Ok(Saved(tx, counts));
  }

  // ── Loops of the other saves ─────────────────────────────────────────────

  method InsertInputs(db: Db, u: int, items: seq<NssaiSave.NssaiInput>) returns (r: Result<(Db, nat), Error>)
    ensures r == NssaiSave.SaveInputs(db, u, items)
  {
    hide NssaiSave.SaveInputs, NssaiSave.SaveInput;
    var tx, count := db, 0;
    assert items[0..] == items;
    ContinueInputsSteps(0, 0, NssaiSave.SaveInputs(db, u, items));
    for i := 0 to |items|
      invariant NssaiSave.SaveInputs(db, u, items) == ContinueInputs(count, NssaiSave.SaveInputs(tx, u, items[i..]))
    {
      InputsFrom(tx, u, items, i);
      if !NssaiSave.Skipped(items[i]) {
        var here := NssaiSave.SaveInput(tx, u, items[i]);
        if here.Err? {
          return Err(here.error);
        }
        ContinueInputsSteps(count, 1, NssaiSave.SaveInputs(here.value, u, items[i + 1..]));
        tx, count := here.value, count + 1;
      }
    }
    assert items[|items|..] == [];
    NoInputs(tx, u);
    return Ok((tx, count));
  }

  function ContinueInputs(count: nat, rest: Result<(Db, nat), Error>): Result<(Db, nat), Error> {
    match rest
    case Ok(saved) => Ok((saved.0, count + saved.1))
    case Err(e) => Err(e)
  }

  lemma ContinueInputsSteps(a: nat, b: nat, rest: Result<(Db, nat), Error>)
    ensures ContinueInputs(a, ContinueInputs(b, rest)) == ContinueInputs(a + b, rest)
    ensures ContinueInputs(0, rest) == rest
  {
  }

  lemma NoInputs(tx: Db, u: int)
    ensures NssaiSave.SaveInputs(tx, u, []) == Ok((tx, 0))
  {
  }

  lemma InputsFrom(tx: Db, u: int, items: seq<NssaiSave.NssaiInput>, i: nat)
    requires i < |items|
    ensures NssaiSave.SaveInputs(tx, u, items[i..]) ==
            if NssaiSave.Skipped(items[i]) then NssaiSave.SaveInputs(tx, u, items[i + 1..])
            else match NssaiSave.SaveInput(tx, u, items[i])
                 case Err(e) => Err(e)
                 case Ok(here) => ContinueInputs(1, NssaiSave.SaveInputs(here, u, items[i + 1..]))
  {
    assert items[i..][1..] == items[i + 1..];
  }

  method InsertDnnInputs(db: Db, keyed: map<DnnSave.SliceTag, int>, items: seq<DnnSave.DnnInput>)
    returns (r: Result<Db, Error>)
    ensures r == DnnSave.InsertDnns(db, keyed, items)
  {
    hide PutDnn, DnnSave.TagWanted;
    var tx := db;
    assert items[0..] == items;
    for i := 0 to |items|
      invariant DnnSave.InsertDnns(db, keyed, items) == DnnSave.InsertDnns(tx, keyed, items[i..])
    {
      assert items[i..][1..] == items[i + 1..];
      var tag := DnnSave.TagWanted(items[i]);
      if tag in keyed {
        var inserted := PutDnn(tx, keyed[tag], items[i].dnn, items[i].isDefault);
        if inserted.Err? {
          return Err(inserted.error);
        }
        tx := inserted.value;
      }
    }
    return Ok(tx);
  }

  /** The (sst, upper-case sd) map of the UE's slices, filled row by row in the query's order. */
  method KeySlices(db: Db, u: int) returns (keyed: map<DnnSave.SliceTag, int>)
    requires Integrity(db)
    ensures DnnSave.Keying(db, u, keyed)
  {
    hide TablesValid, UniqueSlices, UniqueDnns, UniqueBindings, UniqueCatalog, UniqueImsi, UniqueAuth, AuthChecked;
    var mine := TreeSave.SlicesOf(db.slices.rows, u);
    var rows := AnyOrder(mine);
    keyed := map[];
    for i := 0 to |rows|
      invariant forall t :: t in keyed ==> keyed[t] in mine && DnnSave.TagOf(db, keyed[t]) == t
      invariant forall j :: 0 <= j < i ==> rows[j] in mine && DnnSave.TagOf(db, rows[j]) in keyed
    {
      assert rows[i] in rows;
      keyed := keyed[DnnSave.TagOf(db, rows[i]) := rows[i]];
    }
    forall i | i in mine
      ensures DnnSave.TagOf(db, i) in keyed
    {
      assert i in rows;
    }
  }

  // ── Loops of the deep clone ──────────────────────────────────────────────

  method CopySlices(db: Db, dst: int, q: seq<Clone.SliceCopy>) returns (r: Result<Db, Error>)
    ensures r == Clone.CopySlices(db, dst, q)
  {
    hide PutSlice;
    var tx := db;
    assert q[0..] == q;
    for i := 0 to |q|
      invariant Clone.CopySlices(db, dst, q) == Clone.CopySlices(tx, dst, q[i..])
    {
      assert q[i..][1..] == q[i + 1..];
      var inserted := PutSlice(tx, dst, q[i].0, q[i].1);
      if inserted.Err? {
        return inserted;
      }
      tx := inserted.value;
    }
    return Ok(tx);
  }

  method CopyDnns(db: Db, q: seq<Clone.DnnCopy>) returns (r: Result<Db, Error>)
    ensures r == Clone.CopyDnns(db, q)
  {
    hide PutDnn;
    var tx := db;
    assert q[0..] == q;
    for i := 0 to |q|
      invariant Clone.CopyDnns(db, q) == Clone.CopyDnns(tx, q[i..])
    {
      assert q[i..][1..] == q[i + 1..];
      var inserted := PutDnn(tx, q[i].0, q[i].1, q[i].2);
      if inserted.Err? {
        return inserted;
      }
      tx := inserted.value;
    }
    return Ok(tx);
  }

  method CopyBindings(db: Db, q: seq<Clone.BindingCopy>) returns (r: Result<Db, Error>)
    ensures r == Clone.CopyBindings(db, q)
  {
    hide PutBinding;
    var tx := db;
    assert q[0..] == q;
    for i := 0 to |q|
      invariant Clone.CopyBindings(db, q) == Clone.CopyBindings(tx, q[i..])
    {
      assert q[i..][1..] == q[i + 1..];
      var inserted := PutBinding(tx, q[i].0, q[i].1, q[i].2);
      if inserted.Err? {
        return inserted;
      }
      tx := inserted.value;
    }
    return Ok(tx);
  }

  // ── Loop of the bulk provisioner ─────────────────────────────────────────

  function AddBulk(a: Bulk.BulkCounts, b: Bulk.BulkCounts): Bulk.BulkCounts {
    Bulk.BulkCounts(a.uesCreated + b.uesCreated, a.authRows + b.authRows, Plus(a.tree, b.tree))
  }

  const NO_BULK := Bulk.BulkCounts(0, 0, Counts(0, 0, 0))

  function ContinueBulk(counts: Bulk.BulkCounts, rest: Result<(Db, Bulk.BulkCounts), Error>)
    : Result<(Db, Bulk.BulkCounts), Error>
  {
    match rest
    case Ok(saved) => Ok((saved.0, AddBulk(counts, saved.1)))
    case Err(e) => Err(e)
  }

  lemma ContinueBulkSteps(a: Bulk.BulkCounts, b: Bulk.BulkCounts, rest: Result<(Db, Bulk.BulkCounts), Error>)
    ensures ContinueBulk(a, ContinueBulk(b, rest)) == ContinueBulk(AddBulk(a, b), rest)
    ensures ContinueBulk(NO_BULK, rest) == rest
  {
  }

  lemma ContinueBulkEnds(counts: Bulk.BulkCounts)
    ensures forall tx :: ContinueBulk(counts, Ok((tx, NO_BULK))) == Ok((tx, counts))
    ensures forall e :: ContinueBulk(counts, Err(e)) == Err(e)
  {
  }

  lemma BulkFrom(tx: Db, kdf: Bulk.Kdf, t: Bulk.Template, ues: seq<Bulk.Entry>, i: nat)
    requires i < |ues|
    ensures Bulk.ProvisionAll(tx, kdf, t, ues[i..]) ==
            match Bulk.ProvisionOne(tx, kdf, t, ues[i])
            case Err(e) => Err(e)
            case Ok(here) => ContinueBulk(here.1, Bulk.ProvisionAll(here.0, kdf, t, ues[i + 1..]))
  {
    hide Bulk.ProvisionOne;
    assert ues[i..][1..] == ues[i + 1..];
  }

  lemma NoEntries(tx: Db, kdf: Bulk.Kdf, t: Bulk.Template)
    ensures Bulk.ProvisionAll(tx, kdf, t, []) == Ok((tx, NO_BULK))
  {
  }

  /** One pass of the loop body: the ue row, the auth row, then the tree. */
  method ProvisionEntry(db: Db, kdf: Bulk.Kdf, t: Bulk.Template, e: Bulk.Entry)
    returns (r: Result<(Db, Bulk.BulkCounts), Error>)
    ensures r == Bulk.ProvisionOne(db, kdf, t, e)
  {
    hide PutAuth, AuthRowOf, SaveSlices, TreeSave.ClearTree, Bulk.AuthInput, Text.Trim;
    var imsi := Text.Trim(e.imsi);
    if imsi == "" {
      return Err(Invalid("each ue must carry a non-empty imsi"));
    }
    var tx, u := db, 0;
    var found := FindUe(tx.ue.rows, imsi);
    var created := 0;
    if found.Some? {
      u := found.value;
      tx := SetUe(tx, u, tx.ue.rows[u].(msisdn := Some(e.msisdn), ambrDl := t.ambrDl, ambrUl := t.ambrUl));
    } else {
      tx := tx.(ue := tx.ue.Insert(UeRow(imsi, Some(e.msisdn), true, t.ambrDl, t.ambrUl)));
      u := db.ue.last + 1;
      created := 1;
    }
    tx := PutAuth(tx, AuthRowOf(u, Bulk.AuthInput(kdf, t, imsi, e.msisdn)));
    var saved := InsertSlices(TreeSave.ClearTree(tx, u), u, t.tree);
    if saved.Err? {
      return Err(saved.error);
    }
    return Ok((saved.value.db, Bulk.BulkCounts(created, 1, saved.value.counts)));
  }

  method ProvisionEntries(db: Db, kdf: Bulk.Kdf, t: Bulk.Template, ues: seq<Bulk.Entry>)
    returns (r: Result<(Db, Bulk.BulkCounts), Error>)
    ensures r == Bulk.ProvisionAll(db, kdf, t, ues)
  {
    hide Bulk.ProvisionAll, Bulk.ProvisionOne, ContinueBulk, AddBulk;
    var tx, counts := db, NO_BULK;
    assert ues[0..] == ues;
    ContinueBulkSteps(NO_BULK, NO_BULK, Bulk.ProvisionAll(db, kdf, t, ues));
    for i := 0 to |ues|
      invariant Bulk.ProvisionAll(db, kdf, t, ues) == ContinueBulk(counts, Bulk.ProvisionAll(tx, kdf, t, ues[i..]))
    {
      BulkFrom(tx, kdf, t, ues, i);
      ContinueBulkEnds(counts);
      var here := ProvisionEntry(tx, kdf, t, ues[i]);
      if here.Err? {
        return Err(here.error);
      }
      ContinueBulkSteps(counts, here.value.1, Bulk.ProvisionAll(here.value.0, kdf, t, ues[i + 1..]));
      tx, counts := here.value.0, AddBulk(counts, here.value.1);
    }
    assert ues[|ues|..] == [];
    NoEntries(tx, kdf, t);
    ContinueBulkEnds(counts);
    return Ok((tx, counts));
  }

  // ── Loops of the nested read ─────────────────────────────────────────────

  method ReadServices(db: Db, d: int) returns (out: seq<TreeService>)
    requires UniqueBindings(db.bindings.rows)
    ensures TreeGet.ServicesRead(db.bindings.rows, d, out)
  {
    var b := db.bindings.rows;
    var mine := set i | i in b && b[i].sliceDnn == d :: TreeService(b[i].service, b[i].isDefault);
    forall x, y, z | x in mine && y in mine && z in mine {
      TreeGet.NameBeforeOrders(x.isDefault, x.service, y.isDefault, y.service, z.isDefault, z.service);
    }
    out := OrderBy(mine, TreeGet.ServiceLess());
  }

  function DnnRowLess(d: map<int, DnnRow>): (int, int) -> bool {
    (i: int, j: int) => i in d && j in d && TreeGet.NameBefore(d[i].isDefault, d[i].dnn, d[j].isDefault, d[j].dnn)
  }

  lemma DnnRowsOrdered(d: map<int, DnnRow>, s: int, mine: set<int>)
    requires UniqueDnns(d) && forall i :: i in mine ==> i in d && d[i].slice == s
    ensures Orders(DnnRowLess(d), mine)
  {
    hide TreeGet.NameBefore;
    forall x, y, z | x in mine && y in mine && z in mine
      ensures x != y ==> DnnRowLess(d)(x, y) || DnnRowLess(d)(y, x)
      ensures DnnRowLess(d)(x, y) && DnnRowLess(d)(y, z) ==> DnnRowLess(d)(x, z)
    {
      TreeGet.NameBeforeOrders(d[x].isDefault, d[x].dnn, d[y].isDefault, d[y].dnn, d[z].isDefault, d[z].dnn);
    }
  }

  function SliceRowLess(s: map<int, SliceRow>, catalog: map<int, CatalogRow>): (int, int) -> bool {
    (i: int, j: int) =>
      && i in s && j in s && s[i].nssai in catalog && s[j].nssai in catalog
      && TreeGet.CatalogBefore(catalog[s[i].nssai], catalog[s[j].nssai])
  }

  lemma SliceRowsOrdered(db: Db, u: int, mine: set<int>)
    requires Integrity(db) && forall i :: i in mine ==> i in db.slices.rows && db.slices.rows[i].ue == u
    ensures Orders(SliceRowLess(db.slices.rows, db.catalog.rows), mine)
  {
    hide TreeGet.CatalogBefore, UniqueDnns, UniqueBindings, UniqueImsi, UniqueAuth, TablesValid, AuthChecked;
    var s, catalog := db.slices.rows, db.catalog.rows;
    var less := SliceRowLess(s, catalog);
    forall x, y, z | x in mine && y in mine && z in mine
      ensures x != y ==> less(x, y) || less(y, x)
      ensures less(x, y) && less(y, z) ==> less(x, z)
    {
      TreeGet.CatalogBeforeOrders(catalog[s[x].nssai], catalog[s[y].nssai], catalog[s[z].nssai]);
    }
  }

  method ReadDnns(db: Db, s: int) returns (out: seq<TreeDnn>)
    requires UniqueDnns(db.dnns.rows) && UniqueBindings(db.bindings.rows)
    ensures TreeGet.DnnsRead(db.dnns.rows, db.bindings.rows, s, out)
  {
    hide TreeGet.ServicesRead;
    var d := db.dnns.rows;
    var mine := set i | i in d && d[i].slice == s;
    DnnRowsOrdered(d, s, mine);
    var rows := OrderBy(mine, DnnRowLess(d));
    out := [];
    for i := 0 to |rows|
      invariant |out| == i
      invariant forall j :: 0 <= j < i ==>
        && rows[j] in d && out[j].dnn == d[rows[j]].dnn && d[rows[j]].slice == s
        && TreeGet.DnnRead(d, db.bindings.rows, out[j], rows[j])
    {
      assert rows[i] in rows;
      var services := ReadServices(db, rows[i]);
      out := out + [TreeDnn(d[rows[i]].dnn, d[rows[i]].isDefault, services)];
    }
    DnnsInOrder(db, s, rows, out);
  }

  lemma DnnsInOrder(db: Db, s: int, rows: seq<int>, out: seq<TreeDnn>)
    requires UniqueDnns(db.dnns.rows) && |out| == |rows|
    requires forall i :: i in rows <==> i in db.dnns.rows && db.dnns.rows[i].slice == s
    requires forall j :: 0 <= j < |rows| ==>
               && rows[j] in db.dnns.rows && out[j].dnn == db.dnns.rows[rows[j]].dnn && db.dnns.rows[rows[j]].slice == s
               && TreeGet.DnnRead(db.dnns.rows, db.bindings.rows, out[j], rows[j])
    requires forall i, j :: 0 <= i < j < |rows| ==>
               TreeGet.NameBefore(db.dnns.rows[rows[i]].isDefault, db.dnns.rows[rows[i]].dnn,
                                  db.dnns.rows[rows[j]].isDefault, db.dnns.rows[rows[j]].dnn)
    ensures TreeGet.DnnsRead(db.dnns.rows, db.bindings.rows, s, out)
  {
    hide TreeGet.ServicesRead, TreeGet.NameBefore;
    var d := db.dnns.rows;
    forall name | FindDnn(d, s, name).Some?
      ensures exists dn :: dn in out && dn.dnn == name
    {
      var j :| 0 <= j < |rows| && rows[j] == FindDnn(d, s, name).value;
      assert out[j] in out;
    }
  }

  method ReadSlices(db: Db, u: int) returns (out: seq<TreeSlice>)
    requires Integrity(db)
    ensures TreeGet.TreeRead(db, u, out)
  {
    hide TreeGet.DnnsRead, TablesValid, UniqueImsi, UniqueAuth, AuthChecked;
    var s, catalog := db.slices.rows, db.catalog.rows;
    var mine := TreeSave.SlicesOf(s, u);
    SliceRowsOrdered(db, u, mine);
    var rows := OrderBy(mine, SliceRowLess(s, catalog));
    out := [];
    for i := 0 to |rows|
      invariant |out| == i
      invariant forall j :: 0 <= j < i ==>
        && rows[j] in s && s[rows[j]].ue == u && out[j].nssaiId == s[rows[j]].nssai
        && TreeGet.SliceRead(db, out[j], rows[j])
    {
      assert rows[i] in rows;
      var n := s[rows[i]].nssai;
      var dnns := ReadDnns(db, rows[i]);
      out := out + [TreeSlice(n, catalog[n].sst, catalog[n].sd.GetOr(""), catalog[n].name, s[rows[i]].isDefault, dnns)];
    }
    SlicesInOrder(db, u, rows, out);
  }

  lemma SlicesInOrder(db: Db, u: int, rows: seq<int>, out: seq<TreeSlice>)
    requires Integrity(db) && |out| == |rows|
    requires forall i :: i in rows <==> i in db.slices.rows && db.slices.rows[i].ue == u
    requires forall j :: 0 <= j < |rows| ==>
               && rows[j] in db.slices.rows && db.slices.rows[rows[j]].ue == u
               && out[j].nssaiId == db.slices.rows[rows[j]].nssai && TreeGet.SliceRead(db, out[j], rows[j])
    requires forall i, j :: 0 <= i < j < |rows| ==>
               TreeGet.CatalogBefore(db.catalog.rows[out[i].nssaiId], db.catalog.rows[out[j].nssaiId])
    ensures TreeGet.TreeRead(db, u, out)
  {
    hide TreeGet.DnnsRead, TablesValid, NoOrphans, UniqueImsi, UniqueAuth, AuthChecked, UniqueDnns, UniqueBindings;
    hide TreeGet.CatalogBefore;
    forall n | FindSlice(db.slices.rows, u, n).Some?
      ensures exists sl :: sl in out && sl.nssaiId == n
    {
      var j :| 0 <= j < |rows| && rows[j] == FindSlice(db.slices.rows, u, n).value;
      assert out[j] in out;
    }
  }
}
