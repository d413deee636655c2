/** core/db/crud/nssai.go: the slice catalog and the three saves that rewrite a UE's subscription tree. */
module SubscriptionTree {
  import opened Wrappers
  import opened Schema
  import opened Rows
  import Text

  datatype TreeService = TreeService(service: string, isDefault: bool)
  datatype TreeDnn = TreeDnn(dnn: string, isDefault: bool, services: seq<TreeService>)
  datatype TreeSlice = TreeSlice(nssaiId: int, sst: int, sd: string, name: string, isDefault: bool, dnns: seq<TreeDnn>)

  /** (slices, dnns, bindings) as returned by SubscriptionTreeSave. */
  datatype Counts = Counts(slices: nat, dnns: nat, bindings: nat)

  function Plus(a: Counts, b: Counts): Counts {
    Counts(a.slices + b.slices, a.dnns + b.dnns, a.bindings + b.bindings)
  }

  /** How many rows of each kind a tree names. */
  function CountServices(services: seq<TreeService>): nat {
    if services == [] then 0
    else (if services[0].service == "" then 0 else 1) + CountServices(services[1..])
  }

  function CountDnns(dnns: seq<TreeDnn>): Counts {
    if dnns == [] then Counts(0, 0, 0)
    else
      Plus(if dnns[0].dnn == "" then Counts(0, 0, 0) else Counts(0, 1, CountServices(dnns[0].services)),
           CountDnns(dnns[1..]))
  }

  function CountSlices(slices: seq<TreeSlice>): Counts {
    if slices == [] then Counts(0, 0, 0)
    else Plus(Plus(Counts(1, 0, 0), CountDnns(slices[0].dnns)), CountSlices(slices[1..]))
  }

  /** How many items there are of each kind. */
  function Tally(items: seq<(Path, bool)>): Counts {
    if items == [] then Counts(0, 0, 0)
    else
      var p, rest := items[0].0, Tally(items[1..]);
      Counts(rest.slices + (if p.SlicePath? then 1 else 0), rest.dnns + (if p.DnnPath? then 1 else 0),
             rest.bindings + (if p.ServicePath? then 1 else 0))
  }

  lemma {:induction false} TallyConcat(a: seq<(Path, bool)>, b: seq<(Path, bool)>)
    ensures var x, y := Tally(a), Tally(b);
            Tally(a + b) == Counts(x.slices + y.slices, x.dnns + y.dnns, x.bindings + y.bindings)
    decreases |a|
  {
    if a == [] {
      assert a + b == b;
    } else {
      assert (a + b)[1..] == a[1..] + b;
      TallyConcat(a[1..], b);
    }
  }

  /** The counts of a tree are the items it names, kind by kind. */
  lemma {:induction false} CountsMeaning(catalog: map<int, CatalogRow>, slices: seq<TreeSlice>)
    ensures CountSlices(slices) == Tally(SliceItems(catalog, slices)) && CountSlices(slices).slices == |slices|
  {
    hide Tally, Resolve, OneSliceItems, CountDnns;
    NothingTallied();
    if slices != [] {
      var n := Resolve(catalog, slices[0]);
      CountsMeaning(catalog, slices[1..]);
      SliceCounts(n, slices[0]);
      TallyConcat(OneSliceItems(n, slices[0]), SliceItems(catalog, slices[1..]));
    }
  }

  lemma SliceCounts(n: int, slice: TreeSlice)
    ensures var c := CountDnns(slice.dnns);
            Tally(OneSliceItems(n, slice)) == Counts(1, c.dnns, c.bindings) && c.slices == 0
  {
    hide Tally, CountDnns, DnnItems;
    OneTallied(SlicePath(n), slice.isDefault);
    TallyConcat([(SlicePath(n), slice.isDefault)], DnnItems(n, slice.dnns));
    DnnCounts(n, slice.dnns);
  }

  lemma {:induction false} DnnCounts(n: int, dnns: seq<TreeDnn>)
    ensures CountDnns(dnns) == Tally(DnnItems(n, dnns)) && CountDnns(dnns).slices == 0
  {
    hide CountDnns, DnnItems, Tally, OneDnnItems, CountServices;
    NoDnns(n);
    if dnns != [] {
      DnnsStep(n, dnns);
      DnnCounts(n, dnns[1..]);
      OneDnnCounts(n, dnns[0]);
      TallyConcat(OneDnnItems(n, dnns[0]), DnnItems(n, dnns[1..]));
    }
  }

  lemma NoDnns(n: int)
    ensures CountDnns([]) == Tally(DnnItems(n, [])) == Counts(0, 0, 0)
  {
  }

  lemma DnnsStep(n: int, dnns: seq<TreeDnn>)
    requires dnns != []
    ensures var c, rest := CountDnns(dnns[1..]), DnnItems(n, dnns[1..]);
            if dnns[0].dnn == "" then CountDnns(dnns) == c && DnnItems(n, dnns) == rest
            else
              && CountDnns(dnns) == Counts(c.slices, 1 + c.dnns, CountServices(dnns[0].services) + c.bindings)
              && DnnItems(n, dnns) == OneDnnItems(n, dnns[0]) + rest
  {
    hide OneDnnItems, CountServices;
    assert [] + DnnItems(n, dnns[1..]) == DnnItems(n, dnns[1..]);
  }

  lemma OneDnnCounts(n: int, dnn: TreeDnn)
    ensures Tally(OneDnnItems(n, dnn)) == Counts(0, 1, CountServices(dnn.services))
  {
    hide Tally, CountServices, ServiceItems;
    OneTallied(DnnPath(n, dnn.dnn), dnn.isDefault);
    TallyConcat([(DnnPath(n, dnn.dnn), dnn.isDefault)], ServiceItems(n, dnn.dnn, dnn.services));
    ServiceCounts(n, dnn.dnn, dnn.services);
  }

  lemma {:induction false} ServiceCounts(n: int, dnn: string, services: seq<TreeService>)
    ensures Tally(ServiceItems(n, dnn, services)) == Counts(0, 0, CountServices(services))
  {
    hide Tally;
    NothingTallied();
    if services != [] {
      ServiceCounts(n, dnn, services[1..]);
      var p := ServicePath(n, dnn, services[0].service);
      OneTallied(p, services[0].isDefault);
      TallyConcat(if services[0].service == "" then [] else [(p, services[0].isDefault)],
                  ServiceItems(n, dnn, services[1..]));
    }
  }

  lemma NothingTallied()
    ensures Tally([]) == Counts(0, 0, 0)
  {
  }

  lemma OneTallied(p: Path, flag: bool)
    ensures Tally([(p, flag)]) == Counts(if p.SlicePath? then 1 else 0, if p.DnnPath? then 1 else 0,
                                         if p.ServicePath? then 1 else 0)
  {
  }

  /** A working copy of the tables, and the counts so far. */
  datatype Saved = Saved(db: Db, counts: Counts)

  // ── Catalog ──────────────────────────────────────────────────────────────

  /** The catalog id of (sst, sd), and the catalog with a row for it. */
  function GetOrCreate(catalog: Table<CatalogRow>, sst: int, sd: string): (Table<CatalogRow>, int) {
    var wanted := Text.Trim(sd);
    match FindCatalog(catalog.rows, sst, wanted)
    case Some(i) => (catalog, i)
    case None => (catalog.Insert(CatalogRow(sst, NullIfEmpty(wanted), "")), catalog.last + 1)
  }

  function GetOrCreateNssai(db: Db, sst: int, sd: string): (Db, int) {
    var (catalog, id) := GetOrCreate(db.catalog, sst, sd);
    (db.(catalog := catalog), id)
  }

  ghost predicate Grows(was: map<int, CatalogRow>, now: map<int, CatalogRow>) {
    forall i :: i in was ==> i in now && now[i] == was[i]
  }

  /** A path that names a catalog row keeps its sst, sd and name; rows may be added. */
  ghost predicate CatalogKept(a: Db, b: Db) {
    Grows(a.catalog.rows, b.catalog.rows) && a.apns == b.apns && a.services == b.services
  }

  lemma GetOrCreateMeaning(db: Db, sst: int, sd: string)
    requires Integrity(db)
    ensures var (db', id) := GetOrCreateNssai(db, sst, sd);
            && Integrity(db') && Flags(db') == Flags(db) && Grows(db.catalog.rows, db'.catalog.rows)
            && FindCatalog(db'.catalog.rows, sst, Text.Trim(sd)) == Some(id)
            && (forall i :: i in db'.catalog.rows && i !in db.catalog.rows ==>
                  && i == id && FindCatalog(db.catalog.rows, sst, Text.Trim(sd)).None?
                  && db'.catalog.rows[i] ==
                     CatalogRow(sst, if Text.Trim(sd) == "" then None else Some(Text.Trim(sd)), ""))
  {
    hide TreeFlags;
    var (db', id) := GetOrCreateNssai(db, sst, sd);
    assert id in db'.catalog.rows;
  }

  // ── What a tree says, in document order ──────────────────────────────────

  function ServiceItems(n: int, dnn: string, services: seq<TreeService>): seq<(Path, bool)> {
    if services == [] then []
    else
      (if services[0].service == "" then []
       else [(ServicePath(n, dnn, services[0].service), services[0].isDefault)])
      + ServiceItems(n, dnn, services[1..])
  }

  /** The items of one DNN and what it holds. */
  function OneDnnItems(n: int, dnn: TreeDnn): seq<(Path, bool)> {
    [(DnnPath(n, dnn.dnn), dnn.isDefault)] + ServiceItems(n, dnn.dnn, dnn.services)
  }

  function DnnItems(n: int, dnns: seq<TreeDnn>): seq<(Path, bool)> {
    if dnns == [] then []
    else
      (if dnns[0].dnn == "" then [] else OneDnnItems(n, dnns[0])) + DnnItems(n, dnns[1..])
  }

  /** The items of one slice stored under catalog id n. */
  function OneSliceItems(n: int, slice: TreeSlice): seq<(Path, bool)> {
    [(SlicePath(n), slice.isDefault)] + DnnItems(n, slice.dnns)
  }

  /** The catalog id a slice of the tree denotes: the explicit one, else that of its (sst, sd). */
  function Resolve(catalog: map<int, CatalogRow>, slice: TreeSlice): int {
    if slice.nssaiId != 0 then slice.nssaiId
    else FindCatalog(catalog, slice.sst, Text.Trim(slice.sd)).GetOr(0)
  }

  function SliceItems(catalog: map<int, CatalogRow>, slices: seq<TreeSlice>): seq<(Path, bool)> {
    if slices == [] then []
    else
      var n := Resolve(catalog, slices[0]);
      OneSliceItems(n, slices[0]) + SliceItems(catalog, slices[1..])
  }

  // ── The inserting walk ───────────────────────────────────────────────────

  function SaveServices(db: Db, d: int, services: seq<TreeService>): Result<Saved, Error>
    decreases |services|
  {
    if services == [] then Ok(Saved(db, Counts(0, 0, 0)))
    else if services[0].service == "" then SaveServices(db, d, services[1..])
    else
      var db1 :- PutBinding(db, d, services[0].service, services[0].isDefault);
      var rest :- SaveServices(db1, d, services[1..]);
      Ok(Saved(rest.db, Plus(Counts(0, 0, 1), rest.counts)))
  }

  function SaveDnns(db: Db, s: int, dnns: seq<TreeDnn>): Result<Saved, Error>
    decreases |dnns|
  {
    if dnns == [] then Ok(Saved(db, Counts(0, 0, 0)))
    else if dnns[0].dnn == "" then SaveDnns(db, s, dnns[1..])
    else
      var here :- SaveDnn(db, s, dnns[0]);
      var rest :- SaveDnns(here.db, s, dnns[1..]);
      Ok(Saved(rest.db, Plus(here.counts, rest.counts)))
  }

  function SaveDnn(db: Db, s: int, dnn: TreeDnn): Result<Saved, Error> {
    var db1 :- PutDnn(db, s, dnn.dnn, dnn.isDefault);
    var d := FindDnn(db1.dnns.rows, s, dnn.dnn);
    if d.None? then Err(Missing("ue_slice_dnn"))
    else
      var below :- SaveServices(db1, d.value, dnn.services);
      Ok(Saved(below.db, Plus(Counts(0, 1, 0), below.counts)))
  }

  function SaveSlices(db: Db, u: int, slices: seq<TreeSlice>): Result<Saved, Error>
    decreases |slices|
  {
    if slices == [] then Ok(Saved(db, Counts(0, 0, 0)))
    else
      var here :- SaveSlice(db, u, slices[0]);
      var rest :- SaveSlices(here.db, u, slices[1..]);
      Ok(Saved(rest.db, Plus(here.counts, rest.counts)))
  }

  function SaveSlice(db: Db, u: int, slice: TreeSlice): Result<Saved, Error> {
    var (db0, n) := if slice.nssaiId != 0 then (db, slice.nssaiId) else GetOrCreateNssai(db, slice.sst, slice.sd);
    var db1 :- PutSlice(db0, u, n, slice.isDefault);
    var s := FindSlice(db1.slices.rows, u, n);
    if s.None? then Err(Missing("ue_subscribed_nssai"))
    else
      var below :- SaveDnns(db1, s.value, slice.dnns);
      Ok(Saved(below.db, Plus(Counts(1, 0, 0), below.counts)))
  }

  // ── What the walk writes ─────────────────────────────────────────────────

  /** Every named service has a row in `services`. */
  predicate ServicesKnown(known: set<string>, services: seq<TreeService>) {
    services == [] ||
    ((services[0].service == "" || services[0].service in known) && ServicesKnown(known, services[1..]))
  }

  /** Every named DNN has a row in `apn_config`, and its services are known. */
  predicate DnnsKnown(apns: set<string>, known: set<string>, dnns: seq<TreeDnn>) {
    dnns == [] ||
    ((dnns[0].dnn == "" || (dnns[0].dnn in apns && ServicesKnown(known, dnns[0].services))) &&
     DnnsKnown(apns, known, dnns[1..]))
  }

  /** The catalog once a slice of the tree has its row. */
  function Register(catalog: Table<CatalogRow>, slice: TreeSlice): Table<CatalogRow> {
    if slice.nssaiId != 0 then catalog else GetOrCreate(catalog, slice.sst, slice.sd).0
  }

  function RegisterAll(catalog: Table<CatalogRow>, slices: seq<TreeSlice>): Table<CatalogRow>
    decreases |slices|
  {
    if slices == [] then catalog else RegisterAll(Register(catalog, slices[0]), slices[1..])
  }

  /** Each slice without an explicit id has its catalog row. */
  ghost predicate Known(catalog: map<int, CatalogRow>, slices: seq<TreeSlice>) {
    forall sl :: sl in slices && sl.nssaiId == 0 ==> FindCatalog(catalog, sl.sst, Text.Trim(sl.sd)).Some?
  }

  lemma RegisterMeaning(catalog: Table<CatalogRow>, slice: TreeSlice)
    requires catalog.Valid() && UniqueCatalog(catalog.rows)
    ensures var now := Register(catalog, slice);
            && now.Valid() && UniqueCatalog(now.rows) && Grows(catalog.rows, now.rows)
            && (slice.nssaiId == 0 ==> FindCatalog(now.rows, slice.sst, Text.Trim(slice.sd)).Some?)
  {
    hide Text.Trim;
    if slice.nssaiId == 0 {
      var id := GetOrCreate(catalog, slice.sst, slice.sd).1;
      assert id in GetOrCreate(catalog, slice.sst, slice.sd).0.rows;
    }
  }

  lemma FoundStays(was: map<int, CatalogRow>, now: map<int, CatalogRow>, sst: int, sd: string)
    requires UniqueCatalog(now) && Grows(was, now) && FindCatalog(was, sst, sd).Some?
    ensures FindCatalog(now, sst, sd) == FindCatalog(was, sst, sd)
  {
    var i := FindCatalog(was, sst, sd).value;
    assert i in now && now[i] == was[i];
  }

  /** Once the slices of a tree have their rows, and only then, saving it again adds none. */
  lemma {:induction false} RegisterAllMeaning(catalog: Table<CatalogRow>, slices: seq<TreeSlice>)
    requires catalog.Valid() && UniqueCatalog(catalog.rows)
    ensures var now := RegisterAll(catalog, slices);
            && now.Valid() && UniqueCatalog(now.rows) && Grows(catalog.rows, now.rows) && Known(now.rows, slices)
    ensures RegisterAll(catalog, slices) == catalog <==> Known(catalog.rows, slices)
    decreases |slices|
  {
    hide Register, UniqueCatalog, Text.Trim;
    if slices != [] {
      var one := Register(catalog, slices[0]);
      RegisterMeaning(catalog, slices[0]);
      RegisterAllMeaning(one, slices[1..]);
      assert slices == [slices[0]] + slices[1..];
      var now := RegisterAll(one, slices[1..]);
      if slices[0].nssaiId == 0 {
        FoundStays(one.rows, now.rows, slices[0].sst, Text.Trim(slices[0].sd));
      }
      if Known(catalog.rows, slices) {
        RegisterKnown(catalog, slices[0]);
      }
    }
  }

  lemma RegisterKnown(catalog: Table<CatalogRow>, slice: TreeSlice)
    requires slice.nssaiId == 0 ==> FindCatalog(catalog.rows, slice.sst, Text.Trim(slice.sd)).Some?
    ensures Register(catalog, slice) == catalog
  {
  }

  /** Every explicit catalog id exists when its slice is reached, and every name below is known. */
  predicate Storable(catalog: Table<CatalogRow>, apns: set<string>, known: set<string>, slices: seq<TreeSlice>)
    decreases |slices|
  {
    slices == [] ||
    (&& (slices[0].nssaiId == 0 || slices[0].nssaiId in catalog.rows)
     && DnnsKnown(apns, known, slices[0].dnns)
     && Storable(Register(catalog, slices[0]), apns, known, slices[1..]))
  }

  lemma {:induction false} SaveServicesMeaning(db: Db, d: int, services: seq<TreeService>)
    requires Integrity(db) && d in db.dnns.rows && db.dnns.rows[d].slice in db.slices.rows
    ensures var s := db.slices.rows[db.dnns.rows[d].slice];
            var items := ServiceItems(s.nssai, db.dnns.rows[d].dnn, services);
            var r := SaveServices(db, d, services);
            && (r.Ok? <==> ServicesKnown(db.services, services))
            && (r.Ok? ==> Integrity(r.value.db) && SameAccounts(db, r.value.db))
            && (r.Ok? ==> r.value.db.slices == db.slices && r.value.db.dnns == db.dnns)
            && (r.Ok? ==> Flags(r.value.db) == PutTree(Flags(db), s.ue, items))
            && (r.Ok? ==> r.value.counts == Counts(0, 0, CountServices(services)))
    decreases |services|
  {
    hide Flags, Integrity;
    if services != [] {
      var s := db.slices.rows[db.dnns.rows[d].slice];
      var rest := ServiceItems(s.nssai, db.dnns.rows[d].dnn, services[1..]);
      var path := ServicePath(s.nssai, db.dnns.rows[d].dnn, services[0].service);
      if services[0].service == "" {
        assert [] + rest == rest;
        SaveServicesMeaning(db, d, services[1..]);
      } else {
        assert ([(path, services[0].isDefault)] + rest)[1..] == rest;
        PutBindingMeaning(db, d, services[0].service, services[0].isDefault);
        var r := PutBinding(db, d, services[0].service, services[0].isDefault);
        if r.Ok? {
          SaveServicesMeaning(r.value, d, services[1..]);
        }
      }
    }
  }

  lemma SaveDnnMeaning(db: Db, s: int, dnn: TreeDnn)
    requires Integrity(db) && s in db.slices.rows
    ensures var row := db.slices.rows[s];
            var items := OneDnnItems(row.nssai, dnn);
            var r := SaveDnn(db, s, dnn);
            && (r.Ok? <==> dnn.dnn in db.apns && ServicesKnown(db.services, dnn.services))
            && (r.Ok? ==> Integrity(r.value.db) && SameAccounts(db, r.value.db) && r.value.db.slices == db.slices)
            && (r.Ok? ==> Flags(r.value.db) == PutTree(Flags(db), row.ue, items))
            && (r.Ok? ==> r.value.counts == Counts(0, 1, CountServices(dnn.services)))
  {
    hide Flags, Integrity;
    var items := OneDnnItems(db.slices.rows[s].nssai, dnn);
    PutDnnMeaning(db, s, dnn.dnn, dnn.isDefault);
    var r := PutDnn(db, s, dnn.dnn, dnn.isDefault);
    if r.Ok? {
      assert items[1..] == ServiceItems(db.slices.rows[s].nssai, dnn.dnn, dnn.services);
      SaveServicesMeaning(r.value, FindDnn(r.value.dnns.rows, s, dnn.dnn).value, dnn.services);
    }
  }

  lemma {:induction false} SaveDnnsMeaning(db: Db, s: int, dnns: seq<TreeDnn>)
    requires Integrity(db) && s in db.slices.rows
    ensures var row := db.slices.rows[s];
            var items := DnnItems(row.nssai, dnns);
            var r := SaveDnns(db, s, dnns);
            && (r.Ok? <==> DnnsKnown(db.apns, db.services, dnns))
            && (r.Ok? ==> Integrity(r.value.db) && SameAccounts(db, r.value.db) && r.value.db.slices == db.slices)
            && (r.Ok? ==> Flags(r.value.db) == PutTree(Flags(db), row.ue, items))
            && (r.Ok? ==> r.value.counts == CountDnns(dnns))
    decreases |dnns|
  {
    hide Flags, Integrity, SaveDnn, OneDnnItems;
    if dnns != [] {
      var row := db.slices.rows[s];
      var rest := DnnItems(row.nssai, dnns[1..]);
      if dnns[0].dnn == "" {
        assert [] + rest == rest;
        SaveDnnsMeaning(db, s, dnns[1..]);
      } else {
        SaveDnnMeaning(db, s, dnns[0]);
        var r := SaveDnn(db, s, dnns[0]);
        if r.Ok? {
          SaveDnnsMeaning(r.value.db, s, dnns[1..]);
          PutTreeConcat(Flags(db), row.ue, OneDnnItems(row.nssai, dnns[0]), rest);
        }
      }
    }
  }

  lemma SaveSliceMeaning(db: Db, u: int, slice: TreeSlice)
    requires Integrity(db) && u in db.ue.rows
    ensures var r := SaveSlice(db, u, slice);
            && (r.Ok? <==> (slice.nssaiId == 0 || slice.nssaiId in db.catalog.rows)
                           && DnnsKnown(db.apns, db.services, slice.dnns))
            && (r.Ok? ==>
                  var db' := r.value.db;
                  && Integrity(db') && db'.catalog == Register(db.catalog, slice)
                  && SameAccounts(db.(catalog := db'.catalog), db')
                  && Grows(db.catalog.rows, db'.catalog.rows)
                  && (slice.nssaiId == 0 ==> FindCatalog(db'.catalog.rows, slice.sst, Text.Trim(slice.sd)).Some?)
                  && Flags(db') == PutTree(Flags(db), u, OneSliceItems(Resolve(db'.catalog.rows, slice), slice))
                  && r.value.counts == Plus(Counts(1, 0, 0), CountDnns(slice.dnns)))
  {
    hide Flags, Integrity;
    var (db0, n) := if slice.nssaiId != 0 then (db, slice.nssaiId) else GetOrCreateNssai(db, slice.sst, slice.sd);
    GetOrCreateMeaning(db, slice.sst, slice.sd);
    PutSliceMeaning(db0, u, n, slice.isDefault);
    var r := PutSlice(db0, u, n, slice.isDefault);
    if r.Ok? {
      assert OneSliceItems(n, slice)[1..] == DnnItems(n, slice.dnns);
      SaveDnnsMeaning(r.value, FindSlice(r.value.slices.rows, u, n).value, slice.dnns);
    }
  }

  lemma {:induction false} SaveSlicesMeaning(db: Db, u: int, slices: seq<TreeSlice>)
    requires Integrity(db) && u in db.ue.rows
    ensures var r := SaveSlices(db, u, slices);
            && (r.Ok? <==> Storable(db.catalog, db.apns, db.services, slices))
            && (r.Ok? ==>
                  var db' := r.value.db;
                  && Integrity(db') && db'.catalog == RegisterAll(db.catalog, slices)
                  && SameAccounts(db.(catalog := db'.catalog), db')
                  && Grows(db.catalog.rows, db'.catalog.rows)
                  && Flags(db') == PutTree(Flags(db), u, SliceItems(db'.catalog.rows, slices))
                  && r.value.counts == CountSlices(slices))
    decreases |slices|
  {
    hide Flags, TablesValid, NoOrphans, UniqueSlices, UniqueDnns, UniqueBindings, UniqueImsi, UniqueAuth, AuthChecked;
    hide SaveSlice, DnnItems;
    if slices != [] {
      SaveSliceMeaning(db, u, slices[0]);
      var r := SaveSlice(db, u, slices[0]);
      if r.Ok? {
        SaveSlicesMeaning(r.value.db, u, slices[1..]);
        var rest := SaveSlices(r.value.db, u, slices[1..]);
        if rest.Ok? {
          var now := rest.value.db.catalog.rows;
          var n := Resolve(now, slices[0]);
          assert n == Resolve(r.value.db.catalog.rows, slices[0]);
          PutTreeConcat(Flags(db), u, OneSliceItems(n, slices[0]), SliceItems(now, slices[1..]));
        }
      }
    }
  }
}
