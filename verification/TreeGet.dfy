/** SubscriptionTreeGet: the nested, ordered reading of one UE's tree. */
module TreeGet {
  import opened FirstWins
  import opened Schema
  import opened Rows
  import opened Views
  import opened SubscriptionTree
  import opened Ordering
  import TreeSave
  import Text

  // ── ORDER BY clauses ─────────────────────────────────────────────────────

  /** is_default DESC, name */
  predicate NameBefore(xDefault: bool, x: string, yDefault: bool, y: string) {
    (xDefault && !yDefault) || (xDefault == yDefault && Text.Less(x, y))
  }

  /** sst, sd with NULL first */
  predicate CatalogBefore(x: CatalogRow, y: CatalogRow) {
    x.sst < y.sst ||
    (x.sst == y.sst && y.sd.Some? && (x.sd.None? || Text.Less(x.sd.value, y.sd.value)))
  }

  lemma NameBeforeOrders(xDefault: bool, x: string, yDefault: bool, y: string, zDefault: bool, z: string)
    ensures x != y ==> NameBefore(xDefault, x, yDefault, y) || NameBefore(yDefault, y, xDefault, x)
    ensures NameBefore(xDefault, x, yDefault, y) ==> !NameBefore(yDefault, y, xDefault, x)
    ensures NameBefore(xDefault, x, yDefault, y) && NameBefore(yDefault, y, zDefault, z) ==>
              NameBefore(xDefault, x, zDefault, z)
  {
    Text.LessTrichotomy(x, y);
    if Text.Less(x, y) && Text.Less(y, z) {
      Text.LessTransitive(x, y, z);
    }
  }

  lemma CatalogBeforeOrders(x: CatalogRow, y: CatalogRow, z: CatalogRow)
    ensures (x.sst, x.sd) != (y.sst, y.sd) ==> CatalogBefore(x, y) || CatalogBefore(y, x)
    ensures CatalogBefore(x, y) ==> !CatalogBefore(y, x)
    ensures CatalogBefore(x, y) && CatalogBefore(y, z) ==> CatalogBefore(x, z)
  {
    if x.sd.Some? && y.sd.Some? {
      Text.LessTrichotomy(x.sd.value, y.sd.value);
      if z.sd.Some? && Text.Less(x.sd.value, y.sd.value) && Text.Less(y.sd.value, z.sd.value) {
        Text.LessTransitive(x.sd.value, y.sd.value, z.sd.value);
      }
    }
  }

  function ServiceLess(): (TreeService, TreeService) -> bool {
    (x: TreeService, y: TreeService) => NameBefore(x.isDefault, x.service, y.isDefault, y.service)
  }

  function DnnLess(): (TreeDnn, TreeDnn) -> bool {
    (x: TreeDnn, y: TreeDnn) => NameBefore(x.isDefault, x.dnn, y.isDefault, y.dnn)
  }

  function SliceLess(catalog: map<int, CatalogRow>): (TreeSlice, TreeSlice) -> bool {
    (x: TreeSlice, y: TreeSlice) =>
      x.nssaiId in catalog && y.nssaiId in catalog && CatalogBefore(catalog[x.nssaiId], catalog[y.nssaiId])
  }

  // ── What the nested loops return, by rows ────────────────────────────────

  ghost predicate ServicesRead(b: map<int, BindingRow>, d: int, out: seq<TreeService>) {
    && Increasing(ServiceLess(), out)
    && forall sv :: sv in out <==>
         FindBinding(b, d, sv.service).Some? && b[FindBinding(b, d, sv.service).value].isDefault == sv.isDefault
  }

  /** dn is the reading of row i, with the services bound below it. */
  ghost predicate DnnRead(d: map<int, DnnRow>, b: map<int, BindingRow>, dn: TreeDnn, i: int) {
    i in d && d[i].isDefault == dn.isDefault && ServicesRead(b, i, dn.services)
  }

  ghost predicate DnnsRead(d: map<int, DnnRow>, b: map<int, BindingRow>, s: int, out: seq<TreeDnn>) {
    && Increasing(DnnLess(), out)
    && (forall dn :: dn in out ==>
          FindDnn(d, s, dn.dnn).Some? && DnnRead(d, b, dn, FindDnn(d, s, dn.dnn).value))
    && (forall name :: FindDnn(d, s, name).Some? ==> exists dn :: dn in out && dn.dnn == name)
  }

  ghost predicate SliceRead(db: Db, sl: TreeSlice, i: int) {
    && i in db.slices.rows && db.slices.rows[i].isDefault == sl.isDefault
    && sl.nssaiId in db.catalog.rows
    && sl.sst == db.catalog.rows[sl.nssaiId].sst
    && sl.sd == db.catalog.rows[sl.nssaiId].sd.GetOr("")
    && sl.name == db.catalog.rows[sl.nssaiId].name
    && DnnsRead(db.dnns.rows, db.bindings.rows, i, sl.dnns)
  }

  ghost predicate TreeRead(db: Db, u: int, out: seq<TreeSlice>) {
    && Increasing(SliceLess(db.catalog.rows), out)
    && (forall sl :: sl in out ==>
          FindSlice(db.slices.rows, u, sl.nssaiId).Some? &&
          SliceRead(db, sl, FindSlice(db.slices.rows, u, sl.nssaiId).value))
    && (forall n :: FindSlice(db.slices.rows, u, n).Some? ==> exists sl :: sl in out && sl.nssaiId == n)
  }

  // ── The reading is determined by the tables ──────────────────────────────

  lemma ServicesReadUnique(b: map<int, BindingRow>, d: int, x: seq<TreeService>, y: seq<TreeService>)
    requires ServicesRead(b, d, x) && ServicesRead(b, d, y)
    ensures x == y
  {
    forall p: TreeService, q: TreeService {
      NameBeforeOrders(p.isDefault, p.service, q.isDefault, q.service, true, "");
    }
    IncreasingUnique(ServiceLess(), x, y);
  }

  lemma DnnsReadUnique(d: map<int, DnnRow>, b: map<int, BindingRow>, s: int, x: seq<TreeDnn>, y: seq<TreeDnn>)
    requires UniqueDnns(d) && DnnsRead(d, b, s, x) && DnnsRead(d, b, s, y)
    ensures x == y
  {
    forall p: TreeDnn, q: TreeDnn {
      NameBeforeOrders(p.isDefault, p.dnn, q.isDefault, q.dnn, true, "");
    }
    DnnsReadSubset(d, b, s, x, y);
    DnnsReadSubset(d, b, s, y, x);
    IncreasingUnique(DnnLess(), x, y);
  }

  lemma DnnsReadSubset(d: map<int, DnnRow>, b: map<int, BindingRow>, s: int, x: seq<TreeDnn>, y: seq<TreeDnn>)
    requires DnnsRead(d, b, s, x) && DnnsRead(d, b, s, y)
    ensures forall p :: p in x ==> p in y
  {
    hide ServicesRead;
    forall p | p in x
      ensures p in y
    {
      var q :| q in y && q.dnn == p.dnn;
      ServicesReadUnique(b, FindDnn(d, s, p.dnn).value, p.services, q.services);
    }
  }

  lemma TreeReadSubset(db: Db, u: int, x: seq<TreeSlice>, y: seq<TreeSlice>)
    requires Integrity(db) && TreeRead(db, u, x) && TreeRead(db, u, y)
    ensures forall p :: p in x ==> p in y
  {
    hide DnnsRead;
    forall p | p in x
      ensures p in y
    {
      var q :| q in y && q.nssaiId == p.nssaiId;
      DnnsReadUnique(db.dnns.rows, db.bindings.rows, FindSlice(db.slices.rows, u, p.nssaiId).value, p.dnns, q.dnns);
    }
  }

  /** ORDER BY leaves nothing open: the same tables always read as the same tree. */
  lemma TreeReadUnique(db: Db, u: int, x: seq<TreeSlice>, y: seq<TreeSlice>)
    requires Integrity(db) && TreeRead(db, u, x) && TreeRead(db, u, y)
    ensures x == y
  {
    var less := SliceLess(db.catalog.rows);
    forall p: TreeSlice, q: TreeSlice | less(p, q)
      ensures !less(q, p)
    {
      CatalogBeforeOrders(db.catalog.rows[p.nssaiId], db.catalog.rows[q.nssaiId], db.catalog.rows[q.nssaiId]);
    }
    TreeReadSubset(db, u, x, y);
    TreeReadSubset(db, u, y, x);
    IncreasingUnique(less, x, y);
  }

  /** Defaults stand before the others, and names ascend among equals. */
  ghost predicate DefaultsFirst(flags: seq<bool>, names: seq<string>)
    requires |flags| == |names|
  {
    forall i, j :: 0 <= i < j < |flags| ==>
      (flags[j] ==> flags[i]) && (flags[i] == flags[j] ==> Text.Less(names[i], names[j]))
  }

  /** The order a reader sees: slices by SST, then SD with none first; DNNs and services with the defaults first. */
  lemma ReadingOrdered(db: Db, u: int, out: seq<TreeSlice>)
    requires Integrity(db) && TreeRead(db, u, out)
    ensures forall i, j :: 0 <= i < j < |out| ==>
              out[i].sst < out[j].sst || (out[i].sst == out[j].sst && Text.Less(out[i].sd, out[j].sd))
    ensures forall sl :: sl in out ==>
              && DefaultsFirst(seq(|sl.dnns|, k requires 0 <= k < |sl.dnns| => sl.dnns[k].isDefault),
                               seq(|sl.dnns|, k requires 0 <= k < |sl.dnns| => sl.dnns[k].dnn))
              && forall dn :: dn in sl.dnns ==>
                   DefaultsFirst(seq(|dn.services|, k requires 0 <= k < |dn.services| => dn.services[k].isDefault),
                                 seq(|dn.services|, k requires 0 <= k < |dn.services| => dn.services[k].service))
  {
    forall i, j | 0 <= i < j < |out|
      ensures out[i].sst < out[j].sst || (out[i].sst == out[j].sst && Text.Less(out[i].sd, out[j].sd))
    {
      SlicesOrdered(db, u, out, i, j);
    }
    hide Text.Less;
    forall sl | sl in out
      ensures DnnsRead(db.dnns.rows, db.bindings.rows, FindSlice(db.slices.rows, u, sl.nssaiId).value, sl.dnns)
    {
    }
  }

  lemma SlicesOrdered(db: Db, u: int, out: seq<TreeSlice>, i: nat, j: nat)
    requires Integrity(db) && TreeRead(db, u, out) && i < j < |out|
    ensures out[i].sst < out[j].sst || (out[i].sst == out[j].sst && Text.Less(out[i].sd, out[j].sd))
  {
    hide DnnsRead, Text.Less, CatalogBefore;
    var x, y := out[i], out[j];
    assert x in out && y in out;
    assert SliceLess(db.catalog.rows)(x, y);
    RowsOrdered(db.catalog.rows, x.nssaiId, y.nssaiId);
  }

  lemma RowsOrdered(catalog: map<int, CatalogRow>, m: int, n: int)
    requires UniqueCatalog(catalog) && m in catalog && n in catalog && CatalogBefore(catalog[m], catalog[n])
    ensures var x, y := catalog[m], catalog[n];
            x.sst < y.sst || (x.sst == y.sst && Text.Less(x.sd.GetOr(""), y.sd.GetOr("")))
  {
    var x, y := catalog[m], catalog[n];
    if x.sst == y.sst && x.sd.None? {
      assert y.sd.value != "";
    }
  }

  // ── The reading says exactly what the view holds ─────────────────────────

  /** Saves skip empty names, so a path with one cannot be written back. */
  predicate Named(p: Path) {
    match p
    case SlicePath(_) => true
    case DnnPath(_, dnn) => dnn != ""
    case ServicePath(_, dnn, service) => dnn != "" && service != ""
  }

  lemma {:induction false} ServiceItemsMember(n: int, dnn: string, services: seq<TreeService>, p: Path, flag: bool)
    ensures (p, flag) in ServiceItems(n, dnn, services) <==>
            p.ServicePath? && p.nssai == n && p.dnn == dnn && p.service != ""
                && TreeService(p.service, flag) in services
  {
    if services != [] {
      ServiceItemsMember(n, dnn, services[1..], p, flag);
      assert services == [services[0]] + services[1..];
    }
  }

  lemma {:induction false} DnnItemsMember(n: int, dnns: seq<TreeDnn>, p: Path, flag: bool)
    ensures (p, flag) in DnnItems(n, dnns) <==>
            exists dn :: dn in dnns && dn.dnn != "" && (p, flag) in OneDnnItems(n, dn)
  {
    if dnns != [] {
      DnnItemsMember(n, dnns[1..], p, flag);
      assert dnns == [dnns[0]] + dnns[1..];
    }
  }

  lemma {:induction false} SliceItemsMember(catalog: map<int, CatalogRow>, slices: seq<TreeSlice>, p: Path, flag: bool)
    ensures (p, flag) in SliceItems(catalog, slices) <==>
            exists sl :: sl in slices && (p, flag) in OneSliceItems(Resolve(catalog, sl), sl)
  {
    if slices != [] {
      SliceItemsMember(catalog, slices[1..], p, flag);
      assert slices == [slices[0]] + slices[1..];
    }
  }

  /** The flag is stored for that path of ue u. */
  ghost predicate Stored(db: Db, u: int, p: Path, flag: bool)
    requires Integrity(db)
  {
    (u, p) in Flags(db) && Flags(db)[(u, p)] == flag
  }

  lemma DnnStored(db: Db, u: int, n: int, dnn: TreeDnn, p: Path, flag: bool)
    requires Integrity(db) && FindSlice(db.slices.rows, u, n).Some?
    requires var s := FindSlice(db.slices.rows, u, n).value;
             FindDnn(db.dnns.rows, s, dnn.dnn).Some? &&
             DnnRead(db.dnns.rows, db.bindings.rows, dnn, FindDnn(db.dnns.rows, s, dnn.dnn).value)
    requires dnn.dnn != ""
    ensures (p, flag) in OneDnnItems(n, dnn) <==>
            Stored(db, u, p, flag) && Named(p) && !p.SlicePath? && p.nssai == n && p.dnn == dnn.dnn
  {
    hide TreeFlags;
    var s := FindSlice(db.slices.rows, u, n).value;
    var d := FindDnn(db.dnns.rows, s, dnn.dnn).value;
    ServiceItemsMember(n, dnn.dnn, dnn.services, p, flag);
    FlagOfDnn(db.slices.rows, db.dnns.rows, db.bindings.rows, s, dnn.dnn);
    if p.ServicePath? {
      FlagOfBinding(db.slices.rows, db.dnns.rows, db.bindings.rows, d, p.service);
    }
  }

  lemma DnnRowOf(s: map<int, SliceRow>, d: map<int, DnnRow>, u: int, n: int, dnn: string)
    requires UniqueSlices(s) && UniqueDnns(d) && DnnRefs(s, d) && (u, DnnPath(n, dnn)) in DnnFlags(s, d)
    ensures FindSlice(s, u, n).Some? && FindDnn(d, FindSlice(s, u, n).value, dnn).Some?
  {
    var i :| i in DnnEntries(s, d) && DnnEntries(s, d)[i].0 == (u, DnnPath(n, dnn));
    assert s[d[i].slice].ue == u && s[d[i].slice].nssai == n;
  }

  lemma BindingRowOf(s: map<int, SliceRow>, d: map<int, DnnRow>, b: map<int, BindingRow>,
                     u: int, n: int, dnn: string, service: string)
    requires Linked(s, d, b) && (u, ServicePath(n, dnn, service)) in BindingFlags(s, d, b)
    ensures FindSlice(s, u, n).Some? && FindDnn(d, FindSlice(s, u, n).value, dnn).Some?
  {
    var i :| i in BindingEntries(s, d, b) && BindingEntries(s, d, b)[i].0 == (u, ServicePath(n, dnn, service));
    var j := b[i].sliceDnn;
    assert s[d[j].slice].ue == u && s[d[j].slice].nssai == n && d[j].dnn == dnn;
  }

  /** A stored path below a slice hangs below a DNN row of that slice. */
  lemma StoredHasDnn(db: Db, u: int, p: Path)
    requires Integrity(db) && (u, p) in Flags(db) && !p.SlicePath?
    ensures FindSlice(db.slices.rows, u, p.nssai).Some?
    ensures FindDnn(db.dnns.rows, FindSlice(db.slices.rows, u, p.nssai).value, p.dnn).Some?
  {
    hide DnnFlags, BindingFlags, SliceFlags;
    match p
    case DnnPath(n, dnn) => DnnRowOf(db.slices.rows, db.dnns.rows, u, n, dnn);
    case ServicePath(n, dnn, service) => BindingRowOf(db.slices.rows, db.dnns.rows, db.bindings.rows, u, n, dnn,
                                                      service);
    case _ =>
  }

  lemma SliceStored(db: Db, u: int, sl: TreeSlice, p: Path, flag: bool)
    requires Integrity(db) && FindSlice(db.slices.rows, u, sl.nssaiId).Some?
    requires SliceRead(db, sl, FindSlice(db.slices.rows, u, sl.nssaiId).value)
    ensures (p, flag) in OneSliceItems(sl.nssaiId, sl) <==> Stored(db, u, p, flag) && Named(p) && p.nssai == sl.nssaiId
  {
    hide TreeFlags, ServicesRead, OneDnnItems;
    var n, s := sl.nssaiId, FindSlice(db.slices.rows, u, sl.nssaiId).value;
    FlagOfSlice(db.slices.rows, db.dnns.rows, db.bindings.rows, u, n);
    DnnItemsMember(n, sl.dnns, p, flag);
    forall dn | dn in sl.dnns && dn.dnn != ""
      ensures (p, flag) in OneDnnItems(n, dn) <==>
              Stored(db, u, p, flag) && Named(p) && !p.SlicePath? && p.nssai == n && p.dnn == dn.dnn
    {
      DnnStored(db, u, n, dn, p, flag);
    }
    if Stored(db, u, p, flag) && !p.SlicePath? && p.nssai == n {
      StoredHasDnn(db, u, p);
    }
    assert forall dn :: dn in sl.dnns && (p, flag) in DnnItems(n, sl.dnns) ==> !p.SlicePath?;
  }

  lemma TreeStored(db: Db, u: int, out: seq<TreeSlice>, p: Path, flag: bool)
    requires Integrity(db) && TreeRead(db, u, out)
    ensures (p, flag) in SliceItems(db.catalog.rows, out) <==> Stored(db, u, p, flag) && Named(p)
  {
    hide TreeFlags, DnnsRead, OneSliceItems;
    SliceItemsMember(db.catalog.rows, out, p, flag);
    forall sl | sl in out
      ensures Resolve(db.catalog.rows, sl) == sl.nssaiId
      ensures (p, flag) in OneSliceItems(sl.nssaiId, sl) <==>
              Stored(db, u, p, flag) && Named(p) && p.nssai == sl.nssaiId
    {
      SliceStored(db, u, sl, p, flag);
    }
    if Stored(db, u, p, flag) {
      FlagOfSlice(db.slices.rows, db.dnns.rows, db.bindings.rows, u, p.nssai);
      TreeSave.FlagHasSlice(db, (u, p));
    }
  }

  lemma PutAllExactly(items: seq<(Path, bool)>, m: map<Path, bool>)
    requires forall e :: e in items <==> e.0 in m && m[e.0] == e.1
    ensures PutAll(map[], items) == m
  {
    var r := PutAll(map[], items);
    forall p
      ensures p in r <==> p in m
      ensures p in r && p in m ==> r[p] == m[p]
    {
      PutAllMeaning(map[], items, p);
      var i := FirstIndex(items, p);
      if i < |items| {
        assert items[i] in items;
      }
      if p in m {
        var e := (p, m[p]);
        assert e in items;
      }
    }
  }

  /** The named part of a tree: what a save can write. */
  ghost function NamedPart(t: map<Path, bool>): map<Path, bool> {
    map p | p in t && Named(p) :: t[p]
  }

  /** A reading, taken as a tree to save, says exactly the named part of the view. */
  lemma TreeReadSays(db: Db, u: int, out: seq<TreeSlice>)
    requires Integrity(db) && TreeRead(db, u, out)
    ensures PutAll(map[], SliceItems(db.catalog.rows, out)) == NamedPart(TreeOf(Flags(db), u))
  {
    hide TreeRead, Flags;
    forall e: (Path, bool)
      ensures e in SliceItems(db.catalog.rows, out) <==> Stored(db, u, e.0, e.1) && Named(e.0)
    {
      TreeStored(db, u, out, e.0, e.1);
      assert e == (e.0, e.1);
    }
    PutAllExactly(SliceItems(db.catalog.rows, out), NamedPart(TreeOf(Flags(db), u)));
  }
}
