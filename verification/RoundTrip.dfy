/** Save followed by get, and get followed by save. */
module RoundTrip {
  import opened Wrappers
  import opened FirstWins
  import opened Schema
  import opened Rows
  import opened Views
  import opened SubscriptionTree
  import opened TreeSave
  import opened TreeGet

  lemma {:induction false} ServicesReadKnown(db: Db, d: int, services: seq<TreeService>)
    requires Integrity(db)
    requires forall sv :: sv in services ==> FindBinding(db.bindings.rows, d, sv.service).Some?
    ensures ServicesKnown(db.services, services)
  {
    if services != [] {
      assert services[0] in services;
      assert forall sv :: sv in services[1..] ==> sv in services;
      ServicesReadKnown(db, d, services[1..]);
    }
  }

  lemma {:induction false} DnnsReadKnown(db: Db, s: int, dnns: seq<TreeDnn>)
    requires Integrity(db)
    requires forall dn :: dn in dnns ==>
               FindDnn(db.dnns.rows, s, dn.dnn).Some? &&
               DnnRead(db.dnns.rows, db.bindings.rows, dn, FindDnn(db.dnns.rows, s, dn.dnn).value)
    ensures DnnsKnown(db.apns, db.services, dnns)
  {
    if dnns != [] {
      assert dnns[0] in dnns;
      assert forall dn :: dn in dnns[1..] ==> dn in dnns;
      ServicesReadKnown(db, FindDnn(db.dnns.rows, s, dnns[0].dnn).value, dnns[0].services);
      DnnsReadKnown(db, s, dnns[1..]);
    }
  }

  lemma {:induction false} TreeReadStorable(db: Db, u: int, out: seq<TreeSlice>)
    requires Integrity(db)
    requires forall sl :: sl in out ==>
               FindSlice(db.slices.rows, u, sl.nssaiId).Some? &&
               SliceRead(db, sl, FindSlice(db.slices.rows, u, sl.nssaiId).value)
    ensures Storable(db.catalog, db.apns, db.services, out)
    ensures RegisterAll(db.catalog, out) == db.catalog
    decreases |out|
  {
    if out != [] {
      assert out[0] in out;
      assert forall sl :: sl in out[1..] ==> sl in out;
      DnnsReadKnown(db, FindSlice(db.slices.rows, u, out[0].nssaiId).value, out[0].dnns);
      TreeReadStorable(db, u, out[1..]);
    }
  }

  /**
   * Saving what get returned: it always succeeds, adds no catalog row, touches nobody else, and keeps
   * the named part of the tree. So it leaves the view as it was exactly when no stored DNN or service
   * name is empty.
   */
  lemma SaveWhatWasGot(db: Db, imsi: string, out: seq<TreeSlice>)
    requires Integrity(db) && FindUe(db.ue.rows, imsi).Some?
    requires TreeRead(db, FindUe(db.ue.rows, imsi).value, out)
    ensures var (db', r) := Save(db, imsi, out);
            && r.Ok? && Integrity(db') && db'.catalog == db.catalog && OthersKept(db, db', imsi)
            && View(db', imsi) == Some(View(db, imsi).value.(tree := NamedPart(View(db, imsi).value.tree)))
            && (View(db', imsi) == View(db, imsi) <==> forall p :: p in View(db, imsi).value.tree ==> Named(p))
  {
    hide Flags, Storable, SliceItems, RegisterAll, Integrity, View, TreeRead, Save, NamedPart, Named;
    ViewTree(db, imsi);
    ReadingStorable(db, FindUe(db.ue.rows, imsi).value, out);
    SaveMeaning(db, imsi, out);
    TreeReadSays(db, FindUe(db.ue.rows, imsi).value, out);
    WholeWhenNamed(View(db, imsi).value.tree);
  }

  lemma ReadingStorable(db: Db, u: int, out: seq<TreeSlice>)
    requires Integrity(db) && TreeRead(db, u, out)
    ensures Storable(db.catalog, db.apns, db.services, out) && RegisterAll(db.catalog, out) == db.catalog
  {
    TreeReadStorable(db, u, out);
  }

  lemma ViewTree(db: Db, imsi: string)
    requires Integrity(db) && FindUe(db.ue.rows, imsi).Some?
    ensures View(db, imsi).Some? && View(db, imsi).value.tree == TreeOf(Flags(db), FindUe(db.ue.rows, imsi).value)
  {
    hide Flags, TreeOf, AuthOf;
  }

  lemma WholeWhenNamed(t: map<Path, bool>)
    ensures NamedPart(t) == t <==> forall p :: p in t ==> Named(p)
  {
    if NamedPart(t) == t {
      assert forall p :: p in t ==> p in NamedPart(t);
    }
  }

  /** Where apn_config and services hold no empty name, no path has one: names are foreign keys. */
  lemma StoredNamed(db: Db, u: int, p: Path)
    requires Integrity(db) && "" !in db.apns && "" !in db.services && p in TreeOf(Flags(db), u)
    ensures Named(p)
  {
    var s, d, b := db.slices.rows, db.dnns.rows, db.bindings.rows;
    if (u, p) in DnnFlags(s, d) {
      var i :| i in DnnEntries(s, d) && DnnEntries(s, d)[i].0 == (u, p);
      assert d[i].dnn == p.dnn;
    } else if (u, p) in BindingFlags(s, d, b) {
      var i :| i in BindingEntries(s, d, b) && BindingEntries(s, d, b)[i].0 == (u, p);
      assert d[b[i].sliceDnn].dnn == p.dnn && b[i].service == p.service;
    }
  }

  /** So reading a tree and saving what was read changes no view and no catalog row. */
  lemma SaveAfterGetChangesNothing(db: Db, imsi: string, out: seq<TreeSlice>)
    requires Integrity(db) && FindUe(db.ue.rows, imsi).Some? && "" !in db.apns && "" !in db.services
    requires TreeRead(db, FindUe(db.ue.rows, imsi).value, out)
    ensures var (db', r) := Save(db, imsi, out);
            && r.Ok? && Integrity(db') && db'.catalog == db.catalog
            && forall other :: View(db', other) == View(db, other)
  {
    hide Flags, Integrity, View, TreeRead, Save, Named;
    SaveWhatWasGot(db, imsi, out);
    ViewTree(db, imsi);
    forall p | p in View(db, imsi).value.tree
      ensures Named(p)
    {
      StoredNamed(db, FindUe(db.ue.rows, imsi).value, p);
    }
  }

  lemma ItemsNamed(catalog: map<int, CatalogRow>, slices: seq<TreeSlice>, p: Path, flag: bool)
    requires (p, flag) in SliceItems(catalog, slices)
    ensures Named(p)
  {
    SliceItemsMember(catalog, slices, p, flag);
    var sl :| sl in slices && (p, flag) in OneSliceItems(Resolve(catalog, sl), sl);
    var n := Resolve(catalog, sl);
    if (p, flag) in DnnItems(n, sl.dnns) {
      DnnItemsMember(n, sl.dnns, p, flag);
      var dn :| dn in sl.dnns && dn.dnn != "" && (p, flag) in OneDnnItems(n, dn);
      ServiceItemsMember(n, dn.dnn, dn.services, p, flag);
    }
  }

  /**
   * Getting what was saved: the one ordered reading, and it says the same as the saved tree, its
   * duplicates merged first-wins and its empty names dropped.
   */
  lemma GetWhatWasSaved(db: Db, imsi: string, slices: seq<TreeSlice>, out: seq<TreeSlice>)
    requires Integrity(db) && Saveable(db, imsi, slices)
    requires var (db', r) := Save(db, imsi, slices);
             Integrity(db') && FindUe(db'.ue.rows, imsi).Some? && TreeRead(db', FindUe(db'.ue.rows, imsi).value, out)
    ensures var catalog := Save(db, imsi, slices).0.catalog.rows;
            PutAll(map[], SliceItems(catalog, out)) == PutAll(map[], SliceItems(catalog, slices))
  {
    hide Flags, Storable, RegisterAll, Saveable, SliceItems, Save, TreeRead;
    var (db', r) := Save(db, imsi, slices);
    SaveMeaning(db, imsi, slices);
    var t := View(db', imsi).value.tree;
    TreeReadSays(db', FindUe(db'.ue.rows, imsi).value, out);
    forall p | p in t
      ensures Named(p)
    {
      var items := SliceItems(db'.catalog.rows, slices);
      PutAllMeaning(map[], items, p);
      ItemsNamed(db'.catalog.rows, slices, p, items[FirstIndex(items, p)].1);
    }
    assert NamedPart(t) == t;
  }
}
