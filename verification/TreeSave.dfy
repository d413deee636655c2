/** SubscriptionTreeSave: clear the UE's tree, walk the new one, all in one transaction. */
module TreeSave {
  import opened Wrappers
  import opened FirstWins
  import opened Schema
  import opened Rows
  import opened Views
  import opened SubscriptionTree

  function SlicesOf(slices: map<int, SliceRow>, u: int): set<int> {
    set i | i in slices && slices[i].ue == u
  }

  /** DELETE FROM ue_subscribed_nssai WHERE ue_id=? */
  function ClearTree(db: Db, u: int): Db {
    DeleteSlices(db, SlicesOf(db.slices.rows, u))
  }

  /** The whole call: the tables afterwards and what is returned. An error leaves the tables alone. */
  function Save(db: Db, imsi: string, slices: seq<TreeSlice>): (Db, Result<Counts, Error>) {
    var found := FindUe(db.ue.rows, imsi);
    if found.None? then (db, Err(Missing("UE")))
    else
      match SaveSlices(ClearTree(db, found.value), found.value, slices)
      case Ok(saved) => (saved.db, Ok(saved.counts))
      case Err(e) => (db, Err(e))
  }

  /** Every key of the view hangs below a subscribed slice. */
  lemma FlagHasSlice(db: Db, k: (int, Path))
    requires Integrity(db) && k in Flags(db)
    ensures exists i :: i in db.slices.rows && SliceKey(db.slices.rows[i]) == (k.0, SlicePath(k.1.nssai))
  {
    var s, d, b := db.slices.rows, db.dnns.rows, db.bindings.rows;
    if k in SliceFlags(s) {
      var i :| i in SliceEntries(s) && SliceEntries(s)[i].0 == k;
      assert SliceKey(s[i]) == k;
    } else if k in DnnFlags(s, d) {
      var i :| i in DnnEntries(s, d) && DnnEntries(s, d)[i].0 == k;
      assert SliceKey(s[d[i].slice]) == (k.0, SlicePath(k.1.nssai));
    } else {
      var i :| i in BindingEntries(s, d, b) && BindingEntries(s, d, b)[i].0 == k;
      assert SliceKey(s[d[b[i].sliceDnn].slice]) == (k.0, SlicePath(k.1.nssai));
    }
  }

  lemma ClearTreeMeaning(db: Db, u: int)
    requires Integrity(db)
    ensures var db' := ClearTree(db, u);
            && Integrity(db') && SameAccounts(db, db')
            && TreeOf(Flags(db'), u) == map[]
            && forall v :: v != u ==> TreeOf(Flags(db'), v) == TreeOf(Flags(db), v)
  {
    hide TreeFlags;
    var ids := SlicesOf(db.slices.rows, u);
    var gone := Under(Flags(db), Owners(db.slices.rows, ids));
    DeleteSlicesMeaning(db, ids);
    forall k | k in Flags(db)
      ensures k in gone <==> k.0 == u
    {
      FlagHasSlice(db, k);
    }
    TreeOfDrop(Flags(db), u, gone);
  }

  /** The error condition, exactly. */
  predicate Saveable(db: Db, imsi: string, slices: seq<TreeSlice>) {
    FindUe(db.ue.rows, imsi).Some? && Storable(db.catalog, db.apns, db.services, slices)
  }

  /**
   * Saving replaces the UE's tree by the tree's own items, first item of a path winning, touches
   * no other subscriber, and changes nothing at all when it fails.
   */
  lemma SaveMeaning(db: Db, imsi: string, slices: seq<TreeSlice>)
    requires Integrity(db)
    ensures var (db', r) := Save(db, imsi, slices);
            && Integrity(db')
            && (r.Ok? <==> Saveable(db, imsi, slices))
            && (r.Err? ==> db' == db)
            && SameAccounts(db.(catalog := db'.catalog), db') && CatalogKept(db, db')
            && OthersKept(db, db', imsi)
            && (r.Ok? ==>
                  && r.value == CountSlices(slices)
                  && db'.catalog == RegisterAll(db.catalog, slices)
                  && View(db', imsi) == Some(View(db, imsi).value.(
                                               tree := PutAll(map[], SliceItems(db'.catalog.rows, slices)))))
  {
    hide Flags, Storable, SliceItems, RegisterAll, TreeOf, SaveSlices, ClearTree;
    var found := FindUe(db.ue.rows, imsi);
    if found.Some? {
      var u := found.value;
      ClearTreeMeaning(db, u);
      var tx := ClearTree(db, u);
      SaveSlicesMeaning(tx, u, slices);
      var r := SaveSlices(tx, u, slices);
      if r.Ok? {
        TreeOfPutTree(Flags(tx), u, SliceItems(r.value.db.catalog.rows, slices));
      }
    }
  }
}
