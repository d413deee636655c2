/** SliceDNNSave: replace the DNNs of a UE's slices, found by (sst, upper-case sd). */
module DnnSave {
  import opened Wrappers
  import opened FirstWins
  import opened Schema
  import opened Rows
  import opened Views
  import opened TreeSave
  import Sst
  import Text

  datatype DnnInput = DnnInput(sst: Sst.Input, sd: string, dnn: string, isDefault: bool)

  type SliceTag = (int, string)

  function TagOf(db: Db, i: int): SliceTag
    requires i in db.slices.rows && db.slices.rows[i].nssai in db.catalog.rows
  {
    var row := db.catalog.rows[db.slices.rows[i].nssai];
    (row.sst, Text.Upper(row.sd.GetOr("")))
  }

  /**
   * A map the first query can build: each tag of the UE's slices, with one of the slice rows that
   * carry it. The query has no ORDER BY, so when two slices share a tag either may be kept.
   */
  ghost predicate Keying(db: Db, u: int, keyed: map<SliceTag, int>)
    requires Integrity(db)
  {
    && (forall t :: t in keyed ==> keyed[t] in SlicesOf(db.slices.rows, u) && TagOf(db, keyed[t]) == t)
    && (forall i :: i in SlicesOf(db.slices.rows, u) ==> TagOf(db, i) in keyed)
  }

  function TagWanted(item: DnnInput): SliceTag {
    (Sst.Normalize(item.sst), Text.Upper(Text.Trim(item.sd)))
  }

  function InsertDnns(db: Db, keyed: map<SliceTag, int>, items: seq<DnnInput>): Result<Db, Error>
    decreases |items|
  {
    if items == [] then Ok(db)
    else if TagWanted(items[0]) !in keyed then InsertDnns(db, keyed, items[1..])
    else
      var db1 :- PutDnn(db, keyed[TagWanted(items[0])], items[0].dnn, items[0].isDefault);
      InsertDnns(db1, keyed, items[1..])
  }

  function Save(db: Db, imsi: string, keyed: map<SliceTag, int>, items: seq<DnnInput>): (Db, Result<nat, Error>) {
    var found := FindUe(db.ue.rows, imsi);
    if found.None? then (db, Err(Missing("UE")))
    else
      match InsertDnns(DeleteDnnsOf(db, keyed.Values), keyed, items)
      case Ok(saved) => (saved, Ok(|items|))
      case Err(e) => (db, Err(e))
  }

  // ── What it writes ───────────────────────────────────────────────────────

  /** The catalog ids of the slices the map reaches. */
  function Reached(slices: map<int, SliceRow>, keyed: map<SliceTag, int>): set<int> {
    set t | t in keyed && keyed[t] in slices :: slices[keyed[t]].nssai
  }

  function InputItems(slices: map<int, SliceRow>, keyed: map<SliceTag, int>, items: seq<DnnInput>): seq<(Path, bool)>
    requires forall t :: t in keyed ==> keyed[t] in slices
  {
    if items == [] then []
    else
      var t := TagWanted(items[0]);
      (if t !in keyed then [] else [(DnnPath(slices[keyed[t]].nssai, items[0].dnn), items[0].isDefault)])
      + InputItems(slices, keyed, items[1..])
  }

  /** A DNN name that is used must be in apn_config. */
  predicate InputsKnown(apns: set<string>, keyed: map<SliceTag, int>, items: seq<DnnInput>) {
    items == [] ||
    ((TagWanted(items[0]) !in keyed || items[0].dnn in apns) && InputsKnown(apns, keyed, items[1..]))
  }

  /** A tree without what lies below the reached slices. */
  ghost function Wiped(t: map<Path, bool>, reached: set<int>): map<Path, bool> {
    map p | p in t && (p.SlicePath? || p.nssai !in reached) :: t[p]
  }

  lemma {:induction false} InsertDnnsMeaning(db: Db, u: int, keyed: map<SliceTag, int>, items: seq<DnnInput>)
    requires Integrity(db)
    requires forall t :: t in keyed ==> keyed[t] in db.slices.rows && db.slices.rows[keyed[t]].ue == u
    ensures var r := InsertDnns(db, keyed, items);
            && (r.Ok? <==> InputsKnown(db.apns, keyed, items))
            && (r.Ok? ==> Integrity(r.value) && SameAccounts(db, r.value))
            && (r.Ok? ==> Flags(r.value) == PutTree(Flags(db), u, InputItems(db.slices.rows, keyed, items)))
    decreases |items|
  {
    hide Flags, Integrity, TagWanted;
    if items != [] {
      var t := TagWanted(items[0]);
      var rest := InputItems(db.slices.rows, keyed, items[1..]);
      if t !in keyed {
        assert [] + rest == rest;
        InsertDnnsMeaning(db, u, keyed, items[1..]);
      } else {
        PutDnnMeaning(db, keyed[t], items[0].dnn, items[0].isDefault);
        var r := PutDnn(db, keyed[t], items[0].dnn, items[0].isDefault);
        assert InputItems(db.slices.rows, keyed, items)[1..] == rest;
        if r.Ok? {
          InsertDnnsMeaning(r.value, u, keyed, items[1..]);
        }
      }
    }
  }

  lemma WipeMeaning(db: Db, u: int, keyed: map<SliceTag, int>)
    requires Integrity(db) && Keying(db, u, keyed)
    ensures var db' := DeleteDnnsOf(db, keyed.Values);
            && Integrity(db') && SameAccounts(db, db') && db'.slices == db.slices
            && TreeOf(Flags(db'), u) == Wiped(TreeOf(Flags(db), u), Reached(db.slices.rows, keyed))
            && forall v :: v != u ==> TreeOf(Flags(db'), v) == TreeOf(Flags(db), v)
  {
    hide Flags;
    var s, m, ids := db.slices.rows, Flags(db), keyed.Values;
    DeleteDnnsOfMeaning(db, ids);
    forall k | k in m
      ensures k in Below(m, Owners(s, ids)) <==> k.0 == u && !k.1.SlicePath? && k.1.nssai in Reached(s, keyed)
    {
      if k.0 == u && k.1.nssai in Reached(s, keyed) {
        var t :| t in keyed && s[keyed[t]].nssai == k.1.nssai;
        assert keyed[t] in ids;
      }
    }
    TreeOfWipe(m, u, Below(m, Owners(s, ids)), Reached(s, keyed));
  }

  lemma TreeOfWipe(m: Flagging, u: int, gone: set<(int, Path)>, reached: set<int>)
    requires forall k :: k in m ==> (k in gone <==> k.0 == u && !k.1.SlicePath? && k.1.nssai in reached)
    ensures TreeOf(m - gone, u) == Wiped(TreeOf(m, u), reached)
    ensures forall v :: v != u ==> TreeOf(m - gone, v) == TreeOf(m, v)
  {
    forall v | v != u
      ensures TreeOf(m - gone, v) == TreeOf(m, v)
    {
    }
  }

  /**
   * The named slices' DNNs are replaced by the items that match them, first item of a name winning;
   * slices themselves, every other subscriber, the accounts and the catalog stay; a failure changes
   * nothing.
   */
  lemma SaveMeaning(db: Db, imsi: string, keyed: map<SliceTag, int>, items: seq<DnnInput>)
    requires Integrity(db)
    requires FindUe(db.ue.rows, imsi).Some? ==> Keying(db, FindUe(db.ue.rows, imsi).value, keyed)
    ensures var (db', r) := Save(db, imsi, keyed, items);
            && Integrity(db') && OthersKept(db, db', imsi) && SameAccounts(db, db')
            && (r.Ok? <==> FindUe(db.ue.rows, imsi).Some? && InputsKnown(db.apns, keyed, items))
            && (r.Err? ==> db' == db)
            && (r.Ok? ==>
                  && r.value == |items|
                  && View(db', imsi) == Some(View(db, imsi).value.(tree :=
                       PutAll(Wiped(View(db, imsi).value.tree, Reached(db.slices.rows, keyed)),
                              InputItems(db.slices.rows, keyed, items)))))
  {
    hide Flags, TreeOf, InsertDnns, DeleteDnnsOf, InputItems;
    var found := FindUe(db.ue.rows, imsi);
    if found.Some? {
      var u := found.value;
      WipeMeaning(db, u, keyed);
      var tx := DeleteDnnsOf(db, keyed.Values);
      InsertDnnsMeaning(tx, u, keyed, items);
      TreeOfPutTree(Flags(tx), u, InputItems(tx.slices.rows, keyed, items));
    }
  }

  // ── Where an item lands ──────────────────────────────────────────────────

  /** The catalog row n carries the SST of an item, as read, and its trimmed SD up to case. */
  ghost predicate Matches(catalog: map<int, CatalogRow>, item: DnnInput, n: int) {
    && n in catalog && Sst.Reads(item.sst, catalog[n].sst)
    && Text.Upper(catalog[n].sd.GetOr("")) == Text.Upper(Text.Trim(item.sd))
  }

  /** The slice row an item is written under, in the map of one run of the query. */
  lemma MatchFound(db: Db, u: int, keyed: map<SliceTag, int>, item: DnnInput, i: int)
    requires Integrity(db) && Keying(db, u, keyed) && i in SlicesOf(db.slices.rows, u)
    requires var row := db.catalog.rows[db.slices.rows[i].nssai];
             row.sst == Sst.Normalize(item.sst) && Text.Upper(row.sd.GetOr("")) == Text.Upper(Text.Trim(item.sd))
    ensures TagWanted(item) in keyed
  {
    NssaisExist(db);
    hide Integrity, Sst.Normalize, Text.Upper, Text.Trim;
    assert TagOf(db, i) == TagWanted(item);
  }

  lemma KeyMatches(db: Db, u: int, keyed: map<SliceTag, int>, item: DnnInput)
    requires Integrity(db) && Keying(db, u, keyed) && TagWanted(item) in keyed
    ensures keyed[TagWanted(item)] in SlicesOf(db.slices.rows, u)
    ensures Matches(db.catalog.rows, item, db.slices.rows[keyed[TagWanted(item)]].nssai)
  {
    NssaisExist(db);
    hide Integrity, Sst.Normalize, Sst.Reads, Text.Upper, Text.Trim;
    assert TagOf(db, keyed[TagWanted(item)]) == TagWanted(item);
    Sst.NormalizeMeaning(item.sst);
  }

  lemma {:induction false} InputMember(slices: map<int, SliceRow>, keyed: map<SliceTag, int>, items: seq<DnnInput>,
                                       e: (Path, bool))
    requires forall t :: t in keyed ==> keyed[t] in slices
    ensures e in InputItems(slices, keyed, items) <==>
            exists k :: 0 <= k < |items| && TagWanted(items[k]) in keyed
                        && e == (DnnPath(slices[keyed[TagWanted(items[k])]].nssai, items[k].dnn), items[k].isDefault)
  {
    hide TagWanted;
    if items != [] {
      InputMember(slices, keyed, items[1..], e);
      assert forall k :: 1 <= k < |items| ==> items[k] == items[1..][k - 1];
      assert e in InputItems(slices, keyed, items[1..]) <==>
             exists k :: 1 <= k < |items| && TagWanted(items[k]) in keyed
                         && e == (DnnPath(slices[keyed[TagWanted(items[k])]].nssai, items[k].dnn), items[k].isDefault);
    }
  }

  /**
   * After a save, every DNN that was not there before stands below a slice of the UE that has the SST and
   * the SD, up to case, of an item with that DNN, and is marked default as that item says.
   */
  lemma NewDnnsMatch(db: Db, imsi: string, keyed: map<SliceTag, int>, items: seq<DnnInput>, p: Path)
    requires Integrity(db) && Save(db, imsi, keyed, items).1.Ok?
    requires FindUe(db.ue.rows, imsi).Some? && Keying(db, FindUe(db.ue.rows, imsi).value, keyed)
    requires var db' := Save(db, imsi, keyed, items).0;
             Integrity(db') && View(db', imsi).Some? && View(db, imsi).Some?
             && p in View(db', imsi).value.tree && p !in View(db, imsi).value.tree
    ensures SlicePath(p.nssai) in View(db, imsi).value.tree && p.DnnPath?
    ensures exists k :: 0 <= k < |items| && items[k].dnn == p.dnn && Matches(db.catalog.rows, items[k], p.nssai)
                        && View(Save(db, imsi, keyed, items).0, imsi).value.tree[p] == items[k].isDefault
  {
    hide Integrity, Flags, Save, InputItems, Wiped, Reached, Matches, TagWanted, Keying;
    var u := FindUe(db.ue.rows, imsi).value;
    SaveMeaning(db, imsi, keyed, items);
    KeyingRows(db, u, keyed);
    var tree := View(db, imsi).value.tree;
    var bare, written := Wiped(tree, Reached(db.slices.rows, keyed)), InputItems(db.slices.rows, keyed, items);
    WipedBelow(tree, Reached(db.slices.rows, keyed), p);
    PutAllMeaning(bare, written, p);
    var e := written[FirstIndex(written, p)];
    InputMember(db.slices.rows, keyed, items, e);
    var k :| 0 <= k < |items| && TagWanted(items[k]) in keyed
             && e == (DnnPath(db.slices.rows[keyed[TagWanted(items[k])]].nssai, items[k].dnn), items[k].isDefault);
    KeyMatches(db, u, keyed, items[k]);
    SliceSeen(db, imsi, keyed[TagWanted(items[k])]);
  }

  /**
   * After a save, an item whose SST and SD, up to case, are those of a slice of the UE has its DNN below a
   * slice of the UE with that SST and SD.
   */
  lemma MatchedItemsLand(db: Db, imsi: string, keyed: map<SliceTag, int>, items: seq<DnnInput>, k: nat, i: int)
    requires Integrity(db) && Save(db, imsi, keyed, items).1.Ok? && k < |items|
    requires FindUe(db.ue.rows, imsi).Some? && Keying(db, FindUe(db.ue.rows, imsi).value, keyed)
    requires i in SlicesOf(db.slices.rows, FindUe(db.ue.rows, imsi).value)
    requires db.slices.rows[i].nssai in db.catalog.rows
    requires var row := db.catalog.rows[db.slices.rows[i].nssai];
             && row.sst == Sst.Normalize(items[k].sst)
             && Text.Upper(row.sd.GetOr("")) == Text.Upper(Text.Trim(items[k].sd))
    ensures var db' := Save(db, imsi, keyed, items).0;
            && Integrity(db') && View(db', imsi).Some?
            && exists n ::
                 Matches(db.catalog.rows, items[k], n) && DnnPath(n, items[k].dnn) in View(db', imsi).value.tree
  {
    hide Integrity, Save, InputItems, Wiped, Reached, Matches, TagWanted, Keying, View, Text.Upper, Text.Trim;
    var u := FindUe(db.ue.rows, imsi).value;
    SaveMeaning(db, imsi, keyed, items);
    KeyingRows(db, u, keyed);
    MatchFound(db, u, keyed, items[k], i);
    KeyMatches(db, u, keyed, items[k]);
    SliceSeen(db, imsi, i);
    var written := InputItems(db.slices.rows, keyed, items);
    var n := db.slices.rows[keyed[TagWanted(items[k])]].nssai;
    var e := (DnnPath(n, items[k].dnn), items[k].isDefault);
    InputMember(db.slices.rows, keyed, items, e);
    PutAllMeaning(Wiped(View(db, imsi).value.tree, Reached(db.slices.rows, keyed)), written, e.0);
    assert e in written;
  }

  lemma KeyingRows(db: Db, u: int, keyed: map<SliceTag, int>)
    requires Integrity(db) && Keying(db, u, keyed)
    ensures forall t :: t in keyed ==> keyed[t] in db.slices.rows
  {
  }

  lemma WipedBelow(tree: map<Path, bool>, reached: set<int>, p: Path)
    ensures p in Wiped(tree, reached) ==> p in tree
  {
  }

  lemma SliceSeen(db: Db, imsi: string, i: int)
    requires Integrity(db) && FindUe(db.ue.rows, imsi).Some?
    requires i in SlicesOf(db.slices.rows, FindUe(db.ue.rows, imsi).value)
    ensures View(db, imsi).Some? && SlicePath(db.slices.rows[i].nssai) in View(db, imsi).value.tree
  {
    hide TreeFlags;
    FlagOfSlice(db.slices.rows, db.dnns.rows, db.bindings.rows, db.slices.rows[i].ue, db.slices.rows[i].nssai);
  }

  // ── "Replaces all slice-DNN authorizations" ──────────────────────────────

  /** Nothing below a slice survives the wipe. */
  ghost predicate WipesAll(db: Db, u: int, keyed: map<SliceTag, int>) {
    forall i :: i in db.dnns.rows && db.dnns.rows[i].slice in SlicesOf(db.slices.rows, u) ==>
      db.dnns.rows[i].slice in keyed.Values
  }

  /** Of the UE's slices that share a tag (their SDs differ only in case), none has a DNN. */
  predicate NoClashHoldsDnns(db: Db, u: int)
    requires forall i :: i in db.slices.rows ==> db.slices.rows[i].nssai in db.catalog.rows
  {
    forall i, j | i in SlicesOf(db.slices.rows, u) && j in SlicesOf(db.slices.rows, u) && i != j ::
      TagOf(db, i) == TagOf(db, j) ==> forall d :: d in db.dnns.rows ==> db.dnns.rows[d].slice != i
  }

  ghost function SomeKeying(db: Db, u: int): (keyed: map<SliceTag, int>)
    requires Integrity(db)
    ensures Keying(db, u, keyed)
  {
    var tags := set i | i in SlicesOf(db.slices.rows, u) :: TagOf(db, i);
    map t | t in tags :: var i :| i in SlicesOf(db.slices.rows, u) && TagOf(db, i) == t; i
  }

  lemma NoClashWipesAll(db: Db, u: int, keyed: map<SliceTag, int>)
    requires Integrity(db) && NoClashHoldsDnns(db, u) && Keying(db, u, keyed)
    ensures WipesAll(db, u, keyed)
  {
    hide TablesValid, UniqueSlices, UniqueDnns, UniqueBindings, UniqueCatalog, UniqueImsi, UniqueAuth, AuthChecked;
    forall d | d in db.dnns.rows && db.dnns.rows[d].slice in SlicesOf(db.slices.rows, u)
      ensures db.dnns.rows[d].slice in keyed.Values
    {
      assert TagOf(db, db.dnns.rows[d].slice) in keyed;
    }
  }

  /** Of two slices with one tag, the query may keep the second. */
  lemma Rekeyed(db: Db, u: int, keyed: map<SliceTag, int>, i: int, j: int)
    requires Integrity(db) && Keying(db, u, keyed) && i != j
    requires i in SlicesOf(db.slices.rows, u) && j in SlicesOf(db.slices.rows, u) && TagOf(db, i) == TagOf(db, j)
    ensures Keying(db, u, keyed[TagOf(db, j) := j])
    ensures i !in keyed[TagOf(db, j) := j].Values
  {
    hide Integrity, TagOf;
  }

  lemma NssaisExist(db: Db)
    requires Integrity(db)
    ensures forall i :: i in db.slices.rows ==> db.slices.rows[i].nssai in db.catalog.rows
  {
  }

  lemma ClashWitness(db: Db, u: int) returns (i: int, j: int, d: int)
    requires Integrity(db) && !NoClashHoldsDnns(db, u)
    ensures i in SlicesOf(db.slices.rows, u) && j in SlicesOf(db.slices.rows, u) && i != j
    ensures TagOf(db, i) == TagOf(db, j) && d in db.dnns.rows && db.dnns.rows[d].slice == i
  {
    hide Integrity, TagOf;
    NssaisExist(db);
    i, j :| i in SlicesOf(db.slices.rows, u) && j in SlicesOf(db.slices.rows, u) && i != j &&
            TagOf(db, i) == TagOf(db, j) && exists d :: d in db.dnns.rows && db.dnns.rows[d].slice == i;
    d :| d in db.dnns.rows && db.dnns.rows[d].slice == i;
  }

  /** Where a clash holds DNNs, some map the query can build misses them. */
  lemma ClashCanSurvive(db: Db, u: int) returns (keyed: map<SliceTag, int>)
    requires Integrity(db) && !NoClashHoldsDnns(db, u)
    ensures Keying(db, u, keyed) && !WipesAll(db, u, keyed)
  {
    hide Integrity, TagOf, NoClashHoldsDnns, Keying, SomeKeying;
    var i, j, d := ClashWitness(db, u);
    var some := SomeKeying(db, u);
    NssaisExist(db);
    keyed := some[TagOf(db, j) := j];
    Rekeyed(db, u, some, i, j);
  }

  /** The wipe clears the rows exactly when it leaves a reader nothing but slices. */
  lemma WipedIsBare(db: Db, u: int, keyed: map<SliceTag, int>)
    requires Integrity(db) && Keying(db, u, keyed)
    ensures WipesAll(db, u, keyed) <==>
            forall p :: p in Wiped(TreeOf(Flags(db), u), Reached(db.slices.rows, keyed)) ==> p.SlicePath?
  {
    if WipesAll(db, u, keyed) {
      forall p | p in TreeOf(Flags(db), u) && !p.SlicePath?
        ensures p.nssai in Reached(db.slices.rows, keyed)
      {
        var d := RowAbove(db, u, p);
        assert db.dnns.rows[d].slice in keyed.Values;
      }
    } else {
      var d :| d in db.dnns.rows && db.dnns.rows[d].slice in SlicesOf(db.slices.rows, u) &&
               db.dnns.rows[d].slice !in keyed.Values;
      MissedPathStays(db, u, keyed, d);
    }
  }

  /** The DNN row a path below a slice hangs at. */
  lemma RowAbove(db: Db, u: int, p: Path) returns (d: int)
    requires Integrity(db) && p in TreeOf(Flags(db), u) && !p.SlicePath?
    ensures d in db.dnns.rows && db.dnns.rows[d].slice in SlicesOf(db.slices.rows, u)
    ensures db.slices.rows[db.dnns.rows[d].slice].nssai == p.nssai
  {
    var s, n, b := db.slices.rows, db.dnns.rows, db.bindings.rows;
    if (u, p) in DnnFlags(s, n) {
      d :| d in DnnEntries(s, n) && DnnEntries(s, n)[d].0 == (u, p);
    } else {
      var i :| i in BindingEntries(s, n, b) && BindingEntries(s, n, b)[i].0 == (u, p);
      d := b[i].sliceDnn;
    }
  }

  lemma MissedPathStays(db: Db, u: int, keyed: map<SliceTag, int>, d: int)
    requires Integrity(db) && Keying(db, u, keyed) && d in db.dnns.rows
    requires db.dnns.rows[d].slice in SlicesOf(db.slices.rows, u) && db.dnns.rows[d].slice !in keyed.Values
    ensures DnnPath(db.slices.rows[db.dnns.rows[d].slice].nssai, db.dnns.rows[d].dnn)
            in Wiped(TreeOf(Flags(db), u), Reached(db.slices.rows, keyed))
  {
    var s, n := db.slices.rows, db.dnns.rows;
    assert DnnEntries(s, n)[d].0 in DnnFlags(s, n);
    assert s[n[d].slice].nssai !in Reached(s, keyed);
  }

  // ── What the save leaves ─────────────────────────────────────────────────

  /** Every path below a slice is one the items name. */
  ghost predicate OnlyItems(tree: map<Path, bool>, items: seq<(Path, bool)>) {
    forall p :: p in tree && !p.SlicePath? ==> exists e :: e in items && e.0 == p
  }

  /** After the save a reader finds no DNN or service but those of the items. */
  ghost predicate LeavesOnlyItems(db: Db, imsi: string, keyed: map<SliceTag, int>, items: seq<DnnInput>) {
    var db' := Save(db, imsi, keyed, items).0;
    && Integrity(db') && View(db', imsi).Some? && (forall t :: t in keyed ==> keyed[t] in db.slices.rows)
    && OnlyItems(View(db', imsi).value.tree, InputItems(db.slices.rows, keyed, items))
  }

  lemma WipesAllLeavesItems(db: Db, imsi: string, keyed: map<SliceTag, int>, items: seq<DnnInput>)
    requires Integrity(db) && FindUe(db.ue.rows, imsi).Some? && Save(db, imsi, keyed, items).1.Ok?
    requires Keying(db, FindUe(db.ue.rows, imsi).value, keyed)
    ensures WipesAll(db, FindUe(db.ue.rows, imsi).value, keyed) ==> LeavesOnlyItems(db, imsi, keyed, items)
    ensures items == [] && LeavesOnlyItems(db, imsi, keyed, items) ==>
            WipesAll(db, FindUe(db.ue.rows, imsi).value, keyed)
  {
    var u := FindUe(db.ue.rows, imsi).value;
    SaveMeaning(db, imsi, keyed, items);
    WipedIsBare(db, u, keyed);
    assert TreeOf(Flags(db), u) == View(db, imsi).value.tree;
    hide Integrity, Flags, TreeOf, Save, View, WipesAll, Wiped, Reached, InputItems, OnlyItems, PutAll;
    if items == [] {
      NoItems(db.slices.rows, keyed);
    }
    OnlyItemsOfPut(Wiped(TreeOf(Flags(db), u), Reached(db.slices.rows, keyed)),
                   InputItems(db.slices.rows, keyed, items));
  }

  /** Insert-or-ignore onto bare slices leaves only the items below them, and only then. */
  lemma OnlyItemsOfPut(bare: map<Path, bool>, written: seq<(Path, bool)>)
    ensures (forall p :: p in bare ==> p.SlicePath?) ==> OnlyItems(PutAll(bare, written), written)
    ensures written == [] && OnlyItems(PutAll(bare, written), written) ==> forall p :: p in bare ==> p.SlicePath?
  {
    forall p | p in PutAll(bare, written) && p !in bare
      ensures exists e :: e in written && e.0 == p
    {
      PutAllMeaning(bare, written, p);
      assert written[FirstIndex(written, p)] in written;
    }
  }

  lemma NoItems(slices: map<int, SliceRow>, keyed: map<SliceTag, int>)
    requires forall t :: t in keyed ==> keyed[t] in slices
    ensures InputItems(slices, keyed, []) == []
  {
  }

  lemma EmptySaves(db: Db, imsi: string, keyed: map<SliceTag, int>)
    requires FindUe(db.ue.rows, imsi).Some?
    ensures Save(db, imsi, keyed, []).1 == Ok(0)
  {
  }

  /**
   * "Replaces all slice-DNN authorizations": whatever slice rows the unordered query keeps and whatever
   * is saved, the DNNs afterwards come from the items alone, exactly when no clash holds DNNs.
   */
  lemma ReplacesAllExactlyWhen(db: Db, imsi: string)
    requires Integrity(db) && FindUe(db.ue.rows, imsi).Some?
    ensures var u := FindUe(db.ue.rows, imsi).value;
            (forall keyed, items :: Keying(db, u, keyed) && Save(db, imsi, keyed, items).1.Ok? ==>
               LeavesOnlyItems(db, imsi, keyed, items))
            <==> NoClashHoldsDnns(db, u)
  {
    var u := FindUe(db.ue.rows, imsi).value;
    hide Keying, WipesAll, NoClashHoldsDnns, Save, LeavesOnlyItems, Integrity, FindUe;
    if NoClashHoldsDnns(db, u) {
      forall keyed, items | Keying(db, u, keyed) && Save(db, imsi, keyed, items).1.Ok?
        ensures LeavesOnlyItems(db, imsi, keyed, items)
      {
        NoClashWipesAll(db, u, keyed);
        WipesAllLeavesItems(db, imsi, keyed, items);
      }
    } else {
      var keyed := ClashCanSurvive(db, u);
      EmptySaves(db, imsi, keyed);
      WipesAllLeavesItems(db, imsi, keyed, []);
    }
  }
}
