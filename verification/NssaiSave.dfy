/** SubscribedNSSAISave: replace a UE's slices, leaving them without DNNs. */
module NssaiSave {
  import opened Wrappers
  import opened FirstWins
  import opened Schema
  import opened Rows
  import opened Views
  import opened SubscriptionTree
  import opened TreeGet
  import opened TreeSave
  import Sst
  import Text

  datatype NssaiInput = NssaiInput(nssaiId: int, sst: Sst.Input, sd: string, isDefault: bool)

  /** An item with neither an id nor an SST is skipped. */
  predicate Skipped(item: NssaiInput) {
    item.nssaiId == 0 && item.sst.Nil?
  }

  function SaveInputs(db: Db, u: int, items: seq<NssaiInput>): Result<(Db, nat), Error>
    decreases |items|
  {
    if items == [] then Ok((db, 0))
    else if Skipped(items[0]) then SaveInputs(db, u, items[1..])
    else
      var here :- SaveInput(db, u, items[0]);
      var rest :- SaveInputs(here, u, items[1..]);
      Ok((rest.0, rest.1 + 1))
  }

  function SaveInput(db: Db, u: int, item: NssaiInput): Result<Db, Error> {
    var (db0, n) := if item.nssaiId != 0 then (db, item.nssaiId)
                    else GetOrCreateNssai(db, Sst.Normalize(item.sst), item.sd);
    PutSlice(db0, u, n, item.isDefault)
  }

  function Save(db: Db, imsi: string, items: seq<NssaiInput>): (Db, Result<nat, Error>) {
    var found := FindUe(db.ue.rows, imsi);
    if found.None? then (db, Err(Missing("UE")))
    else
      match SaveInputs(ClearTree(db, found.value), found.value, items)
      case Ok(saved) => (saved.0, Ok(saved.1))
      case Err(e) => (db, Err(e))
  }

  /** The same request written as a tree: its slices, without DNNs. */
  function AsTree(items: seq<NssaiInput>): seq<TreeSlice> {
    if items == [] then []
    else if Skipped(items[0]) then AsTree(items[1..])
    else [AsSlice(items[0])] + AsTree(items[1..])
  }

  function AsSlice(item: NssaiInput): TreeSlice {
    TreeSlice(item.nssaiId, Sst.Normalize(item.sst), item.sd, "", item.isDefault, [])
  }

  lemma SaveInputIsSaveSlice(db: Db, u: int, item: NssaiInput)
    requires Integrity(db) && u in db.ue.rows
    ensures SaveInput(db, u, item).Ok? <==> SaveSlice(db, u, AsSlice(item)).Ok?
    ensures SaveInput(db, u, item).Ok? ==>
              SaveSlice(db, u, AsSlice(item)).value == Saved(SaveInput(db, u, item).value, Counts(1, 0, 0))
    ensures SaveInput(db, u, item).Err? ==> SaveSlice(db, u, AsSlice(item)).error == SaveInput(db, u, item).error
  {
    hide Flags, Sst.Normalize;
    var sl := AsSlice(item);
    var (db0, n) := if sl.nssaiId != 0 then (db, sl.nssaiId) else GetOrCreateNssai(db, sl.sst, sl.sd);
    GetOrCreateMeaning(db, sl.sst, sl.sd);
    PutSliceMeaning(db0, u, n, sl.isDefault);
  }

  lemma {:induction false} SaveInputsIsSaveSlices(db: Db, u: int, items: seq<NssaiInput>)
    requires Integrity(db) && u in db.ue.rows
    ensures var r, t := SaveInputs(db, u, items), SaveSlices(db, u, AsTree(items));
            && (r.Ok? <==> t.Ok?)
            && (r.Ok? ==> t.value == Saved(r.value.0, Counts(r.value.1, 0, 0)))
            && (r.Err? ==> t.error == r.error)
    decreases |items|
  {
    hide Flags, Integrity, SaveInput, SaveSlice;
    if items != [] && !Skipped(items[0]) {
      SaveInputIsSaveSlice(db, u, items[0]);
      SaveSliceMeaning(db, u, AsSlice(items[0]));
      assert AsTree(items)[1..] == AsTree(items[1..]);
      var here := SaveInput(db, u, items[0]);
      if here.Ok? {
        SaveInputsIsSaveSlices(here.value, u, items[1..]);
      }
    } else if items != [] {
      SaveInputsIsSaveSlices(db, u, items[1..]);
    }
  }

  /** Saving slices is saving the tree that has just them: same tables, same outcome, same count. */
  lemma SaveIsTreeSave(db: Db, imsi: string, items: seq<NssaiInput>)
    requires Integrity(db)
    ensures var (db1, r1) := Save(db, imsi, items);
            var (db2, r2) := TreeSave.Save(db, imsi, AsTree(items));
            && db1 == db2
            && (r1.Ok? <==> r2.Ok?)
            && (r1.Ok? ==> r2.value == Counts(r1.value, 0, 0))
            && (r1.Err? ==> r2.error == r1.error)
  {
    hide Flags, SaveInputs, SaveSlices, ClearTree;
    if FindUe(db.ue.rows, imsi).Some? {
      var u := FindUe(db.ue.rows, imsi).value;
      ClearTreeMeaning(db, u);
      SaveInputsIsSaveSlices(ClearTree(db, u), u, items);
    }
  }

  // ── What the save leaves ─────────────────────────────────────────────────

  /** An item that names a slice: by its id, or else by an SST that is there. */
  predicate Names(item: NssaiInput) {
    item.nssaiId != 0 || item.sst != Sst.Nil
  }

  /** n is the catalog entry an item means: its id, or the row of its SST, as read, and its trimmed SD. */
  ghost predicate Means(catalog: map<int, CatalogRow>, item: NssaiInput, n: int) {
    if item.nssaiId != 0 then n == item.nssaiId
    else n in catalog && Sst.Reads(item.sst, catalog[n].sst) && catalog[n].sd.GetOr("") == Text.Trim(item.sd)
  }

  lemma {:induction false} AsTreeMember(items: seq<NssaiInput>, sl: TreeSlice)
    ensures sl in AsTree(items) <==> exists k :: 0 <= k < |items| && Names(items[k]) && sl == AsSlice(items[k])
  {
    hide AsSlice;
    if items != [] {
      AsTreeMember(items[1..], sl);
      assert forall k :: 1 <= k < |items| ==> items[k] == items[1..][k - 1];
      assert sl in AsTree(items[1..]) <==> exists k :: 1 <= k < |items| && Names(items[k]) && sl == AsSlice(items[k]);
    }
  }

  lemma {:induction false} AsTreeCount(items: seq<NssaiInput>)
    ensures |AsTree(items)| == |set k: nat | k < |items| && Names(items[k])|
  {
    hide AsTree, AsSlice, Names;
    if items == [] {
      NoTree();
      assert (set k: nat | k < |items| && Names(items[k])) == {};
    } else {
      AsTreeLast(items);
      AsTreeCount(items[..|items| - 1]);
      NamesLast(items);
    }
  }

  lemma NoTree()
    ensures AsTree([]) == []
  {
  }

  lemma NamesLast(items: seq<NssaiInput>)
    requires items != []
    ensures var n := |items| - 1;
            |set k: nat | k < |items| && Names(items[k])| ==
            |set k: nat | k < n && Names(items[..n][k])| + (if Names(items[n]) then 1 else 0)
  {
    hide Names;
    var n := |items| - 1;
    var before := set k: nat | k < n && Names(items[..n][k]);
    assert (set k: nat | k < |items| && Names(items[k])) == before + (if Names(items[n]) then {n} else {});
  }

  lemma {:induction false} AsTreeLast(items: seq<NssaiInput>)
    requires items != []
    ensures var n := |items| - 1;
            AsTree(items) == AsTree(items[..n]) + (if Names(items[n]) then [AsSlice(items[n])] else [])
  {
    hide AsSlice;
    if |items| > 1 {
      AsTreeLast(items[1..]);
      assert items[1..][..|items| - 2] == items[..|items| - 1][1..];
    }
  }

  lemma AsSliceMeans(catalog: map<int, CatalogRow>, item: NssaiInput)
    requires item.nssaiId == 0 ==> FindCatalog(catalog, Sst.Normalize(item.sst), Text.Trim(item.sd)).Some?
    ensures Means(catalog, item, Resolve(catalog, AsSlice(item)))
  {
    hide Sst.Normalize, Sst.Reads, Text.Trim;
    Sst.NormalizeMeaning(item.sst);
  }

  /** A tree of bare slices: one for each item that names one, and no other, default as such an item says. */
  ghost predicate Bare(tree: map<Path, bool>, catalog: map<int, CatalogRow>, items: seq<NssaiInput>) {
    && (forall k :: 0 <= k < |items| && Names(items[k]) ==> InTree(tree, catalog, items[k]))
    && (forall p :: p in tree ==> p.SlicePath? && FromItem(tree[p], catalog, items, p.nssai))
  }

  ghost predicate InTree(tree: map<Path, bool>, catalog: map<int, CatalogRow>, item: NssaiInput) {
    exists n :: SlicePath(n) in tree && Means(catalog, item, n)
  }

  ghost predicate FromItem(flag: bool, catalog: map<int, CatalogRow>, items: seq<NssaiInput>, n: int) {
    exists k :: 0 <= k < |items| && Names(items[k]) && flag == items[k].isDefault && Means(catalog, items[k], n)
  }

  /**
   * After a save the UE has the slices its items name, under the SSTs their values are read as, and nothing
   * below them; the count is that of the items that name one.
   */
  lemma SlicesSaved(db: Db, imsi: string, items: seq<NssaiInput>)
    requires Integrity(db) && Save(db, imsi, items).1.Ok?
    ensures var (db', r) := Save(db, imsi, items);
            && Integrity(db') && View(db', imsi).Some?
            && r.value == |set k: nat | k < |items| && Names(items[k])|
            && Bare(View(db', imsi).value.tree, db'.catalog.rows, items)
  {
    hide Integrity, View, TreeSave.Save, Save, Bare, Names, AsSlice, RegisterAll, SliceItems, CountSlices, Storable;
    var tree := AsTree(items);
    SaveIsTreeSave(db, imsi, items);
    TreeSave.SaveMeaning(db, imsi, tree);
    var catalog := Save(db, imsi, items).0.catalog.rows;
    CountsMeaning(catalog, tree);
    AsTreeCount(items);
    CatalogSound(db);
    RegisterAllMeaning(db.catalog, tree);
    TreeOfBare(catalog, items);
  }

  lemma CatalogSound(db: Db)
    requires Integrity(db)
    ensures db.catalog.Valid() && UniqueCatalog(db.catalog.rows)
  {
  }

  lemma TreeOfBare(catalog: map<int, CatalogRow>, items: seq<NssaiInput>)
    requires Known(catalog, AsTree(items))
    ensures Bare(PutAll(map[], SliceItems(catalog, AsTree(items))), catalog, items)
  {
    hide InTree, FromItem, Names, PutAll, SliceItems, AsTree, Known;
    var tree := PutAll(map[], SliceItems(catalog, AsTree(items)));
    forall k | 0 <= k < |items| && Names(items[k])
      ensures InTree(tree, catalog, items[k])
    {
      ItemFound(catalog, items, k);
    }
    forall p | p in tree
      ensures p.SlicePath? && FromItem(tree[p], catalog, items, p.nssai)
    {
      SliceNamed(catalog, items, p);
    }
  }

  lemma ItemFound(catalog: map<int, CatalogRow>, items: seq<NssaiInput>, k: nat)
    requires Known(catalog, AsTree(items)) && k < |items| && Names(items[k])
    ensures InTree(PutAll(map[], SliceItems(catalog, AsTree(items))), catalog, items[k])
  {
    hide Means, Names, Sst.Normalize, PutAll, Resolve, SliceItems, AsTree;
    var slices, sl := AsTree(items), AsSlice(items[k]);
    AsTreeMember(items, sl);
    AsSliceMeans(catalog, items[k]);
    var n := Resolve(catalog, sl);
    var e := (SlicePath(n), sl.isDefault);
    SliceItemsMember(catalog, slices, e.0, e.1);
    assert e in OneSliceItems(n, sl);
    WrittenIn(SliceItems(catalog, slices), e);
  }

  lemma SliceNamed(catalog: map<int, CatalogRow>, items: seq<NssaiInput>, p: Path)
    requires Known(catalog, AsTree(items)) && p in PutAll(map[], SliceItems(catalog, AsTree(items)))
    ensures p.SlicePath? && FromItem(PutAll(map[], SliceItems(catalog, AsTree(items)))[p], catalog, items, p.nssai)
  {
    hide Means, Names, Sst.Normalize, PutAll, Resolve, SliceItems, AsTree;
    var slices := AsTree(items);
    var e := InWritten(SliceItems(catalog, slices), p);
    SliceItemsMember(catalog, slices, p, e.1);
    var sl :| sl in slices && e in OneSliceItems(Resolve(catalog, sl), sl);
    AsTreeMember(items, sl);
    var k :| 0 <= k < |items| && Names(items[k]) && sl == AsSlice(items[k]);
    AsSliceMeans(catalog, items[k]);
  }

  lemma WrittenIn(written: seq<(Path, bool)>, e: (Path, bool))
    requires e in written
    ensures e.0 in PutAll(map[], written)
  {
    PutAllMeaning(map[], written, e.0);
  }

  lemma InWritten(written: seq<(Path, bool)>, p: Path) returns (e: (Path, bool))
    requires p in PutAll(map[], written)
    ensures e in written && e.0 == p && PutAll(map[], written)[p] == e.1
  {
    PutAllMeaning(map[], written, p);
    e := written[FirstIndex(written, p)];
  }
}
