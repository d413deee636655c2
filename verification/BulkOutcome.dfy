/** What a bulk request as a whole needs, leaves and counts. */
module BulkOutcome {
  import opened Wrappers
  import opened FirstWins
  import opened Schema
  import opened Rows
  import opened Views
  import opened SubscriptionTree
  import opened TreeSave
  import opened Bulk
  import opened BulkRun
  import Text

  // ── When it succeeds ─────────────────────────────────────────────────────

  /** Every explicit catalog id is there, and every name below. */
  predicate AllThere(catalog: map<int, CatalogRow>, apns: set<string>, known: set<string>, slices: seq<TreeSlice>) {
    forall i :: 0 <= i < |slices| ==>
      (slices[i].nssaiId == 0 || slices[i].nssaiId in catalog) && DnnsKnown(apns, known, slices[i].dnns)
  }

  lemma {:induction false} StorableLeaves(catalog: Table<CatalogRow>, apns: set<string>, known: set<string>,
                                          slices: seq<TreeSlice>)
    requires catalog.Valid() && UniqueCatalog(catalog.rows) && Storable(catalog, apns, known, slices)
    ensures AllThere(RegisterAll(catalog, slices).rows, apns, known, slices)
    decreases |slices|
  {
    hide Register, UniqueCatalog, DnnsKnown;
    if slices != [] {
      RegisterMeaning(catalog, slices[0]);
      var one := Register(catalog, slices[0]);
      StorableLeaves(one, apns, known, slices[1..]);
      RegisterAllMeaning(one, slices[1..]);
      assert forall i :: 1 <= i < |slices| ==> slices[i] == slices[1..][i - 1];
    }
  }

  lemma {:induction false} ThereIsStorable(catalog: Table<CatalogRow>, apns: set<string>, known: set<string>,
                                           slices: seq<TreeSlice>)
    requires AllThere(catalog.rows, apns, known, slices) && Known(catalog.rows, slices)
    ensures Storable(catalog, apns, known, slices) && RegisterAll(catalog, slices) == catalog
    decreases |slices|
  {
    hide Register, DnnsKnown;
    if slices != [] {
      RegisterKnown(catalog, slices[0]);
      assert slices[0] in slices;
      assert forall sl :: sl in slices[1..] ==> sl in slices;
      ThereIsStorable(catalog, apns, known, slices[1..]);
    }
  }

  /** A tree that was written once can be written again, and adds no catalog row. */
  lemma WrittenAgain(catalog: Table<CatalogRow>, apns: set<string>, known: set<string>, slices: seq<TreeSlice>)
    requires catalog.Valid() && UniqueCatalog(catalog.rows) && Storable(catalog, apns, known, slices)
    ensures var now := RegisterAll(catalog, slices);
            Storable(now, apns, known, slices) && RegisterAll(now, slices) == now
  {
    hide Storable, RegisterAll, UniqueCatalog, Known, AllThere;
    StorableLeaves(catalog, apns, known, slices);
    RegisterAllMeaning(catalog, slices);
    ThereIsStorable(RegisterAll(catalog, slices), apns, known, slices);
  }

  lemma CatalogSound(db: Db)
    requires Integrity(db)
    ensures db.catalog.Valid() && UniqueCatalog(db.catalog.rows)
  {
  }

  /** Only the first entry can fail on the template or add catalog rows. */
  lemma {:induction false} ProvisionAllExactlyWhen(db: Db, kdf: Kdf, t: Template, ues: seq<Entry>)
    requires Integrity(db) && t.FormatOk() && ues != []
    ensures var r := ProvisionAll(db, kdf, t, ues);
            && (r.Ok? <==> Storable(db.catalog, db.apns, db.services, t.tree)
                           && forall i :: 0 <= i < |ues| ==> Text.Trim(ues[i].imsi) != "")
            && (r.Ok? ==> r.value.0.catalog == RegisterAll(db.catalog, t.tree))
    decreases |ues|
  {
    hide View, Integrity, ProvisionOne, Template.FormatOk, Storable, RegisterAll, Text.Trim, Profile, CatalogKept;
    ProvisionOneMeaning(db, kdf, t, ues[0]);
    var one := ProvisionOne(db, kdf, t, ues[0]);
    assert forall i :: 1 <= i < |ues| ==> ues[i] == ues[1..][i - 1];
    if one.Ok? {
      CatalogSound(db);
      WrittenAgain(db.catalog, db.apns, db.services, t.tree);
      SameNames(db, one.value.0);
      if |ues| > 1 {
        ProvisionAllExactlyWhen(one.value.0, kdf, t, ues[1..]);
      } else {
        assert ues[1..] == [];
      }
    }
  }

  lemma SameNames(a: Db, b: Db)
    requires CatalogKept(a, b)
    ensures a.apns == b.apns && a.services == b.services
  {
  }

  /**
   * A bulk request succeeds exactly when it names someone and a key version, its template is well-formed, no
   * IMSI is blank, and its tree can be stored; otherwise nothing changes.
   */
  lemma BulkExactlyWhen(db: Db, kdf: Kdf, t: Template, ues: seq<Entry>)
    requires Integrity(db)
    ensures var (db', r) := Provision(db, kdf, t, ues);
            && (r.Ok? <==>
                  && ues != [] && t.kdfVersion != "" && t.opType in {"", "OP", "OPC"} && t.suci in {"", "A", "B"}
                  && (t.amf == "" || Text.IsHex(t.amf, 4)) && (t.hnKey == "" || Text.IsHex(t.hnKey, 64))
                  && Storable(db.catalog, db.apns, db.services, t.tree)
                  && forall i :: 0 <= i < |ues| ==> Text.Trim(ues[i].imsi) != "")
            && (r.Err? ==> db' == db)
  {
    hide Integrity, ProvisionAll, Storable, Text.Trim, Text.IsHex;
    if ues != [] && t.FormatOk() {
      ProvisionAllExactlyWhen(db, kdf, t, ues);
    }
  }

  // ── What it leaves ───────────────────────────────────────────────────────

  /** What a reader finds of an entry: the template's columns, the derived keys, and the template's tree. */
  ghost predicate Provisioned(db: Db, kdf: Kdf, t: Template, e: Entry, enabled: bool)
    requires Integrity(db)
  {
    var imsi := Text.Trim(e.imsi);
    View(db, imsi) ==
    Some(UeView(Some(e.msisdn), enabled, t.ambrDl, t.ambrUl,
                Some(AuthData(if t.opType == "" then "OPC" else t.opType, kdf.opc(imsi, t.kdfVersion),
                              kdf.k(imsi, t.kdfVersion), t.sqn, Text.Lower(t.amf), t.suci, Text.Lower(t.hnKey))),
                PutAll(map[], SliceItems(db.catalog.rows, t.tree))))
  }

  lemma OneProvisioned(db: Db, kdf: Kdf, t: Template, e: Entry)
    requires Integrity(db) && Usable(kdf, t) && ProvisionOne(db, kdf, t, e).Ok?
    ensures var db' := ProvisionOne(db, kdf, t, e).value.0;
            Integrity(db') && Provisioned(db', kdf, t, e, EnabledBefore(db, Text.Trim(e.imsi)))
  {
    UsableFormat(kdf, t);
    DerivedLower(kdf, t, Text.Trim(e.imsi));
    hide View, Integrity, ProvisionOne, Template.FormatOk, Usable, EnabledBefore, SliceItems, Storable;
    hide Text.Trim, Text.Lower;
    ProvisionOneMeaning(db, kdf, t, e);
  }

  lemma DerivedLower(kdf: Kdf, t: Template, imsi: string)
    requires Usable(kdf, t)
    ensures Text.Lower(kdf.opc(imsi, t.kdfVersion)) == kdf.opc(imsi, t.kdfVersion)
    ensures Text.Lower(kdf.k(imsi, t.kdfVersion)) == kdf.k(imsi, t.kdfVersion)
  {
  }

  lemma ProvisionedStays(a: Db, b: Db, kdf: Kdf, t: Template, e: Entry, enabled: bool)
    requires Integrity(a) && Integrity(b) && a.catalog == b.catalog
    requires View(b, Text.Trim(e.imsi)) == View(a, Text.Trim(e.imsi))
    ensures Provisioned(b, kdf, t, e, enabled) <==> Provisioned(a, kdf, t, e, enabled)
  {
    hide View, Integrity, SliceItems, Text.Trim, Text.Lower;
  }

  lemma EnabledAfter(db: Db, kdf: Kdf, t: Template, e: Entry, imsi: string)
    requires Integrity(db) && t.FormatOk() && ProvisionOne(db, kdf, t, e).Ok?
    ensures var db' := ProvisionOne(db, kdf, t, e).value.0;
            Integrity(db') && EnabledBefore(db', imsi) == EnabledBefore(db, imsi)
  {
    hide View, Integrity, ProvisionOne, Template.FormatOk, Storable, SliceItems, Text.Trim, RegisterAll;
    ProvisionOneMeaning(db, kdf, t, e);
  }

  /** After the whole run each subscriber is as its last entry says, with the enabled flag it had. */
  lemma {:induction false} BulkLeaves(db: Db, kdf: Kdf, t: Template, ues: seq<Entry>, i: nat)
    requires Integrity(db) && Usable(kdf, t) && ProvisionAll(db, kdf, t, ues).Ok? && i < |ues|
    requires forall j :: i < j < |ues| ==> Text.Trim(ues[j].imsi) != Text.Trim(ues[i].imsi)
    ensures var db' := ProvisionAll(db, kdf, t, ues).value.0;
            Integrity(db') && Provisioned(db', kdf, t, ues[i], EnabledBefore(db, Text.Trim(ues[i].imsi)))
    decreases |ues|
  {
    hide View, Integrity, ProvisionOne, Template.FormatOk, Usable, EnabledBefore, Provisioned, RegisterAll, Text.Trim;
    UsableFormat(kdf, t);
    if i > 0 {
      EnabledAfter(db, kdf, t, ues[0], Text.Trim(ues[i].imsi));
      BulkLeaves(ProvisionOne(db, kdf, t, ues[0]).value.0, kdf, t, ues[1..], i - 1);
    } else {
      FirstStays(db, kdf, t, ues);
    }
  }

  lemma FirstStays(db: Db, kdf: Kdf, t: Template, ues: seq<Entry>)
    requires Integrity(db) && Usable(kdf, t) && ProvisionAll(db, kdf, t, ues).Ok? && ues != []
    requires forall j :: 0 < j < |ues| ==> Text.Trim(ues[j].imsi) != Text.Trim(ues[0].imsi)
    ensures var db' := ProvisionAll(db, kdf, t, ues).value.0;
            Integrity(db') && Provisioned(db', kdf, t, ues[0], EnabledBefore(db, Text.Trim(ues[0].imsi)))
  {
    hide View, Integrity, ProvisionOne, Template.FormatOk, Usable, EnabledBefore, Provisioned, RegisterAll, Text.Trim;
    UsableFormat(kdf, t);
    OneProvisioned(db, kdf, t, ues[0]);
    var one, done := ProvisionOne(db, kdf, t, ues[0]).value.0, ProvisionAll(db, kdf, t, ues).value.0;
    var imsi := Text.Trim(ues[0].imsi);
    ProvisionAllKeeps(one, kdf, t, ues[1..]);
    CatalogAfter(db, kdf, t, ues);
    assert Unnamed(ues[1..], imsi);
    ProvisionedStays(one, done, kdf, t, ues[0], EnabledBefore(db, imsi));
  }

  lemma CatalogAfter(db: Db, kdf: Kdf, t: Template, ues: seq<Entry>)
    requires Integrity(db) && t.FormatOk() && ues != [] && ProvisionAll(db, kdf, t, ues).Ok?
    ensures ProvisionAll(db, kdf, t, ues).value.0.catalog == ProvisionOne(db, kdf, t, ues[0]).value.0.catalog
  {
    hide View, Integrity, ProvisionOne, Template.FormatOk, Storable, RegisterAll, Text.Trim, SliceItems;
    ProvisionAllExactlyWhen(db, kdf, t, ues);
    ProvisionOneMeaning(db, kdf, t, ues[0]);
  }

  // ── What it counts ───────────────────────────────────────────────────────

  /** The IMSIs of the request that nobody had. */
  ghost function NewImsis(db: Db, ues: seq<Entry>): set<string>
    requires Integrity(db)
  {
    set i | 0 <= i < |ues| && View(db, Text.Trim(ues[i].imsi)).None? :: Text.Trim(ues[i].imsi)
  }

  lemma NewImsisStep(db: Db, one: Db, ues: seq<Entry>)
    requires Integrity(db) && Integrity(one) && ues != [] && OthersKept(db, one, Text.Trim(ues[0].imsi))
    requires View(one, Text.Trim(ues[0].imsi)).Some?
    ensures |NewImsis(db, ues)| == (if View(db, Text.Trim(ues[0].imsi)).None? then 1 else 0) + |NewImsis(one, ues[1..])|
  {
    hide View, Integrity, Text.Trim;
    var imsi, rest := Text.Trim(ues[0].imsi), NewImsis(one, ues[1..]);
    assert forall i :: 1 <= i < |ues| ==> ues[i] == ues[1..][i - 1];
    assert imsi !in rest;
    assert NewImsis(db, ues) == (if View(db, imsi).None? then {imsi} else {}) + rest;
  }

  lemma ViewAbsent(db: Db, imsi: string)
    requires Integrity(db)
    ensures View(db, imsi).None? <==> FindUe(db.ue.rows, imsi).None?
  {
    hide Flags, TreeOf;
  }

  function Times(n: nat, c: Counts): Counts {
    Counts(n * c.slices, n * c.dnns, n * c.bindings)
  }

  /** Created are the IMSIs nobody had, each once; every entry writes an auth row and the rows of the tree. */
  lemma {:induction false} BulkCountsMeaning(db: Db, kdf: Kdf, t: Template, ues: seq<Entry>)
    requires Integrity(db) && t.FormatOk() && ProvisionAll(db, kdf, t, ues).Ok?
    ensures var counts, n, c := ProvisionAll(db, kdf, t, ues).value.1, |ues|, CountSlices(t.tree);
            && counts.uesCreated == |NewImsis(db, ues)| && counts.authRows == n
            && counts.tree == Times(n, c)
    decreases |ues|
  {
    hide View, Integrity, Template.FormatOk, Storable, RegisterAll, Text.Trim, SliceItems, CountSlices, NewImsis, Times;
    hide ProvisionOne;
    if ues == [] {
      NobodyNew(db);
      NoTimes(CountSlices(t.tree));
    } else {
      ProvisionOneMeaning(db, kdf, t, ues[0]);
      var one := ProvisionOne(db, kdf, t, ues[0]).value;
      BulkCountsMeaning(one.0, kdf, t, ues[1..]);
      ViewAbsent(db, Text.Trim(ues[0].imsi));
      NewImsisStep(db, one.0, ues);
      OneMore(|ues| - 1, CountSlices(t.tree));
      OneCounted(db, kdf, t, ues[0]);
    }
  }

  lemma OneCounted(db: Db, kdf: Kdf, t: Template, e: Entry)
    requires ProvisionOne(db, kdf, t, e).Ok?
    ensures var counts := ProvisionOne(db, kdf, t, e).value.1;
            counts.authRows == 1 && counts.uesCreated == if FindUe(db.ue.rows, Text.Trim(e.imsi)).None? then 1 else 0
  {
    hide Prepare, SaveSlices, ClearTree, FindUe, Text.Trim;
  }

  lemma NobodyNew(db: Db)
    requires Integrity(db)
    ensures NewImsis(db, []) == {}
  {
  }

  lemma NoTimes(c: Counts)
    ensures Times(0, c) == Counts(0, 0, 0)
  {
  }

  lemma OneMore(n: nat, c: Counts)
    ensures Plus(c, Times(n, c)) == Times(n + 1, c)
  {
  }
}
