/** Concrete databases and requests on which a promise of the code's own comments does not hold. */
module Counterexamples {
  import opened Wrappers
  import opened Schema
  import opened Rows
  import opened Views
  import opened SubscriptionTree
  import Accounts
  import Assessment
  import Bulk
  import Clone
  import Decimal
  import DnnSave
  import Policy
  import Propagation
  import Ranges
  import Store
  import StoreForward
  import Trust
  import Text

  const IMSI := "001010000000001"
  const UE: Table<UeRow> := Table(map[1 := UeRow(IMSI, None, true, 0, 0)], 1)
  const NOBODY: Table<AuthRow> := Table(map[], 0)
  const NO_BINDINGS: Table<BindingRow> := Table(map[], 0)

  /** Two slices whose SDs differ in case only; the first holds a DNN. */
  const CLASH: Db := Db(
    Table(map[1 := CatalogRow(1, Some("00a1b2"), "lower"), 2 := CatalogRow(1, Some("00A1B2"), "upper")], 2),
    UE, NOBODY,
    Table(map[1 := SliceRow(1, 1, true), 2 := SliceRow(1, 2, false)], 2),
    Table(map[1 := DnnRow(1, "internet", true)], 1),
    NO_BINDINGS, {"internet"}, {})

  lemma UppersMeet()
    ensures Text.Upper("00a1b2") == Text.Upper("00A1B2") == "00A1B2"
  {
  }

  lemma ClashRefers()
    ensures TablesValid(CLASH) && NoOrphans(CLASH) && AuthChecked(CLASH.auth.rows)
  {
  }

  lemma ClashUnique()
    ensures UniqueImsi(CLASH.ue.rows) && UniqueAuth(CLASH.auth.rows) && UniqueSlices(CLASH.slices.rows)
    ensures UniqueDnns(CLASH.dnns.rows) && UniqueBindings(CLASH.bindings.rows) && UniqueCatalog(CLASH.catalog.rows)
  {
  }

  lemma ClashIntact()
    ensures Integrity(CLASH)
  {
    hide TablesValid, NoOrphans, AuthChecked, UniqueImsi, UniqueAuth, UniqueSlices, UniqueDnns, UniqueBindings,
        UniqueCatalog;
    ClashRefers();
    ClashUnique();
  }

  lemma UeFound()
    ensures FindUe(UE.rows, IMSI) == Some(1)
  {
    assert UE.rows[1].imsi == IMSI;
  }

  /** SliceDNNSave with no items should leave the UE no DNN; when its query keeps slice 2, the DNN stays. */
  lemma ClashKeepsDnns(keyed: map<DnnSave.SliceTag, int>)
    requires keyed == map[(1, "00A1B2") := 2]
    ensures Integrity(CLASH) && DnnSave.Keying(CLASH, 1, keyed)
    ensures DnnSave.Save(CLASH, IMSI, keyed, []).1 == Ok(0)
    ensures DnnSave.Save(CLASH, IMSI, keyed, []).0.dnns.rows == CLASH.dnns.rows
  {
    ClashIntact();
    ClashKeyed(keyed);
    UeFound();
    hide Integrity, DnnSave.Keying, FindUe;
    assert forall v :: v in keyed.Values ==> v == 2;
  }

  lemma ClashKeyed(keyed: map<DnnSave.SliceTag, int>)
    requires Integrity(CLASH) && keyed == map[(1, "00A1B2") := 2]
    ensures DnnSave.Keying(CLASH, 1, keyed)
  {
    hide Integrity;
    UppersMeet();
  }

  const PLAIN := Bulk.Template("v1", "OPC", "8000", 0, "", "", 0, 0, [])

  /** One entry with no MSISDN: the bulk form and the flow both succeed and leave different tables. */
  lemma EmptyMsisdnDiffers(kdf: Bulk.Kdf, db: Db)
    requires Bulk.IsDerivation(kdf.k) && Bulk.IsDerivation(kdf.opc)
    requires Integrity(db) && FindUe(db.ue.rows, IMSI).None?
    ensures var e := Bulk.Entry(IMSI, "");
            var bulk, flow := Bulk.ProvisionOne(db, kdf, PLAIN, e), Bulk.FlowOne(db, kdf, PLAIN, e);
            bulk.Ok? && flow.1.Ok? && flow.0 != bulk.value.0
  {
    hide Integrity, View, Bulk.ProvisionOne, Bulk.FlowOne, Bulk.Profile, SliceItems, RegisterAll, FindUe;
    var e := Bulk.Entry(IMSI, "");
    Text.TrimKeeps(IMSI);
    Bulk.OneEntryAgrees(db, kdf, PLAIN, e);
    Bulk.ProvisionOneMeaning(db, kdf, PLAIN, e);
  }

  /** An empty MSISDN passed to get-or-create is stored. */
  lemma EmptyMsisdnIsWritten(db: Db)
    requires Integrity(db)
    ensures var db' := Accounts.GetOrCreateUe(db, IMSI, Some("")).0;
            Integrity(db') && View(db', IMSI).Some? && View(db', IMSI).value.msisdn == Some("")
  {
    hide Integrity, View, Accounts.GetOrCreateUe;
    Text.TrimKeeps(IMSI);
    Accounts.GetOrCreateUeMeaning(db, IMSI, Some(""));
  }

  const LAST_IMSI := "999999999999999"

  /** The range of one IMSI at the last number of its width reaches that IMSI and the end of the width. */
  lemma LastNumber()
    ensures Text.Trim(LAST_IMSI) == LAST_IMSI && Decimal.IsDigits(LAST_IMSI)
    ensures Ranges.Nth(LAST_IMSI, 0) == LAST_IMSI && Ranges.Reach(LAST_IMSI, 1) == 1
    ensures Decimal.Value(LAST_IMSI) + 1 == Decimal.Pow10(|LAST_IMSI|)
  {
    LastNines();
    hide Text.Trim, Decimal.Value, Decimal.Pow10, Decimal.AllNines, Decimal.IsDigits, Ranges.Nth;
    Text.TrimKeeps(LAST_IMSI);
    Decimal.NextValue(LAST_IMSI);
    Ranges.WalkStarts(LAST_IMSI);
  }

  lemma LastNines()
    ensures Decimal.IsDigits(LAST_IMSI) && Decimal.AllNines(LAST_IMSI)
    ensures forall c :: c in LAST_IMSI ==> !Text.IsSpace(c)
  {
  }

  /** Deleting one IMSI, the last of its width: it is gone, and an overflow is reported all the same. */
  method LastDeleteOverflows(d: Store.Database) returns (deleted: nat, r: Result<(), Error>)
    requires d.Valid()
    modifies d
    ensures d.Valid() && View(d.db, LAST_IMSI).None? && r.Err?
    ensures deleted == if View(old(d.db), LAST_IMSI).Some? then 1 else 0
  {
    hide Integrity, View, Decimal.Value, Decimal.Pow10, Decimal.IsDigits, Ranges.Nth, Text.Trim, Ranges.Reach;
    LastNumber();
    deleted, r := d.DeleteRange(LAST_IMSI, 1);
    OneDeleted(old(d.db), d.db);
  }

  lemma OneDeleted(was: Db, now: Db)
    requires Integrity(was) && Integrity(now) && Decimal.IsDigits(LAST_IMSI)
    requires Ranges.RangeDeleted(was, now, LAST_IMSI, 1)
    ensures View(now, LAST_IMSI).None?
    ensures Ranges.Present(was, LAST_IMSI, 1) == if View(was, LAST_IMSI).Some? then 1 else 0
  {
    hide Integrity, View, Decimal.Value, Decimal.Pow10, Ranges.Nth, Text.Trim;
    LastNumber();
    assert Ranges.InRange(LAST_IMSI, 1, LAST_IMSI);
  }

  /** Cloning onto the one last IMSI: the clone is there, and an overflow is reported all the same. */
  method LastCloneOverflows(d: Store.Database, src: string) returns (created: nat, r: Result<(), Error>)
    requires d.Valid() && Text.Trim(src) != "" && Ranges.Clonable(d.db, Text.Trim(src))
    modifies d
    ensures d.Valid() && created == 1 && r.Err?
    ensures View(d.db, LAST_IMSI) ==
            Some(Clone.CloneView(View(old(d.db), Text.Trim(src)).value, View(old(d.db), LAST_IMSI), LAST_IMSI[5..]))
  {
    hide Integrity, View, Decimal.Value, Decimal.Pow10, Decimal.IsDigits, Ranges.Nth, Text.Trim, Ranges.Reach;
    hide Clone.CloneView;
    LastNumber();
    created, r := d.CloneRange(src, LAST_IMSI, 1);
  }

  /** Two enqueues, the second of one byte, and the counter stands at the least int64. */
  lemma EnqueueOverflows(imsi: string, now: int)
    requires imsi != ""
    ensures var ops := [StoreForward.Enqueue(imsi, StoreForward.TWO_63 - 1, now), StoreForward.Enqueue(imsi, 1, now)];
            StoreForward.Queued(ops, imsi) == -StoreForward.TWO_63 && !StoreForward.NeverNegative(ops, imsi)
  {
    var ops := [StoreForward.Enqueue(imsi, StoreForward.TWO_63 - 1, now), StoreForward.Enqueue(imsi, 1, now)];
    var one := [ops[0]];
    assert ops[..1] == one && one[..0] == [] && ops[..2] == ops;
    StoreForward.Nothing(imsi);
    StoreForward.StepQueued(one, imsi);
    StoreForward.StepQueued(ops, imsi);
  }

  /** A watched subscriber is challenged where an unwatched one, no worse otherwise, is blocked. */
  lemma WatchedIsMilder()
    ensures var a := Policy.Seen(Trust.NORMAL, Assessment.HIGH, Propagation.HIGH);
            var b := a.(trust := Trust.WATCHLIST);
            a.AtMost(b) && a.Act() == Policy.TEMPORARY_BLOCK && b.Act() == Policy.STEP_UP
  {
  }

  /** A trusted subscriber under HIGH propagated risk is watched less for MEDIUM own risk than for LOW. */
  lemma MediumIsMilder()
    ensures var a := Policy.Seen(Trust.TRUSTED, Assessment.LOW, Propagation.HIGH);
            var b := a.(own := Assessment.MEDIUM);
            a.AtMost(b) && a.Act() == Policy.STEP_UP && b.Act() == Policy.MONITOR
  {
  }
}
