/** UEBulkProvision, and the per-UE flow of three calls that it replaces. */
module Bulk {
  import opened Wrappers
  import opened FirstWins
  import opened Schema
  import opened Rows
  import opened Views
  import opened SubscriptionTree
  import opened TreeSave
  import opened Accounts
  import Text

  datatype Template = Template(kdfVersion: string, opType: string, amf: string, sqn: int, suci: string, hnKey: string,
                               ambrDl: int, ambrUl: int, tree: seq<TreeSlice>)
  {
    function OpType(): string {
      if opType == "" then "OPC" else opType
    }

    predicate FormatOk() {
      AuthFormatOk(OpType(), amf, suci, hnKey)
    }
  }

  datatype Entry = Entry(imsi: string, msisdn: string)
  datatype BulkCounts = BulkCounts(uesCreated: nat, authRows: nat, tree: Counts)

  /** deriveK and deriveOPc: sha256 stays uninterpreted, the result is 16 bytes in lower-case hex. */
  type Derive = (string, string) -> string

  ghost predicate IsDerivation(f: Derive) {
    forall imsi, version :: Text.IsHex(f(imsi, version), 32) && Text.Lower(f(imsi, version)) == f(imsi, version)
  }

  datatype Kdf = Kdf(k: Derive, opc: Derive)

  function AuthInput(kdf: Kdf, t: Template, imsi: string, msisdn: string): AuthIn {
    AuthIn(imsi, msisdn, t.OpType(), kdf.opc(imsi, t.kdfVersion), kdf.k(imsi, t.kdfVersion), t.amf, t.sqn, t.suci,
           t.hnKey)
  }

  // ── The bulk form ────────────────────────────────────────────────────────

  /** Step 1 for one UE: the ue row, created or updated with MSISDN and AMBR at once. */
  function ProvisionUe(db: Db, t: Template, imsi: string, msisdn: string): (Db, int) {
    match FindUe(db.ue.rows, imsi)
    case Some(u) =>
      (SetUe(db, u, db.ue.rows[u].(msisdn := Some(msisdn), ambrDl := t.ambrDl, ambrUl := t.ambrUl)), u)
    case None =>
      (db.(ue := db.ue.Insert(UeRow(imsi, Some(msisdn), true, t.ambrDl, t.ambrUl))), db.ue.last + 1)
  }

  /** Steps 1 and 2: the ue row and the auth row. */
  function Prepare(db: Db, kdf: Kdf, t: Template, imsi: string, msisdn: string): (Db, int) {
    var (db1, u) := ProvisionUe(db, t, imsi, msisdn);
    (PutAuth(db1, AuthRowOf(u, AuthInput(kdf, t, imsi, msisdn))), u)
  }

  /** Steps 1 to 3 for one UE, inside the transaction. */
  function ProvisionOne(db: Db, kdf: Kdf, t: Template, e: Entry): Result<(Db, BulkCounts), Error> {
    var imsi := Text.Trim(e.imsi);
    if imsi == "" then Err(Invalid("each ue must carry a non-empty imsi"))
    else
      var (db2, u) := Prepare(db, kdf, t, imsi, e.msisdn);
      var saved :- SaveSlices(ClearTree(db2, u), u, t.tree);
      Ok((saved.db, BulkCounts(if FindUe(db.ue.rows, imsi).None? then 1 else 0, 1, saved.counts)))
  }

  function ProvisionAll(db: Db, kdf: Kdf, t: Template, ues: seq<Entry>): Result<(Db, BulkCounts), Error>
    decreases |ues|
  {
    if ues == [] then Ok((db, BulkCounts(0, 0, Counts(0, 0, 0))))
    else
      var here :- ProvisionOne(db, kdf, t, ues[0]);
      var rest :- ProvisionAll(here.0, kdf, t, ues[1..]);
      Ok((rest.0, BulkCounts(here.1.uesCreated + rest.1.uesCreated, here.1.authRows + rest.1.authRows,
                             Plus(here.1.tree, rest.1.tree))))
  }

  function Provision(db: Db, kdf: Kdf, t: Template, ues: seq<Entry>): (Db, Result<BulkCounts, Error>) {
    if ues == [] || t.kdfVersion == "" || !t.FormatOk() then (db, Err(Invalid("bulk request")))
    else
      match ProvisionAll(db, kdf, t, ues)
      case Ok(r) => (r.0, Ok(r.1))
      case Err(e) => (db, Err(e))
  }

  // ── The flow it replaces ─────────────────────────────────────────────────

  /** AuthUpsert, SubscriptionUpsert and SubscriptionTreeSave for one UE, stopping at the first error. */
  function FlowOne(db: Db, kdf: Kdf, t: Template, e: Entry): (Db, Result<(), Error>) {
    var imsi := Text.Trim(e.imsi);
    var (db1, r1) := AuthUpsert(db, AuthInput(kdf, t, imsi, e.msisdn));
    if r1.Err? then (db1, r1)
    else
      var (db2, r2) := SubscriptionUpsert(db1, imsi, t.ambrDl, t.ambrUl);
      if r2.Err? then (db2, r2)
      else
        var (db3, r3) := Save(db2, imsi, t.tree);
        (db3, if r3.Ok? then Ok(()) else Err(r3.error))
  }

  function Flow(db: Db, kdf: Kdf, t: Template, ues: seq<Entry>): (Db, Result<(), Error>)
    decreases |ues|
  {
    if ues == [] then (db, Ok(()))
    else
      var (db1, r) := FlowOne(db, kdf, t, ues[0]);
      if r.Err? then (db1, r) else Flow(db1, kdf, t, ues[1..])
  }

  // ── One entry ────────────────────────────────────────────────────────────

  /** The tables just before the tree is written: the auth row in place, the ue row as given. */
  lemma ProvisionUeMeaning(db: Db, t: Template, imsi: string, msisdn: string)
    requires Integrity(db)
    ensures var (db1, u) := ProvisionUe(db, t, imsi, msisdn);
            && Integrity(db1) && u in db1.ue.rows && db1.ue.rows[u].imsi == imsi
            && FindUe(db1.ue.rows, imsi) == Some(u)
            && db1.catalog == db.catalog && db1.apns == db.apns && db1.services == db.services
            && OthersKept(db, db1, imsi) && View(db1, imsi).Some?
            && var v := View(db1, imsi).value;
               v.msisdn == Some(msisdn) && v.ambrDl == t.ambrDl && v.ambrUl == t.ambrUl
               && v.enabled == (if View(db, imsi).Some? then View(db, imsi).value.enabled else true)
  {
    hide TreeFlags, TreeOf, AuthOf;
    match FindUe(db.ue.rows, imsi)
    case Some(u) =>
      SetUeMeaning(db, u, db.ue.rows[u].(msisdn := Some(msisdn), ambrDl := t.ambrDl, ambrUl := t.ambrUl));
    case None =>
      var row := UeRow(imsi, Some(msisdn), true, t.ambrDl, t.ambrUl);
      InsertUeMeaning(db, row);
      assert db.(ue := db.ue.Insert(row)).ue.rows[db.ue.last + 1] == row;
  }

  lemma TemplateAuthOk(kdf: Kdf, t: Template, u: int, imsi: string, msisdn: string)
    requires t.FormatOk()
    ensures var row := AuthRowOf(u, AuthInput(kdf, t, imsi, msisdn));
            row.ue == u && row.opType in {"OP", "OPC"} && (row.suci.None? || row.suci.value in {"A", "B"})
  {
  }

  /** The profile the template gives a UE, with the tree it has at that moment. */
  ghost function Profile(kdf: Kdf, t: Template, imsi: string, msisdn: string, enabled: bool,
                         tree: map<Path, bool>): UeView {
    UeView(Some(msisdn), enabled, t.ambrDl, t.ambrUl,
           Some(AuthData(if t.opType == "" then "OPC" else t.opType, Text.Lower(kdf.opc(imsi, t.kdfVersion)),
                         Text.Lower(kdf.k(imsi, t.kdfVersion)), t.sqn, Text.Lower(t.amf), t.suci,
                         Text.Lower(t.hnKey))), tree)
  }

  ghost function EnabledBefore(db: Db, imsi: string): bool
    requires Integrity(db)
  {
    if View(db, imsi).Some? then View(db, imsi).value.enabled else true
  }

  lemma PrepareMeaning(db: Db, kdf: Kdf, t: Template, imsi: string, msisdn: string)
    requires Integrity(db) && t.FormatOk()
    ensures var (db2, u) := Prepare(db, kdf, t, imsi, msisdn);
            && Integrity(db2) && FindUe(db2.ue.rows, imsi) == Some(u) && OthersKept(db, db2, imsi)
            && db2.catalog == db.catalog && db2.apns == db.apns && db2.services == db.services
            && View(db2, imsi).Some?
            && View(db2, imsi).value ==
               Profile(kdf, t, imsi, msisdn, EnabledBefore(db, imsi), View(db2, imsi).value.tree)
  {
    hide View, ProvisionUe, PutAuth, ReadAuth, Template.FormatOk, Integrity;
    var (db1, u) := ProvisionUe(db, t, imsi, msisdn);
    var row := AuthRowOf(u, AuthInput(kdf, t, imsi, msisdn));
    ProvisionUeMeaning(db, t, imsi, msisdn);
    TemplateAuthOk(kdf, t, u, imsi, msisdn);
    PutAuthMeaning(db1, row);
    WrittenReads(u, AuthInput(kdf, t, imsi, msisdn));
  }

  /** What one entry leaves behind: exactly the template's profile, whatever was there before. */
  lemma ProvisionOneMeaning(db: Db, kdf: Kdf, t: Template, e: Entry)
    requires Integrity(db) && t.FormatOk()
    ensures var r, imsi := ProvisionOne(db, kdf, t, e), Text.Trim(e.imsi);
            && (r.Ok? <==> imsi != "" && Storable(db.catalog, db.apns, db.services, t.tree))
            && (r.Ok? ==>
                  var db' := r.value.0;
                  && Integrity(db') && OthersKept(db, db', imsi)
                  && db'.catalog == RegisterAll(db.catalog, t.tree) && CatalogKept(db, db')
                  && r.value.1.tree == CountSlices(t.tree)
                  && View(db', imsi) == Some(Profile(kdf, t, imsi, e.msisdn, EnabledBefore(db, imsi),
                                                     PutAll(map[], SliceItems(db'.catalog.rows, t.tree)))))
  {
    hide View, Prepare, SaveSlices, ClearTree, Storable, SliceItems, RegisterAll, Save;
    hide Template.FormatOk, ReadAuth, Integrity, EnabledBefore;
    var imsi := Text.Trim(e.imsi);
    if imsi != "" {
      var (db2, u) := Prepare(db, kdf, t, imsi, e.msisdn);
      PrepareMeaning(db, kdf, t, imsi, e.msisdn);
      SaveMeaning(db2, imsi, t.tree);
      SaveIsWalk(db2, u, imsi, t.tree);
    }
  }

  /** The bulk's inlined tree walk is SubscriptionTreeSave's. */
  lemma SaveIsWalk(db: Db, u: int, imsi: string, slices: seq<TreeSlice>)
    requires FindUe(db.ue.rows, imsi) == Some(u)
    ensures var walk := SaveSlices(ClearTree(db, u), u, slices);
            && (Save(db, imsi, slices).1.Ok? <==> walk.Ok?)
            && (walk.Ok? ==> Save(db, imsi, slices) == (walk.value.db, Ok(walk.value.counts)))
            && (walk.Err? ==> Save(db, imsi, slices) == (db, Err(walk.error)))
  {
  }

  // ── Bulk against flow ────────────────────────────────────────────────────

  /** What the two forms treat differently: an empty MSISDN, and a negative AMBR. */
  predicate Agrees(db: Db, t: Template, e: Entry) {
    && t.ambrDl >= 0 && t.ambrUl >= 0
    && (e.msisdn != "" ||
        var found := FindUe(db.ue.rows, Text.Trim(e.imsi));
        found.Some? && found.value in db.ue.rows && db.ue.rows[found.value].msisdn == Some(""))
  }

  lemma InputOk(kdf: Kdf, t: Template, imsi: string, msisdn: string)
    requires t.FormatOk() && IsDerivation(kdf.k) && IsDerivation(kdf.opc)
    ensures var input := AuthInput(kdf, t, imsi, msisdn);
            && AuthFormatOk(input.opType, input.amf, input.suci, input.hnKey)
            && Text.IsHex(input.op, 32) && Text.IsHex(input.k, 32)
  {
  }

  /** The MSISDN the flow leaves: an empty one is not written. */
  function FlowMsisdn(db: Db, imsi: string, msisdn: string): Option<string> {
    if msisdn != "" then Some(msisdn)
    else
      match FindUe(db.ue.rows, imsi)
      case Some(u) => db.ue.rows[u].msisdn
      case None => None
  }

  /** Creating the row and then setting its columns, or setting them at once. */
  lemma CreateThenSet(db: Db, t: Template, imsi: string, msisdn: string)
    requires Integrity(db) && imsi != "" && Text.Trim(imsi) == imsi
    ensures var (created, r) := GetOrCreateUe(db, imsi, NullIfEmpty(msisdn));
            && r.Ok? && r.value in created.ue.rows && FindUe(created.ue.rows, imsi) == Some(r.value)
            && created.ue.rows[r.value].msisdn == FlowMsisdn(db, imsi, msisdn)
            && ProvisionUe(db, t, imsi, msisdn) == (
                 SetUe(created, r.value, created.ue.rows[r.value].(
                   msisdn := Some(msisdn), ambrDl := t.ambrDl, ambrUl := t.ambrUl)), r.value)
  {
    hide View, Integrity, Text.Trim, Table.Update, Table.Insert;
    GetOrCreateUeMeaning(db, imsi, NullIfEmpty(msisdn));
    match FindUe(db.ue.rows, imsi)
    case Some(u) =>
      var row := db.ue.rows[u].(msisdn := NullIfEmpty(msisdn));
      UpdateTwice(db.ue, u, row, row.(msisdn := Some(msisdn), ambrDl := t.ambrDl, ambrUl := t.ambrUl));
    case None =>
      var row := UeRow(imsi, NullIfEmpty(msisdn), true, DEFAULT_AMBR, DEFAULT_AMBR);
      InsertThenUpdate(db.ue, row, row.(msisdn := Some(msisdn), ambrDl := t.ambrDl, ambrUl := t.ambrUl));
  }

  lemma UpdateTwice<R>(t: Table<R>, i: int, first: R, second: R)
    requires i in t.rows
    ensures i in t.Update(i, first).rows && t.Update(i, first).rows[i] == first
    ensures t.Update(i, first).Update(i, second) == t.Update(i, second)
  {
  }

  lemma InsertThenUpdate<R>(t: Table<R>, first: R, second: R)
    ensures var id := t.last + 1;
            && id in t.Insert(first).rows && t.Insert(first).rows[id] == first
            && t.Insert(first).Update(id, second) == t.Insert(second)
  {
  }

  lemma PutAuthBesideUe(db: Db, ue: Table<UeRow>, row: AuthRow)
    ensures PutAuth(db.(ue := ue), row) == PutAuth(db, row).(ue := ue)
  {
  }

  /** The flow's first two calls leave the bulk's tables but for the MSISDN and AMBR columns. */
  lemma FlowPrepares(db: Db, kdf: Kdf, t: Template, imsi: string, msisdn: string)
    requires Integrity(db) && t.FormatOk() && IsDerivation(kdf.k) && IsDerivation(kdf.opc)
    requires imsi != "" && Text.Trim(imsi) == imsi
    ensures var (bulk, u) := Prepare(db, kdf, t, imsi, msisdn);
            var (db1, r1) := AuthUpsert(db, AuthInput(kdf, t, imsi, msisdn));
            var (flow, r2) := SubscriptionUpsert(db1, imsi, t.ambrDl, t.ambrUl);
            && r1.Ok? && r2.Ok? && u in bulk.ue.rows
            && flow == SetUe(bulk, u, bulk.ue.rows[u].(
                 msisdn := FlowMsisdn(db, imsi, msisdn), ambrDl := NotNegative(t.ambrDl),
                     ambrUl := NotNegative(t.ambrUl)))
  {
    hide Integrity, GetOrCreateUe, ProvisionUe, PutAuth, AuthRowOf, AuthFormatOk, FlowMsisdn;
    InputOk(kdf, t, imsi, msisdn);
    CreateThenSet(db, t, imsi, msisdn);
    var (created, r) := GetOrCreateUe(db, imsi, NullIfEmpty(msisdn));
    var row := AuthRowOf(r.value, AuthInput(kdf, t, imsi, msisdn));
    var (bulkUe, u) := ProvisionUe(db, t, imsi, msisdn);
    PutAuthBesideUe(created, bulkUe.ue, row);
    PutAuthBesideUe(created, created.ue, row);
    var db1 := PutAuth(created, row);
    assert AuthUpsert(db, AuthInput(kdf, t, imsi, msisdn)) == (db1, Ok(()));
    GetOrCreateKnown(db1, imsi, r.value);
    var flow := SubscriptionUpsert(db1, imsi, t.ambrDl, t.ambrUl).0;
    var bulk := Prepare(db, kdf, t, imsi, msisdn).0;
    assert bulk == db1.(ue := bulkUe.ue);
    assert flow.ue.rows == bulk.ue.rows[u := flow.ue.rows[u]];
  }

  lemma GetOrCreateKnown(db: Db, imsi: string, u: int)
    requires imsi != "" && Text.Trim(imsi) == imsi && FindUe(db.ue.rows, imsi) == Some(u)
    ensures GetOrCreateUe(db, imsi, None) == (db, Ok(u))
  {
  }

  /** Saving the same tree into tables that differ at most in the ue rows keeps the difference. */
  lemma SaveTwins(a: Db, b: Db, imsi: string, slices: seq<TreeSlice>)
    requires Integrity(a) && Integrity(b) && b == a.(ue := b.ue)
    requires FindUe(a.ue.rows, imsi).Some? && FindUe(b.ue.rows, imsi).Some?
    ensures Save(a, imsi, slices).1.Ok? <==> Save(b, imsi, slices).1.Ok?
    ensures Save(a, imsi, slices).1.Ok? ==> (Save(a, imsi, slices).0 == Save(b, imsi, slices).0 <==> a == b)
  {
    hide Integrity, View, Storable, Save;
    SaveMeaning(a, imsi, slices);
    SaveMeaning(b, imsi, slices);
  }

  /** The prepared tables are the same exactly when nothing was treated differently. */
  lemma PreparedSame(db: Db, kdf: Kdf, t: Template, e: Entry)
    requires Integrity(db) && t.FormatOk() && Text.Trim(e.imsi) != ""
    ensures var imsi := Text.Trim(e.imsi);
            var (bulk, u) := Prepare(db, kdf, t, imsi, e.msisdn);
            && u in bulk.ue.rows
            && (SetUe(bulk, u, bulk.ue.rows[u].(
                  msisdn := FlowMsisdn(db, imsi, e.msisdn),
                  ambrDl := NotNegative(t.ambrDl), ambrUl := NotNegative(t.ambrUl))) == bulk
                <==> Agrees(db, t, e))
  {
    hide TreeFlags, TreeOf, AuthOf, Prepare, Integrity, Template.FormatOk;
    var imsi := Text.Trim(e.imsi);
    var (bulk, u) := Prepare(db, kdf, t, imsi, e.msisdn);
    PrepareMeaning(db, kdf, t, imsi, e.msisdn);
    var row := bulk.ue.rows[u];
    var row' := row.(msisdn := FlowMsisdn(db, imsi, e.msisdn),
                     ambrDl := NotNegative(t.ambrDl), ambrUl := NotNegative(t.ambrUl));
    assert bulk.ue.rows[u := row'] == bulk.ue.rows <==> row' == row by {
      assert bulk.ue.rows[u := row'][u] == row';
    }
  }

  /**
   * For one entry the two forms succeed together, and then leave the same tables - surrogate ids and
   * all - exactly when the entry's MSISDN is not empty (or the stored one already is) and no AMBR is
   * negative.
   */
  lemma OneEntryAgrees(db: Db, kdf: Kdf, t: Template, e: Entry)
    requires Integrity(db) && t.FormatOk() && IsDerivation(kdf.k) && IsDerivation(kdf.opc)
    ensures var bulk, flow := ProvisionOne(db, kdf, t, e), FlowOne(db, kdf, t, e);
            && (bulk.Ok? <==> flow.1.Ok?)
            && (bulk.Ok? ==> (flow.0 == bulk.value.0 <==> Agrees(db, t, e)))
  {
    hide View, Prepare, AuthUpsert, SubscriptionUpsert, SaveSlices, ClearTree, Save, Integrity, SetUe, Agrees;
    hide Template.FormatOk, FlowMsisdn;
    var imsi := Text.Trim(e.imsi);
    Text.TrimIdempotent(e.imsi);
    AuthUpsertMeaning(db, AuthInput(kdf, t, imsi, e.msisdn));
    if imsi != "" {
      var (bulk, u) := Prepare(db, kdf, t, imsi, e.msisdn);
      var db1 := AuthUpsert(db, AuthInput(kdf, t, imsi, e.msisdn)).0;
      var flow := SubscriptionUpsert(db1, imsi, t.ambrDl, t.ambrUl).0;
      FlowPrepares(db, kdf, t, imsi, e.msisdn);
      PrepareMeaning(db, kdf, t, imsi, e.msisdn);
      PreparedSame(db, kdf, t, e);
      SubscriptionUpsertMeaning(db1, imsi, t.ambrDl, t.ambrUl);
      ViewFound(flow, imsi);
      SetUeOnly(bulk, u, flow);
      SaveTwins(bulk, flow, imsi, t.tree);
      SaveIsWalk(bulk, u, imsi, t.tree);
    } else {
      assert AuthUpsert(db, AuthInput(kdf, t, imsi, e.msisdn)).1.Err?;
      assert FlowOne(db, kdf, t, e).1.Err?;
    }
  }

  lemma ViewFound(db: Db, imsi: string)
    requires Integrity(db) && View(db, imsi).Some?
    ensures FindUe(db.ue.rows, imsi).Some?
  {
  }

  lemma SetUeOnly(db: Db, u: int, db': Db)
    requires u in db.ue.rows && exists row :: db' == SetUe(db, u, row)
    ensures db' == db.(ue := db'.ue)
  {
  }
}
