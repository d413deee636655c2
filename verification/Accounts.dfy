/** The single-UE calls of ue.go, auth.go and subscription.go on the ue and ue_auth_data rows. */
module Accounts {
  import opened Wrappers
  import opened Schema
  import opened Rows
  import opened Views
  import opened TreeSave
  import Text

  /** The column default of ambr_dl_kbps and ambr_ul_kbps. */
  const DEFAULT_AMBR := 1000000

  function SetUe(db: Db, u: int, row: UeRow): Db
    requires u in db.ue.rows
  {
    db.(ue := db.ue.Update(u, row))
  }

  /** UEGetOrCreateByIMSI: msisdn is written when given, the row is created when missing. */
  function GetOrCreateUe(db: Db, imsi: string, msisdn: Option<string>): (Db, Result<int, Error>) {
    var key := Text.Trim(imsi);
    if key == "" then (db, Err(Invalid("IMSI required")))
    else
      match FindUe(db.ue.rows, key)
      case Some(u) => (if msisdn.Some? then SetUe(db, u, db.ue.rows[u].(msisdn := msisdn)) else db, Ok(u))
      case None => (db.(ue := db.ue.Insert(UeRow(key, msisdn, true, DEFAULT_AMBR, DEFAULT_AMBR))), Ok(db.ue.last + 1))
  }

  /** Insert or replace the auth row of ue u. */
  function PutAuth(db: Db, row: AuthRow): Db {
    match FindAuth(db.auth.rows, row.ue)
    case Some(i) => db.(auth := db.auth.Update(i, row))
    case None => db.(auth := db.auth.Insert(row))
  }

  datatype AuthIn = AuthIn(imsi: string, msisdn: string, opType: string, op: string, k: string, amf: string,
                           sqn: int, suci: string, hnKey: string)

  predicate AuthFormatOk(opType: string, amf: string, suci: string, hnKey: string) {
    && opType in {"OP", "OPC"}
    && (amf == "" || Text.IsHex(amf, 4))
    && suci in {"", "A", "B"}
    && (hnKey == "" || Text.IsHex(hnKey, 64))
  }

  function AuthRowOf(u: int, input: AuthIn): AuthRow {
    AuthRow(u, input.opType, Text.Lower(input.op), Text.Lower(input.k), Some(input.sqn),
            NullIfEmpty(Text.Lower(input.amf)), NullIfEmpty(input.suci), NullIfEmpty(Text.Lower(input.hnKey)))
  }

  function AuthUpsert(db: Db, input: AuthIn): (Db, Result<(), Error>) {
    if !AuthFormatOk(input.opType, input.amf, input.suci, input.hnKey) ||
       !Text.IsHex(input.op, 32) || !Text.IsHex(input.k, 32)
    then (db, Err(Invalid("auth data")))
    else
      var (db1, r) := GetOrCreateUe(db, input.imsi, NullIfEmpty(input.msisdn));
      match r
      case Err(e) => (db1, Err(e))
      case Ok(u) => (PutAuth(db1, AuthRowOf(u, input)), Ok(()))
  }

  function NotNegative(n: int): int {
    if n < 0 then 0 else n
  }

  function SubscriptionUpsert(db: Db, imsi: string, ambrDl: int, ambrUl: int): (Db, Result<(), Error>) {
    var (db1, r) := GetOrCreateUe(db, imsi, None);
    match r
    case Err(e) => (db1, Err(e))
    case Ok(u) =>
      if u in db1.ue.rows then
        (SetUe(db1, u, db1.ue.rows[u].(ambrDl := NotNegative(ambrDl), ambrUl := NotNegative(ambrUl))), Ok(()))
      else (db1, Ok(()))
  }

  /** DELETE FROM ue WHERE imsi=?, with its cascade; how many ue rows went. */
  function DeleteByImsi(db: Db, imsi: string): (Db, nat) {
    match FindUe(db.ue.rows, imsi)
    case None => (db, 0)
    case Some(u) =>
      (DropAccount(ClearTree(db, u), u), 1)
  }

  function DropAccount(db: Db, u: int): Db {
    var gone := set i | i in db.auth.rows && db.auth.rows[i].ue == u;
    db.(auth := db.auth.Delete(gone), ue := db.ue.Delete({u}))
  }

  // ── Effect on the view ───────────────────────────────────────────────────

  lemma NewUeHasNoTree(db: Db, u: int)
    requires Integrity(db) && u !in db.ue.rows
    ensures TreeOf(Flags(db), u) == map[]
    ensures FindAuth(db.auth.rows, u).None?
  {
    hide TreeFlags;
    forall k | k in Flags(db)
      ensures k.0 != u
    {
      FlagHasSlice(db, k);
    }
  }

  lemma ViewColumns(db: Db, u: int)
    requires Integrity(db) && u in db.ue.rows
    ensures var row, v := db.ue.rows[u], View(db, db.ue.rows[u].imsi);
            v.Some? && v.value == v.value.(msisdn := row.msisdn, enabled := row.enabled,
                                           ambrDl := row.ambrDl, ambrUl := row.ambrUl)
  {
    hide TreeFlags, TreeOf, AuthOf;
  }

  lemma SetUeMeaning(db: Db, u: int, row: UeRow)
    requires Integrity(db) && u in db.ue.rows && row.imsi == db.ue.rows[u].imsi
    ensures var db' := SetUe(db, u, row);
            && Integrity(db') && OthersKept(db, db', row.imsi)
            && View(db', row.imsi) ==
               Some(View(db, row.imsi).value.(msisdn := row.msisdn, enabled := row.enabled, ambrDl := row.ambrDl,
                                              ambrUl := row.ambrUl))
  {
    hide TreeFlags, TreeOf;
    var db' := SetUe(db, u, row);
    assert Integrity(db');
    assert Flags(db') == Flags(db);
    forall imsi
      ensures FindUe(db'.ue.rows, imsi) == FindUe(db.ue.rows, imsi)
    {
    }
  }

  lemma InsertUeMeaning(db: Db, row: UeRow)
    requires Integrity(db) && FindUe(db.ue.rows, row.imsi).None?
    ensures var db' := db.(ue := db.ue.Insert(row));
            && Integrity(db') && OthersKept(db, db', row.imsi)
            && View(db', row.imsi) == Some(UeView(row.msisdn, row.enabled, row.ambrDl, row.ambrUl, None, map[]))
  {
    hide TreeFlags, TreeOf;
    var db', u := db.(ue := db.ue.Insert(row)), db.ue.last + 1;
    assert Integrity(db');
    NewUeHasNoTree(db, u);
    assert db'.ue.rows[u] == row;
    forall imsi | imsi != row.imsi
      ensures FindUe(db'.ue.rows, imsi) == FindUe(db.ue.rows, imsi)
    {
    }
  }

  lemma PutAuthMeaning(db: Db, row: AuthRow)
    requires Integrity(db) && row.ue in db.ue.rows
    requires row.opType in {"OP", "OPC"} && (row.suci.None? || row.suci.value in {"A", "B"})
    ensures var db', imsi := PutAuth(db, row), db.ue.rows[row.ue].imsi;
            && db' == db.(auth := db'.auth) && Integrity(db') && OthersKept(db, db', imsi)
            && View(db', imsi) == Some(View(db, imsi).value.(auth := Some(ReadAuth(row))))
  {
    var db' := PutAuth(db, row);
    PutAuthSound(db, row);
    PutAuthReads(db, row);
    hide AuthOf, PutAuth, Integrity;
    AuthOnlyViews(db, db', row.ue);
  }

  /** Where only one subscriber's auth data differs, only that part of its view does. */
  lemma AuthOnlyViews(a: Db, b: Db, u: int)
    requires Integrity(a) && Integrity(b) && b == a.(auth := b.auth) && u in a.ue.rows
    requires forall v :: v != u ==> AuthOf(b.auth.rows, v) == AuthOf(a.auth.rows, v)
    ensures OthersKept(a, b, a.ue.rows[u].imsi)
    ensures var imsi := a.ue.rows[u].imsi;
            View(a, imsi).Some? && View(b, imsi) == Some(View(a, imsi).value.(auth := AuthOf(b.auth.rows, u)))
  {
    assert FindUe(a.ue.rows, a.ue.rows[u].imsi) == Some(u);
    assert Flags(b) == Flags(a);
    hide Integrity, Flags, TreeOf, AuthOf;
  }

  lemma PutAuthSound(db: Db, row: AuthRow)
    requires Integrity(db) && row.ue in db.ue.rows
    requires row.opType in {"OP", "OPC"} && (row.suci.None? || row.suci.value in {"A", "B"})
    ensures var db' := PutAuth(db, row); db' == db.(auth := db'.auth) && Integrity(db')
  {
    hide UniqueSlices, UniqueDnns, UniqueBindings, UniqueCatalog, UniqueImsi;
  }

  lemma PutAuthReads(db: Db, row: AuthRow)
    requires Integrity(db)
    ensures AuthOf(PutAuth(db, row).auth.rows, row.ue) == Some(ReadAuth(row))
    ensures forall v :: v != row.ue ==> AuthOf(PutAuth(db, row).auth.rows, v) == AuthOf(db.auth.rows, v)
  {
    var i := FindAuth(db.auth.rows, row.ue).GetOr(db.auth.last + 1);
    assert PutAuth(db, row).auth.rows == db.auth.rows[i := row];
    PutAuthRow(db.auth.rows, i, row);
  }

  lemma PutAuthRow(auth: map<int, AuthRow>, i: int, row: AuthRow)
    requires UniqueAuth(auth)
    requires if i in auth then auth[i].ue == row.ue else FindAuth(auth, row.ue).None?
    ensures AuthOf(auth[i := row], row.ue) == Some(ReadAuth(row))
    ensures forall v :: v != row.ue ==> AuthOf(auth[i := row], v) == AuthOf(auth, v)
  {
    hide ReadAuth;
    var now := auth[i := row];
    assert UniqueAuth(now);
    assert now[i] == row;
    forall v | v != row.ue
      ensures AuthOf(now, v) == AuthOf(auth, v)
    {
      if FindAuth(auth, v).Some? {
        assert now[FindAuth(auth, v).value].ue == v;
      }
    }
  }

  lemma DeleteMeaning(db: Db, imsi: string)
    requires Integrity(db)
    ensures var (db', n) := DeleteByImsi(db, imsi);
            && Integrity(db') && OthersKept(db, db', imsi) && View(db', imsi) == None
            && n == (if View(db, imsi).Some? then 1 else 0)
            && SameCatalogs(db, db')
  {
    hide View, Integrity, Flags, ClearTree, DropAccount;
    ViewIsUe(db, imsi);
    if FindUe(db.ue.rows, imsi).Some? {
      var u := FindUe(db.ue.rows, imsi).value;
      var cleared := ClearTree(db, u);
      ClearTreeMeaning(db, u);
      NoSliceLeft(cleared, u);
      ClearedViews(db, cleared, u);
      DropUe(cleared, u);
    }
  }

  lemma ViewIsUe(db: Db, imsi: string)
    requires Integrity(db)
    ensures View(db, imsi).Some? <==> FindUe(db.ue.rows, imsi).Some?
  {
    hide Flags, TreeOf, AuthOf;
  }

  /** Where only the tree of one UE differs, only the view of its subscriber does. */
  lemma ClearedViews(a: Db, b: Db, u: int)
    requires Integrity(a) && Integrity(b) && SameAccounts(a, b) && u in a.ue.rows
    requires forall v :: v != u ==> TreeOf(Flags(b), v) == TreeOf(Flags(a), v)
    ensures OthersKept(a, b, a.ue.rows[u].imsi)
  {
    hide Flags, TreeOf, AuthOf;
  }

  /** The account rows of a UE whose tree is gone, dropped: its view with them, and no other. */
  lemma DropUe(db: Db, u: int)
    requires Integrity(db) && u in db.ue.rows && forall i :: i in db.slices.rows ==> db.slices.rows[i].ue != u
    ensures var db', imsi := DropAccount(db, u), db.ue.rows[u].imsi;
            && Integrity(db') && SameCatalogs(db, db')
            && View(db', imsi) == None && OthersKept(db, db', imsi)
  {
    hide TreeFlags, TreeOf;
    var db' := DropAccount(db, u);
    assert Integrity(db');
    assert Flags(db') == Flags(db);
    forall v | v in db.ue.rows && v != u
      ensures AuthOf(db'.auth.rows, v) == AuthOf(db.auth.rows, v)
    {
    }
    forall other | other != db.ue.rows[u].imsi
      ensures FindUe(db'.ue.rows, other) == FindUe(db.ue.rows, other)
    {
    }
  }

  lemma NoSliceLeft(db: Db, u: int)
    requires Integrity(db) && TreeOf(Flags(db), u) == map[]
    ensures forall i :: i in db.slices.rows ==> db.slices.rows[i].ue != u
  {
    hide TreeFlags;
    forall i | i in db.slices.rows
      ensures db.slices.rows[i].ue != u
    {
      var n := db.slices.rows[i].nssai;
      FlagOfSlice(db.slices.rows, db.dnns.rows, db.bindings.rows, u, n);
      assert SlicePath(n) !in TreeOf(Flags(db), u);
    }
  }

  /** A subscriber once get-or-create returned: created with the column defaults, or given the MSISDN passed. */
  ghost function Touched(was: Option<UeView>, msisdn: Option<string>): UeView {
    if was.None? then UeView(msisdn, true, 1000000, 1000000, None, map[])
    else if msisdn.Some? then was.value.(msisdn := msisdn)
    else was.value
  }

  /** The MSISDN is written whenever one is passed, an empty one too. */
  lemma GetOrCreateUeMeaning(db: Db, imsi: string, msisdn: Option<string>)
    requires Integrity(db)
    ensures var (db', r) := GetOrCreateUe(db, imsi, msisdn);
            var key := Text.Trim(imsi);
            && Integrity(db') && OthersKept(db, db', key) && db' == db.(ue := db'.ue)
            && (r.Err? <==> key == "") && (r.Err? ==> db' == db)
            && (r.Ok? ==> FindUe(db'.ue.rows, key) == Some(r.value)
                          && View(db', key) == Some(Touched(View(db, key), msisdn)))
  {
    hide TreeFlags, TreeOf, AuthOf;
    var key := Text.Trim(imsi);
    if key != "" {
      match FindUe(db.ue.rows, key)
      case Some(u) => SetUeMeaning(db, u, db.ue.rows[u].(msisdn := msisdn));
      case None =>
        var row := UeRow(key, msisdn, true, DEFAULT_AMBR, DEFAULT_AMBR);
        InsertUeMeaning(db, row);
        assert db.(ue := db.ue.Insert(row)).ue.rows[db.ue.last + 1] == row;
    }
  }

  lemma AuthUpsertMeaning(db: Db, input: AuthIn)
    requires Integrity(db)
    ensures var (db', r) := AuthUpsert(db, input);
            var imsi := Text.Trim(input.imsi);
            && Integrity(db') && OthersKept(db, db', imsi) && db' == db.(ue := db'.ue, auth := db'.auth)
            && (r.Err? ==> db' == db)
            && (r.Ok? <==> imsi != "" && input.opType in {"OP", "OPC"} && input.suci in {"", "A", "B"}
                           && Text.IsHex(input.op, 32) && Text.IsHex(input.k, 32)
                           && (input.amf == "" || Text.IsHex(input.amf, 4))
                           && (input.hnKey == "" || Text.IsHex(input.hnKey, 64)))
            && (r.Ok? ==> View(db', imsi) == Some(Touched(View(db, imsi), NullIfEmpty(input.msisdn)).(
                            auth := Some(AuthData(input.opType, Text.Lower(input.op), Text.Lower(input.k), input.sqn,
                                                  Text.Lower(input.amf), input.suci, Text.Lower(input.hnKey))))))
  {
    hide View, GetOrCreateUe, PutAuth, Integrity, ReadAuth, Touched, Text.Trim;
    GetOrCreateUeMeaning(db, input.imsi, NullIfEmpty(input.msisdn));
    var (db1, r1) := GetOrCreateUe(db, input.imsi, NullIfEmpty(input.msisdn));
    if AuthUpsert(db, input).1.Ok? {
      PutAuthMeaning(db1, AuthRowOf(r1.value, input));
      WrittenReads(r1.value, input);
    }
  }

  /** What a reader finds in the row written: the values passed, hex in lower case. */
  lemma WrittenReads(u: int, input: AuthIn)
    ensures ReadAuth(AuthRowOf(u, input)) ==
            AuthData(input.opType, Text.Lower(input.op), Text.Lower(input.k), input.sqn, Text.Lower(input.amf),
                     input.suci, Text.Lower(input.hnKey))
  {
    Text.LowerTwice(input.op);
    Text.LowerTwice(input.k);
    Text.LowerTwice(input.amf);
    Text.LowerTwice(input.hnKey);
  }

  lemma SubscriptionUpsertMeaning(db: Db, imsi: string, ambrDl: int, ambrUl: int)
    requires Integrity(db)
    ensures var (db', r) := SubscriptionUpsert(db, imsi, ambrDl, ambrUl);
            var dl, ul := if ambrDl < 0 then 0 else ambrDl, if ambrUl < 0 then 0 else ambrUl;
            var key := Text.Trim(imsi);
            && Integrity(db') && OthersKept(db, db', key) && db' == db.(ue := db'.ue)
            && (r.Ok? <==> key != "") && (r.Err? ==> db' == db)
            && (r.Ok? ==> View(db', key) == Some(Touched(View(db, key), None).(ambrDl := dl, ambrUl := ul)))
  {
    hide View, GetOrCreateUe, Integrity, Touched, Text.Trim;
    GetOrCreateUeMeaning(db, imsi, None);
    var (db1, r1) := GetOrCreateUe(db, imsi, None);
    if r1.Ok? {
      ViewColumns(db1, r1.value);
      SetUeMeaning(db1, r1.value,
                   db1.ue.rows[r1.value].(ambrDl := NotNegative(ambrDl), ambrUl := NotNegative(ambrUl)));
    }
  }
}
