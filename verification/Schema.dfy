/**
 * The subscriber tables of core/db/schemas/core.go: rows linked by surrogate ids, their UNIQUE and
 * foreign-key constraints, and the one value-level view every operation is specified by: `Flags`,
 * the map from (ue id, path in the subscription tree) to the is_default flag stored there.
 */
module Schema {
  import opened Wrappers
  import opened Keyed

  /** A table with an AUTOINCREMENT primary key. */
  datatype Table<R> = Table(rows: map<int, R>, last: nat) {
    ghost predicate Valid() {
      forall i :: i in rows ==> 0 < i <= last
    }

    function Insert(r: R): Table<R> {
      Table(rows[last + 1 := r], last + 1)
    }

    function Update(i: int, r: R): Table<R>
      requires i in rows
    {
      Table(rows[i := r], last)
    }

    function Delete(ids: set<int>): Table<R> {
      Table(rows - ids, last)
    }
  }

  datatype CatalogRow = CatalogRow(sst: int, sd: Option<string>, name: string)
  datatype UeRow = UeRow(imsi: string, msisdn: Option<string>, enabled: bool, ambrDl: int, ambrUl: int)
  datatype AuthRow = AuthRow(ue: int, opType: string, op: string, k: string, sqn: Option<int>,
                             amf: Option<string>, suci: Option<string>, hnKey: Option<string>)
  datatype SliceRow = SliceRow(ue: int, nssai: int, isDefault: bool)
  datatype DnnRow = DnnRow(slice: int, dnn: string, isDefault: bool)
  datatype BindingRow = BindingRow(sliceDnn: int, service: string, isDefault: bool)

  datatype Db = Db(catalog: Table<CatalogRow>, ue: Table<UeRow>, auth: Table<AuthRow>,
                   slices: Table<SliceRow>, dnns: Table<DnnRow>, bindings: Table<BindingRow>,
                   apns: set<string>, services: set<string>)

  datatype Error =
    | Missing(what: string)
    | Invalid(what: string)
    | ForeignKey
    | Overflow

  /** An empty string is stored as NULL. */
  function NullIfEmpty(s: string): Option<string> {
    if s == "" then None else Some(s)
  }

  // ── Constraints ──────────────────────────────────────────────────────────

  ghost predicate TablesValid(db: Db) {
    && db.catalog.Valid() && db.ue.Valid() && db.auth.Valid()
    && db.slices.Valid() && db.dnns.Valid() && db.bindings.Valid()
  }

  ghost predicate DnnRefs(slices: map<int, SliceRow>, dnns: map<int, DnnRow>) {
    forall i :: i in dnns ==> dnns[i].slice in slices
  }

  ghost predicate BindingRefs(dnns: map<int, DnnRow>, bindings: map<int, BindingRow>) {
    forall i :: i in bindings ==> bindings[i].sliceDnn in dnns
  }

  ghost predicate NoOrphans(db: Db) {
    && (forall i :: i in db.auth.rows ==> db.auth.rows[i].ue in db.ue.rows)
    && (forall i :: i in db.slices.rows ==>
          db.slices.rows[i].ue in db.ue.rows && db.slices.rows[i].nssai in db.catalog.rows)
    && DnnRefs(db.slices.rows, db.dnns.rows)
    && (forall i :: i in db.dnns.rows ==> db.dnns.rows[i].dnn in db.apns)
    && BindingRefs(db.dnns.rows, db.bindings.rows)
    && (forall i :: i in db.bindings.rows ==> db.bindings.rows[i].service in db.services)
  }

  ghost predicate UniqueImsi(ue: map<int, UeRow>) {
    forall i, j | i in ue && j in ue :: ue[i].imsi == ue[j].imsi ==> i == j
  }

  ghost predicate UniqueAuth(auth: map<int, AuthRow>) {
    forall i, j | i in auth && j in auth :: auth[i].ue == auth[j].ue ==> i == j
  }

  ghost predicate UniqueSlices(slices: map<int, SliceRow>) {
    forall i, j | i in slices && j in slices ::
      slices[i].ue == slices[j].ue && slices[i].nssai == slices[j].nssai ==> i == j
  }

  ghost predicate UniqueDnns(dnns: map<int, DnnRow>) {
    forall i, j | i in dnns && j in dnns ::
      dnns[i].slice == dnns[j].slice && dnns[i].dnn == dnns[j].dnn ==> i == j
  }

  ghost predicate UniqueBindings(bindings: map<int, BindingRow>) {
    forall i, j | i in bindings && j in bindings ::
      bindings[i].sliceDnn == bindings[j].sliceDnn && bindings[i].service == bindings[j].service ==> i == j
  }

  /** One row per (sst, sd-or-empty): more than UNIQUE(sst, sd), which lets NULL sd repeat. */
  ghost predicate UniqueCatalog(catalog: map<int, CatalogRow>) {
    forall i, j | i in catalog && j in catalog ::
      catalog[i].sst == catalog[j].sst && catalog[i].sd.GetOr("") == catalog[j].sd.GetOr("") ==> i == j
  }

  /** The CHECK constraints of ue_auth_data. */
  ghost predicate AuthChecked(auth: map<int, AuthRow>) {
    forall i :: i in auth ==>
      auth[i].opType in {"OP", "OPC"} && (auth[i].suci == None || auth[i].suci.value in {"A", "B"})
  }

  ghost predicate Integrity(db: Db) {
    && TablesValid(db)
    && NoOrphans(db)
    && UniqueImsi(db.ue.rows)
    && UniqueAuth(db.auth.rows)
    && AuthChecked(db.auth.rows)
    && UniqueSlices(db.slices.rows)
    && UniqueDnns(db.dnns.rows)
    && UniqueBindings(db.bindings.rows)
    && UniqueCatalog(db.catalog.rows)
  }

  // ── The value-level view ─────────────────────────────────────────────────

  datatype Path =
    | SlicePath(nssai: int)
    | DnnPath(nssai: int, dnn: string)
    | ServicePath(nssai: int, dnn: string, service: string)

  type Flagging = map<(int, Path), bool>

  // A row's place in the tree: (ue id, path).

  function SliceKey(s: SliceRow): (int, Path) {
    (s.ue, SlicePath(s.nssai))
  }

  function DnnKey(s: SliceRow, d: DnnRow): (int, Path) {
    (s.ue, DnnPath(s.nssai, d.dnn))
  }

  function BindingKey(s: SliceRow, d: DnnRow, b: BindingRow): (int, Path) {
    (s.ue, ServicePath(s.nssai, d.dnn, b.service))
  }

  ghost function SliceEntries(slices: map<int, SliceRow>): map<int, ((int, Path), bool)> {
    map i | i in slices :: (SliceKey(slices[i]), slices[i].isDefault)
  }

  ghost function DnnEntries(slices: map<int, SliceRow>, dnns: map<int, DnnRow>): map<int, ((int, Path), bool)>
    requires DnnRefs(slices, dnns)
  {
    map i | i in dnns :: (DnnKey(slices[dnns[i].slice], dnns[i]), dnns[i].isDefault)
  }

  ghost function BindingEntries(slices: map<int, SliceRow>, dnns: map<int, DnnRow>, bindings: map<int, BindingRow>)
    : map<int, ((int, Path), bool)>
    requires DnnRefs(slices, dnns) && BindingRefs(dnns, bindings)
  {
    map i | i in bindings ::
      (BindingKey(slices[dnns[bindings[i].sliceDnn].slice], dnns[bindings[i].sliceDnn], bindings[i]),
       bindings[i].isDefault)
  }

  ghost predicate Linked(slices: map<int, SliceRow>, dnns: map<int, DnnRow>, bindings: map<int, BindingRow>) {
    && UniqueSlices(slices) && UniqueDnns(dnns) && UniqueBindings(bindings)
    && DnnRefs(slices, dnns) && BindingRefs(dnns, bindings)
  }

  ghost function SliceFlags(slices: map<int, SliceRow>): (m: Flagging)
    requires UniqueSlices(slices)
    ensures forall k :: k in m ==> k.1.SlicePath?
  {
    Index(SliceEntries(slices))
  }

  ghost function DnnFlags(slices: map<int, SliceRow>, dnns: map<int, DnnRow>): (m: Flagging)
    requires UniqueSlices(slices) && UniqueDnns(dnns) && DnnRefs(slices, dnns)
    ensures forall k :: k in m ==> k.1.DnnPath?
  {
    Index(DnnEntries(slices, dnns))
  }

  ghost function BindingFlags(slices: map<int, SliceRow>, dnns: map<int, DnnRow>, bindings: map<int, BindingRow>)
    : (m: Flagging)
    requires Linked(slices, dnns, bindings)
    ensures forall k :: k in m ==> k.1.ServicePath?
  {
    Index(BindingEntries(slices, dnns, bindings))
  }

  ghost function TreeFlags(slices: map<int, SliceRow>, dnns: map<int, DnnRow>, bindings: map<int, BindingRow>): Flagging
    requires Linked(slices, dnns, bindings)
  {
    SliceFlags(slices) + DnnFlags(slices, dnns) + BindingFlags(slices, dnns, bindings)
  }

  ghost function Flags(db: Db): Flagging
    requires Integrity(db)
  {
    TreeFlags(db.slices.rows, db.dnns.rows, db.bindings.rows)
  }
}
