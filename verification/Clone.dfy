/** UECloneDeep: copy one subscriber onto another by INSERT OR IGNORE ... SELECT joins. */
module Clone {
  import opened Wrappers
  import opened FirstWins
  import opened Schema
  import opened Rows
  import opened Views
  import opened TreeGet
  import opened Accounts
  import opened Ordering
  import Text

  // ── The rows the three SELECTs produce ───────────────────────────────────

  type SliceCopy = (int, bool)            // nssai_id, is_default
  type DnnCopy = (int, string, bool)      // destination slice row, dnn, is_default
  type BindingCopy = (int, string, bool)  // destination DNN row, service_name, is_default

  function SlicesToCopy(db: Db, src: int): set<SliceCopy> {
    set i | i in db.slices.rows && db.slices.rows[i].ue == src :: (db.slices.rows[i].nssai, db.slices.rows[i].isDefault)
  }

  /** j is a slice row of dst with the catalog entry of src's slice row i. */
  predicate Twin(slices: map<int, SliceRow>, src: int, dst: int, i: int, j: int) {
    && i in slices && slices[i].ue == src
    && j in slices && slices[j].ue == dst && slices[j].nssai == slices[i].nssai
  }

  function DnnsToCopy(db: Db, src: int, dst: int): set<DnnCopy> {
    set i, j | i in db.dnns.rows && j in db.slices.rows && Twin(db.slices.rows, src, dst, db.dnns.rows[i].slice, j) ::
      (j, db.dnns.rows[i].dnn, db.dnns.rows[i].isDefault)
  }

  function BindingsToCopy(db: Db, src: int, dst: int): set<BindingCopy> {
    set i, k | i in db.bindings.rows && k in db.dnns.rows && db.bindings.rows[i].sliceDnn in db.dnns.rows
               && Twin(db.slices.rows, src, dst, db.dnns.rows[db.bindings.rows[i].sliceDnn].slice,
                       db.dnns.rows[k].slice)
               && db.dnns.rows[k].dnn == db.dnns.rows[db.bindings.rows[i].sliceDnn].dnn ::
      (k, db.bindings.rows[i].service, db.bindings.rows[i].isDefault)
  }

  // ── Inserting them ───────────────────────────────────────────────────────

  function CopySlices(db: Db, dst: int, q: seq<SliceCopy>): Result<Db, Error>
    decreases |q|
  {
    if q == [] then Ok(db)
    else
      var db1 :- PutSlice(db, dst, q[0].0, q[0].1);
      CopySlices(db1, dst, q[1..])
  }

  function CopyDnns(db: Db, q: seq<DnnCopy>): Result<Db, Error>
    decreases |q|
  {
    if q == [] then Ok(db)
    else
      var db1 :- PutDnn(db, q[0].0, q[0].1, q[0].2);
      CopyDnns(db1, q[1..])
  }

  function CopyBindings(db: Db, q: seq<BindingCopy>): Result<Db, Error>
    decreases |q|
  {
    if q == [] then Ok(db)
    else
      var db1 :- PutBinding(db, q[0].0, q[0].1, q[0].2);
      CopyBindings(db1, q[1..])
  }

  // ── Account rows ─────────────────────────────────────────────────────────

  function CloneRow(src: UeRow, dstImsi: string, dstMsisdn: string): UeRow {
    UeRow(dstImsi, Some(if dstMsisdn != "" then dstMsisdn else src.msisdn.GetOr("")), src.enabled, src.ambrDl,
          src.ambrUl)
  }

  /** The authentication row starts over at SQN 0; it is rewritten from what AuthGetByIMSI read. */
  function CloneAuth(auth: AuthData, dst: int): AuthRow {
    AuthRow(dst, auth.opType, auth.op, auth.k, Some(0), Some(auth.amf), NullIfEmpty(auth.suci), NullIfEmpty(auth.hnKey))
  }

  /** INSERT INTO ue ... ON CONFLICT(imsi) DO UPDATE */
  function UpsertUe(db: Db, row: UeRow): (Db, int) {
    match FindUe(db.ue.rows, row.imsi)
    case Some(u) => (SetUe(db, u, row), u)
    case None => (db.(ue := db.ue.Insert(row)), db.ue.last + 1)
  }

  function CloneAccount(db: Db, src: int, auth: AuthData, dstImsi: string, dstMsisdn: string): (Db, int)
    requires src in db.ue.rows
  {
    var (db1, dst) := UpsertUe(db, CloneRow(db.ue.rows[src], dstImsi, dstMsisdn));
    (PutAuth(db1, CloneAuth(auth, dst)), dst)
  }

  // ── The whole call ───────────────────────────────────────────────────────

  /** Steps 5 to 7, for some order of the rows each SELECT yields. */
  ghost predicate CopiesTree(db4: Db, src: int, dst: int, db': Db) {
    exists q5, db5, q6, db6, q7 ::
      && Lists(q5, SlicesToCopy(db4, src)) && CopySlices(db4, dst, q5) == Ok(db5)
      && Lists(q6, DnnsToCopy(db5, src, dst)) && CopyDnns(db5, q6) == Ok(db6)
      && Lists(q7, BindingsToCopy(db6, src, dst)) && CopyBindings(db6, q7) == Ok(db')
  }

  ghost predicate Cloned(db: Db, srcImsi: string, dstImsi: string, dstMsisdn: string, db': Db, r: Result<int, Error>) {
    var s, d := Text.Trim(srcImsi), Text.Trim(dstImsi);
    if s == "" || d == "" then db' == db && r == Err(Invalid("src + dst IMSI required"))
    else
      var found := FindUe(db.ue.rows, s);
      if found.None? || found.value !in db.ue.rows then db' == db && r == Err(Missing("source IMSI"))
      else
        var auth := AuthOf(db.auth.rows, found.value);
        if auth.None? then db' == db && r == Err(Missing("source auth data"))
        else
          var (db4, dst) := CloneAccount(db, found.value, auth.value, d, dstMsisdn);
          r == Ok(dst) && CopiesTree(db4, found.value, dst, db')
  }

  // ── What it does to the views ────────────────────────────────────────────

  /** The view of a clone: the source's account with SQN 0, and the union of the trees, the destination's flags kept. */
  ghost function CloneView(src: UeView, dst: Option<UeView>, dstMsisdn: string): UeView
    requires src.auth.Some?
  {
    UeView(Some(if dstMsisdn != "" then dstMsisdn else src.msisdn.GetOr("")),
           src.enabled, src.ambrDl, src.ambrUl, Some(src.auth.value.(sqn := 0)),
           src.tree + (if dst.Some? then dst.value.tree else map[]))
  }

  /** Inserting, in any order, the entries of a map puts that map underneath. */
  lemma PutAllLists(m: map<Path, bool>, items: seq<(Path, bool)>, s: map<Path, bool>)
    requires forall e :: e in items <==> e.0 in s && s[e.0] == e.1
    ensures PutAll(m, items) == s + m
  {
    var r := PutAll(m, items);
    forall p
      ensures p in r <==> p in s + m
      ensures p in r && p in s + m ==> r[p] == (s + m)[p]
    {
      PutAllMeaning(m, items, p);
      var i := FirstIndex(items, p);
      if i < |items| {
        assert items[i] in items;
      }
      if p in s {
        var e := (p, s[p]);
        assert e in items;
      }
    }
  }

  function SliceCopyItems(q: seq<SliceCopy>): seq<(Path, bool)> {
    seq(|q|, i requires 0 <= i < |q| => (SlicePath(q[i].0), q[i].1))
  }

  lemma {:induction false} CopySlicesMeaning(db: Db, dst: int, q: seq<SliceCopy>)
    requires Integrity(db) && dst in db.ue.rows && forall c :: c in q ==> c.0 in db.catalog.rows
    ensures var r := CopySlices(db, dst, q);
            && r.Ok? && Integrity(r.value) && SameAccounts(db, r.value)
            && Flags(r.value) == PutTree(Flags(db), dst, SliceCopyItems(q))
            && r.value.dnns == db.dnns && r.value.bindings == db.bindings
            && (forall i :: i in db.slices.rows ==>
                  i in r.value.slices.rows && r.value.slices.rows[i] == db.slices.rows[i])
    decreases |q|
  {
    hide Flags, Integrity;
    if q != [] {
      assert q[0] in q && forall c :: c in q[1..] ==> c in q;
      PutSliceMeaning(db, dst, q[0].0, q[0].1);
      var r := PutSlice(db, dst, q[0].0, q[0].1);
      PutSliceAdds(db, dst, q[0].0, q[0].1);
      CopySlicesMeaning(r.value, dst, q[1..]);
      assert SliceCopyItems(q)[1..] == SliceCopyItems(q[1..]);
    }
  }

  lemma PutSliceAdds(db: Db, u: int, n: int, flag: bool)
    requires Integrity(db) && PutSlice(db, u, n, flag).Ok?
    ensures var s, s' := db.slices.rows, PutSlice(db, u, n, flag).value.slices.rows;
            forall i :: i in s ==> i in s' && s'[i] == s[i]
  {
  }

  function DnnCopyItems(slices: map<int, SliceRow>, q: seq<DnnCopy>): seq<(Path, bool)>
    requires forall c :: c in q ==> c.0 in slices
  {
    seq(|q|, i requires 0 <= i < |q| => assert q[i] in q; (DnnPath(slices[q[i].0].nssai, q[i].1), q[i].2))
  }

  lemma {:induction false} CopyDnnsMeaning(db: Db, dst: int, q: seq<DnnCopy>)
    requires Integrity(db)
    requires forall c :: c in q ==> c.0 in db.slices.rows && db.slices.rows[c.0].ue == dst && c.1 in db.apns
    ensures var r := CopyDnns(db, q);
            && r.Ok? && Integrity(r.value) && SameAccounts(db, r.value) && r.value.slices == db.slices
            && Flags(r.value) == PutTree(Flags(db), dst, DnnCopyItems(db.slices.rows, q))
    decreases |q|
  {
    hide Flags, Integrity;
    if q != [] {
      assert q[0] in q && forall c :: c in q[1..] ==> c in q;
      PutDnnMeaning(db, q[0].0, q[0].1, q[0].2);
      var r := PutDnn(db, q[0].0, q[0].1, q[0].2);
      CopyDnnsMeaning(r.value, dst, q[1..]);
      assert DnnCopyItems(db.slices.rows, q)[1..] == DnnCopyItems(db.slices.rows, q[1..]);
    }
  }

  function BindingCopyItems(slices: map<int, SliceRow>, dnns: map<int, DnnRow>, q: seq<BindingCopy>): seq<(Path, bool)>
    requires forall c :: c in q ==> c.0 in dnns && dnns[c.0].slice in slices
  {
    seq(|q|, i requires 0 <= i < |q| =>
      assert q[i] in q;
      (ServicePath(slices[dnns[q[i].0].slice].nssai, dnns[q[i].0].dnn, q[i].1), q[i].2))
  }

  lemma {:induction false} CopyBindingsMeaning(db: Db, dst: int, q: seq<BindingCopy>)
    requires Integrity(db)
    requires forall c :: c in q ==>
               && c.0 in db.dnns.rows && db.dnns.rows[c.0].slice in db.slices.rows
               && db.slices.rows[db.dnns.rows[c.0].slice].ue == dst && c.1 in db.services
    ensures var r := CopyBindings(db, q);
            && r.Ok? && Integrity(r.value) && SameAccounts(db, r.value)
            && Flags(r.value) == PutTree(Flags(db), dst, BindingCopyItems(db.slices.rows, db.dnns.rows, q))
    decreases |q|
  {
    hide Flags, Integrity;
    if q != [] {
      assert q[0] in q && forall c :: c in q[1..] ==> c in q;
      PutBindingMeaning(db, q[0].0, q[0].1, q[0].2);
      var r := PutBinding(db, q[0].0, q[0].1, q[0].2);
      CopyBindingsMeaning(r.value, dst, q[1..]);
      assert BindingCopyItems(db.slices.rows, db.dnns.rows, q)[1..] ==
          BindingCopyItems(db.slices.rows, db.dnns.rows, q[1..]);
    }
  }

  // ── Each SELECT lists one level of the source's tree ─────────────────────

  ghost function SlicePart(t: map<Path, bool>): map<Path, bool> { map p | p in t && p.SlicePath? :: t[p] }
  ghost function DnnPart(t: map<Path, bool>): map<Path, bool> { map p | p in t && p.DnnPath? :: t[p] }
  ghost function ServicePart(t: map<Path, bool>): map<Path, bool> { map p | p in t && p.ServicePath? :: t[p] }

  lemma SlicesListed(db: Db, src: int, q: seq<SliceCopy>)
    requires Integrity(db) && Lists(q, SlicesToCopy(db, src))
    ensures forall e :: e in SliceCopyItems(q) <==>
              e.0 in SlicePart(TreeOf(Flags(db), src)) && SlicePart(TreeOf(Flags(db), src))[e.0] == e.1
    ensures forall c :: c in q ==> c.0 in db.catalog.rows
  {
    hide TreeFlags;
    var t := SlicePart(TreeOf(Flags(db), src));
    forall e: (Path, bool)
      ensures e in SliceCopyItems(q) <==> e.0 in t && t[e.0] == e.1
    {
      if e.0.SlicePath? {
        var n := e.0.nssai;
        FlagOfSlice(db.slices.rows, db.dnns.rows, db.bindings.rows, src, n);
        var c := (n, e.1);
        if e in SliceCopyItems(q) {
          var i :| 0 <= i < |q| && SliceCopyItems(q)[i] == e;
          assert q[i] == c && c in q;
        }
        if c in q {
          var i :| 0 <= i < |q| && q[i] == c;
          assert SliceCopyItems(q)[i] == e;
        }
      }
    }
  }

  /** A DNN copy, as the destination path and flag it writes. */
  lemma DnnCopyMeans(db: Db, src: int, dst: int, c: DnnCopy)
    requires Integrity(db) && c in DnnsToCopy(db, src, dst)
    ensures c.0 in db.slices.rows && db.slices.rows[c.0].ue == dst && c.1 in db.apns
    ensures Stored(db, src, DnnPath(db.slices.rows[c.0].nssai, c.1), c.2)
  {
    hide TreeFlags;
    var i, j :| i in db.dnns.rows && j in db.slices.rows && Twin(db.slices.rows, src, dst, db.dnns.rows[i].slice, j) &&
                c == (j, db.dnns.rows[i].dnn, db.dnns.rows[i].isDefault);
    FlagOfDnn(db.slices.rows, db.dnns.rows, db.bindings.rows, db.dnns.rows[i].slice, db.dnns.rows[i].dnn);
  }

  lemma DnnToCopy(db: Db, src: int, dst: int, n: int, dnn: string, flag: bool) returns (c: DnnCopy)
    requires Integrity(db) && Stored(db, src, DnnPath(n, dnn), flag) && FindSlice(db.slices.rows, dst, n).Some?
    ensures c in DnnsToCopy(db, src, dst) && db.slices.rows[c.0].nssai == n && c.1 == dnn && c.2 == flag
  {
    hide TreeFlags;
    StoredHasDnn(db, src, DnnPath(n, dnn));
    var s, j := FindSlice(db.slices.rows, src, n).value, FindSlice(db.slices.rows, dst, n).value;
    FlagOfDnn(db.slices.rows, db.dnns.rows, db.bindings.rows, s, dnn);
    var i := FindDnn(db.dnns.rows, s, dnn).value;
    c := (j, dnn, flag);
    assert Twin(db.slices.rows, src, dst, db.dnns.rows[i].slice, j);
  }

  lemma DnnsListed(db: Db, src: int, dst: int, q: seq<DnnCopy>)
    requires Integrity(db) && Lists(q, DnnsToCopy(db, src, dst))
    requires forall n :: FindSlice(db.slices.rows, src, n).Some? ==> FindSlice(db.slices.rows, dst, n).Some?
    ensures forall c :: c in q ==> c.0 in db.slices.rows && db.slices.rows[c.0].ue == dst && c.1 in db.apns
    ensures forall e :: e in DnnCopyItems(db.slices.rows, q) <==>
              e.0 in DnnPart(TreeOf(Flags(db), src)) && DnnPart(TreeOf(Flags(db), src))[e.0] == e.1
  {
    hide Flags, Integrity, DnnsToCopy, TreeOf;
    forall c | c in q
      ensures c.0 in db.slices.rows && db.slices.rows[c.0].ue == dst && c.1 in db.apns
      ensures Stored(db, src, DnnPath(db.slices.rows[c.0].nssai, c.1), c.2)
    {
      DnnCopyMeans(db, src, dst, c);
    }
    var items, t := DnnCopyItems(db.slices.rows, q), DnnPart(TreeOf(Flags(db), src));
    forall e: (Path, bool)
      ensures e in items <==> e.0 in t && t[e.0] == e.1
    {
      if e in items {
        var i :| 0 <= i < |q| && items[i] == e;
        assert q[i] in q;
      }
      if e.0 in t && t[e.0] == e.1 {
        StoredHasDnn(db, src, e.0);
        var c := DnnToCopy(db, src, dst, e.0.nssai, e.0.dnn, e.1);
        var i :| 0 <= i < |q| && q[i] == c;
        assert items[i] == e;
      }
    }
  }

  lemma BindingCopyMeans(db: Db, src: int, dst: int, c: BindingCopy)
    requires Integrity(db) && c in BindingsToCopy(db, src, dst)
    ensures c.0 in db.dnns.rows && db.dnns.rows[c.0].slice in db.slices.rows
    ensures var s := db.slices.rows[db.dnns.rows[c.0].slice];
            && s.ue == dst && c.1 in db.services
            && Stored(db, src, ServicePath(s.nssai, db.dnns.rows[c.0].dnn, c.1), c.2)
  {
    hide TreeFlags;
    var i, k :| i in db.bindings.rows && k in db.dnns.rows && db.bindings.rows[i].sliceDnn in db.dnns.rows
                && Twin(db.slices.rows, src, dst, db.dnns.rows[db.bindings.rows[i].sliceDnn].slice,
                        db.dnns.rows[k].slice)
                && db.dnns.rows[k].dnn == db.dnns.rows[db.bindings.rows[i].sliceDnn].dnn
                && c == (k, db.bindings.rows[i].service, db.bindings.rows[i].isDefault);
    FlagOfBinding(db.slices.rows, db.dnns.rows, db.bindings.rows, db.bindings.rows[i].sliceDnn,
                  db.bindings.rows[i].service);
  }

  lemma BindingToCopy(db: Db, src: int, dst: int, p: Path, flag: bool) returns (c: BindingCopy)
    requires Integrity(db) && p.ServicePath? && Stored(db, src, p, flag)
    requires FindSlice(db.slices.rows, dst, p.nssai).Some?
    requires FindDnn(db.dnns.rows, FindSlice(db.slices.rows, dst, p.nssai).value, p.dnn).Some?
    ensures c in BindingsToCopy(db, src, dst)
    ensures db.slices.rows[db.dnns.rows[c.0].slice].nssai == p.nssai && db.dnns.rows[c.0].dnn == p.dnn
    ensures c.1 == p.service && c.2 == flag
  {
    hide TreeFlags;
    StoredHasDnn(db, src, p);
    var s := FindSlice(db.slices.rows, src, p.nssai).value;
    var d := FindDnn(db.dnns.rows, s, p.dnn).value;
    var k := FindDnn(db.dnns.rows, FindSlice(db.slices.rows, dst, p.nssai).value, p.dnn).value;
    FlagOfBinding(db.slices.rows, db.dnns.rows, db.bindings.rows, d, p.service);
    var i := FindBinding(db.bindings.rows, d, p.service).value;
    c := (k, p.service, flag);
    assert Twin(db.slices.rows, src, dst, db.dnns.rows[db.bindings.rows[i].sliceDnn].slice, db.dnns.rows[k].slice);
  }

  lemma BindingsListed(db: Db, src: int, dst: int, q: seq<BindingCopy>)
    requires Integrity(db) && Lists(q, BindingsToCopy(db, src, dst))
    requires forall n, dnn :: (src, DnnPath(n, dnn)) in Flags(db) ==> (dst, DnnPath(n, dnn)) in Flags(db)
    ensures forall c :: c in q ==>
              && c.0 in db.dnns.rows && db.dnns.rows[c.0].slice in db.slices.rows
              && db.slices.rows[db.dnns.rows[c.0].slice].ue == dst && c.1 in db.services
    ensures forall e :: e in BindingCopyItems(db.slices.rows, db.dnns.rows, q) <==>
              e.0 in ServicePart(TreeOf(Flags(db), src)) && ServicePart(TreeOf(Flags(db), src))[e.0] == e.1
  {
    hide Flags, Integrity, BindingsToCopy, TreeOf;
    forall c | c in q
      ensures c.0 in db.dnns.rows && db.dnns.rows[c.0].slice in db.slices.rows
      ensures db.slices.rows[db.dnns.rows[c.0].slice].ue == dst && c.1 in db.services
      ensures Stored(db, src, ServicePath(db.slices.rows[db.dnns.rows[c.0].slice].nssai, db.dnns.rows[c.0].dnn, c.1),
                     c.2)
    {
      BindingCopyMeans(db, src, dst, c);
    }
    var items, t := BindingCopyItems(db.slices.rows, db.dnns.rows, q), ServicePart(TreeOf(Flags(db), src));
    forall e: (Path, bool)
      ensures e in items <==> e.0 in t && t[e.0] == e.1
    {
      if e in items {
        var i :| 0 <= i < |q| && items[i] == e;
        assert q[i] in q;
      }
      if e.0 in t && t[e.0] == e.1 {
        ServiceHasDnnPath(db, src, e.0);
        StoredHasDnn(db, dst, DnnPath(e.0.nssai, e.0.dnn));
        var c := BindingToCopy(db, src, dst, e.0, e.1);
        var i :| 0 <= i < |q| && q[i] == c;
        assert items[i] == e;
      }
    }
  }

  /** The DNN above a stored service is stored. */
  lemma ServiceHasDnnPath(db: Db, u: int, p: Path)
    requires Integrity(db) && p.ServicePath? && (u, p) in Flags(db)
    ensures (u, DnnPath(p.nssai, p.dnn)) in Flags(db)
  {
    hide TreeFlags;
    StoredHasDnn(db, u, p);
    FlagOfDnn(db.slices.rows, db.dnns.rows, db.bindings.rows, FindSlice(db.slices.rows, u, p.nssai).value, p.dnn);
  }

  // ── The copied tree ──────────────────────────────────────────────────────

  lemma PartsJoin(s: map<Path, bool>, d: map<Path, bool>)
    ensures ServicePart(s) + (DnnPart(s) + (SlicePart(s) + d)) == s + d
    ensures SlicePart(s) + s == s && DnnPart(s) + s == s && ServicePart(s) + s == s
  {
  }

  /** One INSERT ... SELECT whose rows are the part of the source's tree: it lands under the destination's. */
  lemma PartLands(db: Db, db': Db, src: int, dst: int, items: seq<(Path, bool)>, part: map<Path, bool>)
    requires Integrity(db) && Integrity(db') && Flags(db') == PutTree(Flags(db), dst, items)
    requires forall e :: e in items <==> e.0 in part && part[e.0] == e.1
    requires part + TreeOf(Flags(db), src) == TreeOf(Flags(db), src)
    ensures TreeOf(Flags(db'), dst) == part + TreeOf(Flags(db), dst)
    ensures TreeOf(Flags(db'), src) == TreeOf(Flags(db), src)
    ensures forall v :: v != dst ==> TreeOf(Flags(db'), v) == TreeOf(Flags(db), v)
  {
    hide Flags, Integrity, TreeOf;
    TreeOfPutTree(Flags(db), dst, items);
    PutAllLists(TreeOf(Flags(db), dst), items, part);
  }

  lemma SlicesCopied(db: Db, src: int, dst: int, q: seq<SliceCopy>)
    requires Integrity(db) && dst in db.ue.rows && Lists(q, SlicesToCopy(db, src))
    ensures CopySlices(db, dst, q).Ok?
    ensures var db' := CopySlices(db, dst, q).value;
            var s := TreeOf(Flags(db), src);
            && Integrity(db') && SameAccounts(db, db')
            && TreeOf(Flags(db'), src) == s && TreeOf(Flags(db'), dst) == SlicePart(s) + TreeOf(Flags(db), dst)
            && forall v :: v != dst ==> TreeOf(Flags(db'), v) == TreeOf(Flags(db), v)
  {
    hide Flags, Integrity, TreeOf, SlicePart, SlicesToCopy;
    SlicesListed(db, src, q);
    CopySlicesMeaning(db, dst, q);
    PartsJoin(TreeOf(Flags(db), src), map[]);
    PartLands(db, CopySlices(db, dst, q).value, src, dst, SliceCopyItems(q), SlicePart(TreeOf(Flags(db), src)));
  }

  lemma DnnsCopied(db: Db, src: int, dst: int, q: seq<DnnCopy>)
    requires Integrity(db) && Lists(q, DnnsToCopy(db, src, dst))
    requires forall n :: SlicePath(n) in TreeOf(Flags(db), src) ==> SlicePath(n) in TreeOf(Flags(db), dst)
    ensures CopyDnns(db, q).Ok?
    ensures var db' := CopyDnns(db, q).value;
            var s := TreeOf(Flags(db), src);
            && Integrity(db') && SameAccounts(db, db')
            && TreeOf(Flags(db'), src) == s && TreeOf(Flags(db'), dst) == DnnPart(s) + TreeOf(Flags(db), dst)
            && forall v :: v != dst ==> TreeOf(Flags(db'), v) == TreeOf(Flags(db), v)
  {
    hide Flags, Integrity, DnnPart, DnnsToCopy;
    forall n | FindSlice(db.slices.rows, src, n).Some?
      ensures FindSlice(db.slices.rows, dst, n).Some?
    {
      SlicePathFound(db, src, n);
      SlicePathFound(db, dst, n);
    }
    DnnsListed(db, src, dst, q);
    CopyDnnsMeaning(db, dst, q);
    PartsJoin(TreeOf(Flags(db), src), map[]);
    PartLands(db, CopyDnns(db, q).value, src, dst, DnnCopyItems(db.slices.rows, q), DnnPart(TreeOf(Flags(db), src)));
  }

  lemma SlicePathFound(db: Db, u: int, n: int)
    requires Integrity(db)
    ensures SlicePath(n) in TreeOf(Flags(db), u) <==> FindSlice(db.slices.rows, u, n).Some?
  {
    hide TreeFlags;
    FlagOfSlice(db.slices.rows, db.dnns.rows, db.bindings.rows, u, n);
  }

  lemma BindingsCopied(db: Db, src: int, dst: int, q: seq<BindingCopy>)
    requires Integrity(db) && Lists(q, BindingsToCopy(db, src, dst))
    requires forall n, dnn :: DnnPath(n, dnn) in TreeOf(Flags(db), src) ==> DnnPath(n, dnn) in TreeOf(Flags(db), dst)
    ensures CopyBindings(db, q).Ok?
    ensures var db' := CopyBindings(db, q).value;
            var s := TreeOf(Flags(db), src);
            && Integrity(db') && SameAccounts(db, db')
            && TreeOf(Flags(db'), src) == s && TreeOf(Flags(db'), dst) == ServicePart(s) + TreeOf(Flags(db), dst)
            && forall v :: v != dst ==> TreeOf(Flags(db'), v) == TreeOf(Flags(db), v)
  {
    hide Flags, Integrity, ServicePart, BindingsToCopy;
    forall n, dnn | (src, DnnPath(n, dnn)) in Flags(db)
      ensures (dst, DnnPath(n, dnn)) in Flags(db)
    {
      assert DnnPath(n, dnn) in TreeOf(Flags(db), src);
    }
    BindingsListed(db, src, dst, q);
    CopyBindingsMeaning(db, dst, q);
    PartsJoin(TreeOf(Flags(db), src), map[]);
    PartLands(db, CopyBindings(db, q).value, src, dst, BindingCopyItems(db.slices.rows, db.dnns.rows, q),
              ServicePart(TreeOf(Flags(db), src)));
  }

  /** The three copies together: the union of the two trees, the destination's flags kept. */
  lemma CopiesTreeMeaning(db: Db, src: int, dst: int, db': Db)
    requires Integrity(db) && dst in db.ue.rows && CopiesTree(db, src, dst, db')
    ensures Integrity(db') && SameAccounts(db, db')
    ensures TreeOf(Flags(db'), dst) == TreeOf(Flags(db), src) + TreeOf(Flags(db), dst)
    ensures forall v :: v != dst ==> TreeOf(Flags(db'), v) == TreeOf(Flags(db), v)
  {
    hide Flags, Integrity, TreeOf, Lists, CopySlices, CopyDnns, CopyBindings, SlicesToCopy, DnnsToCopy, BindingsToCopy;
    var q5, db5, q6, db6, q7 :|
      && Lists(q5, SlicesToCopy(db, src)) && CopySlices(db, dst, q5) == Ok(db5)
      && Lists(q6, DnnsToCopy(db5, src, dst)) && CopyDnns(db5, q6) == Ok(db6)
      && Lists(q7, BindingsToCopy(db6, src, dst)) && CopyBindings(db6, q7) == Ok(db');
    SlicesCopied(db, src, dst, q5);
    DnnsCopied(db5, src, dst, q6);
    BindingsCopied(db6, src, dst, q7);
    PartsJoin(TreeOf(Flags(db), src), TreeOf(Flags(db), dst));
  }

  // ── The clone ────────────────────────────────────────────────────────────

  lemma UpsertUeMeaning(db: Db, row: UeRow)
    requires Integrity(db)
    ensures var (db', u) := UpsertUe(db, row);
            && Integrity(db') && db' == db.(ue := db'.ue) && FindUe(db'.ue.rows, row.imsi) == Some(u)
            && (FindUe(db.ue.rows, row.imsi).Some? ==> FindUe(db.ue.rows, row.imsi) == Some(u))
            && (FindUe(db.ue.rows, row.imsi).None? ==> u !in db.ue.rows)
            && OthersKept(db, db', row.imsi) && View(db', row.imsi).Some?
            && var v := View(db', row.imsi).value;
               v.msisdn == row.msisdn && v.enabled == row.enabled && v.ambrDl == row.ambrDl && v.ambrUl == row.ambrUl
               && v.tree == (if View(db, row.imsi).Some? then View(db, row.imsi).value.tree else map[])
  {
    hide TreeFlags, TreeOf, AuthOf;
    match FindUe(db.ue.rows, row.imsi)
    case Some(u) => SetUeMeaning(db, u, row);
    case None =>
      InsertUeMeaning(db, row);
      assert db.(ue := db.ue.Insert(row)).ue.rows[db.ue.last + 1] == row;
  }

  lemma CloneAuthReads(auth: AuthRow, dst: int)
    ensures ReadAuth(CloneAuth(ReadAuth(auth), dst)) == ReadAuth(auth).(sqn := 0)
  {
    LowerTwice(auth.op);
    LowerTwice(auth.k);
    LowerTwice(auth.amf.GetOr(""));
    LowerTwice(auth.hnKey.GetOr(""));
  }

  lemma LowerTwice(s: string)
    ensures Text.Lower(Text.Lower(s)) == Text.Lower(s)
  {
  }

  lemma CloneAccountMeaning(db: Db, src: int, dstImsi: string, dstMsisdn: string)
    requires Integrity(db) && src in db.ue.rows && AuthOf(db.auth.rows, src).Some?
    ensures var source := View(db, db.ue.rows[src].imsi);
            var (db4, dst) := CloneAccount(db, src, AuthOf(db.auth.rows, src).value, dstImsi, dstMsisdn);
            && Integrity(db4) && dst in db4.ue.rows && FindUe(db4.ue.rows, dstImsi) == Some(dst)
            && db4 == db.(ue := db4.ue, auth := db4.auth)
            && OthersKept(db, db4, dstImsi) && View(db4, dstImsi).Some?
            && source.Some? && source.value.auth.Some?
            && View(db4, dstImsi).value ==
               CloneView(source.value, View(db, dstImsi), dstMsisdn).(
                 tree := if View(db, dstImsi).Some? then View(db, dstImsi).value.tree else map[])
  {
    hide Flags, TreeOf, TablesValid, NoOrphans, PutAuth, UpsertUe, CloneAuth, ReadAuth;
    var i := FindAuth(db.auth.rows, src).value;
    var auth := AuthOf(db.auth.rows, src).value;
    var row := CloneRow(db.ue.rows[src], dstImsi, dstMsisdn);
    UpsertUeMeaning(db, row);
    var (db1, dst) := UpsertUe(db, row);
    CloneAuthReads(db.auth.rows[i], dst);
    CloneAuthChecked(db.auth.rows[i], dst);
    PutAuthMeaning(db1, CloneAuth(auth, dst));
  }

  lemma CloneAuthChecked(auth: AuthRow, dst: int)
    requires auth.opType in {"OP", "OPC"} && (auth.suci.None? || auth.suci.value in {"A", "B"})
    ensures var row := CloneAuth(ReadAuth(auth), dst);
            row.ue == dst && row.opType in {"OP", "OPC"} && (row.suci.None? || row.suci.value in {"A", "B"})
  {
  }

  /**
   * A deep clone, whatever order its joins yield: it fails exactly when an IMSI is blank, the source
   * is missing or has no auth data, and then changes nothing; otherwise the destination is seen as
   * CloneView, and no other subscriber changes. (A clone onto itself is covered.)
   */
  lemma CloneMeaning(db: Db, srcImsi: string, dstImsi: string, dstMsisdn: string, db': Db, r: Result<int, Error>)
    requires Integrity(db) && Cloned(db, srcImsi, dstImsi, dstMsisdn, db', r)
    ensures var s, d := Text.Trim(srcImsi), Text.Trim(dstImsi);
            && Integrity(db') && OthersKept(db, db', d)
            && SameCatalogs(db, db')
            && (r.Err? <==> s == "" || d == "" || View(db, s).None? || View(db, s).value.auth.None?)
            && (r.Err? ==> db' == db)
            && (r.Ok? ==> FindUe(db'.ue.rows, d) == Some(r.value)
                          && View(db', d) == Some(CloneView(View(db, s).value, View(db, d), dstMsisdn)))
  {
    hide Flags, TreeOf, Integrity, CloneAccount, CopiesTree, AuthOf, Text.Trim;
    var s, d := Text.Trim(srcImsi), Text.Trim(dstImsi);
    if r.Ok? {
      var src := FindUe(db.ue.rows, s).value;
      var (db4, dst) := CloneAccount(db, src, AuthOf(db.auth.rows, src).value, d, dstMsisdn);
      CloneAccountMeaning(db, src, d, dstMsisdn);
      CopiesTreeMeaning(db4, src, dst, db');
      SameForest(db, db4);
    }
  }

  lemma SameForest(a: Db, b: Db)
    requires Integrity(a) && Integrity(b) && b == a.(ue := b.ue, auth := b.auth)
    ensures Flags(b) == Flags(a)
  {
  }

  /** Cloning again changes no view: a retry after a finished clone is harmless. */
  lemma CloneTwice(db: Db, srcImsi: string, dstImsi: string, dstMsisdn: string, db1: Db, r1: Result<int, Error>,
                   db2: Db, r2: Result<int, Error>)
    requires Integrity(db) && Cloned(db, srcImsi, dstImsi, dstMsisdn, db1, r1)
    requires Cloned(db1, srcImsi, dstImsi, dstMsisdn, db2, r2)
    ensures Integrity(db1) && Integrity(db2) && r1.Ok? == r2.Ok?
    ensures SameCatalogs(db1, db2) && forall imsi :: View(db2, imsi) == View(db1, imsi)
  {
    hide View, Integrity, Cloned, CloneView;
    CloneMeaning(db, srcImsi, dstImsi, dstMsisdn, db1, r1);
    assert Integrity(db1);
    CloneMeaning(db1, srcImsi, dstImsi, dstMsisdn, db2, r2);
    var s, d := Text.Trim(srcImsi), Text.Trim(dstImsi);
    if r1.Ok? {
      if s == d {
        CloneViewSelf(View(db, s).value, dstMsisdn);
      } else {
        CloneViewTwice(View(db, s).value, View(db, d), dstMsisdn);
      }
      forall imsi
        ensures View(db2, imsi) == View(db1, imsi)
      {
      }
    }
  }

  lemma CloneViewTwice(src: UeView, dst: Option<UeView>, dstMsisdn: string)
    requires src.auth.Some?
    ensures var once := CloneView(src, dst, dstMsisdn);
            CloneView(src, Some(once), dstMsisdn) == once
  {
    var t := if dst.Some? then dst.value.tree else map[];
    assert src.tree + (src.tree + t) == src.tree + t;
  }

  lemma CloneViewSelf(src: UeView, dstMsisdn: string)
    requires src.auth.Some?
    ensures var once := CloneView(src, Some(src), dstMsisdn);
            once.auth.Some? && CloneView(once, Some(once), dstMsisdn) == once
  {
    var t := src.tree;
    assert t + t == t;
  }
}
