/**
 * The database handle. Each method is one call of package crud: a transaction works on a copy, and
 * `db` is assigned only where the source commits, so an early return is the rollback.
 */
module Store {
  import opened Wrappers
  import opened Schema
  import opened Rows
  import opened Views
  import opened SubscriptionTree
  import opened Ordering
  import opened Decimal
  import opened Ranges
  import opened Accounts
  import Bulk
  import DnnSave
  import Loops
  import NssaiSave
  import TreeGet
  import Clone
  import Text
  import TreeSave

  class Database {
    var db: Db

    ghost predicate Valid()
      reads this
    {
      Integrity(db)
    }

    method SubscriptionTreeSave(imsi: string, slices: seq<TreeSlice>) returns (r: Result<Counts, Error>)
      modifies this
      ensures (db, r) == TreeSave.Save(old(db), imsi, slices)
    {
      var found := FindUe(db.ue.rows, imsi);
      if found.None? {
        return Err(Missing("UE"));
      }
      var tx := TreeSave.ClearTree(db, found.value);
      var walked := Loops.InsertSlices(tx, found.value, slices);
      if walked.Err? {
        return Err(walked.error);
      }
      db := walked.value.db;
      return Ok(walked.value.counts);
    }

    method SubscriptionTreeGet(imsi: string) returns (r: Option<seq<TreeSlice>>)
      requires Valid()
      ensures r.Some? <==> View(db, imsi).Some?
      ensures r.Some? ==> TreeGet.TreeRead(db, FindUe(db.ue.rows, imsi).value, r.value)
    {
      var found := FindUe(db.ue.rows, imsi);
      if found.None? {
        return None;
      }
      var slices := Loops.ReadSlices(db, found.value);
      return Some(slices);
    }

    method SubscribedNssaiSave(imsi: string, items: seq<NssaiSave.NssaiInput>) returns (r: Result<nat, Error>)
      modifies this
      ensures (db, r) == NssaiSave.Save(old(db), imsi, items)
    {
      var found := FindUe(db.ue.rows, imsi);
      if found.None? {
        return Err(Missing("UE"));
      }
      var saved := Loops.InsertInputs(TreeSave.ClearTree(db, found.value), found.value, items);
      if saved.Err? {
        return Err(saved.error);
      }
      db := saved.value.0;
      return Ok(saved.value.1);
    }

    method SliceDnnSave(imsi: string, items: seq<DnnSave.DnnInput>)
      returns (r: Result<nat, Error>, ghost keyed: map<DnnSave.SliceTag, int>)
      requires Valid()
      modifies this
      ensures FindUe(old(db).ue.rows, imsi).Some? ==>
              DnnSave.Keying(old(db), FindUe(old(db).ue.rows, imsi).value, keyed)
      ensures (db, r) == DnnSave.Save(old(db), imsi, keyed, items)
    {
      keyed := map[];
      var found := FindUe(db.ue.rows, imsi);
      if found.None? {
        return Err(Missing("UE")), keyed;
      }
      var m := Loops.KeySlices(db, found.value);
      keyed := m;
      var tx := DeleteDnnsOf(db, m.Values);
      var saved := Loops.InsertDnnInputs(tx, m, items);
      if saved.Err? {
        return Err(saved.error), keyed;
      }
      db := saved.value;
      return Ok(|items|), keyed;
    }

    method GetOrCreateUe(imsi: string, msisdn: Option<string>) returns (r: Result<int, Error>)
      modifies this
      ensures (db, r) == Accounts.GetOrCreateUe(old(db), imsi, msisdn)
    {
      var key := Text.Trim(imsi);
      if key == "" {
        return Err(Invalid("IMSI required"));
      }
      var found := FindUe(db.ue.rows, key);
      if found.Some? {
        if msisdn.Some? {
          db := SetUe(db, found.value, db.ue.rows[found.value].(msisdn := msisdn));
        }
        return Ok(found.value);
      }
      db := db.(ue := db.ue.Insert(UeRow(key, msisdn, true, DEFAULT_AMBR, DEFAULT_AMBR)));
      return Ok(db.ue.last);
    }

    method AuthUpsert(input: AuthIn) returns (r: Result<(), Error>)
      modifies this
      ensures (db, r) == Accounts.AuthUpsert(old(db), input)
    {
      if !AuthFormatOk(input.opType, input.amf, input.suci, input.hnKey) ||
         !Text.IsHex(input.op, 32) || !Text.IsHex(input.k, 32) {
        return Err(Invalid("auth data"));
      }
      var u := GetOrCreateUe(input.imsi, NullIfEmpty(input.msisdn));
      if u.Err? {
        return Err(u.error);
      }
      db := PutAuth(db, AuthRowOf(u.value, input));
      return Ok(());
    }

    method SubscriptionUpsert(imsi: string, ambrDl: int, ambrUl: int) returns (r: Result<(), Error>)
      modifies this
      ensures (db, r) == Accounts.SubscriptionUpsert(old(db), imsi, ambrDl, ambrUl)
    {
      var u := GetOrCreateUe(imsi, None);
      if u.Err? {
        return Err(u.error);
      }
      var dl, ul := NotNegative(ambrDl), NotNegative(ambrUl);
      if u.value in db.ue.rows {
        db := SetUe(db, u.value, db.ue.rows[u.value].(ambrDl := dl, ambrUl := ul));
      }
      return Ok(());
    }

    method DeleteByImsi(imsi: string) returns (n: nat)
      modifies this
      ensures (db, n) == Accounts.DeleteByImsi(old(db), imsi)
    {
      var found := FindUe(db.ue.rows, imsi);
      if found.None? {
        return 0;
      }
      var u := found.value;
      var cleared := TreeSave.ClearTree(db, u);
      var gone := set i | i in cleared.auth.rows && cleared.auth.rows[i].ue == u;
      db := cleared.(auth := cleared.auth.Delete(gone), ue := cleared.ue.Delete({u}));
      return 1;
    }

    method BulkProvision(kdf: Bulk.Kdf, t: Bulk.Template, ues: seq<Bulk.Entry>)
        returns (r: Result<Bulk.BulkCounts, Error>)
      modifies this
      ensures (db, r) == Bulk.Provision(old(db), kdf, t, ues)
    {
      if ues == [] || t.kdfVersion == "" || !t.FormatOk() {
        return Err(Invalid("bulk request"));
      }
      var done := Loops.ProvisionEntries(db, kdf, t, ues);
      if done.Err? {
        return Err(done.error);
      }
      db := done.value.0;
      return Ok(done.value.1);
    }

    /** The integrity constraints leave none of the three INSERTs a way to fail. */
    method CloneDeep(srcImsi: string, dstImsi: string, dstMsisdn: string) returns (r: Result<int, Error>)
      requires Valid()
      modifies this
      ensures Valid() && Clone.Cloned(old(db), srcImsi, dstImsi, dstMsisdn, db, r)
    {
      var s, d := Text.Trim(srcImsi), Text.Trim(dstImsi);
      if s == "" || d == "" {
        return Err(Invalid("src + dst IMSI required"));
      }
      var found := FindUe(db.ue.rows, s);
      if found.None? {
        return Err(Missing("source IMSI"));
      }
      var src := found.value;
      var auth := AuthOf(db.auth.rows, src);
      if auth.None? {
        return Err(Missing("source auth data"));
      }
      var (tx4, dst) := Clone.CloneAccount(db, src, auth.value, d, dstMsisdn);
      Clone.CloneAccountMeaning(db, src, d, dstMsisdn);
      var tx := CopyTree(tx4, src, dst);
      Clone.CopiesTreeMeaning(tx4, src, dst, tx);
      db := tx;
      return Ok(dst);
    }

    /** On success and on overflow alike, the IMSIs the width can still write have been cloned. */
    method CloneRange(srcImsi: string, startImsi: string, count: int) returns (created: nat, r: Result<(), Error>)
      requires Valid()
      modifies this
      ensures Valid()
      ensures var src, start := Text.Trim(srcImsi), Text.Trim(startImsi);
              if src == "" || start == "" || count <= 0 || !IsDigits(start) then
                created == 0 && r.Err? && db == old(db)
              else if !Clonable(old(db), src) then
                created == 0 && r.Err? && db == old(db)
              else
                && created == Reach(start, count)
                && (r.Err? <==> Decimal.Value(start) + count >= Pow10(|start|))
                && RangeCloned(old(db), db, View(old(db), src).value, start, created)
                && forall i :: 0 <= i < created ==>
                     && View(db, Nth(start, i)).Some?
                     && View(db, Nth(start, i)).value.msisdn ==
                        Some(if |start| > 5 then Nth(start, i)[5..] else Nth(start, i))
    {
      hide View, Integrity, Clonable, RangeCloned, Decimal.Value, Pow10, IsDigits, Text.Trim;
      var src, start := Text.Trim(srcImsi), Text.Trim(startImsi);
      Text.TrimIdempotent(srcImsi);
      if src == "" || start == "" || count <= 0 || !IsDigits(start) {
        return 0, Err(Invalid("range"));
      }
      created, r := CloneWalk(src, start, count);
      if Clonable(old(db), src) {
        ClonableMeans(old(db), src);
        ClonesMsisdn(old(db), db, View(old(db), src).value, start, created);
      }
    }

    method DeleteRange(startImsi: string, count: int) returns (deleted: nat, r: Result<(), Error>)
      requires Valid()
      modifies this
      ensures Valid()
      ensures var start := Text.Trim(startImsi);
              if start == "" || count <= 0 || !IsDigits(start) then deleted == 0 && r.Err? && db == old(db)
              else
                && RangeDeleted(old(db), db, start, Reach(start, count))
                && deleted == Present(old(db), start, Reach(start, count))
                && (r.Err? <==> Decimal.Value(start) + count >= Pow10(|start|))
    {
      hide View, Integrity, RangeDeleted, Decimal.Value, Pow10, IsDigits, Text.Trim, Present;
      var start := Text.Trim(startImsi);
      if start == "" || count <= 0 || !IsDigits(start) {
        return 0, Err(Invalid("range"));
      }
      ghost var reached;
      deleted, r, reached := DeleteWalk(start, count);
    }

    method DeleteWalk(start: string, count: nat) returns (deleted: nat, r: Result<(), Error>, ghost reached: nat)
      requires Valid() && IsDigits(start) && start != "" && count > 0
      modifies this
      ensures Valid() && RangeDeleted(old(db), db, start, reached) && deleted == Present(old(db), start, reached)
      ensures r.Ok? ==> reached == count && Decimal.Value(start) + count < Pow10(|start|)
      ensures r.Err? ==> reached <= count && Decimal.Value(start) + reached == Pow10(|start|)
    {
      hide Integrity, InRange, View, Decimal.Value, Pow10, Numeral, Next, AllNines, IsDigits, Nth;
      hide Accounts.DeleteByImsi, RangeDeleted, Present;
      deleted, reached := 0, 0;
      var cur := new char[|start|](i requires 0 <= i < |start| => start[i]);
      assert cur[..] == start;
      WalkStarts(start);
      NothingDeleted(db, start);
      for i := 0 to count
        invariant reached == i && cur.Length == |start|
        invariant Decimal.Value(start) + i < Pow10(|start|)
        invariant cur[..] == Nth(start, i)
        invariant Valid() && RangeDeleted(old(db), db, start, i) && deleted == Present(old(db), start, i)
      {
        RangeDeletedStep(old(db), db, start, i);
        var n := DeleteByImsi(cur[..]);
        deleted, reached := deleted + n, reached + 1;
        NthAdvances(start, i);
        var ok := IncDecStr(cur);
        if !ok {
          return deleted, Err(Overflow), reached;
        }
      }
      return deleted, Ok(()), reached;
    }

    method CloneWalk(src: string, start: string, count: nat) returns (created: nat, r: Result<(), Error>)
      requires Valid() && Text.Trim(src) == src != "" && start != "" && IsDigits(start) && count > 0
      modifies this
      ensures Walked(old(db), db, src, start, created)
      ensures r.Ok? ==> created == count && Decimal.Value(start) + count < Pow10(|start|)
      ensures r.Err? && created > 0 ==> created <= count && Decimal.Value(start) + created == Pow10(|start|)
      ensures created > 0 <==> Clonable(old(db), src)
    {
      hide Integrity, Clonable, RangeCloned, InRange, View, Decimal.Value, Pow10, Numeral, Next, AllNines, IsDigits,
          Nth;
      hide Clone.Cloned, MsisdnOf, Walked, Text.Trim;
      created := 0;
      var cur := new char[|start|](i requires 0 <= i < |start| => start[i]);
      assert cur[..] == start;
      WalkStarts(start);
      WalkNothing(db, src, start);
      for i := 0 to count
        invariant created == i && cur.Length == |start|
        invariant Decimal.Value(start) + i < Pow10(|start|)
        invariant cur[..] == Nth(start, i)
        invariant i > 0 ==> Clonable(old(db), src)
        invariant Valid() && Walked(old(db), db, src, start, i)
      {
        ghost var mid := db;
        var imsi := cur[..];
        var cloned := CloneDeep(src, imsi, MsisdnOf(imsi));
        WalkStep(old(db), mid, db, src, start, i, cloned);
        if cloned.Err? {
          return created, Err(cloned.error);
        }
        created := created + 1;
        NthAdvances(start, i);
        var ok := IncDecStr(cur);
        if !ok {
          return created, Err(Overflow);
        }
      }
      return created, Ok(());
    }

    static method CopyTree(tx4: Db, src: int, dst: int) returns (tx: Db)
      requires Integrity(tx4) && dst in tx4.ue.rows
      ensures Clone.CopiesTree(tx4, src, dst, tx)
    {
      hide Flags, TreeOf, Integrity, Clone.SlicesToCopy, Clone.DnnsToCopy, Clone.BindingsToCopy;
      var q5 := AnyOrder(Clone.SlicesToCopy(tx4, src));
      Clone.SlicesCopied(tx4, src, dst, q5);
      var r5 := Loops.CopySlices(tx4, dst, q5);
      var tx5 := r5.value;
      var q6 := AnyOrder(Clone.DnnsToCopy(tx5, src, dst));
      Clone.DnnsCopied(tx5, src, dst, q6);
      var r6 := Loops.CopyDnns(tx5, q6);
      var tx6 := r6.value;
      var q7 := AnyOrder(Clone.BindingsToCopy(tx6, src, dst));
      Clone.BindingsCopied(tx6, src, dst, q7);
      var r7 := Loops.CopyBindings(tx6, q7);
      tx := r7.value;
    }
  }
}
