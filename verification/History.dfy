/** Whole runs of the subscriber calls: what every sequence of them keeps. */
module History {
  import opened Wrappers
  import opened Schema
  import opened Rows
  import opened Views
  import opened SubscriptionTree
  import Accounts
  import Bulk
  import BulkRun
  import Clone
  import DnnSave
  import NssaiSave
  import TreeSave
  import Text

  datatype Call =
    | CloneDeep(src: string, dst: string, dstMsisdn: string)
    | TreeSaved(imsi: string, slices: seq<TreeSlice>)
    | NssaiSaved(imsi: string, inputs: seq<NssaiSave.NssaiInput>)
    | DnnsSaved(imsi: string, dnns: seq<DnnSave.DnnInput>)
    | BulkProvisioned(kdf: Bulk.Kdf, template: Bulk.Template, ues: seq<Bulk.Entry>)
    | AuthUpserted(input: Accounts.AuthIn)
    | AmbrUpserted(imsi: string, ambrDl: int, ambrUl: int)
    | Deleted(imsi: string)

  /** One call, and whether it reported success; unordered queries make some steps nondeterministic. */
  ghost predicate Step(db: Db, call: Call, db': Db, ok: bool)
    requires Integrity(db)
  {
    match call
    case CloneDeep(src, dst, dstMsisdn) =>
      exists r: Result<int, Error> :: Clone.Cloned(db, src, dst, dstMsisdn, db', r) && ok == r.Ok?
    case TreeSaved(imsi, slices) =>
      db' == TreeSave.Save(db, imsi, slices).0 && ok == TreeSave.Save(db, imsi, slices).1.Ok?
    case NssaiSaved(imsi, inputs) =>
      db' == NssaiSave.Save(db, imsi, inputs).0 && ok == NssaiSave.Save(db, imsi, inputs).1.Ok?
    case DnnsSaved(imsi, dnns) =>
      exists keyed ::
        && (FindUe(db.ue.rows, imsi).Some? ==> DnnSave.Keying(db, FindUe(db.ue.rows, imsi).value, keyed))
        && db' == DnnSave.Save(db, imsi, keyed, dnns).0 && ok == DnnSave.Save(db, imsi, keyed, dnns).1.Ok?
    case BulkProvisioned(kdf, t, ues) =>
      db' == Bulk.Provision(db, kdf, t, ues).0 && ok == Bulk.Provision(db, kdf, t, ues).1.Ok?
    case AuthUpserted(input) =>
      db' == Accounts.AuthUpsert(db, input).0 && ok == Accounts.AuthUpsert(db, input).1.Ok?
    case AmbrUpserted(imsi, dl, ul) =>
      db' == Accounts.SubscriptionUpsert(db, imsi, dl, ul).0
          && ok == Accounts.SubscriptionUpsert(db, imsi, dl, ul).1.Ok?
    case Deleted(imsi) =>
      db' == Accounts.DeleteByImsi(db, imsi).0 && ok
  }

  /** The IMSIs a call may change. */
  ghost predicate Names(call: Call, imsi: string) {
    match call
    case CloneDeep(_, dst, _) => Text.Trim(dst) == imsi
    case TreeSaved(i, _) => i == imsi
    case NssaiSaved(i, _) => i == imsi
    case DnnsSaved(i, _) => i == imsi
    case BulkProvisioned(_, _, ues) => !BulkRun.Unnamed(ues, imsi)
    case AuthUpserted(input) => Text.Trim(input.imsi) == imsi
    case AmbrUpserted(i, _, _) => Text.Trim(i) == imsi
    case Deleted(i) => i == imsi
  }

  /**
   * Every call keeps every constraint and every catalog row, leaves unnamed subscribers alone, and a
   * failing one changes nothing.
   */
  lemma StepKeeps(db: Db, call: Call, db': Db, ok: bool)
    requires Integrity(db) && Step(db, call, db', ok)
    ensures Integrity(db') && CatalogKept(db, db')
    ensures !ok ==> db' == db
    ensures forall imsi :: !Names(call, imsi) ==> View(db', imsi) == View(db, imsi)
  {
    hide View, Integrity, Text.Trim, Clone.Cloned, TreeSave.Save, NssaiSave.Save, DnnSave.Save, Bulk.ProvisionAll;
    hide Accounts.AuthUpsert, Accounts.SubscriptionUpsert, Accounts.DeleteByImsi, Bulk.Template.FormatOk,
        BulkRun.Unnamed;
    match call
    case CloneDeep(src, dst, dstMsisdn) =>
      var r :| Clone.Cloned(db, src, dst, dstMsisdn, db', r) && ok == r.Ok?;
      Clone.CloneMeaning(db, src, dst, dstMsisdn, db', r);
    case TreeSaved(imsi, slices) =>
      TreeSave.SaveMeaning(db, imsi, slices);
    case NssaiSaved(imsi, inputs) =>
      NssaiSave.SaveIsTreeSave(db, imsi, inputs);
      TreeSave.SaveMeaning(db, imsi, NssaiSave.AsTree(inputs));
      assert !ok ==> TreeSave.Save(db, imsi, NssaiSave.AsTree(inputs)).1.Err?;
    case DnnsSaved(imsi, dnns) =>
      var keyed :|
        && (FindUe(db.ue.rows, imsi).Some? ==> DnnSave.Keying(db, FindUe(db.ue.rows, imsi).value, keyed))
        && db' == DnnSave.Save(db, imsi, keyed, dnns).0 && ok == DnnSave.Save(db, imsi, keyed, dnns).1.Ok?;
      DnnSave.SaveMeaning(db, imsi, keyed, dnns);
    case BulkProvisioned(kdf, t, ues) =>
      if ok {
        BulkRun.ProvisionAllKeeps(db, kdf, t, ues);
      }
    case AuthUpserted(input) =>
      Accounts.AuthUpsertMeaning(db, input);
    case AmbrUpserted(imsi, dl, ul) =>
      Accounts.SubscriptionUpsertMeaning(db, imsi, dl, ul);
    case Deleted(imsi) =>
      Accounts.DeleteMeaning(db, imsi);
  }

  /** states[i+1] comes from states[i] by calls[i], which reported oks[i]. */
  ghost predicate Run(states: seq<Db>, calls: seq<Call>, oks: seq<bool>) {
    && |states| == |calls| + 1 && |oks| == |calls|
    && forall i :: 0 <= i < |calls| ==> Integrity(states[i]) ==> Step(states[i], calls[i], states[i + 1], oks[i])
  }

  /**
   * Any sequence of calls from sound tables keeps them sound - no orphan rows, every UNIQUE key, one
   * catalog row per (sst, sd-or-empty) - and every catalog row as it was, and the view of a
   * subscriber none of the successful calls names is the one it started with.
   */
  lemma {:induction false} RunKeeps(states: seq<Db>, calls: seq<Call>, oks: seq<bool>, i: nat)
    requires Run(states, calls, oks) && Integrity(states[0]) && i < |states|
    ensures Integrity(states[i]) && CatalogKept(states[0], states[i])
    ensures forall imsi :: (forall j :: 0 <= j < i && oks[j] ==> !Names(calls[j], imsi)) ==>
              View(states[i], imsi) == View(states[0], imsi)
  {
    hide View, Integrity, Step, Names;
    if i > 0 {
      RunKeeps(states, calls, oks, i - 1);
      StepKeeps(states[i - 1], calls[i - 1], states[i], oks[i - 1]);
    }
  }
}
