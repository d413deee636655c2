/** UEBulkProvision over a whole list, against the flow run UE by UE. */
module BulkRun {
  import opened Wrappers
  import opened Schema
  import opened Views
  import opened SubscriptionTree
  import opened TreeSave
  import opened Accounts
  import opened Bulk
  import Text

  ghost predicate Usable(kdf: Kdf, t: Template) {
    t.FormatOk() && IsDerivation(kdf.k) && IsDerivation(kdf.opc)
  }

  ghost predicate DistinctImsis(ues: seq<Entry>) {
    forall i, j :: 0 <= i < j < |ues| ==> Text.Trim(ues[i].imsi) != Text.Trim(ues[j].imsi)
  }

  /** The columns the two forms may disagree on, as a reader sees them. */
  ghost predicate ColumnsAre(db: Db, imsi: string, msisdn: Option<string>, ambrDl: int, ambrUl: int)
    requires Integrity(db)
  {
    View(db, imsi).Some? &&
    var v := View(db, imsi).value; v.msisdn == msisdn && v.ambrDl == ambrDl && v.ambrUl == ambrUl
  }

  ghost function MsisdnKept(db: Db, imsi: string, msisdn: string): Option<string>
    requires Integrity(db)
  {
    if msisdn != "" then Some(msisdn) else if View(db, imsi).Some? then View(db, imsi).value.msisdn else None
  }

  lemma FlowOneMeaning(db: Db, kdf: Kdf, t: Template, e: Entry)
    requires Integrity(db) && Usable(kdf, t)
    ensures var (db', r) := FlowOne(db, kdf, t, e);
            var imsi := Text.Trim(e.imsi);
            && Integrity(db') && OthersKept(db, db', imsi) && CatalogKept(db, db')
            && (r.Ok? ==> ColumnsAre(db', imsi, MsisdnKept(db, imsi, e.msisdn), NotNegative(t.ambrDl),
                                     NotNegative(t.ambrUl)))
  {
    hide TreeFlags, TreeOf, AuthOf, Prepare, AuthUpsert, SubscriptionUpsert, Save, Integrity, Template.FormatOk;
    var imsi := Text.Trim(e.imsi);
    Text.TrimIdempotent(e.imsi);
    var input := AuthInput(kdf, t, imsi, e.msisdn);
    AuthUpsertMeaning(db, input);
    if imsi != "" {
      var (bulk, u) := Prepare(db, kdf, t, imsi, e.msisdn);
      var db1 := AuthUpsert(db, input).0;
      var flow := SubscriptionUpsert(db1, imsi, t.ambrDl, t.ambrUl).0;
      FlowPrepares(db, kdf, t, imsi, e.msisdn);
      PrepareMeaning(db, kdf, t, imsi, e.msisdn);
      SubscriptionUpsertMeaning(db1, imsi, t.ambrDl, t.ambrUl);
      SetUeMeaning(bulk, u, flow.ue.rows[u]);
      SaveMeaning(flow, imsi, t.tree);
    } else {
      assert AuthUpsert(db, input).1.Err?;
    }
  }

  /** A run that never names an IMSI leaves that subscriber alone. */
  ghost predicate Unnamed(ues: seq<Entry>, imsi: string) {
    forall i :: 0 <= i < |ues| ==> Text.Trim(ues[i].imsi) != imsi
  }

  lemma {:induction false} ProvisionAllKeeps(db: Db, kdf: Kdf, t: Template, ues: seq<Entry>)
    requires Integrity(db) && t.FormatOk() && ProvisionAll(db, kdf, t, ues).Ok?
    ensures var db' := ProvisionAll(db, kdf, t, ues).value.0;
            && Integrity(db') && CatalogKept(db, db')
            && forall imsi :: Unnamed(ues, imsi) ==> View(db', imsi) == View(db, imsi)
    decreases |ues|
  {
    hide View, Integrity, ProvisionOne, Template.FormatOk;
    if ues != [] {
      ProvisionOneMeaning(db, kdf, t, ues[0]);
      ProvisionAllKeeps(ProvisionOne(db, kdf, t, ues[0]).value.0, kdf, t, ues[1..]);
    }
  }

  lemma {:induction false} FlowKeeps(db: Db, kdf: Kdf, t: Template, ues: seq<Entry>)
    requires Integrity(db) && Usable(kdf, t)
    ensures var db' := Flow(db, kdf, t, ues).0;
            && Integrity(db') && CatalogKept(db, db')
            && forall imsi :: Unnamed(ues, imsi) ==> View(db', imsi) == View(db, imsi)
    decreases |ues|
  {
    hide View, Integrity, FlowOne, Usable;
    if ues != [] {
      FlowOneMeaning(db, kdf, t, ues[0]);
      FlowKeeps(FlowOne(db, kdf, t, ues[0]).0, kdf, t, ues[1..]);
    }
  }

  /** With distinct IMSIs, entry i is what its subscriber ends with: bulk side. */
  lemma {:induction false} ProvisionAllColumns(db: Db, kdf: Kdf, t: Template, ues: seq<Entry>, i: nat)
    requires Integrity(db) && t.FormatOk() && ProvisionAll(db, kdf, t, ues).Ok? && DistinctImsis(ues) && i < |ues|
    ensures var db' := ProvisionAll(db, kdf, t, ues).value.0;
            Integrity(db') && ColumnsAre(db', Text.Trim(ues[i].imsi), Some(ues[i].msisdn), t.ambrDl, t.ambrUl)
    decreases |ues|
  {
    hide View, Integrity, ProvisionOne, Template.FormatOk, ColumnsAre, Unnamed, DistinctImsis;
    ProvisionOneColumns(db, kdf, t, ues[0]);
    var db1, db' := ProvisionOne(db, kdf, t, ues[0]).value.0, ProvisionAll(db, kdf, t, ues).value.0;
    ProvisionAllKeeps(db1, kdf, t, ues[1..]);
    DistinctRest(ues);
    if i > 0 {
      ProvisionAllColumns(db1, kdf, t, ues[1..], i - 1);
    } else {
      ColumnsKept(db1, db', Text.Trim(ues[0].imsi), Some(ues[0].msisdn), t.ambrDl, t.ambrUl);
    }
  }

  lemma ProvisionOneColumns(db: Db, kdf: Kdf, t: Template, e: Entry)
    requires Integrity(db) && t.FormatOk() && ProvisionOne(db, kdf, t, e).Ok?
    ensures var db' := ProvisionOne(db, kdf, t, e).value.0;
            Integrity(db') && ColumnsAre(db', Text.Trim(e.imsi), Some(e.msisdn), t.ambrDl, t.ambrUl)
  {
    hide View, Integrity, ProvisionOne, Template.FormatOk;
    ProvisionOneMeaning(db, kdf, t, e);
  }

  lemma ColumnsKept(a: Db, b: Db, imsi: string, msisdn: Option<string>, ambrDl: int, ambrUl: int)
    requires Integrity(a) && Integrity(b) && View(b, imsi) == View(a, imsi)
    ensures ColumnsAre(b, imsi, msisdn, ambrDl, ambrUl) == ColumnsAre(a, imsi, msisdn, ambrDl, ambrUl)
  {
    hide View, Integrity;
  }

  lemma DistinctRest(ues: seq<Entry>)
    requires DistinctImsis(ues) && ues != []
    ensures DistinctImsis(ues[1..]) && Unnamed(ues[1..], Text.Trim(ues[0].imsi))
  {
  }

  /** With distinct IMSIs, entry i is what its subscriber ends with: flow side. */
  lemma {:induction false} FlowColumns(db: Db, kdf: Kdf, t: Template, ues: seq<Entry>, i: nat)
    requires Integrity(db) && Usable(kdf, t) && Flow(db, kdf, t, ues).1.Ok? && DistinctImsis(ues) && i < |ues|
    ensures var db' := Flow(db, kdf, t, ues).0;
            var imsi := Text.Trim(ues[i].imsi);
            Integrity(db') && ColumnsAre(db', imsi, MsisdnKept(db, imsi, ues[i].msisdn),
                                         NotNegative(t.ambrDl), NotNegative(t.ambrUl))
    decreases |ues|
  {
    hide View, Integrity, FlowOne, Usable, Text.Trim, NotNegative, ColumnsAre, Unnamed;
    FlowOneMeaning(db, kdf, t, ues[0]);
    var db1, imsi := FlowOne(db, kdf, t, ues[0]).0, Text.Trim(ues[0].imsi);
    FlowKeeps(db1, kdf, t, ues[1..]);
    DistinctRest(ues);
    if i > 0 {
      FlowColumns(db1, kdf, t, ues[1..], i - 1);
    } else {
      ColumnsKept(db1, Flow(db, kdf, t, ues).0, imsi, MsisdnKept(db, imsi, ues[0].msisdn),
                  NotNegative(t.ambrDl), NotNegative(t.ambrUl));
    }
  }

  /** Agrees, as a reader sees it. */
  lemma AgreesByView(db: Db, t: Template, e: Entry)
    requires Integrity(db)
    ensures Agrees(db, t, e) <==>
            && MsisdnKept(db, Text.Trim(e.imsi), e.msisdn) == Some(e.msisdn)
            && NotNegative(t.ambrDl) == t.ambrDl && NotNegative(t.ambrUl) == t.ambrUl
  {
    hide TreeOf, AuthOf, Flags, Integrity;
  }

  /** If every entry agrees, the two runs are the same run. */
  lemma {:induction false} AgreeingRuns(db: Db, kdf: Kdf, t: Template, ues: seq<Entry>)
    requires Integrity(db) && Usable(kdf, t) && DistinctImsis(ues)
    requires forall i :: 0 <= i < |ues| ==> Agrees(db, t, ues[i])
    ensures ProvisionAll(db, kdf, t, ues).Ok? <==> Flow(db, kdf, t, ues).1.Ok?
    ensures ProvisionAll(db, kdf, t, ues).Ok? ==> Flow(db, kdf, t, ues).0 == ProvisionAll(db, kdf, t, ues).value.0
    decreases |ues|
  {
    hide View, Integrity, FlowOne, ProvisionOne, Agrees;
    if ues != [] {
      OneEntryAgrees(db, kdf, t, ues[0]);
      if ProvisionOne(db, kdf, t, ues[0]).Ok? {
        ProvisionOneMeaning(db, kdf, t, ues[0]);
        var db1 := ProvisionOne(db, kdf, t, ues[0]).value.0;
        forall i | 0 <= i < |ues[1..]|
          ensures Agrees(db1, t, ues[1..][i])
        {
          assert Agrees(db, t, ues[i + 1]);
          AgreesByView(db, t, ues[i + 1]);
          AgreesByView(db1, t, ues[i + 1]);
        }
        AgreeingRuns(db1, kdf, t, ues[1..]);
      }
    }
  }

  /** Success never depends on the columns: the two runs succeed together. */
  lemma {:induction false} SucceedTogether(a: Db, b: Db, kdf: Kdf, t: Template, ues: seq<Entry>)
    requires Integrity(a) && Integrity(b) && Usable(kdf, t)
    requires a.catalog == b.catalog && a.apns == b.apns && a.services == b.services
    ensures ProvisionAll(a, kdf, t, ues).Ok? <==> Flow(b, kdf, t, ues).1.Ok?
    decreases |ues|
  {
    hide View, Integrity, FlowOne, ProvisionOne, Storable, Agrees;
    if ues != [] {
      OneEntryAgrees(b, kdf, t, ues[0]);
      ProvisionOneMeaning(a, kdf, t, ues[0]);
      ProvisionOneMeaning(b, kdf, t, ues[0]);
      FlowOneMeaning(b, kdf, t, ues[0]);
      if ProvisionOne(a, kdf, t, ues[0]).Ok? {
        FlowOneCatalog(b, kdf, t, ues[0]);
        SucceedTogether(ProvisionOne(a, kdf, t, ues[0]).value.0, FlowOne(b, kdf, t, ues[0]).0, kdf, t, ues[1..]);
      }
    }
  }

  lemma FlowOneCatalog(db: Db, kdf: Kdf, t: Template, e: Entry)
    requires Integrity(db) && Usable(kdf, t) && FlowOne(db, kdf, t, e).1.Ok?
    ensures var db' := FlowOne(db, kdf, t, e).0;
            db'.catalog == RegisterAll(db.catalog, t.tree) && db'.apns == db.apns && db'.services == db.services
  {
    hide View, Integrity, AuthUpsert, SubscriptionUpsert, Save, Storable;
    var imsi := Text.Trim(e.imsi);
    AuthUpsertMeaning(db, AuthInput(kdf, t, imsi, e.msisdn));
    var db1 := AuthUpsert(db, AuthInput(kdf, t, imsi, e.msisdn)).0;
    SubscriptionUpsertMeaning(db1, imsi, t.ambrDl, t.ambrUl);
    SaveMeaning(SubscriptionUpsert(db1, imsi, t.ambrDl, t.ambrUl).0, imsi, t.tree);
  }

  /**
   * For a well-formed request with distinct IMSIs: the bulk call succeeds exactly when the flow does;
   * then both leave the same tables exactly when every entry agrees; a failing bulk call changes
   * nothing.
   */
  lemma BulkRefinesFlow(db: Db, kdf: Kdf, t: Template, ues: seq<Entry>)
    requires Integrity(db) && Usable(kdf, t) && t.kdfVersion != "" && ues != [] && DistinctImsis(ues)
    ensures var (bulk, r) := Provision(db, kdf, t, ues);
            var (flow, f) := Flow(db, kdf, t, ues);
            && (r.Ok? <==> f.Ok?)
            && (r.Err? ==> bulk == db)
            && (r.Ok? ==> (bulk == flow <==> forall i :: 0 <= i < |ues| ==> Agrees(db, t, ues[i])))
  {
    hide View, Integrity, FlowOne, ProvisionOne, Agrees, Usable, Template.FormatOk;
    assert t.FormatOk() by { UsableFormat(kdf, t); }
    SucceedTogether(db, db, kdf, t, ues);
    if ProvisionAll(db, kdf, t, ues).Ok? {
      var bulk, flow := ProvisionAll(db, kdf, t, ues).value.0, Flow(db, kdf, t, ues).0;
      if bulk == flow {
        forall i | 0 <= i < |ues|
          ensures Agrees(db, t, ues[i])
        {
          ProvisionAllColumns(db, kdf, t, ues, i);
          FlowColumns(db, kdf, t, ues, i);
          AgreesByView(db, t, ues[i]);
        }
      } else if forall i :: 0 <= i < |ues| ==> Agrees(db, t, ues[i]) {
        AgreeingRuns(db, kdf, t, ues);
      }
    }
  }

  lemma UsableFormat(kdf: Kdf, t: Template)
    requires Usable(kdf, t)
    ensures t.FormatOk()
  {
  }

  /** Distinctness aside: entries with an MSISDN and no negative AMBR always make the runs one. */
  lemma {:induction false} PlainRunsAgree(db: Db, kdf: Kdf, t: Template, ues: seq<Entry>)
    requires Integrity(db) && Usable(kdf, t) && t.ambrDl >= 0 && t.ambrUl >= 0
    requires forall i :: 0 <= i < |ues| ==> ues[i].msisdn != ""
    ensures ProvisionAll(db, kdf, t, ues).Ok? <==> Flow(db, kdf, t, ues).1.Ok?
    ensures ProvisionAll(db, kdf, t, ues).Ok? ==> Flow(db, kdf, t, ues).0 == ProvisionAll(db, kdf, t, ues).value.0
    decreases |ues|
  {
    hide View, Integrity, FlowOne, ProvisionOne;
    if ues != [] {
      OneEntryAgrees(db, kdf, t, ues[0]);
      if ProvisionOne(db, kdf, t, ues[0]).Ok? {
        ProvisionOneMeaning(db, kdf, t, ues[0]);
        PlainRunsAgree(ProvisionOne(db, kdf, t, ues[0]).value.0, kdf, t, ues[1..]);
      }
    }
  }
}
