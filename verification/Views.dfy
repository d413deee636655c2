/** What a reader sees of one subscriber: the ue row, the auth data and the subscription tree. */
module Views {
  import opened Wrappers
  import opened FirstWins
  import opened Schema
  import opened Rows
  import Text

  /** The result of AuthGetByIMSI: NULLs read as "" or 0, hex in lower case. */
  datatype AuthData = AuthData(opType: string, op: string, k: string, sqn: int, amf: string, suci: string,
                               hnKey: string)

  datatype UeView = UeView(msisdn: Option<string>, enabled: bool, ambrDl: int, ambrUl: int,
                           auth: Option<AuthData>, tree: map<Path, bool>)

  function ReadAuth(row: AuthRow): AuthData {
    AuthData(row.opType, Text.Lower(row.op), Text.Lower(row.k), row.sqn.GetOr(0),
             Text.Lower(row.amf.GetOr("")), row.suci.GetOr(""), Text.Lower(row.hnKey.GetOr("")))
  }

  /** AuthGetByIMSI, given the ue id. */
  function AuthOf(auth: map<int, AuthRow>, u: int): Option<AuthData> {
    match FindAuth(auth, u)
    case Some(i) => Some(ReadAuth(auth[i]))
    case None => None
  }

  ghost function TreeOf(m: Flagging, u: int): (t: map<Path, bool>)
    ensures forall p :: p in t <==> (u, p) in m
    ensures forall p :: p in t ==> t[p] == m[(u, p)]
  {
    var t := map k | k in m && k.0 == u :: k.1 := m[k];
    assert forall p :: (u, p) in m ==> (u, p).1 in t;
    t
  }

  ghost function View(db: Db, imsi: string): Option<UeView>
    requires Integrity(db)
  {
    match FindUe(db.ue.rows, imsi)
    case None => None
    case Some(u) =>
      var row := db.ue.rows[u];
      Some(UeView(row.msisdn, row.enabled, row.ambrDl, row.ambrUl, AuthOf(db.auth.rows, u), TreeOf(Flags(db), u)))
  }

  /** Every other subscriber is seen exactly as before. */
  ghost predicate OthersKept(a: Db, b: Db, imsi: string)
    requires Integrity(a) && Integrity(b)
  {
    forall other :: other != imsi ==> View(b, other) == View(a, other)
  }

  // ── Trees under the row operations ───────────────────────────────────────

  lemma TreeOfPut(m: Flagging, u: int, p: Path, flag: bool)
    ensures TreeOf(Put(m, (u, p), flag), u) == Put(TreeOf(m, u), p, flag)
    ensures forall v :: v != u ==> TreeOf(Put(m, (u, p), flag), v) == TreeOf(m, v)
  {
    forall v | v != u
      ensures TreeOf(Put(m, (u, p), flag), v) == TreeOf(m, v)
    {
    }
  }

  lemma {:induction false} TreeOfPutTree(m: Flagging, u: int, items: seq<(Path, bool)>)
    ensures TreeOf(PutTree(m, u, items), u) == PutAll(TreeOf(m, u), items)
    ensures forall v :: v != u ==> TreeOf(PutTree(m, u, items), v) == TreeOf(m, v)
    decreases |items|
  {
    hide TreeOf, Put;
    if items != [] {
      TreeOfPut(m, u, items[0].0, items[0].1);
      TreeOfPutTree(Put(m, (u, items[0].0), items[0].1), u, items[1..]);
    }
  }

  lemma TreeOfDrop(m: Flagging, u: int, gone: set<(int, Path)>)
    requires forall k :: k in m ==> (k in gone <==> k.0 == u)
    ensures TreeOf(m - gone, u) == map[]
    ensures forall v :: v != u ==> TreeOf(m - gone, v) == TreeOf(m, v)
  {
    forall v | v != u
      ensures TreeOf(m - gone, v) == TreeOf(m, v)
    {
    }
  }
}
