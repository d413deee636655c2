/** UECloneRange and UEDeleteRange: what a walk over consecutive IMSIs does to the views. */
module Ranges {
  import opened Wrappers
  import opened Schema
  import opened Rows
  import opened Views
  import opened Accounts
  import opened Decimal
  import opened Clone
  import Text

  /** The MSISDN of a clone: the IMSI without its five leading digits, when it has more. */
  function MsisdnOf(imsi: string): string {
    if |imsi| > 5 then imsi[5..] else imsi
  }

  /** The i-th IMSI after start, at start's width. */
  function Nth(start: string, i: nat): (s: string)
    requires IsDigits(start)
    ensures |s| == |start| && IsDigits(s)
  {
    Numeral(Value(start) + i, |start|)
  }

  /** How many IMSIs a walk of count reaches before the width runs out. */
  function Reach(start: string, count: nat): nat
    requires IsDigits(start)
  {
    if Value(start) + count <= Pow10(|start|) then count
    else if Value(start) <= Pow10(|start|) then Pow10(|start|) - Value(start) else 0
  }

  ghost predicate InRange(start: string, n: nat, imsi: string)
    requires IsDigits(start)
  {
    exists i :: 0 <= i < n && imsi == Nth(start, i)
  }

  /** The first n IMSIs of the walk are clones of source; everyone else, and the catalog, is as before. */
  ghost predicate RangeCloned(before: Db, now: Db, source: UeView, start: string, n: nat)
    requires Integrity(before) && Integrity(now) && IsDigits(start) && source.auth.Some?
  {
    && (forall i :: 0 <= i < n ==>
          View(now, Nth(start, i)) ==
          Some(CloneView(source, View(before, Nth(start, i)), MsisdnOf(Nth(start, i)))))
    && (forall imsi :: !InRange(start, n, imsi) ==> View(now, imsi) == View(before, imsi))
    && SameCatalogs(before, now)
  }

  /** The first n IMSIs of the walk are gone; everyone else, and the catalog, is as before. */
  ghost predicate RangeDeleted(before: Db, now: Db, start: string, n: nat)
    requires Integrity(before) && Integrity(now) && IsDigits(start)
  {
    && (forall imsi :: View(now, imsi) == if InRange(start, n, imsi) then None else View(before, imsi))
    && SameCatalogs(before, now)
  }

  ghost function Present(db: Db, start: string, n: nat): nat
    requires Integrity(db) && IsDigits(start)
  {
    if n == 0 then 0 else Present(db, start, n - 1) + (if View(db, Nth(start, n - 1)).Some? then 1 else 0)
  }

  lemma NthDiffer(start: string, i: nat, j: nat)
    requires IsDigits(start) && i != j
    requires Value(start) + i < Pow10(|start|) && Value(start) + j < Pow10(|start|)
    ensures Nth(start, i) != Nth(start, j)
  {
    hide Numeral, Pow10, Value, IsDigits;
    NumeralsDiffer(Value(start) + i, Value(start) + j, |start|);
  }

  lemma NthTrim(start: string, i: nat)
    requires IsDigits(start) && start != ""
    ensures Text.Trim(Nth(start, i)) == Nth(start, i) && Nth(start, i) != "" && MsisdnOf(Nth(start, i)) != ""
  {
    Text.TrimKeeps(Nth(start, i));
  }

  /** A clone of a clone is a clone: only SQN and MSISDN differ, and both are given. */
  lemma CloneOfClone(source: UeView, dst: Option<UeView>, msisdn: string, own: string)
    requires source.auth.Some? && msisdn != ""
    ensures CloneView(CloneView(source, Some(source), own), dst, msisdn) == CloneView(source, dst, msisdn)
  {
    var t := source.tree;
    assert t + t == t;
  }

  /** The MSISDN a reader finds on each clone: its IMSI without MCC and MNC, the five leading digits. */
  lemma ClonesMsisdn(before: Db, now: Db, source: UeView, start: string, n: nat)
    requires Integrity(before) && Integrity(now) && IsDigits(start) && start != "" && source.auth.Some?
    requires RangeCloned(before, now, source, start, n)
    ensures forall i :: 0 <= i < n ==>
              && View(now, Nth(start, i)).Some?
              && View(now, Nth(start, i)).value.msisdn ==
                 Some(if |start| > 5 then Nth(start, i)[5..] else Nth(start, i))
  {
    hide View, Integrity, Nth, IsDigits;
  }

  lemma SuffixesDiffer(start: string, i: nat, j: nat)
    requires IsDigits(start) && |start| > 5 && i < j
    ensures Nth(start, i)[5..] == Nth(start, j)[5..] <==> Low(j - i, |start| - 5) == 0
  {
    hide IsDigits, Numeral, Pow10, Value, Low;
    NumeralSuffix(Value(start) + i, |start|, 5);
    NumeralSuffix(Value(start) + j, |start|, 5);
    SameSuffix(Value(start) + i, Value(start) + j, j - i, |start| - 5);
  }

  lemma SameSuffix(m: nat, n: nat, d: nat, w: nat)
    requires n == m + d
    ensures Numeral(Low(m, w), w) == Numeral(Low(n, w), w) <==> Low(d, w) == 0
  {
    hide Numeral, Pow10;
    Pow10Positive(w);
    NumeralsEqual(Low(m, w), Low(n, w), w);
    SameRemainder(m, n, d, Pow10(w));
  }

  lemma SameRemainder(m: nat, n: nat, d: nat, p: nat)
    requires n == m + d && p >= 1
    ensures m % p == n % p <==> d % p == 0
  {
    SumOfParts(p, m / p, m % p, d / p, d % p, n / p, n % p);
  }

  lemma SumOfParts(p: nat, q: nat, r: nat, d: nat, e: nat, s: nat, t: nat)
    requires r < p && e < p && t < p && (q * p + r) + (d * p + e) == s * p + t
    ensures r == t <==> e == 0
  {
    assert (q + d) * p == q * p + d * p && (q + d + 1) * p == q * p + d * p + p;
    if r + e < p {
      QuotientUnique(p, q + d, r + e, s, t);
    } else {
      QuotientUnique(p, q + d + 1, r + e - p, s, t);
    }
  }

  /**
   * The clones of a range carry pairwise different MSISDNs exactly when there are no more of them than the
   * digits left can number: 10^(width - 5), or any number where no digits are cut off.
   */
  lemma MsisdnsDiffer(before: Db, now: Db, source: UeView, start: string, n: nat)
    requires Integrity(before) && Integrity(now) && IsDigits(start) && start != "" && source.auth.Some?
    requires RangeCloned(before, now, source, start, n) && Value(start) + n <= Pow10(|start|)
    ensures (forall i, j :: 0 <= i < j < n ==>
               View(now, Nth(start, i)).value.msisdn != View(now, Nth(start, j)).value.msisdn)
            <==> |start| <= 5 || n <= Pow10(|start| - 5)
  {
    hide View, Integrity, Nth, IsDigits, Pow10, Value, RangeCloned, Low;
    ClonesMsisdn(before, now, source, start, n);
    if |start| <= 5 {
      forall i, j | 0 <= i < j < n
        ensures Nth(start, i) != Nth(start, j)
      {
        NthDiffer(start, i, j);
      }
    } else if n <= Pow10(|start| - 5) {
      forall i, j | 0 <= i < j < n
        ensures Nth(start, i)[5..] != Nth(start, j)[5..]
      {
        SuffixesDiffer(start, i, j);
        LowOf(j - i, |start| - 5);
      }
    } else {
      var p := Pow10(|start| - 5);
      LowOf(0, |start| - 5);
      SuffixesDiffer(start, 0, p);
    }
  }

  lemma LowOf(n: nat, w: nat)
    ensures Pow10(w) >= 1 && Low(Pow10(w), w) == 0 && (n < Pow10(w) ==> Low(n, w) == n)
  {
    hide Pow10;
    Pow10Positive(w);
    ModUnique(Pow10(w), Pow10(w), 1, 0);
    if n < Pow10(w) {
      ModUnique(n, Pow10(w), 0, n);
    }
  }

  /** The clone made from inside the range reads as one made from the source as it was. */
  lemma StepView(before: Db, mid: Db, now: Db, srcImsi: string, start: string, n: nat, r: Result<int, Error>)
    requires Integrity(before) && Integrity(mid) && IsDigits(start) && start != ""
    requires View(before, srcImsi).Some? && View(before, srcImsi).value.auth.Some?
             && Text.Trim(srcImsi) == srcImsi != ""
    requires RangeCloned(before, mid, View(before, srcImsi).value, start, n) && !InRange(start, n, Nth(start, n))
    requires Cloned(mid, srcImsi, Nth(start, n), MsisdnOf(Nth(start, n)), now, r)
    ensures r.Ok? && Integrity(now) && OthersKept(mid, now, Nth(start, n)) && SameCatalogs(mid, now)
    ensures View(now, Nth(start, n)) ==
            Some(CloneView(View(before, srcImsi).value, View(before, Nth(start, n)), MsisdnOf(Nth(start, n))))
  {
    hide View, Integrity, Cloned, CloneView, Nth, MsisdnOf, IsDigits, Value, Pow10, Text.Trim;
    var source, target := View(before, srcImsi).value, Nth(start, n);
    CloneMeaning(mid, srcImsi, target, MsisdnOf(target), now, r);
    NthTrim(start, n);
    if InRange(start, n, srcImsi) {
      var i :| 0 <= i < n && srcImsi == Nth(start, i);
      CloneOfClone(source, View(before, target), MsisdnOf(target), MsisdnOf(srcImsi));
      CloneViewAuth(source, Some(source), MsisdnOf(srcImsi));
    }
  }

  lemma NextIsNew(start: string, n: nat)
    requires IsDigits(start) && Value(start) + n < Pow10(|start|)
    ensures !InRange(start, n, Nth(start, n))
  {
    hide Nth, IsDigits, Value, Pow10;
    forall i | 0 <= i < n
      ensures Nth(start, i) != Nth(start, n)
    {
      NthDiffer(start, i, n);
    }
  }

  /** One more clone extends the walk, even when the source itself lies in the range. */
  lemma RangeClonedStep(before: Db, mid: Db, now: Db, srcImsi: string, start: string, n: nat, r: Result<int, Error>)
    requires Integrity(before) && Integrity(mid) && IsDigits(start) && start != ""
    requires Value(start) + n < Pow10(|start|)
    requires View(before, srcImsi).Some? && View(before, srcImsi).value.auth.Some?
             && Text.Trim(srcImsi) == srcImsi != ""
    requires RangeCloned(before, mid, View(before, srcImsi).value, start, n)
    requires Cloned(mid, srcImsi, Nth(start, n), MsisdnOf(Nth(start, n)), now, r)
    ensures r.Ok? && Integrity(now)
    ensures RangeCloned(before, now, View(before, srcImsi).value, start, n + 1)
  {
    hide View, Integrity, Cloned, CloneView, Nth, MsisdnOf, IsDigits, Value, Pow10, Text.Trim, InRange;
    NextIsNew(start, n);
    StepView(before, mid, now, srcImsi, start, n, r);
    forall imsi | !InRange(start, n + 1, imsi)
      ensures View(now, imsi) == View(before, imsi)
    {
      RangeGrows(start, n, imsi);
    }
    forall i | 0 <= i < n
      ensures Nth(start, i) != Nth(start, n)
    {
      NthDiffer(start, i, n);
    }
  }

  /** A source that can be cloned: present, with auth data. */
  ghost predicate Clonable(db: Db, imsi: string)
    requires Integrity(db)
  {
    View(db, imsi).Some? && View(db, imsi).value.auth.Some?
  }

  lemma ClonableMeans(db: Db, imsi: string)
    requires Integrity(db) && Clonable(db, imsi)
    ensures View(db, imsi).Some? && View(db, imsi).value.auth.Some?
  {
  }

  /** Where a clone walk stands after n clones. */
  ghost predicate Walked(before: Db, now: Db, src: string, start: string, n: nat)
    requires Integrity(before) && IsDigits(start)
  {
    && Integrity(now)
    && if Clonable(before, src) then RangeCloned(before, now, View(before, src).value, start, n)
       else n == 0 && now == before
  }

  lemma WalkNothing(db: Db, src: string, start: string)
    requires Integrity(db) && IsDigits(start)
    ensures Walked(db, db, src, start, 0)
  {
    hide View, Integrity;
  }

  lemma WalkStep(before: Db, mid: Db, now: Db, src: string, start: string, n: nat, r: Result<int, Error>)
    requires Integrity(before) && IsDigits(start) && start != "" && Value(start) + n < Pow10(|start|)
    requires Text.Trim(src) == src != "" && Walked(before, mid, src, start, n)
    requires Cloned(mid, src, Nth(start, n), MsisdnOf(Nth(start, n)), now, r)
    ensures r.Ok? <==> Clonable(before, src)
    ensures r.Ok? ==> Walked(before, now, src, start, n + 1)
    ensures r.Err? ==> Walked(before, now, src, start, n)
  {
    hide View, Integrity, Cloned, CloneView, Nth, MsisdnOf, RangeCloned;
    if Clonable(before, src) {
      RangeClonedStep(before, mid, now, src, start, n, r);
    } else {
      NthTrim(start, n);
      CloneMeaning(mid, src, Nth(start, n), MsisdnOf(Nth(start, n)), now, r);
    }
  }

  /** The increment between two steps of a walk. */
  lemma NthAdvances(start: string, n: nat)
    requires IsDigits(start) && Value(start) + n < Pow10(|start|)
    ensures AllNines(Nth(start, n)) <==> Value(start) + n + 1 == Pow10(|start|)
    ensures !AllNines(Nth(start, n)) ==> Next(Nth(start, n)) == Nth(start, n + 1)
  {
    hide Pow10, Numeral, Value, Next, AllNines;
    NumeralValue(Value(start) + n, |start|);
    NextValue(Nth(start, n));
    if Value(start) + n + 1 < Pow10(|start|) {
      NextNumeral(Value(start) + n, |start|);
    }
  }

  lemma WalkStarts(start: string)
    requires IsDigits(start)
    ensures Nth(start, 0) == start && Value(start) < Pow10(|start|)
  {
    hide Numeral, Pow10, Value;
    NumeralOfValue(start);
    ValueBound(start);
  }

  lemma CloneViewAuth(source: UeView, dst: Option<UeView>, msisdn: string)
    requires source.auth.Some?
    ensures CloneView(source, dst, msisdn).auth.Some?
  {
  }

  lemma RangeGrows(start: string, n: nat, imsi: string)
    requires IsDigits(start)
    ensures InRange(start, n + 1, imsi) <==> InRange(start, n, imsi) || imsi == Nth(start, n)
  {
    hide Nth;
  }

  /** One more delete extends the walk. */
  lemma RangeDeletedStep(before: Db, mid: Db, start: string, n: nat)
    requires Integrity(before) && Integrity(mid) && IsDigits(start)
    requires Value(start) + n < Pow10(|start|) && RangeDeleted(before, mid, start, n)
    ensures var (now, gone) := DeleteByImsi(mid, Nth(start, n));
            Integrity(now) && RangeDeleted(before, now, start, n + 1)
                && Present(before, start, n) + gone == Present(before, start, n + 1)
  {
    hide View, Integrity, Nth, DeleteByImsi;
    var target := Nth(start, n);
    DeleteMeaning(mid, target);
    forall i | 0 <= i < n
      ensures Nth(start, i) != target
    {
      NthDiffer(start, i, n);
    }
    forall imsi {
      RangeGrows(start, n, imsi);
    }
  }

  lemma NothingDeleted(db: Db, start: string)
    requires Integrity(db) && IsDigits(start)
    ensures RangeDeleted(db, db, start, 0) && Present(db, start, 0) == 0
  {
    hide View, Integrity;
  }

  /** Deleting the range just cloned into absent IMSIs restores every view, and counts every clone. */
  lemma DeleteUndoesClone(before: Db, cloned: Db, after: Db, source: UeView, start: string, n: nat)
    requires Integrity(before) && Integrity(cloned) && Integrity(after) && IsDigits(start) && source.auth.Some?
    requires forall i :: 0 <= i < n ==> View(before, Nth(start, i)).None?
    requires RangeCloned(before, cloned, source, start, n) && RangeDeleted(cloned, after, start, n)
    ensures SameCatalogs(before, after) && forall imsi :: View(after, imsi) == View(before, imsi)
    ensures Present(cloned, start, n) == n
  {
    hide View, Integrity, CloneView, Nth;
    AllPresent(before, cloned, source, start, n, n);
  }

  lemma {:induction false} AllPresent(before: Db, cloned: Db, source: UeView, start: string, n: nat, m: nat)
    requires Integrity(before) && Integrity(cloned) && IsDigits(start) && source.auth.Some? && m <= n
    requires RangeCloned(before, cloned, source, start, n)
    ensures Present(cloned, start, m) == m
  {
    hide View, Integrity, CloneView, Nth;
    if m > 0 {
      AllPresent(before, cloned, source, start, n, m - 1);
    }
  }
}
