/** manifest.go and baseline.py: ranges of IMSIs, checked for overlap by intervals in Go, by enumeration in Python. */
module Buckets {
  import opened Wrappers
  import opened Decimal

  const TWO_64: nat := 0x1_0000_0000_0000_0000

  datatype Bucket = Bucket(name: string, count: int, imsiStart: string)

  // ── Padded numbers ───────────────────────────────────────────────────────

  function Width(n: nat): nat {
    if n < 10 then 1 else 1 + Width(n / 10)
  }

  /** %015d: at least fifteen digits, more where needed. */
  function Padded(n: nat): string {
    Numeral(n, if Width(n) < 15 then 15 else Width(n))
  }

  lemma {:induction false} WidthHolds(n: nat, w: nat)
    requires w >= Width(n)
    ensures n < Pow10(w)
  {
    if n >= 10 {
      WidthHolds(n / 10, w - 1);
    } else {
      assert Pow10(w) >= 10 by { PowTen(w); }
    }
  }

  lemma {:induction false} PowTen(w: nat)
    requires w >= 1
    ensures Pow10(w) >= 10
  {
    if w > 1 {
      PowTen(w - 1);
    }
  }

  /** Different numbers are written differently, whatever their widths. */
  lemma PaddedReadsBack(n: nat)
    ensures IsDigits(Padded(n)) && Value(Padded(n)) == n
  {
    var w := if Width(n) < 15 then 15 else Width(n);
    WidthHolds(n, w);
    NumeralValue(n, w);
  }

  /** Fifteen digits with leading zeros, and beyond that as many as it takes, the first not zero. */
  lemma PaddedWidth(n: nat)
    ensures n < Pow10(15) <==> |Padded(n)| == 15
    ensures |Padded(n)| >= 15 && (|Padded(n)| > 15 ==> Padded(n)[0] != '0')
  {
    WidthExact(n);
    hide Numeral, Pow10, Value;
    var w := Width(n);
    if w > 15 {
      PowGrows(15, w - 1);
      WidthHolds(n, w);
      NumeralValue(n, w);
      FirstDigit(Numeral(n, w));
    } else {
      WidthHolds(n, 15);
    }
  }

  /** A number has as many digits as it takes. */
  lemma {:induction false} WidthExact(n: nat)
    ensures Width(n) > 1 ==> Pow10(Width(n) - 1) <= n
  {
    if n >= 10 {
      WidthExact(n / 10);
    }
  }

  lemma {:induction false} PowGrows(v: nat, w: nat)
    requires v <= w
    ensures Pow10(v) <= Pow10(w)
  {
    if v < w {
      PowGrows(v, w - 1);
    }
  }

  /** Where the first digit is zero the rest holds the value. */
  lemma {:induction false} FirstDigit(s: string)
    requires IsDigits(s) && s != ""
    ensures s[0] == '0' ==> Value(s) < Pow10(|s| - 1)
  {
    if |s| > 1 {
      FirstDigit(s[..|s| - 1]);
    }
  }

  lemma PaddedDiffer(m: nat, n: nat)
    ensures Padded(m) == Padded(n) <==> m == n
  {
    PaddedReadsBack(m);
    PaddedReadsBack(n);
  }

  /** Python's :015d: the sign counts toward the width. */
  function PaddedInt(n: int): string {
    if n >= 0 then Padded(n) else "-" + Numeral(-n, if Width(-n) < 14 then 14 else Width(-n))
  }

  lemma PaddedIntDiffer(m: int, n: int)
    ensures PaddedInt(m) == PaddedInt(n) <==> m == n
  {
    if m >= 0 && n >= 0 {
      PaddedDiffer(m, n);
    } else if m < 0 && n < 0 {
      MinusReadsBack(m);
      MinusReadsBack(n);
    } else if m >= 0 {
      PlusMinusDiffer(m, n);
    } else {
      PlusMinusDiffer(n, m);
    }
  }

  lemma MinusReadsBack(n: int)
    requires n < 0
    ensures PaddedInt(n) != "" && PaddedInt(n)[0] == '-'
    ensures IsDigits(PaddedInt(n)[1..]) && Value(PaddedInt(n)[1..]) == -n
  {
    var w := if Width(-n) < 14 then 14 else Width(-n);
    WidthHolds(-n, w);
    NumeralValue(-n, w);
    assert PaddedInt(n)[1..] == Numeral(-n, w);
  }

  lemma PlusMinusDiffer(m: int, n: int)
    requires m >= 0 > n
    ensures PaddedInt(m) != PaddedInt(n)
  {
    PaddedReadsBack(m);
    MinusReadsBack(n);
    assert '0' <= PaddedInt(m)[0] <= '9' by { assert |Padded(m)| >= 15; }
  }

  // ── The interval test ────────────────────────────────────────────────────

  /** strconv.ParseUint(s, 10, 64). */
  function ParseUint(s: string): Option<nat> {
    if s != "" && IsDigits(s) && Value(s) < TWO_64 then Some(Value(s)) else None
  }

  /** uint64 arithmetic wraps. */
  datatype Range = Range(name: string, lo: nat, hi: nat)

  predicate Readable(b: Bucket) {
    b.count > 0 && ParseUint(b.imsiStart).Some?
  }

  function RangeOf(b: Bucket): Range
    requires Readable(b)
  {
    var start := ParseUint(b.imsiStart).value;
    Range(b.name, start, (start + b.count - 1) % TWO_64)
  }

  predicate Overlap(a: Range, b: Range) {
    a.lo <= b.hi && b.lo <= a.hi
  }

  ghost predicate GoAccepts(bs: seq<Bucket>) {
    && (forall i :: 0 <= i < |bs| ==> Readable(bs[i]))
    && (forall i, j :: 0 <= i < j < |bs| ==> !Overlap(RangeOf(bs[i]), RangeOf(bs[j])))
  }

  /** A text of digits whose number fits 64 bits. */
  predicate IsUint64(s: string) {
    s != "" && IsDigits(s) && Value(s) <= 0xFFFF_FFFF_FFFF_FFFF
  }

  lemma ParseMeaning(s: string)
    ensures ParseUint(s).Some? <==> IsUint64(s)
    ensures IsUint64(s) ==> ParseUint(s).value == Value(s)
  {
  }

  datatype Verdict =
    | Valid
    | BadCount(name: string)
    | BadStart(name: string)
    | Overlapping(first: string, second: string)

  /** The bucket part of validateManifest; an error names the first offender in scan order. */
  method ValidateBuckets(bs: seq<Bucket>) returns (v: Verdict)
    ensures v.Valid? <==> GoAccepts(bs)
    ensures v.BadCount? ==> exists i :: 0 <= i < |bs| && bs[i].count <= 0 && bs[i].name == v.name
                                        && forall k :: 0 <= k < i ==> Readable(bs[k])
    ensures v.BadStart? ==> exists i :: 0 <= i < |bs| && bs[i].count > 0 && !IsUint64(bs[i].imsiStart)
                                        && bs[i].name == v.name && forall k :: 0 <= k < i ==> Readable(bs[k])
    ensures v.Overlapping? ==> (forall k :: 0 <= k < |bs| ==> Readable(bs[k]))
                               && exists i, j :: 0 <= i < j < |bs| && Overlap(RangeOf(bs[i]), RangeOf(bs[j]))
                                                 && v == Overlapping(bs[i].name, bs[j].name)
  {
    hide ParseUint;
    var ranges: seq<Range> := [];
    for k := 0 to |bs|
      invariant |ranges| == k
      invariant forall i :: 0 <= i < k ==> Readable(bs[i]) && ranges[i] == RangeOf(bs[i])
    {
      var b := bs[k];
      if b.count <= 0 {
        return BadCount(b.name);
      }
      var start := ParseUint(b.imsiStart);
      ParseMeaning(b.imsiStart);
      if start.None? {
        return BadStart(b.name);
      }
      ranges := ranges + [Range(b.name, start.value, (start.value + b.count - 1) % TWO_64)];
    }
    for i := 0 to |ranges|
      invariant forall x, y :: 0 <= x < i && x < y < |bs| ==> !Overlap(RangeOf(bs[x]), RangeOf(bs[y]))
    {
      for j := i + 1 to |ranges|
        invariant forall y :: i < y < j ==> !Overlap(RangeOf(bs[i]), RangeOf(bs[y]))
      {
        if Overlap(ranges[i], ranges[j]) {
          return Overlapping(ranges[i].name, ranges[j].name);
        }
      }
    }
    return Valid;
  }

  // ── The enumeration ──────────────────────────────────────────────────────

  /** How a start is read as a number: Python's int, None where it raises. */
  type Reader = string -> Option<int>

  /** Plain digits within a uint64 are read as Go reads them. */
  ghost predicate ReadsDigits(read: Reader) {
    forall s :: ParseUint(s).Some? ==> read(s) == Some(ParseUint(s).value)
  }

  predicate Loadable(read: Reader, b: Bucket) {
    b.count > 0 && read(b.imsiStart).Some?
  }

  /** The idx-th IMSI of a bucket. */
  function Imsi(read: Reader, b: Bucket, idx: nat): string
    requires Loadable(read, b)
  {
    PaddedInt(read(b.imsiStart).value + idx)
  }

  /** The IMSIs of a bucket with a start of fifteen digits count up from that start. */
  lemma ImsisCountUp(read: Reader, b: Bucket, idx: nat)
    requires ReadsDigits(read) && Readable(b) && |b.imsiStart| == 15 && IsDigits(b.imsiStart)
    requires Value(b.imsiStart) + idx < Pow10(15)
    ensures Loadable(read, b) && Imsi(read, b, idx) == Numeral(Value(b.imsiStart) + idx, 15)
    ensures Imsi(read, b, 0) == b.imsiStart
  {
    hide Numeral, Value, Pow10, ParseUint, Width, Padded, IsDigits, IsUint64;
    ParseMeaning(b.imsiStart);
    NumeralOfValue(b.imsiStart);
    ValueBound(b.imsiStart);
    PaddedShort(Value(b.imsiStart) + idx);
    PaddedShort(Value(b.imsiStart));
  }

  lemma PaddedShort(n: nat)
    requires n < Pow10(15)
    ensures Padded(n) == Numeral(n, 15)
  {
    hide Numeral, Pow10;
    PaddedWidth(n);
  }

  ghost predicate AllLoadable(read: Reader, bs: seq<Bucket>) {
    forall i :: 0 <= i < |bs| ==> Loadable(read, bs[i])
  }

  /** No two enumerated IMSIs, of one bucket or of two, are the same string. */
  ghost predicate Distinct(read: Reader, bs: seq<Bucket>)
    requires AllLoadable(read, bs)
  {
    forall i, j, a: nat, b: nat ::
      0 <= i < |bs| && 0 <= j < |bs| && a < bs[i].count && b < bs[j].count && (i != j || a != b) ==>
        Imsi(read, bs[i], a) != Imsi(read, bs[j], b)
  }

  ghost predicate Share(read: Reader, x: Bucket, y: Bucket) {
    && Loadable(read, x) && Loadable(read, y)
    && exists a: nat, b: nat :: a < x.count && b < y.count && Imsi(read, x, a) == Imsi(read, y, b)
  }

  /** The range does not run past the last uint64. */
  predicate NoWrap(b: Bucket)
    requires Readable(b)
  {
    ParseUint(b.imsiStart).value + b.count <= TWO_64
  }

  /** What overlaps has a common IMSI, wrapped or not; what has one overlaps unless a range wraps. */
  lemma OverlapMeaning(read: Reader, x: Bucket, y: Bucket)
    requires ReadsDigits(read) && Readable(x) && Readable(y)
    ensures Overlap(RangeOf(x), RangeOf(y)) ==> Share(read, x, y)
    ensures NoWrap(x) && NoWrap(y) && Share(read, x, y) ==> Overlap(RangeOf(x), RangeOf(y))
  {
    hide PaddedInt, ParseUint;
    var p, q := ParseUint(x.imsiStart).value, ParseUint(y.imsiStart).value;
    Wrapped(p + x.count - 1);
    Wrapped(q + y.count - 1);
    forall a: nat, b: nat | a < x.count && b < y.count
      ensures Imsi(read, x, a) == Imsi(read, y, b) <==> p + a == q + b
    {
      PaddedIntDiffer(p + a, q + b);
    }
    if Overlap(RangeOf(x), RangeOf(y)) {
      var a: nat, b: nat := if p < q then q - p else 0, if p < q then 0 else p - q;
      assert Imsi(read, x, a) == Imsi(read, y, b);
    }
  }

  lemma Wrapped(n: nat)
    ensures n % TWO_64 <= n && (n < TWO_64 ==> n % TWO_64 == n)
  {
  }

  /**
   * The interval test accepts every list whose enumerated IMSIs are all different strings, and where no
   * range wraps it accepts no other.
   */
  lemma IntervalsAreEnumeration(read: Reader, bs: seq<Bucket>)
    requires ReadsDigits(read) && forall i :: 0 <= i < |bs| ==> Readable(bs[i])
    ensures AllLoadable(read, bs) && (Distinct(read, bs) ==> GoAccepts(bs))
    ensures (forall i :: 0 <= i < |bs| ==> NoWrap(bs[i])) ==> (GoAccepts(bs) <==> Distinct(read, bs))
  {
    assert AllLoadable(read, bs);
    hide Overlap, RangeOf, Imsi, ParseUint, ReadsDigits, NoWrap;
    forall i, j | 0 <= i < |bs| && 0 <= j < |bs|
      ensures Overlap(RangeOf(bs[i]), RangeOf(bs[j])) ==> Share(read, bs[i], bs[j])
      ensures NoWrap(bs[i]) && NoWrap(bs[j]) && Share(read, bs[i], bs[j]) ==> Overlap(RangeOf(bs[i]), RangeOf(bs[j]))
    {
      OverlapMeaning(read, bs[i], bs[j]);
    }
    forall i, a: nat, b: nat | 0 <= i < |bs| && a < bs[i].count && b < bs[i].count && a != b
      ensures Imsi(read, bs[i], a) != Imsi(read, bs[i], b)
    {
      WithinBucket(read, bs[i], a, b);
    }
    if GoAccepts(bs) && forall i :: 0 <= i < |bs| ==> NoWrap(bs[i]) {
      forall i, j, a: nat, b: nat |
        0 <= i < |bs| && 0 <= j < |bs| && a < bs[i].count && b < bs[j].count && (i != j || a != b)
        ensures Imsi(read, bs[i], a) != Imsi(read, bs[j], b)
      {
        if i < j {
          assert !Overlap(RangeOf(bs[i]), RangeOf(bs[j]));
        } else if j < i {
          assert !Overlap(RangeOf(bs[j]), RangeOf(bs[i]));
        }
      }
    }
  }

  lemma WithinBucket(read: Reader, x: Bucket, a: nat, b: nat)
    requires Loadable(read, x) && a != b
    ensures Imsi(read, x, a) != Imsi(read, x, b)
  {
    PaddedIntDiffer(read(x.imsiStart).value + a, read(x.imsiStart).value + b);
  }

  // ── Ranges that wrap ─────────────────────────────────────────────────────

  /** The test is right about x beside every bucket that does not wrap. */
  ghost predicate JudgedRight(read: Reader, x: Bucket)
    requires Readable(x)
  {
    forall y :: Readable(y) && NoWrap(y) ==> (Overlap(RangeOf(x), RangeOf(y)) <==> Share(read, x, y))
  }

  /** A wrapping bucket is missed by the bucket of its own first IMSI. */
  lemma WrapMisses(read: Reader, x: Bucket, y: Bucket)
    requires ReadsDigits(read) && Readable(x) && x.count <= TWO_64 && !NoWrap(x)
    requires y == Bucket("", 1, x.imsiStart)
    ensures Readable(y) && NoWrap(y) && Share(read, x, y) && !Overlap(RangeOf(x), RangeOf(y))
  {
    hide PaddedInt;
    assert Imsi(read, x, 0) == Imsi(read, y, 0);
    var start := ParseUint(x.imsiStart).value;
    assert (start + x.count - 1) % TWO_64 == start + x.count - 1 - TWO_64;
  }

  /**
   * A bucket is judged right beside every bucket that does not wrap exactly when it does not wrap
   * itself: when its start and count together stay within a uint64.
   */
  lemma JudgedRightExactlyWhen(read: Reader, x: Bucket)
    requires ReadsDigits(read) && Readable(x) && x.count <= TWO_64
    ensures JudgedRight(read, x) <==> NoWrap(x)
  {
    hide RangeOf, Overlap, Share, ReadsDigits, ParseUint;
    if NoWrap(x) {
      forall y | Readable(y) && NoWrap(y)
        ensures Overlap(RangeOf(x), RangeOf(y)) <==> Share(read, x, y)
      {
        OverlapMeaning(read, x, y);
      }
    } else {
      WrapMisses(read, x, Bucket("", 1, x.imsiStart));
    }
  }

  /** So two buckets with an IMSI in common are accepted. */
  lemma WrapHidesOverlap(read: Reader)
    requires ReadsDigits(read)
    ensures var last := Numeral(TWO_64 - 1, 20);
            var x, y := Bucket("x", 2, last), Bucket("", 1, last);
            Readable(x) && Readable(y) && Share(read, x, y) && GoAccepts([x, y])
  {
    assert Pow10(5) == 100_000;
    assert Pow10(10) == 10_000_000_000;
    assert Pow10(15) == 1_000_000_000_000_000;
    assert Pow10(20) == 100_000_000_000_000_000_000;
    var last := Numeral(TWO_64 - 1, 20);
    NumeralValue(TWO_64 - 1, 20);
    assert ParseUint(last) == Some(TWO_64 - 1);
    hide ParseUint, Numeral, RangeOf, Overlap, Share, ReadsDigits;
    WrapMisses(read, Bucket("x", 2, last), Bucket("", 1, last));
  }

  // ── baseline.py ──────────────────────────────────────────────────────────

  /** _state: buckets by name, a later one replacing an earlier, and the bucket name of each IMSI. */
  datatype Tables = Tables(byName: map<string, Bucket>, owner: map<string, string>)

  /** The last bucket of a name. */
  function LastNamed(bs: seq<Bucket>, name: string): Option<Bucket> {
    if bs == [] then None
    else if bs[|bs| - 1].name == name then Some(bs[|bs| - 1])
    else LastNamed(bs[..|bs| - 1], name)
  }

  ghost predicate Owners(read: Reader, bs: seq<Bucket>, owner: map<string, string>)
    requires AllLoadable(read, bs)
  {
    && (forall i, a: nat :: 0 <= i < |bs| && a < bs[i].count ==>
          Imsi(read, bs[i], a) in owner && owner[Imsi(read, bs[i], a)] == bs[i].name)
    && (forall imsi :: imsi in owner ==>
          exists i, a: nat :: 0 <= i < |bs| && a < bs[i].count && Imsi(read, bs[i], a) == imsi)
  }

  ghost predicate Named(bs: seq<Bucket>, byName: map<string, Bucket>) {
    forall name :: (if name in byName then Some(byName[name]) else None) == LastNamed(bs, name)
  }

  /** bucket_of. */
  function BucketOf(t: Tables, imsi: string): Option<Bucket> {
    if imsi in t.owner && t.owner[imsi] in t.byName then Some(t.byName[t.owner[imsi]]) else None
  }

  lemma {:induction false} LastNamedFirst(bs: seq<Bucket>, i: nat)
    requires i < |bs|
    requires forall j :: 0 <= j < |bs| && bs[j].name == bs[i].name ==> bs[j] == bs[i]
    ensures LastNamed(bs, bs[i].name) == Some(bs[i])
  {
    var n := |bs| - 1;
    if bs[n].name != bs[i].name {
      LastNamedFirst(bs[..n], i);
    }
  }

  /** With different names, looking an enumerated IMSI up gives the bucket it was enumerated from. */
  lemma LookupFindsOwn(read: Reader, bs: seq<Bucket>, t: Tables, i: nat, a: nat)
    requires AllLoadable(read, bs) && Owners(read, bs, t.owner) && Named(bs, t.byName)
    requires i < |bs| && a < bs[i].count
    requires forall j, k :: 0 <= j < k < |bs| ==> bs[j].name != bs[k].name
    ensures BucketOf(t, Imsi(read, bs[i], a)) == Some(bs[i])
  {
    LastNamedFirst(bs, i);
  }

  /** With a name used twice it gives the later bucket for the IMSIs of both. */
  lemma LookupFindsLast(read: Reader, bs: seq<Bucket>, t: Tables, i: nat, a: nat)
    requires AllLoadable(read, bs) && Owners(read, bs, t.owner) && Named(bs, t.byName)
    requires i < |bs| && a < bs[i].count
    ensures BucketOf(t, Imsi(read, bs[i], a)) == LastNamed(bs, bs[i].name)
    ensures LastNamed(bs, bs[i].name).Some?
  {
    SomeNamed(bs, i);
  }

  lemma {:induction false} SomeNamed(bs: seq<Bucket>, i: nat)
    requires i < |bs|
    ensures LastNamed(bs, bs[i].name).Some?
  {
    var n := |bs| - 1;
    if bs[n].name != bs[i].name {
      SomeNamed(bs[..n], i);
    }
  }

  /** owner' is owner with the first n IMSIs of b, none of them there before. */
  ghost predicate Added(read: Reader, owner: map<string, string>, owner': map<string, string>, b: Bucket, n: int)
    requires Loadable(read, b)
  {
    && (forall a: nat :: a < n ==>
          Imsi(read, b, a) !in owner && Imsi(read, b, a) in owner' && owner'[Imsi(read, b, a)] == b.name)
    && (forall x :: x in owner ==> x in owner' && owner'[x] == owner[x])
    && (forall x :: x in owner' ==> x in owner || exists a: nat :: a < n && Imsi(read, b, a) == x)
  }

  /** The inner loop: every IMSI of one bucket, stopping at one already taken. */
  method Enumerate(read: Reader, b: Bucket, owner: map<string, string>)
      returns (owner': map<string, string>, clash: Option<string>)
    requires Loadable(read, b)
    ensures clash.None? ==> Added(read, owner, owner', b, b.count)
    ensures clash.Some? ==> clash.value in owner && exists a: nat :: a < b.count && Imsi(read, b, a) == clash.value
  {
    hide Imsi;
    owner' := owner;
    for i := 0 to b.count
      invariant Added(read, owner, owner', b, i)
    {
      var imsi := Imsi(read, b, i);
      forall a: nat | a < i ensures Imsi(read, b, a) != imsi { WithinBucket(read, b, a, i); }
      if imsi in owner' {
        return owner', Some(imsi);
      }
      owner' := owner'[imsi := b.name];
    }
    clash := None;
  }

  lemma NamedStep(bs: seq<Bucket>, b: Bucket, byName: map<string, Bucket>)
    requires Named(bs, byName)
    ensures Named(bs + [b], byName[b.name := b])
  {
    assert (bs + [b])[..|bs|] == bs;
  }

  lemma OwnersStep(read: Reader, bs: seq<Bucket>, b: Bucket, owner: map<string, string>, owner': map<string, string>)
    requires AllLoadable(read, bs) && Loadable(read, b) && Owners(read, bs, owner)
             && Added(read, owner, owner', b, b.count)
    ensures AllLoadable(read, bs + [b]) && Owners(read, bs + [b], owner')
  {
    hide Imsi, Loadable;
    var all := bs + [b];
    forall i, a: nat | 0 <= i < |all| && a < all[i].count
      ensures Imsi(read, all[i], a) in owner' && owner'[Imsi(read, all[i], a)] == all[i].name
    {
      assert i < |bs| ==> Imsi(read, bs[i], a) in owner;
    }
    forall x | x in owner'
      ensures exists i, a: nat :: 0 <= i < |all| && a < all[i].count && Imsi(read, all[i], a) == x
    {
      if x in owner {
        var i, a: nat :| 0 <= i < |bs| && a < bs[i].count && Imsi(read, bs[i], a) == x;
        assert all[i] == bs[i];
      } else {
        var a: nat :| a < b.count && Imsi(read, b, a) == x;
        assert all[|bs|] == b;
      }
    }
  }

  lemma DistinctStep(read: Reader, bs: seq<Bucket>, b: Bucket, owner: map<string, string>, owner': map<string, string>)
    requires AllLoadable(read, bs) && Loadable(read, b) && Owners(read, bs, owner)
             && Added(read, owner, owner', b, b.count) && Distinct(read, bs)
    ensures AllLoadable(read, bs + [b]) && Distinct(read, bs + [b])
  {
    hide Imsi, Loadable;
    var all := bs + [b];
    forall i, j, a: nat, c: nat | 0 <= i < |all| && 0 <= j < |all| && a < all[i].count && c < all[j].count
        && (i != j || a != c)
      ensures Imsi(read, all[i], a) != Imsi(read, all[j], c)
    {
      if i < |bs| && j < |bs| {
        assert Imsi(read, bs[i], a) != Imsi(read, bs[j], c);
      } else if i == j {
        WithinBucket(read, b, a, c);
      } else if i < |bs| {
        assert Imsi(read, bs[i], a) in owner;
      } else {
        assert Imsi(read, bs[j], c) in owner;
      }
    }
  }

  lemma ClashIsReal(read: Reader, bs: seq<Bucket>, k: nat, owner: map<string, string>, imsi: string, a: nat)
    requires k < |bs| && AllLoadable(read, bs) && Owners(read, bs[..k], owner)
    requires imsi in owner && a < bs[k].count && Imsi(read, bs[k], a) == imsi
    ensures !Distinct(read, bs)
  {
    hide Imsi, Loadable;
    var i, c: nat :| 0 <= i < k && c < bs[..k][i].count && Imsi(read, bs[..k][i], c) == imsi;
    assert bs[..k][i] == bs[i];
  }

  /** The bucket part of _load_locked. */
  method LoadBuckets(read: Reader, bs: seq<Bucket>) returns (r: Result<Tables, Verdict>)
    ensures r.Ok? <==> AllLoadable(read, bs) && Distinct(read, bs)
    ensures r.Ok? ==> Owners(read, bs, r.value.owner) && Named(bs, r.value.byName)
  {
    hide Imsi, Distinct, Owners, Named, Added;
    var byName: map<string, Bucket>, owner: map<string, string> := map[], map[];
    NothingLoaded(read);
    for k := 0 to |bs|
      invariant AllLoadable(read, bs[..k]) && Distinct(read, bs[..k])
      invariant Owners(read, bs[..k], owner) && Named(bs[..k], byName)
    {
      var b := bs[k];
      assert bs[..k + 1] == bs[..k] + [b];
      if b.count <= 0 {
        assert !Loadable(read, bs[k]);
        return Err(BadCount(b.name));
      }
      if read(b.imsiStart).None? {
        assert !Loadable(read, bs[k]);
        return Err(BadStart(b.name));
      }
      NamedStep(bs[..k], b, byName);
      byName := byName[b.name := b];
      var owner', clash := Enumerate(read, b, owner);
      if clash.Some? {
        ghost var a: nat :| a < b.count && Imsi(read, b, a) == clash.value;
        if AllLoadable(read, bs) {
          ClashIsReal(read, bs, k, owner, clash.value, a);
        }
        return Err(Overlapping(owner[clash.value], b.name));
      }
      OwnersStep(read, bs[..k], b, owner, owner');
      DistinctStep(read, bs[..k], b, owner, owner');
      owner := owner';
    }
    assert bs[..|bs|] == bs;
    return Ok(Tables(byName, owner));
  }

  lemma NothingLoaded(read: Reader)
    ensures Distinct(read, []) && Owners(read, [], map[]) && Named([], map[])
  {
  }
}
