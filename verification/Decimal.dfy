/** Decimal numerals of a fixed width, as IMSIs are, and the in-place increment of ue.go. */
module Decimal {

  function Pow10(w: nat): nat {
    if w == 0 then 1 else 10 * Pow10(w - 1)
  }

  predicate IsDigits(s: string) {
    forall i :: 0 <= i < |s| ==> '0' <= s[i] <= '9'
  }

  function Digit(d: nat): char
    requires d < 10
  {
    '0' + d as char
  }

  function Value(s: string): nat
    requires IsDigits(s)
  {
    if s == "" then 0 else Value(s[..|s| - 1]) * 10 + (s[|s| - 1] - '0') as nat
  }

  /** n written with w digits. */
  function Numeral(n: nat, w: nat): (s: string)
    ensures |s| == w && IsDigits(s)
  {
    if w == 0 then "" else Numeral(n / 10, w - 1) + [Digit(n % 10)]
  }

  lemma {:induction false} ValueBound(s: string)
    requires IsDigits(s)
    ensures Value(s) < Pow10(|s|)
  {
    if s != "" {
      ValueBound(s[..|s| - 1]);
    }
  }

  lemma {:induction false} NumeralValue(n: nat, w: nat)
    requires n < Pow10(w)
    ensures Value(Numeral(n, w)) == n
  {
    if w > 0 {
      NumeralValue(n / 10, w - 1);
      assert Numeral(n, w)[..w - 1] == Numeral(n / 10, w - 1);
    }
  }

  lemma {:induction false} NumeralOfValue(s: string)
    requires IsDigits(s)
    ensures Numeral(Value(s), |s|) == s
  {
    if s != "" {
      NumeralOfValue(s[..|s| - 1]);
      assert s == s[..|s| - 1] + [s[|s| - 1]];
    }
  }

  lemma NumeralsDiffer(m: nat, n: nat, w: nat)
    requires m < Pow10(w) && n < Pow10(w) && m != n
    ensures Numeral(m, w) != Numeral(n, w)
  {
    NumeralValue(m, w);
    NumeralValue(n, w);
  }

  lemma Pow10Positive(w: nat)
    ensures Pow10(w) >= 1
  {
  }

  /** Dropping the last digit of a number within ten times p is dropping it within p. */
  lemma ModTen(n: nat, p: nat)
    requires p >= 1
    ensures (n % (10 * p)) / 10 == (n / 10) % p && (n % (10 * p)) % 10 == n % 10
  {
    var q, r := n / (10 * p), n % (10 * p);
    assert n == (q * p) * 10 + r by {
      assert n == (10 * p) * q + r;
      assert (10 * p) * q == (q * p) * 10;
    }
    assert n / 10 == q * p + r / 10;
    assert r / 10 < p;
    ModUnique(n / 10, p, q, r / 10);
  }

  lemma ModUnique(n: nat, p: nat, q: nat, r: nat)
    requires n == q * p + r && r < p
    ensures n % p == r
  {
    QuotientUnique(p, n / p, n % p, q, r);
  }

  lemma QuotientUnique(p: nat, q: nat, r: nat, s: nat, t: nat)
    requires r < p && t < p && q * p + r == s * p + t
    ensures q == s && r == t
  {
    if q > s {
      NextMultiple(p, s, q);
    } else if q < s {
      NextMultiple(p, q, s);
    }
  }

  lemma NextMultiple(p: nat, q: nat, s: nat)
    requires q < s
    ensures q * p + p <= s * p
  {
    var d: nat := s - q - 1;
    assert s * p == q * p + p + d * p;
  }

  lemma NumeralsEqual(m: nat, n: nat, w: nat)
    requires m < Pow10(w) && n < Pow10(w)
    ensures Numeral(m, w) == Numeral(n, w) <==> m == n
  {
    hide Numeral, Pow10;
    if m != n {
      NumeralsDiffer(m, n, w);
    }
  }

  /** The number of the w low digits. */
  function Low(n: nat, w: nat): (r: nat)
    ensures r < Pow10(w)
  {
    Pow10Positive(w);
    n % Pow10(w)
  }

  /** The most significant digit stands first: without its k leading digits a numeral is that of the rest. */
  lemma {:induction false} NumeralSuffix(n: nat, w: nat, k: nat)
    requires k <= w
    ensures Numeral(n, w)[k..] == Numeral(Low(n, w - k), w - k)
  {
    if k < w {
      Pow10Positive(w - k - 1);
      NumeralSuffix(n / 10, w - 1, k);
      ModTen(n, Pow10(w - k - 1));
      assert Numeral(n, w)[k..] == Numeral(n / 10, w - 1)[k..] + [Digit(n % 10)];
    }
  }

  /** The numeral after s, of the same width; none after all nines. */
  function Next(s: string): (r: string)
    requires IsDigits(s)
    ensures |r| == |s| && IsDigits(r)
  {
    if s == "" then ""
    else if s[|s| - 1] < '9' then s[..|s| - 1] + [s[|s| - 1] + 1 as char]
    else Next(s[..|s| - 1]) + "0"
  }

  predicate AllNines(s: string) {
    forall i :: 0 <= i < |s| ==> s[i] == '9'
  }

  lemma {:induction false} NextValue(s: string)
    requires IsDigits(s)
    ensures AllNines(s) <==> Value(s) + 1 == Pow10(|s|)
    ensures !AllNines(s) ==> Value(Next(s)) == Value(s) + 1
  {
    if s != "" {
      var p := s[..|s| - 1];
      NextValue(p);
      ValueBound(p);
      assert AllNines(s) <==> AllNines(p) && s[|s| - 1] == '9';
      if s[|s| - 1] < '9' {
        assert Next(s)[..|s| - 1] == p;
      } else {
        assert Next(s)[..|s| - 1] == Next(p);
      }
    }
  }

  /** Counting up by one is writing the next number. */
  lemma NextNumeral(n: nat, w: nat)
    requires n + 1 < Pow10(w)
    ensures !AllNines(Numeral(n, w)) && Next(Numeral(n, w)) == Numeral(n + 1, w)
  {
    hide Pow10, Numeral, Value, Next, AllNines;
    var s := Numeral(n, w);
    NumeralValue(n, w);
    NextValue(s);
    NumeralOfValue(Next(s));
  }

  lemma NextStep(s: string, i: nat)
    requires IsDigits(s) && i < |s|
    ensures IsDigits(s[..i]) && IsDigits(s[..i + 1])
    ensures Next(s[..i + 1]) == if s[i] < '9' then s[..i] + [s[i] + 1 as char] else Next(s[..i]) + "0"
  {
    assert s[..i + 1][..i] == s[..i];
  }

  lemma DigitAt(s: string, i: nat)
    requires IsDigits(s) && i < |s|
    ensures '0' <= s[i] <= '9'
  {
  }

  lemma ZerosAreDigits(s: string)
    requires forall i :: 0 <= i < |s| ==> s[i] == '0'
    ensures IsDigits(s)
  {
  }

  lemma NotAllNines(s: string, i: nat)
    requires i < |s| && s[i] < '9'
    ensures !AllNines(s)
  {
  }

  lemma AreAllNines(s: string)
    requires forall j :: 0 <= j < |s| ==> s[j] == '9'
    ensures AllNines(s)
  {
  }

  /** incDecStr: increments the digits in place; false is its overflow error. */
  method IncDecStr(b: array<char>) returns (ok: bool)
    requires IsDigits(b[..])
    modifies b
    ensures IsDigits(b[..])
    ensures ok <==> !AllNines(old(b[..]))
    ensures ok ==> b[..] == Next(old(b[..]))
  {
    hide Next, AllNines, IsDigits;
    ghost var s := b[..];
    var i := b.Length;
    assert s[..i] == s && b[i..] == "";
    while i > 0
      invariant 0 <= i <= b.Length
      invariant b[..i] == s[..i] && IsDigits(s[..i])
      invariant forall j :: i <= j < b.Length ==> b[j] == '0' && s[j] == '9'
      invariant Next(s) == Next(s[..i]) + b[i..]
    {
      i := i - 1;
      NextStep(s, i);
      DigitAt(s, i);
      if b[i] < '9' {
        b[i] := b[i] + 1 as char;
        assert b[..] == s[..i] + [s[i] + 1 as char] + b[i + 1..];
        NotAllNines(s, i);
        return true;
      }
      b[i] := '0';
      assert b[i..] == "0" + b[i + 1..];
    }
    AreAllNines(s);
    ZerosAreDigits(b[..]);
    return false;
  }
}
