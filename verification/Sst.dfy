/** normalizeSST of core/db/crud/nssai.go, and the %02X rendering that bindings.go puts beside it. */
module Sst {
  import opened Wrappers
  import Decimal
  import Text

  /** The dynamic types normalizeSST tells apart. */
  datatype Input =
    | Nil
    | Integer(n: int)
    | Float(x: real)
    | Str(s: string)
    | Other

  const INT64_MAX := 0x7FFF_FFFF_FFFF_FFFF

  function DigitValue(c: char): Option<nat> {
    if '0' <= c <= '9' then Some(c as nat - '0' as nat)
    else if 'a' <= c <= 'f' then Some(c as nat - 'a' as nat + 10)
    else if 'A' <= c <= 'F' then Some(c as nat - 'A' as nat + 10)
    else None
  }

  predicate DigitsIn(s: string, base: nat) {
    forall i :: 0 <= i < |s| ==> DigitValue(s[i]).Some? && DigitValue(s[i]).value < base
  }

  function Value(s: string, base: nat): nat
    requires DigitsIn(s, base)
  {
    if s == "" then 0
    else Value(s[..|s| - 1], base) * base + DigitValue(s[|s| - 1]).value
  }

  /** strconv.ParseInt(s, base, 64), without the error's text. */
  function ParseInt(s: string, base: nat): Option<int> {
    var digits := if s != "" && s[0] in "+-" then s[1..] else s;
    if digits == "" || !DigitsIn(digits, base) then None
    else
      var n: int := Value(digits, base);
      if s[0] == '-' then (if n <= INT64_MAX + 1 then Some(-n) else None)
      else (if n <= INT64_MAX then Some(n) else None)
  }

  /** Go's conversion of a float to int drops the fraction. */
  function Truncate(x: real): int {
    if x >= 0.0 then x.Floor else -((-x).Floor)
  }

  function Normalize(v: Input): int {
    match v
    case Integer(n) => n
    case Float(x) => Truncate(x)
    case Str(s) =>
      var t := Text.Trim(s);
      if t == "" then 1
      else if ParseInt(t, 10).Some? then ParseInt(t, 10).value
      else ParseInt(t, 16).GetOr(1)
    case _ => 1
  }

  function HexDigit(d: nat): char
    requires d < 16
  {
    "0123456789ABCDEF"[d]
  }

  function Hex(n: nat): string {
    if n < 16 then [HexDigit(n)] else Hex(n / 16) + [HexDigit(n % 16)]
  }

  /** fmt.Sprintf("%02X", n) */
  function Render(n: nat): string {
    if n < 16 then "0" + Hex(n) else Hex(n)
  }

  predicate HasLetter(s: string) {
    exists i :: 0 <= i < |s| && 'A' <= s[i] <= 'F'
  }

  lemma HexDigitValue(d: nat)
    requires d < 16
    ensures DigitValue(HexDigit(d)) == Some(d)
    ensures '0' <= HexDigit(d) <= '9' || 'A' <= HexDigit(d) <= 'F'
  {
  }

  lemma {:induction false} HexReadsBack(n: nat)
    ensures DigitsIn(Hex(n), 16) && Value(Hex(n), 16) == n && Hex(n) != ""
    ensures forall i :: 0 <= i < |Hex(n)| ==> '0' <= Hex(n)[i] <= '9' || 'A' <= Hex(n)[i] <= 'F'
  {
    hide HexDigit, Value, DigitValue;
    HexDigitValue(n % 16);
    if n >= 16 {
      HexReadsBack(n / 16);
      ValueOne(Hex(n / 16), HexDigit(n % 16), 16);
    } else {
      ValueOne("", HexDigit(n), 16);
      assert "" + [HexDigit(n)] == Hex(n) && Value("", 16) == 0 by { NoDigits(16); }
    }
  }

  lemma NoDigits(base: nat)
    ensures Value("", base) == 0
  {
  }

  lemma ValueOne(s: string, c: char, base: nat)
    requires DigitsIn(s, base) && DigitValue(c).Some? && DigitValue(c).value < base
    ensures DigitsIn(s + [c], base) && Value(s + [c], base) == Value(s, base) * base + DigitValue(c).value
  {
    assert (s + [c])[..|s|] == s;
  }

  lemma RenderReadsBack(n: nat)
    ensures DigitsIn(Render(n), 16) && Value(Render(n), 16) == n && |Render(n)| >= 2
    ensures forall i :: 0 <= i < |Render(n)| ==> '0' <= Render(n)[i] <= '9' || 'A' <= Render(n)[i] <= 'F'
  {
    HexReadsBack(n);
    if n < 16 {
      assert Render(n)[..1] == "0";
      assert Value("0", 16) == 0;
    } else {
      assert |Hex(n / 16)| >= 1 by { HexReadsBack(n / 16); }
    }
  }

  /** Read in decimal, a numeral is below its hexadecimal reading as soon as it has two significant digits. */
  lemma {:induction false} DecimalBelowHex(s: string)
    requires DigitsIn(s, 10) && DigitsIn(s, 16)
    ensures Value(s, 10) <= Value(s, 16)
    ensures Value(s, 10) < Value(s, 16) <==> Value(s, 16) >= 10
  {
    if s != "" {
      DecimalBelowHex(s[..|s| - 1]);
    }
  }

  /**
   * A rendered SST reads back as itself exactly when it is below ten or its hex form has a letter;
   * every other one reads back smaller.
   */
  lemma RenderedSst(n: nat)
    requires n <= INT64_MAX
    ensures Normalize(Str(Render(n))) == n <==> n < 10 || HasLetter(Render(n))
    ensures !(n < 10 || HasLetter(Render(n))) ==> 0 <= Normalize(Str(Render(n))) < n
  {
    hide Render, Normalize, HasLetter, DigitsIn, Value;
    RenderReadsBack(n);
    if HasLetter(Render(n)) {
      LetterReads(Render(n), n);
    } else {
      DigitsRead(Render(n), n);
    }
  }

  lemma Plain(s: string)
    requires forall i :: 0 <= i < |s| ==> '0' <= s[i] <= '9' || 'A' <= s[i] <= 'F'
    ensures Text.Trim(s) == s
  {
    Text.TrimKeeps(s);
  }

  lemma LetterReads(s: string, n: nat)
    requires HasLetter(s) && DigitsIn(s, 16) && Value(s, 16) == n <= INT64_MAX
    requires forall i :: 0 <= i < |s| ==> '0' <= s[i] <= '9' || 'A' <= s[i] <= 'F'
    ensures Normalize(Str(s)) == n
  {
    hide Value, Text.Trim;
    Plain(s);
    var i :| 0 <= i < |s| && 'A' <= s[i] <= 'F';
    assert !(DigitValue(s[i]).value < 10);
    assert ParseInt(s, 10) == None;
    assert ParseInt(s, 16) == Some(n);
  }

  lemma DigitsRead(s: string, n: nat)
    requires !HasLetter(s) && DigitsIn(s, 16) && Value(s, 16) == n <= INT64_MAX && s != ""
    requires forall i :: 0 <= i < |s| ==> '0' <= s[i] <= '9' || 'A' <= s[i] <= 'F'
    ensures 0 <= Normalize(Str(s)) <= n && (Normalize(Str(s)) < n <==> n >= 10)
  {
    hide Value, Text.Trim;
    Plain(s);
    assert DigitsIn(s, 10);
    DecimalBelowHex(s);
    assert ParseInt(s, 10) == Some(Value(s, 10));
  }

  // ── Every form an SST may arrive in ──────────────────────────────────────

  /** What a text is read as: decimal first, hexadecimal where that fails, and 1 where that fails too. */
  ghost predicate TextReads(t: string, n: int) {
    && (t == "" ==> n == 1)
    && (t != "" && Decimal.IsDigits(t) ==> n == if Decimal.Value(t) <= INT64_MAX then Decimal.Value(t) else 1)
    && (|t| > 1 && t[0] == '-' && Decimal.IsDigits(t[1..]) && Decimal.Value(t[1..]) <= INT64_MAX + 1 ==>
          -n == Decimal.Value(t[1..]))
    && (|t| > 1 && t[0] == '+' && Decimal.IsDigits(t[1..]) && Decimal.Value(t[1..]) <= INT64_MAX ==>
          n == Decimal.Value(t[1..]))
    && (t != "" && !Decimal.IsDigits(t) && DigitsIn(t, 16) ==>
          n == if Value(t, 16) <= INT64_MAX then Value(t, 16) else 1)
    && ((exists i :: 0 <= i < |t| && !Text.IsHexDigit(t[i]) && (i == 0 ==> t[i] !in "+-")) ==> n == 1)
  }

  /** The SST a value stands for. A float loses its fraction; what is no number and no text stands for 1. */
  ghost predicate Reads(v: Input, n: int) {
    match v
    case Integer(m) => n == m
    case Float(x) => if x >= 0.0 then n as real <= x < n as real + 1.0 else n as real - 1.0 < x <= n as real
    case Str(s) => TextReads(Text.Trim(s), n)
    case _ => n == 1
  }

  lemma NormalizeMeaning(v: Input)
    ensures Reads(v, Normalize(v))
  {
    if v.Str? {
      TextMeaning(Text.Trim(v.s), Normalize(v));
    }
  }

  lemma TextMeaning(t: string, n: int)
    requires n == if t == "" then 1
                  else if ParseInt(t, 10).Some? then ParseInt(t, 10).value
                  else ParseInt(t, 16).GetOr(1)
    ensures TextReads(t, n)
  {
    hide ParseInt, Text.IsHexDigit, Value, Decimal.Value, DigitValue, Decimal.IsDigits, DigitsIn;
    if t != "" {
      if Decimal.IsDigits(t) {
        NumberMeaning(t);
      } else if DigitsIn(t, 16) {
        HexMeaning(t);
      }
      if |t| > 1 && t[0] in "+-" && Decimal.IsDigits(t[1..]) {
        SignMeaning(t);
      }
      forall i | 0 <= i < |t| && !Text.IsHexDigit(t[i]) && (i == 0 ==> t[i] !in "+-")
        ensures ParseInt(t, 10) == ParseInt(t, 16) == None
      {
        Unreadable(t, i);
      }
    }
  }

  lemma NumberMeaning(t: string)
    requires t != "" && Decimal.IsDigits(t)
    ensures if Decimal.Value(t) <= INT64_MAX then ParseInt(t, 10) == Some(Decimal.Value(t))
            else ParseInt(t, 10) == ParseInt(t, 16) == None
  {
    SameValue(t);
    DecimalBelowHex(t);
  }

  lemma SignMeaning(t: string)
    requires |t| > 1 && t[0] in "+-" && Decimal.IsDigits(t[1..])
    ensures t[0] == '-' && Decimal.Value(t[1..]) <= INT64_MAX + 1 ==>
              ParseInt(t, 10) == Some(-(Decimal.Value(t[1..]) as int))
    ensures t[0] == '+' && Decimal.Value(t[1..]) <= INT64_MAX ==> ParseInt(t, 10) == Some(Decimal.Value(t[1..]))
  {
    hide Value, Decimal.Value;
    SameValue(t[1..]);
  }

  lemma HexMeaning(t: string)
    requires t != "" && !Decimal.IsDigits(t) && DigitsIn(t, 16)
    ensures ParseInt(t, 10) == None && ParseInt(t, 16) == if Value(t, 16) <= INT64_MAX then Some(Value(t, 16)) else None
  {
    hide Value;
    var i :| 0 <= i < |t| && !('0' <= t[i] <= '9');
    assert !(DigitValue(t[i]).value < 10);
    assert DigitValue(t[0]).Some?;
  }

  lemma Unreadable(t: string, i: nat)
    requires i < |t| && !Text.IsHexDigit(t[i]) && (i == 0 ==> t[i] !in "+-")
    ensures ParseInt(t, 10) == ParseInt(t, 16) == None
  {
    hide Value;
    DigitIs(t[i]);
    var digits := if t[0] in "+-" then t[1..] else t;
    assert digits[if t[0] in "+-" then i - 1 else i] == t[i];
  }

  lemma DigitIs(c: char)
    ensures DigitValue(c).Some? && DigitValue(c).value < 10 <==> '0' <= c <= '9'
    ensures DigitValue(c).Some? && DigitValue(c).value < 16 <==> Text.IsHexDigit(c)
  {
  }

  lemma {:induction false} SameValue(s: string)
    requires Decimal.IsDigits(s)
    ensures DigitsIn(s, 10) && DigitsIn(s, 16) && Value(s, 10) == Decimal.Value(s)
  {
    if s != "" {
      SameValue(s[..|s| - 1]);
    }
  }

  /** Hexadecimal digits count the same in either case. */
  lemma HexCases(c: char)
    ensures DigitValue(Text.LowerChar(c)) == DigitValue(Text.UpperChar(c))
  {
  }
}
