/** Decimal strings and the whole numbers that stand for them, with a fixed number of decimals. */
module BNConverter {
  import opened Base

  predicate IsDigit(c: char) {
    '0' <= c <= '9'
  }

  predicate AllDigits(s: string) {
    forall i :: 0 <= i < |s| ==> IsDigit(s[i])
  }

  function DigitOf(n: nat): (c: char)
    requires n < 10
    ensures IsDigit(c)
  {
    '0' + n as char
  }

  function ValueOf(c: char): nat
    requires IsDigit(c)
  {
    (c as int) - ('0' as int)
  }

  /** `toString` of a big number. */
  function Printed(n: nat): (s: string)
    ensures |s| > 0 && AllDigits(s)
  {
    if n < 10 then [DigitOf(n)] else Printed(n / 10) + [DigitOf(n % 10)]
  }

  /** `new BN(s, 10)`. */
  function Parsed(s: string): nat
    requires AllDigits(s)
  {
    if s == "" then 0 else Parsed(s[..|s| - 1]) * 10 + ValueOf(s[|s| - 1])
  }

  function Zeros(n: nat): (s: string)
    ensures |s| == n && AllDigits(s)
  {
    if n == 0 then "" else "0" + Zeros(n - 1)
  }

  function Pow10(n: nat): nat {
    if n == 0 then 1 else 10 * Pow10(n - 1)
  }

  // ---------------------------------------------------------------------------
  // The two conversions
  // ---------------------------------------------------------------------------

  /** The position of the first point, or the end. */
  function Point(s: string): (k: nat)
    ensures k <= |s| && (k < |s| ==> s[k] == '.')
    ensures forall i :: 0 <= i < k ==> s[i] != '.'
  {
    if s == "" || s[0] == '.' then 0 else 1 + Point(s[1..])
  }

  function IntPart(s: string): string {
    s[..Point(s)]
  }

  /** What follows the point; nothing without one. */
  function FractionPart(s: string): string {
    if Point(s) == |s| then "" else s[Point(s) + 1..]
  }

  /** Digits with at most one point, and at least one digit. */
  predicate Numeric(s: string) {
    AllDigits(IntPart(s)) && AllDigits(FractionPart(s)) && IntPart(s) + FractionPart(s) != ""
  }

  /** `makeBN` on plain decimals; anything else, and too many decimals, is refused. */
  function MakeBN(s: string, precision: nat): Option<nat> {
    if !Numeric(s) || |FractionPart(s)| > precision then None
    else Some(Parsed(IntPart(s) + FractionPart(s) + Zeros(precision - |FractionPart(s)|)))
  }

  /** `slice(-n)`: the last `n` characters, but all of them for `n == 0`. */
  function LastChars(s: string, n: nat): string
    requires n <= |s|
  {
    if n == 0 then s else s[|s| - n..]
  }

  /** The string that `makeDecimal` hands to the decimal library. */
  function MakeDecimal(n: nat, digits: nat): string {
    var s := Printed(n);
    if |s| <= digits then "0." + Zeros(digits - |s|) + s
    else s[..|s| - digits] + "." + LastChars(s, digits)
  }

  // ---------------------------------------------------------------------------
  // Positional notation
  // ---------------------------------------------------------------------------

  lemma {:induction false} ParsedPrinted(n: nat)
    ensures Parsed(Printed(n)) == n
  {
    if n >= 10 {
      ParsedPrinted(n / 10);
      var s := Printed(n);
      assert s[..|s| - 1] == Printed(n / 10);
    }
  }

  lemma {:induction false} ParsedConcat(s: string, t: string)
    requires AllDigits(s) && AllDigits(t)
    ensures Parsed(s + t) == Parsed(s) * Pow10(|t|) + Parsed(t)
    decreases |t|
  {
    if t == "" {
      assert s + t == s;
    } else {
      var init := t[..|t| - 1];
      ParsedConcat(s, init);
      assert (s + t)[..|s + t| - 1] == s + init;
      Shift(Parsed(s), Pow10(|init|), Parsed(init), ValueOf(t[|t| - 1]));
    }
  }

  lemma Shift(a: nat, p: nat, b: nat, d: nat)
    ensures (a * p + b) * 10 + d == a * (10 * p) + (b * 10 + d)
  {
  }

  lemma {:induction false} ParsedZeros(n: nat)
    ensures Parsed(Zeros(n)) == 0
  {
    if n > 0 {
      ParsedZeros(n - 1);
      ParsedConcat("0", Zeros(n - 1));
      assert Parsed("0") == 0 by { assert "0"[..0] == ""; }
    }
  }

  // ---------------------------------------------------------------------------
  // What the conversions mean
  // ---------------------------------------------------------------------------

  lemma {:induction false} PointAt(i: string, f: string)
    requires AllDigits(i)
    ensures Point(i + "." + f) == |i|
    decreases |i|
  {
    var s := i + "." + f;
    if i != "" {
      assert s[0] == i[0];
      assert s[1..] == i[1..] + "." + f;
      PointAt(i[1..], f);
    }
  }

  lemma PartsOf(i: string, f: string)
    requires AllDigits(i)
    ensures IntPart(i + "." + f) == i && FractionPart(i + "." + f) == f
  {
    PointAt(i, f);
  }

  lemma Padded(f: string, k: nat)
    requires AllDigits(f)
    ensures AllDigits(f + Zeros(k)) && Parsed(f + Zeros(k)) == Parsed(f) * Pow10(k)
  {
    ParsedConcat(f, Zeros(k));
    ParsedZeros(k);
  }

  /** `makeBN` of `i.f` is its value times ten to the precision: `i * 10^p + f * 10^(p - |f|)`. */
  lemma MakeBNValue(i: string, f: string, precision: nat)
    requires AllDigits(i) && AllDigits(f) && i + f != ""
    ensures
      MakeBN(i + "." + f, precision) ==
        if |f| > precision then None
        else Some(Parsed(i) * Pow10(precision) + Parsed(f) * Pow10(precision - |f|))
  {
    PartsOf(i, f);
    if |f| <= precision {
      var z := Zeros(precision - |f|);
      Padded(f, precision - |f|);
      ParsedConcat(i, f + z);
      assert i + f + z == i + (f + z);
    }
  }

  lemma {:induction false} NoPoint(i: string)
    requires AllDigits(i)
    ensures Point(i) == |i| && IntPart(i) == i && FractionPart(i) == ""
  {
    if i != "" {
      NoPoint(i[1..]);
    }
  }

  /** Without a point the number itself is shifted. */
  lemma MakeBNWhole(i: string, precision: nat)
    requires AllDigits(i) && i != ""
    ensures MakeBN(i, precision) == Some(Parsed(i) * Pow10(precision))
  {
    NoPoint(i);
    Padded(i, precision);
    assert i + "" == i;
  }

  /** Digits, or digits around one point, with a fraction that fits. */
  ghost predicate Decimal(s: string, i: string, f: string, precision: nat) {
    && AllDigits(i) && AllDigits(f) && i + f != "" && |f| <= precision
    && (s == i + "." + f || (s == i && f == ""))
  }

  lemma DecimalAccepted(s: string, i: string, f: string, precision: nat)
    requires Decimal(s, i, f, precision)
    ensures MakeBN(s, precision).Some?
  {
    if s == i + "." + f {
      MakeBNValue(i, f, precision);
    } else {
      MakeBNWhole(i, precision);
    }
  }

  lemma AtPoint(s: string)
    ensures s == IntPart(s) + "." + FractionPart(s) || (s == IntPart(s) && FractionPart(s) == "")
  {
    var k := Point(s);
    if k < |s| {
      assert s == s[..k] + [s[k]] + s[k + 1..];
    }
  }

  lemma MakeBNRefusedIff(s: string, precision: nat)
    ensures MakeBN(s, precision).None? <==> !exists i, f :: Decimal(s, i, f, precision)
  {
    if i, f :| Decimal(s, i, f, precision) {
      DecimalAccepted(s, i, f, precision);
    } else if MakeBN(s, precision).Some? {
      AtPoint(s);
      assert Decimal(s, IntPart(s), FractionPart(s), precision);
    }
  }

  lemma ZeroParsed()
    ensures AllDigits("0") && Parsed("0") == 0
  {
    ParsedZeros(1);
    assert Zeros(1) == "0" + Zeros(0) == "0";
  }

  lemma PaddedParsed(s: string, k: nat)
    requires AllDigits(s)
    ensures AllDigits("0" + (Zeros(k) + s)) && Parsed("0" + (Zeros(k) + s)) == Parsed(s)
  {
    ZeroParsed();
    ParsedConcat("0", Zeros(k) + s);
    ParsedConcat(Zeros(k), s);
    ParsedZeros(k);
  }

  lemma PaddedDecimal(n: nat, digits: nat)
    requires |Printed(n)| <= digits
    ensures MakeDecimal(n, digits) == "0" + "." + (Zeros(digits - |Printed(n)|) + Printed(n))
  {
  }

  /** The parts that `makeDecimal` joins: all digits in the right places, unless there are no decimals. */
  lemma DecimalParts(n: nat, digits: nat) returns (i: string, f: string)
    ensures AllDigits(i) && AllDigits(f) && i != "" && MakeDecimal(n, digits) == i + "." + f
    ensures if digits == 0 then f != "" else |f| == digits && Parsed(i + f) == n
  {
    var s := Printed(n);
    ParsedPrinted(n);
    if |s| <= digits {
      i, f := "0", Zeros(digits - |s|) + s;
      PaddedParsed(s, digits - |s|);
      PaddedDecimal(n, digits);
    } else {
      i, f := s[..|s| - digits], LastChars(s, digits);
      assert digits > 0 ==> i + f == s;
    }
  }

  lemma WholeParsed(i: string, f: string)
    requires AllDigits(i) && AllDigits(f)
    ensures Parsed(i) * Pow10(|f|) + Parsed(f) * Pow10(0) == Parsed(i + f)
  {
    ParsedConcat(i, f);
    var x := Parsed(f);
    assert Pow10(0) == 1;
    assert x * Pow10(0) == x;
  }

  /** Printing with a point and parsing it back returns the number, for any digits but zero. */
  lemma RoundTripIff(n: nat, digits: nat)
    ensures MakeBN(MakeDecimal(n, digits), digits) == Some(n) <==> digits >= 1
  {
    var i, f := DecimalParts(n, digits);
    MakeBNValue(i, f, digits);
    WholeParsed(i, f);
  }
}
