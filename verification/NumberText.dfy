/** How ECMAScript prints a Number (ECMA-262, section 6.1.6.1.20, Number::toString with radix 10),
    on the decimal digits that section chooses for it, and a reader that gets the number back. */
module NumberText {
  import opened Sequences
  import opened JsText

  predicate IsDigit(c: char) {
    '0' <= c <= '9'
  }

  predicate AllDigits(s: string) {
    forall i :: 0 <= i < |s| ==> IsDigit(s[i])
  }

  /** `Finite(negative, digits, n)` is 0.digits * 10 ** n, with the shortest digits: no leading and no
      trailing zero. Both zeros print alike and are one value here. */
  datatype RawNumber =
    | NotANumber
    | Infinite(negative: bool)
    | Zero
    | Finite(negative: bool, digits: string, n: int)
  {
    predicate Canonical() {
      Finite? ==> CanonicalDigits(digits)
    }
  }

  predicate CanonicalDigits(digits: string) {
    digits != "" && AllDigits(digits) && digits[0] != '0' && digits[|digits| - 1] != '0'
  }

  type Number = x: RawNumber | x.Canonical() witness Zero

  function Zeros(count: nat): (s: string)
    ensures |s| == count && forall i :: 0 <= i < count ==> s[i] == '0'
  {
    if count == 0 then "" else "0" + Zeros(count - 1)
  }

  function DigitOf(d: nat): (c: char)
    requires d < 10
    ensures IsDigit(c) && c as int - '0' as int == d
  {
    '0' + d as char
  }

  function NatText(v: nat): (s: string)
    ensures s != "" && AllDigits(s)
  {
    if v < 10 then [DigitOf(v)] else NatText(v / 10) + [DigitOf(v % 10)]
  }

  function ReadNat(s: string): nat
    requires AllDigits(s)
  {
    if s == "" then 0 else 10 * ReadNat(s[..|s| - 1]) + (s[|s| - 1] as int - '0' as int)
  }

  lemma ReadNatText(v: nat)
    ensures ReadNat(NatText(v)) == v
  {
    var s := NatText(v);
    if v >= 10 {
      ReadNatText(v / 10);
      assert s[..|s| - 1] == NatText(v / 10);
    } else {
      assert s[..|s| - 1] == "";
    }
  }

  function ExponentText(e: int): string {
    if e < 0 then "-" + NatText(-e) else "+" + NatText(e)
  }

  function PrintPositive(digits: string, n: int): string
    requires CanonicalDigits(digits)
  {
    var k := |digits|;
    if k <= n <= 21 then digits + Zeros(n - k)
    else if 0 < n <= 21 then digits[..n] + "." + digits[n..]
    else if -6 < n <= 0 then "0." + Zeros(-n) + digits
    else if k == 1 then digits + "e" + ExponentText(n - 1)
    else digits[..1] + "." + digits[1..] + "e" + ExponentText(n - 1)
  }

  function Print(x: Number): string {
    match x
    case NotANumber => "NaN"
    case Infinite(negative) => if negative then "-Infinity" else "Infinity"
    case Zero => "0"
    case Finite(negative, digits, n) => (if negative then "-" else "") + PrintPositive(digits, n)
  }

  // ----------------------------------------------------------------------------------------
  // Reading a number back
  // ----------------------------------------------------------------------------------------

  /** Leading zeros move the point, trailing zeros say nothing. */
  function Normalise(digits: string, n: int): (string, int) {
    if digits == "" then ("", n)
    else if digits[0] == '0' then Normalise(digits[1..], n - 1)
    else if digits[|digits| - 1] == '0' then Normalise(digits[..|digits| - 1], n)
    else (digits, n)
  }

  lemma NormalisePadded(leading: nat, digits: string, trailing: nat, n: int, point: int)
    requires CanonicalDigits(digits) && point == n - leading
    ensures Normalise(Zeros(leading) + digits + Zeros(trailing), n) == (digits, point)
    decreases leading + trailing
  {
    var s := Zeros(leading) + digits + Zeros(trailing);
    if leading > 0 {
      assert s[1..] == Zeros(leading - 1) + digits + Zeros(trailing);
      NormalisePadded(leading - 1, digits, trailing, n - 1, point);
    } else if trailing > 0 {
      ZerosFromTheEnd(trailing);
      assert s[0] == digits[0];
      assert s[..|s| - 1] == Zeros(0) + digits + Zeros(trailing - 1);
      NormalisePadded(0, digits, trailing - 1, n, point);
    } else {
      assert s == digits;
    }
  }

  lemma ZerosFromTheEnd(count: nat)
    requires 0 < count
    ensures Zeros(count)[..count - 1] == Zeros(count - 1) && Zeros(count)[count - 1] == '0'
  {
  }

  function ReadExponent(s: string): int {
    if s == "" || !AllDigits(s[1..]) then 0
    else if s[0] == '-' then 0 - ReadNat(s[1..]) else ReadNat(s[1..])
  }

  function ReadMantissa(mantissa: string, shift: int): (string, int) {
    var (whole, fraction) := SplitAt('.', mantissa);
    Normalise(whole + (match fraction case None => "" case Some(text) => text), |whole| + shift)
  }

  function ReadPositive(s: string): (string, int) {
    var (mantissa, exponent) := SplitAt('e', s);
    ReadMantissa(mantissa, match exponent case None => 0 case Some(text) => ReadExponent(text))
  }

  lemma ReadExponentText(e: int)
    ensures ReadExponent(ExponentText(e)) == e
  {
    ReadNatText(if e < 0 then -e else e);
    assert ExponentText(e)[1..] == NatText(if e < 0 then -e else e);
  }

  lemma DigitsHoldNo(c: char, s: string)
    requires AllDigits(s) && !IsDigit(c)
    ensures c !in s
  {
  }

  lemma MantissaWhole(whole: string, shift: int, n: int)
    requires AllDigits(whole) && n == |whole| + shift
    ensures ReadMantissa(whole, shift) == Normalise(whole, n)
  {
    DigitsHoldNo('.', whole);
    SplitAtWhole('.', whole);
    assert whole + "" == whole;
  }

  lemma MantissaWithPoint(whole: string, fraction: string, shift: int, n: int)
    requires AllDigits(whole) && AllDigits(fraction) && n == |whole| + shift
    ensures ReadMantissa(whole + "." + fraction, shift) == Normalise(whole + fraction, n)
    ensures 'e' !in whole + "." + fraction
  {
    DigitsHoldNo('.', whole);
    SplitAtJoined('.', whole, fraction);
  }

  lemma ReadWithoutExponent(mantissa: string)
    requires 'e' !in mantissa
    ensures ReadPositive(mantissa) == ReadMantissa(mantissa, 0)
  {
    SplitAtWhole('e', mantissa);
  }

  lemma ReadWithExponent(mantissa: string, e: int)
    requires 'e' !in mantissa
    ensures ReadPositive(mantissa + "e" + ExponentText(e)) == ReadMantissa(mantissa, e)
  {
    var text := ExponentText(e);
    SplitAtJoined('e', mantissa, text);
    ReadExponentText(e);
    assert SplitAt('e', mantissa + "e" + text) == (mantissa, Some(text));
  }

  lemma NormaliseCanonical(digits: string, n: int)
    requires CanonicalDigits(digits)
    ensures Normalise(digits, n) == (digits, n)
  {
  }

  lemma PadRight(digits: string, trailing: nat)
    requires AllDigits(digits)
    ensures AllDigits(digits + Zeros(trailing))
    ensures Zeros(0) + digits + Zeros(trailing) == digits + Zeros(trailing)
  {
  }

  lemma PadLeft(leading: nat, digits: string)
    ensures Zeros(leading + 1) + digits + Zeros(0) == "0" + (Zeros(leading) + digits)
    ensures "0." + Zeros(leading) + digits == "0" + "." + (Zeros(leading) + digits)
  {
  }

  lemma {:induction false} ReadPlain(digits: string, n: int)
    requires CanonicalDigits(digits) && |digits| <= n
    ensures ReadPositive(digits + Zeros(n - |digits|)) == (digits, n)
  {
    PadRight(digits, n - |digits|);
    ReadDigits(digits + Zeros(n - |digits|));
    NormalisePadded(0, digits, n - |digits|, |digits + Zeros(n - |digits|)|, n);
  }

  lemma ReadDigits(whole: string)
    requires AllDigits(whole)
    ensures ReadPositive(whole) == Normalise(whole, |whole|)
  {
    DigitsHoldNo('e', whole);
    ReadWithoutExponent(whole);
    MantissaWhole(whole, 0, |whole|);
  }

  lemma {:induction false} ReadWithPoint(digits: string, n: int)
    requires CanonicalDigits(digits) && 0 < n < |digits|
    ensures ReadPositive(digits[..n] + "." + digits[n..]) == (digits, n)
  {
    MantissaWithPoint(digits[..n], digits[n..], 0, n);
    ReadWithoutExponent(digits[..n] + "." + digits[n..]);
    assert digits[..n] + digits[n..] == digits;
    NormaliseCanonical(digits, n);
  }

  lemma {:induction false} ReadSmall(digits: string, n: int)
    requires CanonicalDigits(digits) && n <= 0
    ensures ReadPositive("0." + Zeros(-n) + digits) == (digits, n)
  {
    PadLeft(-n, digits);
    MantissaWithPoint("0", Zeros(-n) + digits, 0, 1);
    ReadWithoutExponent("0" + "." + (Zeros(-n) + digits));
    NormalisePadded(-n + 1, digits, 0, 1, n);
  }

  lemma {:induction false} ReadOneDigit(digits: string, n: int)
    requires CanonicalDigits(digits) && |digits| == 1
    ensures ReadPositive(digits + "e" + ExponentText(n - 1)) == (digits, n)
  {
    DigitsHoldNo('e', digits);
    ReadWithExponent(digits, n - 1);
    MantissaWhole(digits, n - 1, n);
    NormaliseCanonical(digits, n);
  }

  lemma {:induction false} ReadScientific(digits: string, n: int)
    requires CanonicalDigits(digits)
    ensures ReadPositive(digits[..1] + "." + digits[1..] + "e" + ExponentText(n - 1)) == (digits, n)
  {
    MantissaWithPoint(digits[..1], digits[1..], n - 1, n);
    ReadWithExponent(digits[..1] + "." + digits[1..], n - 1);
    assert digits[..1] + digits[1..] == digits;
    NormaliseCanonical(digits, n);
  }

  /** Whatever notation the printer picks, reading it gives back the digits and the exponent. */
  lemma ReadPrintPositive(digits: string, n: int)
    requires CanonicalDigits(digits)
    ensures ReadPositive(PrintPositive(digits, n)) == (digits, n)
  {
    if |digits| <= n <= 21 {
      ReadPlain(digits, n);
    } else if 0 < n <= 21 {
      ReadWithPoint(digits, n);
    } else if -6 < n <= 0 {
      ReadSmall(digits, n);
    } else if |digits| == 1 {
      ReadOneDigit(digits, n);
    } else {
      ReadScientific(digits, n);
    }
  }

  /** A positive number starts with a digit, and is never the text of zero. */
  lemma PositiveStartsWithDigit(digits: string, n: int)
    requires CanonicalDigits(digits)
    ensures PrintPositive(digits, n) != "" && IsDigit(PrintPositive(digits, n)[0])
    ensures PrintPositive(digits, n) != "0"
  {
    ReadPrintPositive(digits, n);
    if PrintPositive(digits, n) == "0" {
      ReadDigits("0");
    }
  }

  /** The first character tells the sign, the first one after it whether the number is finite. */
  lemma FiniteText(x: Number)
    requires x.Finite?
    ensures var s := PrintPositive(x.digits, x.n);
      && s != "" && IsDigit(s[0])
      && Print(x) == (if x.negative then "-" else "") + s
      && (x.negative ==> Print(x)[0] == '-' && Print(x)[1..] == s)
      && (!x.negative ==> Print(x) == s)
      && Print(x) != "0"
  {
    PositiveStartsWithDigit(x.digits, x.n);
    var s := PrintPositive(x.digits, x.n);
    assert "" + s == s;
    assert ("-" + s)[1..] == s;
  }

  lemma {:induction false} FinitePrintsApart(x: Number, y: Number)
    requires x.Finite? && !y.Finite?
    ensures Print(x) != Print(y)
  {
    FiniteText(x);
    if y == Infinite(true) && x.negative {
      assert Print(y)[1..][0] == 'I';
    }
  }

  /** No two numbers print alike. */
  lemma PrintIsInjective(x: Number, y: Number)
    ensures Print(x) == Print(y) <==> x == y
  {
    if x.Finite? && y.Finite? {
      FiniteText(x);
      FiniteText(y);
      ReadPrintPositive(x.digits, x.n);
      ReadPrintPositive(y.digits, y.n);
    } else if x.Finite? {
      FinitePrintsApart(x, y);
    } else if y.Finite? {
      FinitePrintsApart(y, x);
    } else {
      assert "NaN"[0] == 'N' && "Infinity"[0] == 'I' && "-Infinity"[0] == '-' && "0"[0] == '0';
    }
  }

  predicate NumberChar(c: char) {
    IsDigit(c) || c == '.' || c == 'e' || c == '+' || c == '-'
  }

  lemma {:induction false} PositiveChars(digits: string, n: int)
    requires CanonicalDigits(digits)
    ensures forall i :: 0 <= i < |PrintPositive(digits, n)| ==> NumberChar(PrintPositive(digits, n)[i])
  {
    var exponent := ExponentText(n - 1);
    assert forall i :: 0 <= i < |exponent| ==> NumberChar(exponent[i]);
  }

  /** Printed numbers are never empty and hold no separator. */
  lemma PrintHoldsNoSeparator(x: Number)
    ensures Print(x) != "" && ':' !in Print(x) && '|' !in Print(x)
  {
    match x
    case Finite(negative, digits, n) =>
      PositiveStartsWithDigit(digits, n);
      PositiveChars(digits, n);
    case _ =>
  }

  lemma PrintIsPlain(x: Number, c: char)
    requires x.Finite? && !NumberChar(c)
    ensures c !in Print(x)
  {
    PositiveChars(x.digits, x.n);
  }

  /** The notations at their borders: plain up to 21 digits in front of the point and five zeros behind
      it, scientific beyond. */
  lemma PlainNumbers()
    ensures Print(Finite(false, "25", 5)) == "25000" && Print(Finite(true, "125", 2)) == "-12.5"
    ensures Print(Finite(false, "1", 21)) == "100000000000000000000"
    ensures Print(Finite(false, "1", -5)) == "0.000001" && Print(Zero) == "0"
  {
    ZerosAre();
    assert "1" + Zeros(20) == "100000000000000000000";
  }

  lemma SmallNumbers()
    ensures Print(Finite(false, "1", -6)) == "1e-7"
  {
    assert ExponentText(-7) == "-" + NatText(7) == "-7";
  }

  lemma LargeNumbers()
    ensures Print(Finite(false, "1", 22)) == "1e+21" && Print(Finite(false, "12", 22)) == "1.2e+21"
  {
    assert NatText(21) == NatText(2) + NatText(1) == "21";
    assert ExponentText(21) == "+21";
  }

  lemma ZerosAre()
    ensures Zeros(3) == "000" && Zeros(5) == "00000" && Zeros(20) == "00000000000000000000"
  {
    assert |"00000000000000000000"| == 20;
  }
}
