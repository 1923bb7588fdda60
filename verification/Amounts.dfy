/**
 Token amounts (wallet-frontend/lib/utils.ts): raw integer units and their decimal display with
 six places. JavaScript's `BigInt` conversion is spelled out, because its failures reach the result.
 */
module Amounts {
  import opened Results
  import opened Numerals
  import opened GoStrings

  const DECIMALS: nat := 6
  const UNIT: nat := 1_000_000

  // ---- JavaScript primitives ----

  predicate IsSpace(c: char) {
    var n := c as int;
    9 <= n <= 13 || 0x2000 <= n <= 0x200A
    || n in {0x20, 0xA0, 0x1680, 0x2028, 0x2029, 0x202F, 0x205F, 0x3000, 0xFEFF}
  }

  function Trim(s: string): string {
    if |s| > 0 && IsSpace(s[0]) then Trim(s[1..])
    else if |s| > 0 && IsSpace(s[|s| - 1]) then Trim(s[..|s| - 1])
    else s
  }

  predicate IsDecimal(s: string) {
    s != "" && IsNumeral(s, 10, '0')
  }

  function HexDigit(c: char): int {
    if '0' <= c <= '9' then c as int - '0' as int
    else if 'a' <= c <= 'f' then c as int - 'a' as int + 10
    else if 'A' <= c <= 'F' then c as int - 'A' as int + 10
    else 16
  }

  function Radix(c: char): nat {
    if c == 'x' || c == 'X' then 16 else if c == 'o' || c == 'O' then 8 else if c == 'b' || c == 'B' then 2 else 0
  }

  function ParseDigits(s: string, base: nat): Option<int> {
    if s == "" then Some(0)
    else
      var init := ParseDigits(s[..|s| - 1], base);
      var d := HexDigit(s[|s| - 1]);
      if init.None? || d >= base then None else Some(init.value * base + d)
  }

  /** `BigInt(text)`: none stands for the SyntaxError it throws. */
  function BigInt(text: string): Option<int> {
    var s := Trim(text);
    if s == "" then Some(0)
    else if |s| > 1 && s[0] == '-' then Negated(ParseDigits(s[1..], 10))
    else if |s| > 1 && s[0] == '+' then ParseDigits(s[1..], 10)
    else if |s| > 2 && s[0] == '0' && Radix(s[1]) > 0 then ParseDigits(s[2..], Radix(s[1]))
    else ParseDigits(s, 10)
  }

  function Negated(n: Option<int>): Option<int> {
    if n.None? then None else Some(0 - n.value)
  }

  function ToString(n: int): string {
    if n < 0 then "-" + Decimal(-n) else Decimal(n)
  }

  /** BigInt division and remainder truncate toward zero. */
  function Quotient(n: int, d: nat): int
    requires d > 0
  {
    if n < 0 then -(-n / d) else n / d
  }

  function Remainder(n: int, d: nat): int
    requires d > 0
  {
    if n < 0 then -(-n % d) else n % d
  }

  function ZeroDigits(n: nat): string {
    seq(n, _ => '0')
  }

  function PadStart(s: string, n: nat): string {
    if |s| < n then ZeroDigits(n - |s|) + s else s
  }

  function PadEnd(s: string, n: nat): string {
    if |s| < n then s + ZeroDigits(n - |s|) else s
  }

  /** `replace(/0+$/, '')`. */
  function TrimTrailing(s: string): string {
    if s != "" && s[|s| - 1] == '0' then TrimTrailing(s[..|s| - 1]) else s
  }

  /** `t` is `s` without its trailing zeros. */
  ghost predicate IsTrimmed(t: string, s: string) {
    t <= s && (forall i | |t| <= i < |s| :: s[i] == '0') && (t != "" ==> t[|t| - 1] != '0')
  }

  lemma {:induction false} TrimTrailingMeaning(s: string)
    ensures IsTrimmed(TrimTrailing(s), s)
  {
    if s != "" && s[|s| - 1] == '0' {
      TrimTrailingMeaning(s[..|s| - 1]);
    }
  }

  lemma TrimmedUnique(a: string, b: string, s: string)
    requires IsTrimmed(a, s) && IsTrimmed(b, s)
    ensures a == b
  {
    assert forall i | 0 <= i < |a| :: a[i] == s[i];
    assert forall i | 0 <= i < |b| :: b[i] == s[i];
  }

  // ---- the two functions ----

  function Show(whole: string, frac: string): string {
    if frac != "" then whole + "." + frac else whole
  }

  /** The six fraction characters `formatAmount` starts from. */
  function FracText(n: int): string {
    PadStart(ToString(Remainder(n, UNIT)), DECIMALS)
  }

  function FormatAmount(raw: string): string {
    var n := BigInt(raw);
    if n.None? then "0"
    else Show(ToString(Quotient(n.value, UNIT)), TrimTrailing(FracText(n.value)))
  }

  /** The first six fraction characters, filled up with zeros. */
  function SixDigits(frac: string): string {
    PadEnd(frac, DECIMALS)[..DECIMALS]
  }

  /** The number `toRawAmount` prints, or none where it gives up and answers zero. */
  function UnitsOfParts(whole: string, frac: string): Option<int> {
    var w, f := BigInt(whole), BigInt(SixDigits(frac));
    if w.None? || f.None? then None else Some(w.value * UNIT + f.value)
  }

  function Units(display: string): Option<int> {
    var parts := Split(display, '.');
    UnitsOfParts(parts[0], if |parts| > 1 then parts[1] else "")
  }

  function ToRawAmount(display: string): string {
    var n := Units(display);
    if n.None? then "0" else ToString(n.value)
  }

  // ---- numbers as text ----

  lemma {:induction false} TrimIsIdentity(s: string)
    requires s != "" ==> !IsSpace(s[0]) && !IsSpace(s[|s| - 1])
    ensures Trim(s) == s
  {}

  lemma {:induction false} ParsesDecimal(s: string)
    ensures IsNumeral(s, 10, '0') ==> ParseDigits(s, 10) == Some(Value(s, 10, '0'))
    ensures !IsNumeral(s, 10, '0') ==> ParseDigits(s, 10) == None
  {
    if s != "" {
      var init := s[..|s| - 1];
      assert s == init + [s[|s| - 1]];
      ParsesDecimal(init);
      assert IsNumeral(s, 10, '0') <==> IsNumeral(init, 10, '0') && 0 <= DigitOf(s[|s| - 1], '0') < 10;
    }
  }

  lemma PlainReads(s: string)
    requires IsDecimal(s)
    ensures BigInt(s) == Some(Value(s, 10, '0'))
  {
    ParsesDecimal(s);
    assert 0 <= DigitOf(s[0], '0') < 10 && 0 <= DigitOf(s[|s| - 1], '0') < 10;
    assert |s| > 1 ==> 0 <= DigitOf(s[1], '0') < 10;
    TrimIsIdentity(s);
  }

  lemma SignedReads(s: string)
    requires IsDecimal(s)
    ensures BigInt("-" + s) == Some(0 - Value(s, 10, '0'))
  {
    ParsesDecimal(s);
    assert 0 <= DigitOf(s[|s| - 1], '0') < 10;
    var t := "-" + s;
    assert t[1..] == s && t[|t| - 1] == s[|s| - 1];
    TrimIsIdentity(t);
  }

  lemma DecimalReads(s: string)
    requires IsDecimal(s)
    ensures BigInt(s) == Some(Value(s, 10, '0')) && BigInt("-" + s) == Some(0 - Value(s, 10, '0'))
  {
    PlainReads(s);
    SignedReads(s);
  }

  lemma NoPoint(s: string)
    requires IsNumeral(s, 10, '0')
    ensures '.' !in s && '.' !in "-" + s
  {}

  lemma BigIntOfToString(n: int)
    ensures BigInt(ToString(n)) == Some(n) && '.' !in ToString(n)
  {
    var m := if n < 0 then -n else n;
    ValueOfDecimal(m);
    DecimalReads(Decimal(m));
    NoPoint(Decimal(m));
  }

  lemma ToStringInjective(m: int, n: int)
    requires ToString(m) == ToString(n)
    ensures m == n
  {
    BigIntOfToString(m);
    BigIntOfToString(n);
  }

  predicate AllSpace(s: string) {
    forall i | 0 <= i < |s| :: IsSpace(s[i])
  }

  lemma {:induction false} TrimSpaceBefore(p: string, s: string)
    requires AllSpace(p)
    ensures Trim(p + s) == Trim(s)
  {
    if |p| == 0 {
      assert p + s == s;
    } else {
      assert (p + s)[1..] == p[1..] + s;
      TrimSpaceBefore(p[1..], s);
    }
  }

  lemma {:induction false} TrimOneAfter(s: string, c: char)
    requires IsSpace(c)
    ensures Trim(s + [c]) == Trim(s)
  {
    var t := s + [c];
    if |s| > 0 && IsSpace(s[0]) {
      assert t[1..] == s[1..] + [c];
      TrimOneAfter(s[1..], c);
    } else if |s| > 0 {
      assert t[..|t| - 1] == s;
    } else {
      assert t[1..] == s;
    }
  }

  lemma {:induction false} TrimSpaceAfter(s: string, q: string)
    requires AllSpace(q)
    ensures Trim(s + q) == Trim(s)
  {
    if |q| == 0 {
      assert s + q == s;
    } else {
      var init := q[..|q| - 1];
      TrimOneAfter(s + init, q[|q| - 1]);
      TrimSpaceAfter(s, init);
      assert (s + init) + [q[|q| - 1]] == s + q;
    }
  }

  /** White space around a number does not matter; blank text is zero. */
  lemma SpaceIsIgnored(p: string, s: string, q: string)
    requires AllSpace(p) && AllSpace(q)
    ensures BigInt(p + (s + q)) == BigInt(s) && BigInt(p) == Some(0)
  {
    TrimSpaceBefore(p, s + q);
    TrimSpaceAfter(s, q);
    TrimSpaceBefore(p, "");
    assert p + "" == p;
  }

  /** Only the first two parts of a display count. */
  lemma FurtherPartsIgnored(whole: string, frac: string, rest: string)
    requires '.' !in whole && '.' !in frac
    ensures ToRawAmount(whole + ['.'] + (frac + ['.'] + rest)) == ToRawAmount(whole + ['.'] + frac)
  {
    SplitToken(whole, '.');
    SplitToken(frac, '.');
    SplitConcat(whole, frac, '.');
    SplitConcat(whole, frac + ['.'] + rest, '.');
    SplitConcat(frac, rest, '.');
  }

  lemma ParsesTwo(a: char, b: char, base: nat)
    requires HexDigit(a) < base && HexDigit(b) < base
    ensures ParseDigits([a, b], base) == Some(HexDigit(a) * base + HexDigit(b))
  {
    assert [a, b][..1] == [a] && [a][..0] == "";
    assert ParseDigits([a], base) == Some(0 * base + HexDigit(a));
  }

  lemma PrefixedReads(c: char, a: char, b: char)
    requires Radix(c) > 0 && HexDigit(a) < Radix(c) && HexDigit(b) < Radix(c)
    ensures BigInt(['0', c, a, b]) == Some(HexDigit(a) * Radix(c) + HexDigit(b))
  {
    var s := ['0', c, a, b];
    TrimIsIdentity(s);
    ParsesTwo(a, b, Radix(c));
    assert s[2..] == [a, b];
  }

  /** Prefixes select the base. */
  lemma PrefixExamples()
    ensures BigInt("0x1f") == Some(31) && BigInt("0X1F") == Some(31)
    ensures BigInt("0o17") == Some(15) && BigInt("0b10") == Some(2)
  {
    PrefixedReads('x', '1', 'f');
    PrefixedReads('X', '1', 'F');
    PrefixedReads('o', '1', '7');
    PrefixedReads('b', '1', '0');
  }

  /** Text that is no number is shown as zero, and read as zero. */
  lemma UnreadableIsZero(text: string)
    requires BigInt(text) == None
    ensures FormatAmount(text) == "0" && ('.' !in text ==> ToRawAmount(text) == "0")
  {
    SplitToken(if '.' !in text then text else "", '.');
  }

  // ---- reading a display back ----

  /** A display is read by its two parts. */
  lemma UnitsOfShow(whole: string, frac: string)
    requires '.' !in whole && '.' !in frac
    ensures Units(Show(whole, frac)) == UnitsOfParts(whole, frac)
  {
    SplitToken(whole, '.');
    if frac != "" {
      SplitConcat(whole, frac, '.');
      SplitToken(frac, '.');
      assert whole + "." + frac == whole + ['.'] + frac;
    }
  }

  lemma ReadableParts(whole: string, frac: string, w: int, f: Option<int>)
    requires BigInt(whole) == Some(w) && BigInt(SixDigits(frac)) == f
    ensures UnitsOfParts(whole, frac) == if f.None? then None else Some(w * UNIT + f.value)
  {}

  /** Dropping trailing zeros and padding again restores the first characters. */
  lemma PadOfTrimmed(s: string, n: nat)
    requires n <= |s|
    ensures PadEnd(TrimTrailing(s), n)[..n] == s[..n]
  {
    TrimTrailingMeaning(s);
    PadRestores(TrimTrailing(s), s, n);
  }

  lemma PadRestores(t: string, s: string, n: nat)
    requires IsTrimmed(t, s) && n <= |s|
    ensures PadEnd(t, n)[..n] == s[..n]
  {
    var p := PadEnd(t, n);
    assert forall i | 0 <= i < n :: p[i] == s[i];
  }

  lemma SplitAmount(n: int)
    ensures n == Quotient(n, UNIT) * UNIT + Remainder(n, UNIT)
    ensures -(UNIT as int) < Remainder(n, UNIT) < UNIT
    ensures n >= 0 ==> Remainder(n, UNIT) >= 0
    ensures n < 0 ==> Remainder(n, UNIT) <= 0
  {}

  lemma NoPointInFraction(n: int)
    ensures |FracText(n)| >= 6 && '.' !in TrimTrailing(FracText(n))
  {
    BigIntOfToString(Remainder(n, UNIT));
    TrimTrailingMeaning(FracText(n));
    assert '.' !in FracText(n);
    assert forall c | c in TrimTrailing(FracText(n)) :: c in FracText(n);
  }

  lemma FormatOfToString(n: int)
    ensures FormatAmount(ToString(n)) == Show(ToString(Quotient(n, UNIT)), TrimTrailing(FracText(n)))
  {
    BigIntOfToString(n);
  }

  lemma ReadBackParts(n: int)
    ensures Units(FormatAmount(ToString(n)))
         == UnitsOfParts(ToString(Quotient(n, UNIT)), TrimTrailing(FracText(n)))
  {
    FormatOfToString(n);
    BigIntOfToString(Quotient(n, UNIT));
    NoPointInFraction(n);
    UnitsOfShow(ToString(Quotient(n, UNIT)), TrimTrailing(FracText(n)));
  }

  lemma SixDigitsOfTrimmed(s: string)
    requires |s| >= 6
    ensures SixDigits(TrimTrailing(s)) == s[..6]
  {
    PadOfTrimmed(s, DECIMALS);
  }

  /** Reading back what is displayed comes down to the first six fraction characters. */
  lemma ReadBack(n: int, f: Option<int>)
    requires |FracText(n)| >= 6 && BigInt(FracText(n)[..6]) == f
    ensures Units(FormatAmount(ToString(n)))
         == if f.None? then None else Some(Quotient(n, UNIT) * UNIT + f.value)
  {
    ReadBackParts(n);
    DisplayedParts(n, f);
  }

  lemma DisplayedParts(n: int, f: Option<int>)
    requires |FracText(n)| >= 6 && BigInt(FracText(n)[..6]) == f
    ensures UnitsOfParts(ToString(Quotient(n, UNIT)), TrimTrailing(FracText(n)))
         == if f.None? then None else Some(Quotient(n, UNIT) * UNIT + f.value)
  {
    WholeReads(Quotient(n, UNIT));
    TrimmedReads(FracText(n), f);
    ReadableParts(ToString(Quotient(n, UNIT)), TrimTrailing(FracText(n)), Quotient(n, UNIT), f);
  }

  lemma WholeReads(n: int)
    ensures BigInt(ToString(n)) == Some(n)
  {
    BigIntOfToString(n);
  }

  lemma TrimmedReads(s: string, f: Option<int>)
    requires |s| >= 6 && BigInt(s[..6]) == f
    ensures BigInt(SixDigits(TrimTrailing(s))) == f
  {
    SixDigitsOfTrimmed(s);
  }

  predicate ReadsBack(n: int) {
    ToRawAmount(FormatAmount(ToString(n))) == ToString(n)
  }

  /** Printed amounts agree exactly when the numbers do; giving up prints zero. */
  lemma ToRawMeans(display: string, n: int)
    ensures ToRawAmount(display) == ToString(n)
       <==> n == if Units(display).None? then 0 else Units(display).value
  {
    var m := if Units(display).None? then 0 else Units(display).value;
    assert ToString(0) == "0";
    if ToString(m) == ToString(n) {
      ToStringInjective(m, n);
    }
  }

  lemma ToRawOfUnits(display: string, m: int, n: int)
    requires Units(display) == Some(m)
    ensures ToRawAmount(display) == ToString(n) <==> m == n
  {
    ToRawMeans(display, n);
  }

  /** The round trip succeeds when the six characters read as the fraction, and only then. */
  lemma ReadsBackIff(n: int, f: Option<int>)
    requires |FracText(n)| >= 6 && BigInt(FracText(n)[..6]) == f
    ensures f.Some? ==> (ReadsBack(n) <==> f.value == Remainder(n, UNIT))
    ensures f.None? ==> (ReadsBack(n) <==> n == 0)
  {
    ReadBack(n, f);
    SplitAmount(n);
    ToRawMeans(FormatAmount(ToString(n)), n);
  }

  lemma DigitCount(r: nat, k: nat)
    requires k > 0
    ensures |Decimal(r)| <= k <==> r < Pow(10, k)
  {
    DigitsBound(r, k, 10, '0');
    PowPositive(10, k);
  }

  lemma PadStartValue(r: nat, n: nat)
    ensures IsDecimal(PadStart(Decimal(r), n)) && Value(PadStart(Decimal(r), n), 10, '0') == r
  {
    ValueOfDecimal(r);
    if |Decimal(r)| < n {
      var zeros := ZeroDigits(n - |Decimal(r)|);
      ValueOfZeros(zeros, 10, '0');
      ValueConcat(zeros, Decimal(r), 10, '0');
    }
  }

  lemma PowersOfTen()
    ensures Pow(10, 4) == 10_000 && Pow(10, 5) == 100_000 && Pow(10, 6) == UNIT
  {
    assert Pow(10, 3) == 1000;
  }

  lemma FractionIsDecimal(n: int, r: nat)
    requires Remainder(n, UNIT) == r
    ensures |FracText(n)| == 6 && IsDecimal(FracText(n)) && Value(FracText(n), 10, '0') == r
  {
    SplitAmount(n);
    PowersOfTen();
    DigitCount(r, 6);
    PadStartValue(r, 6);
  }

  lemma NonNegativeFraction(n: int)
    requires Remainder(n, UNIT) >= 0
    ensures ReadsBack(n)
  {
    var r := Remainder(n, UNIT);
    FractionIsDecimal(n, r);
    DecimalReads(FracText(n));
    assert FracText(n)[..6] == FracText(n);
    ReadsBackIff(n, Some(r));
  }

  /** A minus sign that is not first makes the fraction unreadable. */
  lemma InnerMinusFails(zeros: nat, digits: string)
    requires zeros > 0 && IsDecimal(digits)
    ensures BigInt(ZeroDigits(zeros) + "-" + digits) == None
  {
    var s := ZeroDigits(zeros) + "-" + digits;
    assert s[0] == '0' && (s[1] == '0' || s[1] == '-') && s[|s| - 1] == digits[|digits| - 1];
    TrimIsIdentity(s);
    assert s[zeros] == '-' && DigitOf('-', '0') < 0;
    ParsesDecimal(s);
  }

  /** Five fraction digits and the minus sign fill the six places exactly. */
  predicate SixPlaces(r: nat) {
    10_000 <= r < 100_000
  }

  lemma FewPlaces(n: int, r: nat)
    requires Remainder(n, UNIT) == 0 - r && 0 < r < 10_000
    ensures !ReadsBack(n)
  {
    PowersOfTen();
    DigitCount(r, 4);
    var k := 5 - |Decimal(r)|;
    assert FracText(n) == ZeroDigits(k) + "-" + Decimal(r);
    assert FracText(n)[..6] == FracText(n);
    InnerMinusFails(k, Decimal(r));
    ReadsBackIff(n, None);
  }

  lemma FiveDigitText(n: int, r: nat)
    requires Remainder(n, UNIT) == 0 - r && SixPlaces(r)
    ensures FracText(n) == "-" + Decimal(r) && |FracText(n)| == 6
  {
    PowersOfTen();
    DigitCount(r, 4);
    DigitCount(r, 5);
  }

  lemma FivePlaces(n: int, r: nat)
    requires Remainder(n, UNIT) == 0 - r && SixPlaces(r)
    ensures ReadsBack(n)
  {
    FiveDigitText(n, r);
    assert FracText(n)[..6] == FracText(n);
    ValueOfDecimal(r);
    SignedReads(Decimal(r));
    ReadsBackIff(n, Some(0 - r));
  }

  lemma ManyPlaces(n: int, r: nat)
    requires Remainder(n, UNIT) == 0 - r && r >= 100_000
    ensures !ReadsBack(n)
  {
    SplitAmount(n);
    PowersOfTen();
    DigitCount(r, 5);
    DigitCount(r, 6);
    var d := Decimal(r);
    assert FracText(n) == "-" + d;
    assert FracText(n)[..6] == "-" + d[..5];
    DecimalReads(d[..5]);
    var q := Value(d[..5], 10, '0');
    ValueOfDecimal(r);
    assert q * 10 + DigitOf(d[5], '0') == r;
    ReadsBackIff(n, Some(0 - q));
  }

  /** A displayed amount reads back as itself exactly when it is not negative, or has no
      fraction, or its fraction has exactly five significant places. */
  lemma AmountRoundTrip(n: int)
    ensures ReadsBack(n) <==> n >= 0 || -n % UNIT == 0 || SixPlaces(-n % UNIT)
  {
    SplitAmount(n);
    if n >= 0 || -n % UNIT == 0 {
      NonNegativeFraction(n);
    } else {
      NegativeFraction(n, -n % UNIT);
    }
  }

  lemma NegativeFraction(n: int, r: nat)
    requires Remainder(n, UNIT) == 0 - r && r > 0
    ensures ReadsBack(n) <==> SixPlaces(r)
  {
    if r < 10_000 {
      FewPlaces(n, r);
    } else if SixPlaces(r) {
      FivePlaces(n, r);
    } else {
      ManyPlaces(n, r);
    }
  }

  /** Minus one and a half does not read back. */
  lemma NegativeAmountExample()
    ensures !ReadsBack(-1_500_000)
  {
    ManyPlaces(-1_500_000, 500_000);
  }

  // ---- displays typed by a user ----

  lemma {:induction false} PowAdd(base: nat, a: nat, b: nat)
    ensures Pow(base, a + b) == Pow(base, a) * Pow(base, b)
  {
    if b > 0 {
      PowAdd(base, a, b - 1);
      Regroup(Pow(base, a), Pow(base, b - 1), base);
    }
  }

  lemma Regroup(a: nat, b: nat, c: nat)
    ensures a * (b * c) == (a * b) * c
  {}

  /** The floor of n * 10^-places, in millionths. */
  function UnitsFloor(n: nat, places: nat): nat {
    PowPositive(10, places);
    n * UNIT / Pow(10, places)
  }

  lemma ShortFraction(s: string, places: nat)
    requires IsNumeral(s, 10, '0') && places <= 6
    ensures UnitsFloor(Value(s, 10, '0'), places) == Value(s + ZeroDigits(6 - places), 10, '0')
  {
    var zeros := ZeroDigits(6 - places);
    ValueOfZeros(zeros, 10, '0');
    ValueConcat(s, zeros, 10, '0');
    PowAdd(10, places, 6 - places);
    PowersOfTen();
    PowPositive(10, places);
    ExactQuotient(Value(s, 10, '0'), Pow(10, places), Pow(10, 6 - places));
  }

  lemma ExactQuotient(v: nat, p: nat, q: nat)
    requires p > 0
    ensures v * (p * q) / p == v * q
  {
    assert v * (p * q) == (v * q) * p + 0;
    DivModUnique(v * q, 0, p);
  }

  lemma LongFraction(s: string, rest: string)
    requires IsNumeral(s, 10, '0') && IsNumeral(rest, 10, '0')
    ensures IsNumeral(s + rest, 10, '0') && UnitsFloor(Value(s + rest, 10, '0'), 6 + |rest|) == Value(s, 10, '0')
  {
    ValueConcat(s, rest, 10, '0');
    ValueBound(rest, 10, '0');
    PowAdd(10, 6, |rest|);
    PowersOfTen();
    FloorQuotient(Value(s, 10, '0'), Value(rest, 10, '0'), UNIT, Pow(10, |rest|));
  }

  lemma FloorQuotient(v: nat, r: nat, u: nat, p: nat)
    requires u > 0 && r < p
    ensures u * p > 0 && (v * p + r) * u / (u * p) == v
  {
    TimesMonotone(1, u, p);
    assert (v * p + r) * u == v * (u * p) + r * u;
    TimesMonotone(r + 1, p, u);
    DivModUnique(v, r * u, u * p);
  }

  lemma SixDigitsDecimal(frac: string)
    requires IsNumeral(frac, 10, '0')
    ensures IsDecimal(SixDigits(frac)) && |SixDigits(frac)| == 6 && '.' !in frac
  {}

  /** Six places, by padding or by cutting, scale the digits to units. */
  lemma SixDigitsScale(whole: string, frac: string)
    requires IsNumeral(whole, 10, '0') && IsNumeral(frac, 10, '0') && IsNumeral(whole + frac, 10, '0')
    requires IsNumeral(whole + SixDigits(frac), 10, '0')
    ensures UnitsFloor(Value(whole + frac, 10, '0'), |frac|) == Value(whole + SixDigits(frac), 10, '0')
  {
    var six := SixDigits(frac);
    if |frac| <= 6 {
      ShortFraction(whole + frac, |frac|);
      assert whole + six == (whole + frac) + ZeroDigits(6 - |frac|);
    } else {
      LongFraction(whole + six, frac[6..]);
      assert whole + frac == (whole + six) + frac[6..];
    }
  }

  lemma FloorOfDigits(whole: string, frac: string)
    requires IsNumeral(whole, 10, '0') && IsNumeral(frac, 10, '0') && IsNumeral(whole + frac, 10, '0')
    ensures IsDecimal(SixDigits(frac))
    ensures Value(whole, 10, '0') * UNIT + Value(SixDigits(frac), 10, '0')
         == UnitsFloor(Value(whole + frac, 10, '0'), |frac|)
  {
    SixDigitsDecimal(frac);
    ValueConcat(whole, SixDigits(frac), 10, '0');
    SixDigitsScale(whole, frac);
    PowersOfTen();
  }

  lemma NumeralParts(whole: string, frac: string)
    requires IsNumeral(whole + frac, 10, '0')
    ensures IsNumeral(whole, 10, '0') && IsNumeral(frac, 10, '0')
  {
    var s := whole + frac;
    assert whole == s[..|whole|] && frac == s[|whole|..];
  }

  /** The numbers the two parts of a decimal are read as, and what they add up to. */
  lemma PartsOfDigits(whole: string, frac: string, n: int) returns (w: nat, f: nat, u: nat)
    requires ParseDigits(whole + frac, 10) == Some(n)
    ensures n >= 0 && u == UnitsFloor(n, |frac|)
    ensures u == w * UNIT + f && f < UNIT
    ensures ParseDigits(whole, 10) == Some(w) && ParseDigits(SixDigits(frac), 10) == Some(f)
    ensures ParseDigits(frac, 10).Some?
  {
    ParsesDecimal(whole + frac);
    NumeralParts(whole, frac);
    FloorOfDigits(whole, frac);
    SixDigitsDecimal(frac);
    w, f := Value(whole, 10, '0'), Value(SixDigits(frac), 10, '0');
    ParsesDecimal(whole);
    ParsesDecimal(frac);
    ParsesDecimal(SixDigits(frac));
    ValueBound(SixDigits(frac), 10, '0');
    PowersOfTen();
    u := w * UNIT + f;
  }

  lemma ShowSplits(whole: string, frac: string)
    requires ParseDigits(whole, 10).Some? && ParseDigits(frac, 10).Some?
    ensures Units(Show(whole, frac)) == UnitsOfParts(whole, frac)
    ensures Units(Show("-" + whole, frac)) == UnitsOfParts("-" + whole, frac)
  {
    ParsesDecimal(whole);
    ParsesDecimal(frac);
    NoPoint(whole);
    NoPoint(frac);
    UnitsOfShow(whole, frac);
    UnitsOfShow("-" + whole, frac);
  }

  lemma ReadsDigits(s: string, n: int)
    requires ParseDigits(s, 10) == Some(n)
    ensures BigInt(s) == Some(n) && (s != "" ==> BigInt("-" + s) == Some(0 - n))
  {
    ParsesDecimal(s);
    if s != "" {
      DecimalReads(s);
    }
  }

  lemma SumOfParts(whole: string, frac: string, w: int, f: int, u: int)
    requires BigInt(whole) == Some(w) && BigInt(SixDigits(frac)) == Some(f) && u == w * UNIT + f
    ensures UnitsOfParts(whole, frac) == Some(u)
  {}

  lemma PlainParts(whole: string, frac: string, w: int, f: int, u: int)
    requires ParseDigits(whole, 10) == Some(w) && ParseDigits(SixDigits(frac), 10) == Some(f)
    requires u == w * UNIT + f
    ensures UnitsOfParts(whole, frac) == Some(u)
  {
    ReadsDigits(whole, w);
    ReadsDigits(SixDigits(frac), f);
    SumOfParts(whole, frac, w, f, u);
  }

  lemma SignedParts(whole: string, frac: string, w: int, f: int, m: int)
    requires ParseDigits(whole, 10) == Some(w) && ParseDigits(SixDigits(frac), 10) == Some(f)
    requires whole != "" && m == f - w * UNIT
    ensures UnitsOfParts("-" + whole, frac) == Some(m)
  {
    ReadsDigits(whole, w);
    ReadsDigits(SixDigits(frac), f);
    SumOfParts("-" + whole, frac, 0 - w, f, m);
  }

  lemma ToRawOfPlain(whole: string, frac: string, w: int, f: int, u: int)
    requires ParseDigits(whole, 10) == Some(w) && ParseDigits(SixDigits(frac), 10) == Some(f)
    requires ParseDigits(frac, 10).Some? && u == w * UNIT + f
    ensures ToRawAmount(Show(whole, frac)) == ToString(u)
  {
    ShowSplits(whole, frac);
    PlainParts(whole, frac, w, f, u);
    ToRawOfUnits(Show(whole, frac), u, u);
  }

  lemma ToRawOfSigned(whole: string, frac: string, w: int, f: int, m: int)
    requires ParseDigits(whole, 10) == Some(w) && ParseDigits(SixDigits(frac), 10) == Some(f)
    requires ParseDigits(frac, 10).Some? && whole != "" && m == f - w * UNIT
    ensures ToRawAmount(Show("-" + whole, frac)) == ToString(m)
  {
    ShowSplits(whole, frac);
    SignedParts(whole, frac, w, f, m);
    ToRawOfUnits(Show("-" + whole, frac), m, m);
  }

  /** Reading a decimal gives the floor of its value times a million: `n` is the number its
      digits make without the point. Either part may be missing. */
  lemma ToRawIsFloor(whole: string, frac: string, n: int)
    requires ParseDigits(whole + frac, 10) == Some(n)
    ensures n >= 0 && ToRawAmount(Show(whole, frac)) == ToString(UnitsFloor(n, |frac|))
  {
    var w, f, u := PartsOfDigits(whole, frac, n);
    ToRawOfPlain(whole, frac, w, f, u);
  }

  /** The whole part without redundant zeros. */
  function CanonicalWhole(whole: string): string {
    if TrimZeros(whole, '0') == "" then "0" else TrimZeros(whole, '0')
  }

  /** Showing what was read drops exactly the places past the sixth, trailing zeros of the
      fraction and leading zeros of the whole part. */
  lemma ShowOfRead(whole: string, frac: string, n: int)
    requires ParseDigits(whole + frac, 10) == Some(n)
    ensures FormatAmount(ToRawAmount(Show(whole, frac)))
         == Show(CanonicalWhole(whole), TrimTrailing(if |frac| < 6 then frac else frac[..6]))
  {
    ToRawIsFloor(whole, frac, n);
    FormatOfToString(UnitsFloor(n, |frac|));
    CanonicalParts(whole, frac, n);
  }

  lemma CanonicalParts(whole: string, frac: string, n: int)
    requires ParseDigits(whole + frac, 10) == Some(n) && n >= 0
    ensures var u := UnitsFloor(n, |frac|);
            && ToString(Quotient(u, UNIT)) == CanonicalWhole(whole)
            && TrimTrailing(FracText(u)) == TrimTrailing(if |frac| < 6 then frac else frac[..6])
  {
    var w, f, u := PartsOfDigits(whole, frac, n);
    assert u / UNIT == w && u % UNIT == f;
    WholeText(whole, w);
    FractionText(SixDigits(frac), u, f);
    TrimTrailingOfSix(frac);
  }

  lemma WholeText(whole: string, w: nat)
    requires ParseDigits(whole, 10) == Some(w)
    ensures Decimal(w) == CanonicalWhole(whole)
  {
    ParsesDecimal(whole);
    DigitsOfValue(whole, 10, '0');
  }

  lemma FractionText(six: string, u: nat, f: nat)
    requires |six| == 6 && ParseDigits(six, 10) == Some(f) && u % UNIT == f
    ensures FracText(u) == six
  {
    ParsesDecimal(six);
    FractionIsDecimal(u, f);
    ValueInjective(FracText(u), six, 10, '0');
  }

  lemma TrimTrailingOfSix(frac: string)
    ensures TrimTrailing(SixDigits(frac)) == TrimTrailing(if |frac| < 6 then frac else frac[..6])
  {
    if |frac| < 6 {
      var t := TrimTrailing(frac);
      TrimTrailingMeaning(frac);
      TrimTrailingMeaning(SixDigits(frac));
      assert SixDigits(frac) == frac + ZeroDigits(6 - |frac|);
      assert IsTrimmed(t, SixDigits(frac));
      TrimmedUnique(TrimTrailing(SixDigits(frac)), t, SixDigits(frac));
    }
  }

  lemma SamePrint(m: int, n: int)
    ensures ToString(m) == ToString(n) <==> m == n
  {
    if ToString(m) == ToString(n) {
      ToStringInjective(m, n);
    }
  }

  /** A sign is applied to the whole part only: a negative display reads as minus the whole part
      plus the fraction (`m`). That is its value truncated to six places (`v`) exactly when those
      places are zeros. */
  lemma NegativeDisplay(whole: string, frac: string, w: nat, f: nat, m: int, v: int)
    requires whole != "" && ParseDigits(whole, 10) == Some(w) && ParseDigits(frac, 10).Some?
    requires ParseDigits(SixDigits(frac), 10) == Some(f)
    requires m == f - w * UNIT && v == 0 - (w * UNIT + f)
    ensures ToRawAmount(Show("-" + whole, frac)) == ToString(m)
    ensures ToRawAmount(Show("-" + whole, frac)) == ToString(v) <==> f == 0
  {
    ToRawOfSigned(whole, frac, w, f, m);
    SamePrint(m, v);
  }
}
