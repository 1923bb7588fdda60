/**
 Positional numerals, written most significant digit first.

 One pair of functions serves both number systems of the program: base 256 with
 zero digit '\0' is what `big.Int.SetBytes` and `big.Int.Bytes` compute, base 10
 with zero digit '0' is what `%d` prints and `BigInt` reads.
 */
module Numerals {

  function DigitOf(c: char, zero: char): int {
    c as int - zero as int
  }

  predicate IsNumeral(s: string, base: nat, zero: char) {
    forall i | 0 <= i < |s| :: 0 <= DigitOf(s[i], zero) < base
  }

  /** The number a digit string denotes; leading zero digits are allowed. */
  function Value(s: string, base: nat, zero: char): (n: nat)
    requires IsNumeral(s, base, zero)
  {
    if |s| == 0 then 0
    else Value(s[..|s| - 1], base, zero) * base + DigitOf(s[|s| - 1], zero)
  }

  /** A base and zero digit whose digits are all characters. */
  predicate ValidBase(base: nat, zero: char) {
    2 <= base && zero as int + base <= 0xD800
  }

  /** The shortest digit string of a number; the empty string for zero. */
  function Digits(n: nat, base: nat, zero: char): (s: string)
    requires ValidBase(base, zero)
    ensures IsNumeral(s, base, zero)
    ensures |s| > 0 ==> s[0] != zero
    ensures |s| == 0 <==> n == 0
    decreases n
  {
    if n == 0 then ""
    else
      QuotientShrinks(n, base);
      Digits(n / base, base, zero) + [(n % base + zero as int) as char]
  }

  function Pow(base: nat, e: nat): nat {
    if e == 0 then 1 else Pow(base, e - 1) * base
  }

  /** The string without its leading zero digits. */
  function TrimZeros(s: string, zero: char): (t: string)
    ensures |t| <= |s|
  {
    if |s| > 0 && s[0] == zero then TrimZeros(s[1..], zero) else s
  }

  lemma QuotientShrinks(n: nat, base: nat)
    requires 2 <= base && n > 0
    ensures n / base < n
  {
    var q := n / base;
    assert n == q * base + n % base;
    TimesMonotone(2, base, q);
  }

  lemma TimesMonotone(a: nat, b: nat, k: nat)
    requires a <= b
    ensures a * k <= b * k
    ensures k * a <= k * b
  {}

  lemma DivisionIdentity(n: nat, base: nat)
    requires base > 0
    ensures n == n / base * base + n % base
  {}

  lemma BelowNextPower(v: nat, d: nat, p: nat, base: nat)
    requires v < p && d < base
    ensures v * base + d < p * base
  {
    TimesMonotone(v + 1, p, base);
  }

  lemma DivisionUnique(q: nat, r: nat, q': nat, r': nat, base: nat)
    requires r < base && r' < base && q * base + r == q' * base + r'
    ensures q == q' && r == r'
  {
    if q < q' {
      TimesMonotone(q + 1, q', base);
    } else if q' < q {
      TimesMonotone(q' + 1, q, base);
    }
  }

  lemma DivModUnique(q: nat, r: nat, base: nat)
    requires r < base
    ensures (q * base + r) / base == q && (q * base + r) % base == r
  {
    var n := q * base + r;
    DivisionUnique(q, r, n / base, n % base, base);
  }

  lemma ValueSnoc(s: string, c: char, base: nat, zero: char)
    requires IsNumeral(s, base, zero) && 0 <= DigitOf(c, zero) < base
    ensures IsNumeral(s + [c], base, zero)
    ensures Value(s + [c], base, zero) == Value(s, base, zero) * base + DigitOf(c, zero)
  {
    assert (s + [c])[..|s|] == s;
  }

  lemma {:induction false} ValueOfDigits(n: nat, base: nat, zero: char)
    requires ValidBase(base, zero)
    ensures Value(Digits(n, base, zero), base, zero) == n
    decreases n
  {
    if n > 0 {
      QuotientShrinks(n, base);
      ValueOfDigits(n / base, base, zero);
      DivisionIdentity(n, base);
      ValueSnoc(Digits(n / base, base, zero), (n % base + zero as int) as char, base, zero);
    }
  }

  lemma DigitsSnoc(n: nat, c: char, base: nat, zero: char)
    requires ValidBase(base, zero) && 0 <= DigitOf(c, zero) < base
    ensures Digits(n * base + DigitOf(c, zero), base, zero)
         == if n == 0 && c == zero then "" else Digits(n, base, zero) + [c]
  {
    var d := DigitOf(c, zero);
    var m := n * base + d;
    DivModUnique(n, d, base);
    if n > 0 {
      TimesMonotone(1, n, base);
    }
    assert m == 0 <==> n == 0 && d == 0;
    assert (d + zero as int) as char == c;
  }

  /** Reading a string and printing it back drops exactly its leading zeros. */
  lemma {:induction false} DigitsOfValue(s: string, base: nat, zero: char)
    requires ValidBase(base, zero) && IsNumeral(s, base, zero)
    ensures Digits(Value(s, base, zero), base, zero) == TrimZeros(s, zero)
  {
    if |s| > 0 {
      var init, last := s[..|s| - 1], s[|s| - 1];
      assert s == init + [last];
      DigitsOfValue(init, base, zero);
      ValueSnoc(init, last, base, zero);
      TrimmedSnoc(Value(init, base, zero), init, last, base, zero);
    }
  }

  lemma TrimmedSnoc(n: nat, s: string, c: char, base: nat, zero: char)
    requires ValidBase(base, zero) && 0 <= DigitOf(c, zero) < base && Digits(n, base, zero) == TrimZeros(s, zero)
    ensures Digits(n * base + DigitOf(c, zero), base, zero) == TrimZeros(s + [c], zero)
  {
    DigitsSnoc(n, c, base, zero);
    TrimZerosSnoc(s, c, zero);
  }

  lemma {:induction false} TrimZerosSnoc(s: string, c: char, zero: char)
    ensures TrimZeros(s + [c], zero)
         == if |TrimZeros(s, zero)| == 0 && c == zero then "" else TrimZeros(s, zero) + [c]
  {
    if |s| == 0 {
      assert s + [c] == [c];
      assert [c][1..] == "";
    } else {
      assert (s + [c])[1..] == s[1..] + [c];
      if s[0] == zero {
        TrimZerosSnoc(s[1..], c, zero);
      }
    }
  }

  lemma {:induction false} ValueConcat(a: string, b: string, base: nat, zero: char)
    requires IsNumeral(a, base, zero) && IsNumeral(b, base, zero)
    ensures IsNumeral(a + b, base, zero)
    ensures Value(a + b, base, zero) == Value(a, base, zero) * Pow(base, |b|) + Value(b, base, zero)
  {
    if |b| == 0 {
      assert a + b == a;
    } else {
      var init, last := b[..|b| - 1], b[|b| - 1];
      ValueConcat(a, init, base, zero);
      assert a + b == (a + init) + [last];
      ValueSnoc(a + init, last, base, zero);
      Distribute(Value(a, base, zero), Pow(base, |init|), Value(init, base, zero), base);
    }
  }

  lemma Distribute(v: nat, p: nat, w: nat, base: nat)
    ensures (v * p + w) * base == v * (p * base) + w * base
  {}

  lemma {:induction false} ValueBound(s: string, base: nat, zero: char)
    requires IsNumeral(s, base, zero)
    ensures Value(s, base, zero) < Pow(base, |s|)
  {
    if |s| > 0 {
      var init := s[..|s| - 1];
      ValueBound(init, base, zero);
      BelowNextPower(Value(init, base, zero), DigitOf(s[|s| - 1], zero), Pow(base, |init|), base);
    }
  }

  lemma {:induction false} ValueOfZeros(s: string, base: nat, zero: char)
    requires IsNumeral(s, base, zero)
    requires forall i | 0 <= i < |s| :: s[i] == zero
    ensures Value(s, base, zero) == 0
  {
    if |s| > 0 {
      ValueOfZeros(s[..|s| - 1], base, zero);
    }
  }

  /** A number has at most k digits exactly when it is below base^k. */
  lemma {:induction false} DigitsBound(n: nat, k: nat, base: nat, zero: char)
    requires ValidBase(base, zero)
    ensures n < Pow(base, k) <==> |Digits(n, base, zero)| <= k
    decreases n
  {
    if n == 0 {
      PowPositive(base, k);
    } else if k > 0 {
      QuotientShrinks(n, base);
      DigitsBound(n / base, k - 1, base, zero);
      QuotientBelow(n, Pow(base, k - 1), base);
    }
  }

  lemma QuotientBelow(n: nat, p: nat, base: nat)
    requires base > 0
    ensures n / base < p <==> n < p * base
  {
    var q := n / base;
    assert n == q * base + n % base;
    if q < p {
      TimesMonotone(q + 1, p, base);
    } else {
      TimesMonotone(p, q, base);
    }
  }

  lemma {:induction false} PowPositive(base: nat, e: nat)
    requires base > 0
    ensures Pow(base, e) > 0
  {
    if e > 0 {
      PowPositive(base, e - 1);
      TimesMonotone(1, Pow(base, e - 1), base);
    }
  }

  /** Digit strings of one length are determined by their value. */
  lemma {:induction false} ValueInjective(a: string, b: string, base: nat, zero: char)
    requires |a| == |b| && IsNumeral(a, base, zero) && IsNumeral(b, base, zero)
    requires Value(a, base, zero) == Value(b, base, zero)
    ensures a == b
  {
    if |a| > 0 {
      var k := |a| - 1;
      LastDigit(a, b, k, base, zero);
      ValueInjective(a[..k], b[..k], base, zero);
      assert a == a[..k] + [a[k]] && b == b[..k] + [b[k]];
    }
  }

  lemma LastDigit(a: string, b: string, k: nat, base: nat, zero: char)
    requires |a| == |b| == k + 1 && IsNumeral(a, base, zero) && IsNumeral(b, base, zero)
    requires Value(a, base, zero) == Value(b, base, zero)
    ensures Value(a[..k], base, zero) == Value(b[..k], base, zero) && a[k] == b[k]
  {
    DivisionUnique(Value(a[..k], base, zero), DigitOf(a[k], zero),
                   Value(b[..k], base, zero), DigitOf(b[k], zero), base);
  }

  lemma DigitsInjective(m: nat, n: nat, base: nat, zero: char)
    requires ValidBase(base, zero) && Digits(m, base, zero) == Digits(n, base, zero)
    ensures m == n
  {
    ValueOfDigits(m, base, zero);
    ValueOfDigits(n, base, zero);
  }

  /** The decimal form `%d` gives a natural number. */
  function Decimal(n: nat): (s: string)
    ensures s != "" && IsNumeral(s, 10, '0')
  {
    if n == 0 then "0" else Digits(n, 10, '0')
  }

  lemma ValueOfDecimal(n: nat)
    ensures Value(Decimal(n), 10, '0') == n
  {
    if n == 0 {
      assert Decimal(0)[..0] == "";
    } else {
      ValueOfDigits(n, 10, '0');
    }
  }

  lemma DecimalInjective(m: nat, n: nat)
    requires Decimal(m) == Decimal(n)
    ensures m == n
  {
    ValueOfDecimal(m);
    ValueOfDecimal(n);
  }
}
