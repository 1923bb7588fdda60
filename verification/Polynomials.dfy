/** Polynomials over the integers read modulo a prime: too many roots force the zero function. */
module Polynomials {

  predicate IsPrime(q: nat) {
    q >= 2 && forall d | 2 <= d < q :: q % d != 0
  }

  predicate Divides(q: nat, n: int)
    requires q > 0
  {
    n % q == 0
  }

  // ---- divisibility ----

  lemma MultipleDivides(q: nat, k: int)
    requires q > 0
    ensures Divides(q, q * k)
  {
    var n := q * k;
    var d := k - n / q;
    assert n == q * (n / q) + n % q;
    assert q * d == n % q;
    SmallMultiple(q, d);
  }

  lemma SmallMultiple(q: nat, d: int)
    requires q > 0 && 0 <= q * d < q
    ensures d == 0
  {
    assert d > 0 ==> q * d >= q;
    assert d < 0 ==> q * d + q <= 0;
  }

  lemma Witness(q: nat, n: int)
    requires q > 0 && Divides(q, n)
    ensures n == q * (n / q)
  {}

  lemma DividesSum(q: nat, a: int, b: int)
    requires q > 0 && Divides(q, a) && Divides(q, b)
    ensures Divides(q, a + b) && Divides(q, a - b)
  {
    Witness(q, a);
    Witness(q, b);
    var i, j := a / q, b / q;
    assert a + b == q * (i + j) && a - b == q * (i - j);
    MultipleDivides(q, i + j);
    MultipleDivides(q, i - j);
  }

  lemma DividesProduct(q: nat, a: int, c: int)
    requires q > 0 && Divides(q, a)
    ensures Divides(q, a * c) && Divides(q, c * a)
  {
    Witness(q, a);
    var i := a / q;
    assert (q * i) * c == q * (i * c);
    MultipleDivides(q, i * c);
  }

  /** The least positive m with q | m*b; it divides every n with q | n*b. */
  lemma {:induction false} LeastMultiplier(q: nat, b: int, m: nat) returns (least: nat)
    requires q > 0 && m > 0 && Divides(q, m * b)
    ensures 0 < least <= m && Divides(q, least * b)
    ensures forall k | 0 < k < least :: !Divides(q, k * b)
    decreases m
  {
    if k :| 0 < k < m && Divides(q, k * b) {
      least := LeastMultiplier(q, b, k);
    } else {
      least := m;
    }
  }

  lemma LeastDivides(q: nat, b: int, least: nat, n: int)
    requires q > 0 && least > 0 && Divides(q, least * b) && Divides(q, n * b)
    requires forall k | 0 < k < least :: !Divides(q, k * b)
    ensures Divides(least, n)
  {
    var d, r := n / least, n % least;
    assert n == least * d + r;
    DividesProduct(q, least * b, d);
    assert r * b == n * b - (least * b) * d by {
      assert n * b == (least * d) * b + r * b;
      assert (least * d) * b == (least * b) * d;
    }
    DividesSum(q, n * b, (least * b) * d);
  }

  /** Euclid's lemma. */
  lemma PrimeDividesProduct(q: nat, a: int, b: int)
    requires IsPrime(q) && Divides(q, a * b)
    ensures Divides(q, a) || Divides(q, b)
  {
    MultipleDivides(q, b);
    var m := LeastMultiplier(q, b, q);
    LeastDivides(q, b, m, q);
    LeastDivides(q, b, m, a);
    DivisorOfPrime(q, m);
  }

  lemma DivisorOfPrime(q: nat, m: nat)
    requires IsPrime(q) && 0 < m <= q && Divides(m, q)
    ensures m == 1 || m == q
  {}

  // ---- evaluation and division by (x - r) ----

  function Eval(p: seq<int>, x: int): int {
    if |p| == 0 then 0 else p[0] + x * Eval(p[1..], x)
  }

  function AddScaled(a: seq<int>, c: int, b: seq<int>): (s: seq<int>)
    requires |b| <= |a|
    ensures |s| == |a|
  {
    if |a| == 0 then []
    else if |b| == 0 then a
    else [a[0] + c * b[0]] + AddScaled(a[1..], c, b[1..])
  }

  lemma {:induction false} EvalAddScaled(a: seq<int>, c: int, b: seq<int>, x: int)
    requires |b| <= |a|
    ensures Eval(AddScaled(a, c, b), x) == Eval(a, x) + c * Eval(b, x)
  {
    if |b| > 0 {
      EvalAddScaled(a[1..], c, b[1..], x);
      var s := AddScaled(a, c, b);
      assert s[1..] == AddScaled(a[1..], c, b[1..]);
      ScaledStep(x, c, a[0], b[0], Eval(a[1..], x), Eval(b[1..], x));
    }
  }

  lemma ScaledStep(x: int, c: int, a0: int, b0: int, u: int, v: int)
    ensures (a0 + c * b0) + x * (u + c * v) == (a0 + x * u) + c * (b0 + x * v)
  {
    assert x * (u + c * v) == x * u + x * (c * v);
    assert x * (c * v) == c * (x * v);
    assert c * (b0 + x * v) == c * b0 + c * (x * v);
  }

  /** The quotient of p(x) - p(r) by x - r. */
  function Quotient(p: seq<int>, r: int): (s: seq<int>)
    ensures |s| == if |p| == 0 then 0 else |p| - 1
  {
    if |p| <= 1 then [] else AddScaled(p[1..], r, Quotient(p[1..], r))
  }

  lemma {:induction false} DivisionWithRemainder(p: seq<int>, r: int, x: int)
    ensures Eval(p, x) - Eval(p, r) == (x - r) * Eval(Quotient(p, r), x)
  {
    if |p| == 1 {
      assert Eval(p[1..], x) == 0 && Eval(p[1..], r) == 0;
    } else if |p| > 1 {
      var t := p[1..];
      DivisionWithRemainder(t, r, x);
      EvalAddScaled(t, r, Quotient(t, r), x);
      RemainderStep(x, r, Eval(t, x), Eval(t, r), Eval(Quotient(t, r), x));
    }
  }

  lemma RemainderStep(x: int, r: int, tx: int, tr: int, qx: int)
    requires tx - tr == (x - r) * qx
    ensures x * tx - r * tr == (x - r) * (tx + r * qx)
  {
    assert (x - r) * (tx + r * qx) == (x - r) * tx + (x - r) * (r * qx);
    assert (x - r) * (r * qx) == r * ((x - r) * qx);
    assert r * (tx - tr) == r * tx - r * tr;
    assert (x - r) * tx == x * tx - r * tx;
  }

  // ---- roots ----

  predicate DistinctMod(q: nat, xs: seq<int>)
    requires q > 0
  {
    forall i, j | 0 <= i < j < |xs| :: !Divides(q, xs[j] - xs[i])
  }

  predicate VanishesAt(q: nat, p: seq<int>, xs: seq<int>)
    requires q > 0
  {
    forall i | 0 <= i < |xs| :: Divides(q, Eval(p, xs[i]))
  }

  lemma QuotientVanishes(q: nat, p: seq<int>, r: int, x: int)
    requires IsPrime(q) && Divides(q, Eval(p, r)) && Divides(q, Eval(p, x)) && !Divides(q, x - r)
    ensures Divides(q, Eval(Quotient(p, r), x))
  {
    DivisionWithRemainder(p, r, x);
    DividesSum(q, Eval(p, x), Eval(p, r));
    PrimeDividesProduct(q, x - r, Eval(Quotient(p, r), x));
  }

  /** A polynomial with at least as many roots modulo a prime as coefficients vanishes everywhere. */
  lemma {:induction false} TooManyRoots(q: nat, p: seq<int>, roots: seq<int>, x: int)
    requires IsPrime(q) && |p| <= |roots| && DistinctMod(q, roots) && VanishesAt(q, p, roots)
    ensures Divides(q, Eval(p, x))
    decreases |p|
  {
    if |p| > 0 {
      var r, rest := roots[0], roots[1..];
      var s := Quotient(p, r);
      forall i | 0 <= i < |rest| ensures Divides(q, Eval(s, rest[i])) {
        assert rest[i] == roots[i + 1];
        QuotientVanishes(q, p, r, rest[i]);
      }
      assert DistinctMod(q, rest);
      TooManyRoots(q, s, rest, x);
      DivisionWithRemainder(p, r, x);
      DividesProduct(q, Eval(s, x), x - r);
      DividesSum(q, (x - r) * Eval(s, x), Eval(p, r));
    }
  }
}
