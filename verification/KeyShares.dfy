/**
 Child-key adjustment of a shared key (pkg/mpc/ckd.go). The curve is any group of prime order;
 the public share points of a key are commitments to a polynomial whose constant term is the key.
 */
module KeyShares {
  import opened Results
  import opened Polynomials

  datatype Group<!P(!new)> = Group(add: (P, P) -> P, zero: P, gen: P, order: nat)

  function Times<P(!new)>(g: Group<P>, k: nat): P {
    if k == 0 then g.zero else g.add(Times(g, k - 1), g.gen)
  }

  ghost predicate Associates<P(!new)>(g: Group<P>, a: P, b: P, c: P) {
    g.add(g.add(a, b), c) == g.add(a, g.add(b, c))
  }

  ghost predicate ZeroIsNeutral<P(!new)>(g: Group<P>, a: P) {
    g.add(a, g.zero) == a
  }

  ghost predicate VanishesAtMultiples<P(!new)>(g: Group<P>, k: nat)
    requires g.order > 0
  {
    Times(g, k) == g.zero <==> Divides(g.order, k)
  }

  /** The generator has prime order. (Points outside its subgroup are allowed.) */
  ghost predicate PrimeOrder<P(!new)>(g: Group<P>) {
    && IsPrime(g.order)
    && (forall a, b, c :: Associates(g, a, b, c))
    && (forall a :: ZeroIsNeutral(g, a))
    && (forall k: nat :: VanishesAtMultiples(g, k))
  }

  const PARITY: Group<bool> := Group((a, b) => a != b, false, true, 2)

  lemma {:induction false} ParityTimes(k: nat)
    ensures Times(PARITY, k) == (k % 2 == 1)
  {
    if k > 0 {
      ParityTimes(k - 1);
    }
  }

  /** Such groups exist: the two bits under exclusive or. */
  lemma ParityHasPrimeOrder()
    ensures PrimeOrder(PARITY)
  {
    forall k: nat ensures VanishesAtMultiples(PARITY, k) {
      ParityTimes(k);
    }
  }

  /** `ScalarBaseMult`: scalars act modulo the group order. */
  function Commit<P(!new)>(g: Group<P>, n: int): P
    requires g.order > 0
  {
    Times(g, n % g.order)
  }

  lemma {:induction false} TimesAdd<P(!new)>(g: Group<P>, a: nat, b: nat)
    requires PrimeOrder(g)
    ensures Times(g, a + b) == g.add(Times(g, a), Times(g, b))
    decreases b
  {
    assert ZeroIsNeutral(g, Times(g, a));
    if b > 0 {
      TimesAdd(g, a, b - 1);
      assert Associates(g, Times(g, a), Times(g, b - 1), g.gen);
    }
  }

  lemma TimesMod<P(!new)>(g: Group<P>, a: nat)
    requires PrimeOrder(g)
    ensures Times(g, a) == Times(g, a % g.order)
  {
    RemovingRemainder(g.order, a);
    var r := a % g.order;
    TimesAdd(g, r, a - r);
    assert VanishesAtMultiples(g, a - r);
    assert ZeroIsNeutral(g, Times(g, r));
  }

  lemma RemovingRemainder(q: nat, a: nat)
    requires q > 0
    ensures 0 <= a % q <= a && Divides(q, a - a % q)
  {
    assert a == q * (a / q) + a % q;
    MultipleDivides(q, a / q);
  }

  lemma ModOfSum(q: nat, a: int, b: int)
    requires q > 0
    ensures (a % q + b % q) % q == (a + b) % q
  {
    var k := a / q + b / q;
    assert a == q * (a / q) + a % q && b == q * (b / q) + b % q;
    assert a + b == q * k + (a % q + b % q);
    ModShift(q, k, a % q + b % q);
  }

  lemma ModShift(q: nat, k: int, n: int)
    requires q > 0
    ensures (q * k + n) % q == n % q
  {
    var m := q * k + n;
    assert m == q * (m / q) + m % q && n == q * (n / q) + n % q;
    var d := m / q - n / q - k;
    assert q * d == n % q - m % q;
    assert d > 0 ==> q * d >= q;
    assert d < 0 ==> q * d + q <= 0;
  }

  lemma CommitAdd<P(!new)>(g: Group<P>, a: int, b: int)
    requires PrimeOrder(g)
    ensures g.add(Commit(g, a), Commit(g, b)) == Commit(g, a + b)
  {
    var i, j := a % g.order, b % g.order;
    TimesAdd(g, i, j);
    TimesMod(g, i + j);
    ModOfSum(g.order, a, b);
  }

  /** Two scalars commit to one point exactly when they agree modulo the order. */
  lemma CommitInjective<P(!new)>(g: Group<P>, a: int, b: int)
    requires PrimeOrder(g)
    ensures Commit(g, a) == Commit(g, b) <==> Divides(g.order, a - b)
  {
    CommitZero(g, a - b);
    CommitAdd(g, b, a - b);
    assert ZeroIsNeutral(g, Commit(g, b));
    if Commit(g, a) == Commit(g, b) {
      Cancel(g, a, b);
    }
  }

  lemma Cancel<P(!new)>(g: Group<P>, a: int, b: int)
    requires PrimeOrder(g) && Commit(g, a) == Commit(g, b)
    ensures Commit(g, a - b) == g.zero
  {
    CommitAdd(g, -b, b);
    CommitAdd(g, -b, a);
    assert -b + b == 0 && -b + a == a - b;
    CommitZero(g, 0);
  }

  lemma CommitZero<P(!new)>(g: Group<P>, n: int)
    requires PrimeOrder(g)
    ensures Commit(g, n) == g.zero <==> Divides(g.order, n)
  {
    var r := n % g.order;
    assert VanishesAtMultiples(g, r);
    assert Divides(g.order, r) <==> r == 0;
  }

  // ---- Shamir sharings ----

  /** The points commit to the values of `f` at the party keys `xs`. */
  ghost predicate Shares<P(!new)>(g: Group<P>, f: seq<int>, xs: seq<int>, points: seq<P>)
    requires g.order > 0
  {
    |points| == |xs| && forall j | 0 <= j < |xs| :: points[j] == Commit(g, Eval(f, xs[j]))
  }

  /** The sharing polynomial of the child key: only the constant term moves. */
  function ShiftConstant(f: seq<int>, delta: int): (f': seq<int>)
    requires |f| > 0
    ensures |f'| == |f|
  {
    [f[0] + delta] + f[1..]
  }

  lemma EvalShifted(f: seq<int>, delta: int, x: int)
    requires |f| > 0
    ensures Eval(ShiftConstant(f, delta), x) == Eval(f, x) + delta
  {
    assert ShiftConstant(f, delta)[1..] == f[1..];
  }

  /** Adding delta times the generator to every share point re-shares key + delta with a
      polynomial of the same degree. */
  lemma AdjustedPointsShareChild<P(!new)>(g: Group<P>, f: seq<int>, xs: seq<int>, points: seq<P>, delta: int)
    requires PrimeOrder(g) && |f| > 0 && Shares(g, f, xs, points)
    ensures Shares(g, ShiftConstant(f, delta), xs, AddToAll(g, points, Commit(g, delta)))
    ensures g.add(Commit(g, Eval(f, 0)), Commit(g, delta)) == Commit(g, Eval(ShiftConstant(f, delta), 0))
  {
    var adjusted := AddToAll(g, points, Commit(g, delta));
    forall j | 0 <= j < |xs| ensures adjusted[j] == Commit(g, Eval(ShiftConstant(f, delta), xs[j])) {
      ShiftedPoint(g, f, delta, xs[j]);
    }
    ShiftedPoint(g, f, delta, 0);
  }

  lemma ShiftedPoint<P(!new)>(g: Group<P>, f: seq<int>, delta: int, x: int)
    requires PrimeOrder(g) && |f| > 0
    ensures g.add(Commit(g, Eval(f, x)), Commit(g, delta)) == Commit(g, Eval(ShiftConstant(f, delta), x))
  {
    EvalShifted(f, delta, x);
    CommitAdd(g, Eval(f, x), delta);
  }

  function AddToAll<P(!new)>(g: Group<P>, points: seq<P>, d: P): (r: seq<P>)
    ensures |r| == |points|
    ensures forall i | 0 <= i < |points| :: r[i] == g.add(points[i], d)
  {
    seq(|points|, i requires 0 <= i < |points| => g.add(points[i], d))
  }

  lemma {:induction false} EvalDifference(f: seq<int>, h: seq<int>, x: int)
    requires |h| <= |f|
    ensures Eval(AddScaled(f, -1, h), x) == Eval(f, x) - Eval(h, x)
  {
    EvalAddScaled(f, -1, h, x);
  }

  /** Any quorum of as many parties as `f` has coefficients determines the shared key: whatever
      polynomial of that degree explains their points has the same commitment at zero. */
  lemma QuorumDeterminesKey<P(!new)>(g: Group<P>, f: seq<int>, h: seq<int>, quorum: seq<int>)
    requires PrimeOrder(g) && 0 < |h| <= |f| == |quorum| && DistinctMod(g.order, quorum)
    requires forall i | 0 <= i < |quorum| :: Commit(g, Eval(h, quorum[i])) == Commit(g, Eval(f, quorum[i]))
    ensures Commit(g, Eval(h, 0)) == Commit(g, Eval(f, 0))
  {
    var d := AddScaled(f, -1, h);
    forall i | 0 <= i < |quorum| ensures Divides(g.order, Eval(d, quorum[i])) {
      DifferenceVanishes(g, f, h, quorum[i]);
    }
    TooManyRoots(g.order, d, quorum, 0);
    DifferenceVanishes(g, f, h, 0);
  }

  lemma DifferenceVanishes<P(!new)>(g: Group<P>, f: seq<int>, h: seq<int>, x: int)
    requires PrimeOrder(g) && |h| <= |f|
    ensures Divides(g.order, Eval(AddScaled(f, -1, h), x)) <==> Commit(g, Eval(h, x)) == Commit(g, Eval(f, x))
  {
    EvalDifference(f, h, x);
    CommitInjective(g, Eval(f, x), Eval(h, x));
  }

  // ---- the in-place adjustment ----

  /** The public part of a party's saved key data. */
  class SaveData<P(!new)> {
    var publicKey: P
    const bigXj: array<P>

    constructor (publicKey: P, bigXj: array<P>)
      ensures this.publicKey == publicKey && this.bigXj == bigXj
    {
      this.publicKey, this.bigXj := publicKey, bigXj;
    }
  }

  /** `d` was added to the first `n` points, and to no other, because the next sum, if any, is
      the first one that is not acceptable. */
  ghost predicate AdjustedUpTo<P(!new)>(g: Group<P>, ok: P -> bool, before: seq<P>, after: seq<P>, d: P, n: nat) {
    && n <= |before| == |after|
    && (forall i | 0 <= i < n :: after[i] == g.add(before[i], d) && ok(after[i]))
    && (forall i | n <= i < |before| :: after[i] == before[i])
    && (n < |before| ==> !ok(g.add(before[n], d)))
  }

  method AddInPlace<P(!new)>(g: Group<P>, onCurve: P -> bool, points: array<P>, d: P) returns (n: nat)
    modifies points
    ensures AdjustedUpTo(g, onCurve, old(points[..]), points[..], d, n)
  {
    for i := 0 to points.Length
      invariant forall j | 0 <= j < i :: points[j] == g.add(old(points[j]), d) && onCurve(points[j])
      invariant forall j | i <= j < points.Length :: points[j] == old(points[j])
    {
      var updated := g.add(points[i], d);
      if !onCurve(updated) {
        return i;
      }
      points[i] := updated;
    }
    return points.Length;
  }

  /** `UpdateSinglePublicKeyAndAdjustBigXj` of both curves. `onCurve` tells which sums the point
      library can represent: the Weierstrass curve has no affine point at infinity. A failure
      leaves the public key replaced and the points before the failing one adjusted. */
  method AdjustBigXj<P(!new)>(g: Group<P>, onCurve: P -> bool, delta: int, key: SaveData?<P>, childPk: Option<P>)
    returns (r: Result<()>)
    requires g.order > 0
    modifies if key == null then {} else {key, key.bigXj}
    ensures key == null || childPk.None? ==> r.Err?
    ensures key != null && childPk.None? ==> unchanged(key) && unchanged(key.bigXj)
    ensures key != null && childPk.Some? ==>
              && key.publicKey == childPk.value
              && exists n | 0 <= n <= key.bigXj.Length ::
                   && AdjustedUpTo(g, onCurve, old(key.bigXj[..]), key.bigXj[..], Commit(g, delta), n)
                   && (r.Ok? <==> n == key.bigXj.Length)
  {
    if key == null {
      return Err("key cannot be nil");
    }
    if childPk.None? {
      return Err("point cannot be nil");
    }
    var gDelta := Commit(g, delta);
    key.publicKey := childPk.value;
    var n := AddInPlace(g, onCurve, key.bigXj, gDelta);
    return if n == key.bigXj.Length then Ok(()) else Err("failed to update BigXj");
  }

  /** The law of child keys: after the adjustment, every quorum of threshold + 1 parties whose
      public points are explained by some polynomial of the sharing's degree recovers exactly
      the child key, and the shifted polynomial is such an explanation. */
  lemma QuorumRecoversChild<P(!new)>(
      g: Group<P>, f: seq<int>, xs: seq<int>, points: seq<P>, delta: int,
      quorum: seq<nat>, h: seq<int>)
    requires PrimeOrder(g) && |f| > 0 && Shares(g, f, xs, points)
    requires 0 < |h| <= |f| == |quorum| && forall i | 0 <= i < |quorum| :: quorum[i] < |xs|
    requires DistinctMod(g.order, Keys(xs, quorum))
    requires forall i | 0 <= i < |quorum| ::
               Commit(g, Eval(h, xs[quorum[i]])) == g.add(points[quorum[i]], Commit(g, delta))
    ensures Commit(g, Eval(h, 0)) == g.add(Commit(g, Eval(f, 0)), Commit(g, delta))
  {
    var f' := ShiftConstant(f, delta);
    AdjustedPointsShareChild(g, f, xs, points, delta);
    forall i | 0 <= i < |quorum|
      ensures Commit(g, Eval(h, Keys(xs, quorum)[i])) == Commit(g, Eval(f', Keys(xs, quorum)[i]))
    {
      assert AddToAll(g, points, Commit(g, delta))[quorum[i]] == Commit(g, Eval(f', xs[quorum[i]]));
    }
    QuorumDeterminesKey(g, f', h, Keys(xs, quorum));
  }

  function Keys(xs: seq<int>, quorum: seq<nat>): (ks: seq<int>)
    requires forall i | 0 <= i < |quorum| :: quorum[i] < |xs|
    ensures |ks| == |quorum| && forall i | 0 <= i < |quorum| :: ks[i] == xs[quorum[i]]
  {
    seq(|quorum|, i requires 0 <= i < |quorum| => xs[quorum[i]])
  }
}
