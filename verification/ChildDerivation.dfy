/**
 Client-side derivation of child keys (pkg/ckdutil/child_derivation.go) and its agreement with the
 nodes' share adjustment (pkg/mpc/ckd.go). The step is "public parent key to public child key" of
 BIP 32; the Ed25519 variant reduces IL modulo the group order.
 */
module ChildDerivation {
  import opened Results
  import opened GoStrings
  import opened Numerals
  import opened PointEncoding
  import opened Polynomials
  import opened KeyShares

  const HARDENED_KEY_START: nat := 0x8000_0000

  type Index = i: nat | i < 0x1_0000_0000
  type Digest = s: GoString | |s| == 64 witness Zeros(64)

  /** A curve: its group, affine coordinates, HMAC-SHA512, and whether it is the Edwards curve. */
  datatype Curve<!P(!new)> = Curve(
    group: Group<P>,
    x: P -> nat,
    y: P -> nat,
    hmac: (GoString, GoString) -> Digest,
    edwards: bool)

  datatype Extended<P> = Extended(point: P, chainCode: GoString)

  /** What a step authenticates: the compressed parent point and the index, four bytes big-endian. */
  function StepData<P(!new)>(c: Curve<P>, point: P, index: Index): GoString {
    PaddedLength(c.x(point), COORD_SIZE);
    SerializeCompressed(c.x(point), c.y(point))[..33] + Padded(4, Bytes(index))
  }

  /** The 37 bytes say what they should, read by value: parity byte, x coordinate, index. */
  ghost predicate Authenticates(data: GoString, x: nat, y: nat, index: Index) {
    && |data| == 37
    && data[0] as int == (if y % 2 == 1 then 3 else 2)
    && FromBytes(data[1..33]) == x
    && FromBytes(data[33..]) == index
  }

  lemma PiecesAuthenticate(head: GoString, coordinate: GoString, tail: GoString, x: nat, y: nat, index: Index)
    requires |head| == 1 && head[0] as int == (if y % 2 == 1 then 3 else 2)
    requires |coordinate| == 32 && FromBytes(coordinate) == x && |tail| == 4 && FromBytes(tail) == index
    ensures Authenticates(head + coordinate + tail, x, y, index)
  {
    var data := head + coordinate + tail;
    assert data[1..33] == coordinate && data[33..] == tail;
  }

  lemma StepDataAuthenticates<P(!new)>(c: Curve<P>, point: P, index: Index)
    requires Fits(c.x(point), COORD_SIZE)
    ensures Authenticates(StepData(c, point, index), c.x(point), c.y(point), index)
  {
    var x, y := c.x(point), c.y(point);
    PaddedLength(x, COORD_SIZE);
    ValueOfPadded(x, COORD_SIZE);
    FourBytes(index);
    PaddedLength(index, 4);
    ValueOfPadded(index, 4);
    var whole := SerializeCompressed(x, y);
    assert whole[..33] == whole && whole == whole[..1] + Padded(COORD_SIZE, Bytes(x));
    PiecesAuthenticate(whole[..1], Padded(COORD_SIZE, Bytes(x)), Padded(4, Bytes(index)), x, y, index);
  }

  lemma FourBytes(index: Index)
    ensures Fits(index, 4)
  {
    assert Pow(256, 2) == 65536;
    assert Pow(256, 4) == 65536 * 256 * 256;
  }

  /** Those values determine the bytes. */
  lemma AuthenticatedUnique(a: GoString, b: GoString, x: nat, y: nat, index: Index)
    requires Authenticates(a, x, y, index) && Authenticates(b, x, y, index)
    ensures a == b
  {
    ValueInjective(a[1..33], b[1..33], 256, '\0');
    ValueInjective(a[33..], b[33..], 256, '\0');
    assert a == [a[0]] + a[1..33] + a[33..] && b == [b[0]] + b[1..33] + b[33..];
  }

  /** What a step authenticates tells apart exactly index, x coordinate and parity of y. */
  lemma StepDataInjective<P(!new)>(c: Curve<P>, p: P, i: Index, q: P, j: Index)
    requires Fits(c.x(p), COORD_SIZE) && Fits(c.x(q), COORD_SIZE)
    ensures StepData(c, p, i) == StepData(c, q, j) <==> i == j && c.x(p) == c.x(q) && c.y(p) % 2 == c.y(q) % 2
  {
    StepDataAuthenticates(c, p, i);
    StepDataAuthenticates(c, q, j);
    if i == j && c.x(p) == c.x(q) && c.y(p) % 2 == c.y(q) % 2 {
      AuthenticatedUnique(StepData(c, p, i), StepData(c, q, j), c.x(p), c.y(p), i);
    }
  }

  function StepDigest<P(!new)>(c: Curve<P>, k: Extended<P>, index: Index): Digest {
    c.hmac(k.chainCode, StepData(c, k.point, index))
  }

  /** The IL scalar of one step. */
  function Scalar<P(!new)>(c: Curve<P>, k: Extended<P>, index: Index): nat
    requires c.group.order > 0
  {
    var il := FromBytes(StepDigest(c, k, index)[..32]);
    if c.edwards then il % c.group.order else il
  }

  function Step<P(!new)>(c: Curve<P>, k: Extended<P>, index: Index): Result<Extended<P>>
    requires c.group.order > 0
  {
    if index >= HARDENED_KEY_START then Err("hardened derivation not supported")
    else
      var il := Scalar(c, k, index);
      if il == 0 || il >= c.group.order then Err("invalid IL")
      else
        var child := c.group.add(k.point, Times(c.group, il));
        if c.x(child) == 0 || c.y(child) == 0 then Err("invalid child point")
        else Ok(Extended(child, StepDigest(c, k, index)[32..]))
  }

  /** The step is the public derivation of BIP 32, stated on any bytes that authenticate parent
      and index: the first half of their MAC under the parent's chain code is the scalar (reduced
      on the Edwards curve), the second half the child's chain code. */
  lemma StepIsPublicDerivation<P(!new)>(c: Curve<P>, k: Extended<P>, index: Index, data: GoString, il: nat, child: P)
    requires c.group.order > 0 && Fits(c.x(k.point), COORD_SIZE)
    requires Authenticates(data, c.x(k.point), c.y(k.point), index)
    requires var left := FromBytes(c.hmac(k.chainCode, data)[..32]);
             il == if c.edwards then left % c.group.order else left
    requires child == c.group.add(k.point, Times(c.group, il))
    ensures Step(c, k, index).Ok? <==>
              index < 0x8000_0000 && 0 < il < c.group.order && c.x(child) != 0 && c.y(child) != 0
    ensures Step(c, k, index).Ok? ==>
              && Step(c, k, index).value.point == child
              && Step(c, k, index).value.chainCode == c.hmac(k.chainCode, data)[32..]
              && |Step(c, k, index).value.chainCode| == 32
  {
    StepDataAuthenticates(c, k.point, index);
    AuthenticatedUnique(data, StepData(c, k.point, index), c.x(k.point), c.y(k.point), index);
  }

  /** The key a path leads to. */
  function Derive<P(!new)>(c: Curve<P>, k: Extended<P>, path: seq<Index>): Result<Extended<P>>
    requires c.group.order > 0
  {
    if |path| == 0 then Ok(k)
    else
      var parent := Derive(c, k, path[..|path| - 1]);
      if parent.Err? then parent else Step(c, parent.value, path[|path| - 1])
  }

  /** The IL scalars along a path. */
  function Scalars<P(!new)>(c: Curve<P>, k: Extended<P>, path: seq<Index>): seq<nat>
    requires c.group.order > 0 && Derive(c, k, path).Ok?
  {
    if |path| == 0 then []
    else
      var init := path[..|path| - 1];
      Scalars(c, k, init) + [Scalar(c, Derive(c, k, init).value, path[|path| - 1])]
  }

  function Sum(s: seq<nat>): nat {
    if |s| == 0 then 0 else Sum(s[..|s| - 1]) + s[|s| - 1]
  }

  /** Both public entry points; `parse` and `serialize` are the curve library's point codec, and
      `chainCode` is the decoded hex text. */
  method DeriveChildCompressed<P(!new)>(
      c: Curve<P>, parse: GoString -> Option<P>, serialize: P -> GoString,
      masterPubKey: GoString, chainCode: Option<GoString>, path: seq<Index>)
    returns (r: Result<GoString>)
    requires c.group.order > 0
    ensures r.Ok? <==>
            && (if c.edwards then masterPubKey != "" else |masterPubKey| == 33)
            && parse(masterPubKey).Some?
            && chainCode.Some? && |chainCode.value| == 32
            && Derive(c, Extended(parse(masterPubKey).value, chainCode.value), path).Ok?
    ensures r.Ok? ==>
            var child := Derive(c, Extended(parse(masterPubKey).value, chainCode.value), path).value.point;
            r.value == if c.edwards then serialize(child) else SerializeCompressed(c.x(child), c.y(child))
  {
    if (c.edwards && masterPubKey == "") || (!c.edwards && |masterPubKey| != 33) {
      return Err("invalid master pubkey length");
    }
    var master := parse(masterPubKey);
    if master.None? {
      return Err("decode master pubkey");
    }
    if chainCode.None? {
      return Err("decode chain code");
    }
    if |chainCode.value| != 32 {
      return Err("invalid chain code length");
    }
    var current := Extended(master.value, chainCode.value);
    ghost var start := current;
    for i := 0 to |path|
      invariant Derive(c, start, path[..i]) == Ok(current)
    {
      DeriveNext(c, start, path, i);
      var child := Step(c, current, path[i]);
      if child.Err? {
        return Err(child.error);
      }
      current := child.value;
    }
    assert path[..|path|] == path;
    return Ok(if c.edwards then serialize(current.point) else SerializeCompressed(c.x(current.point), c.y(current.point)));
  }

  /** A path whose prefix cannot be derived cannot be derived. */
  lemma {:induction false} PrefixFails<P(!new)>(c: Curve<P>, k: Extended<P>, path: seq<Index>, i: nat)
    requires c.group.order > 0 && i <= |path| && Derive(c, k, path[..i]).Err?
    ensures Derive(c, k, path) == Derive(c, k, path[..i])
  {
    if i < |path| {
      var init := path[..|path| - 1];
      assert init[..i] == path[..i];
      PrefixFails(c, k, init, i);
    } else {
      assert path[..i] == path;
    }
  }

  /** The effect of one more index: it fails the whole path, or yields the next prefix's key. */
  lemma DeriveNext<P(!new)>(c: Curve<P>, k: Extended<P>, path: seq<Index>, i: nat)
    requires c.group.order > 0 && i < |path| && Derive(c, k, path[..i]).Ok?
    ensures var next := Step(c, Derive(c, k, path[..i]).value, path[i]);
            Derive(c, k, path[..i + 1]) == next && (next.Err? ==> Derive(c, k, path) == next)
  {
    assert path[..i + 1][..i] == path[..i];
    if Derive(c, k, path[..i + 1]).Err? {
      PrefixFails(c, k, path, i + 1);
    }
  }

  /** No path with a hardened index can be derived. */
  lemma HardenedNeverDerived<P(!new)>(c: Curve<P>, k: Extended<P>, path: seq<Index>, i: nat)
    requires c.group.order > 0 && i < |path| && path[i] >= HARDENED_KEY_START
    ensures Derive(c, k, path).Err?
  {
    assert path[..i + 1][..i] == path[..i];
    PrefixFails(c, k, path, i + 1);
  }

  /** Deriving a path in two stages, through the intermediate point and chain code, is deriving
      it at once; a failure of either stage is the failure of the whole. */
  lemma {:induction false} DeriveInStages<P(!new)>(c: Curve<P>, k: Extended<P>, p: seq<Index>, q: seq<Index>)
    requires c.group.order > 0
    ensures Derive(c, k, p + q)
         == var m := Derive(c, k, p); if m.Err? then m else Derive(c, m.value, q)
    ensures Derive(c, k, []) == Ok(k) && (|q| == 1 ==> Derive(c, k, q) == Step(c, k, q[0]))
  {
    if |q| == 0 {
      assert p + q == p;
    } else {
      var init := q[..|q| - 1];
      DeriveInStages(c, k, p, init);
      assert (p + q)[..|p + q| - 1] == p + init;
    }
  }

  /** The point after adding each scalar's multiple of the generator in turn. */
  function Walk<P(!new)>(g: Group<P>, start: P, scalars: seq<nat>): P {
    if |scalars| == 0 then start
    else g.add(Walk(g, start, scalars[..|scalars| - 1]), Times(g, scalars[|scalars| - 1]))
  }

  lemma {:induction false} DerivationWalks<P(!new)>(c: Curve<P>, k: Extended<P>, path: seq<Index>)
    requires c.group.order > 0 && Derive(c, k, path).Ok?
    ensures Derive(c, k, path).value.point == Walk(c.group, k.point, Scalars(c, k, path))
    ensures AllBelow(Scalars(c, k, path), c.group.order)
  {
    if |path| > 0 {
      var n := |path| - 1;
      DerivationWalks(c, k, path[..n]);
      var il := StepScalar(c, Derive(c, k, path[..n]).value, path[n]);
      WalkSnoc(c.group, k.point, Scalars(c, k, path[..n]), il);
    }
  }

  predicate AllBelow(scalars: seq<nat>, order: nat) {
    forall i | 0 <= i < |scalars| :: scalars[i] < order
  }

  lemma WalkSnoc<P(!new)>(g: Group<P>, start: P, s: seq<nat>, il: nat)
    requires AllBelow(s, g.order) && il < g.order
    ensures Walk(g, start, s + [il]) == g.add(Walk(g, start, s), Times(g, il))
    ensures AllBelow(s + [il], g.order)
  {
    assert (s + [il])[..|s|] == s;
  }

  lemma {:induction false} WalkIsSum<P(!new)>(g: Group<P>, start: P, scalars: seq<nat>)
    requires PrimeOrder(g) && AllBelow(scalars, g.order)
    ensures Walk(g, start, scalars) == g.add(start, Commit(g, Sum(scalars)))
  {
    if |scalars| == 0 {
      NoScalars(g, start);
    } else {
      var n := |scalars| - 1;
      WalkIsSum(g, start, scalars[..n]);
      StepAdds(g, start, Sum(scalars[..n]), scalars[n]);
    }
  }

  lemma NoScalars<P(!new)>(g: Group<P>, point: P)
    requires PrimeOrder(g)
    ensures g.add(point, Commit(g, 0)) == point
  {
    CommitZero(g, 0);
    assert ZeroIsNeutral(g, point);
  }

  /** A derived point is the master point plus the sum of the scalars times the generator. */
  lemma DerivedPoint<P(!new)>(c: Curve<P>, k: Extended<P>, path: seq<Index>)
    requires PrimeOrder(c.group) && Derive(c, k, path).Ok?
    ensures Derive(c, k, path).value.point
         == c.group.add(k.point, Commit(c.group, Sum(Scalars(c, k, path))))
  {
    DerivationWalks(c, k, path);
    WalkIsSum(c.group, k.point, Scalars(c, k, path));
  }

  lemma StepScalar<P(!new)>(c: Curve<P>, k: Extended<P>, index: Index) returns (il: nat)
    requires c.group.order > 0 && Step(c, k, index).Ok?
    ensures il == Scalar(c, k, index) && 0 < il < c.group.order
    ensures Step(c, k, index).value.point == c.group.add(k.point, Times(c.group, il))
  {
    il := Scalar(c, k, index);
  }

  lemma StepAdds<P(!new)>(g: Group<P>, start: P, sum: nat, il: nat)
    requires PrimeOrder(g) && il < g.order
    ensures g.add(g.add(start, Commit(g, sum)), Times(g, il)) == g.add(start, Commit(g, sum + il))
  {
    CommitAdd(g, sum, il);
    CommitSmall(g, il);
    assert Associates(g, start, Commit(g, sum), Commit(g, il));
  }

  /** The delta the nodes use: the sum of the scalars modulo the group order. */
  function Delta<P(!new)>(c: Curve<P>, k: Extended<P>, path: seq<Index>): nat
    requires c.group.order > 0 && Derive(c, k, path).Ok?
  {
    Sum(Scalars(c, k, path)) % c.group.order
  }

  lemma DeltaCommitsToSum<P(!new)>(g: Group<P>, n: nat)
    requires g.order > 0
    ensures Commit(g, n % g.order) == Commit(g, n)
  {
    SmallMod(g.order, n % g.order);
  }

  lemma SmallMod(q: nat, n: nat)
    requires n < q
    ensures n % q == n
  {}

  lemma CommitSmall<P(!new)>(g: Group<P>, n: nat)
    requires n < g.order
    ensures Commit(g, n) == Times(g, n)
  {
    SmallMod(g.order, n);
  }

  /** Client and nodes agree: after the nodes adjust a completed sharing of the master key by
      the path's delta, every quorum of threshold + 1 parties recovers exactly the point the
      client derives, whatever polynomial of the sharing's degree it interpolates. */
  lemma QuorumSignsForDerivedKey<P(!new)>(
      c: Curve<P>, k: Extended<P>, path: seq<Index>,
      f: seq<int>, xs: seq<int>, before: seq<P>, after: seq<P>, onCurve: P -> bool,
      quorum: seq<nat>, h: seq<int>)
    requires PrimeOrder(c.group) && Derive(c, k, path).Ok?
    requires |f| > 0 && k.point == Commit(c.group, Eval(f, 0)) && Shares(c.group, f, xs, before)
    requires AdjustedUpTo(c.group, onCurve, before, after, Commit(c.group, Delta(c, k, path)), |before|)
    requires 0 < |h| <= |f| == |quorum| && forall i | 0 <= i < |quorum| :: quorum[i] < |xs|
    requires DistinctMod(c.group.order, Keys(xs, quorum))
    requires forall i | 0 <= i < |quorum| :: Commit(c.group, Eval(h, xs[quorum[i]])) == after[quorum[i]]
    ensures Commit(c.group, Eval(h, 0)) == Derive(c, k, path).value.point
  {
    DerivedPoint(c, k, path);
    DeltaCommitsToSum(c.group, Sum(Scalars(c, k, path)));
    QuorumRecoversChild(c.group, f, xs, before, Delta(c, k, path), quorum, h);
  }
}
