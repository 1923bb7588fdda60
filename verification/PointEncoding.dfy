/** Byte forms of curve points (pkg/encoding/ecdsa.go, the serializers of pkg/ckdutil/child_derivation.go). */
module PointEncoding {
  import opened Results
  import opened Numerals
  import opened GoStrings

  const COORD_SIZE: nat := 32
  const FIELD: nat := 0xFFFFFFFF_FFFFFFFF_FFFFFFFF_FFFFFFFF_FFFFFFFF_FFFFFFFF_FFFFFFFE_FFFFFC2F
  const ORDER: nat := 0xFFFFFFFF_FFFFFFFF_FFFFFFFF_FFFFFFFE_BAAEDCE6_AF48A03B_BFD25E8C_D0364141

  datatype CurveParams = CurveParams(p: nat, n: nat)
  datatype PublicKey = PublicKey(curve: CurveParams, x: nat, y: nat)

  function S256(): CurveParams {
    CurveParams(FIELD, ORDER)
  }

  /** `IsOnCurve` reduces both coordinates first. */
  predicate OnS256(x: nat, y: nat) {
    Satisfies(FIELD, x, y)
  }

  /** The curve equation y^2 = x^3 + 7 modulo p. */
  predicate Satisfies(p: nat, x: nat, y: nat)
    requires p > 0
  {
    Square(p, y) == (x * x * x + 7) % p
  }

  function Square(p: nat, y: nat): nat
    requires p > 0
  {
    (y * y) % p
  }

  const GENERATOR_X: nat := 0x79BE667E_F9DCBBAC_55A06295_CE870B07_029BFCDB_2DCE28D9_59F2815B_16F81798
  const GENERATOR_Y: nat := 0x483ADA77_26A3C465_5DA4FBFC_0E1108A8_FD17B448_A6855419_9C47D08F_FB10D4B8

  /** The curve passes through its generator, and not through the origin. */
  lemma GeneratorOnCurve()
    ensures OnS256(GENERATOR_X, GENERATOR_Y) && !OnS256(0, 0)
  {}

  /** A point of the curve has a mirror image, the point with the other parity of y. */
  lemma CurveIsSymmetric(x: nat, y: nat)
    requires 0 < y < FIELD
    ensures OnS256(x, y) <==> OnS256(x, FIELD - y)
    ensures (FIELD - y) % 2 != y % 2
  {
    SquareOfMirror(FIELD, y);
    OtherParity(FIELD, y);
  }

  lemma OtherParity(p: nat, y: nat)
    requires y < p && p % 2 == 1
    ensures (p - y) % 2 != y % 2
  {}

  lemma SquareOfMirror(p: nat, y: nat)
    requires 0 < y < p
    ensures Square(p, p - y) == Square(p, y)
  {
    assert (p - y) * (p - y) == p * (p - 2 * y) + y * y;
    RemainderShift(p, p - 2 * y, y * y);
  }

  lemma RemainderShift(p: nat, k: int, n: nat)
    requires p > 0 && p * k + n >= 0
    ensures (p * k + n) % p == n % p
  {
    var m := p * k + n;
    var d := m / p - n / p - k;
    assert m == p * (m / p) + m % p && n == p * (n / p) + n % p;
    assert p * d == n % p - m % p;
    assert d > 0 ==> p * d >= p;
    assert d < 0 ==> p * d + p <= 0;
  }

  /** `big.Int.Bytes` and `big.Int.SetBytes`. */
  function Bytes(n: nat): GoString {
    Digits(n, 256, '\0')
  }

  function FromBytes(s: GoString): nat {
    Value(s, 256, '\0')
  }

  /** Fits in `size` bytes. */
  predicate Fits(n: nat, size: nat) {
    n < Pow(256, size)
  }

  function Zeros(n: nat): (s: GoString)
    ensures |s| == n && forall i | 0 <= i < n :: s[i] == '\0'
  {
    seq(n, _ => '\0')
  }

  function Padded(size: nat, src: GoString): GoString {
    if |src| < size then Zeros(size - |src|) + src else src
  }

  function Encoded(x: nat, y: nat): GoString {
    Padded(COORD_SIZE, Bytes(x)) + Padded(COORD_SIZE, Bytes(y))
  }

  // ---- padding ----

  lemma PaddedLength(n: nat, size: nat)
    ensures |Padded(size, Bytes(n))| >= size
    ensures |Padded(size, Bytes(n))| == size <==> Fits(n, size)
  {
    DigitsBound(n, size, 256, '\0');
  }

  /** Padding does not change the number. */
  lemma ValueOfPadded(n: nat, size: nat)
    ensures FromBytes(Padded(size, Bytes(n))) == n
  {
    ValueOfDigits(n, 256, '\0');
    if |Bytes(n)| < size {
      var zeros := Zeros(size - |Bytes(n)|);
      ValueOfZeros(zeros, 256, '\0');
      ValueConcat(zeros, Bytes(n), 256, '\0');
    }
  }

  lemma BytesFit(s: GoString)
    ensures Fits(FromBytes(s), |s|)
  {
    ValueBound(s, 256, '\0');
  }

  /** Reading a fixed-width string and padding it to that width gives the string back. */
  lemma PaddedOfValue(s: GoString)
    ensures Padded(|s|, Bytes(FromBytes(s))) == s
  {
    var n := FromBytes(s);
    BytesFit(s);
    PaddedLength(n, |s|);
    ValueOfPadded(n, |s|);
    ValueInjective(Padded(|s|, Bytes(n)), s, 256, '\0');
  }

  // ---- the buffer-filling methods ----

  method CopyInto(buffer: array<char>, at: nat, src: GoString)
    requires at + |src| <= buffer.Length
    modifies buffer
    ensures forall i | 0 <= i < buffer.Length ::
              buffer[i] == if at <= i < at + |src| then src[i - at] else old(buffer[i])
  {
    for k := 0 to |src|
      invariant forall i | 0 <= i < buffer.Length ::
                  buffer[i] == if at <= i < at + k then src[i - at] else old(buffer[i])
    {
      buffer[at + k] := src[k];
    }
  }

  method PaddedBytes(size: nat, src: GoString) returns (r: GoString)
    ensures r == Padded(size, src)
  {
    if |src| >= size {
      return src;
    }
    var buffer := new char[size](_ => '\0');
    CopyInto(buffer, size - |src|, src);
    r := buffer[..];
  }

  method FillCoordinates(size: nat, x: GoString, y: GoString) returns (r: GoString)
    requires |x| <= size && |y| <= size
    ensures r == Padded(size, x) + Padded(size, y) && |r| == size * 2
  {
    var encoded := new char[size * 2](_ => '\0');
    CopyInto(encoded, size - |x|, x);
    CopyInto(encoded, size * 2 - |y|, y);
    var first, second := encoded[..size], encoded[size..];
    RightAligned(size, x, first);
    RightAligned(size, y, second);
    r := first + second;
  }

  lemma RightAligned(size: nat, src: GoString, s: string)
    requires |src| <= size == |s|
    requires forall i | 0 <= i < size :: s[i] == if i < size - |src| then '\0' else src[i - (size - |src|)]
    ensures s == Padded(size, src)
  {}

  method EncodeS256PubKey(pubKey: Option<PublicKey>) returns (r: Result<GoString>)
    ensures r.Ok? <==> && pubKey.Some? && pubKey.value.curve == S256()
                       && Fits(pubKey.value.x, COORD_SIZE) && Fits(pubKey.value.y, COORD_SIZE)
    ensures r.Ok? ==> |r.value| == 64 && r.value == Encoded(pubKey.value.x, pubKey.value.y)
  {
    if pubKey.None? {
      return Err("public key is nil");
    }
    if pubKey.value.curve.p != FIELD || pubKey.value.curve.n != ORDER {
      return Err("unsupported curve, expected secp256k1");
    }
    var xBytes, yBytes := Bytes(pubKey.value.x), Bytes(pubKey.value.y);
    DigitsBound(pubKey.value.x, COORD_SIZE, 256, '\0');
    DigitsBound(pubKey.value.y, COORD_SIZE, 256, '\0');
    if |xBytes| > COORD_SIZE || |yBytes| > COORD_SIZE {
      return Err("coordinate length exceeds 32 bytes");
    }
    var encoded := FillCoordinates(COORD_SIZE, xBytes, yBytes);
    r := Ok(encoded);
  }

  // ---- decoding ----

  /** The input without the uncompressed-point prefix. */
  function Body(encodedKey: GoString): GoString {
    if |encodedKey| == 65 && encodedKey[0] == 4 as char then encodedKey[1..] else encodedKey
  }

  function DecodeECDSAPubKey(encodedKey: GoString): Result<PublicKey> {
    var body := Body(encodedKey);
    if |body| != 64 then Err("invalid encoded key length, expected 64 bytes")
    else
      var x, y := FromBytes(body[..32]), FromBytes(body[32..]);
      if !OnS256(x, y) then Err("invalid public key: point not on secp256k1 curve")
      else Ok(PublicKey(S256(), x, y))
  }

  /** Whatever is encoded decodes to the same key, with or without the prefix, exactly when it
      lies on the curve. */
  lemma DecodeEncoded(x: nat, y: nat)
    requires Fits(x, COORD_SIZE) && Fits(y, COORD_SIZE)
    ensures |Encoded(x, y)| == 64 && FromBytes(Encoded(x, y)[..32]) == x && FromBytes(Encoded(x, y)[32..]) == y
    ensures OnS256(x, y) ==> DecodeECDSAPubKey(Encoded(x, y)) == Ok(PublicKey(S256(), x, y))
    ensures !OnS256(x, y) ==> DecodeECDSAPubKey(Encoded(x, y)).Err?
    ensures DecodeECDSAPubKey([4 as char] + Encoded(x, y)) == DecodeECDSAPubKey(Encoded(x, y))
  {
    PaddedLength(x, COORD_SIZE);
    PaddedLength(y, COORD_SIZE);
    ValueOfPadded(x, COORD_SIZE);
    ValueOfPadded(y, COORD_SIZE);
    var e := Encoded(x, y);
    assert e[..32] == Padded(COORD_SIZE, Bytes(x)) && e[32..] == Padded(COORD_SIZE, Bytes(y));
    assert Body([4 as char] + e) == e;
  }

  /** Every accepted input is the encoding of the key it yields, up to the prefix. */
  lemma EncodedDecoded(input: GoString)
    requires DecodeECDSAPubKey(input).Ok?
    ensures var k := DecodeECDSAPubKey(input).value;
            && Fits(k.x, COORD_SIZE) && Fits(k.y, COORD_SIZE) && OnS256(k.x, k.y)
            && Encoded(k.x, k.y) == Body(input)
            && (input == Body(input) || input == [4 as char] + Body(input))
  {
    var body := Body(input);
    BytesFit(body[..32]);
    BytesFit(body[32..]);
    PaddedOfValue(body[..32]);
    PaddedOfValue(body[32..]);
    assert body == body[..32] + body[32..];
  }

  // ---- compressed form (section 2.3.3 of SEC 1 version 2.0) ----

  function SerializeCompressed(x: nat, y: nat): GoString {
    [(if y % 2 == 1 then 3 else 2) as char] + Padded(COORD_SIZE, Bytes(x))
  }

  /** 33 bytes exactly for coordinates below 2^256: 3 for an odd y or 2 for an even one, then the
      big-endian x. */
  lemma CompressedLength(x: nat, y: nat)
    ensures |SerializeCompressed(x, y)| == 33 <==> Fits(x, COORD_SIZE)
    ensures |SerializeCompressed(x, y)| > 0
    ensures SerializeCompressed(x, y)[0] == (if y % 2 == 1 then 3 else 2) as char
    ensures FromBytes(SerializeCompressed(x, y)[1..]) == x
  {
    PaddedLength(x, COORD_SIZE);
    ValueOfPadded(x, COORD_SIZE);
    assert SerializeCompressed(x, y)[1..] == Padded(COORD_SIZE, Bytes(x));
  }

  /** The compressed form determines, and is determined by, x and the parity of y. */
  lemma CompressedInjective(x: nat, y: nat, x': nat, y': nat)
    ensures SerializeCompressed(x, y) == SerializeCompressed(x', y') <==> x == x' && y % 2 == y' % 2
  {
    var a, b := SerializeCompressed(x, y), SerializeCompressed(x', y');
    if a == b {
      assert a[1..] == Padded(COORD_SIZE, Bytes(x)) && b[1..] == Padded(COORD_SIZE, Bytes(x'));
      ValueOfPadded(x, COORD_SIZE);
      ValueOfPadded(x', COORD_SIZE);
      assert a[0] == b[0];
    }
  }
}
