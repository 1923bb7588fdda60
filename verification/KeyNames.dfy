/** Names under which key shares and key info are stored (pkg/mpc/session.go, pkg/mpc/node.go). */
module KeyNames {
  import opened Numerals

  datatype SessionType = ECDSA | EDDSA

  function KeyPrefix(st: SessionType): string {
    match st
    case ECDSA => "ecdsa"
    case EDDSA => "eddsa"
  }

  function ComposeKey(st: SessionType, id: string): string {
    KeyPrefix(st) + ":" + id
  }

  function WalletIDWithVersion(walletID: string, version: nat): string {
    if version > 0 then walletID + "_v" + Decimal(version) else walletID
  }

  /** Key of a share in a node's own store. */
  function StorageKey(st: SessionType, walletID: string, version: nat): string {
    ComposeKey(st, WalletIDWithVersion(walletID, version))
  }

  /** The texts under which shares are stored. */
  lemma StorageKeyText(id: string, version: nat)
    ensures StorageKey(ECDSA, id, 0) == "ecdsa:" + id && StorageKey(EDDSA, id, 0) == "eddsa:" + id
    ensures version > 0 ==>
              && StorageKey(ECDSA, id, version) == "ecdsa:" + id + "_v" + Decimal(version)
              && StorageKey(EDDSA, id, version) == "eddsa:" + id + "_v" + Decimal(version)
  {
    assert "ecdsa" + ":" == "ecdsa:" && "eddsa" + ":" == "eddsa:";
    if version > 0 {
      assert forall p: string :: p + (id + "_v" + Decimal(version)) == p + id + "_v" + Decimal(version);
    }
  }

  lemma ComposeKeyInjective(st: SessionType, a: string, st': SessionType, b: string)
    requires ComposeKey(st, a) == ComposeKey(st', b)
    ensures st == st' && a == b
  {
    var k, k' := ComposeKey(st, a), ComposeKey(st', b);
    assert k[1] == KeyPrefix(st)[1] && k'[1] == KeyPrefix(st')[1];
    assert k[6..] == a && k'[6..] == b;
  }

  lemma DecimalHasNoV(n: nat)
    ensures 'v' !in Decimal(n)
  {
    var d := Decimal(n);
    assert forall i | 0 <= i < |d| :: 0 <= DigitOf(d[i], '0') < 10;
  }

  lemma SuffixNotLonger(a: string, v: nat, b: string, w: nat)
    requires a + "_v" + Decimal(v) == b + "_v" + Decimal(w)
    ensures |b| <= |a|
  {
    DecimalHasNoV(v);
    var s, t := a + "_v" + Decimal(v), b + "_v" + Decimal(w);
    assert forall i | |a| + 2 <= i < |s| :: s[i] == Decimal(v)[i - |a| - 2];
    assert t[|b| + 1] == 'v';
  }

  lemma VersionedInjective(a: string, v: nat, b: string, w: nat)
    requires a + "_v" + Decimal(v) == b + "_v" + Decimal(w)
    ensures a == b && v == w
  {
    SuffixNotLonger(a, v, b, w);
    SuffixNotLonger(b, w, a, v);
    var s := a + "_v" + Decimal(v);
    assert s[..|a|] == a && s[..|b|] == b;
    assert s[|a| + 2..] == Decimal(v) && s[|b| + 2..] == Decimal(w);
    DecimalInjective(v, w);
  }

  /** Exactly when two shares would be stored under one key: only a legacy (version 0)
      wallet whose ID already looks versioned can clash with another share. */
  lemma StorageKeyClash(st: SessionType, a: string, v: nat, st': SessionType, b: string, w: nat)
    ensures StorageKey(st, a, v) == StorageKey(st', b, w) <==>
              st == st' && (if (v == 0) == (w == 0) then a == b && v == w
                            else if v == 0 then a == WalletIDWithVersion(b, w)
                            else b == WalletIDWithVersion(a, v))
  {
    var x, y := WalletIDWithVersion(a, v), WalletIDWithVersion(b, w);
    if StorageKey(st, a, v) == StorageKey(st', b, w) {
      ComposeKeyInjective(st, x, st', y);
    }
    if v > 0 && w > 0 && x == y {
      VersionedInjective(a, v, b, w);
    }
  }

  /** The clash is real: legacy wallet "w_v1" and version 1 of wallet "w". */
  lemma LegacyClashExample()
    ensures StorageKey(ECDSA, "w_v1", 0) == StorageKey(ECDSA, "w", 1)
  {
    DecimalOne();
    assert "w" + "_v" + "1" == "w_v1";
  }

  lemma DecimalOne()
    ensures Decimal(1) == "1"
  {
    assert Digits(1 / 10, 10, '0') == "";
    assert (1 % 10 + '0' as int) as char == '1';
  }
}
