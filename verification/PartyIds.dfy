/**
 Party identities (pkg/mpc/party_id.go): a node ID and a key version become one
 big integer, and the node ID is read back from the integer's bytes.
 */
module PartyIds {
  import opened Results
  import opened Lists
  import opened Numerals
  import opened GoStrings

  /** The random UUID and the index of a `tss.PartyID` play no part in routing or storage. */
  datatype PartyID = PartyID(moniker: string, key: nat)

  /** The text whose bytes make the party key; version 0 is the legacy, unversioned form. */
  function KeyText(nodeID: GoString, version: nat): string {
    if version == 0 then nodeID else nodeID + ":" + Decimal(version)
  }

  lemma KeyTextIsNumeral(nodeID: GoString, version: nat)
    ensures IsNumeral(KeyText(nodeID, version), 256, '\0')
  {}

  function PartyKey(nodeID: GoString, version: nat): nat
  {
    KeyTextIsNumeral(nodeID, version);
    Value(KeyText(nodeID, version), 256, '\0')
  }

  function CreatePartyID(nodeID: GoString, purpose: string, version: nat): PartyID
  {
    PartyID(purpose, PartyKey(nodeID, version))
  }

  /** `KeyInt().Bytes()`. */
  function KeyBytes(key: nat): string {
    Digits(key, 256, '\0')
  }

  /** `partyIDToNodeID` of pkg/identity/identity.go. */
  function IdentityNodeID(key: nat): string {
    Before(KeyBytes(key), ':')
  }

  /** `partyIDToNodeID` of pkg/mpc/party_id.go. */
  function PartyIDToNodeID(p: Option<PartyID>): string {
    if p.None? then "" else TrimSpace(IdentityNodeID(p.value.key))
  }

  predicate ComparePartyIDs(x: PartyID, y: PartyID) {
    KeyBytes(x.key) == KeyBytes(y.key)
  }

  /** What the deployment promises about node IDs. */
  predicate WellFormed(nodeID: GoString) {
    && nodeID != "" && nodeID[0] != '\0'
    && ':' !in nodeID
    && TrimSpace(nodeID) == nodeID
  }

  // ---- reading a node ID back ----

  lemma KeyBytesOfPartyKey(nodeID: GoString, version: nat)
    ensures KeyBytes(PartyKey(nodeID, version)) == TrimZeros(KeyText(nodeID, version), '\0')
  {
    KeyTextIsNumeral(nodeID, version);
    DigitsOfValue(KeyText(nodeID, version), 256, '\0');
  }

  /** The bytes of a party key are the node ID alone for the legacy version, and the node ID,
      a colon and the version's decimal digits for any other. */
  lemma PartyKeyText(nodeID: GoString, version: nat)
    requires WellFormed(nodeID)
    ensures KeyBytes(PartyKey(nodeID, 0)) == nodeID
    ensures version > 0 ==> KeyBytes(PartyKey(nodeID, version)) == nodeID + ":" + Decimal(version)
  {
    KeyBytesOfPartyKey(nodeID, 0);
    KeyBytesOfPartyKey(nodeID, version);
  }

  lemma {:induction false} TrimZerosConcat(a: string, b: string, zero: char)
    requires b != "" && b[0] != zero
    ensures TrimZeros(a + b, zero) == TrimZeros(a, zero) + b
  {
    if |a| > 0 && a[0] == zero {
      assert (a + b)[1..] == a[1..] + b;
      TrimZerosConcat(a[1..], b, zero);
    } else if |a| == 0 {
      assert a + b == b;
    }
  }

  lemma {:induction false} TrimZerosMembers(s: string, zero: char)
    ensures forall c :: c in TrimZeros(s, zero) ==> c in s
  {
    if |s| > 0 && s[0] == zero {
      TrimZerosMembers(s[1..], zero);
    }
  }

  lemma TextBeforeColon(nodeID: GoString, version: nat)
    requires ':' !in nodeID
    ensures Before(TrimZeros(KeyText(nodeID, version), '\0'), ':') == TrimZeros(nodeID, '\0')
  {
    var t := TrimZeros(nodeID, '\0');
    TrimZerosMembers(nodeID, '\0');
    if version == 0 {
      BeforeUnique(t, t, ':');
    } else {
      var suffix := ":" + Decimal(version);
      assert KeyText(nodeID, version) == nodeID + suffix;
      TrimZerosConcat(nodeID, suffix, '\0');
      BeforeUnique(t + suffix, t, ':');
    }
  }

  lemma ColonFreeDecodes(nodeID: GoString, version: nat)
    requires ':' !in nodeID
    ensures IdentityNodeID(PartyKey(nodeID, version)) == TrimZeros(nodeID, '\0')
  {
    KeyBytesOfPartyKey(nodeID, version);
    TextBeforeColon(nodeID, version);
  }

  predicate SurvivesEncoding(nodeID: GoString) {
    (nodeID == "" || nodeID[0] != '\0') && ':' !in nodeID
  }

  /** Each decoder returns the node ID exactly when this can be told from the ID beforehand. */
  lemma DecodeExact(nodeID: GoString, purpose: string, version: nat)
    ensures IdentityNodeID(PartyKey(nodeID, version)) == nodeID <==> SurvivesEncoding(nodeID)
    ensures PartyIDToNodeID(Some(CreatePartyID(nodeID, purpose, version))) == nodeID
       <==> SurvivesEncoding(nodeID) && TrimSpace(nodeID) == nodeID
  {
    var d := IdentityNodeID(PartyKey(nodeID, version));
    TrimSpaceIdempotent(d);
    if ':' !in nodeID {
      ColonFreeDecodes(nodeID, version);
    }
  }

  lemma WellFormedDecodes(nodeID: GoString, purpose: string, version: nat)
    requires WellFormed(nodeID)
    ensures IdentityNodeID(PartyKey(nodeID, version)) == nodeID
    ensures PartyIDToNodeID(Some(CreatePartyID(nodeID, purpose, version))) == nodeID
  {
    DecodeExact(nodeID, purpose, version);
  }

  /** No two (node, version) pairs share a party key, version 0 included. */
  lemma PartyKeyInjective(a: GoString, v: nat, b: GoString, w: nat)
    requires WellFormed(a) && WellFormed(b) && PartyKey(a, v) == PartyKey(b, w)
    ensures a == b && v == w
  {
    WellFormedDecodes(a, "", v);
    WellFormedDecodes(b, "", w);
    KeyBytesOfPartyKey(a, v);
    KeyBytesOfPartyKey(b, w);
    assert KeyText(a, v) == KeyText(a, w);
    if v > 0 && w > 0 {
      var n := |a + ":"|;
      assert KeyText(a, v)[n..] == Decimal(v) && KeyText(a, w)[n..] == Decimal(w);
      DecimalInjective(v, w);
    }
  }

  lemma ComparePartyIDsIsKeyEquality(x: PartyID, y: PartyID)
    ensures ComparePartyIDs(x, y) <==> x.key == y.key
  {
    if ComparePartyIDs(x, y) {
      DigitsInjective(x.key, y.key, 256, '\0');
    }
  }

  // ---- the sorted committee ----

  predicate StrictlyIncreasing(ps: seq<PartyID>) {
    forall i, j | 0 <= i < j < |ps| :: ps[i].key < ps[j].key
  }

  predicate Ascending(ps: seq<PartyID>) {
    forall i, j | 0 <= i < j < |ps| :: ps[i].key <= ps[j].key
  }

  predicate DistinctKeys(ps: seq<PartyID>) {
    forall i, j | 0 <= i < j < |ps| :: ps[i].key != ps[j].key
  }

  function Insert(p: PartyID, ps: seq<PartyID>): seq<PartyID> {
    if |ps| == 0 || p.key <= ps[0].key then [p] + ps else [ps[0]] + Insert(p, ps[1..])
  }

  /** The order `tss.SortPartyIDs` establishes: ascending keys. */
  function SortPartyIDs(ps: seq<PartyID>): seq<PartyID> {
    if |ps| == 0 then [] else Insert(ps[0], SortPartyIDs(ps[1..]))
  }

  lemma {:induction false} InsertPermutes(p: PartyID, ps: seq<PartyID>)
    ensures multiset(Insert(p, ps)) == multiset(ps) + multiset{p}
  {
    if |ps| > 0 && p.key > ps[0].key {
      InsertPermutes(p, ps[1..]);
      assert ps == [ps[0]] + ps[1..];
      assert Insert(p, ps) == [ps[0]] + Insert(p, ps[1..]);
    } else {
      assert Insert(p, ps) == [p] + ps;
    }
  }

  lemma {:induction false} InsertMembers(p: PartyID, ps: seq<PartyID>)
    ensures |Insert(p, ps)| == |ps| + 1
    ensures forall q :: q in Insert(p, ps) <==> q == p || q in ps
  {
    if |ps| > 0 && p.key > ps[0].key {
      InsertMembers(p, ps[1..]);
      assert ps == [ps[0]] + ps[1..];
    }
  }

  lemma PrependAscending(p: PartyID, ps: seq<PartyID>)
    requires Ascending(ps) && forall q :: q in ps ==> p.key <= q.key
    ensures Ascending([p] + ps)
    ensures StrictlyIncreasing(ps) && (forall q :: q in ps ==> p.key < q.key) ==> StrictlyIncreasing([p] + ps)
  {}

  lemma {:induction false} InsertAscending(p: PartyID, ps: seq<PartyID>)
    requires Ascending(ps)
    ensures Ascending(Insert(p, ps))
    ensures StrictlyIncreasing(ps) && (forall q :: q in ps ==> q.key != p.key)
        ==> StrictlyIncreasing(Insert(p, ps))
  {
    if |ps| > 0 && p.key > ps[0].key {
      InsertAscending(p, ps[1..]);
      InsertMembers(p, ps[1..]);
      PrependAscending(ps[0], Insert(p, ps[1..]));
    } else {
      PrependAscending(p, ps);
    }
  }

  /** Sorting permutes the parties into ascending key order. */
  lemma {:induction false} SortPermutes(ps: seq<PartyID>)
    ensures multiset(SortPartyIDs(ps)) == multiset(ps)
    ensures Ascending(SortPartyIDs(ps))
  {
    if |ps| > 0 {
      var rest := SortPartyIDs(ps[1..]);
      SortPermutes(ps[1..]);
      InsertPermutes(ps[0], rest);
      InsertAscending(ps[0], rest);
      assert ps == [ps[0]] + ps[1..];
      assert multiset(ps) == multiset{ps[0]} + multiset(rest);
    }
  }

  lemma {:induction false} SortMembers(ps: seq<PartyID>)
    ensures |SortPartyIDs(ps)| == |ps|
    ensures forall q :: q in SortPartyIDs(ps) <==> q in ps
  {
    if |ps| > 0 {
      SortMembers(ps[1..]);
      InsertMembers(ps[0], SortPartyIDs(ps[1..]));
    }
  }

  /** Distinct keys come out strictly increasing. */
  lemma {:induction false} SortStrict(ps: seq<PartyID>)
    requires DistinctKeys(ps)
    ensures StrictlyIncreasing(SortPartyIDs(ps))
  {
    if |ps| > 0 {
      var rest := SortPartyIDs(ps[1..]);
      SortStrict(ps[1..]);
      SortMembers(ps[1..]);
      forall q | q in rest ensures q.key != ps[0].key {
        var k :| 0 <= k < |ps[1..]| && ps[1..][k] == q;
        assert ps[k + 1] == q;
      }
      InsertAscending(ps[0], rest);
    }
  }

  function Parties(ids: seq<GoString>, purpose: string, version: nat): (ps: seq<PartyID>)
    ensures |ps| == |ids|
    ensures forall i | 0 <= i < |ids| :: ps[i] == CreatePartyID(ids[i], purpose, version)
  {
    seq(|ids|, i requires 0 <= i < |ids| => CreatePartyID(ids[i], purpose, version))
  }

  function Committee(ids: seq<GoString>, purpose: string, version: nat): seq<PartyID>
  {
    SortPartyIDs(Parties(ids, purpose, version))
  }

  method GeneratePartyIDs(nodeID: GoString, purpose: string, readyPeerIDs: seq<GoString>, version: nat)
    returns (self: Option<PartyID>, all: seq<PartyID>)
    ensures self.Some? <==> nodeID in readyPeerIDs
    ensures self.Some? ==> self.value == CreatePartyID(nodeID, purpose, version)
    ensures all == Committee(readyPeerIDs, purpose, version)
  {
    var partyIDs: seq<PartyID>;
    self, partyIDs := CreatePartyIDs(nodeID, purpose, readyPeerIDs, version);
    all := SortPartyIDs(partyIDs);
  }

  /** The loop of `generatePartyIDs`, before the sort. */
  method CreatePartyIDs(nodeID: GoString, purpose: string, readyPeerIDs: seq<GoString>, version: nat)
    returns (self: Option<PartyID>, partyIDs: seq<PartyID>)
    ensures self.Some? <==> nodeID in readyPeerIDs
    ensures self.Some? ==> self.value == CreatePartyID(nodeID, purpose, version)
    ensures partyIDs == Parties(readyPeerIDs, purpose, version)
  {
    self := None;
    partyIDs := [];
    for i := 0 to |readyPeerIDs|
      invariant |partyIDs| == i
      invariant forall j | 0 <= j < i :: partyIDs[j] == CreatePartyID(readyPeerIDs[j], purpose, version)
      invariant self.Some? ==> self.value == CreatePartyID(nodeID, purpose, version)
      invariant self.Some? <==> nodeID in readyPeerIDs[..i]
    {
      var partyID := CreatePartyID(readyPeerIDs[i], purpose, version);
      PrefixStep(readyPeerIDs, i);
      if readyPeerIDs[i] == nodeID {
        self := Some(partyID);
      }
      partyIDs := partyIDs + [partyID];
    }
  }

  predicate ValidCommittee(ids: seq<GoString>) {
    Distinct(ids) && forall i | 0 <= i < |ids| :: WellFormed(ids[i])
  }

  lemma CommitteeMembers(ids: seq<GoString>, purpose: string, version: nat)
    ensures forall p :: p in Committee(ids, purpose, version)
                   <==> exists i :: 0 <= i < |ids| && p == CreatePartyID(ids[i], purpose, version)
    ensures |Committee(ids, purpose, version)| == |ids|
  {
    var ps := Parties(ids, purpose, version);
    SortMembers(ps);
    forall p
      ensures p in ps <==> exists i :: 0 <= i < |ids| && p == CreatePartyID(ids[i], purpose, version)
    {
      if p in ps {
        var i :| 0 <= i < |ps| && ps[i] == p;
        assert p == CreatePartyID(ids[i], purpose, version);
      }
      if i :| 0 <= i < |ids| && p == CreatePartyID(ids[i], purpose, version) {
        assert ps[i] == p;
      }
    }
  }

  /** Distinct well-formed nodes give strictly increasing, hence distinct, party keys. */
  lemma CommitteeStrictlyIncreasing(ids: seq<GoString>, purpose: string, version: nat)
    requires ValidCommittee(ids)
    ensures StrictlyIncreasing(Committee(ids, purpose, version))
  {
    var ps := Parties(ids, purpose, version);
    forall i, j | 0 <= i < j < |ps| ensures ps[i].key != ps[j].key {
      if ps[i].key == ps[j].key {
        PartyKeyInjective(ids[i], version, ids[j], version);
      }
    }
    SortStrict(ps);
  }

  /** The purpose of a committee labels its parties and has no influence on their keys. */
  lemma {:induction false} SortIgnoresMoniker(ps: seq<PartyID>, qs: seq<PartyID>)
    requires |ps| == |qs| && forall i | 0 <= i < |ps| :: ps[i].key == qs[i].key
    ensures |SortPartyIDs(ps)| == |SortPartyIDs(qs)|
    ensures forall i | 0 <= i < |SortPartyIDs(ps)| :: SortPartyIDs(ps)[i].key == SortPartyIDs(qs)[i].key
  {
    if |ps| > 0 {
      SortIgnoresMoniker(ps[1..], qs[1..]);
      InsertIgnoresMoniker(ps[0], qs[0], SortPartyIDs(ps[1..]), SortPartyIDs(qs[1..]));
    }
  }

  lemma {:induction false} InsertIgnoresMoniker(p: PartyID, q: PartyID, ps: seq<PartyID>, qs: seq<PartyID>)
    requires p.key == q.key && |ps| == |qs| && forall i | 0 <= i < |ps| :: ps[i].key == qs[i].key
    ensures |Insert(p, ps)| == |Insert(q, qs)|
    ensures forall i | 0 <= i < |Insert(p, ps)| :: Insert(p, ps)[i].key == Insert(q, qs)[i].key
  {
    if |ps| > 0 && p.key > ps[0].key {
      InsertIgnoresMoniker(p, q, ps[1..], qs[1..]);
    }
  }

  lemma CommitteePurpose(ids: seq<GoString>, purpose: string, other: string, version: nat)
    ensures var a, b := Committee(ids, purpose, version), Committee(ids, other, version);
            && |a| == |b| && (forall i | 0 <= i < |a| :: a[i].key == b[i].key)
            && forall p | p in a :: p.moniker == purpose
  {
    SortIgnoresMoniker(Parties(ids, purpose, version), Parties(ids, other, version));
    CommitteeMembers(ids, purpose, version);
  }

  lemma EmptyHasNoMember(ps: seq<PartyID>)
    ensures |ps| == 0 <==> forall p :: p !in ps
  {
    assert |ps| > 0 ==> ps[0] in ps;
  }

  lemma {:induction false} StrictOrderUnique(a: seq<PartyID>, b: seq<PartyID>)
    requires StrictlyIncreasing(a) && StrictlyIncreasing(b)
    requires forall p :: p in a <==> p in b
    ensures a == b
  {
    EmptyHasNoMember(a);
    EmptyHasNoMember(b);
    if |a| > 0 {
      assert a[0] in b && b[0] in a;
      assert a[0] == b[0];
      forall p ensures p in a[1..] <==> p in b[1..] {
        assert p in a[1..] <==> p in a && p != a[0];
        assert p in b[1..] <==> p in b && p != b[0];
      }
      StrictOrderUnique(a[1..], b[1..]);
      assert a == [a[0]] + a[1..] && b == [b[0]] + b[1..];
    }
  }

  /** Two nodes that see the same ready peers in different orders build the same committee. */
  lemma CommitteeIgnoresOrder(a: seq<GoString>, b: seq<GoString>, purpose: string, version: nat)
    requires ValidCommittee(a) && ValidCommittee(b)
    requires forall id :: id in a <==> id in b
    ensures Committee(a, purpose, version) == Committee(b, purpose, version)
  {
    CommitteeStrictlyIncreasing(a, purpose, version);
    CommitteeStrictlyIncreasing(b, purpose, version);
    CommitteeSubset(a, b, purpose, version);
    CommitteeSubset(b, a, purpose, version);
    StrictOrderUnique(Committee(a, purpose, version), Committee(b, purpose, version));
  }

  lemma CommitteeSubset(a: seq<GoString>, b: seq<GoString>, purpose: string, version: nat)
    requires forall id :: id in a ==> id in b
    ensures forall p :: p in Committee(a, purpose, version) ==> p in Committee(b, purpose, version)
  {
    CommitteeMembers(a, purpose, version);
    CommitteeMembers(b, purpose, version);
    forall p | p in Committee(a, purpose, version) ensures p in Committee(b, purpose, version) {
      var i :| 0 <= i < |a| && p == CreatePartyID(a[i], purpose, version);
      assert a[i] in b;
      var j :| 0 <= j < |b| && b[j] == a[i];
    }
  }

  /** The node IDs read back from a committee (`partyIDsToNodeIDs`). */
  function NodeIDs(ps: seq<PartyID>): (ids: seq<string>)
    ensures |ids| == |ps|
    ensures forall i | 0 <= i < |ps| :: ids[i] == PartyIDToNodeID(Some(ps[i]))
  {
    seq(|ps|, i requires 0 <= i < |ps| => PartyIDToNodeID(Some(ps[i])))
  }

  lemma CommitteeNodeIDs(ids: seq<GoString>, purpose: string, version: nat)
    requires forall i | 0 <= i < |ids| :: WellFormed(ids[i])
    ensures forall id :: id in NodeIDs(Committee(ids, purpose, version)) <==> id in ids
  {
    var ps := Committee(ids, purpose, version);
    CommitteeMembers(ids, purpose, version);
    forall k | 0 <= k < |ps| ensures NodeIDs(ps)[k] in ids {
      assert ps[k] in ps;
      var i :| 0 <= i < |ids| && ps[k] == CreatePartyID(ids[i], purpose, version);
      WellFormedDecodes(ids[i], purpose, version);
    }
    forall i | 0 <= i < |ids| ensures ids[i] in NodeIDs(ps) {
      WellFormedDecodes(ids[i], purpose, version);
      var p := CreatePartyID(ids[i], purpose, version);
      assert p in ps;
      var k :| 0 <= k < |ps| && ps[k] == p;
      assert NodeIDs(ps)[k] == ids[i];
    }
  }
}
