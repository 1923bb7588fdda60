/** Creation of signing and resharing sessions (pkg/mpc/node.go, pkg/mpc/ecdsa_signing_session.go). */
module Sessions {
  import opened Results
  import opened Lists
  import opened GoStrings
  import opened KeyNames
  import opened PartyIds

  const PURPOSE_KEYGEN := "keygen"
  const PURPOSE_RESHARE := "reshare"

  datatype KeyInfo = KeyInfo(participants: seq<GoString>, threshold: int, version: nat)

  datatype SigningSession = SigningSession(
    sessionType: SessionType,
    walletID: string,
    participants: seq<GoString>,
    self: Option<PartyID>,
    parties: seq<PartyID>,
    threshold: int)

  datatype ReshareSession = ReshareSession(
    sessionType: SessionType,
    walletID: string,
    isNewParty: bool,
    self: Option<PartyID>,
    parties: seq<PartyID>,
    oldPeerIDs: seq<string>,
    newPeerIDs: seq<GoString>,
    oldThreshold: int,
    newThreshold: int,
    version: nat)

  datatype ReshareOutcome = Failed(error: string) | Skipped | Created(session: ReshareSession)

  function ReadyParticipants(participants: seq<GoString>, ready: seq<GoString>): seq<GoString> {
    Filter(participants, Elements(ready))
  }

  method GetReadyPeersForSession(participants: seq<GoString>, ready: seq<GoString>)
    returns (ids: seq<GoString>)
    ensures ids == ReadyParticipants(participants, ready)
  {
    ids := [];
    for i := 0 to |participants|
      invariant ids == ReadyParticipants(participants[..i], ready)
    {
      assert participants[..i + 1][..i] == participants[..i];
      if participants[i] in ready {
        ids := ids + [participants[i]];
      }
    }
    assert participants[..|participants|] == participants;
  }

  /** What a created signing session promises about its key info and the ready peers. */
  ghost predicate SigningQuorum(s: SigningSession, info: KeyInfo, ready: seq<GoString>, nodeID: GoString) {
    && s.self == Some(CreatePartyID(nodeID, PURPOSE_KEYGEN, info.version))
    && s.self.value in s.parties
    && (forall id :: id in s.participants <==> id in info.participants && id in ready)
    && (forall p :: p in s.parties <==>
          exists id | id in s.participants :: p == CreatePartyID(id, PURPOSE_KEYGEN, info.version))
    && |s.parties| == |s.participants| >= info.threshold + 1
    && s.threshold == info.threshold
  }

  /** `ready` is what `GetReadyPeersIncludeSelf` returned, so it holds the node itself. */
  method CreateSigningSession(
      nodeID: GoString, sessionType: SessionType, walletID: string,
      infos: map<string, KeyInfo>, ready: seq<GoString>)
    returns (r: Result<SigningSession>)
    requires nodeID in ready
    ensures r.Ok? <==>
              && ComposeKey(sessionType, walletID) in infos
              && var info := infos[ComposeKey(sessionType, walletID)];
                 |ReadyParticipants(info.participants, ready)| >= info.threshold + 1
                 && nodeID in info.participants
    ensures r.Ok? ==>
              var info := infos[ComposeKey(sessionType, walletID)];
              && r.value.sessionType == sessionType && r.value.walletID == walletID
              && r.value.participants == ReadyParticipants(info.participants, ready)
              && r.value.parties == Committee(r.value.participants, PURPOSE_KEYGEN, info.version)
              && SigningQuorum(r.value, info, ready, nodeID)
  {
    var key := ComposeKey(sessionType, walletID);
    if key !in infos {
      return Err("Key info not found");
    }
    var info := infos[key];
    var ids := GetReadyPeersForSession(info.participants, ready);
    if |ids| < info.threshold + 1 {
      return Err("not enough peers to create signing session");
    }
    if nodeID !in info.participants {
      return Err("Node is not in the participant list");
    }
    var self, all := GeneratePartyIDs(nodeID, PURPOSE_KEYGEN, ids, info.version);
    var s := SigningSession(sessionType, walletID, ids, self, all, info.threshold);
    SigningQuorumHolds(s, info, ready, nodeID);
    return Ok(s);
  }

  lemma SigningQuorumHolds(s: SigningSession, info: KeyInfo, ready: seq<GoString>, nodeID: GoString)
    requires nodeID in ready && nodeID in info.participants
    requires s.participants == ReadyParticipants(info.participants, ready)
    requires |s.participants| >= info.threshold + 1 && s.threshold == info.threshold
    requires s.self == Some(CreatePartyID(nodeID, PURPOSE_KEYGEN, info.version))
    requires s.parties == Committee(s.participants, PURPOSE_KEYGEN, info.version)
    ensures SigningQuorum(s, info, ready, nodeID)
  {
    CommitteeMembersByID(s.participants, PURPOSE_KEYGEN, info.version);
    assert nodeID in s.participants;
  }

  lemma CommitteeMembersByID(ids: seq<GoString>, purpose: string, version: nat)
    ensures forall p :: p in Committee(ids, purpose, version) <==>
                   exists id | id in ids :: p == CreatePartyID(id, purpose, version)
    ensures |Committee(ids, purpose, version)| == |ids|
  {
    CommitteeMembers(ids, purpose, version);
    forall p
      ensures p in Committee(ids, purpose, version) <==>
                exists id | id in ids :: p == CreatePartyID(id, purpose, version)
    {
      if p in Committee(ids, purpose, version) {
        var i :| 0 <= i < |ids| && p == CreatePartyID(ids[i], purpose, version);
        assert ids[i] in ids;
      }
      if id :| id in ids && p == CreatePartyID(id, purpose, version) {
        var i :| 0 <= i < |ids| && ids[i] == id;
      }
    }
  }

  lemma SelfInCommittee(nodeID: GoString, ids: seq<GoString>, purpose: string, version: nat)
    requires nodeID in ids
    ensures CreatePartyID(nodeID, purpose, version) in Committee(ids, purpose, version)
  {
    CommitteeMembersByID(ids, purpose, version);
  }

  /** What `lo.Intersect` promises: the common elements, in some number of copies each. */
  ghost predicate IsIntersection(common: seq<GoString>, a: seq<GoString>, b: seq<GoString>) {
    forall id :: id in common <==> id in a && id in b
  }

  /** The two quorum checks at the start of `Init`; `common` is what `lo.Intersect` returned. */
  predicate InitQuorumChecks(s: SigningSession, info: KeyInfo, common: seq<GoString>) {
    |s.participants| >= info.threshold + 1 && |common| >= info.threshold + 1
  }

  /** While key info is unchanged, `Init` accepts a created session whose participant list has no
      repetitions, however often the intersection lists an ID. With repetitions it depends on
      that: listing each common ID once, `Init` accepts exactly when threshold + 1 different
      participants are ready; listing every match of the participants, it always accepts. */
  lemma InitAcceptsCreatedSession(
      s: SigningSession, info: KeyInfo, ready: seq<GoString>, nodeID: GoString, common: seq<GoString>)
    requires SigningQuorum(s, info, ready, nodeID)
    requires s.participants == ReadyParticipants(info.participants, ready)
    requires IsIntersection(common, s.participants, info.participants)
    ensures Distinct(info.participants) ==> InitQuorumChecks(s, info, common)
    ensures Distinct(common) ==>
              (InitQuorumChecks(s, info, common)
               <==> |Elements(info.participants) * Elements(ready)| >= info.threshold + 1)
    ensures common == Filter(info.participants, Elements(s.participants)) ==> InitQuorumChecks(s, info, common)
  {
    ElementCount(common);
    assert Elements(common) == Elements(info.participants) * Elements(ready);
    if Distinct(info.participants) {
      FilterDistinct(info.participants, Elements(ready));
      ElementCount(s.participants);
      assert Elements(s.participants) == Elements(common);
    }
    FilterBySame(info.participants, Elements(ready), Elements(s.participants));
  }

  /** A repeated participant slips past session creation; whether `Init` stops it depends on
      whether the intersection repeats it too. */
  lemma RepeatedParticipantExample()
    ensures ReadyParticipants(["a", "a"], ["a"]) == ["a", "a"]
    ensures IsIntersection(["a"], ["a", "a"], ["a", "a"]) && IsIntersection(["a", "a"], ["a", "a"], ["a", "a"])
    ensures forall s: SigningSession | s.participants == ["a", "a"] ::
              && !InitQuorumChecks(s, KeyInfo(["a", "a"], 1, 1), ["a"])
              && InitQuorumChecks(s, KeyInfo(["a", "a"], 1, 1), ["a", "a"])
  {
    var two: seq<GoString> := ["a", "a"];
    var one: seq<GoString> := ["a"];
    assert two[..1] == one && one[..0] == [];
    assert Filter(one, Elements(one)) == one;
  }

  // ---- resharing ----

  /** The committees of a reshare at `version`: old members keep their version's keys, new
      members get keys of the next version, and the session's own party belongs to its side. */
  ghost predicate ReshareParties(
      s: ReshareSession, version: nat, readyOld: seq<GoString>, newPeerIDs: seq<GoString>, nodeID: GoString)
  {
    && s.newPeerIDs == newPeerIDs
    && s.oldPeerIDs == NodeIDs(Committee(readyOld, PURPOSE_KEYGEN, version))
    && s.self.Some? && s.self.value in s.parties
    && (if s.isNewParty then
          && nodeID in newPeerIDs
          && s.parties == Committee(newPeerIDs, PURPOSE_RESHARE, version + 1)
          && s.self.value == CreatePartyID(nodeID, PURPOSE_RESHARE, version + 1)
        else
          && nodeID in readyOld
          && s.parties == Committee(readyOld, PURPOSE_KEYGEN, version)
          && s.self.value == CreatePartyID(nodeID, PURPOSE_KEYGEN, version))
  }

  ghost predicate ReshareQuorum(
      s: ReshareSession, info: KeyInfo, newThreshold: int, newPeerIDs: seq<GoString>,
      ready: seq<GoString>, nodeID: GoString)
  {
    var readyOld := ReadyParticipants(info.participants, ready);
    && s.version == info.version
    && ReshareParties(s, info.version, readyOld, newPeerIDs, nodeID)
    && |readyOld| >= info.threshold + 1
    && (forall id :: id in newPeerIDs ==> id in ready)
    && |newPeerIDs| >= newThreshold + 1
    && s.oldThreshold == info.threshold && s.newThreshold == newThreshold
  }

  method AreAllReady(peerIDs: seq<GoString>, ready: seq<GoString>) returns (r: bool)
    ensures r <==> forall i | 0 <= i < |peerIDs| :: peerIDs[i] in ready
  {
    for i := 0 to |peerIDs|
      invariant forall j | 0 <= j < i :: peerIDs[j] in ready
    {
      if peerIDs[i] !in ready {
        return false;
      }
    }
    return true;
  }

  method CreateReshareSession(
      nodeID: GoString, sessionType: SessionType, walletID: string, newThreshold: int,
      newPeerIDs: seq<GoString>, isNewPeer: bool,
      infos: map<string, KeyInfo>, ready: seq<GoString>, readyCount: int)
    returns (r: ReshareOutcome)
    requires nodeID in ready
    ensures readyCount < newThreshold + 1 || |newPeerIDs| < newThreshold + 1 ==> r.Failed?
    ensures (exists id | id in newPeerIDs :: id !in ready) ==> r.Failed?
    ensures ComposeKey(sessionType, walletID) !in infos ==> r.Failed?
    ensures readyCount >= newThreshold + 1 && |newPeerIDs| >= newThreshold + 1
            && (forall id | id in newPeerIDs :: id in ready) && ComposeKey(sessionType, walletID) in infos ==>
              var info := infos[ComposeKey(sessionType, walletID)];
              if nodeID !in (if isNewPeer then newPeerIDs else info.participants) then r.Skipped?
              else if |ReadyParticipants(info.participants, ready)| < info.threshold + 1 then r.Failed?
              else
                && r.Created? && r.session.isNewParty == isNewPeer
                && r.session.sessionType == sessionType && r.session.walletID == walletID
                && ReshareQuorum(r.session, info, newThreshold, newPeerIDs, ready, nodeID)
  {
    if readyCount < newThreshold + 1 {
      return Failed("not enough peers to create reshare session");
    }
    if |newPeerIDs| < newThreshold + 1 {
      return Failed("new peer list is smaller than required t+1");
    }
    var allReady := AreAllReady(newPeerIDs, ready);
    if !allReady {
      return Failed("new peer is not ready");
    }
    var key := ComposeKey(sessionType, walletID);
    if key !in infos {
      return Failed("failed to get old key info");
    }
    var info := infos[key];
    var readyOld := GetReadyPeersForSession(info.participants, ready);
    if isNewPeer && nodeID !in newPeerIDs {
      return Skipped;
    }
    if !isNewPeer && nodeID !in info.participants {
      return Skipped;
    }
    if |readyOld| < info.threshold + 1 {
      return Failed("not enough peers to create resharing session");
    }
    var s := NewReshareSession(
      nodeID, sessionType, walletID, newThreshold, newPeerIDs, isNewPeer, info, readyOld);
    return Created(s);
  }

  method NewReshareSession(
      nodeID: GoString, sessionType: SessionType, walletID: string, newThreshold: int,
      newPeerIDs: seq<GoString>, isNewPeer: bool, info: KeyInfo, readyOld: seq<GoString>)
    returns (s: ReshareSession)
    requires nodeID in (if isNewPeer then newPeerIDs else readyOld)
    ensures s.isNewParty == isNewPeer && s.sessionType == sessionType && s.walletID == walletID
    ensures s.version == info.version && ReshareParties(s, info.version, readyOld, newPeerIDs, nodeID)
    ensures s.oldThreshold == info.threshold && s.newThreshold == newThreshold
  {
    var oldSelf, oldAll := GeneratePartyIDs(nodeID, PURPOSE_KEYGEN, readyOld, info.version);
    var newSelf, newAll := GeneratePartyIDs(nodeID, PURPOSE_RESHARE, newPeerIDs, info.version + 1);
    s := ReshareSession(
      sessionType, walletID, isNewPeer,
      if isNewPeer then newSelf else oldSelf,
      if isNewPeer then newAll else oldAll,
      NodeIDs(oldAll), newPeerIDs, info.threshold, newThreshold, info.version);
    if isNewPeer {
      SelfInCommittee(nodeID, newPeerIDs, PURPOSE_RESHARE, info.version + 1);
    } else {
      SelfInCommittee(nodeID, readyOld, PURPOSE_KEYGEN, info.version);
    }
  }

  /** `GetLegacyCommitteePeers`: old members that are not in the new committee. */
  method GetLegacyCommitteePeers(oldPeerIDs: seq<string>, newPeerIDs: seq<string>)
    returns (legacy: seq<string>)
    ensures forall id :: id in legacy <==> id in oldPeerIDs && id !in newPeerIDs
    ensures legacy == Filter(oldPeerIDs, Elements(oldPeerIDs) - Elements(newPeerIDs))
  {
    var seen: set<string> := {};
    for i := 0 to |newPeerIDs|
      invariant seen == Elements(newPeerIDs[..i])
    {
      seen := seen + {newPeerIDs[i]};
    }
    assert newPeerIDs[..|newPeerIDs|] == newPeerIDs;
    ghost var keep := Elements(oldPeerIDs) - Elements(newPeerIDs);
    legacy := [];
    for i := 0 to |oldPeerIDs|
      invariant legacy == Filter(oldPeerIDs[..i], keep)
    {
      assert oldPeerIDs[..i + 1][..i] == oldPeerIDs[..i];
      if oldPeerIDs[i] !in seen {
        legacy := legacy + [oldPeerIDs[i]];
      }
    }
    assert oldPeerIDs[..|oldPeerIDs|] == oldPeerIDs;
  }
}
