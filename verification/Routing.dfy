/**
 Direct messages between parties (pkg/mpc/session.go): topics, subscriptions, delivery,
 and the reshare case in which one node runs an old-committee and a new-committee session.
 */
module Routing {
  import opened Results
  import opened Lists
  import opened GoStrings
  import opened KeyNames
  import opened PartyIds
  import opened Sessions

  datatype Operation = Keygen | Reshare | Sign

  datatype TssMessage = TssMessage(walletID: string, body: string, isBroadcast: bool, from: PartyID, to: seq<PartyID>)

  /** AES-GCM as an ideal cipher: only the sealing key opens a message. `Empty` is what is
      sent after encryption failed. */
  datatype Wire = Plain(msg: TssMessage) | Sealed(key: string, msg: TssMessage) | Empty

  datatype Send = Send(topic: string, toSelf: bool, wire: Wire)

  datatype Delivery = Applied(msg: TssMessage) | Ignored | Rejected(error: string)

  // ---- topics ----

  /** The three colon-free fields a direct topic starts with. */
  function TopicHead(op: Operation, st: SessionType): (string, string, string) {
    match op
    case Keygen => ("keygen", "direct", KeyPrefix(st))
    case Reshare => (if st == ECDSA then "resharing" else "reshare", "direct", KeyPrefix(st))
    case Sign => ("sign", KeyPrefix(st), "direct")
  }

  /** `id` is the wallet ID, or the transaction ID when signing. */
  function DirectTopic(op: Operation, st: SessionType, fromID: string, toID: string, id: string): string {
    var (a, b, c) := TopicHead(op, st);
    Colon(a, Colon(b, Colon(c, Colon(fromID, Colon(toID, id)))))
  }

  function Colon(head: string, rest: string): string {
    head + ":" + rest
  }

  /** What the six topic composers print before the sender. */
  function TopicLiteral(op: Operation, st: SessionType): string {
    match (op, st)
    case (Keygen, ECDSA) => "keygen:direct:ecdsa:"
    case (Keygen, EDDSA) => "keygen:direct:eddsa:"
    case (Reshare, ECDSA) => "resharing:direct:ecdsa:"
    case (Reshare, EDDSA) => "reshare:direct:eddsa:"
    case (Sign, ECDSA) => "sign:ecdsa:direct:"
    case (Sign, EDDSA) => "sign:eddsa:direct:"
  }

  /** A direct topic is the composer's text. */
  lemma TopicText(op: Operation, st: SessionType, fromID: string, toID: string, id: string)
    ensures DirectTopic(op, st, fromID, toID, id) == TopicLiteral(op, st) + fromID + ":" + toID + ":" + id
  {
    var (a, b, c) := TopicHead(op, st);
    HeadText(op, st);
    SixFields(a, b, c, fromID, toID, id);
  }

  lemma HeadText(op: Operation, st: SessionType)
    ensures var (a, b, c) := TopicHead(op, st); TopicLiteral(op, st) == (a + ":" + b + ":" + c + ":")
  {
    match op
    case Keygen => KeygenText();
    case Reshare => ReshareText();
    case Sign => SignText();
  }

  lemma KeygenText()
    ensures "keygen" + ":" + "direct" + ":" + "ecdsa" + ":" == "keygen:direct:ecdsa:"
    ensures "keygen" + ":" + "direct" + ":" + "eddsa" + ":" == "keygen:direct:eddsa:"
  {}

  lemma ReshareText()
    ensures "resharing" + ":" + "direct" + ":" + "ecdsa" + ":" == "resharing:direct:ecdsa:"
    ensures "reshare" + ":" + "direct" + ":" + "eddsa" + ":" == "reshare:direct:eddsa:"
  {}

  lemma SignText()
    ensures "sign" + ":" + "ecdsa" + ":" + "direct" + ":" == "sign:ecdsa:direct:"
    ensures "sign" + ":" + "eddsa" + ":" + "direct" + ":" == "sign:eddsa:direct:"
  {}

  lemma SixFields(a: string, b: string, c: string, d: string, e: string, f: string)
    ensures Colon(a, Colon(b, Colon(c, Colon(d, Colon(e, f)))))
         == (a + ":" + b + ":" + c + ":") + d + ":" + e + ":" + f
  {}

  lemma SplitColon(head: string, rest: string, n: nat)
    requires ':' !in head && n > 1
    ensures SplitN(Colon(head, rest), ':', n) == [head] + SplitN(rest, ':', n - 1)
  {
    assert Colon(head, rest) == head + [':'] + rest;
    SplitNCons(head, rest, ':', n);
  }

  lemma FieldsColonFree(op: Operation, st: SessionType)
    ensures var (a, b, c) := TopicHead(op, st); ':' !in a && ':' !in b && ':' !in c
  {}

  function ExtractSenderID(topic: string): string {
    var parts := SplitN(topic, ':', 5);
    if |parts| >= 4 then parts[3] else ""
  }

  lemma TopicFields(op: Operation, st: SessionType, fromID: string, toID: string, id: string)
    requires ':' !in fromID
    ensures var (a, b, c) := TopicHead(op, st);
            SplitN(DirectTopic(op, st, fromID, toID, id), ':', 5) == [a, b, c, fromID, Colon(toID, id)]
  {
    var (a, b, c) := TopicHead(op, st);
    FieldsColonFree(op, st);
    FourFields(a, b, c, fromID, Colon(toID, id));
  }

  lemma FourFields(a: string, b: string, c: string, d: string, rest: string)
    requires ':' !in a && ':' !in b && ':' !in c && ':' !in d
    ensures SplitN(Colon(a, Colon(b, Colon(c, Colon(d, rest)))), ':', 5) == [a, b, c, d, rest]
  {
    TwoFields(a, b, Colon(c, Colon(d, rest)), 5);
    TwoFields(c, d, rest, 3);
  }

  lemma TwoFields(a: string, b: string, rest: string, n: nat)
    requires ':' !in a && ':' !in b && n > 2
    ensures SplitN(Colon(a, Colon(b, rest)), ':', n) == [a, b] + SplitN(rest, ':', n - 2)
  {
    SplitColon(a, Colon(b, rest), n);
    SplitColon(b, rest, n - 1);
  }

  /** The sender is read back from the topic whatever the wallet or transaction ID contains. */
  lemma SenderRecovered(op: Operation, st: SessionType, fromID: string, toID: string, id: string)
    requires ':' !in fromID
    ensures ExtractSenderID(DirectTopic(op, st, fromID, toID, id)) == fromID
  {
    TopicFields(op, st, fromID, toID, id);
  }

  /** Two sessions meet on a topic only if operation, curve, wallet, sender and receiver agree. */
  lemma TopicInjective(
      op: Operation, st: SessionType, fromID: string, toID: string, id: string,
      op': Operation, st': SessionType, fromID': string, toID': string, id': string)
    requires ':' !in fromID && ':' !in toID && ':' !in fromID' && ':' !in toID'
    requires DirectTopic(op, st, fromID, toID, id) == DirectTopic(op', st', fromID', toID', id')
    ensures op == op' && st == st' && fromID == fromID' && toID == toID' && id == id'
  {
    TopicFields(op, st, fromID, toID, id);
    TopicFields(op', st', fromID', toID', id');
    var parts := SplitN(DirectTopic(op, st, fromID, toID, id), ':', 5);
    assert TopicHead(op, st) == (parts[0], parts[1], parts[2]) == TopicHead(op', st');
    assert parts[3] == fromID == fromID';
    assert parts[4] == Colon(toID, id) == Colon(toID', id');
    SplitColon(toID, id, 2);
    SplitColon(toID', id', 2);
    assert [toID] + [id] == [toID'] + [id'];
    assert ([toID] + [id])[0] == toID && ([toID] + [id])[1] == id;
    HeadDeterminesOperation(op, st, op', st');
  }

  lemma HeadDeterminesOperation(op: Operation, st: SessionType, op': Operation, st': SessionType)
    requires TopicHead(op, st) == TopicHead(op', st')
    ensures op == op' && st == st'
  {
    assert "ecdsa"[1] == 'c' && "eddsa"[1] == 'd' && "direct"[0] == 'd';
    assert "keygen"[0] == 'k' && "sign"[0] == 's' && "reshare"[0] == 'r' && "resharing"[0] == 'r';
  }

  // ---- sending and receiving ----

  /** What `handleTssMessage` sends to one destination. */
  function SendTo(
      op: Operation, st: SessionType, id: string, self: PartyID, to: PartyID,
      msg: TssMessage, keys: map<string, string>): Send
  {
    var selfID, toID := PartyIDToNodeID(Some(self)), PartyIDToNodeID(Some(to));
    var topic := DirectTopic(op, st, selfID, toID, id);
    if selfID == toID then Send(topic, true, Plain(msg))
    else Send(topic, false, if toID in keys then Sealed(keys[toID], msg) else Empty)
  }

  function SendsFor(
      op: Operation, st: SessionType, id: string, self: PartyID,
      msg: TssMessage, keys: map<string, string>): (sends: seq<Send>)
    ensures |sends| == |msg.to|
    ensures forall i | 0 <= i < |msg.to| :: sends[i] == SendTo(op, st, id, self, msg.to[i], msg, keys)
  {
    seq(|msg.to|, i requires 0 <= i < |msg.to| => SendTo(op, st, id, self, msg.to[i], msg, keys))
  }

  predicate AddressedTo(self: PartyID, msg: TssMessage) {
    || (msg.isBroadcast && |msg.to| == 0)
    || exists i :: 0 <= i < |msg.to| && ComparePartyIDs(msg.to[i], self)
  }

  function Dispatch(self: PartyID, msg: TssMessage): Delivery {
    if AddressedTo(self, msg) then Applied(msg) else Ignored
  }

  /** What `receiveP2PTssMessage` does with one arriving message. */
  function Receive(self: PartyID, topic: string, wire: Wire, keys: map<string, string>): Delivery {
    var senderID := ExtractSenderID(topic);
    if senderID == "" then Rejected("failed to extract senderID from direct topic")
    else if senderID == PartyIDToNodeID(Some(self)) then
      if wire.Plain? then Dispatch(self, wire.msg) else Rejected("failed to unmarshal message")
    else if wire.Sealed? && senderID in keys && keys[senderID] == wire.key then Dispatch(self, wire.msg)
    else Rejected("failed to decrypt message")
  }

  function TopicsFrom(op: Operation, st: SessionType, id: string, self: PartyID, fromIDs: seq<string>): (ts: seq<string>)
    ensures |ts| == |fromIDs|
    ensures forall i | 0 <= i < |fromIDs| ::
              ts[i] == DirectTopic(op, st, fromIDs[i], PartyIDToNodeID(Some(self)), id)
  {
    seq(|fromIDs|, i requires 0 <= i < |fromIDs| =>
      DirectTopic(op, st, fromIDs[i], PartyIDToNodeID(Some(self)), id))
  }

  /** A running session: its subscriptions grow, its party is updated by accepted messages. */
  class Session {
    const op: Operation
    const sessionType: SessionType
    const id: string
    const self: PartyID
    const parties: seq<PartyID>
    var directSubs: seq<string>
    var applied: seq<TssMessage>
    var errors: seq<string>

    constructor (op: Operation, sessionType: SessionType, id: string, self: PartyID, parties: seq<PartyID>)
      ensures this.op == op && this.sessionType == sessionType && this.id == id
      ensures this.self == self && this.parties == parties
      ensures directSubs == [] && applied == [] && errors == []
    {
      this.op, this.sessionType, this.id := op, sessionType, id;
      this.self, this.parties := self, parties;
      directSubs, applied, errors := [], [], [];
    }

    function Topics(fromIDs: seq<string>): seq<string> {
      TopicsFrom(op, sessionType, id, self, fromIDs)
    }

    method SubscribeFromPeers(fromIDs: seq<string>)
      modifies this`directSubs
      ensures directSubs == old(directSubs) + Topics(fromIDs)
    {
      var toID := PartyIDToNodeID(Some(self));
      for i := 0 to |fromIDs|
        invariant directSubs == old(directSubs) + Topics(fromIDs)[..i]
      {
        directSubs := directSubs + [DirectTopic(op, sessionType, fromIDs[i], toID, id)];
      }
    }

    method ListenToIncomingMessage()
      modifies this`directSubs
      ensures directSubs == old(directSubs) + Topics(NodeIDs(parties))
    {
      SubscribeFromPeers(NodeIDs(parties));
    }

    method ReceiveP2P(topic: string, wire: Wire, keys: map<string, string>)
      modifies this`applied, this`errors
      ensures match Receive(self, topic, wire, keys)
              case Applied(m) => applied == old(applied) + [m] && errors == old(errors)
              case Ignored => applied == old(applied) && errors == old(errors)
              case Rejected(e) => applied == old(applied) && errors == old(errors) + [e]
    {
      var senderID := ExtractSenderID(topic);
      if senderID == "" {
        errors := errors + ["failed to extract senderID from direct topic"];
        return;
      }
      if senderID == PartyIDToNodeID(Some(self)) {
        if !wire.Plain? {
          errors := errors + ["failed to unmarshal message"];
          return;
        }
      } else if !wire.Sealed? || senderID !in keys || keys[senderID] != wire.key {
        errors := errors + ["failed to decrypt message"];
        return;
      }
      ReceiveTssMessage(wire.msg);
    }

    method ReceiveTssMessage(msg: TssMessage)
      modifies this`applied
      ensures applied == if AddressedTo(self, msg) then old(applied) + [msg] else old(applied)
    {
      var isToSelf := false;
      for i := 0 to |msg.to|
        invariant isToSelf <==> exists j :: 0 <= j < i && ComparePartyIDs(msg.to[j], self)
      {
        if ComparePartyIDs(msg.to[i], self) {
          isToSelf := true;
          break;
        }
      }
      if (msg.isBroadcast && |msg.to| == 0) || isToSelf {
        applied := applied + [msg];
      }
    }

    /** Direct sends of `handleTssMessage`; a message without destinations is published instead. */
    method HandleTssMessage(msg: TssMessage, keys: map<string, string>) returns (sends: seq<Send>, published: bool)
      ensures published <==> msg.isBroadcast && |msg.to| == 0
      ensures sends == SendsFor(op, sessionType, id, self, msg, keys)
    {
      sends, published := [], msg.isBroadcast && |msg.to| == 0;
      ghost var all := SendsFor(op, sessionType, id, self, msg, keys);
      for i := 0 to |msg.to|
        invariant sends == all[..i]
      {
        var send := SendDirect(msg.to[i], msg, keys);
        assert send == all[i];
        PrefixStep(all, i);
        sends := sends + [send];
      }
    }

    method SendDirect(to: PartyID, msg: TssMessage, keys: map<string, string>) returns (send: Send)
      ensures send == SendTo(op, sessionType, id, self, to, msg, keys)
    {
      var selfID, toNodeID := PartyIDToNodeID(Some(self)), PartyIDToNodeID(Some(to));
      var topic := DirectTopic(op, sessionType, selfID, toNodeID, id);
      if selfID == toNodeID {
        send := Send(topic, true, Plain(msg));
      } else {
        var cipher := Empty;
        if toNodeID in keys {
          cipher := Sealed(keys[toNodeID], msg);
        }
        send := Send(topic, false, cipher);
      }
    }
  }

  // ---- resharing: two committees on one set of topics ----

  function Side(isNew: bool, oldIDs: seq<GoString>, newIDs: seq<GoString>): seq<GoString> {
    if isNew then newIDs else oldIDs
  }

  /** A node's party on the old or the new side of a reshare at `version`. */
  function PartyOn(isNew: bool, nodeID: GoString, version: nat): PartyID {
    if isNew then CreatePartyID(nodeID, PURPOSE_RESHARE, version + 1)
    else CreatePartyID(nodeID, PURPOSE_KEYGEN, version)
  }

  function CommitteeOn(isNew: bool, oldIDs: seq<GoString>, newIDs: seq<GoString>, version: nat): seq<PartyID> {
    if isNew then Committee(newIDs, PURPOSE_RESHARE, version + 1)
    else Committee(oldIDs, PURPOSE_KEYGEN, version)
  }

  /** The peers the reshare handler makes a session listen to: its own committee, then the
      legacy peers (new side) or the whole new committee (old side). */
  function ListenedPeers(isNew: bool, oldIDs: seq<GoString>, newIDs: seq<GoString>, version: nat): seq<string> {
    var own := NodeIDs(CommitteeOn(isNew, oldIDs, newIDs, version));
    var oldPeerIDs := NodeIDs(CommitteeOn(false, oldIDs, newIDs, version));
    own + OtherPeers(isNew, oldPeerIDs, newIDs)
  }

  /** Whom a reshare session listens to besides its own committee: the legacy peers on the new
      side, the new committee on the old side. */
  function OtherPeers(isNew: bool, oldPeerIDs: seq<string>, nodeIDs: seq<string>): seq<string> {
    if isNew then Filter(oldPeerIDs, Elements(oldPeerIDs) - Elements(nodeIDs)) else nodeIDs
  }

  /** What a session is subscribed to after the handler's listening calls. */
  ghost predicate Subscribed(
      session: Session, before: seq<string>, isNew: bool, oldPeerIDs: seq<string>, nodeIDs: seq<string>)
    reads session
  {
    session.directSubs == before + session.Topics(NodeIDs(session.parties))
                          + session.Topics(OtherPeers(isNew, oldPeerIDs, nodeIDs))
  }

  /** The listening calls of the reshare handler, in its order. */
  method ListenForReshare(oldSession: Session?, newSession: Session?, oldPeerIDs: seq<string>, nodeIDs: seq<string>)
    requires oldSession != newSession || oldSession == null
    modifies if oldSession == null then {} else {oldSession}
    modifies if newSession == null then {} else {newSession}
    ensures oldSession != null ==>
              Subscribed(oldSession, old(oldSession.directSubs), false, oldPeerIDs, nodeIDs)
    ensures newSession != null ==>
              Subscribed(newSession, old(newSession.directSubs), true, oldPeerIDs, nodeIDs)
    ensures oldSession != null ==>
              oldSession.applied == old(oldSession.applied) && oldSession.errors == old(oldSession.errors)
    ensures newSession != null ==>
              newSession.applied == old(newSession.applied) && newSession.errors == old(newSession.errors)
  {
    if oldSession != null {
      oldSession.ListenToIncomingMessage();
    }
    if newSession != null {
      newSession.ListenToIncomingMessage();
      var legacy := GetLegacyCommitteePeers(oldPeerIDs, nodeIDs);
      newSession.SubscribeFromPeers(legacy);
    }
    if oldSession != null {
      oldSession.SubscribeFromPeers(nodeIDs);
    }
  }

  lemma TopicsAppend(op: Operation, st: SessionType, id: string, self: PartyID, a: seq<string>, b: seq<string>)
    ensures TopicsFrom(op, st, id, self, a + b) == TopicsFrom(op, st, id, self, a) + TopicsFrom(op, st, id, self, b)
  {}

  /** The session is the one its node runs on that side of a reshare. */
  ghost predicate RunsOn(
      session: Session, st: SessionType, walletID: string, isNew: bool, nodeID: GoString,
      oldIDs: seq<GoString>, newIDs: seq<GoString>, version: nat)
  {
    && session.op == Reshare && session.sessionType == st && session.id == walletID
    && session.self == PartyOn(isNew, nodeID, version)
    && session.parties == CommitteeOn(isNew, oldIDs, newIDs, version)
  }

  /** A reshare session that the node created is one of those: its own party, its committee and
      the old peers it reports are those of its side. */
  lemma CreatedSessionIsOnItsSide(
      s: ReshareSession, info: KeyInfo, newThreshold: int, newPeerIDs: seq<GoString>, ready: seq<GoString>, nodeID: GoString)
    requires ReshareQuorum(s, info, newThreshold, newPeerIDs, ready, nodeID)
    ensures var oldIDs := ReadyParticipants(info.participants, ready);
            && nodeID in Side(s.isNewParty, oldIDs, newPeerIDs)
            && s.self == Some(PartyOn(s.isNewParty, nodeID, info.version))
            && s.parties == CommitteeOn(s.isNewParty, oldIDs, newPeerIDs, info.version)
            && s.oldPeerIDs == NodeIDs(CommitteeOn(false, oldIDs, newPeerIDs, info.version))
  {}

  /** Such a session is subscribed to the topics of all peers it should listen to. */
  lemma ReshareTopicsAreListened(
      session: Session, st: SessionType, walletID: string, isNew: bool, nodeID: GoString,
      oldIDs: seq<GoString>, newIDs: seq<GoString>, version: nat, before: seq<string>)
    requires RunsOn(session, st, walletID, isNew, nodeID, oldIDs, newIDs, version)
    requires Subscribed(session, before, isNew, NodeIDs(CommitteeOn(false, oldIDs, newIDs, version)), newIDs)
    ensures forall t :: t in TopicsFrom(Reshare, st, walletID, session.self, ListenedPeers(isNew, oldIDs, newIDs, version))
                   ==> t in session.directSubs
  {
    var own := NodeIDs(CommitteeOn(isNew, oldIDs, newIDs, version));
    var oldPeerIDs := NodeIDs(CommitteeOn(false, oldIDs, newIDs, version));
    var others := OtherPeers(isNew, oldPeerIDs, newIDs);
    assert ListenedPeers(isNew, oldIDs, newIDs, version) == own + others;
    TopicsAppend(Reshare, st, walletID, session.self, own, others);
  }

  /** The routing law on the sessions themselves: whatever the sending session hands to
      `HandleTssMessage`, each send to a party of the listening session is on a topic that this
      session subscribed to in `ListenForReshare`, and it alone on its node applies it. */
  lemma SubscribedSessionHears(
      sender: Session, receiver: Session, st: SessionType, walletID: string, version: nat,
      oldIDs: seq<GoString>, newIDs: seq<GoString>, fromNew: bool, fromID: GoString, toNew: bool, toID: GoString,
      before: seq<string>, msg: TssMessage, i: nat, keysFrom: map<string, string>, keysTo: map<string, string>)
    requires ValidCommittee(oldIDs) && ValidCommittee(newIDs)
    requires fromID in Side(fromNew, oldIDs, newIDs) && toID in Side(toNew, oldIDs, newIDs)
    requires RunsOn(sender, st, walletID, fromNew, fromID, oldIDs, newIDs, version)
    requires RunsOn(receiver, st, walletID, toNew, toID, oldIDs, newIDs, version)
    requires Subscribed(receiver, before, toNew, NodeIDs(CommitteeOn(false, oldIDs, newIDs, version)), newIDs)
    requires i < |msg.to| && msg.to[i] == receiver.self
    requires SharedKey(fromID, toID, keysFrom, keysTo)
    ensures var send := SendsFor(sender.op, sender.sessionType, sender.id, sender.self, msg, keysFrom)[i];
            && send.topic in receiver.directSubs
            && ExtractSenderID(send.topic) == fromID
            && ReachesOnly(receiver.self, PartyOn(!toNew, toID, version), send, msg, keysTo)
  {
    assert receiver.self in msg.to;
    ReshareTopicsAreListened(receiver, st, walletID, toNew, toID, oldIDs, newIDs, version, before);
    DirectReshareMessageRouted(st, walletID, version, oldIDs, newIDs, fromNew, fromID, toNew, toID, msg, keysFrom, keysTo);
  }

  lemma OldNodeIDs(oldIDs: seq<GoString>, newIDs: seq<GoString>, version: nat)
    requires ValidCommittee(oldIDs) && ValidCommittee(newIDs)
    ensures forall isNew, id :: id in NodeIDs(CommitteeOn(isNew, oldIDs, newIDs, version))
                           <==> id in Side(isNew, oldIDs, newIDs)
  {
    CommitteeNodeIDs(oldIDs, PURPOSE_KEYGEN, version);
    CommitteeNodeIDs(newIDs, PURPOSE_RESHARE, version + 1);
  }

  /** Either side ends up listening to exactly the union of the two committees. */
  lemma ListenedPeersAreUnion(isNew: bool, oldIDs: seq<GoString>, newIDs: seq<GoString>, version: nat)
    requires ValidCommittee(oldIDs) && ValidCommittee(newIDs)
    ensures forall id :: id in ListenedPeers(isNew, oldIDs, newIDs, version) <==> id in oldIDs || id in newIDs
  {
    OldNodeIDs(oldIDs, newIDs, version);
    var own := NodeIDs(CommitteeOn(isNew, oldIDs, newIDs, version));
    var oldPeerIDs := NodeIDs(CommitteeOn(false, oldIDs, newIDs, version));
    assert forall id :: id in own <==> id in Side(isNew, oldIDs, newIDs);
    assert forall id :: id in oldPeerIDs <==> id in Side(false, oldIDs, newIDs);
  }

  lemma SidesDiffer(nodeID: GoString, version: nat)
    requires WellFormed(nodeID)
    ensures PartyOn(true, nodeID, version).key != PartyOn(false, nodeID, version).key
  {
    if PartyOn(true, nodeID, version).key == PartyOn(false, nodeID, version).key {
      PartyKeyInjective(nodeID, version + 1, nodeID, version);
    }
  }

  lemma PartyOnDecodes(isNew: bool, nodeID: GoString, version: nat)
    requires WellFormed(nodeID)
    ensures PartyIDToNodeID(Some(PartyOn(isNew, nodeID, version))) == nodeID
  {
    WellFormedDecodes(nodeID, PURPOSE_RESHARE, version + 1);
    WellFormedDecodes(nodeID, PURPOSE_KEYGEN, version);
  }

  /** The text of a send between any two nodes: the topic names both, and the message travels in
      the clear exactly to the node itself. */
  lemma SendBetween(
      op: Operation, st: SessionType, id: string, self: PartyID, to: PartyID, fromID: string, toID: string,
      msg: TssMessage, keys: map<string, string>)
    requires PartyIDToNodeID(Some(self)) == fromID && PartyIDToNodeID(Some(to)) == toID
    ensures var send := SendTo(op, st, id, self, to, msg, keys);
            && send.topic == DirectTopic(op, st, fromID, toID, id)
            && (send.toSelf <==> fromID == toID) && (send.wire.Plain? <==> fromID == toID)
  {}

  /** For every operation, curve, ID and message, and for parties of any purposes and versions:
      the topic carries both node IDs, the sender is read back from it, nothing travels in the
      clear to another node, and a party of the destination node dispatches the message exactly
      when both nodes hold the same key (or are one node); otherwise it is rejected. */
  lemma OpensAtDestination(
      op: Operation, st: SessionType, id: string, self: PartyID, to: PartyID, receiver: PartyID,
      fromID: GoString, toID: GoString, msg: TssMessage, keysFrom: map<string, string>, keysTo: map<string, string>)
    requires WellFormed(fromID) && PartyIDToNodeID(Some(self)) == fromID
    requires PartyIDToNodeID(Some(to)) == PartyIDToNodeID(Some(receiver)) == toID
    ensures var send := SendTo(op, st, id, self, to, msg, keysFrom);
            && send.topic == DirectTopic(op, st, fromID, toID, id)
            && ExtractSenderID(send.topic) == fromID
            && (send.wire.Plain? <==> fromID == toID)
            && Receive(receiver, send.topic, send.wire, keysTo)
               == if SharedKey(fromID, toID, keysFrom, keysTo) then Dispatch(receiver, msg)
                  else Rejected("failed to decrypt message")
  {
    SendBetween(op, st, id, self, to, fromID, toID, msg, keysFrom);
    SenderRecovered(op, st, fromID, toID, id);
  }

  /** One node, or two that hold the same symmetric key for each other. */
  predicate SharedKey(fromID: string, toID: string, keysFrom: map<string, string>, keysTo: map<string, string>) {
    fromID == toID || (toID in keysFrom && fromID in keysTo && keysFrom[toID] == keysTo[fromID])
  }

  /** The same for parties made by `createPartyID`, whatever their purposes and versions. */
  lemma CreatedPartiesExchange(
      op: Operation, st: SessionType, id: string, fromID: GoString, toID: GoString,
      purposes: (string, string, string), versions: (nat, nat, nat),
      msg: TssMessage, keysFrom: map<string, string>, keysTo: map<string, string>)
    requires WellFormed(fromID) && WellFormed(toID)
    ensures var receiver := CreatePartyID(toID, purposes.2, versions.2);
            var send := SendTo(op, st, id, CreatePartyID(fromID, purposes.0, versions.0),
                               CreatePartyID(toID, purposes.1, versions.1), msg, keysFrom);
            && send.topic == DirectTopic(op, st, fromID, toID, id)
            && ExtractSenderID(send.topic) == fromID
            && (send.wire.Plain? <==> fromID == toID)
            && Receive(receiver, send.topic, send.wire, keysTo)
               == if SharedKey(fromID, toID, keysFrom, keysTo) then Dispatch(receiver, msg)
                  else Rejected("failed to decrypt message")
  {
    WellFormedDecodes(fromID, purposes.0, versions.0);
    WellFormedDecodes(toID, purposes.1, versions.1);
    WellFormedDecodes(toID, purposes.2, versions.2);
    OpensAtDestination(op, st, id, CreatePartyID(fromID, purposes.0, versions.0),
                       CreatePartyID(toID, purposes.1, versions.1), CreatePartyID(toID, purposes.2, versions.2),
                       fromID, toID, msg, keysFrom, keysTo);
  }

  /** No destination of another node ever gets a message in the clear, whatever is handled. */
  lemma OtherNodesGetCiphertext(
      op: Operation, st: SessionType, id: string, self: PartyID, msg: TssMessage, keys: map<string, string>, i: nat)
    requires i < |msg.to| && PartyIDToNodeID(Some(msg.to[i])) != PartyIDToNodeID(Some(self))
    ensures !SendsFor(op, st, id, self, msg, keys)[i].wire.Plain? && !SendsFor(op, st, id, self, msg, keys)[i].toSelf
  {
    SendBetween(op, st, id, self, msg.to[i], PartyIDToNodeID(Some(self)), PartyIDToNodeID(Some(msg.to[i])), msg, keys);
  }

  // ---- key generation and signing: one committee ----

  /** A session of any operation whose own party and whose destinations are in one committee. */
  ghost predicate RunsIn(
      session: Session, op: Operation, st: SessionType, id: string, nodeID: GoString,
      ids: seq<GoString>, purpose: string, version: nat)
  {
    && session.op == op && session.sessionType == st && session.id == id
    && session.self == CreatePartyID(nodeID, purpose, version)
    && session.parties == Committee(ids, purpose, version)
  }

  /** The routing law of key generation and signing (and of either side of a reshare among its
      own members): whatever a session of the committee handles, each send to another session of
      it is on a topic that session subscribed to in `ListenToIncomingMessage`, its sender is
      recovered, and it is applied there. */
  lemma CommitteeSessionHears(
      sender: Session, receiver: Session, op: Operation, st: SessionType, id: string,
      ids: seq<GoString>, purpose: string, version: nat, fromID: GoString, toID: GoString,
      before: seq<string>, msg: TssMessage, i: nat, keysFrom: map<string, string>, keysTo: map<string, string>)
    requires ValidCommittee(ids) && fromID in ids && toID in ids
    requires RunsIn(sender, op, st, id, fromID, ids, purpose, version)
    requires RunsIn(receiver, op, st, id, toID, ids, purpose, version)
    requires receiver.directSubs == before + receiver.Topics(NodeIDs(receiver.parties))
    requires i < |msg.to| && msg.to[i] == receiver.self && SharedKey(fromID, toID, keysFrom, keysTo)
    ensures var send := SendsFor(sender.op, sender.sessionType, sender.id, sender.self, msg, keysFrom)[i];
            && send.topic in receiver.directSubs
            && ExtractSenderID(send.topic) == fromID
            && Receive(receiver.self, send.topic, send.wire, keysTo) == Applied(msg)
  {
    CreatedPartiesExchange(op, st, id, fromID, toID, (purpose, purpose, purpose), (version, version, version),
                           msg, keysFrom, keysTo);
    WellFormedDecodes(toID, purpose, version);
    CommitteeNodeIDs(ids, purpose, version);
    TopicFromPeer(op, st, id, receiver.self, NodeIDs(receiver.parties), fromID);
    DispatchByKey(receiver.self, msg);
    assert receiver.self in msg.to;
  }

  /** The addressed session applies the message; the sibling session on the same node does not,
      unless the message is addressed to it as well. */
  ghost predicate ReachesOnly(self: PartyID, sibling: PartyID, send: Send, msg: TssMessage, keys: map<string, string>) {
    && Receive(self, send.topic, send.wire, keys) == Applied(msg)
    && Receive(sibling, send.topic, send.wire, keys)
         == (if exists p :: p in msg.to && p.key == sibling.key then Applied(msg) else Ignored)
    && (msg.to == [self] ==> Receive(sibling, send.topic, send.wire, keys) == Ignored)
  }

  lemma OpenedReachesOnly(self: PartyID, sibling: PartyID, send: Send, msg: TssMessage, keys: map<string, string>)
    requires self in msg.to && self.key != sibling.key
    requires Receive(self, send.topic, send.wire, keys) == Dispatch(self, msg)
    requires Receive(sibling, send.topic, send.wire, keys) == Dispatch(sibling, msg)
    ensures ReachesOnly(self, sibling, send, msg, keys)
  {
    DispatchByKey(self, msg);
    DispatchByKey(sibling, msg);
  }

  /** The routing law of resharing: whichever sides sender and receiver are on, the addressed
      session listens to the topic, recovers the sender, and it alone applies the message. */
  lemma DirectReshareMessageRouted(
      st: SessionType, walletID: string, version: nat, oldIDs: seq<GoString>, newIDs: seq<GoString>,
      fromNew: bool, fromID: GoString, toNew: bool, toID: GoString, msg: TssMessage,
      keysFrom: map<string, string>, keysTo: map<string, string>)
    requires ValidCommittee(oldIDs) && ValidCommittee(newIDs)
    requires fromID in Side(fromNew, oldIDs, newIDs) && toID in Side(toNew, oldIDs, newIDs)
    requires PartyOn(toNew, toID, version) in msg.to
    requires SharedKey(fromID, toID, keysFrom, keysTo)
    ensures var self := PartyOn(toNew, toID, version);
            var send := SendTo(Reshare, st, walletID, PartyOn(fromNew, fromID, version), self, msg, keysFrom);
            && send.topic in TopicsFrom(Reshare, st, walletID, self,
                                        ListenedPeers(toNew, oldIDs, newIDs, version))
            && ExtractSenderID(send.topic) == fromID
            && ReachesOnly(self, PartyOn(!toNew, toID, version), send, msg, keysTo)
  {
    var self, sibling := PartyOn(toNew, toID, version), PartyOn(!toNew, toID, version);
    var send := SendTo(Reshare, st, walletID, PartyOn(fromNew, fromID, version), self, msg, keysFrom);
    var from := PartyOn(fromNew, fromID, version);
    PartyOnDecodes(fromNew, fromID, version);
    PartyOnDecodes(toNew, toID, version);
    PartyOnDecodes(!toNew, toID, version);
    OpensAtDestination(Reshare, st, walletID, from, self, self, fromID, toID, msg, keysFrom, keysTo);
    OpensAtDestination(Reshare, st, walletID, from, self, sibling, fromID, toID, msg, keysFrom, keysTo);
    SidesDiffer(toID, version);
    OpenedReachesOnly(self, sibling, send, msg, keysTo);
    TopicListened(st, walletID, version, oldIDs, newIDs, fromID, toNew, toID);
  }

  /** A party applies a message exactly when it is a broadcast without destinations, which
      reaches every party, or one of its destinations has the party's key. */
  lemma DispatchByKey(p: PartyID, msg: TssMessage)
    ensures Dispatch(p, msg)
         == if (msg.isBroadcast && msg.to == []) || exists q :: q in msg.to && q.key == p.key
            then Applied(msg) else Ignored
  {
    if i :| 0 <= i < |msg.to| && ComparePartyIDs(msg.to[i], p) {
      ComparePartyIDsIsKeyEquality(msg.to[i], p);
      assert msg.to[i] in msg.to;
    }
    if q :| q in msg.to && q.key == p.key {
      var i :| 0 <= i < |msg.to| && msg.to[i] == q;
      assert ComparePartyIDs(msg.to[i], p);
    }
  }

  lemma TopicListened(
      st: SessionType, walletID: string, version: nat, oldIDs: seq<GoString>, newIDs: seq<GoString>,
      fromID: GoString, toNew: bool, toID: GoString)
    requires ValidCommittee(oldIDs) && ValidCommittee(newIDs)
    requires (fromID in oldIDs || fromID in newIDs) && toID in Side(toNew, oldIDs, newIDs)
    ensures DirectTopic(Reshare, st, fromID, toID, walletID)
              in TopicsFrom(Reshare, st, walletID, PartyOn(toNew, toID, version),
                            ListenedPeers(toNew, oldIDs, newIDs, version))
  {
    ListenedPeersAreUnion(toNew, oldIDs, newIDs, version);
    PartyOnDecodes(toNew, toID, version);
    TopicFromPeer(Reshare, st, walletID, PartyOn(toNew, toID, version),
                  ListenedPeers(toNew, oldIDs, newIDs, version), fromID);
  }

  lemma TopicFromPeer(
      op: Operation, st: SessionType, id: string, self: PartyID, peers: seq<string>, fromID: string)
    requires fromID in peers
    ensures DirectTopic(op, st, fromID, PartyIDToNodeID(Some(self)), id) in TopicsFrom(op, st, id, self, peers)
  {
    var i :| 0 <= i < |peers| && peers[i] == fromID;
    assert TopicsFrom(op, st, id, self, peers)[i] == DirectTopic(op, st, fromID, PartyIDToNodeID(Some(self)), id);
  }

  /** No session of another node, wallet, curve or operation listens to a direct topic. */
  lemma OnlyDestinationListens(
      op: Operation, st: SessionType, id: string, fromID: GoString, toID: GoString,
      op': Operation, st': SessionType, id': string, self: PartyID, peers: seq<string>)
    requires WellFormed(fromID) && WellFormed(toID)
    requires ':' !in PartyIDToNodeID(Some(self)) && forall peer :: peer in peers ==> ':' !in peer
    requires DirectTopic(op, st, fromID, toID, id) in TopicsFrom(op', st', id', self, peers)
    ensures op' == op && st' == st && id' == id
    ensures PartyIDToNodeID(Some(self)) == toID && fromID in peers
  {
    var ts := TopicsFrom(op', st', id', self, peers);
    var i :| 0 <= i < |ts| && ts[i] == DirectTopic(op, st, fromID, toID, id);
    assert peers[i] in peers;
    TopicInjective(op, st, fromID, toID, id, op', st', peers[i], PartyIDToNodeID(Some(self)), id');
  }
}
