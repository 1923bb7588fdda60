/**
 The pairwise key exchange (pkg/mpc/key_exchange_session.go). X25519 (section 6.1 of RFC 7748),
 HKDF (section 2 of RFC 5869) and AES-GCM are given as functions; only the laws in `Lawful`
 are used.
 */
module KeyExchange {
  import opened Results

  /** `dh` gives no secret where the library rejects the peer's public key. */
  datatype Crypto = Crypto(
    publicOf: nat -> nat,
    dh: (nat, nat) -> Option<nat>,
    kdf: (nat, string) -> string,
    encrypt: (string, string) -> string,
    decrypt: (string, string) -> Option<string>)

  ghost predicate Lawful(c: Crypto) {
    && (forall x, y :: c.dh(x, c.publicOf(y)) == c.dh(y, c.publicOf(x)))
    && (forall k, m :: c.decrypt(k, c.encrypt(k, m)) == Some(m))
  }

  /** The laws can be met: here a public key is its private key and the secret their sum. */
  lemma LawsAreConsistent()
    ensures Lawful(Crypto(x => x, (x, y) => Some(x + y), (n, s) => s, (k, m) => m, (k, c) => Some(c)))
  {}

  /** Go's string order: bytewise, a proper prefix first. */
  predicate Less(a: string, b: string) {
    |b| > 0 && (|a| == 0 || a[0] < b[0] || (a[0] == b[0] && Less(a[1..], b[1..])))
  }

  lemma {:induction false} LessIsTotal(a: string, b: string)
    ensures a == b || (Less(a, b) <==> !Less(b, a))
    ensures a == b ==> !Less(a, b)
  {
    if |a| > 0 && |b| > 0 && a[0] == b[0] {
      LessIsTotal(a[1..], b[1..]);
      assert a == [a[0]] + a[1..] && b == [b[0]] + b[1..];
    }
  }

  function DeriveConsistentInfo(a: string, b: string): string {
    if Less(a, b) then a + b else b + a
  }

  /** The order is that of the first byte that differs, a proper prefix coming first. */
  lemma {:induction false} LessIsBytewise(a: string, b: string)
    ensures Less(a, b) <==>
            exists k | 0 <= k <= |a| && k < |b| :: a[..k] == b[..k] && (k == |a| || a[k] < b[k])
  {
    if Less(a, b) {
      if |a| == 0 || a[0] < b[0] {
        assert a[..0] == b[..0];
      } else {
        LessIsBytewise(a[1..], b[1..]);
        var k :| 0 <= k <= |a[1..]| && k < |b[1..]| && a[1..][..k] == b[1..][..k] && (k == |a[1..]| || a[1..][k] < b[1..][k]);
        assert a[..k + 1] == [a[0]] + a[1..][..k] && b[..k + 1] == [b[0]] + b[1..][..k];
      }
    }
    if k :| 0 <= k <= |a| && k < |b| && a[..k] == b[..k] && (k == |a| || a[k] < b[k]) {
      if k > 0 {
        assert a[0] == a[..k][0] == b[..k][0] == b[0];
        assert a[1..][..k - 1] == a[..k][1..] == b[..k][1..] == b[1..][..k - 1];
        LessIsBytewise(a[1..], b[1..]);
      }
    }
  }

  /** The derivation context is the two IDs, the smaller first, whichever node computes it. */
  lemma InfoIsSymmetric(a: string, b: string)
    ensures DeriveConsistentInfo(a, b) == DeriveConsistentInfo(b, a)
    ensures Less(a, b) ==> DeriveConsistentInfo(a, b) == a + b
  {
    LessIsTotal(a, b);
  }

  datatype Message = Message(from: string, publicKey: nat)

  /** A node's part: its key pair once it listens, the symmetric keys it stores, and the public
      key of the last message accepted from each peer. */
  datatype Node = Node(privateKey: Option<nat>, keys: map<string, string>, accepted: map<string, nat>)

  /** The subscription handler on a message whose signature was verified. */
  function Accept(c: Crypto, nodeID: string, n: Node, msg: Message): Node {
    if msg.from == nodeID || n.privateKey.None? then n
    else
      var secret := c.dh(n.privateKey.value, msg.publicKey);
      if secret.None? then n
      else n.(keys := n.keys[msg.from := c.kdf(secret.value, DeriveConsistentInfo(nodeID, msg.from))],
              accepted := n.accepted[msg.from := msg.publicKey])
  }

  /** The session object with the node's symmetric key map. */
  class EcdhSession {
    const nodeID: string
    const crypto: Crypto
    var privateKey: Option<nat>
    var keys: map<string, string>
    ghost var accepted: map<string, nat>

    constructor (nodeID: string, crypto: Crypto)
      ensures this.nodeID == nodeID && this.crypto == crypto && View() == Node(None, map[], map[])
    {
      this.nodeID, this.crypto := nodeID, crypto;
      privateKey, keys, accepted := None, map[], map[];
    }

    ghost function View(): Node
      reads this
    {
      Node(privateKey, keys, accepted)
    }

    method ListenKeyExchange(generated: nat)
      modifies this`privateKey
      ensures View() == old(View()).(privateKey := Some(generated))
    {
      privateKey := Some(generated);
    }

    method HandleMessage(msg: Message)
      modifies this`keys, this`accepted
      ensures View() == Accept(crypto, nodeID, old(View()), msg)
    {
      if msg.from == nodeID || privateKey.None? {
        return;
      }
      var sharedSecret := crypto.dh(privateKey.value, msg.publicKey);
      if sharedSecret.None? {
        return;
      }
      var symmetricKey := crypto.kdf(sharedSecret.value, DeriveConsistentInfo(nodeID, msg.from));
      keys := keys[msg.from := symmetricKey];
      accepted := accepted[msg.from := msg.publicKey];
    }

    /** Before the key pair exists there is nothing to broadcast. */
    method BroadcastPublicKey() returns (msg: Option<Message>)
      ensures msg == if privateKey.None? then None
                     else Some(Message(nodeID, crypto.publicOf(privateKey.value)))
    {
      if privateKey.None? {
        return None;
      }
      return Some(Message(nodeID, crypto.publicOf(privateKey.value)));
    }

    method RemovePeer(peerID: string)
      modifies this`keys
      ensures View() == old(View()).(keys := old(keys) - {peerID})
    {
      keys := keys - {peerID};
    }
  }

  // ---- runs ----

  /** `sent` holds every message ever broadcast, so it can be lost, delayed or delivered again. */
  datatype State = State(nodes: map<string, Node>, sent: set<Message>)

  datatype Step =
    | Restart(node: string, generated: nat)
    | Broadcast(node: string)
    | Deliver(node: string, msg: Message)
    | RemoveKey(node: string, peer: string)

  predicate Enabled(s: State, a: Step) {
    match a
    case Restart(_, _) => true
    case Broadcast(n) => n in s.nodes && s.nodes[n].privateKey.Some?
    case Deliver(n, msg) => n in s.nodes && msg in s.sent
    case RemoveKey(n, _) => n in s.nodes
  }

  function Apply(c: Crypto, s: State, a: Step): State
    requires Enabled(s, a)
  {
    match a
    case Restart(n, x) => s.(nodes := s.nodes[n := Node(Some(x), map[], map[])])
    case Broadcast(n) => s.(sent := s.sent + {Message(n, c.publicOf(s.nodes[n].privateKey.value))})
    case Deliver(n, msg) => s.(nodes := s.nodes[n := Accept(c, n, s.nodes[n], msg)])
    case RemoveKey(n, p) => s.(nodes := s.nodes[n := s.nodes[n].(keys := s.nodes[n].keys - {p})])
  }

  ghost predicate Reachable(c: Crypto, run: seq<State>) {
    && |run| > 0 && run[0] == State(map[], {})
    && forall i | 0 < i < |run| :: IsStep(c, run[i - 1], run[i])
  }

  ghost predicate IsStep(c: Crypto, s: State, s': State) {
    exists a :: Enabled(s, a) && s' == Apply(c, s, a)
  }

  /** A stored key is the one derived from the node's own key pair and the last accepted
      message of that peer, which the peer really sent. */
  predicate KeyOK(c: Crypto, sent: set<Message>, nodeID: string, n: Node, p: string) {
    p in n.keys ==>
      && p != nodeID && p in n.accepted && n.privateKey.Some?
      && Message(p, n.accepted[p]) in sent
      && var secret := c.dh(n.privateKey.value, n.accepted[p]);
         secret.Some? && n.keys[p] == c.kdf(secret.value, DeriveConsistentInfo(nodeID, p))
  }

  ghost predicate Inv(c: Crypto, s: State) {
    forall n, p :: n in s.nodes ==> KeyOK(c, s.sent, n, s.nodes[n], p)
  }

  lemma AcceptKeepsKeyOK(c: Crypto, sent: set<Message>, nodeID: string, n: Node, msg: Message, p: string)
    requires KeyOK(c, sent, nodeID, n, p) && msg in sent
    ensures KeyOK(c, sent, nodeID, Accept(c, nodeID, n, msg), p)
  {}

  lemma StepKeepsInv(c: Crypto, s: State, a: Step)
    requires Inv(c, s) && Enabled(s, a)
    ensures Inv(c, Apply(c, s, a))
  {
    var s' := Apply(c, s, a);
    forall n, p | n in s'.nodes ensures KeyOK(c, s'.sent, n, s'.nodes[n], p) {
      assert n in s.nodes ==> KeyOK(c, s.sent, n, s.nodes[n], p);
      if a.Deliver? && n == a.node {
        AcceptKeepsKeyOK(c, s.sent, n, s.nodes[n], a.msg, p);
      }
    }
  }

  lemma {:induction false} RunKeepsInv(c: Crypto, run: seq<State>, i: nat)
    requires Reachable(c, run) && i < |run|
    ensures Inv(c, run[i])
  {
    if i > 0 {
      RunKeepsInv(c, run, i - 1);
      assert IsStep(c, run[i - 1], run[i]);
      var a :| Enabled(run[i - 1], a) && run[i] == Apply(c, run[i - 1], a);
      StepKeepsInv(c, run[i - 1], a);
    }
  }

  /** Node `a` holds a key for `b` made from `b`'s current public key. */
  predicate Current(c: Crypto, s: State, a: string, b: string) {
    && a in s.nodes && b in s.nodes
    && b in s.nodes[a].keys && b in s.nodes[a].accepted
    && s.nodes[b].privateKey.Some?
    && s.nodes[a].accepted[b] == c.publicOf(s.nodes[b].privateKey.value)
  }

  lemma CurrentKeysAgree(c: Crypto, s: State, a: string, b: string)
    requires Lawful(c) && Inv(c, s) && Current(c, s, a, b) && Current(c, s, b, a)
    ensures s.nodes[a].keys[b] == s.nodes[b].keys[a]
  {
    var na, nb := s.nodes[a], s.nodes[b];
    assert KeyOK(c, s.sent, a, na, b) && KeyOK(c, s.sent, b, nb, a);
    assert c.dh(na.privateKey.value, c.publicOf(nb.privateKey.value))
        == c.dh(nb.privateKey.value, c.publicOf(na.privateKey.value));
    InfoIsSymmetric(a, b);
  }

  /** Across restarts, losses, duplicates, reorderings and removals: two nodes that each last
      accepted the other's current public key hold the same key and can read each other. */
  lemma KeysAgree(c: Crypto, run: seq<State>, i: nat, a: string, b: string, plaintext: string)
    requires Lawful(c) && Reachable(c, run) && i < |run|
    requires Current(c, run[i], a, b) && Current(c, run[i], b, a)
    ensures run[i].nodes[a].keys[b] == run[i].nodes[b].keys[a]
    ensures c.decrypt(run[i].nodes[b].keys[a], c.encrypt(run[i].nodes[a].keys[b], plaintext)) == Some(plaintext)
  {
    RunKeepsInv(c, run, i);
    CurrentKeysAgree(c, run[i], a, b);
  }

  // ---- the stored keys, told from the steps alone ----

  ghost predicate Trace(c: Crypto, run: seq<State>, steps: seq<Step>) {
    && |run| == |steps| + 1 && run[0] == State(map[], {})
    && forall i | 0 <= i < |steps| :: TookStep(c, run[i], steps[i], run[i + 1])
  }

  ghost predicate TookStep(c: Crypto, s: State, a: Step, s': State) {
    Enabled(s, a) && s' == Apply(c, s, a)
  }

  /** The private key the node generated when it last started. */
  function PrivateTold(steps: seq<Step>, nodeID: string): Option<nat> {
    if |steps| == 0 then None
    else
      var last := steps[|steps| - 1];
      if last.Restart? && last.node == nodeID then Some(last.generated) else PrivateTold(steps[..|steps| - 1], nodeID)
  }

  /** The key the node holds for a peer: none since its start or since the peer's removal, until
      a message of the peer is accepted; then the key derived from that message. A message whose
      public key yields no secret changes nothing. */
  function KeyTold(c: Crypto, steps: seq<Step>, nodeID: string, peer: string): Option<string> {
    if |steps| == 0 then None
    else
      var init, last := steps[..|steps| - 1], steps[|steps| - 1];
      if last.node != nodeID then KeyTold(c, init, nodeID, peer)
      else
        match last
        case Restart(_, _) => None
        case RemoveKey(_, p) => if p == peer then None else KeyTold(c, init, nodeID, peer)
        case Broadcast(_) => KeyTold(c, init, nodeID, peer)
        case Deliver(_, msg) =>
          var x := PrivateTold(init, nodeID);
          if msg.from != peer || peer == nodeID || x.None? || c.dh(x.value, msg.publicKey).None?
          then KeyTold(c, init, nodeID, peer)
          else Some(c.kdf(c.dh(x.value, msg.publicKey).value, DeriveConsistentInfo(nodeID, peer)))
  }

  ghost predicate Holds(n: Node, peer: string, key: Option<string>) {
    (peer in n.keys <==> key.Some?) && (peer in n.keys ==> n.keys[peer] == key.value)
  }

  ghost predicate FollowsSteps(c: Crypto, s: State, steps: seq<Step>, nodeID: string, peer: string) {
    && (nodeID in s.nodes <==> PrivateTold(steps, nodeID).Some?)
    && (nodeID in s.nodes ==>
          && s.nodes[nodeID].privateKey == PrivateTold(steps, nodeID)
          && Holds(s.nodes[nodeID], peer, KeyTold(c, steps, nodeID, peer)))
  }

  lemma StepFollows(c: Crypto, s: State, steps: seq<Step>, a: Step, nodeID: string, peer: string)
    requires FollowsSteps(c, s, steps, nodeID, peer) && Enabled(s, a)
    ensures FollowsSteps(c, Apply(c, s, a), steps + [a], nodeID, peer)
  {
    assert (steps + [a])[..|steps|] == steps;
  }

  /** In every run, at every point, each node's private key and the symmetric key it holds for
      any peer are those the steps tell. */
  lemma {:induction false} KeysFollowSteps(c: Crypto, run: seq<State>, steps: seq<Step>, i: nat, nodeID: string, peer: string)
    requires Trace(c, run, steps) && i < |run|
    ensures FollowsSteps(c, run[i], steps[..i], nodeID, peer)
  {
    if i > 0 {
      KeysFollowSteps(c, run, steps, i - 1, nodeID, peer);
      assert TookStep(c, run[i - 1], steps[i - 1], run[i - 1 + 1]);
      StepFollows(c, run[i - 1], steps[..i - 1], steps[i - 1], nodeID, peer);
      assert steps[..i - 1] + [steps[i - 1]] == steps[..i];
    }
  }

  /** The message `BroadcastPublicKey` sends for a node that listens. */
  function Announcement(c: Crypto, s: State, b: string): Message
    requires b in s.nodes && s.nodes[b].privateKey.Some?
  {
    Message(b, c.publicOf(s.nodes[b].privateKey.value))
  }

  predicate Compatible(c: Crypto, s: State, a: string, b: string) {
    && a in s.nodes && b in s.nodes && a != b
    && s.nodes[a].privateKey.Some? && s.nodes[b].privateKey.Some?
    && c.dh(s.nodes[a].privateKey.value, c.publicOf(s.nodes[b].privateKey.value)).Some?
  }

  /** One broadcast of `b` that reaches `a`. */
  function Announce(c: Crypto, s: State, a: string, b: string): State
    requires Compatible(c, s, a, b)
  {
    Apply(c, Apply(c, s, Broadcast(b)), Deliver(a, Announcement(c, s, b)))
  }

  lemma AnnounceMakesCurrent(c: Crypto, s: State, a: string, b: string)
    requires Inv(c, s) && Compatible(c, s, a, b)
    ensures Inv(c, Announce(c, s, a, b)) && Current(c, Announce(c, s, a, b), a, b)
    ensures Current(c, s, b, a) ==> Current(c, Announce(c, s, a, b), b, a)
    ensures forall n | n in s.nodes ::
              n in Announce(c, s, a, b).nodes && Announce(c, s, a, b).nodes[n].privateKey == s.nodes[n].privateKey
  {
    StepKeepsInv(c, s, Broadcast(b));
    StepKeepsInv(c, Apply(c, s, Broadcast(b)), Deliver(a, Announcement(c, s, b)));
  }

  /** Whatever happened before, one broadcast in each direction makes the two keys equal. */
  lemma HandshakeAgrees(c: Crypto, run: seq<State>, i: nat, a: string, b: string)
    requires Lawful(c) && Reachable(c, run) && i < |run| && Compatible(c, run[i], a, b)
    ensures var s1 := Announce(c, run[i], a, b);
            && Compatible(c, s1, b, a)
            && var s2 := Announce(c, s1, b, a);
               Current(c, s2, a, b) && Current(c, s2, b, a) && s2.nodes[a].keys[b] == s2.nodes[b].keys[a]
  {
    RunKeepsInv(c, run, i);
    var s, s1 := run[i], Announce(c, run[i], a, b);
    AnnounceMakesCurrent(c, s, a, b);
    assert c.dh(s.nodes[b].privateKey.value, c.publicOf(s.nodes[a].privateKey.value))
        == c.dh(s.nodes[a].privateKey.value, c.publicOf(s.nodes[b].privateKey.value));
    AnnounceMakesCurrent(c, s1, b, a);
    CurrentKeysAgree(c, Announce(c, s1, b, a), a, b);
  }
}
