/**
 Key shares over whole runs of key generation and resharing. Every node keeps its own shares;
 the key info of a wallet is shared by all nodes. The two writes that end a protocol on one
 node (share, then key info) are separate steps, interleaved with those of other nodes and
 of other wallets.
 */
module WalletRuns {
  import opened Results
  import opened Lists
  import opened GoStrings
  import opened KeyNames
  import opened PartyIds
  import opened Sessions

  /** The part of `LocalPartySaveData` that ties a share to its committee: its owner, the
      committee in the order the owner saw it, and the version the party keys were made with. */
  datatype Share = Share(owner: GoString, order: seq<GoString>, version: nat) {

    function SelfKey(): nat {
      PartyKey(owner, version)
    }

    function PartyKeys(): seq<nat> {
      Keys(Committee(order, PURPOSE_KEYGEN, version))
    }
  }

  datatype Wallet = Wallet(st: SessionType, id: string)

  datatype Phase =
    | Idle
    | Running(previous: Option<KeyInfo>, version: nat, members: seq<GoString>, threshold: int,
              stored: set<GoString>, published: set<GoString>)

  /** `origin` is the version the wallet started with: 0 for a legacy wallet, else 1. */
  datatype Record = Record(info: Option<KeyInfo>, phase: Phase, origin: nat, reshares: nat)

  datatype State = State(shares: map<(GoString, string), Share>, records: map<Wallet, Record>)

  function RecordOf(s: State, w: Wallet): Record {
    if w in s.records then s.records[w] else Record(None, Idle, 1, 0)
  }

  function KeyOf(w: Wallet, version: nat): string {
    StorageKey(w.st, w.id, version)
  }

  function Keys(ps: seq<PartyID>): (ks: seq<nat>)
    ensures |ks| == |ps|
    ensures forall i | 0 <= i < |ps| :: ks[i] == ps[i].key
  {
    seq(|ps|, i requires 0 <= i < |ps| => ps[i].key)
  }

  // ---- steps ----

  datatype Step =
    | StartKeygen(w: Wallet, members: seq<GoString>, threshold: int)
    | StartReshare(w: Wallet, members: seq<GoString>, threshold: int)
    | StoreShare(w: Wallet, node: GoString, order: seq<GoString>)
    | PublishInfo(w: Wallet, node: GoString, order: seq<GoString>)
    | Finish(w: Wallet)

  predicate SameCommittee(order: seq<GoString>, members: seq<GoString>) {
    ValidCommittee(order) && Elements(order) == Elements(members)
  }

  predicate Enabled(s: State, a: Step) {
    var r := RecordOf(s, a.w);
    match a
    case StartKeygen(_, members, _) =>
      r.phase.Idle? && r.info.None? && ValidCommittee(members) && |members| > 0
    case StartReshare(_, members, _) =>
      r.phase.Idle? && r.info.Some? && ValidCommittee(members) && |members| > 0
    case StoreShare(_, node, order) =>
      r.phase.Running? && SameCommittee(order, r.phase.members)
      && node in r.phase.members && node !in r.phase.stored
    case PublishInfo(_, node, order) =>
      r.phase.Running? && SameCommittee(order, r.phase.members)
      && node in r.phase.stored && node !in r.phase.published
    case Finish(_) =>
      r.phase.Running? && Elements(r.phase.members) <= r.phase.published
  }

  function NextRecord(r: Record, a: Step): Record
    requires !a.StartKeygen? && !a.StartReshare? ==> r.phase.Running?
    requires a.StartReshare? ==> r.info.Some?
  {
    match a
    case StartKeygen(_, members, t) => r.(phase := Running(None, 1, members, t, {}, {}))
    case StartReshare(_, members, t) =>
      r.(phase := Running(r.info, r.info.value.version + 1, members, t, {}, {}))
    case StoreShare(_, node, _) => r.(phase := r.phase.(stored := r.phase.stored + {node}))
    case PublishInfo(_, node, order) =>
      r.(info := Some(KeyInfo(order, r.phase.threshold, r.phase.version)),
         phase := r.phase.(published := r.phase.published + {node}))
    case Finish(_) =>
      r.(phase := Idle, reshares := r.reshares + if r.phase.previous.Some? then 1 else 0)
  }

  function Apply(s: State, a: Step): State
    requires Enabled(s, a)
  {
    var r := RecordOf(s, a.w);
    State(if a.StoreShare?
          then s.shares[(a.node, KeyOf(a.w, r.phase.version)) := Share(a.node, a.order, r.phase.version)]
          else s.shares,
          s.records[a.w := NextRecord(r, a)])
  }

  // ---- the invariant ----

  /** The node holds a share of that version, made for exactly the committee `ids`. */
  predicate Holds(s: State, w: Wallet, nodeID: GoString, ids: set<GoString>, version: nat) {
    (nodeID, KeyOf(w, version)) in s.shares
    && MadeFor(s.shares[(nodeID, KeyOf(w, version))], nodeID, ids, version)
  }

  predicate MadeFor(share: Share, nodeID: GoString, ids: set<GoString>, version: nat) {
    share.owner == nodeID && share.version == version
    && ValidCommittee(share.order) && Elements(share.order) == ids
  }

  /** Every participant holds, at the key-info version, a share made for exactly this committee. */
  predicate AllHold(s: State, w: Wallet, info: KeyInfo) {
    forall n | n in info.participants :: Holds(s, w, n, Elements(info.participants), info.version)
  }

  predicate InfoOK(s: State, w: Wallet, r: Record, info: KeyInfo) {
    ValidCommittee(info.participants) && info.version == r.origin + r.reshares && AllHold(s, w, info)
  }

  predicate PreviousOK(s: State, w: Wallet, r: Record, previous: Option<KeyInfo>, version: nat) {
    if previous.Some?
    then InfoOK(s, w, r, previous.value) && version == previous.value.version + 1
    else version == 1 && r.origin == 1 && r.reshares == 0
  }

  predicate PublishedOK(info: Option<KeyInfo>, phase: Phase)
    requires phase.Running?
  {
    if phase.published == {} then info == phase.previous
    else
      && info.Some? && SameCommittee(info.value.participants, phase.members)
      && info.value.threshold == phase.threshold && info.value.version == phase.version
  }

  predicate StoredOK(s: State, w: Wallet, phase: Phase)
    requires phase.Running?
  {
    AllStored(s, w, phase.stored, Elements(phase.members), phase.version)
  }

  predicate AllStored(s: State, w: Wallet, stored: set<GoString>, ids: set<GoString>, version: nat) {
    forall n :: n in stored ==> Holds(s, w, n, ids, version)
  }

  predicate MembersOK(phase: Phase)
    requires phase.Running?
  {
    && ValidCommittee(phase.members) && |phase.members| > 0
    && phase.published <= phase.stored <= Elements(phase.members)
  }

  predicate RecordOK(s: State, w: Wallet, r: Record) {
    && r.origin <= 1
    && if r.phase.Running? then
         && MembersOK(r.phase)
         && PreviousOK(s, w, r, r.phase.previous, r.phase.version)
         && PublishedOK(r.info, r.phase)
         && StoredOK(s, w, r.phase)
       else if r.info.Some? then InfoOK(s, w, r, r.info.value)
       else r.origin == 1 && r.reshares == 0
  }

  /** Which share versions of a wallet a node may already have stored. */
  predicate Occupied(r: Record, version: nat, nodeID: GoString) {
    match r.phase
    case Idle => r.info.Some? && r.origin <= version <= r.info.value.version
    case Running(previous, v, _, _, stored, _) =>
      (previous.Some? && r.origin <= version < v) || (version == v && nodeID in stored)
  }

  ghost predicate Explained(s: State, nodeID: GoString, key: string) {
    exists w: Wallet, version: nat ::
      key == KeyOf(w, version) && Occupied(RecordOf(s, w), version, nodeID)
  }

  /** No legacy wallet is named like a versioned share of another wallet. */
  ghost predicate LegacyNamesOK(s: State) {
    forall w: Wallet, id: string, v: nat ::
      RecordOf(s, w).origin == 0 && v > 0 ==> w.id != WalletIDWithVersion(id, v)
  }

  ghost predicate Inv(s: State) {
    && (forall w: Wallet :: RecordOK(s, w, RecordOf(s, w)))
    && (forall nodeID: GoString, key: string :: (nodeID, key) in s.shares ==> Explained(s, nodeID, key))
    && LegacyNamesOK(s)
  }

  // ---- preservation ----

  lemma RunningVersionPositive(s: State, w: Wallet, r: Record)
    requires RecordOK(s, w, r) && r.phase.Running?
    ensures r.phase.version > 0
  {}

  lemma OnlyLegacyAtZero(s: State, w: Wallet, r: Record, version: nat, nodeID: GoString)
    requires RecordOK(s, w, r) && Occupied(r, version, nodeID) && version == 0
    ensures r.origin == 0
  {}

  lemma PendingIsFree(r: Record, nodeID: GoString)
    requires r.phase.Running? && nodeID !in r.phase.stored
    ensures !Occupied(r, r.phase.version, nodeID)
  {}

  /** A share is never stored under a key that is already taken on that node. */
  lemma StoreIsFresh(s: State, a: Step)
    requires Inv(s) && a.StoreShare? && Enabled(s, a)
    ensures (a.node, KeyOf(a.w, RecordOf(s, a.w).phase.version)) !in s.shares
  {
    var r := RecordOf(s, a.w);
    var key := KeyOf(a.w, r.phase.version);
    if (a.node, key) in s.shares {
      var w, v := OwnerOf(s, a.node, key);
      RunningVersionPositive(s, a.w, r);
      OnlyOneOwner(s, a.w, r.phase.version, w, v);
      PendingIsFree(r, a.node);
    }
  }

  lemma OwnerOf(s: State, nodeID: GoString, key: string) returns (w: Wallet, v: nat)
    requires Inv(s) && (nodeID, key) in s.shares
    ensures key == KeyOf(w, v) && Occupied(RecordOf(s, w), v, nodeID)
    ensures v == 0 ==> RecordOf(s, w).origin == 0
  {
    assert Explained(s, nodeID, key);
    w, v :| key == KeyOf(w, v) && Occupied(RecordOf(s, w), v, nodeID);
    if v == 0 {
      OnlyLegacyAtZero(s, w, RecordOf(s, w), v, nodeID);
    }
  }

  /** Keys of versions above 0 belong to one wallet and version. */
  lemma OnlyOneOwner(s: State, w: Wallet, version: nat, w': Wallet, version': nat)
    requires LegacyNamesOK(s) && version > 0 && KeyOf(w, version) == KeyOf(w', version')
    requires version' == 0 ==> RecordOf(s, w').origin == 0
    ensures w == w' && version == version'
  {
    StorageKeyClash(w.st, w.id, version, w'.st, w'.id, version');
  }

  predicate Grows(s: State, s': State) {
    forall k :: k in s.shares ==> k in s'.shares && s'.shares[k] == s.shares[k]
  }

  lemma SharesOnlyGrow(s: State, a: Step)
    requires Inv(s) && Enabled(s, a)
    ensures Grows(s, Apply(s, a))
  {
    if a.StoreShare? {
      StoreIsFresh(s, a);
    }
  }

  lemma RecordOKIsMonotone(s: State, s': State, w: Wallet, r: Record)
    requires RecordOK(s, w, r) && Grows(s, s')
    ensures RecordOK(s', w, r)
  {
    assert forall n: GoString, ids: set<GoString>, v: nat :: Holds(s, w, n, ids, v) ==> Holds(s', w, n, ids, v);
    assert forall info: KeyInfo :: AllHold(s, w, info) ==> AllHold(s', w, info);
  }

  lemma StoreKeepsRecordOK(s: State, a: Step)
    requires Inv(s) && Enabled(s, a) && a.StoreShare?
    ensures RecordOK(Apply(s, a), a.w, NextRecord(RecordOf(s, a.w), a))
  {
    var r, s' := RecordOf(s, a.w), Apply(s, a);
    SharesOnlyGrow(s, a);
    assert RecordOK(s, a.w, r);
    RecordOKIsMonotone(s, s', a.w, r);
    RecordOKAfterStore(s', a.w, r, a.node);
  }

  lemma AllStoredAfterStore(s: State, w: Wallet, stored: set<GoString>, ids: set<GoString>, version: nat, nodeID: GoString)
    requires AllStored(s, w, stored, ids, version) && Holds(s, w, nodeID, ids, version)
    ensures AllStored(s, w, stored + {nodeID}, ids, version)
  {}

  lemma MembersOKAfterStore(phase: Phase, nodeID: GoString)
    requires phase.Running? && MembersOK(phase) && nodeID in phase.members
    ensures MembersOK(phase.(stored := phase.stored + {nodeID}))
  {}

  lemma RecordOKAfterStore(s: State, w: Wallet, r: Record, nodeID: GoString)
    requires RecordOK(s, w, r) && r.phase.Running? && nodeID in r.phase.members
    requires Holds(s, w, nodeID, Elements(r.phase.members), r.phase.version)
    ensures RecordOK(s, w, r.(phase := r.phase.(stored := r.phase.stored + {nodeID})))
  {
    AllStoredAfterStore(s, w, r.phase.stored, Elements(r.phase.members), r.phase.version, nodeID);
    MembersOKAfterStore(r.phase, nodeID);
  }

  lemma FinishedInfoHolds(s: State, w: Wallet, r: Record, info: KeyInfo)
    requires RecordOK(s, w, r) && r.phase.Running? && r.info == Some(info)
    requires Elements(r.phase.members) <= r.phase.published
    ensures SameCommittee(info.participants, r.phase.members) && info.version == r.phase.version
    ensures AllHold(s, w, info)
  {
    assert r.phase.members[0] in Elements(r.phase.members);
    assert forall n :: n in info.participants ==> n in Elements(r.phase.members);
  }

  lemma FinishKeepsRecordOK(s: State, w: Wallet, r: Record)
    requires RecordOK(s, w, r) && r.phase.Running? && Elements(r.phase.members) <= r.phase.published
    ensures RecordOK(s, w, r.(phase := Idle, reshares := r.reshares + if r.phase.previous.Some? then 1 else 0))
  {
    assert r.phase.members[0] in Elements(r.phase.members);
    FinishedInfoHolds(s, w, r, r.info.value);
  }

  lemma StartKeepsRecordOK(s: State, w: Wallet, r: Record, version: nat, members: seq<GoString>, threshold: int)
    requires RecordOK(s, w, r) && r.phase.Idle? && ValidCommittee(members) && |members| > 0
    requires version == if r.info.Some? then r.info.value.version + 1 else 1
    ensures RecordOK(s, w, r.(phase := Running(r.info, version, members, threshold, {}, {})))
  {
    var phase := Running(r.info, version, members, threshold, {}, {});
    assert MembersOK(phase) && StoredOK(s, w, phase);
  }

  lemma PublishKeepsRecordOK(s: State, w: Wallet, r: Record, nodeID: GoString, order: seq<GoString>)
    requires RecordOK(s, w, r) && r.phase.Running? && nodeID in r.phase.stored
    requires SameCommittee(order, r.phase.members)
    ensures RecordOK(s, w, r.(info := Some(KeyInfo(order, r.phase.threshold, r.phase.version)),
                             phase := r.phase.(published := r.phase.published + {nodeID})))
  {
    var phase := r.phase.(published := r.phase.published + {nodeID});
    assert MembersOK(phase) && StoredOK(s, w, phase);
  }

  lemma StepKeepsRecordOK(s: State, a: Step)
    requires Inv(s) && Enabled(s, a)
    ensures RecordOK(Apply(s, a), a.w, NextRecord(RecordOf(s, a.w), a))
  {
    var r, s' := RecordOf(s, a.w), Apply(s, a);
    assert RecordOK(s, a.w, r);
    match a
    case StoreShare(_, _, _) => StoreKeepsRecordOK(s, a);
    case StartKeygen(_, members, t) =>
      RecordOKIsMonotone(s, s', a.w, r);
      StartKeepsRecordOK(s', a.w, r, 1, members, t);
    case StartReshare(_, members, t) =>
      RecordOKIsMonotone(s, s', a.w, r);
      StartKeepsRecordOK(s', a.w, r, r.info.value.version + 1, members, t);
    case PublishInfo(_, node, order) =>
      RecordOKIsMonotone(s, s', a.w, r);
      PublishKeepsRecordOK(s', a.w, r, node, order);
    case Finish(_) =>
      RecordOKIsMonotone(s, s', a.w, r);
      FinishKeepsRecordOK(s', a.w, r);
  }

  lemma OccupiedIsMonotone(s: State, w: Wallet, r: Record, a: Step, version: nat, nodeID: GoString)
    requires RecordOK(s, w, r) && a.w == w && r == RecordOf(s, w) && Enabled(s, a)
    requires Occupied(r, version, nodeID)
    ensures Occupied(NextRecord(r, a), version, nodeID)
  {
    if a.Finish? {
      assert r.phase.members[0] in Elements(r.phase.members);
    }
  }

  lemma StepKeepsExplained(s: State, a: Step)
    requires Inv(s) && Enabled(s, a)
    ensures forall nodeID: GoString, key: string ::
              (nodeID, key) in Apply(s, a).shares ==> Explained(Apply(s, a), nodeID, key)
  {
    var s' := Apply(s, a);
    forall nodeID: GoString, key: string | (nodeID, key) in s'.shares
      ensures Explained(s', nodeID, key)
    {
      if (nodeID, key) in s.shares {
        var w, v := OwnerOf(s, nodeID, key);
        if w == a.w {
          assert RecordOK(s, w, RecordOf(s, w));
          OccupiedIsMonotone(s, w, RecordOf(s, w), a, v, nodeID);
        }
        assert Occupied(RecordOf(s', w), v, nodeID);
      } else {
        assert key == KeyOf(a.w, RecordOf(s, a.w).phase.version) && nodeID == a.node;
        assert Occupied(RecordOf(s', a.w), RecordOf(s, a.w).phase.version, nodeID);
      }
    }
  }

  lemma OtherRecordsOK(s: State, a: Step)
    requires Inv(s) && Enabled(s, a) && Grows(s, Apply(s, a))
    ensures forall w: Wallet | w != a.w :: RecordOK(Apply(s, a), w, RecordOf(Apply(s, a), w))
  {
    var s' := Apply(s, a);
    forall w: Wallet | w != a.w ensures RecordOK(s', w, RecordOf(s', w)) {
      assert RecordOK(s, w, RecordOf(s, w));
      RecordOKIsMonotone(s, s', w, RecordOf(s, w));
    }
  }

  lemma LegacyNamesKept(s: State, a: Step)
    requires LegacyNamesOK(s) && Enabled(s, a)
    ensures LegacyNamesOK(Apply(s, a))
  {
    var s' := Apply(s, a);
    forall w: Wallet, id: string, v: nat | RecordOf(s', w).origin == 0 && v > 0
      ensures w.id != WalletIDWithVersion(id, v)
    {
      OriginKept(s, a, w);
    }
  }

  lemma OriginKept(s: State, a: Step, w: Wallet)
    requires Enabled(s, a)
    ensures RecordOf(Apply(s, a), w).origin == RecordOf(s, w).origin
  {}

  lemma StepKeepsInv(s: State, a: Step)
    requires Inv(s) && Enabled(s, a)
    ensures Inv(Apply(s, a)) && Grows(s, Apply(s, a))
  {
    SharesOnlyGrow(s, a);
    StepKeepsRecordOK(s, a);
    OtherRecordsOK(s, a);
    StepKeepsExplained(s, a);
    LegacyNamesKept(s, a);
  }

  // ---- runs ----

  /** A fresh cluster, or one that already holds legacy wallets at version 0. */
  ghost predicate Start(s: State) {
    && LegacyNamesOK(s)
    && (forall w: Wallet | w in s.records ::
          && s.records[w].phase.Idle? && s.records[w].origin == 0 && s.records[w].reshares == 0
          && s.records[w].info.Some? && s.records[w].info.value.version == 0
          && ValidCommittee(s.records[w].info.value.participants)
          && AllHold(s, w, s.records[w].info.value))
    && (forall nodeID: GoString, key: string | (nodeID, key) in s.shares ::
          exists w: Wallet :: w in s.records && key == KeyOf(w, 0))
  }

  ghost predicate IsRun(run: seq<State>) {
    && |run| > 0 && Start(run[0])
    && forall i | 0 <= i < |run| - 1 :: IsStep(run[i], run[i + 1])
  }

  ghost predicate IsStep(s: State, s': State) {
    exists a: Step :: Enabled(s, a) && s' == Apply(s, a)
  }

  lemma FreshClusterStarts()
    ensures Start(State(map[], map[]))
  {}

  lemma StartSatisfiesInv(s: State)
    requires Start(s)
    ensures Inv(s)
  {
    forall nodeID: GoString, key: string | (nodeID, key) in s.shares ensures Explained(s, nodeID, key) {
      var w: Wallet :| w in s.records && key == KeyOf(w, 0);
      assert Occupied(RecordOf(s, w), 0, nodeID);
    }
    forall w: Wallet ensures RecordOK(s, w, RecordOf(s, w)) {}
  }

  lemma {:induction false} RunKeepsInv(run: seq<State>, i: nat)
    requires IsRun(run) && i < |run|
    ensures Inv(run[i]) && (i > 0 ==> Grows(run[i - 1], run[i]))
  {
    if i == 0 {
      StartSatisfiesInv(run[0]);
    } else {
      RunKeepsInv(run, i - 1);
      assert IsStep(run[i - 1], run[i - 1 + 1]);
      var a: Step :| Enabled(run[i - 1], a) && run[i] == Apply(run[i - 1], a);
      StepKeepsInv(run[i - 1], a);
    }
  }

  lemma RunGrows(run: seq<State>)
    requires IsRun(run)
    ensures forall i | 0 < i < |run| :: Grows(run[i - 1], run[i])
  {
    forall i | 0 < i < |run| ensures Grows(run[i - 1], run[i]) {
      RunKeepsInv(run, i);
    }
  }

  lemma {:induction false} GrowthKeepsShare(run: seq<State>, i: nat, j: nat, k: (GoString, string))
    requires forall m | 0 < m < |run| :: Grows(run[m - 1], run[m])
    requires i <= j < |run| && k in run[i].shares
    ensures k in run[j].shares && run[j].shares[k] == run[i].shares[k]
    decreases j - i
  {
    if i < j {
      GrowthKeepsShare(run, i, j - 1, k);
      assert Grows(run[j - 1], run[j]);
    }
  }

  /** Nothing stored at one point of a run is overwritten or lost later. */
  lemma NoShareOverwritten(run: seq<State>, i: nat, j: nat, k: (GoString, string))
    requires IsRun(run) && i <= j < |run| && k in run[i].shares
    ensures k in run[j].shares && run[j].shares[k] == run[i].shares[k]
  {
    RunGrows(run);
    GrowthKeepsShare(run, i, j, k);
  }

  /** Between operations the version counts the completed reshares, and every current
      participant holds the share of that version. */
  lemma IdleWalletComplete(run: seq<State>, i: nat, w: Wallet)
    requires IsRun(run) && i < |run|
    requires RecordOf(run[i], w).phase.Idle? && RecordOf(run[i], w).info.Some?
    ensures var r := RecordOf(run[i], w);
            && r.info.value.version == r.origin + r.reshares && r.origin <= 1
            && ValidCommittee(r.info.value.participants)
            && AllHold(run[i], w, r.info.value)
  {
    RunKeepsInv(run, i);
    assert RecordOK(run[i], w, RecordOf(run[i], w));
  }

  /** Even in the middle of an operation the published version is at most one ahead, and the
      shares of the committee being replaced are all still there. */
  lemma RunningKeepsPrevious(run: seq<State>, i: nat, w: Wallet)
    requires IsRun(run) && i < |run|
    requires RecordOf(run[i], w).phase.Running? && RecordOf(run[i], w).phase.previous.Some?
    ensures var r := RecordOf(run[i], w);
            && AllHold(run[i], w, r.phase.previous.value)
            && r.info.Some?
            && r.info.value.version in {r.phase.previous.value.version, r.phase.previous.value.version + 1}
  {
    RunKeepsInv(run, i);
    assert RecordOK(run[i], w, RecordOf(run[i], w));
  }

  /** At any point of any run a participant of the published key info holds its share exactly
      when the wallet is idle, nobody has published the new info yet, or it has stored the new
      share. So signing in the middle of a reshare fails exactly on published but late members. */
  lemma ParticipantHoldsIff(run: seq<State>, i: nat, w: Wallet, n: GoString)
    requires IsRun(run) && i < |run|
    requires RecordOf(run[i], w).info.Some? && n in RecordOf(run[i], w).info.value.participants
    ensures var r := RecordOf(run[i], w);
            var info := r.info.value;
            && ((n, KeyOf(w, info.version)) in run[i].shares
                <==> r.phase.Idle? || r.phase.published == {} || n in r.phase.stored)
            && ((n, KeyOf(w, info.version)) in run[i].shares
                <==> Holds(run[i], w, n, Elements(info.participants), info.version))
  {
    RunKeepsInv(run, i);
    var s, r := run[i], RecordOf(run[i], w);
    var info := r.info.value;
    assert RecordOK(s, w, r);
    if r.phase.Idle? || r.phase.published == {} || n in r.phase.stored {
      PublishedMemberHolds(s, w, r, info, n);
    } else if (n, KeyOf(w, info.version)) in s.shares {
      var w', v := OwnerOf(s, n, KeyOf(w, info.version));
      RunningVersionPositive(s, w, r);
      OnlyOneOwner(s, w, info.version, w', v);
      PendingIsFree(r, n);
    }
  }

  lemma PublishedMemberHolds(s: State, w: Wallet, r: Record, info: KeyInfo, n: GoString)
    requires RecordOK(s, w, r) && r.info == Some(info) && n in info.participants
    requires r.phase.Idle? || r.phase.published == {} || n in r.phase.stored
    ensures Holds(s, w, n, Elements(info.participants), info.version)
  {
    if r.phase.Running? && r.phase.published != {} {
      assert Holds(s, w, n, Elements(r.phase.members), r.phase.version);
    } else {
      assert AllHold(s, w, info);
    }
  }

  // ---- what was asked for, told from the steps alone ----

  /** A run together with the steps it took. */
  ghost predicate Trace(run: seq<State>, steps: seq<Step>) {
    && |run| == |steps| + 1 && Start(run[0])
    && forall i | 0 <= i < |steps| :: TookStep(run[i], steps[i], run[i + 1])
  }

  ghost predicate TookStep(s: State, a: Step, s': State) {
    Enabled(s, a) && s' == Apply(s, a)
  }

  lemma TraceIsRun(run: seq<State>, steps: seq<Step>)
    requires Trace(run, steps)
    ensures IsRun(run)
  {
    forall i | 0 <= i < |run| - 1 ensures IsStep(run[i], run[i + 1]) {
      assert TookStep(run[i], steps[i], run[i + 1]);
    }
  }

  /** A committee and threshold for the key of a wallet. */
  datatype Request = Request(members: set<GoString>, threshold: int)

  function RequestOf(info: Option<KeyInfo>): Option<Request> {
    if info.None? then None else Some(Request(Elements(info.value.participants), info.value.threshold))
  }

  predicate Starts(a: Step, w: Wallet) {
    a.w == w && (a.StartKeygen? || a.StartReshare?)
  }

  /** What the latest key generation or reshare of the wallet asked for; `legacy` before any. */
  function Asked(steps: seq<Step>, w: Wallet, legacy: Option<Request>): Option<Request> {
    if |steps| == 0 then legacy
    else
      var last := steps[|steps| - 1];
      if Starts(last, w) then Some(Request(Elements(last.members), last.threshold))
      else Asked(steps[..|steps| - 1], w, legacy)
  }

  /** What the latest completed operation of the wallet asked for. */
  function Completed(steps: seq<Step>, w: Wallet, legacy: Option<Request>): Option<Request> {
    if |steps| == 0 then legacy
    else
      var init := steps[..|steps| - 1];
      if steps[|steps| - 1] == Finish(w) then Asked(init, w, legacy) else Completed(init, w, legacy)
  }

  /** How many operations of the wallet have been completed. */
  function Finished(steps: seq<Step>, w: Wallet): nat {
    if |steps| == 0 then 0
    else Finished(steps[..|steps| - 1], w) + if steps[|steps| - 1] == Finish(w) then 1 else 0
  }

  /** An operation of the wallet has started and not finished. */
  predicate UnderWay(steps: seq<Step>, w: Wallet) {
    |steps| > 0 &&
    var last := steps[|steps| - 1];
    Starts(last, w) || (last != Finish(w) && UnderWay(steps[..|steps| - 1], w))
  }

  /** Some node has published key info in the operation that is under way. */
  predicate Announced(steps: seq<Step>, w: Wallet) {
    |steps| > 0 &&
    var last := steps[|steps| - 1];
    (last.PublishInfo? && last.w == w)
    || (!Starts(last, w) && last != Finish(w) && Announced(steps[..|steps| - 1], w))
  }

  /** The record of a wallet, given the steps. */
  ghost predicate FollowsSteps(r: Record, steps: seq<Step>, w: Wallet, legacy: Option<Request>) {
    && (r.phase.Running? <==> UnderWay(steps, w))
    && (if r.phase.Running? then RunningFollows(r.phase, steps, w, legacy)
        else
          && !Announced(steps, w) && InfoFollows(r.info, Completed(steps, w, legacy), Finished(steps, w)))
  }

  ghost predicate InfoFollows(info: Option<KeyInfo>, request: Option<Request>, version: nat) {
    && RequestOf(info) == request
    && version == if info.Some? then info.value.version else 0
  }

  ghost predicate RunningFollows(phase: Phase, steps: seq<Step>, w: Wallet, legacy: Option<Request>)
    requires phase.Running?
  {
    && Asked(steps, w, legacy) == Some(Request(Elements(phase.members), phase.threshold))
    && InfoFollows(phase.previous, Completed(steps, w, legacy), Finished(steps, w))
    && phase.version == Finished(steps, w) + 1
    && (phase.published != {} <==> Announced(steps, w))
  }

  lemma FinishedInfoFollows(s: State, w: Wallet, r: Record, request: Option<Request>)
    requires RecordOK(s, w, r) && r.phase.Running? && Elements(r.phase.members) <= r.phase.published
    requires request == Some(Request(Elements(r.phase.members), r.phase.threshold))
    ensures InfoFollows(r.info, request, r.phase.version)
  {
    assert r.phase.members[0] in Elements(r.phase.members);
  }

  /** How one more step changes what the steps tell. */
  lemma StepsSnoc(steps: seq<Step>, a: Step, w: Wallet, legacy: Option<Request>)
    ensures Asked(steps + [a], w, legacy)
         == if Starts(a, w) then Some(Request(Elements(a.members), a.threshold)) else Asked(steps, w, legacy)
    ensures Completed(steps + [a], w, legacy)
         == if a == Finish(w) then Asked(steps, w, legacy) else Completed(steps, w, legacy)
    ensures Finished(steps + [a], w) == Finished(steps, w) + if a == Finish(w) then 1 else 0
    ensures UnderWay(steps + [a], w) <==> Starts(a, w) || (a != Finish(w) && UnderWay(steps, w))
    ensures Announced(steps + [a], w) <==>
              (a.PublishInfo? && a.w == w) || (!Starts(a, w) && a != Finish(w) && Announced(steps, w))
  {
    assert (steps + [a])[..|steps|] == steps;
  }

  lemma StartFollows(r: Record, steps: seq<Step>, a: Step, w: Wallet, legacy: Option<Request>)
    requires FollowsSteps(r, steps, w, legacy) && Starts(a, w) && r.phase.Idle?
    requires a.StartReshare? <==> r.info.Some?
    ensures FollowsSteps(NextRecord(r, a), steps + [a], w, legacy)
  {
    StepsSnoc(steps, a, w, legacy);
  }

  lemma WriteFollows(r: Record, steps: seq<Step>, a: Step, w: Wallet, legacy: Option<Request>)
    requires FollowsSteps(r, steps, w, legacy) && a.w == w && r.phase.Running? && (a.StoreShare? || a.PublishInfo?)
    ensures FollowsSteps(NextRecord(r, a), steps + [a], w, legacy)
  {
    StepsSnoc(steps, a, w, legacy);
    if a.PublishInfo? {
      assert a.node in NextRecord(r, a).phase.published;
    }
  }

  lemma FinishFollows(r: Record, steps: seq<Step>, w: Wallet, legacy: Option<Request>)
    requires FollowsSteps(r, steps, w, legacy) && r.phase.Running?
    requires InfoFollows(r.info, Asked(steps, w, legacy), r.phase.version)
    ensures FollowsSteps(NextRecord(r, Finish(w)), steps + [Finish(w)], w, legacy)
  {
    StepsSnoc(steps, Finish(w), w, legacy);
  }

  lemma OtherFollows(r: Record, steps: seq<Step>, a: Step, w: Wallet, legacy: Option<Request>)
    requires FollowsSteps(r, steps, w, legacy) && a.w != w
    ensures FollowsSteps(r, steps + [a], w, legacy)
  {
    StepsSnoc(steps, a, w, legacy);
  }

  lemma StepFollows(s: State, steps: seq<Step>, a: Step, w: Wallet, legacy: Option<Request>)
    requires Inv(s) && Enabled(s, a) && FollowsSteps(RecordOf(s, w), steps, w, legacy)
    ensures FollowsSteps(RecordOf(Apply(s, a), w), steps + [a], w, legacy)
  {
    var r := RecordOf(s, w);
    if a.w != w {
      OtherFollows(r, steps, a, w, legacy);
    } else if Starts(a, w) {
      StartFollows(r, steps, a, w, legacy);
    } else if a == Finish(w) {
      assert RecordOK(s, w, r);
      FinishedInfoFollows(s, w, r, Asked(steps, w, legacy));
      FinishFollows(r, steps, w, legacy);
    } else {
      WriteFollows(r, steps, a, w, legacy);
    }
  }

  lemma {:induction false} TraceFollows(run: seq<State>, steps: seq<Step>, i: nat, w: Wallet)
    requires Trace(run, steps) && i < |run|
    ensures FollowsSteps(RecordOf(run[i], w), steps[..i], w, RequestOf(RecordOf(run[0], w).info))
  {
    if i > 0 {
      TraceFollows(run, steps, i - 1, w);
      TraceIsRun(run, steps);
      RunKeepsInv(run, i - 1);
      assert TookStep(run[i - 1], steps[i - 1], run[i - 1 + 1]);
      StepFollows(run[i - 1], steps[..i - 1], steps[i - 1], w, RequestOf(RecordOf(run[0], w).info));
      assert steps[..i - 1] + [steps[i - 1]] == steps[..i];
    }
  }

  /** At every point of every run the published key info is what was asked for: the committee and
      threshold of the operation under way once a node has published, and of the last completed
      operation until then (those of the legacy wallet before any); and its version is the
      number of operations completed, plus one once a node has published the next. */
  lemma KeyInfoIsWhatWasAsked(run: seq<State>, steps: seq<Step>, i: nat, w: Wallet)
    requires Trace(run, steps) && i < |run|
    ensures var info, legacy := RecordOf(run[i], w).info, RequestOf(RecordOf(run[0], w).info);
            && RequestOf(info) == (if Announced(steps[..i], w) then Asked(steps[..i], w, legacy)
                                   else Completed(steps[..i], w, legacy))
            && (info.Some? ==> info.value.version
                               == Finished(steps[..i], w) + if Announced(steps[..i], w) then 1 else 0)
            && (RecordOf(run[i], w).phase.Idle? <==> !UnderWay(steps[..i], w))
            && (!UnderWay(steps[..i], w) ==> !Announced(steps[..i], w))
  {
    TraceFollows(run, steps, i, w);
    TraceIsRun(run, steps);
    RunKeepsInv(run, i);
    assert RecordOK(run[i], w, RecordOf(run[i], w));
  }

  // ---- every operation can be carried through ----

  /** Where steps lead, if each is enabled in its turn. */
  function RunSteps(s: State, steps: seq<Step>): Option<State> {
    if |steps| == 0 then Some(s)
    else
      var before := RunSteps(s, steps[..|steps| - 1]);
      if before.None? || !Enabled(before.value, steps[|steps| - 1]) then None
      else Some(Apply(before.value, steps[|steps| - 1]))
  }

  /** Each of the first `n` members stores its share and publishes key info. */
  function Writes(w: Wallet, members: seq<GoString>, n: nat): seq<Step>
    requires n <= |members|
  {
    if n == 0 then []
    else
      Writes(w, members, n - 1) + [StoreShare(w, members[n - 1], members)] + [PublishInfo(w, members[n - 1], members)]
  }

  lemma RunStepsTwo(s: State, before: seq<Step>, a: Step, b: Step, s': State)
    requires RunSteps(s, before).Some? && Enabled(RunSteps(s, before).value, a)
    requires var s1 := Apply(RunSteps(s, before).value, a); Enabled(s1, b) && s' == Apply(s1, b)
    ensures RunSteps(s, before + [a] + [b]) == Some(s')
  {
    RunStepsOne(s, before, a);
    RunStepsOne(s, before + [a], b);
  }

  lemma RunStepsOne(s: State, before: seq<Step>, a: Step)
    requires RunSteps(s, before).Some? && Enabled(RunSteps(s, before).value, a)
    ensures RunSteps(s, before + [a]) == Some(Apply(RunSteps(s, before).value, a))
  {
    assert (before + [a])[..|before|] == before;
  }

  predicate Wrote(r: Record, r': Record, members: seq<GoString>, n: nat)
    requires r.phase.Running? && n <= |members|
  {
    && r' == r.(info := r'.info, phase := r.phase.(stored := Elements(members[..n]), published := Elements(members[..n])))
    && (n > 0 ==> r'.info == Some(KeyInfo(members, r.phase.threshold, r.phase.version)))
  }

  lemma MemberWrites(s: State, w: Wallet, r: Record, members: seq<GoString>, n: nat)
    requires r.phase.Running? && r.phase.members == members && ValidCommittee(members) && 0 < n <= |members|
    requires Wrote(r, RecordOf(s, w), members, n - 1)
    ensures var m := members[n - 1];
            && Enabled(s, StoreShare(w, m, members))
            && var s1 := Apply(s, StoreShare(w, m, members));
               Enabled(s1, PublishInfo(w, m, members)) && Wrote(r, RecordOf(Apply(s1, PublishInfo(w, m, members)), w), members, n)
  {
    var m := members[n - 1];
    assert m !in members[..n - 1];
    assert Elements(members[..n]) == Elements(members[..n - 1]) + {m};
  }

  lemma {:induction false} WritesAreEnabled(s: State, w: Wallet, members: seq<GoString>, n: nat)
    requires ValidCommittee(members) && n <= |members|
    requires var r := RecordOf(s, w);
             r.phase.Running? && r.phase.members == members && r.phase.stored == r.phase.published == {}
    ensures var s' := RunSteps(s, Writes(w, members, n));
            s'.Some? && Wrote(RecordOf(s, w), RecordOf(s'.value, w), members, n)
  {
    if n > 0 {
      var m := members[n - 1];
      WritesAreEnabled(s, w, members, n - 1);
      var s1 := RunSteps(s, Writes(w, members, n - 1)).value;
      MemberWrites(s1, w, RecordOf(s, w), members, n);
      var s2 := Apply(s1, StoreShare(w, m, members));
      RunStepsTwo(s, Writes(w, members, n - 1), StoreShare(w, m, members), PublishInfo(w, m, members),
                  Apply(s2, PublishInfo(w, m, members)));
    } else {
      assert members[..0] == [] && Elements(members[..0]) == {};
    }
  }

  /** The step that begins the next operation of a wallet. */
  function FirstStep(info: Option<KeyInfo>, w: Wallet, members: seq<GoString>, threshold: int): Step {
    if info.None? then StartKeygen(w, members, threshold) else StartReshare(w, members, threshold)
  }

  lemma StartedOperation(s: State, w: Wallet, members: seq<GoString>, threshold: int)
    requires RecordOf(s, w).phase.Idle? && ValidCommittee(members) && |members| > 0
    ensures var info := RecordOf(s, w).info;
            && Enabled(s, FirstStep(info, w, members, threshold))
            && RecordOf(Apply(s, FirstStep(info, w, members, threshold)), w).phase
               == Running(info, if info.None? then 1 else info.value.version + 1, members, threshold, {}, {})
  {}

  lemma CompletesFrom(s: State, w: Wallet, members: seq<GoString>, phase: Phase)
    requires ValidCommittee(members) && |members| > 0 && RecordOf(s, w).phase == phase
    requires phase.Running? && phase.members == members && phase.stored == phase.published == {}
    ensures var s' := RunSteps(s, Writes(w, members, |members|) + [Finish(w)]);
            && s'.Some? && RecordOf(s'.value, w).phase.Idle?
            && RecordOf(s'.value, w).info == Some(KeyInfo(members, phase.threshold, phase.version))
  {
    WritesAreEnabled(s, w, members, |members|);
    AllWroteFinishes(RunSteps(s, Writes(w, members, |members|)).value, w, RecordOf(s, w), members);
    RunStepsOne(s, Writes(w, members, |members|), Finish(w));
  }

  /** From every state a wallet that is idle can be taken through its next operation, and ends
      with exactly the key info asked for, one version up. */
  lemma OperationCompletes(s: State, w: Wallet, members: seq<GoString>, threshold: int)
    requires RecordOf(s, w).phase.Idle? && ValidCommittee(members) && |members| > 0
    ensures var info := RecordOf(s, w).info;
            && Enabled(s, FirstStep(info, w, members, threshold))
            && var s' := RunSteps(Apply(s, FirstStep(info, w, members, threshold)),
                                  Writes(w, members, |members|) + [Finish(w)]);
               && s'.Some? && RecordOf(s'.value, w).phase.Idle?
               && RecordOf(s'.value, w).info
                  == Some(KeyInfo(members, threshold, if info.None? then 1 else info.value.version + 1))
  {
    StartedOperation(s, w, members, threshold);
    var s1 := Apply(s, FirstStep(RecordOf(s, w).info, w, members, threshold));
    CompletesFrom(s1, w, members, RecordOf(s1, w).phase);
  }

  lemma AllWroteFinishes(s: State, w: Wallet, r: Record, members: seq<GoString>)
    requires r.phase.Running? && r.phase.members == members && |members| > 0
    requires Wrote(r, RecordOf(s, w), members, |members|)
    ensures Enabled(s, Finish(w)) && RecordOf(Apply(s, Finish(w)), w).phase.Idle?
    ensures RecordOf(Apply(s, Finish(w)), w).info == Some(KeyInfo(members, r.phase.threshold, r.phase.version))
  {
    assert members[..|members|] == members;
  }

  /** A committee's party keys do not depend on the order its members were listed in. */
  lemma PartyKeysOf(share: Share, nodeID: GoString, ids: seq<GoString>, version: nat)
    requires MadeFor(share, nodeID, Elements(ids), version) && ValidCommittee(ids)
    ensures share.PartyKeys() == Keys(Committee(ids, PURPOSE_KEYGEN, version))
  {
    assert forall id :: id in Elements(share.order) <==> id in Elements(ids);
    CommitteeIgnoresOrder(share.order, ids, PURPOSE_KEYGEN, version);
  }

  /** A signing session on an idle wallet finds its share, is the party the share was made
      for, and names only parties of the committee that share was made under. */
  lemma SigningFindsItsShare(
      run: seq<State>, i: nat, w: Wallet, session: SigningSession, ready: seq<GoString>, nodeID: GoString)
    requires IsRun(run) && i < |run|
    requires RecordOf(run[i], w).phase.Idle? && RecordOf(run[i], w).info.Some?
    requires nodeID in ready && nodeID in RecordOf(run[i], w).info.value.participants
    requires SigningQuorum(session, RecordOf(run[i], w).info.value, ready, nodeID)
    ensures var info := RecordOf(run[i], w).info.value;
            (nodeID, KeyOf(w, info.version)) in run[i].shares
            && FitsSession(run[i].shares[(nodeID, KeyOf(w, info.version))], session, info)
  {
    var info := RecordOf(run[i], w).info.value;
    IdleWalletComplete(run, i, w);
    assert Holds(run[i], w, nodeID, Elements(info.participants), info.version);
    ShareFitsSession(run[i].shares[(nodeID, KeyOf(w, info.version))], session, info, ready, nodeID);
  }

  /** The session is the share's own party, and all its parties are in the share's committee,
      which is rebuilt from key info alone. */
  predicate FitsSession(share: Share, session: SigningSession, info: KeyInfo) {
    && session.self.Some? && share.SelfKey() == session.self.value.key
    && share.PartyKeys() == Keys(Committee(info.participants, PURPOSE_KEYGEN, info.version))
    && forall i | 0 <= i < |session.parties| :: session.parties[i].key in share.PartyKeys()
  }

  lemma ShareFitsSession(share: Share, session: SigningSession, info: KeyInfo, ready: seq<GoString>, nodeID: GoString)
    requires SigningQuorum(session, info, ready, nodeID) && ValidCommittee(info.participants)
    requires MadeFor(share, nodeID, Elements(info.participants), info.version)
    ensures FitsSession(share, session, info)
  {
    PartyKeysOf(share, nodeID, info.participants, info.version);
    SessionPartiesKnown(session, info, ready, nodeID);
  }

  lemma SessionPartiesKnown(session: SigningSession, info: KeyInfo, ready: seq<GoString>, nodeID: GoString)
    requires SigningQuorum(session, info, ready, nodeID)
    ensures forall i | 0 <= i < |session.parties| ::
              session.parties[i].key in Keys(Committee(info.participants, PURPOSE_KEYGEN, info.version))
  {
    forall i | 0 <= i < |session.parties|
      ensures session.parties[i].key in Keys(Committee(info.participants, PURPOSE_KEYGEN, info.version))
    {
      var p := session.parties[i];
      assert p in session.parties;
      var id :| id in session.participants && p == CreatePartyID(id, PURPOSE_KEYGEN, info.version);
      SelfInCommittee(id, info.participants, PURPOSE_KEYGEN, info.version);
      KeyListed(p, Committee(info.participants, PURPOSE_KEYGEN, info.version));
    }
  }

  lemma KeyListed(p: PartyID, ps: seq<PartyID>)
    requires p in ps
    ensures p.key in Keys(ps)
  {
    var i :| 0 <= i < |ps| && ps[i] == p;
    assert Keys(ps)[i] == p.key;
  }

  /** `loadOldShareDataGeneric`: versions above 0 are looked up under the versioned key only. */
  function LoadOldShare(s: State, w: Wallet, nodeID: GoString, version: nat): Option<Share> {
    var key := if version > 0 then ComposeKey(w.st, WalletIDWithVersion(w.id, version)) else ComposeKey(w.st, w.id);
    if (nodeID, key) in s.shares then Some(s.shares[(nodeID, key)]) else None
  }

  /** Every old-committee reshare session loads the share its own party was made for. */
  lemma ReshareLoadsOldShare(
      run: seq<State>, i: nat, w: Wallet, session: ReshareSession, newThreshold: int,
      newPeerIDs: seq<GoString>, ready: seq<GoString>, nodeID: GoString)
    requires IsRun(run) && i < |run|
    requires RecordOf(run[i], w).phase.Idle? && RecordOf(run[i], w).info.Some?
    requires ReshareQuorum(session, RecordOf(run[i], w).info.value, newThreshold, newPeerIDs, ready, nodeID)
    requires !session.isNewParty
    ensures var share := LoadOldShare(run[i], w, nodeID, session.version);
            && share.Some?
            && MadeFor(share.value, nodeID, Elements(RecordOf(run[i], w).info.value.participants), session.version)
            && share.value.SelfKey() == session.self.value.key
  {
    var info := RecordOf(run[i], w).info.value;
    IdleWalletComplete(run, i, w);
    assert Holds(run[i], w, nodeID, Elements(info.participants), info.version);
  }

  lemma CommitteeKeys(ids: seq<GoString>, purpose: string, version: nat)
    ensures Keys(Committee(ids, purpose, version)) == Keys(Committee(ids, PURPOSE_KEYGEN, version))
  {
    CommitteePurpose(ids, purpose, PURPOSE_KEYGEN, version);
  }

  lemma StoresItsShare(s: State, w: Wallet, members: seq<GoString>, nodeID: GoString, version: nat)
    requires var phase := RecordOf(s, w).phase;
             phase.Running? && phase.members == members && phase.version == version && phase.stored == {}
    requires ValidCommittee(members) && nodeID in members
    ensures Enabled(s, StoreShare(w, nodeID, members))
    ensures Apply(s, StoreShare(w, nodeID, members)).shares
         == s.shares[(nodeID, KeyOf(w, version)) := Share(nodeID, members, version)]
  {}

  /** The share a node stores after a reshare is started, and where. */
  lemma StoredInReshare(s: State, w: Wallet, info: KeyInfo, members: seq<GoString>, threshold: int, nodeID: GoString)
    requires RecordOf(s, w).phase.Idle? && RecordOf(s, w).info == Some(info)
    requires ValidCommittee(members) && nodeID in members
    ensures Enabled(s, StartReshare(w, members, threshold))
    ensures var s1 := Apply(s, StartReshare(w, members, threshold));
            && Enabled(s1, StoreShare(w, nodeID, members))
            && Apply(s1, StoreShare(w, nodeID, members)).shares
               == s.shares[(nodeID, KeyOf(w, info.version + 1)) := Share(nodeID, members, info.version + 1)]
  {
    StartedOperation(s, w, members, threshold);
    var s1 := Apply(s, StartReshare(w, members, threshold));
    assert s1.shares == s.shares;
    StoresItsShare(s1, w, members, nodeID, info.version + 1);
  }

  lemma ShareOfCommittee(share: Share, purpose: string, self: PartyID, parties: seq<PartyID>)
    requires self == CreatePartyID(share.owner, purpose, share.version)
    requires parties == Committee(share.order, purpose, share.version)
    ensures share.SelfKey() == self.key && share.PartyKeys() == Keys(parties)
  {
    CommitteeKeys(share.order, purpose, share.version);
  }

  lemma NewSide(s: ReshareSession, version: nat, readyOld: seq<GoString>, newPeerIDs: seq<GoString>, nodeID: GoString)
    requires ReshareParties(s, version, readyOld, newPeerIDs, nodeID) && s.isNewParty
    ensures nodeID in newPeerIDs && s.newPeerIDs == newPeerIDs
    ensures s.self == Some(CreatePartyID(nodeID, PURPOSE_RESHARE, version + 1))
    ensures s.parties == Committee(newPeerIDs, PURPOSE_RESHARE, version + 1)
  {}

  /** A new-committee session makes exactly the share that its node then stores: the share
      carries the session's own party key, and the party keys rebuilt from it are those the
      session ran with. */
  lemma ReshareMakesNextShare(
      session: ReshareSession, info: KeyInfo, newThreshold: int,
      newPeerIDs: seq<GoString>, ready: seq<GoString>, nodeID: GoString)
    requires ReshareQuorum(session, info, newThreshold, newPeerIDs, ready, nodeID) && session.isNewParty
    ensures var share := Share(nodeID, newPeerIDs, info.version + 1);
            && nodeID in newPeerIDs && session.newPeerIDs == newPeerIDs && session.newThreshold == newThreshold
            && share.SelfKey() == session.self.value.key && share.PartyKeys() == Keys(session.parties)
  {
    NewSide(session, info.version, ReadyParticipants(info.participants, ready), newPeerIDs, nodeID);
    ShareOfCommittee(Share(nodeID, newPeerIDs, info.version + 1), PURPOSE_RESHARE, session.self.value, session.parties);
  }
}
