/** The registry of ready peers and their symmetric keys (pkg/mpc/registry.go). */
module PeerRegistry {
  import opened Results
  import opened Lists

  /** `readyCount` counts the node itself. `keys` is the symmetric key map of the identity store. */
  datatype State = State(readyMap: map<string, bool>, readyCount: int, ready: bool, keys: map<string, string>)

  function Marked(m: map<string, bool>): (r: set<string>)
    ensures forall p :: p in r <==> p in m && m[p]
  {
    set p | p in m && m[p]
  }

  predicate IsECDHReady(s: State) {
    |s.keys| == s.readyCount - 1
  }

  predicate ArePeersReady(s: State) {
    s.ready && IsECDHReady(s)
  }

  predicate AreMajorityReady(s: State, mpcThreshold: int) {
    s.readyCount >= mpcThreshold + 1 && IsECDHReady(s)
  }

  function CheckReady(s: State, peers: seq<string>): State {
    s.(ready := s.ready || (|Marked(s.readyMap)| == |peers| && IsECDHReady(s)))
  }

  function MarkAll(m: map<string, bool>, ids: set<string>): map<string, bool> {
    map p | p in m.Keys + ids :: p in ids || m[p]
  }

  function UnmarkAll(m: map<string, bool>, ids: set<string>): map<string, bool> {
    map p | p in m :: m[p] && p !in ids
  }

  /** Marks the peers of a snapshot and counts those that were not marked before. */
  function Register(s: State, ids: set<string>): State {
    s.(readyMap := MarkAll(s.readyMap, ids),
       readyCount := s.readyCount + |ids - Marked(s.readyMap)|)
  }

  /** Unmarks peers that were marked, uncounts them and drops their symmetric keys. */
  function Disconnect(s: State, gone: set<string>): State {
    s.(readyMap := UnmarkAll(s.readyMap, gone),
       readyCount := s.readyCount - |gone|,
       keys := s.keys - gone)
  }

  /** One tick of the watch loop; a failed Consul list arrives as the empty snapshot. */
  function Poll(s: State, peers: seq<string>, snapshot: seq<string>): State {
    var s1 := if |snapshot| != |peers|
              then Disconnect(s.(ready := false), Marked(s.readyMap) - Elements(snapshot))
              else s;
    CheckReady(Register(s1, Elements(snapshot)), peers)
  }

  /** One verified ECDH message: the sender's symmetric key is stored. */
  function Deliver(s: State, peers: seq<string>, from: string, key: string): State {
    var s1 := s.(keys := s.keys[from := key]);
    if |s1.keys| == |peers| then CheckReady(s1, peers) else s1
  }

  function Initial(): State {
    State(map[], 1, false, map[])
  }

  /** The registry object; `View` is its value. */
  class Registry {
    const nodeID: string
    const peers: seq<string>
    var readyMap: map<string, bool>
    var readyCount: int
    var ready: bool
    var keys: map<string, string>

    constructor (nodeID: string, peerNodeIDs: seq<string>)
      ensures this.nodeID == nodeID
      ensures peers == Filter(peerNodeIDs, Elements(peerNodeIDs) - {nodeID})
      ensures View() == Initial()
    {
      this.nodeID := nodeID;
      peers := Filter(peerNodeIDs, Elements(peerNodeIDs) - {nodeID});
      readyMap, readyCount, ready, keys := map[], 1, false, map[];
    }

    function View(): State
      reads this
    {
      State(readyMap, readyCount, ready, keys)
    }

    method CountMarked() returns (n: nat)
      ensures n == |Marked(readyMap)|
    {
      n := 0;
      var rest := readyMap.Keys;
      while rest != {}
        invariant rest <= readyMap.Keys
        invariant n == |Marked(readyMap) - rest|
        decreases |rest|
      {
        var p :| p in rest;
        if readyMap[p] {
          n := n + 1;
          assert Marked(readyMap) - (rest - {p}) == Marked(readyMap) - rest + {p};
        } else {
          assert Marked(readyMap) - (rest - {p}) == Marked(readyMap) - rest;
        }
        rest := rest - {p};
      }
      assert Marked(readyMap) - {} == Marked(readyMap);
    }

    method CheckAndUpdateReadyState()
      modifies this`ready
      ensures View() == CheckReady(old(View()), peers)
    {
      var readyPeersCount := CountMarked();
      if readyPeersCount == |peers| && |keys| == readyCount - 1 && !ready {
        ready := true;
      }
    }

    /** A peer seen for the first time, reconnecting, or already marked. */
    method RegisterPeer(p: string)
      modifies this`readyMap, this`readyCount
      ensures View() == RegisterOne(old(View()), p)
    {
      if p !in readyMap {
        readyCount := readyCount + 1;
      } else if !readyMap[p] {
        readyCount := readyCount + 1;
      }
      readyMap := readyMap[p := true];
    }

    method DisconnectPeer(p: string)
      modifies this`readyMap, this`readyCount, this`keys
      ensures View() == DisconnectOne(old(View()), p)
    {
      readyMap := readyMap[p := false];
      readyCount := readyCount - 1;
      keys := keys - {p};
    }

    method RegisterReadyPairs(peerIDs: seq<string>)
      modifies this`readyMap, this`readyCount, this`ready
      ensures View() == CheckReady(Register(old(View()), Elements(peerIDs)), peers)
    {
      RegisterNone(View());
      for i := 0 to |peerIDs|
        invariant View() == Register(old(View()), Elements(peerIDs[..i]))
      {
        RegisterMore(old(View()), Elements(peerIDs[..i]), peerIDs[i]);
        assert Elements(peerIDs[..i + 1]) == Elements(peerIDs[..i]) + {peerIDs[i]};
        RegisterPeer(peerIDs[i]);
      }
      assert peerIDs[..|peerIDs|] == peerIDs;
      CheckAndUpdateReadyState();
    }

    /** The marked peers in some order, each once. */
    method MarkedPeers() returns (ids: seq<string>)
      ensures Distinct(ids) && Elements(ids) == Marked(readyMap)
    {
      ids := [];
      var rest := readyMap.Keys;
      while rest != {}
        invariant rest <= readyMap.Keys
        invariant Distinct(ids) && Elements(ids) == Marked(readyMap) - rest
        decreases |rest|
      {
        var p :| p in rest;
        if readyMap[p] {
          assert p !in Elements(ids);
          ids := ids + [p];
        }
        rest := rest - {p};
      }
    }

    method GetReadyPeersIncludeSelf() returns (ids: seq<string>)
      ensures |ids| == |Marked(readyMap)| + 1
      ensures Elements(ids) == Marked(readyMap) + {nodeID}
    {
      var marked := MarkedPeers();
      ElementCount(marked);
      ids := marked + [nodeID];
    }

    method PollPeers(snapshot: seq<string>)
      modifies this
      ensures View() == Poll(old(View()), peers, snapshot)
    {
      if |snapshot| != |peers| {
        ready := false;
        var readyPeerIDs := MarkedPeers();
        var disconnecteds := Filter(readyPeerIDs, Elements(readyPeerIDs) - Elements(snapshot));
        FilterDistinct(readyPeerIDs, Elements(readyPeerIDs) - Elements(snapshot));
        ghost var s0 := View();
        DisconnectNone(s0);
        for i := 0 to |disconnecteds|
          invariant View() == Disconnect(s0, Elements(disconnecteds[..i]))
        {
          var p := disconnecteds[i];
          assert p in disconnecteds && p !in disconnecteds[..i];
          DisconnectMore(s0, Elements(disconnecteds[..i]), p);
          assert Elements(disconnecteds[..i + 1]) == Elements(disconnecteds[..i]) + {p};
          DisconnectPeer(p);
        }
        assert Elements(disconnecteds[..|disconnecteds|]) == Marked(s0.readyMap) - Elements(snapshot);
      }
      RegisterReadyPairs(snapshot);
    }

    method DeliverECDH(from: string, key: string)
      modifies this`keys, this`ready
      ensures View() == Deliver(old(View()), peers, from, key)
    {
      keys := keys[from := key];
      if |keys| == |peers| {
        CheckAndUpdateReadyState();
      }
    }
  }

  lemma RegisterNone(s: State)
    ensures Register(s, {}) == s
  {
    assert MarkAll(s.readyMap, {}) == s.readyMap;
  }

  lemma MarkMore(m: map<string, bool>, ids: set<string>, p: string)
    ensures MarkAll(m, ids + {p}) == MarkAll(m, ids)[p := true]
    ensures Marked(MarkAll(m, ids)) == Marked(m) + ids
  {}

  lemma CountMore(marked: set<string>, ids: set<string>, p: string)
    ensures |ids + {p} - marked| == |ids - marked| + if p in marked + ids then 0 else 1
  {
    if p in marked + ids {
      assert ids + {p} - marked == ids - marked;
    } else {
      assert ids + {p} - marked == ids - marked + {p};
    }
  }

  lemma RegisterMore(s: State, ids: set<string>, p: string)
    ensures Register(s, ids + {p}) == RegisterOne(Register(s, ids), p)
  {
    MarkMore(s.readyMap, ids, p);
    CountMore(Marked(s.readyMap), ids, p);
  }

  function RegisterOne(s: State, p: string): State {
    s.(readyMap := s.readyMap[p := true],
       readyCount := s.readyCount + if p in Marked(s.readyMap) then 0 else 1)
  }

  lemma DisconnectNone(s: State)
    ensures Disconnect(s, {}) == s
  {
    assert UnmarkAll(s.readyMap, {}) == s.readyMap;
    assert s.keys - {} == s.keys;
  }

  lemma UnmarkMore(m: map<string, bool>, ids: set<string>, p: string)
    requires p in m
    ensures UnmarkAll(m, ids + {p}) == UnmarkAll(m, ids)[p := false]
  {}

  lemma DisconnectMore(s: State, gone: set<string>, p: string)
    requires p in s.readyMap && p !in gone
    ensures Disconnect(s, gone + {p}) == DisconnectOne(Disconnect(s, gone), p)
  {
    UnmarkMore(s.readyMap, gone, p);
    assert s.keys - (gone + {p}) == s.keys - gone - {p};
  }

  function DisconnectOne(s: State, p: string): State {
    s.(readyMap := s.readyMap[p := false], readyCount := s.readyCount - 1, keys := s.keys - {p})
  }

  // ---- what polls do to the marked set ----

  lemma RegisterMarks(s: State, ids: set<string>)
    ensures Marked(Register(s, ids).readyMap) == Marked(s.readyMap) + ids
  {}

  lemma DisconnectUnmarks(s: State, gone: set<string>)
    ensures Marked(Disconnect(s, gone).readyMap) == Marked(s.readyMap) - gone
  {}

  lemma PollMarks(s: State, peers: seq<string>, snapshot: seq<string>)
    ensures Marked(Poll(s, peers, snapshot).readyMap)
         == if |snapshot| != |peers| then Elements(snapshot) else Marked(s.readyMap) + Elements(snapshot)
  {
    var gone := Marked(s.readyMap) - Elements(snapshot);
    var s1 := if |snapshot| != |peers| then Disconnect(s.(ready := false), gone) else s;
    DisconnectUnmarks(s.(ready := false), gone);
    RegisterMarks(s1, Elements(snapshot));
  }

  /** A snapshot of configured peers, each once, as long as the configuration lists them all. */
  lemma FullSnapshot(peers: seq<string>, snapshot: seq<string>)
    requires Distinct(snapshot) && Elements(snapshot) <= Elements(peers) && |snapshot| == |peers|
    ensures Elements(snapshot) == Elements(peers)
  {
    ElementCount(snapshot);
    ElementCount(peers);
    SubsetOfEqualSize(Elements(snapshot), Elements(peers));
  }

  /** After a poll the marked set is the snapshot exactly when the lengths differ or nobody
      outside the snapshot was marked. */
  lemma PollTracksSnapshot(s: State, peers: seq<string>, snapshot: seq<string>)
    ensures Marked(Poll(s, peers, snapshot).readyMap) == Elements(snapshot)
       <==> |snapshot| != |peers| || Marked(s.readyMap) <= Elements(snapshot)
  {
    PollMarks(s, peers, snapshot);
    UnionIs(Marked(s.readyMap), Elements(snapshot));
  }

  lemma UnionIs(a: set<string>, b: set<string>)
    ensures a + b == b <==> a <= b
  {}

  // ---- runs ----

  datatype Event = Tick(snapshot: seq<string>) | Ecdh(from: string, key: string)

  function Handle(s: State, peers: seq<string>, e: Event): State {
    match e
    case Tick(snapshot) => Poll(s, peers, snapshot)
    case Ecdh(from, key) => Deliver(s, peers, from, key)
  }

  function After(peers: seq<string>, events: seq<Event>): State {
    if |events| == 0 then Initial()
    else Handle(After(peers, events[..|events| - 1]), peers, events[|events| - 1])
  }

  predicate CountOK(s: State) {
    s.readyCount == 1 + |Marked(s.readyMap)|
  }

  lemma RegisterCounts(s: State, ids: set<string>)
    requires CountOK(s)
    ensures CountOK(Register(s, ids))
  {
    RegisterMarks(s, ids);
    assert Marked(s.readyMap) + ids == Marked(s.readyMap) + (ids - Marked(s.readyMap));
  }

  lemma DisconnectCounts(s: State, gone: set<string>)
    requires CountOK(s) && gone <= Marked(s.readyMap)
    ensures CountOK(Disconnect(s, gone))
  {
    DisconnectUnmarks(s, gone);
    assert Marked(s.readyMap) == (Marked(s.readyMap) - gone) + gone;
  }

  lemma HandleCounts(s: State, peers: seq<string>, e: Event)
    requires CountOK(s)
    ensures CountOK(Handle(s, peers, e))
  {
    if e.Tick? {
      var gone := Marked(s.readyMap) - Elements(e.snapshot);
      if |e.snapshot| != |peers| {
        DisconnectCounts(s.(ready := false), gone);
        RegisterCounts(Disconnect(s.(ready := false), gone), Elements(e.snapshot));
      } else {
        RegisterCounts(s, Elements(e.snapshot));
      }
    }
  }

  /** In every run, whatever the snapshots hold, the counter is one plus the number of marked
      peers, which is also the length of the ready list. */
  lemma {:induction false} ReadyCountIsExact(peers: seq<string>, events: seq<Event>)
    ensures CountOK(After(peers, events))
  {
    if |events| == 0 {
      assert Marked(map[]) == {};
    } else {
      ReadyCountIsExact(peers, events[..|events| - 1]);
      HandleCounts(After(peers, events[..|events| - 1]), peers, events[|events| - 1]);
    }
  }

  /** Snapshots list configured peers and verified senders are configured peers. */
  predicate Configured(peers: seq<string>, e: Event) {
    match e
    case Tick(snapshot) => Elements(snapshot) <= Elements(peers)
    case Ecdh(from, _) => from in peers
  }

  predicate CoverageOK(s: State, peers: seq<string>) {
    && Marked(s.readyMap) <= Elements(peers)
    && s.keys.Keys <= Elements(peers)
    && (s.ready ==> Marked(s.readyMap) == Elements(peers))
  }

  lemma CheckReadyCovers(s: State, peers: seq<string>)
    requires Distinct(peers) && CoverageOK(s, peers)
    ensures CoverageOK(CheckReady(s, peers), peers)
  {
    ElementCount(peers);
    if |Marked(s.readyMap)| == |peers| {
      SubsetOfEqualSize(Marked(s.readyMap), Elements(peers));
    }
  }

  lemma HandleCovers(s: State, peers: seq<string>, e: Event)
    requires Distinct(peers) && CoverageOK(s, peers) && Configured(peers, e)
    ensures CoverageOK(Handle(s, peers, e), peers)
  {
    match e
    case Tick(snapshot) =>
      var gone := Marked(s.readyMap) - Elements(snapshot);
      var s1 := if |snapshot| != |peers| then Disconnect(s.(ready := false), gone) else s;
      DisconnectUnmarks(s.(ready := false), gone);
      RegisterMarks(s1, Elements(snapshot));
      CheckReadyCovers(Register(s1, Elements(snapshot)), peers);
    case Ecdh(from, key) =>
      CheckReadyCovers(s.(keys := s.keys[from := key]), peers);
  }

  lemma {:induction false} RunCovers(peers: seq<string>, events: seq<Event>)
    requires Distinct(peers) && forall i | 0 <= i < |events| :: Configured(peers, events[i])
    ensures CoverageOK(After(peers, events), peers)
  {
    if |events| == 0 {
      assert Marked(map[]) == {};
    } else {
      RunCovers(peers, events[..|events| - 1]);
      HandleCovers(After(peers, events[..|events| - 1]), peers, events[|events| - 1]);
    }
  }

  /** In every run over configured peers, each poll leaves exactly the snapshot marked. */
  lemma RunTracksSnapshot(peers: seq<string>, events: seq<Event>, snapshot: seq<string>)
    requires Distinct(peers) && forall i | 0 <= i < |events| :: Configured(peers, events[i])
    requires Distinct(snapshot) && Elements(snapshot) <= Elements(peers)
    ensures Marked(After(peers, events + [Tick(snapshot)]).readyMap) == Elements(snapshot)
  {
    RunCovers(peers, events);
    if |snapshot| == |peers| {
      FullSnapshot(peers, snapshot);
    }
    PollTracksSnapshot(After(peers, events), peers, snapshot);
    assert (events + [Tick(snapshot)])[..|events|] == events;
  }

  /** The readiness test compares counts only, yet in every run it implies that each configured
      peer is marked and has a symmetric key. */
  lemma PeersReadyCoversEveryPeer(peers: seq<string>, events: seq<Event>)
    requires Distinct(peers) && forall i | 0 <= i < |events| :: Configured(peers, events[i])
    requires ArePeersReady(After(peers, events))
    ensures var s := After(peers, events);
            Marked(s.readyMap) == Elements(peers) && s.keys.Keys == Elements(peers)
  {
    var s := After(peers, events);
    RunCovers(peers, events);
    ReadyCountIsExact(peers, events);
    assert |s.keys.Keys| == |s.keys|;
    SubsetOfEqualSize(s.keys.Keys, Elements(peers));
  }

  lemma CheckedWhenComplete(s: State, peers: seq<string>)
    requires Distinct(peers) && CountOK(s)
    requires Marked(s.readyMap) == s.keys.Keys == Elements(peers)
    ensures |s.keys| == |peers| && ArePeersReady(CheckReady(s, peers))
  {
    ElementCount(peers);
    assert |s.keys.Keys| == |s.keys|;
  }

  /** The readiness test is exact: after at least one event it holds if and only if every
      configured peer is marked and has a symmetric key. */
  lemma PeersReadyIff(peers: seq<string>, events: seq<Event>)
    requires Distinct(peers) && |events| > 0 && forall i | 0 <= i < |events| :: Configured(peers, events[i])
    ensures var s := After(peers, events);
            ArePeersReady(s) <==> Marked(s.readyMap) == Elements(peers) && s.keys.Keys == Elements(peers)
  {
    var init, last := After(peers, events[..|events| - 1]), events[|events| - 1];
    var s := After(peers, events);
    if ArePeersReady(s) {
      PeersReadyCoversEveryPeer(peers, events);
    }
    if Marked(s.readyMap) == Elements(peers) && s.keys.Keys == Elements(peers) {
      ReadyCountIsExact(peers, events);
      CheckedWhenComplete(s, peers);
      LastEventChecks(init, peers, last);
    }
  }

  /** Checking once more after an event changes nothing, unless keys are still missing. */
  lemma LastEventChecks(s: State, peers: seq<string>, e: Event)
    requires |Handle(s, peers, e).keys| == |peers|
    ensures CheckReady(Handle(s, peers, e), peers) == Handle(s, peers, e)
  {}

  // ---- the registry as a function of what happened ----

  /** The peers of the latest poll. */
  function Present(events: seq<Event>): set<string> {
    if |events| == 0 then {}
    else
      match events[|events| - 1]
      case Tick(snapshot) => Elements(snapshot)
      case Ecdh(_, _) => Present(events[..|events| - 1])
  }

  /** The key last delivered by a peer since it was last seen to leave. */
  function KeyHeld(events: seq<Event>, p: string): Option<string> {
    if |events| == 0 then None
    else
      var init := events[..|events| - 1];
      match events[|events| - 1]
      case Tick(snapshot) => if p in Present(init) && p !in snapshot then None else KeyHeld(init, p)
      case Ecdh(from, key) => if from == p then Some(key) else KeyHeld(init, p)
  }

  /** Configured peers only, and each at most once in a snapshot. */
  predicate Listed(peers: seq<string>, events: seq<Event>) {
    && Distinct(peers)
    && forall i | 0 <= i < |events| ::
         Configured(peers, events[i]) && (events[i].Tick? ==> Distinct(events[i].snapshot))
  }

  ghost predicate HoldsKey(s: State, p: string, key: Option<string>) {
    (p in s.keys <==> key.Some?) && (p in s.keys ==> s.keys[p] == key.value)
  }

  lemma PollKeys(s: State, peers: seq<string>, snapshot: seq<string>)
    ensures Poll(s, peers, snapshot).keys
         == if |snapshot| != |peers| then s.keys - (Marked(s.readyMap) - Elements(snapshot)) else s.keys
  {}

  lemma {:induction false} PresentTracks(peers: seq<string>, events: seq<Event>)
    requires Listed(peers, events)
    ensures Marked(After(peers, events).readyMap) == Present(events) <= Elements(peers)
  {
    if |events| == 0 {
      assert Marked(map[]) == {};
    } else {
      var init, last := events[..|events| - 1], events[|events| - 1];
      PresentTracks(peers, init);
      if last.Tick? {
        assert events == init + [Tick(last.snapshot)];
        RunTracksSnapshot(peers, init, last.snapshot);
      }
    }
  }

  lemma {:induction false} KeyTracks(peers: seq<string>, events: seq<Event>, p: string)
    requires Listed(peers, events)
    ensures HoldsKey(After(peers, events), p, KeyHeld(events, p))
  {
    if |events| > 0 {
      var init, last := events[..|events| - 1], events[|events| - 1];
      KeyTracks(peers, init, p);
      if last.Tick? {
        PresentTracks(peers, init);
        PollKeys(After(peers, init), peers, last.snapshot);
        if |last.snapshot| == |peers| {
          FullSnapshot(peers, last.snapshot);
        }
      }
    }
  }

  /** In every run over configured peers the registry is determined by the events: the peers of
      the latest poll are marked and counted, and a peer's key is the one it last delivered,
      unless a poll has missed the peer since. */
  lemma RegistryFollowsEvents(peers: seq<string>, events: seq<Event>, p: string)
    requires Listed(peers, events)
    ensures var s := After(peers, events);
            && Marked(s.readyMap) == Present(events)
            && s.readyCount == 1 + |Present(events)|
            && HoldsKey(s, p, KeyHeld(events, p))
  {
    PresentTracks(peers, events);
    ReadyCountIsExact(peers, events);
    KeyTracks(peers, events, p);
  }

  function KeyHolders(peers: seq<string>, events: seq<Event>): set<string> {
    set p | p in peers && KeyHeld(events, p).Some?
  }

  lemma KeyHoldersTrack(peers: seq<string>, events: seq<Event>)
    requires Listed(peers, events)
    ensures After(peers, events).keys.Keys == KeyHolders(peers, events)
  {
    RunCovers(peers, events);
    forall p ensures HoldsKey(After(peers, events), p, KeyHeld(events, p)) {
      KeyTracks(peers, events, p);
    }
  }

  /** Both readiness tests in terms of the events alone. */
  lemma ReadinessFollowsEvents(peers: seq<string>, events: seq<Event>, mpcThreshold: int)
    requires Listed(peers, events)
    ensures var s := After(peers, events);
            && (ArePeersReady(s) <==>
                  |events| > 0 && Present(events) == KeyHolders(peers, events) == Elements(peers))
            && (AreMajorityReady(s, mpcThreshold) <==>
                  |Present(events)| >= mpcThreshold && |KeyHolders(peers, events)| == |Present(events)|)
  {
    PresentTracks(peers, events);
    KeyHoldersTrack(peers, events);
    ReadyCountIsExact(peers, events);
    if |events| > 0 {
      PeersReadyIff(peers, events);
    }
  }

  /** The majority test promises a key for every ready peer; it keeps that promise exactly when
      no key belongs to a peer that is not ready. */
  lemma MajorityReadyExact(peers: seq<string>, events: seq<Event>, mpcThreshold: int)
    requires AreMajorityReady(After(peers, events), mpcThreshold)
    ensures var s := After(peers, events);
            Marked(s.readyMap) <= s.keys.Keys <==> s.keys.Keys <= Marked(s.readyMap)
  {
    var s := After(peers, events);
    ReadyCountIsExact(peers, events);
    assert |s.keys.Keys| == |s.keys| == |Marked(s.readyMap)|;
    if s.keys.Keys <= Marked(s.readyMap) {
      SubsetOfEqualSize(s.keys.Keys, Marked(s.readyMap));
    }
    if Marked(s.readyMap) <= s.keys.Keys {
      SubsetOfEqualSize(Marked(s.readyMap), s.keys.Keys);
    }
  }

  /** A first poll that finds one of two peers. */
  lemma FirstPoll(s: State, peers: seq<string>)
    requires s == Poll(Initial(), peers, ["a"]) && |peers| == 2
    ensures s.readyCount == 2 && Marked(s.readyMap) == {"a"} && s.keys == map[]
  {
    PollMarks(Initial(), peers, ["a"]);
    assert Elements(["a"]) == {"a"} && Marked(map[]) == {};
    HandleCounts(Initial(), peers, Tick(["a"]));
    assert s.keys == map[] - {};
  }

  /** It can fail: "a" is ready, the only key is that of "b", and the majority test passes. */
  lemma MajorityReadyExample()
    ensures var s := After(["a", "b"], [Tick(["a"]), Ecdh("b", "k")]);
            AreMajorityReady(s, 1) && "a" in Marked(s.readyMap) && "a" !in s.keys
  {
    var peers, e1, e2 := ["a", "b"], Tick(["a"]), Ecdh("b", "k");
    assert [e1, e2][..1] == [e1] && [e1][..0] == [];
    var s1 := Poll(Initial(), peers, ["a"]);
    assert After(peers, [e1]) == s1;
    assert After(peers, [e1, e2]) == Deliver(s1, peers, "b", "k");
    FirstPoll(s1, peers);
    assert |map["b" := "k"]| == 1;
  }
}
