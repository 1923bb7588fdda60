/** Eviction of unresponsive peers (`checkPeersHealth` of pkg/mpc/registry.go). */
module PeerHealth {

  const MAX_FAILURES: nat := 5

  /** One health check; `failed` means the error said "no responders". */
  datatype Probe = Probe(peer: string, failed: bool)

  /** How many of the latest probes of a peer failed in a row; probes of others do not count. */
  function FailureStreak(probes: seq<Probe>, peer: string): nat {
    if |probes| == 0 then 0
    else
      var last := probes[|probes| - 1];
      if last.peer != peer then FailureStreak(probes[..|probes| - 1], peer)
      else if last.failed then FailureStreak(probes[..|probes| - 1], peer) + 1
      else 0
  }

  function Count(failureCount: map<string, nat>, peer: string): nat {
    if peer in failureCount then failureCount[peer] else 0
  }

  /** One iteration of the health-check loop: count, evict at the limit, or reset. */
  method CheckPeer(failureCount: map<string, nat>, probe: Probe) returns (counts: map<string, nat>, evict: bool)
    requires Count(failureCount, probe.peer) < MAX_FAILURES
    ensures forall p | p != probe.peer :: Count(counts, p) == Count(failureCount, p)
    ensures Count(counts, probe.peer)
         == if probe.failed then (Count(failureCount, probe.peer) + 1) % MAX_FAILURES else 0
    ensures evict <==> probe.failed && Count(failureCount, probe.peer) == MAX_FAILURES - 1
  {
    counts, evict := failureCount - {probe.peer}, false;
    if probe.failed {
      var n := (if probe.peer in failureCount then failureCount[probe.peer] else 0) + 1;
      if n >= MAX_FAILURES {
        evict := true;
      } else {
        counts := failureCount[probe.peer := n];
      }
    }
  }

  predicate EvictedAt(probes: seq<Probe>, i: nat)
    requires i < |probes|
  {
    probes[i].failed && FailureStreak(probes[..i + 1], probes[i].peer) % MAX_FAILURES == 0
  }

  lemma StreakStep(probes: seq<Probe>, i: nat, p: string)
    requires i < |probes|
    ensures FailureStreak(probes[..i + 1], p)
         == if probes[i].peer != p then FailureStreak(probes[..i], p)
            else if probes[i].failed then FailureStreak(probes[..i], p) + 1 else 0
  {
    assert probes[..i + 1][..i] == probes[..i];
  }

  /** The counters are the failure streaks, modulo the limit. */
  ghost predicate Tracks(failureCount: map<string, nat>, probes: seq<Probe>) {
    forall p :: Count(failureCount, p) == FailureStreak(probes, p) % MAX_FAILURES
  }

  lemma TracksStep(before: map<string, nat>, after: map<string, nat>, probes: seq<Probe>, i: nat)
    requires i < |probes| && Tracks(before, probes[..i])
    requires forall p | p != probes[i].peer :: Count(after, p) == Count(before, p)
    requires Count(after, probes[i].peer)
          == if probes[i].failed then (Count(before, probes[i].peer) + 1) % MAX_FAILURES else 0
    ensures Tracks(after, probes[..i + 1])
  {
    forall p ensures Count(after, p) == FailureStreak(probes[..i + 1], p) % MAX_FAILURES {
      StreakStep(probes, i, p);
    }
  }

  /** Over any history of probes a peer is evicted exactly at every fifth failure in a row:
      the counter is reset by eviction, by a response, and by any other error. */
  method RunProbes(probes: seq<Probe>) returns (evicted: seq<bool>)
    ensures |evicted| == |probes|
    ensures forall i | 0 <= i < |probes| :: evicted[i] <==> EvictedAt(probes, i)
  {
    var failureCount: map<string, nat> := map[];
    evicted := [];
    for i := 0 to |probes|
      invariant |evicted| == i
      invariant Tracks(failureCount, probes[..i])
      invariant forall j | 0 <= j < i :: evicted[j] <==> EvictedAt(probes, j)
    {
      var counts, evict := CheckPeer(failureCount, probes[i]);
      TracksStep(failureCount, counts, probes, i);
      StreakStep(probes, i, probes[i].peer);
      failureCount, evicted := counts, evicted + [evict];
    }
  }

  /** How often a peer was probed. */
  function ProbesOf(probes: seq<Probe>, peer: string): nat {
    if |probes| == 0 then 0
    else ProbesOf(probes[..|probes| - 1], peer) + if probes[|probes| - 1].peer == peer then 1 else 0
  }

  /** Every probe of the peer from index `r` on failed; other peers may be probed in between. */
  predicate FailsFrom(probes: seq<Probe>, r: nat, peer: string) {
    forall i | r <= i < |probes| && probes[i].peer == peer :: probes[i].failed
  }

  lemma {:induction false} StreakGrows(probes: seq<Probe>, r: nat, peer: string)
    requires r <= |probes| && FailsFrom(probes, r, peer)
    ensures FailureStreak(probes, peer) == FailureStreak(probes[..r], peer) + ProbesOf(probes[r..], peer)
  {
    if r == |probes| {
      assert probes[..r] == probes && probes[r..] == [];
    } else {
      var init := probes[..|probes| - 1];
      StreakGrows(init, r, peer);
      assert init[..r] == probes[..r];
      assert probes[r..][..|probes| - 1 - r] == init[r..];
    }
  }

  /** Index `r` is the start of the history or comes right after a response of the peer. */
  predicate RespondedAt(probes: seq<Probe>, r: nat, peer: string)
    requires r <= |probes|
  {
    r == 0 || probes[r - 1] == Probe(peer, false)
  }

  /** Among probes of any number of peers: since its last response a peer is evicted exactly at
      its fifth, tenth, ... probe, so fewer than five failures never evict it. */
  lemma TransientFailuresTolerated(probes: seq<Probe>, r: nat, i: nat, peer: string)
    requires r <= i < |probes| && RespondedAt(probes, r, peer) && FailsFrom(probes[..i + 1], r, peer)
    requires probes[i].peer == peer
    ensures EvictedAt(probes, i) <==> ProbesOf(probes[r..i + 1], peer) % 5 == 0
    ensures 1 <= ProbesOf(probes[r..i + 1], peer)
    ensures ProbesOf(probes[r..i + 1], peer) < 5 ==> !EvictedAt(probes, i)
  {
    var upTo := probes[..i + 1];
    assert upTo[i] == probes[i];
    StreakGrows(upTo, r, peer);
    assert upTo[..r] == probes[..r] && upTo[r..] == probes[r..i + 1];
    StreakAfterResponse(probes[..r], peer);
  }

  lemma StreakAfterResponse(probes: seq<Probe>, peer: string)
    requires RespondedAt(probes, |probes|, peer)
    ensures FailureStreak(probes, peer) == 0
  {}
}
