/**
 Nonce allocation (wallet-api/pkg/transaction/builder.go). One Redis counter per chain and address;
 every Redis call of every request is a step of its own.
 */
module Nonces {
  import opened Results

  /** Redis INCR and DECR start from zero on a missing key. */
  function Plus(counter: Option<int>, d: int): int {
    (if counter.Some? then counter.value else 0) + d
  }

  function SetIfAbsent(counter: Option<int>, n: int): Option<int> {
    if counter.Some? then counter else Some(n)
  }

  /** The Redis counter as one request sees it when no other interferes. */
  class Builder {
    var counter: Option<int>

    constructor ()
      ensures counter == None
    {
      counter := None;
    }

    /** `nextNonce`; `rpcNonce` is the chain's answer, or none if the call fails. */
    method NextNonce(rpcNonce: Option<nat>) returns (r: Result<nat>)
      modifies this
      ensures old(counter).None? && rpcNonce.None? ==> r.Err? && counter == None
      ensures old(counter).Some? || rpcNonce.Some? ==>
                var n := if old(counter).Some? then old(counter).value else rpcNonce.value;
                && counter == Some(n + 1)
                && (r.Ok? <==> n >= 0) && (r.Ok? ==> r.value == n)
    {
      if counter.None? {
        if rpcNonce.None? {
          return Err("rpc nonce");
        }
        counter := SetIfAbsent(counter, rpcNonce.value);
      }
      var n := Plus(counter, 1);
      counter := Some(n);
      return if n - 1 >= 0 then Ok(n - 1) else Err("invalid syntax");
    }

    method ReleaseNonce()
      modifies this
      ensures counter == Some(if old(counter).Some? then old(counter).value - 1 else -1)
    {
      counter := Some(Plus(counter, -1));
    }
  }

  // ---- interleaved requests ----

  datatype Phase =
    | Checked(present: bool)
    | Fetched(rpcNonce: nat)
    | Seeded
    | Holding(nonce: nat)

  /** The counter, the seed that won, and the phase of every request. */
  datatype State = State(counter: Option<int>, seed: nat, requests: map<nat, Phase>)

  datatype Step =
    | Exists(id: nat)
    | PendingNonce(id: nat, answer: Option<nat>)
    | SetNX(id: nat)
    | Incr(id: nat)
    | Release(id: nat)

  predicate Possible(s: State, step: Step) {
    if step.Exists? then step.id !in s.requests
    else
      && step.id in s.requests
      && var phase := s.requests[step.id];
         match step
         case PendingNonce(_, _) => phase == Checked(false)
         case SetNX(_) => phase.Fetched?
         case Incr(_) => phase == Checked(true) || phase == Seeded
         case Release(_) => phase.Holding?
  }

  function Next(s: State, step: Step): State
    requires Possible(s, step)
  {
    var id := step.id;
    match step
    case Exists(_) => s.(requests := s.requests[id := Checked(s.counter.Some?)])
    case PendingNonce(_, answer) =>
      if answer.None? then s.(requests := s.requests - {id})
      else s.(requests := s.requests[id := Fetched(answer.value)])
    case SetNX(_) =>
      State(SetIfAbsent(s.counter, s.requests[id].rpcNonce),
            if s.counter.Some? then s.seed else s.requests[id].rpcNonce,
            s.requests[id := Seeded])
    case Incr(_) =>
      var n := Plus(s.counter, 1);
      State(Some(n), s.seed,
            if n - 1 >= 0 then s.requests[id := Holding(n - 1)] else s.requests - {id})
    case Release(_) => s.(counter := Some(Plus(s.counter, -1)), requests := s.requests - {id})
  }

  /** The requests whose nonce is issued and not released. */
  function Holders(s: State): set<nat> {
    set id | id in s.requests && s.requests[id].Holding?
  }

  function Initial(): State {
    State(None, 0, map[])
  }

  // ---- in every run: the counter is the seed plus the number of holders ----

  ghost predicate Balanced(s: State) {
    && (forall id | id in s.requests && (s.requests[id] == Checked(true) || s.requests[id] == Seeded) :: s.counter.Some?)
    && (s.counter.None? ==> Holders(s) == {})
    && (s.counter.Some? ==> s.counter.value == s.seed + |Holders(s)|)
  }

  /** How a step changes the holders. */
  lemma HoldersAfter(s: State, step: Step)
    requires Balanced(s) && Possible(s, step)
    ensures Holders(Next(s, step))
         == match step
            case Incr(id) => Holders(s) + {id}
            case Release(id) => Holders(s) - {id}
            case _ => Holders(s)
  {}

  lemma StepKeepsBalance(s: State, step: Step)
    requires Balanced(s) && Possible(s, step)
    ensures Balanced(Next(s, step))
  {
    HoldersAfter(s, step);
    assert step.Incr? ==> step.id !in Holders(s);
    assert step.Release? ==> step.id in Holders(s);
  }

  /** Where steps lead from a state, if each is possible in its turn. */
  function RunFrom(start: State, steps: seq<Step>): Option<State> {
    if |steps| == 0 then Some(start)
    else
      var s := RunFrom(start, steps[..|steps| - 1]);
      if s.None? || !Possible(s.value, steps[|steps| - 1]) then None
      else Some(Next(s.value, steps[|steps| - 1]))
  }

  function Run(steps: seq<Step>): Option<State> {
    RunFrom(Initial(), steps)
  }

  lemma RunFromSnoc(start: State, steps: seq<Step>, step: Step)
    requires RunFrom(start, steps).Some? && Possible(RunFrom(start, steps).value, step)
    ensures RunFrom(start, steps + [step]) == Some(Next(RunFrom(start, steps).value, step))
  {
    assert (steps + [step])[..|steps|] == steps;
  }

  /** The Redis and chain calls of one `nextNonce` without interference. */
  function CallSteps(counter: Option<int>, id: nat, rpcNonce: Option<nat>): seq<Step> {
    if counter.Some? then [] + [Exists(id)] + [Incr(id)]
    else if rpcNonce.None? then [] + [Exists(id)] + [PendingNonce(id, None)]
    else [] + [Exists(id)] + [PendingNonce(id, rpcNonce)] + [SetNX(id)] + [Incr(id)]
  }

  /** An undisturbed call changes the counter as `Builder.NextNonce` does, and leaves its request
      holding the nonce that method returns. */
  lemma UndisturbedCall(s: State, id: nat, rpcNonce: Option<nat>)
    requires id !in s.requests
    ensures var r := RunFrom(s, CallSteps(s.counter, id, rpcNonce));
            && r.Some?
            && (s.counter.None? && rpcNonce.None? ==> r.value == s)
            && (s.counter.Some? || rpcNonce.Some? ==>
                  var n := if s.counter.Some? then s.counter.value else rpcNonce.value;
                  && r.value.counter == Some(n + 1)
                  && (n >= 0 ==> r.value.requests == s.requests[id := Holding(n)])
                  && (n < 0 ==> r.value.requests == s.requests))
  {
    if s.counter.Some? {
      CountedCall(s, id);
      IssueOverwrites(s.requests, id, s.counter.value);
    } else if rpcNonce.None? {
      RefusedCall(s, id);
    } else {
      SeedingCall(s, id, rpcNonce.value);
    }
  }

  lemma TwoSteps(s: State, a: Step, b: Step)
    requires Possible(s, a) && Possible(Next(s, a), b)
    ensures RunFrom(s, [] + [a] + [b]) == Some(Next(Next(s, a), b))
  {
    RunFromSnoc(s, [], a);
    RunFromSnoc(s, [] + [a], b);
  }

  lemma FourSteps(s: State, a: Step, b: Step, c: Step, d: Step)
    requires Possible(s, a) && Possible(Next(s, a), b)
    requires var s2 := Next(Next(s, a), b); Possible(s2, c) && Possible(Next(s2, c), d)
    ensures RunFrom(s, [] + [a] + [b] + [c] + [d]) == Some(Next(Next(Next(Next(s, a), b), c), d))
  {
    TwoSteps(s, a, b);
    RunFromSnoc(s, [] + [a] + [b], c);
    RunFromSnoc(s, [] + [a] + [b] + [c], d);
  }

  lemma CountedCall(s: State, id: nat)
    requires id !in s.requests && s.counter.Some?
    ensures RunFrom(s, [] + [Exists(id)] + [Incr(id)])
         == Some(State(Some(s.counter.value + 1), s.seed, AfterIssue(s.requests, id, s.counter.value)))
  {
    TwoSteps(s, Exists(id), Incr(id));
    IssueOverwrites(s.requests, id, s.counter.value);
  }

  /** The requests after one of them was issued `n`, or was refused it for being negative. */
  function AfterIssue(requests: map<nat, Phase>, id: nat, n: int): map<nat, Phase> {
    if n >= 0 then requests[id := Holding(n)] else requests - {id}
  }

  lemma IssueOverwrites(requests: map<nat, Phase>, id: nat, n: int)
    requires id !in requests
    ensures AfterIssue(requests[id := Checked(true)], id, n) == AfterIssue(requests, id, n)
    ensures requests - {id} == requests
  {}

  lemma RefusedCall(s: State, id: nat)
    requires id !in s.requests && s.counter.None?
    ensures RunFrom(s, [] + [Exists(id)] + [PendingNonce(id, None)]) == Some(s)
  {
    TwoSteps(s, Exists(id), PendingNonce(id, None));
    assert Next(s, Exists(id)).requests - {id} == s.requests;
  }

  lemma SeedingCall(s: State, id: nat, n: nat)
    requires id !in s.requests && s.counter.None?
    ensures RunFrom(s, [] + [Exists(id)] + [PendingNonce(id, Some(n))] + [SetNX(id)] + [Incr(id)])
         == Some(State(Some(n + 1), n, s.requests[id := Holding(n)]))
  {
    var s3 := Next(Next(Next(s, Exists(id)), PendingNonce(id, Some(n))), SetNX(id));
    FourSteps(s, Exists(id), PendingNonce(id, Some(n)), SetNX(id), Incr(id));
    assert s3.counter == Some(n) && s3.seed == n;
    assert s3.requests[id := Holding(n)] == s.requests[id := Holding(n)];
  }

  /** Conservation: whatever is released, the counter stays the seed plus the nonces held, so
      no request is ever refused for a negative nonce. */
  lemma {:induction false} RunKeepsBalance(steps: seq<Step>)
    requires Run(steps).Some?
    ensures Balanced(Run(steps).value)
  {
    if |steps| > 0 {
      RunKeepsBalance(steps[..|steps| - 1]);
      StepKeepsBalance(Run(steps[..|steps| - 1]).value, steps[|steps| - 1]);
    }
  }

  // ---- with disciplined releases: distinct, and exactly the range from seed to counter ----

  ghost predicate Holds(s: State, id: nat, n: nat) {
    id in s.requests && s.requests[id] == Holding(n)
  }

  ghost predicate Held(s: State, n: nat) {
    exists id :: Holds(s, id, n)
  }

  ghost predicate HoldersDistinct(s: State) {
    forall id, id', n :: Holds(s, id, n) && Holds(s, id', n) ==> id == id'
  }

  /** Exactly the nonces from the seed up to, but not including, `end` are held. */
  ghost predicate HeldRange(s: State, end: int) {
    forall n: nat :: Held(s, n) <==> s.seed <= n < end
  }

  /** The nonces issued and not released are pairwise distinct and are [seed, counter). */
  ghost predicate Exact(s: State) {
    Balanced(s) && HoldersDistinct(s) && (s.counter.Some? ==> HeldRange(s, s.counter.value))
  }

  /** The nonce being given back is the highest one issued. */
  predicate ReleasesHighest(s: State, step: Step)
    requires Possible(s, step)
  {
    step.Release? ==> s.requests[step.id].nonce == Plus(s.counter, -1)
  }

  lemma SameHolders(s: State, s': State, end: int)
    requires HeldRange(s, end) && s'.seed == s.seed
    requires forall id, n :: Holds(s', id, n) <==> Holds(s, id, n)
    ensures HeldRange(s', end)
  {
    forall n: nat ensures Held(s', n) <==> s'.seed <= n < end {
      assert Held(s', n) <==> Held(s, n);
    }
  }

  lemma IncrExtends(s: State, id: nat, end: nat)
    requires HoldersDistinct(s) && HeldRange(s, end) && s.counter == Some(end) && s.seed <= end
    requires Possible(s, Incr(id))
    ensures var s' := Next(s, Incr(id)); HoldersDistinct(s') && HeldRange(s', end + 1)
  {
    var s' := Next(s, Incr(id));
    assert forall i, n :: Holds(s', i, n) <==> Holds(s, i, n) || (i == id && n == end);
    forall i: nat, n: nat | Holds(s, i, n) ensures n < end {
      assert Held(s, n);
    }
    forall n: nat ensures Held(s', n) <==> s'.seed <= n < end + 1 {
      assert Held(s', n) <==> Held(s, n) || n == end by {
        assert n == end ==> Holds(s', id, n);
      }
    }
  }

  lemma ReleaseShrinks(s: State, id: nat, end: int)
    requires HoldersDistinct(s) && HeldRange(s, end)
    requires Possible(s, Release(id)) && s.requests[id].nonce == end - 1
    ensures var s' := Next(s, Release(id)); HoldersDistinct(s') && HeldRange(s', end - 1)
  {
    var s' := Next(s, Release(id));
    assert Holds(s, id, end - 1);
    assert forall i, n :: Holds(s', i, n) <==> Holds(s, i, n) && i != id;
    forall n: nat ensures Held(s', n) <==> s'.seed <= n < end - 1 {
      assert Held(s', n) <==> Held(s, n) && n != end - 1;
    }
  }

  lemma OtherStepsKeepHolders(s: State, step: Step)
    requires Possible(s, step) && !step.Incr? && !step.Release?
    ensures forall id, n :: Holds(Next(s, step), id, n) <==> Holds(s, id, n)
  {}

  lemma SeedingStartsEmpty(s: State, step: Step)
    requires Exact(s) && Possible(s, step) && step.SetNX? && s.counter.None?
    ensures var s' := Next(s, step); HeldRange(s', s'.seed)
  {
    OtherStepsKeepHolders(s, step);
    forall id, n ensures !Holds(s, id, n) {
      assert id !in Holders(s);
    }
  }

  lemma StepKeepsExact(s: State, step: Step)
    requires Exact(s) && Possible(s, step) && ReleasesHighest(s, step)
    ensures Exact(Next(s, step))
  {
    StepKeepsBalance(s, step);
    if step.Incr? {
      IncrExtends(s, step.id, s.counter.value);
    } else if step.Release? {
      assert step.id in Holders(s);
      ReleaseShrinks(s, step.id, s.counter.value);
    } else {
      OtherStepsKeepHolders(s, step);
      if s.counter.Some? {
        SameHolders(s, Next(s, step), s.counter.value);
      } else if step.SetNX? {
        SeedingStartsEmpty(s, step);
      }
    }
  }

  ghost predicate Disciplined(steps: seq<Step>)
    requires Run(steps).Some?
  {
    |steps| > 0 ==>
      var init := steps[..|steps| - 1];
      Disciplined(init) && ReleasesHighest(Run(init).value, steps[|steps| - 1])
  }

  lemma {:induction false} RunKeepsExact(steps: seq<Step>)
    requires Run(steps).Some? && Disciplined(steps)
    ensures Exact(Run(steps).value)
  {
    if |steps| > 0 {
      RunKeepsExact(steps[..|steps| - 1]);
      StepKeepsExact(Run(steps[..|steps| - 1]).value, steps[|steps| - 1]);
    }
  }

  /** Exactly when a release is safe: the nonce issued next after it is already held by another
      request if and only if the released nonce was not the highest. */
  lemma ReleaseSafety(s: State, id: nat, next: nat)
    requires Exact(s) && Possible(s, Release(id)) && next != id
    requires Possible(s, Incr(next))
    ensures var s' := Next(s, Release(id));
            var issued := Plus(s'.counter, 0);
            && issued >= 0 && Possible(s', Incr(next))
            && next in Next(s', Incr(next)).requests && Next(s', Incr(next)).requests[next] == Holding(issued)
            && ((exists other :: Holds(s', other, issued)) <==> s.requests[id].nonce != Plus(s.counter, -1))
  {
    var n := s.requests[id].nonce;
    assert id in Holders(s) && Holds(s, id, n) && Held(s, n);
    var k := s.counter.value;
    assert Held(s, k - 1);
    var holder :| Holds(s, holder, k - 1);
    var s' := Next(s, Release(id));
    assert n != k - 1 ==> Holds(s', holder, k - 1);
    assert forall other, m :: Holds(s', other, m) ==> Holds(s, other, m) && other != id;
  }

  lemma RunSnoc(steps: seq<Step>, step: Step)
    requires Run(steps).Some? && Possible(Run(steps).value, step)
    ensures Run(steps + [step]) == Some(Next(Run(steps).value, step))
  {
    RunFromSnoc(Initial(), steps, step);
  }

  /** Two requests hold 5 and 6. */
  lemma TwoHolders(steps: seq<Step>)
    requires steps == [Exists(0), PendingNonce(0, Some(5)), SetNX(0), Incr(0), Exists(1), Incr(1)]
    ensures var s := Run(steps);
            && s.Some? && s.value.counter == Some(7) && 2 !in s.value.requests
            && Holds(s.value, 0, 5) && Holds(s.value, 1, 6)
  {
    var t := [];
    RunSnoc(t, Exists(0));
    t := t + [Exists(0)];
    RunSnoc(t, PendingNonce(0, Some(5)));
    t := t + [PendingNonce(0, Some(5))];
    RunSnoc(t, SetNX(0));
    t := t + [SetNX(0)];
    RunSnoc(t, Incr(0));
    t := t + [Incr(0)];
    RunSnoc(t, Exists(1));
    t := t + [Exists(1)];
    RunSnoc(t, Incr(1));
    assert steps == t + [Incr(1)];
  }

  lemma IssuedTwice(steps: seq<Step>)
    requires steps == [Exists(0), PendingNonce(0, Some(5)), SetNX(0), Incr(0), Exists(1), Incr(1)]
    ensures var s := Run(steps + [Release(0)] + [Exists(2)] + [Incr(2)]);
            s.Some? && Holds(s.value, 1, 6) && Holds(s.value, 2, 6)
  {
    TwoHolders(steps);
    RunSnoc(steps, Release(0));
    RunSnoc(steps + [Release(0)], Exists(2));
    RunSnoc(steps + [Release(0)] + [Exists(2)], Incr(2));
  }

  /** The first gives 5 back; the next request is given 6 again. */
  lemma ReleasedTooEarlyExample()
    ensures var s := Run([Exists(0), PendingNonce(0, Some(5)), SetNX(0), Incr(0), Exists(1), Incr(1),
                          Release(0), Exists(2), Incr(2)]);
            s.Some? && Holds(s.value, 1, 6) && Holds(s.value, 2, 6)
  {
    var steps := [Exists(0), PendingNonce(0, Some(5)), SetNX(0), Incr(0), Exists(1), Incr(1)];
    IssuedTwice(steps);
    assert steps + [Release(0)] + [Exists(2)] + [Incr(2)]
        == [Exists(0), PendingNonce(0, Some(5)), SetNX(0), Incr(0), Exists(1), Incr(1),
            Release(0), Exists(2), Incr(2)];
  }
}
