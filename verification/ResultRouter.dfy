/**
 Routing of results to waiting callers (wallet-api/pkg/mpc/client.go). Key generation and signing
 use the same scheme, keyed by wallet ID and by transaction ID; one map stands for either.
 */
module ResultRouter {
  import opened Results

  const CAPACITY: nat := 1

  datatype Event = Event(id: string, payload: string)

  /** A buffered channel: the ID it was made for, what lies in it, all that was ever sent to it,
      and what its caller has taken from it. */
  datatype Channel = Channel(id: string, buffer: seq<Event>, sent: seq<Event>, received: seq<Event>)

  function NewChannel(id: string): Channel {
    Channel(id, [], [], [])
  }

  /** Channels are numbered in order of creation; `sending` holds the handlers that have taken a
      channel out of the map and not yet completed their send. */
  datatype State = State(
    channels: seq<Channel>,
    waiters: map<string, nat>,
    publishing: map<nat, string>,
    sending: map<nat, Delivery>)

  datatype Delivery = Delivery(channel: nat, event: Event)

  datatype Step =
    | Register(request: nat, id: string)
    | Publish(request: nat, ok: bool)
    | Take(handler: nat, event: Event)
    | Send(handler: nat)
    | Receive(channel: nat)

  predicate Possible(s: State, step: Step) {
    match step
    case Register(r, _) => r !in s.publishing
    case Publish(r, _) => r in s.publishing
    case Take(h, _) => h !in s.sending
    case Send(h) => h in s.sending && s.sending[h].channel < |s.channels| && !Blocked(s, h)
    case Receive(c) => c < |s.channels| && |s.channels[c].buffer| > 0
  }

  /** A send waits while the channel's buffer is full. */
  predicate Blocked(s: State, h: nat)
    requires h in s.sending && s.sending[h].channel < |s.channels|
  {
    |s.channels[s.sending[h].channel].buffer| >= CAPACITY
  }

  function Put(c: Channel, e: Event): Channel {
    c.(buffer := c.buffer + [e], sent := c.sent + [e])
  }

  /** The caller's receive: the oldest event of the buffer is handed over. */
  function Pull(c: Channel): Channel
    requires |c.buffer| > 0
  {
    c.(buffer := c.buffer[1..], received := c.received + [c.buffer[0]])
  }

  function Next(s: State, step: Step): State
    requires Possible(s, step)
  {
    match step
    case Register(r, id) =>
      State(s.channels + [NewChannel(id)], s.waiters[id := |s.channels|], s.publishing[r := id], s.sending)
    case Publish(r, ok) =>
      s.(waiters := if ok then s.waiters else s.waiters - {s.publishing[r]}, publishing := s.publishing - {r})
    case Take(h, e) =>
      if e.id in s.waiters
      then s.(waiters := s.waiters - {e.id}, sending := s.sending[h := Delivery(s.waiters[e.id], e)])
      else s
    case Send(h) =>
      var d := s.sending[h];
      s.(channels := s.channels[d.channel := Put(s.channels[d.channel], d.event)], sending := s.sending - {h})
    case Receive(c) => s.(channels := s.channels[c := Pull(s.channels[c])])
  }

  function Initial(): State {
    State([], map[], map[], map[])
  }

  /** The client with its lock-protected map; `CreateWallet` and a result handler without
      interference are these sequences of steps. */
  class Client {
    var channels: seq<Channel>
    var waiters: map<string, nat>

    constructor ()
      ensures View() == Initial()
    {
      channels, waiters := [], map[];
    }

    ghost function View(): State
      reads this
    {
      State(channels, waiters, map[], map[])
    }

    /** `CreateWallet` and `SignTransaction`: the channel handed to the caller. */
    method Request(id: string, published: bool) returns (r: Result<nat>)
      modifies this
      ensures View() == Next(Next(old(View()), Register(0, id)), Publish(0, published))
      ensures r.Ok? <==> published
      ensures r.Ok? ==> r.value == |old(channels)| && id in waiters && waiters[id] == r.value
      ensures r.Err? ==> id !in waiters
    {
      var c := |channels|;
      channels := channels + [NewChannel(id)];
      waiters := waiters[id := c];
      if !published {
        waiters := waiters - {id};
        return Err("publish");
      }
      return Ok(c);
    }

    /** `handleKeygenResult` and `handleSignResult`. */
    method HandleResult(e: Event)
      requires Inv(View())
      modifies this
      ensures e.id !in old(waiters) ==> View() == old(View())
      ensures e.id in old(waiters) ==>
                var taken := Next(old(View()), Take(0, e));
                Possible(taken, Send(0)) && View() == Next(taken, Send(0))
      ensures e.id in old(waiters) ==>
                && old(waiters)[e.id] < |channels| && channels[old(waiters)[e.id]].buffer == [e]
                && waiters == old(waiters) - {e.id}
    {
      if e.id !in waiters {
        return;
      }
      var c := waiters[e.id];
      WaiterIsFresh(View(), e.id);
      waiters := waiters - {e.id};
      channels := channels[c := Put(channels[c], e)];
    }
  }

  // ---- the invariant ----

  predicate Unused(s: State, c: nat, id: string) {
    c < |s.channels| && s.channels[c] == NewChannel(id)
  }

  /** A channel in the map is empty, was never sent to, and belongs to the ID it is filed under. */
  ghost predicate WaitersInv(s: State) {
    forall id | id in s.waiters :: Unused(s, s.waiters[id], id)
  }

  /** A send in progress has a never-used channel of the event's ID all to itself. */
  ghost predicate SendingInv(s: State) {
    && (forall h | h in s.sending :: Unused(s, s.sending[h].channel, s.sending[h].event.id))
    && (forall h, h' | h in s.sending && h' in s.sending && s.sending[h].channel == s.sending[h'].channel :: h == h')
    && (forall h, id | h in s.sending && id in s.waiters :: s.sending[h].channel != s.waiters[id])
  }

  /** What was sent is what the caller took, followed by what still lies in the buffer. */
  predicate ChannelOk(c: Channel) {
    && c.sent == c.received + c.buffer && |c.sent| <= 1
    && forall i | 0 <= i < |c.sent| :: c.sent[i].id == c.id
  }

  ghost predicate Inv(s: State) {
    WaitersInv(s) && SendingInv(s) && forall c | 0 <= c < |s.channels| :: ChannelOk(s.channels[c])
  }

  lemma WaiterIsFresh(s: State, id: string)
    requires Inv(s) && id in s.waiters
    ensures Unused(s, s.waiters[id], id)
  {}

  lemma SendLeavesOthers(s: State, h: nat, c: nat, id: string)
    requires Possible(s, Send(h)) && Unused(s, c, id) && c != s.sending[h].channel
    ensures Unused(Next(s, Send(h)), c, id)
  {}

  lemma SendKeepsInv(s: State, h: nat)
    requires Inv(s) && Possible(s, Send(h))
    ensures Inv(Next(s, Send(h)))
  {
    var s' := Next(s, Send(h));
    forall id | id in s'.waiters ensures Unused(s', s'.waiters[id], id) {
      SendLeavesOthers(s, h, s.waiters[id], id);
    }
    forall g | g in s'.sending ensures Unused(s', s'.sending[g].channel, s'.sending[g].event.id) {
      SendLeavesOthers(s, h, s.sending[g].channel, s.sending[g].event.id);
    }
  }

  lemma ReceiveKeepsInv(s: State, c: nat)
    requires Inv(s) && Possible(s, Receive(c))
    ensures Inv(Next(s, Receive(c)))
  {
    var s' := Next(s, Receive(c));
    assert ChannelOk(s.channels[c]);
    forall d, id | Unused(s, d, id) ensures Unused(s', d, id) {}
  }

  lemma StepKeepsInv(s: State, step: Step)
    requires Inv(s) && Possible(s, step)
    ensures Inv(Next(s, step))
  {
    match step
    case Send(h) => SendKeepsInv(s, h);
    case Receive(c) => ReceiveKeepsInv(s, c);
    case Register(r, id) => RegisterKeepsInv(s, r, id);
    case Publish(_, _) =>
    case Take(_, _) =>
  }

  lemma RegisterKeepsInv(s: State, r: nat, id: string)
    requires Inv(s) && Possible(s, Register(r, id))
    ensures Inv(Next(s, Register(r, id)))
  {
    var s' := Next(s, Register(r, id));
    forall d, other | Unused(s, d, other) ensures Unused(s', d, other) {}
  }

  /** Where steps lead from a state, if each is possible in its turn. */
  function RunFrom(start: State, steps: seq<Step>): Option<State> {
    if |steps| == 0 then Some(start)
    else
      var s := RunFrom(start, steps[..|steps| - 1]);
      if s.None? || !Possible(s.value, steps[|steps| - 1]) then None
      else Some(Next(s.value, steps[|steps| - 1]))
  }

  function Run(steps: seq<Step>): Option<State> {
    RunFrom(Initial(), steps)
  }

  lemma {:induction false} RunKeepsInv(start: State, steps: seq<Step>)
    requires Inv(start) && RunFrom(start, steps).Some?
    ensures Inv(RunFrom(start, steps).value)
  {
    if |steps| > 0 {
      RunKeepsInv(start, steps[..|steps| - 1]);
      StepKeepsInv(RunFrom(start, steps[..|steps| - 1]).value, steps[|steps| - 1]);
    }
  }

  // ---- the promises ----

  /** In every interleaving: no channel is sent to twice, and only with results for its own ID;
      its caller has received what was sent, except for what lies in the buffer; no handler ever
      blocks; a channel still in the map is empty with no send under way. */
  lemma DeliverySafety(steps: seq<Step>)
    requires Run(steps).Some?
    ensures var s := Run(steps).value;
            && (forall c | 0 <= c < |s.channels| ::
                  && |s.channels[c].sent| <= 1 && (forall e | e in s.channels[c].sent :: e.id == s.channels[c].id)
                  && s.channels[c].sent == s.channels[c].received + s.channels[c].buffer)
            && (forall h | h in s.sending :: s.sending[h].channel < |s.channels| && !Blocked(s, h))
            && (forall id | id in s.waiters ::
                  && s.waiters[id] < |s.channels| && s.channels[s.waiters[id]].buffer == []
                  && forall h | h in s.sending :: s.sending[h].channel != s.waiters[id])
  {
    RunKeepsInv(Initial(), steps);
    var s := Run(steps).value;
    forall c | 0 <= c < |s.channels| ensures ChannelOk(s.channels[c]) {}
    forall id | id in s.waiters ensures Unused(s, s.waiters[id], id) {}
    forall h | h in s.sending ensures Unused(s, s.sending[h].channel, s.sending[h].event.id) {}
  }

  /** Nobody is about to send to this channel or can find it. */
  ghost predicate NoSender(s: State, c: nat) {
    && (forall id | id in s.waiters :: s.waiters[id] != c)
    && (forall h | h in s.sending :: s.sending[h].channel != c)
  }

  lemma NoSenderStep(s: State, step: Step, c: nat)
    requires c < |s.channels| && NoSender(s, c) && Possible(s, step)
    ensures var s' := Next(s, step);
            && c < |s'.channels| && NoSender(s', c)
            && s'.channels[c] == if step == Receive(c) then Pull(s.channels[c]) else s.channels[c]
  {}

  /** Nobody will ever send to this channel. */
  ghost predicate Orphaned(s: State, c: nat) {
    c < |s.channels| && s.channels[c].sent == [] && NoSender(s, c)
  }

  lemma OrphanStaysOrphan(s: State, step: Step, c: nat)
    requires Orphaned(s, c) && Possible(s, step)
    ensures Orphaned(Next(s, step), c)
  {
    NoSenderStep(s, step, c);
  }

  lemma {:induction false} OrphanNeverServed(s: State, more: seq<Step>, c: nat)
    requires Orphaned(s, c) && RunFrom(s, more).Some?
    ensures Orphaned(RunFrom(s, more).value, c)
  {
    if |more| > 0 {
      OrphanNeverServed(s, more[..|more| - 1], c);
      OrphanStaysOrphan(RunFrom(s, more[..|more| - 1]).value, more[|more| - 1], c);
    }
  }

  // ---- the fate of a waiting caller ----

  datatype Fate = Waiting | Served(event: Event) | Dropped

  /** What one step does to the caller waiting for an ID. */
  function Decide(s: State, step: Step, id: string): Fate
    requires Possible(s, step)
  {
    if step.Take? && step.event.id == id then Served(step.event)
    else if step.Register? && step.id == id then Dropped
    else if step.Publish? && !step.ok && s.publishing[step.request] == id then Dropped
    else Waiting
  }

  /** The first step that concerns the ID decides. */
  function FateOf(s: State, more: seq<Step>, id: string): Fate
    requires RunFrom(s, more).Some?
  {
    if |more| == 0 then Waiting
    else
      var init := more[..|more| - 1];
      var before := FateOf(s, init, id);
      if before.Waiting? then Decide(RunFrom(s, init).value, more[|more| - 1], id) else before
  }

  /** A handler holds the channel and is about to send the event to it. */
  ghost predicate Pending(s: State, c: nat, e: Event) {
    exists h :: h in s.sending && s.sending[h] == Delivery(c, e)
  }

  /** The event lies in the buffer, or the caller has taken it; nothing else was ever sent. */
  predicate Reached(ch: Channel, e: Event) {
    && ch.sent == [e]
    && ((ch.buffer == [e] && ch.received == []) || (ch.buffer == [] && ch.received == [e]))
  }

  /** The event reached the channel, and nobody will send to the channel again. */
  ghost predicate Delivered(s: State, c: nat, e: Event) {
    c < |s.channels| && Reached(s.channels[c], e) && NoSender(s, c)
  }

  /** A delivered event is received: unless the caller has it already, it can take it now, and
      is handed exactly this event. */
  lemma DeliveredIsReceived(s: State, c: nat, e: Event)
    requires Delivered(s, c, e) && s.channels[c].received != [e]
    ensures Possible(s, Receive(c)) && Next(s, Receive(c)).channels[c].received == [e]
  {}

  lemma DecideIsRight(s: State, step: Step, id: string)
    requires Inv(s) && Possible(s, step) && id in s.waiters
    ensures var c := s.waiters[id];
            var s' := Next(s, step);
            match Decide(s, step, id)
            case Waiting => id in s'.waiters && s'.waiters[id] == c
            case Served(e) => e.id == id && Pending(s', c, e)
            case Dropped => Orphaned(s', c)
  {
    WaiterIsFresh(s, id);
    forall other | other in s.waiters && other != id ensures s.waiters[other] != s.waiters[id] {
      WaiterIsFresh(s, other);
    }
    if step.Take? && step.event.id == id {
      assert Next(s, step).sending[step.handler] == Delivery(s.waiters[id], step.event);
    }
  }

  /** A pending send is never blocked, and completes the delivery. */
  lemma SendCompletes(s: State, h: nat)
    requires Inv(s) && h in s.sending
    ensures Possible(s, Send(h)) && Delivered(Next(s, Send(h)), s.sending[h].channel, s.sending[h].event)
    ensures Next(s, Send(h)).channels[s.sending[h].channel].buffer == [s.sending[h].event]
  {
    assert Unused(s, s.sending[h].channel, s.sending[h].event.id);
  }

  lemma PendingStep(s: State, step: Step, c: nat, e: Event)
    requires Inv(s) && Pending(s, c, e) && Possible(s, step)
    ensures Pending(Next(s, step), c, e) || Delivered(Next(s, step), c, e)
  {
    var h :| h in s.sending && s.sending[h] == Delivery(c, e);
    if step == Send(h) {
      SendCompletes(s, h);
    } else {
      assert h in Next(s, step).sending && Next(s, step).sending[h] == Delivery(c, e);
    }
  }

  lemma DeliveredStep(s: State, step: Step, c: nat, e: Event)
    requires Delivered(s, c, e) && Possible(s, step)
    ensures Delivered(Next(s, step), c, e)
  {
    NoSenderStep(s, step, c);
  }

  ghost predicate HasFate(s: State, id: string, c: nat, fate: Fate) {
    match fate
    case Waiting => id in s.waiters && s.waiters[id] == c
    case Served(e) => e.id == id && (Pending(s, c, e) || Delivered(s, c, e))
    case Dropped => Orphaned(s, c)
  }

  /** Over every continuation of every reachable state: until the first result, registration or
      failed publish of its ID the channel keeps waiting; if a result comes first it is sent to
      the channel, or a send of it is pending; otherwise nobody will ever send to the channel. */
  lemma {:induction false} WaiterFate(s: State, more: seq<Step>, id: string)
    requires Inv(s) && id in s.waiters && RunFrom(s, more).Some?
    ensures HasFate(RunFrom(s, more).value, id, s.waiters[id], FateOf(s, more, id))
  {
    if |more| > 0 {
      var init, step := more[..|more| - 1], more[|more| - 1];
      var s1 := RunFrom(s, init).value;
      WaiterFate(s, init, id);
      RunKeepsInv(s, init);
      FateStep(s1, step, id, s.waiters[id], FateOf(s, init, id));
    }
  }

  lemma FateStep(s: State, step: Step, id: string, c: nat, fate: Fate)
    requires Inv(s) && Possible(s, step) && HasFate(s, id, c, fate)
    ensures HasFate(Next(s, step), id, c, if fate.Waiting? then Decide(s, step, id) else fate)
  {
    match fate
    case Waiting => DecideIsRight(s, step, id);
    case Served(e) =>
      if Pending(s, c, e) {
        PendingStep(s, step, c, e);
      } else {
        DeliveredStep(s, step, c, e);
      }
    case Dropped => OrphanStaysOrphan(s, step, c);
  }

  /** "Exactly one result", exactly when: the caller's channel has been sent its one result, or
      the send is pending, if and only if a result came before any new registration and any
      failed publish of the same ID. */
  lemma ExactlyOneResultIff(s: State, more: seq<Step>, id: string)
    requires Inv(s) && id in s.waiters && RunFrom(s, more).Some?
    ensures var s', c := RunFrom(s, more).value, s.waiters[id];
            FateOf(s, more, id).Served? <==> exists e: Event :: e.id == id && (Pending(s', c, e) || Delivered(s', c, e))
  {
    WaiterFate(s, more, id);
    RunKeepsInv(s, more);
    var s', c := RunFrom(s, more).value, s.waiters[id];
    if FateOf(s, more, id).Waiting? {
      WaiterIsFresh(s', id);
    }
  }

  /** The steps of one request that is answered. */
  function AnsweredRequest(request: nat, handler: nat, channel: nat, e: Event): seq<Step> {
    [] + [Register(request, e.id)] + [Publish(request, true)] + [Take(handler, e)] + [Send(handler)] + [Receive(channel)]
  }

  /** In every reachable state a request with a fresh number can be made, answered by a free
      handler and received, and its caller then holds exactly that answer. */
  lemma RequestIsServed(s: State, request: nat, handler: nat, e: Event)
    requires Inv(s) && request !in s.publishing && handler !in s.sending
    ensures var c := |s.channels|;
            var r := RunFrom(s, AnsweredRequest(request, handler, c, e));
            r.Some? && c < |r.value.channels| && r.value.channels[c].received == [e]
  {
    var c := |s.channels|;
    var s2 := RequestWaits(s, request, e.id);
    RunFromTwo(s, [], Register(request, e.id), Publish(request, true), s2);
    var s4 := WaiterIsAnswered(s2, handler, c, e);
    var steps := [] + [Register(request, e.id)] + [Publish(request, true)];
    RunFromTwo(s, steps, Take(handler, e), Send(handler), s4);
    DeliveredIsReceived(s4, c, e);
    RunFromSnoc(s, steps + [Take(handler, e)] + [Send(handler)], Receive(c));
  }

  lemma RequestWaits(s: State, request: nat, id: string) returns (s': State)
    requires Inv(s) && request !in s.publishing
    ensures Possible(s, Register(request, id)) && Possible(Next(s, Register(request, id)), Publish(request, true))
    ensures s' == Next(Next(s, Register(request, id)), Publish(request, true))
    ensures Inv(s') && s'.sending == s.sending && id in s'.waiters && s'.waiters[id] == |s.channels|
  {
    StepKeepsInv(s, Register(request, id));
    StepKeepsInv(Next(s, Register(request, id)), Publish(request, true));
    s' := Next(Next(s, Register(request, id)), Publish(request, true));
  }

  lemma WaiterIsAnswered(s: State, handler: nat, c: nat, e: Event) returns (s': State)
    requires Inv(s) && handler !in s.sending && e.id in s.waiters && s.waiters[e.id] == c
    ensures Possible(s, Take(handler, e)) && Possible(Next(s, Take(handler, e)), Send(handler))
    ensures s' == Next(Next(s, Take(handler, e)), Send(handler))
    ensures Delivered(s', c, e) && s'.channels[c].buffer == [e]
  {
    var s1 := Next(s, Take(handler, e));
    StepKeepsInv(s, Take(handler, e));
    SendCompletes(s1, handler);
    s' := Next(s1, Send(handler));
  }

  lemma RunFromTwo(s: State, steps: seq<Step>, a: Step, b: Step, s': State)
    requires RunFrom(s, steps).Some? && Possible(RunFrom(s, steps).value, a)
    requires var s1 := Next(RunFrom(s, steps).value, a); Possible(s1, b) && s' == Next(s1, b)
    ensures RunFrom(s, steps + [a] + [b]) == Some(s')
  {
    RunFromSnoc(s, steps, a);
    RunFromSnoc(s, steps + [a], b);
  }

  lemma RunFromSnoc(s: State, steps: seq<Step>, step: Step)
    requires RunFrom(s, steps).Some? && Possible(RunFrom(s, steps).value, step)
    ensures RunFrom(s, steps + [step]) == Some(Next(RunFrom(s, steps).value, step))
  {
    assert (steps + [step])[..|steps|] == steps;
  }

  /** The promise of exactly one result fails when a wallet is requested twice: the first
      caller's channel is dropped from the map. */
  lemma RequestedTwiceExample()
    ensures var s := Run([Register(0, "w"), Publish(0, true), Register(1, "w")]);
            s.Some? && Orphaned(s.value, 0)
  {
    var t := [];
    RunSnoc(t, Register(0, "w"));
    t := t + [Register(0, "w")];
    RunSnoc(t, Publish(0, true));
    t := t + [Publish(0, true)];
    RunSnoc(t, Register(1, "w"));
    t := t + [Register(1, "w")];
    assert t == [Register(0, "w"), Publish(0, true), Register(1, "w")];
  }

  lemma RunSnoc(steps: seq<Step>, step: Step)
    requires Run(steps).Some? && Possible(Run(steps).value, step)
    ensures Run(steps + [step]) == Some(Next(Run(steps).value, step))
  {
    RunFromSnoc(Initial(), steps, step);
  }
}
