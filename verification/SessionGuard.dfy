/** The guard against duplicate sessions (pkg/eventconsumer/event_consumer.go). Times are nanoseconds. */
module SessionGuard {

  /** Thirty minutes. */
  const SESSION_TIMEOUT: int := 30 * 60 * 1_000_000_000

  function SessionKey(walletID: string, txID: string): string {
    walletID + "-" + txID
  }

  function KeygenKey(walletID: string): string {
    SessionKey(walletID, "keygen")
  }

  /** Keygen requests of different wallets never share a key. */
  lemma KeygenKeysDiffer(w: string, w': string)
    ensures KeygenKey(w) == KeygenKey(w') <==> w == w'
  {
    assert KeygenKey(w)[..|KeygenKey(w)| - 7] == w;
    assert KeygenKey(w')[..|KeygenKey(w')| - 7] == w';
  }

  predicate Stale(created: int, now: int) {
    now - created > SESSION_TIMEOUT
  }

  function WithoutStale(active: map<string, int>, now: int): map<string, int> {
    map k | k in active && !Stale(active[k], now) :: active[k]
  }

  class EventConsumer {
    var activeSessions: map<string, int>

    constructor ()
      ensures activeSessions == map[]
    {
      activeSessions := map[];
    }

    method TryAddSession(walletID: string, txID: string, now: int) returns (added: bool)
      modifies this
      ensures added <==> SessionKey(walletID, txID) !in old(activeSessions)
      ensures activeSessions == TryAdd(old(activeSessions), SessionKey(walletID, txID), now)
      ensures activeSessions
           == if added then old(activeSessions)[SessionKey(walletID, txID) := now] else old(activeSessions)
    {
      var id := SessionKey(walletID, txID);
      if id in activeSessions {
        return false;
      }
      activeSessions := activeSessions[id := now];
      return true;
    }

    method RemoveSession(walletID: string, txID: string)
      modifies this
      ensures activeSessions == old(activeSessions) - {SessionKey(walletID, txID)}
    {
      activeSessions := activeSessions - {SessionKey(walletID, txID)};
    }

    method CleanupStaleSessions(now: int)
      modifies this
      ensures activeSessions == WithoutStale(old(activeSessions), now)
    {
      var todo := activeSessions.Keys;
      while todo != {}
        invariant todo <= activeSessions.Keys <= old(activeSessions).Keys
        invariant forall k | k in activeSessions :: activeSessions[k] == old(activeSessions)[k]
        invariant forall k | k in old(activeSessions) && k !in todo ::
                    k in activeSessions <==> !Stale(old(activeSessions)[k], now)
        decreases |todo|
      {
        var k :| k in todo;
        todo := todo - {k};
        if Stale(activeSessions[k], now) {
          activeSessions := activeSessions - {k};
        }
      }
    }
  }

  // ---- runs ----

  datatype Handler = Handler(walletID: string, entered: int)

  /** The clock, the guard's map, and the keygen handlers inside the guarded region. */
  datatype State = State(now: int, active: map<string, int>, live: map<nat, Handler>)

  datatype Step =
    | Tick(now: int)
    | Enter(handler: nat, walletID: string)
    | Leave(handler: nat)
    | Sign(walletID: string, txID: string)
    | Cleanup

  /** Time does not run backwards, and a handler enters at most once at a time. */
  predicate Possible(s: State, step: Step) {
    match step
    case Tick(now) => s.now <= now
    case Enter(h, _) => h !in s.live
    case Leave(h) => h in s.live
    case Sign(_, _) => true
    case Cleanup => true
  }

  /** No handler is still inside when the session timeout has passed since it entered. */
  predicate Timely(s: State, step: Step) {
    step.Tick? ==> forall h | h in s.live :: step.now <= s.live[h].entered + 1_800_000_000_000
  }

  function TryAdd(active: map<string, int>, key: string, now: int): map<string, int> {
    if key in active then active else active[key := now]
  }

  function Next(s: State, step: Step): State
    requires Possible(s, step)
  {
    match step
    case Tick(now) => s.(now := now)
    case Enter(h, w) =>
      s.(active := TryAdd(s.active, KeygenKey(w), s.now),
         live := if KeygenKey(w) in s.active then s.live else s.live[h := Handler(w, s.now)])
    case Leave(h) => s.(active := s.active - {KeygenKey(s.live[h].walletID)}, live := s.live - {h})
    case Sign(w, tx) => s.(active := TryAdd(s.active, SessionKey(w, tx), s.now))
    case Cleanup => s.(active := WithoutStale(s.active, s.now))
  }

  predicate Owns(s: State, h: nat)
    requires h in s.live
  {
    var key := KeygenKey(s.live[h].walletID);
    key in s.active && s.active[key] == s.live[h].entered && !Stale(s.live[h].entered, s.now)
  }

  ghost predicate AtMostOne(s: State) {
    forall h, h' | h in s.live && h' in s.live && s.live[h].walletID == s.live[h'].walletID :: h == h'
  }

  /** Every live handler's own entry is in the map, and no wallet has two live handlers. */
  ghost predicate Inv(s: State) {
    (forall h | h in s.live :: Owns(s, h)) && AtMostOne(s)
  }

  lemma LeaveKeepsOwners(s: State, h: nat, other: nat)
    requires Inv(s) && h in s.live && other in s.live && other != h
    ensures KeygenKey(s.live[other].walletID) != KeygenKey(s.live[h].walletID)
  {
    KeygenKeysDiffer(s.live[other].walletID, s.live[h].walletID);
  }

  lemma EntererIsAlone(s: State, w: string, h: nat)
    requires Inv(s) && KeygenKey(w) !in s.active && h in s.live
    ensures s.live[h].walletID != w
  {
    assert Owns(s, h);
  }

  lemma StepKeepsInv(s: State, step: Step)
    requires Inv(s) && Possible(s, step) && Timely(s, step)
    ensures Inv(Next(s, step))
  {
    var s' := Next(s, step);
    forall h | h in s'.live ensures Owns(s', h) {
      if h in s.live {
        assert Owns(s, h);
        if step.Leave? {
          LeaveKeepsOwners(s, step.handler, h);
        }
      }
    }
    if step.Enter? && KeygenKey(step.walletID) !in s.active {
      forall h | h in s.live ensures s.live[h].walletID != step.walletID {
        EntererIsAlone(s, step.walletID, h);
      }
    }
  }

  /** What a run passes through. */
  ghost predicate IsRun(states: seq<State>, steps: seq<Step>) {
    && |states| == |steps| + 1
    && states[0].active == map[] && states[0].live == map[]
    && forall i | 0 <= i < |steps| ::
         Possible(states[i], steps[i]) && Timely(states[i], steps[i]) && states[i + 1] == Next(states[i], steps[i])
  }

  /** In every run whose handlers finish within the timeout, at every moment: at most one live
      keygen handler per wallet, and every live handler's entry is the one it made. */
  lemma {:induction false} RunKeepsInv(states: seq<State>, steps: seq<Step>, i: nat)
    requires IsRun(states, steps) && i < |states|
    ensures Inv(states[i])
  {
    if i > 0 {
      RunKeepsInv(states, steps, i - 1);
      StepKeepsInv(states[i - 1], steps[i - 1]);
    }
  }

  /** No step of another handler, of a signing request or of the cleanup touches a live
      handler's entry. */
  lemma LiveEntryUntouched(s: State, step: Step, h: nat)
    requires Inv(s) && Possible(s, step) && Timely(s, step)
    requires h in s.live && step != Leave(h)
    ensures var key := KeygenKey(s.live[h].walletID);
            key in Next(s, step).active && Next(s, step).active[key] == s.active[key] == s.live[h].entered
  {
    StepKeepsInv(s, step);
    assert Owns(s, h) && Owns(Next(s, step), h);
  }

  /** A handler that leaves makes room for exactly its own wallet: a later request for it is
      admitted, and every other entry stays. */
  lemma LeaveAdmitsNext(s: State, h: nat, h': nat)
    requires Inv(s) && h in s.live && h' !in s.live - {h}
    ensures var w := s.live[h].walletID;
            var s1 := Next(s, Leave(h));
            && h !in s1.live && s1.live == s.live - {h}
            && (forall k | k != KeygenKey(w) :: k in s1.active <==> k in s.active)
            && h' in Next(s1, Enter(h', w)).live && Next(s1, Enter(h', w)).live[h'] == Handler(w, s.now)
  {}

  /** A request for a wallet is admitted exactly when its key is not in the map, and then becomes
      the wallet's only handler. */
  lemma AdmittedIff(s: State, h: nat, w: string)
    requires Inv(s) && h !in s.live
    ensures var s' := Next(s, Enter(h, w));
            && (h in s'.live <==> KeygenKey(w) !in s.active)
            && (h in s'.live ==> forall g | g in s'.live && s'.live[g].walletID == w :: g == h)
            && (h !in s'.live ==> s' == s)
  {
    StepKeepsInv(s, Enter(h, w));
  }

  /** The timeout is exactly the limit: whenever a handler overstays it, a cleanup lets a second
      handler of its wallet in, and the first one's exit then removes the second one's entry. */
  lemma OverstayingAdmitsSecond(s: State, h: nat, h': nat, now: int)
    requires Inv(s) && h in s.live && h' !in s.live && s.now <= now
    requires now > s.live[h].entered + 1_800_000_000_000
    ensures var w := s.live[h].walletID;
            var s1 := Next(s, Tick(now));
            var s2 := Next(s1, Cleanup);
            var s3 := Next(s2, Enter(h', w));
            && h in s3.live && h' in s3.live && s3.live[h].walletID == s3.live[h'].walletID
            && KeygenKey(w) !in Next(s3, Leave(h)).active
  {
    assert Owns(s, h);
  }

  /** A signing request can only make the guard refuse: it never removes an entry, and the keygen
      it blocks is one whose composed key is the same text. */
  lemma SigningOnlyDenies(s: State, w: string, tx: string, wallet: string)
    ensures forall k | k in s.active :: k in Next(s, Sign(w, tx)).active && Next(s, Sign(w, tx)).active[k] == s.active[k]
    ensures KeygenKey(wallet) !in s.active ==>
              (KeygenKey(wallet) in Next(s, Sign(w, tx)).active <==> SessionKey(w, tx) == KeygenKey(wallet))
  {}

  /** Two requests with different wallets whose composed keys collide. */
  lemma CollidingKeysExample()
    ensures SessionKey("a", "b-keygen") == KeygenKey("a-b")
  {
    assert "a" + "-" + "b-keygen" == "a-b" + "-" + "keygen";
  }
}
