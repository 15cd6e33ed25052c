/** Resolving a recovery request behind a second factor.  The store's lock is
    taken for each access and released in between, so any number of handlers,
    cleanups and flag changes interleave; each step below is one locked section,
    one clock reading or one database statement. */
module RecoveryChallenge {
  import opened GoStrings
  import opened RecoveryStore

  datatype Action = Accept | Reject

  function ActionName(a: Action): string {
    if a.Accept? then "accept" else "reject"
  }

  function StatusFor(a: Action): Status {
    if a.Accept? then Accepted else Rejected
  }

  function ChallengeKey(requestId: string, a: Action): string {
    TrimSpace(ActionName(a)) + ":" + TrimSpace(requestId)
  }

  lemma ActionNamesAreTrimmed(a: Action)
    ensures TrimSpace(ActionName(a)) == ActionName(a) && |ActionName(a)| == 6
  {
    TrimSpaceOfTrimmed(ActionName(a));
  }

  /** A challenge key names one action on one request id, up to the white space
      around the id. */
  lemma KeyNamesTheTriple(id1: string, a1: Action, id2: string, a2: Action)
    ensures ChallengeKey(id1, a1) == ChallengeKey(id2, a2) <==> a1 == a2 && TrimSpace(id1) == TrimSpace(id2)
  {
    hide TrimSpace, ActionName;
    ActionNamesAreTrimmed(a1);
    ActionNamesAreTrimmed(a2);
    var k1, k2 := ChallengeKey(id1, a1), ChallengeKey(id2, a2);
    assert k1[7..] == TrimSpace(id1) && k2[7..] == TrimSpace(id2);
    assert k1[..6] == ActionName(a1) && k2[..6] == ActionName(a2);
    NamesDiffer(a1, a2);
  }

  lemma NamesDiffer(a1: Action, a2: Action)
    ensures ActionName(a1) == ActionName(a2) ==> a1 == a2
  {
    assert ActionName(Accept)[0] != ActionName(Reject)[0];
  }

  datatype Pc =
    | Looking
    | CheckingMethod
    | ReadingClock
    | ReadingChallenge(at: int)
    | ReadingFlag(at: int, found: Option<Challenge>, read: nat)
    | Raising(at: int)
    | Storing(at: int)
    | Resolving
    | Consuming
    | Done

  datatype Handler = Handler(actor: int, requestId: string, action: Action, pc: Pc)

  /** What is remembered of a run, in order. A pass remembers how much had been
      logged when its handler read the challenge. */
  datatype Entry =
    | Raised(actor: int, key: string, who: nat)
    | Stored(actor: int, key: string, who: nat, at: int)
    | Cleared(actor: int)
    | Passed(actor: int, key: string, who: nat, at: int, read: nat)
    | Resolved(actor: int, id: string, action: Action, who: nat, status: Status)
    | Consumed(actor: int, key: string, who: nat)

  /** mfa holds the rows of the flag table: whether a second factor is required
      of the actor; no row means it is. */
  datatype State = State(now: int, store: Store, mfa: map<int, bool>, used: set<string>, handlers: seq<Handler>,
                         log: seq<Entry>)

  function Initial(): State {
    State(0, Empty, map[], {}, [], [])
  }

  datatype Move =
    | Arrive(actor: int, requestId: string, action: Action)
    | Advance(h: nat, fails: bool, reading: int)
    | Tick(d: nat)
    | ClearFlag(actor: int)
    | RaiseFlag(actor: int)
    | CreateRequest(reading: int, email: string, ip: string, guest: string, user: Option<int>, id: string)
    | SweepStore(reading: int)
    | ExpireGuest(session: string)

  function Held(store: Store, actor: int): Option<Challenge> {
    if actor in store.challenges then Some(store.challenges[actor]) else None
  }

  function Logged(s: State, e: Entry): State {
    s.(log := s.log + [e])
  }

  function Goto(s: State, h: nat, pc: Pc): (s': State)
    requires h < |s.handlers|
    ensures |s'.handlers| == |s.handlers|
  {
    s.(handlers := s.handlers[h := s.handlers[h].(pc := pc)])
  }

  /** One step of one handler; fails stands for a database error, a disabled
      second factor or a refused power check, whichever can happen there; reading
      is a clock reading taken at some earlier moment. */
  function StepHandler(s: State, h: nat, fails: bool, reading: int): (s': State)
    requires h < |s.handlers|
    ensures |s'.handlers| == |s.handlers|
  {
    StepWith(s, h, ChallengeKey(s.handlers[h].requestId, s.handlers[h].action), fails, reading)
  }

  function StepWith(s: State, h: nat, key: string, fails: bool, reading: int): (s': State)
    requires h < |s.handlers|
    ensures |s'.handlers| == |s.handlers|
  {
    var r := s.handlers[h];
    match r.pc
    case Looking =>
      var (store, found) := Get(s.store, reading, r.requestId);
      Goto(s.(store := store), h, if found.Got? && !fails then CheckingMethod else Done)
    case CheckingMethod => Goto(s, h, if fails then Done else ReadingClock)
    case ReadingClock => Goto(s, h, ReadingChallenge(s.now))
    case ReadingChallenge(at) =>
      var store := Cleanup(s.store, at);
      Goto(s.(store := store), h, ReadingFlag(at, Held(store, r.actor), |s.log|))
    case ReadingFlag(at, found, read) =>
      if fails then Goto(s, h, Done)
      else if found.Some? && found.value.key == key && at < found.value.expireAt && r.actor in s.mfa && !s.mfa[r.actor]
      then Goto(Logged(s, Passed(r.actor, key, h, at, read)), h, Resolving)
      else Goto(s, h, Raising(at))
    case Raising(at) =>
      if fails then Goto(s, h, Done)
      else Goto(Logged(s.(mfa := s.mfa[r.actor := true]), Raised(r.actor, key, h)), h, Storing(at))
    case Storing(at) =>
      var store := s.store.(challenges := s.store.challenges[r.actor := Challenge(key, at + CHALLENGE_TTL)]);
      Goto(Logged(s.(store := store), Stored(r.actor, key, h, at)), h, Done)
    case Resolving =>
      var (store, found) := Resolve(s.store, reading, r.requestId, StatusFor(r.action));
      if found.Got? then
        Goto(Logged(s.(store := store), Resolved(r.actor, r.requestId, r.action, h, found.request.status)), h,
             Consuming)
      else Goto(s.(store := store), h, Done)
    case Consuming => Goto(Logged(s.(store := Consume(s.store, r.actor, key)), Consumed(r.actor, key, h)), h, Done)
    case Done => s
  }

  function Step(s: State, m: Move): State {
    match m
    case Arrive(actor, id, action) => s.(handlers := s.handlers + [Handler(actor, id, action, Looking)])
    case Advance(h, fails, reading) => if h < |s.handlers| then StepHandler(s, h, fails, reading) else s
    case Tick(d) => s.(now := s.now + d)
    case ClearFlag(actor) => s.(mfa := s.mfa[actor := false], log := s.log + [Cleared(actor)])
    case RaiseFlag(actor) => s.(mfa := s.mfa[actor := true])
    case CreateRequest(reading, email, ip, guest, user, id) =>
      if id in s.used then s
      else s.(store := Create(s.store, reading, email, ip, guest, user, id).0, used := s.used + {id})
    case SweepStore(reading) => s.(store := Cleanup(s.store, reading))
    case ExpireGuest(session) => s.(store := ExpireSession(s.store, session))
  }

  function Run(s: State, moves: seq<Move>): State
    decreases |moves|
  {
    if moves == [] then s else Run(Step(s, moves[0]), moves[1..])
  }

  // ---- Evidence in the log ----

  /** Among the first n entries, some handler raised the flag for this actor and
      key at r and then, at t, stored the challenge with clock reading at. */
  ghost predicate Challenged(log: seq<Entry>, n: int, r: int, t: int, actor: int, key: string, at: int) {
    && n <= |log| && 0 <= r < t < n
    && exists who :: log[r] == Raised(actor, key, who) && log[t] == Stored(actor, key, who, at)
  }

  /** Nobody consumed the challenge between t and n. */
  predicate Unspent(log: seq<Entry>, t: int, n: int, actor: int, key: string) {
    n <= |log| && forall c | 0 <= c < n && t < c :: !(log[c].Consumed? && log[c].actor == actor && log[c].key == key)
  }

  /** A challenge that was stored, and not consumed since, when n entries were
      logged. */
  ghost predicate ChallengeKnown(log: seq<Entry>, n: int, actor: int, c: Challenge) {
    exists r, t, at ::
      Challenged(log, n, r, t, actor, c.key, at) && at == c.expireAt - CHALLENGE_TTL && Unspent(log, t, n, actor, c.key)
  }

  ghost predicate ClearedAfter(log: seq<Entry>, n: int, r: int, actor: int) {
    n <= |log| && exists c :: r < c < n && c >= 0 && log[c] == Cleared(actor)
  }

  /** What stands behind a pass at position p: an earlier call for the same actor
      and key raised the flag and stored the challenge, its clock reading less
      than ten minutes before the passing call's, nobody had consumed that
      challenge when it was read, and the flag was cleared after the raise. */
  ghost predicate Justified(log: seq<Entry>, p: int, e: Entry)
    requires e.Passed?
  {
    && e.read <= p
    && exists r, t, t0 ::
         && Challenged(log, e.read, r, t, e.actor, e.key, t0) && Unspent(log, t, e.read, e.actor, e.key)
         && e.at < t0 + CHALLENGE_TTL && ClearedAfter(log, p, r, e.actor)
  }

  ghost predicate PassedBefore(log: seq<Entry>, n: int, actor: int, key: string, who: nat) {
    n <= |log| && exists p ::
      0 <= p < n && log[p].Passed? && log[p].actor == actor && log[p].key == key && log[p].who == who
  }

  ghost predicate ConsumedAfter(log: seq<Entry>, q: int, actor: int, key: string, who: nat) {
    exists c :: q < c < |log| && c >= 0 && log[c] == Consumed(actor, key, who)
  }

  ghost predicate RaisedBy(log: seq<Entry>, actor: int, key: string, who: nat) {
    exists i :: 0 <= i < |log| && log[i] == Raised(actor, key, who)
  }

  /** A handler's resolutions are its own, and are followed by its consumption
      once it is done. */
  ghost predicate ResolutionsOk(log: seq<Entry>, r: Handler, h: nat) {
    forall q | 0 <= q < |log| && log[q].Resolved? && log[q].who == h ::
      && log[q] == Resolved(r.actor, r.requestId, r.action, h, StatusFor(r.action))
      && (r.pc.Consuming? || (r.pc.Done? && ConsumedAfter(log, q, r.actor, ChallengeKey(r.requestId, r.action), h)))
  }

  ghost predicate StandingOk(log: seq<Entry>, r: Handler, h: nat) {
    var key := ChallengeKey(r.requestId, r.action);
    match r.pc
    case ReadingFlag(_, found, read) =>
      read <= |log| && (found.Some? ==> ChallengeKnown(log, read, r.actor, found.value))
    case Storing(_) => RaisedBy(log, r.actor, key, h)
    case Resolving => PassedBefore(log, |log|, r.actor, key, h)
    case _ => true
  }

  ghost predicate HandlerOk(log: seq<Entry>, r: Handler, h: nat) {
    StandingOk(log, r, h) && ResolutionsOk(log, r, h)
  }

  ghost predicate HandlersOk(s: State) {
    && (forall h: nat | h < |s.handlers| :: HandlerOk(s.log, s.handlers[h], h))
    && (forall q | 0 <= q < |s.log| && s.log[q].Resolved? :: s.log[q].who < |s.handlers|)
  }

  ghost predicate LogOk(log: seq<Entry>) {
    && (forall p | 0 <= p < |log| && log[p].Passed? :: Justified(log, p, log[p]))
    && (forall q | 0 <= q < |log| && log[q].Resolved? ::
          PassedBefore(log, q, log[q].actor, ChallengeKey(log[q].id, log[q].action), log[q].who))
  }

  ghost predicate StoreOk(s: State) {
    && (forall a | a in s.store.challenges :: ChallengeKnown(s.log, |s.log|, a, s.store.challenges[a]))
    && (forall a, r | a in s.mfa && !s.mfa[a] && 0 <= r < |s.log| && s.log[r].Raised? && s.log[r].actor == a ::
          ClearedAfter(s.log, |s.log|, r, a))
    && (forall id | id in s.store.requests :: id in s.used)
    && (forall q | 0 <= q < |s.log| && s.log[q].Resolved? :: s.log[q].id in s.used && s.log[q].id !in s.store.requests)
  }

  predicate ResolvedOnce(log: seq<Entry>) {
    forall p, q | 0 <= p < q < |log| && log[p].Resolved? && log[q].Resolved? :: log[p].id != log[q].id
  }

  ghost predicate Inv(s: State) {
    LogOk(s.log) && StoreOk(s) && ResolvedOnce(s.log) && HandlersOk(s)
  }

  // ---- Evidence stays evidence in a longer log ----

  lemma ChallengedGrows(log: seq<Entry>, log': seq<Entry>, n: int, n': int, r: int, t: int, actor: int, key: string,
                        at: int)
    requires log <= log' && n <= n' <= |log'| && Challenged(log, n, r, t, actor, key, at)
    ensures Challenged(log', n', r, t, actor, key, at)
  {
    var who :| log[r] == Raised(actor, key, who) && log[t] == Stored(actor, key, who, at);
    assert log'[r] == Raised(actor, key, who) && log'[t] == Stored(actor, key, who, at);
  }

  lemma KnownGrows(log: seq<Entry>, log': seq<Entry>, n: int, actor: int, c: Challenge)
    requires log <= log' && ChallengeKnown(log, n, actor, c)
    ensures ChallengeKnown(log', n, actor, c)
  {
    hide Challenged;
    var r, t, at :| Challenged(log, n, r, t, actor, c.key, at) && at == c.expireAt - CHALLENGE_TTL
      && Unspent(log, t, n, actor, c.key);
    ChallengedGrows(log, log', n, n, r, t, actor, c.key, at);
    assert Unspent(log', t, n, actor, c.key);
  }

  /** A challenge stays known as long as the new entry does not consume it. */
  lemma KnownNow(log: seq<Entry>, e: Entry, actor: int, c: Challenge)
    requires ChallengeKnown(log, |log|, actor, c)
    requires !(e.Consumed? && e.actor == actor && e.key == c.key)
    ensures ChallengeKnown(log + [e], |log| + 1, actor, c)
  {
    hide Challenged;
    var log' := log + [e];
    var r, t, at :| Challenged(log, |log|, r, t, actor, c.key, at) && at == c.expireAt - CHALLENGE_TTL
      && Unspent(log, t, |log|, actor, c.key);
    ChallengedGrows(log, log', |log|, |log'|, r, t, actor, c.key, at);
    assert Unspent(log', t, |log'|, actor, c.key);
  }

  lemma ClearedGrows(log: seq<Entry>, log': seq<Entry>, n: int, n': int, r: int, actor: int)
    requires log <= log' && n <= n' <= |log'| && ClearedAfter(log, n, r, actor)
    ensures ClearedAfter(log', n', r, actor)
  {
    var c :| r < c < n && c >= 0 && log[c] == Cleared(actor);
    assert log'[c] == Cleared(actor);
  }

  lemma JustifiedGrows(log: seq<Entry>, log': seq<Entry>, p: int, e: Entry)
    requires log <= log' && e.Passed? && Justified(log, p, e)
    ensures Justified(log', p, e)
  {
    hide Challenged, ClearedAfter;
    var r, t, t0 :| && Challenged(log, e.read, r, t, e.actor, e.key, t0) && Unspent(log, t, e.read, e.actor, e.key)
                    && e.at < t0 + CHALLENGE_TTL && ClearedAfter(log, p, r, e.actor);
    ChallengedGrows(log, log', e.read, e.read, r, t, e.actor, e.key, t0);
    assert p <= |log| by { ClearedInside(log, p, r, e.actor); }
    ClearedGrows(log, log', p, p, r, e.actor);
    assert Unspent(log', t, e.read, e.actor, e.key);
  }

  lemma ClearedInside(log: seq<Entry>, n: int, r: int, actor: int)
    requires ClearedAfter(log, n, r, actor)
    ensures n <= |log|
  {
  }

  lemma PassedGrows(log: seq<Entry>, log': seq<Entry>, n: int, n': int, actor: int, key: string, who: nat)
    requires log <= log' && n <= n' <= |log'| && PassedBefore(log, n, actor, key, who)
    ensures PassedBefore(log', n', actor, key, who)
  {
    var p :| 0 <= p < n && log[p].Passed? && log[p].actor == actor && log[p].key == key && log[p].who == who;
    assert log'[p] == log[p];
  }

  lemma ConsumedGrows(log: seq<Entry>, log': seq<Entry>, q: int, actor: int, key: string, who: nat)
    requires log <= log' && ConsumedAfter(log, q, actor, key, who)
    ensures ConsumedAfter(log', q, actor, key, who)
  {
    var c :| q < c < |log| && c >= 0 && log[c] == Consumed(actor, key, who);
    assert log'[c] == log[c];
  }

  lemma RaisedGrows(log: seq<Entry>, log': seq<Entry>, actor: int, key: string, who: nat)
    requires log <= log' && RaisedBy(log, actor, key, who)
    ensures RaisedBy(log', actor, key, who)
  {
    var i :| 0 <= i < |log| && log[i] == Raised(actor, key, who);
    assert log'[i] == log[i];
  }

  /** A handler that stands still keeps its standing. */
  lemma HandlerStands(log: seq<Entry>, log': seq<Entry>, r: Handler, h: nat)
    requires log <= log' && HandlerOk(log, r, h)
    requires forall q | |log| <= q < |log'| && log'[q].Resolved? :: log'[q].who != h
    ensures HandlerOk(log', r, h)
  {
    hide ChallengeKnown, PassedBefore, ConsumedAfter, RaisedBy, ChallengeKey;
    var key := ChallengeKey(r.requestId, r.action);
    if r.pc.ReadingFlag? && r.pc.found.Some? {
      KnownGrows(log, log', r.pc.read, r.actor, r.pc.found.value);
    } else if r.pc.Storing? {
      RaisedGrows(log, log', r.actor, key, h);
    } else if r.pc.Resolving? {
      PassedGrows(log, log', |log|, |log'|, r.actor, key, h);
    }
    forall q | 0 <= q < |log'| && log'[q].Resolved? && log'[q].who == h
      ensures && log'[q] == Resolved(r.actor, r.requestId, r.action, h, StatusFor(r.action))
              && (r.pc.Consuming? || (r.pc.Done? && ConsumedAfter(log', q, r.actor, key, h)))
    {
      assert q < |log| && log'[q] == log[q];
      if !r.pc.Consuming? { ConsumedGrows(log, log', q, r.actor, key, h); }
    }
  }

  /** One handler moves, or new ones arrive; the others stand still. */
  lemma HandlersStand(s: State, s': State, h: nat)
    requires HandlersOk(s) && s.log <= s'.log && |s.handlers| <= |s'.handlers|
    requires forall i: nat | i < |s.handlers| && i != h :: s'.handlers[i] == s.handlers[i]
    requires h < |s.handlers| ==> HandlerOk(s'.log, s'.handlers[h], h)
    requires forall i: nat | |s.handlers| <= i < |s'.handlers| :: s'.handlers[i].pc.Looking?
    requires forall q | |s.log| <= q < |s'.log| && s'.log[q].Resolved? :: s'.log[q].who == h && h < |s.handlers|
    ensures HandlersOk(s')
  {
    hide HandlerOk;
    forall i: nat | i < |s'.handlers| ensures HandlerOk(s'.log, s'.handlers[i], i) {
      if i < |s.handlers| {
        if i != h { HandlerStands(s.log, s'.log, s.handlers[i], i); }
      } else {
        NewHandler(s'.log, s'.handlers[i], i);
      }
    }
  }

  lemma NewHandler(log: seq<Entry>, r: Handler, h: nat)
    requires r.pc.Looking? && forall q | 0 <= q < |log| && log[q].Resolved? :: log[q].who != h
    ensures HandlerOk(log, r, h)
  {
  }

  // ---- Store and log ----

  /** A step that logs nothing: challenges and requests at most go, except for a
      request under an unused id; the flag is at most raised. */
  predicate Unlogged(s: State, s': State) {
    && s'.log == s.log
    && (forall a | a in s'.store.challenges ::
        a in s.store.challenges && s'.store.challenges[a] == s.store.challenges[a])
    && (forall a | a in s'.mfa && !s'.mfa[a] :: a in s.mfa && !s.mfa[a])
    && s.used <= s'.used
    && (forall id | id in s'.store.requests :: id in s.store.requests || (id in s'.used && id !in s.used))
  }

  lemma UnloggedKeepsStore(s: State, s': State)
    requires StoreOk(s) && Unlogged(s, s')
    ensures StoreOk(s')
  {
    hide ChallengeKnown, ClearedAfter;
  }

  lemma StoreMovesAreUnlogged(s: State, m: Move)
    requires m.CreateRequest? || m.SweepStore? || m.ExpireGuest?
    ensures Unlogged(s, Step(s, m))
  {
    hide StampAll, Normalized, TrimSpace, PendingFor, StepHandler;
  }

  /** Logging an entry with what has to stand behind it. */
  lemma LogGrows(log: seq<Entry>, e: Entry)
    requires LogOk(log) && ResolvedOnce(log)
    requires e.Passed? ==> Justified(log, |log|, e)
    requires e.Resolved? ==> PassedBefore(log, |log|, e.actor, ChallengeKey(e.id, e.action), e.who)
    requires e.Resolved? ==> forall q | 0 <= q < |log| && log[q].Resolved? :: log[q].id != e.id
    ensures LogOk(log + [e]) && ResolvedOnce(log + [e])
  {
    hide ChallengeKey, Justified, PassedBefore;
    var log' := log + [e];
    forall p | 0 <= p < |log'| && log'[p].Passed? ensures Justified(log', p, log'[p]) {
      assert log'[p] == if p < |log| then log[p] else e;
      JustifiedGrows(log, log', p, log'[p]);
    }
    forall q | 0 <= q < |log'| && log'[q].Resolved?
      ensures PassedBefore(log', q, log'[q].actor, ChallengeKey(log'[q].id, log'[q].action), log'[q].who)
    {
      assert log'[q] == if q < |log| then log[q] else e;
      PassedGrows(log, log', q, q, log'[q].actor, ChallengeKey(log'[q].id, log'[q].action), log'[q].who);
    }
  }

  /** A step that logs one entry and adds no challenge nobody stored. */
  lemma StoreKeeps(s: State, s': State, e: Entry)
    requires StoreOk(s) && s'.log == s.log + [e] && s'.used == s.used
    requires forall id | id in s'.store.requests :: id in s.store.requests
    requires e.Resolved? ==> e.id in s.store.requests && e.id !in s'.store.requests
    requires forall a | a in s'.store.challenges ::
      || (a in s.store.challenges && s'.store.challenges[a] == s.store.challenges[a]
          && !(e.Consumed? && e.actor == a && e.key == s.store.challenges[a].key))
      || ChallengeKnown(s'.log, |s'.log|, a, s'.store.challenges[a])
    requires forall a | a in s'.mfa && !s'.mfa[a] :: (a in s.mfa && !s.mfa[a]) || e == Cleared(a)
    requires e.Raised? ==> e.actor in s'.mfa && s'.mfa[e.actor]
    ensures StoreOk(s')
  {
    hide ChallengeKnown;
    forall a | a in s'.store.challenges ensures ChallengeKnown(s'.log, |s'.log|, a, s'.store.challenges[a]) {
      if !ChallengeKnown(s'.log, |s'.log|, a, s'.store.challenges[a]) { KnownNow(s.log, e, a, s.store.challenges[a]); }
    }
    forall a, r | a in s'.mfa && !s'.mfa[a] && 0 <= r < |s'.log| && s'.log[r].Raised? && s'.log[r].actor == a
      ensures ClearedAfter(s'.log, |s'.log|, r, a)
    {
      if e == Cleared(a) {
        assert s'.log[|s.log|] == Cleared(a);
      } else {
        assert r < |s.log| && ClearedAfter(s.log, |s.log|, r, a);
        ClearedGrows(s.log, s'.log, |s.log|, |s'.log|, r, a);
      }
    }
    forall q | 0 <= q < |s'.log| && s'.log[q].Resolved?
      ensures s'.log[q].id in s'.used && s'.log[q].id !in s'.store.requests
    {
      if q < |s.log| { assert s.log[q].Resolved?; }
    }
  }

  // ---- Every step keeps the invariant ----

  /** A handler that moves on without logging anything. */
  lemma QuietHandler(s: State, s': State, h: nat)
    requires Inv(s) && h < |s.handlers| && Unlogged(s, s') && |s'.handlers| == |s.handlers|
    requires forall i: nat | i < |s.handlers| && i != h :: s'.handlers[i] == s.handlers[i]
    requires s'.handlers[h] == s.handlers[h].(pc := s'.handlers[h].pc) && StandingOk(s.log, s'.handlers[h], h)
    requires s'.handlers[h].pc == s.handlers[h].pc || !(s.handlers[h].pc.Consuming? || s.handlers[h].pc.Done?)
    ensures Inv(s')
  {
    hide StoreOk, LogOk, ResolvedOnce, Unlogged, StandingOk, ChallengeKey;
    assert s'.log == s.log by { UnloggedLog(s, s'); }
    UnloggedKeepsStore(s, s');
    assert HandlerOk(s.log, s.handlers[h], h);
    assert ResolutionsOk(s.log, s'.handlers[h], h);
    HandlersStand(s, s', h);
  }

  lemma UnloggedLog(s: State, s': State)
    requires Unlogged(s, s')
    ensures s'.log == s.log
  {
  }

  /** A handler that logs one entry. */
  lemma LoggingHandler(s: State, s': State, h: nat, e: Entry)
    requires Inv(s) && h < |s.handlers| && s'.log == s.log + [e] && |s'.handlers| == |s.handlers|
    requires LogOk(s'.log) && ResolvedOnce(s'.log) && StoreOk(s')
    requires forall i: nat | i < |s.handlers| && i != h :: s'.handlers[i] == s.handlers[i]
    requires HandlerOk(s'.log, s'.handlers[h], h) && (e.Resolved? ==> e.who == h)
    ensures Inv(s')
  {
    hide StoreOk, LogOk, ResolvedOnce, HandlerOk;
    assert HandlersOk(s);
    HandlersStand(s, s', h);
  }

  /** A handler that has not resolved anything yet has no resolution in a log that
      grew by something else. */
  lemma NothingResolved(log: seq<Entry>, e: Entry, r: Handler, r': Handler, h: nat)
    requires ResolutionsOk(log, r, h) && !r.pc.Consuming? && !r.pc.Done? && !e.Resolved?
    ensures ResolutionsOk(log + [e], r', h)
  {
    var log' := log + [e];
    forall q | 0 <= q < |log'| && log'[q].Resolved? ensures log'[q].who != h {
      assert q < |log| && log'[q] == log[q];
    }
  }

  lemma HandlerOf(s: State, h: nat)
    requires Inv(s) && h < |s.handlers|
    ensures StandingOk(s.log, s.handlers[h], h) && ResolutionsOk(s.log, s.handlers[h], h)
  {
    hide StandingOk, ResolutionsOk;
    assert HandlerOk(s.log, s.handlers[h], h);
  }

  lemma LookingStep(s: State, h: nat, key: string, fails: bool, reading: int)
    requires Inv(s) && h < |s.handlers| && key == ChallengeKey(s.handlers[h].requestId, s.handlers[h].action)
    requires s.handlers[h].pc.Looking?
    ensures Inv(StepWith(s, h, key, fails, reading))
  {
    hide ChallengeKey;
    hide Inv;
    QuietHandler(s, StepWith(s, h, key, fails, reading), h);
  }

  lemma SilentStep(s: State, h: nat, key: string, fails: bool, reading: int)
    requires Inv(s) && h < |s.handlers| && key == ChallengeKey(s.handlers[h].requestId, s.handlers[h].action)
    requires s.handlers[h].pc.CheckingMethod? || s.handlers[h].pc.ReadingClock? || s.handlers[h].pc.Done?
    ensures Inv(StepWith(s, h, key, fails, reading))
  {
    hide ChallengeKey;
    hide Inv;
    if !s.handlers[h].pc.Done? { QuietHandler(s, StepWith(s, h, key, fails, reading), h); }
  }

  lemma ReadingStep(s: State, h: nat, key: string, fails: bool, reading: int)
    requires Inv(s) && h < |s.handlers| && key == ChallengeKey(s.handlers[h].requestId, s.handlers[h].action)
    requires s.handlers[h].pc.ReadingChallenge?
    ensures Inv(StepWith(s, h, key, fails, reading))
  {
    hide ChallengeKey;
    var s' := StepWith(s, h, key, fails, reading);
    var actor := s.handlers[h].actor;
    assert actor in s'.store.challenges ==> ChallengeKnown(s.log, |s.log|, actor, s'.store.challenges[actor]) by {
      hide ChallengeKnown;
      assert StoreOk(s);
    }
    hide Inv, ChallengeKnown;
    QuietHandler(s, s', h);
  }

  /** The pass of a handler rests on what it read. */
  lemma PassIsJustified(s: State, h: nat)
    requires Inv(s) && h < |s.handlers| && s.handlers[h].pc.ReadingFlag? && s.handlers[h].pc.found.Some?
    requires var r := s.handlers[h];
             r.pc.found.value.key == ChallengeKey(r.requestId, r.action) && r.pc.at < r.pc.found.value.expireAt
             && r.actor in s.mfa && !s.mfa[r.actor]
    ensures var r := s.handlers[h];
            Justified(s.log, |s.log|, Passed(r.actor, ChallengeKey(r.requestId, r.action), h, r.pc.at, r.pc.read))
  {
    hide ChallengeKey;
    var h0 := s.handlers[h];
    var a, c, read := h0.actor, h0.pc.found.value, h0.pc.read;
    HandlerOf(s, h);
    hide LogOk, ResolvedOnce, HandlersOk, Unspent, ClearedAfter, ResolutionsOk;
    var r, t, at :| Challenged(s.log, read, r, t, a, c.key, at) && at == c.expireAt - CHALLENGE_TTL
      && Unspent(s.log, t, read, a, c.key);
    assert s.log[r].Raised? && s.log[r].actor == a;
    assert ClearedAfter(s.log, |s.log|, r, a);
  }

  lemma FlagStep(s: State, h: nat, key: string, fails: bool, reading: int)
    requires Inv(s) && h < |s.handlers| && key == ChallengeKey(s.handlers[h].requestId, s.handlers[h].action)
    requires s.handlers[h].pc.ReadingFlag?
    ensures Inv(StepWith(s, h, key, fails, reading))
  {
    hide ChallengeKey;
    var s' := StepWith(s, h, key, fails, reading);
    var r := s.handlers[h];
    if s'.log == s.log {
      hide Inv;
      QuietHandler(s, s', h);
    } else {
      PassIsJustified(s, h);
      HandlerOf(s, h);
      hide Justified, ResolvedOnce, LogOk, StoreOk, HandlersOk, ResolutionsOk;
      var e := Passed(r.actor, key, h, r.pc.at, r.pc.read);
      LogGrows(s.log, e);
      assert StoreOk(s') by { hide PassedBefore, StandingOk; StoreKeeps(s, s', e); }
      NothingResolved(s.log, e, r, s'.handlers[h], h);
      assert s'.log[|s.log|] == e;
      assert PassedBefore(s'.log, |s'.log|, r.actor, key, h);
      LoggingHandler(s, s', h, e);
    }
  }

  lemma RaisingStep(s: State, h: nat, key: string, fails: bool, reading: int)
    requires Inv(s) && h < |s.handlers| && key == ChallengeKey(s.handlers[h].requestId, s.handlers[h].action)
    requires s.handlers[h].pc.Raising?
    ensures Inv(StepWith(s, h, key, fails, reading))
  {
    hide ChallengeKey;
    var s' := StepWith(s, h, key, fails, reading);
    var r := s.handlers[h];
    if fails {
      hide Inv;
      QuietHandler(s, s', h);
    } else {
      HandlerOf(s, h);
      hide ResolvedOnce, LogOk, StoreOk, HandlersOk, ResolutionsOk;
      var e := Raised(r.actor, key, h);
      LogGrows(s.log, e);
      StoreKeeps(s, s', e);
      NothingResolved(s.log, e, r, s'.handlers[h], h);
      assert s'.log[|s.log|] == e;
      LoggingHandler(s, s', h, e);
    }
  }

  lemma StoringStep(s: State, h: nat, key: string, fails: bool, reading: int)
    requires Inv(s) && h < |s.handlers| && key == ChallengeKey(s.handlers[h].requestId, s.handlers[h].action)
    requires s.handlers[h].pc.Storing?
    ensures Inv(StepWith(s, h, key, fails, reading))
  {
    hide ChallengeKey;
    var s' := StepWith(s, h, key, fails, reading);
    var r := s.handlers[h];
    HandlerOf(s, h);
    hide ResolvedOnce, LogOk, StoreOk, HandlersOk, ResolutionsOk;
    var e := Stored(r.actor, key, h, r.pc.at);
    JustStored(s.log, r.actor, key, h, r.pc.at);
    LogGrows(s.log, e);
    assert StoreOk(s') by { hide ChallengeKnown; StoreKeeps(s, s', e); }
    NothingResolved(s.log, e, r, s'.handlers[h], h);
    LoggingHandler(s, s', h, e);
  }

  lemma JustStored(log: seq<Entry>, actor: int, key: string, who: nat, at: int)
    requires RaisedBy(log, actor, key, who)
    ensures ChallengeKnown(log + [Stored(actor, key, who, at)], |log| + 1, actor, Challenge(key, at + CHALLENGE_TTL))
  {
    var log' := log + [Stored(actor, key, who, at)];
    var i :| 0 <= i < |log| && log[i] == Raised(actor, key, who);
    assert log'[i] == Raised(actor, key, who) && log'[|log|] == Stored(actor, key, who, at);
    assert Challenged(log', |log'|, i, |log|, actor, key, at);
    assert Unspent(log', |log|, |log'|, actor, key);
  }

  lemma ResolvingStep(s: State, h: nat, key: string, fails: bool, reading: int)
    requires Inv(s) && h < |s.handlers| && key == ChallengeKey(s.handlers[h].requestId, s.handlers[h].action)
    requires s.handlers[h].pc.Resolving?
    ensures Inv(StepWith(s, h, key, fails, reading))
  {
    hide ChallengeKey;
    var s' := StepWith(s, h, key, fails, reading);
    var r := s.handlers[h];
    if s'.log == s.log {
      hide Inv;
      QuietHandler(s, s', h);
    } else {
      HandlerOf(s, h);
      var e := Resolved(r.actor, r.requestId, r.action, h, StatusFor(r.action));
      assert forall q | 0 <= q < |s.log| && s.log[q].Resolved? :: s.log[q].id != r.requestId by {
        hide ChallengeKnown, ClearedAfter;
        assert StoreOk(s) && r.requestId in s.store.requests;
      }
      hide ResolvedOnce, LogOk, StoreOk, HandlersOk, PassedBefore;
      LogGrows(s.log, e);
      assert StoreOk(s') by { hide StandingOk, ResolutionsOk; StoreKeeps(s, s', e); }
      ResolvedByItself(s.log, r, s'.handlers[h], h);
      LoggingHandler(s, s', h, e);
    }
  }

  lemma ResolvedByItself(log: seq<Entry>, r: Handler, r': Handler, h: nat)
    requires ResolutionsOk(log, r, h) && r.pc.Resolving? && r' == r.(pc := Consuming)
    ensures HandlerOk(log + [Resolved(r.actor, r.requestId, r.action, h, StatusFor(r.action))], r', h)
  {
    hide ChallengeKey;
    var log' := log + [Resolved(r.actor, r.requestId, r.action, h, StatusFor(r.action))];
    forall q | 0 <= q < |log'| && log'[q].Resolved? && log'[q].who == h
      ensures log'[q] == Resolved(r.actor, r.requestId, r.action, h, StatusFor(r.action))
    {
      assert log'[q] == if q < |log| then log[q] else Resolved(r.actor, r.requestId, r.action, h, StatusFor(r.action));
    }
  }

  lemma ConsumingStep(s: State, h: nat, key: string, fails: bool, reading: int)
    requires Inv(s) && h < |s.handlers| && key == ChallengeKey(s.handlers[h].requestId, s.handlers[h].action)
    requires s.handlers[h].pc.Consuming?
    ensures Inv(StepWith(s, h, key, fails, reading))
  {
    hide ChallengeKey;
    var s' := StepWith(s, h, key, fails, reading);
    var r := s.handlers[h];
    HandlerOf(s, h);
    hide ResolvedOnce, LogOk, StoreOk, HandlersOk;
    var e := Consumed(r.actor, key, h);
    LogGrows(s.log, e);
    assert StoreOk(s') by { hide StandingOk, ResolutionsOk; StoreKeeps(s, s', e); }
    ConsumedByItself(s.log, r, s'.handlers[h], h);
    LoggingHandler(s, s', h, e);
  }

  lemma ConsumedByItself(log: seq<Entry>, r: Handler, r': Handler, h: nat)
    requires ResolutionsOk(log, r, h) && r.pc.Consuming? && r' == r.(pc := Done)
    ensures HandlerOk(log + [Consumed(r.actor, ChallengeKey(r.requestId, r.action), h)], r', h)
  {
    hide ChallengeKey;
    var e := Consumed(r.actor, ChallengeKey(r.requestId, r.action), h);
    var log' := log + [e];
    assert log'[|log|] == e;
    forall q | 0 <= q < |log'| && log'[q].Resolved? && log'[q].who == h
      ensures log'[q] == Resolved(r.actor, r.requestId, r.action, h, StatusFor(r.action))
              && ConsumedAfter(log', q, e.actor, e.key, h)
    {
      assert q < |log| && log'[q] == log[q];
    }
  }

  lemma StepHandlerKeepsInv(s: State, h: nat, fails: bool, reading: int)
    requires Inv(s) && h < |s.handlers|
    ensures Inv(StepHandler(s, h, fails, reading))
  {
    hide Inv, StepWith, ChallengeKey;
    var key := ChallengeKey(s.handlers[h].requestId, s.handlers[h].action);
    match s.handlers[h].pc
    case Looking => LookingStep(s, h, key, fails, reading);
    case ReadingChallenge(_) => ReadingStep(s, h, key, fails, reading);
    case ReadingFlag(_, _, _) => FlagStep(s, h, key, fails, reading);
    case Raising(_) => RaisingStep(s, h, key, fails, reading);
    case Storing(_) => StoringStep(s, h, key, fails, reading);
    case Resolving => ResolvingStep(s, h, key, fails, reading);
    case Consuming => ConsumingStep(s, h, key, fails, reading);
    case _ => SilentStep(s, h, key, fails, reading);
  }

  lemma ArrivalKeepsInv(s: State, s': State)
    requires Inv(s) && Unlogged(s, s') && s.handlers <= s'.handlers
    requires forall i: nat | |s.handlers| <= i < |s'.handlers| :: s'.handlers[i].pc.Looking?
    ensures Inv(s')
  {
    hide StoreOk, LogOk, ResolvedOnce, HandlerOk, Unlogged;
    assert s'.log == s.log by { UnloggedLog(s, s'); }
    UnloggedKeepsStore(s, s');
    HandlersStand(s, s', |s.handlers|);
  }

  lemma ClearingKeepsInv(s: State, actor: int)
    requires Inv(s)
    ensures Inv(s.(mfa := s.mfa[actor := false], log := s.log + [Cleared(actor)]))
  {
    hide LogOk, ResolvedOnce, HandlerOk, StoreOk;
    var s' := s.(mfa := s.mfa[actor := false], log := s.log + [Cleared(actor)]);
    LogGrows(s.log, Cleared(actor));
    StoreKeeps(s, s', Cleared(actor));
    HandlersStand(s, s', |s.handlers|);
  }

  lemma StepKeepsInv(s: State, m: Move)
    requires Inv(s)
    ensures Inv(Step(s, m))
  {
    hide Inv, StepHandler;
    match m
    case Advance(h, fails, reading) => if h < |s.handlers| { StepHandlerKeepsInv(s, h, fails, reading); }
    case ClearFlag(actor) => ClearingKeepsInv(s, actor);
    case CreateRequest(_, _, _, _, _, _) => StoreMovesAreUnlogged(s, m); ArrivalKeepsInv(s, Step(s, m));
    case SweepStore(_) => StoreMovesAreUnlogged(s, m); ArrivalKeepsInv(s, Step(s, m));
    case ExpireGuest(_) => StoreMovesAreUnlogged(s, m); ArrivalKeepsInv(s, Step(s, m));
    case _ => ArrivalKeepsInv(s, Step(s, m));
  }

  lemma {:induction false} RunKeepsInv(s: State, moves: seq<Move>)
    requires Inv(s)
    ensures Inv(Run(s, moves))
    decreases |moves|
  {
    hide Inv, Step;
    if moves != [] {
      StepKeepsInv(s, moves[0]);
      RunKeepsInv(Step(s, moves[0]), moves[1..]);
    }
  }

  lemma ReachableInv(moves: seq<Move>)
    ensures Inv(Run(Initial(), moves))
  {
    hide Run;
    assert Inv(Initial());
    RunKeepsInv(Initial(), moves);
  }

  // ---- The protocol over every interleaving ----

  /** Under any interleaving, whenever the challenge check lets a call pass, an
      earlier call for that same actor, request and action raised the flag and
      then stored the challenge, its clock reading less than ten minutes before;
      nobody had consumed that challenge when the passing call read it; and the
      actor's flag was cleared after that raise. */
  lemma PassesAreJustified(moves: seq<Move>, p: nat)
    requires var log := Run(Initial(), moves).log; p < |log| && log[p].Passed?
    ensures var log := Run(Initial(), moves).log; Justified(log, p, log[p])
  {
    hide Run, Justified, StoreOk, HandlersOk, ResolvedOnce;
    ReachableInv(moves);
  }

  /** Under any interleaving every resolution comes after a pass of the same
      handler's check for its actor, request and action; and no request id is
      resolved twice. */
  lemma ResolutionsAreChallenged(moves: seq<Move>, q: nat)
    requires var log := Run(Initial(), moves).log; q < |log| && log[q].Resolved?
    ensures var log := Run(Initial(), moves).log;
            PassedBefore(log, q, log[q].actor, ChallengeKey(log[q].id, log[q].action), log[q].who)
    ensures var e := Run(Initial(), moves).log[q]; e.status == if e.action == Accept then Accepted else Rejected
    ensures var log := Run(Initial(), moves).log;
            forall p | 0 <= p < |log| && p != q && log[p].Resolved? :: log[p].id != log[q].id
  {
    hide Run, Justified, PassedBefore, ConsumedAfter, ChallengeKey, StoreOk, StandingOk;
    ReachableInv(moves);
    var s := Run(Initial(), moves);
    var log := s.log;
    assert HandlerOk(log, s.handlers[log[q].who], log[q].who);
    forall p | 0 <= p < |log| && p != q && log[p].Resolved? ensures log[p].id != log[q].id {
      if p < q { assert log[p].id != log[q].id; } else { assert log[q].id != log[p].id; }
    }
  }

  /** Under any interleaving every resolution has consumed its challenge, or its
      handler is just about to. */
  lemma ResolutionsAreConsumed(moves: seq<Move>, q: nat)
    requires var log := Run(Initial(), moves).log; q < |log| && log[q].Resolved?
    ensures var s := Run(Initial(), moves);
            var e := s.log[q];
            && e.who < |s.handlers|
            && (s.handlers[e.who].pc.Consuming?
                || ConsumedAfter(s.log, q, e.actor, ChallengeKey(e.id, e.action), e.who))
  {
    hide Run, ChallengeKey, StoreOk, LogOk, ResolvedOnce, ConsumedAfter, StandingOk;
    ReachableInv(moves);
    var s := Run(Initial(), moves);
    assert HandlerOk(s.log, s.handlers[s.log[q].who], s.log[q].who);
  }

  /** And a consumed challenge is spent: a pass whose challenge was read after a
      consumption for the same actor, request and action rests on a challenge
      stored later than that. Only calls that had read it before can still pass. */
  lemma ConsumedIsSpent(moves: seq<Move>, c: nat, p: nat)
    requires var log := Run(Initial(), moves).log;
             && c < |log| && p < |log| && log[c].Consumed? && log[p].Passed?
             && log[p].actor == log[c].actor && log[p].key == log[c].key && c < log[p].read
    ensures var log := Run(Initial(), moves).log;
            exists t, who, at :: c < t < log[p].read && t < |log| && log[t] == Stored(log[c].actor, log[c].key, who, at)
  {
    hide Run, ClearedAfter;
    PassesAreJustified(moves, p);
    var log := Run(Initial(), moves).log;
    var e := log[p];
    var r, t, t0 :| && Challenged(log, e.read, r, t, e.actor, e.key, t0) && Unspent(log, t, e.read, e.actor, e.key)
                    && e.at < t0 + CHALLENGE_TTL && ClearedAfter(log, p, r, e.actor);
    assert log[t].Stored? && c != t && !(t < c);
  }
}
