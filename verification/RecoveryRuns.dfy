/** Whole runs of the recovery store.  Each event is one locked section; it
    carries the clock reading the caller took before it got the lock, so the
    readings need not come in order. */
module RecoveryRuns {
  import opened GoStrings
  import opened RecoveryStore

  datatype Op =
    | DoCreate(email: string, ip: string, guest: string, user: Option<int>, id: string)
    | DoList
    | DoGet(id: string)
    | DoResolve(id: string, status: Status)
    | DoExpire(session: string)
    | DoConsume(actor: int, key: string)

  datatype Event = Event(now: int, op: Op)

  datatype Reply = OfCreate(created: Created) | OfFind(found: Found) | Silent

  function Step(s: Store, e: Event): (Store, Reply) {
    match e.op
    case DoCreate(email, ip, guest, user, id) =>
      var (s', c) := Create(s, e.now, email, ip, guest, user, id); (s', OfCreate(c))
    case DoList => (Cleanup(s, e.now), Silent)
    case DoGet(id) => var (s', f) := Get(s, e.now, id); (s', OfFind(f))
    case DoResolve(id, status) => var (s', f) := Resolve(s, e.now, id, status); (s', OfFind(f))
    case DoExpire(session) => (ExpireSession(s, session), Silent)
    case DoConsume(actor, key) => (Consume(s, actor, key), Silent)
  }

  /** The store before event i. */
  function At(events: seq<Event>, i: nat): Store
    requires i <= |events|
  {
    if i == 0 then Empty else Step(At(events, i - 1), events[i - 1]).0
  }

  function ReplyAt(events: seq<Event>, i: nat): Reply
    requires i < |events|
  {
    Step(At(events, i), events[i]).1
  }

  // ---- The store's invariant ----

  predicate WellKept(s: Store) {
    && (forall id | id in s.requests :: var r := s.requests[id];
          r.id == id && r.status.Pending? && r.expiresAt == r.createdAt + REQUEST_TTL)
    && (forall a, b | a in s.requests && b in s.requests && s.requests[a].userId == s.requests[b].userId :: a == b)
  }

  /** What one event does to the stored requests: nothing is changed in place,
      and at most one request is added, for a user who had none. */
  predicate RequestsStep(s: Store, e: Event, s': Store) {
    && (forall id | id in s'.requests ::
          || (id in s.requests && s'.requests[id] == s.requests[id])
          || (&& e.op.DoCreate? && e.op.user.Some? && id == e.op.id && NewRequest(s'.requests[id], e)
              && (forall other | other in s'.requests && other != id :: s'.requests[other].userId != e.op.user.value)))
    && (e.op.DoResolve? && Step(s, e).1.found.Got? ==> e.op.id in s.requests && e.op.id !in s'.requests)
  }

  predicate NewRequest(r: Request, e: Event)
    requires e.op.DoCreate? && e.op.user.Some?
  {
    && r.id == e.op.id && r.userId == e.op.user.value && r.status.Pending? && r.createdAt == e.now
    && r.expiresAt == e.now + REQUEST_TTL
  }

  lemma CreateStep(s: Store, e: Event)
    requires e.op.DoCreate?
    ensures RequestsStep(s, e, Step(s, e).0)
  {
    hide Normalized, TrimSpace, StampAll, RateKeys;
    var c := Cleanup(s, e.now);
    if e.op.user.Some? && !PendingFor(c, e.op.user.value) {
      assert forall id | id in c.requests :: c.requests[id].userId != e.op.user.value;
    }
  }

  lemma StepIsRequestsStep(s: Store, e: Event)
    ensures RequestsStep(s, e, Step(s, e).0)
  {
    hide Create, StampAll, Normalized, TrimSpace;
    if e.op.DoCreate? { CreateStep(s, e); }
  }

  lemma StepKeepsStore(s: Store, e: Event)
    requires WellKept(s)
    ensures WellKept(Step(s, e).0)
  {
    StepIsRequestsStep(s, e);
    hide Step;
  }

  /** Every drawn id is new. */
  predicate FreshIds(events: seq<Event>) {
    forall i, j | 0 <= i < j < |events| && events[i].op.DoCreate? && events[j].op.DoCreate? ::
      events[i].op.id != events[j].op.id
  }

  /** Requests in the store were created by some earlier event. */
  lemma {:induction false} CreatedBefore(events: seq<Event>, i: nat, id: string)
    requires i <= |events| && id in At(events, i).requests
    ensures exists c :: 0 <= c < i && events[c].op.DoCreate? && events[c].op.id == id
  {
    hide Step;
    if i > 0 {
      StepIsRequestsStep(At(events, i - 1), events[i - 1]);
      if id in At(events, i - 1).requests { CreatedBefore(events, i - 1, id); }
    }
  }

  /** In every run every stored request is pending, expires 30 minutes after its
      creation, and is its user's only one. */
  lemma {:induction false} StoreInvariant(events: seq<Event>, i: nat)
    requires i <= |events|
    ensures WellKept(At(events, i))
  {
    hide Step, WellKept;
    if i > 0 {
      StoreInvariant(events, i - 1);
      StepKeepsStore(At(events, i - 1), events[i - 1]);
    } else {
      EmptyIsWellKept();
    }
  }

  lemma EmptyIsWellKept()
    ensures WellKept(Empty)
  {
  }

  /** Event i takes id out of the store. */
  predicate Leaves(events: seq<Event>, i: nat, id: string)
    requires i < |events|
  {
    id in At(events, i).requests && id !in At(events, i + 1).requests
  }

  predicate Resolves(events: seq<Event>, i: nat, id: string)
    requires i < |events|
  {
    events[i].op.DoResolve? && events[i].op.id == id && ReplyAt(events, i).found.Got?
  }

  lemma {:induction false} GoneForGood(events: seq<Event>, i: nat, j: nat, id: string)
    requires FreshIds(events) && i < j <= |events| && Leaves(events, i, id)
    ensures id !in At(events, j).requests
  {
    hide Step;
    if j > i + 1 {
      GoneForGood(events, i, j - 1, id);
      CreatedBefore(events, i, id);
      StepIsRequestsStep(At(events, j - 1), events[j - 1]);
    }
  }

  lemma ResolvingIsLeaving(events: seq<Event>, i: nat, id: string)
    requires i < |events| && Resolves(events, i, id)
    ensures Leaves(events, i, id)
  {
    StepIsRequestsStep(At(events, i), events[i]);
    hide Step;
  }

  /** With fresh ids each id leaves the store at most once and is resolved at
      most once, and resolving is leaving. */
  lemma LeavesOnceResolvesOnce(events: seq<Event>, i: nat, j: nat, id: string)
    requires FreshIds(events) && i < j < |events|
    ensures !(Leaves(events, i, id) && Leaves(events, j, id))
    ensures !(Resolves(events, i, id) && Resolves(events, j, id))
    ensures Resolves(events, i, id) ==> Leaves(events, i, id)
  {
    hide At, Resolves, FreshIds;
    if Leaves(events, i, id) { GoneForGood(events, i, j, id); }
    if Resolves(events, i, id) { ResolvingIsLeaving(events, i, id); GoneForGood(events, i, j, id); }
    if Resolves(events, j, id) { ResolvingIsLeaving(events, j, id); }
  }

  /** Neither lookup nor resolution can report an expired request: cleanup at
      the same instant has already removed it.  Both answer NotFound exactly
      when no standing request has that id. */
  lemma NeverTooLate(s: Store, now: int, id: string, status: Status)
    ensures !Get(s, now, id).1.TooLate? && !Resolve(s, now, id, status).1.TooLate?
    ensures Get(s, now, id).1.NotFound? <==> !(id in s.requests && Standing(s.requests[id], now))
    ensures Resolve(s, now, id, status).1.NotFound? <==> !(id in s.requests && Standing(s.requests[id], now))
  {
  }

  // ---- The cooldown ----

  /** The caller was not told off: a request was registered, or ignored because
      the account does not exist. */
  predicate Accepted(events: seq<Event>, i: nat)
    requires i < |events|
  {
    Accepts(At(events, i), events[i])
  }

  /** How far a clock reading may lag behind an earlier event's: the 28 minutes
      between the cooldown and the age at which stamps are forgotten, and two
      nanoseconds. */
  const SAFE_LAG := REQUEST_TTL - COOLDOWN + 2

  /** Every clock reading lags behind those of earlier events by less than that. */
  predicate ReadingsWithin(events: seq<Event>, lag: int) {
    forall i, j | 0 <= i < j < |events| :: events[i].now - events[j].now < lag
  }

  /** Accepted calls that share a normalised email or an IP are a cooldown apart. */
  ghost predicate KeepsCooldown(events: seq<Event>) {
    forall i: nat, j: nat, k | i < j < |events| && Accepted(events, i) && Accepted(events, j) && Shares(events[i], k)
      && Shares(events[j], k) ::
      events[j].now - events[i].now >= 120_000_000_000
  }

  /** After an accepted call at t, either the stamp is still there or every
      later reading is past the cooldown. */
  predicate Guarded(events: seq<Event>, j: nat, k: RateKey, t: int)
    requires j <= |events|
  {
    || (k in At(events, j).lastSeen && At(events, j).lastSeen[k] >= t)
    || (forall m | j <= m < |events| :: events[m].now >= t + COOLDOWN)
  }

  /** Stamps only move forward, a passing check stamps both keys, and it passes
      only when both stamps are old enough. */
  lemma StampBoth(seen: map<RateKey, int>, a: RateKey, b: RateKey, now: int, k: RateKey, t: int)
    ensures var (seen', passed) := StampAll(seen, [a, b], now);
      && (k in seen && seen[k] >= t ==> k in seen' && seen'[k] >= t)
      && (passed && (k == a || k == b) ==> k in seen' && seen'[k] == now)
      && (passed && (k == a || k == b) && k in seen && seen[k] >= t && a != b ==> now >= t + COOLDOWN)
  {
    assert [a, b][1..] == [b] && [b][1..] == [];
    var seen1 := seen[a := now];
    assert StampAll(seen1, [b], now) ==
      if b in seen1 && now - seen1[b] < COOLDOWN then (seen1, false) else (seen1[b := now], true);
  }

  /** The key is one of the two a creation checks. */
  predicate Shares(e: Event, k: RateKey) {
    e.op.DoCreate? && (k == EmailKey(Normalized(e.op.email)) || k == IpKey(Normalized(e.op.ip)))
  }

  /** What one event does to a stamp no older than t. */
  lemma StampStep(s: Store, e: Event, k: RateKey, t: int)
    requires k in s.lastSeen && s.lastSeen[k] >= t
    ensures var s' := Step(s, e).0; (k in s'.lastSeen && s'.lastSeen[k] >= t) || e.now > t + REQUEST_TTL
  {
    hide Normalized, TrimSpace, StampAll, PendingFor;
    if e.op.DoCreate? {
      StampBoth(Cleanup(s, e.now).lastSeen, EmailKey(Normalized(e.op.email)), IpKey(Normalized(e.op.ip)), e.now, k, t);
    }
  }

  predicate Accepts(s: Store, e: Event) {
    e.op.DoCreate? && (Step(s, e).1.created.Ignored? || Step(s, e).1.created.Registered?)
  }

  /** An accepted call stamps both its keys, and found no stamp it shares fresher
      than the cooldown. */
  lemma AcceptStep(s: Store, e: Event, k: RateKey)
    requires Accepts(s, e) && Shares(e, k)
    ensures var s' := Step(s, e).0; k in s'.lastSeen && s'.lastSeen[k] == e.now
    ensures k in s.lastSeen ==> e.now >= s.lastSeen[k] + COOLDOWN
  {
    hide Normalized, TrimSpace, StampAll, PendingFor;
    var t := if k in s.lastSeen then s.lastSeen[k] else 0;
    StampBoth(Cleanup(s, e.now).lastSeen, EmailKey(Normalized(e.op.email)), IpKey(Normalized(e.op.ip)), e.now, k, t);
  }

  lemma GuardKept(events: seq<Event>, j: nat, k: RateKey, t: int)
    requires ReadingsWithin(events, SAFE_LAG) && j < |events| && Guarded(events, j, k, t)
    ensures Guarded(events, j + 1, k, t)
  {
    hide Step;
    var s, e := At(events, j), events[j];
    if k in s.lastSeen && s.lastSeen[k] >= t {
      StampStep(s, e, k, t);
      if e.now > t + REQUEST_TTL {
        forall m | j + 1 <= m < |events| ensures events[m].now >= t + COOLDOWN {
          assert events[j].now - events[m].now < SAFE_LAG;
        }
      }
    }
  }

  lemma GuardedAtOnce(events: seq<Event>, i: nat, k: RateKey)
    requires i < |events| && Accepted(events, i) && Shares(events[i], k)
    ensures Guarded(events, i + 1, k, events[i].now)
  {
    hide Step, Shares;
    AcceptStep(At(events, i), events[i], k);
  }

  lemma {:induction false} GuardedUntil(events: seq<Event>, i: nat, j: nat, k: RateKey)
    requires ReadingsWithin(events, SAFE_LAG) && i < j <= |events| && Accepted(events, i) && Shares(events[i], k)
    ensures Guarded(events, j, k, events[i].now)
  {
    hide Step, ReadingsWithin, Guarded, Accepted, At, Shares;
    if j == i + 1 {
      GuardedAtOnce(events, i, k);
    } else {
      GuardedUntil(events, i, j - 1, k);
      GuardKept(events, j - 1, k, events[i].now);
    }
  }

  /** Over every run, two accepted calls that share a normalised email or an IP
      are at least two minutes apart, although cleanup forgets stamps and a
      rejected call may have stamped its email only. */
  lemma CooldownHolds(events: seq<Event>, i: nat, j: nat, k: RateKey)
    requires ReadingsWithin(events, SAFE_LAG) && i < j < |events|
    requires Accepted(events, i) && Accepted(events, j) && Shares(events[i], k) && Shares(events[j], k)
    ensures events[j].now - events[i].now >= COOLDOWN
  {
    hide Step, ReadingsWithin, At;
    GuardedUntil(events, i, j, k);
    AcceptStep(At(events, j), events[j], k);
  }

  /** A call for an unknown account whose keys carry no stamp. */
  lemma FirstCall(s: Store, now: int, email: string, ip: string)
    requires Normalized(email) != ""
    requires forall k | k in s.lastSeen :: now - s.lastSeen[k] > REQUEST_TTL
    ensures var (s', r) := Step(s, Event(now, DoCreate(email, ip, "", None, "")));
      && r == OfCreate(Ignored)
      && s'.lastSeen == map[EmailKey(Normalized(email)) := now, IpKey(Normalized(ip)) := now]
  {
    hide Normalized;
    var a, b := EmailKey(Normalized(email)), IpKey(Normalized(ip));
    assert Cleanup(s, now).lastSeen == map[];
    assert [a, b][1..] == [b] && [b][1..] == [];
    assert StampAll(map[], [a, b], now) == StampAll(map[a := now], [b], now);
    assert StampAll(map[a := now], [b], now) == StampAll(map[a := now][b := now], [], now);
    assert map[a := now][b := now] == map[a := now, b := now];
  }

  /** The bound on the readings is needed: a caller that read the clock that much
      earlier than a cleanup slips in behind it. */
  lemma CooldownNeedsCloseReadings(email: string, ip: string) returns (events: seq<Event>)
    requires Normalized(email) != ""
    ensures |events| == 3 && Accepted(events, 0) && Accepted(events, 2)
    ensures events[0].op == events[2].op == DoCreate(email, ip, "", None, "")
    ensures events[2].now - events[0].now < COOLDOWN
    ensures ReadingsWithin(events, SAFE_LAG + 1)
  {
    hide Normalized, StampAll, PendingFor;
    var call := DoCreate(email, ip, "", None, "");
    events := [Event(0, call), Event(REQUEST_TTL + 1, DoList), Event(COOLDOWN - 1, call)];
    FirstCall(Empty, 0, email, ip);
    var s1 := At(events, 1);
    assert s1 == Step(At(events, 0), events[0]).0;
    var s2 := At(events, 2);
    assert s2 == Step(s1, events[1]).0;
    assert s2.lastSeen == map[];
    FirstCall(s2, COOLDOWN - 1, email, ip);
  }

  /** The cooldown holds over every run in which readings lag by less than a bound
      exactly when the bound is at most 28 minutes and two nanoseconds. */
  lemma CooldownIff(lag: int)
    ensures (forall events: seq<Event> :: ReadingsWithin(events, lag) ==> KeepsCooldown(events))
            <==> lag <= 1_680_000_000_002
  {
    hide Accepted, Shares, Normalized;
    if lag <= SAFE_LAG {
      forall events: seq<Event> | ReadingsWithin(events, lag) ensures KeepsCooldown(events) {
        forall i: nat, j: nat, k | i < j < |events| && Accepted(events, i) && Accepted(events, j)
          && Shares(events[i], k) && Shares(events[j], k)
          ensures events[j].now - events[i].now >= 120_000_000_000
        {
          CooldownHolds(events, i, j, k);
        }
      }
    } else {
      LetterIsAnEmail();
      var events := CooldownNeedsCloseReadings("a", "");
      assert ReadingsWithin(events, lag);
      var k := EmailKey(Normalized("a"));
      assert Shares(events[0], k) && Shares(events[2], k) by { SharesEmail(events[0]); SharesEmail(events[2]); }
      assert !KeepsCooldown(events);
    }
  }

  lemma LetterIsAnEmail()
    ensures Normalized("a") != ""
  {
    TrimSpaceOfTrimmed("a");
  }

  lemma SharesEmail(e: Event)
    requires e.op.DoCreate?
    ensures Shares(e, EmailKey(Normalized(e.op.email)))
  {
  }
}
