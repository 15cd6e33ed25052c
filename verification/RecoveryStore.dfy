/** The in-memory store of account-recovery requests: pending requests, cooldown
    stamps and second-factor challenges, all behind one lock. */
module RecoveryStore {
  import opened GoStrings

  // Instants and durations are in nanoseconds.
  const MINUTE := 60_000_000_000
  const REQUEST_TTL := 30 * MINUTE
  const COOLDOWN := 2 * MINUTE
  const CHALLENGE_TTL := 10 * MINUTE

  datatype Status = Pending | Accepted | Rejected | Expired

  datatype Request = Request(id: string, email: string, userId: int, status: Status, guestSession: string,
                             createdAt: int, expiresAt: int)

  datatype RateKey = EmailKey(email: string) | IpKey(ip: string)

  datatype Challenge = Challenge(key: string, expireAt: int)

  datatype Store = Store(requests: map<string, Request>, lastSeen: map<RateKey, int>, challenges: map<int, Challenge>)

  const Empty := Store(map[], map[], map[])

  function Normalized(s: string): string {
    ToLower(TrimSpace(s))
  }

  /** What a request has to be to survive cleanup. */
  predicate Standing(r: Request, now: int) {
    now < r.expiresAt && r.status.Pending?
  }

  function Cleanup(s: Store, now: int): Store {
    Store(map id | id in s.requests && Standing(s.requests[id], now) :: s.requests[id],
          map k | k in s.lastSeen && now - s.lastSeen[k] <= REQUEST_TTL :: s.lastSeen[k],
          map a | a in s.challenges && now < s.challenges[a].expireAt :: s.challenges[a])
  }

  /** The rate check: each key in turn is stamped unless it was stamped too
      recently, in which case the keys before it keep their new stamps. */
  function StampAll(seen: map<RateKey, int>, keys: seq<RateKey>, now: int): (map<RateKey, int>, bool)
    decreases |keys|
  {
    if keys == [] then (seen, true)
    else if keys[0] in seen && now - seen[keys[0]] < COOLDOWN then (seen, false)
    else StampAll(seen[keys[0] := now], keys[1..], now)
  }

  function RateKeys(email: string, ip: string): seq<RateKey> {
    [EmailKey(Normalized(email)), IpKey(Normalized(ip))]
  }

  predicate PendingFor(s: Store, user: int) {
    exists id :: id in s.requests && s.requests[id].userId == user && s.requests[id].status.Pending?
  }

  datatype Created =
    | EmailRequired
    | RateLimited
    | AlreadyPending
    | Ignored
    | Registered(request: Request)

  /** CreateRecoveryRequest, with the account lookup and the drawn id given. */
  function Create(s: Store, now: int, email: string, ip: string, guest: string, user: Option<int>, id: string)
    : (Store, Created)
  {
    if Normalized(email) == "" then (s, EmailRequired)
    else
      var c := Cleanup(s, now);
      if user.Some? && PendingFor(c, user.value) then (c, AlreadyPending)
      else
        var (seen, passed) := StampAll(c.lastSeen, RateKeys(email, ip), now);
        if !passed then (c.(lastSeen := seen), RateLimited)
        else if user.None? then (c.(lastSeen := seen), Ignored)
        else
          var r := Request(id, Normalized(email), user.value, Pending, TrimSpace(guest), now, now + REQUEST_TTL);
          (c.(lastSeen := seen, requests := c.requests[id := r]), Registered(r))
  }

  datatype Found = NotFound | TooLate | Got(request: Request)

  function Get(s: Store, now: int, id: string): (Store, Found) {
    var c := Cleanup(s, now);
    if id !in c.requests then (c, NotFound)
    else if now >= c.requests[id].expiresAt then (c.(requests := c.requests - {id}), TooLate)
    else (c, Got(c.requests[id]))
  }

  function Resolve(s: Store, now: int, id: string, status: Status): (Store, Found) {
    var c := Cleanup(s, now);
    if id !in c.requests then (c, NotFound)
    else if now >= c.requests[id].expiresAt then (c.(requests := c.requests - {id}), TooLate)
    else (c.(requests := c.requests - {id}), Got(c.requests[id].(status := status)))
  }

  predicate OfSession(r: Request, session: string) {
    r.guestSession == session && r.status.Pending?
  }

  function ExpireSession(s: Store, session: string): Store {
    if TrimSpace(session) == "" then s
    else s.(requests := map id | id in s.requests && !OfSession(s.requests[id], TrimSpace(session)) :: s.requests[id])
  }

  function Consume(s: Store, actor: int, key: string): Store {
    if actor in s.challenges && s.challenges[actor].key == key then s.(challenges := s.challenges - {actor}) else s
  }

  /** The requests left, and those taken out, when the ids in todo are still to
      be looked at. */
  function Unexpired(before: map<string, Request>, todo: set<string>, session: string): map<string, Request> {
    map id | id in before && (id in todo || !OfSession(before[id], session)) :: before[id]
  }

  function TakenOut(before: map<string, Request>, todo: set<string>, session: string): map<string, Request> {
    map id | id in before && id !in todo && OfSession(before[id], session) :: before[id].(status := Expired)
  }

  lemma TakeOut(before: map<string, Request>, todo: set<string>, session: string, id: string)
    requires id in before && id in todo
    ensures id in Unexpired(before, todo, session) && Unexpired(before, todo, session)[id] == before[id]
    ensures OfSession(before[id], session) ==>
      && Unexpired(before, todo - {id}, session) == Unexpired(before, todo, session) - {id}
      && TakenOut(before, todo - {id}, session) == TakenOut(before, todo, session)[id := before[id].(status := Expired)]
    ensures !OfSession(before[id], session) ==>
      && Unexpired(before, todo - {id}, session) == Unexpired(before, todo, session)
      && TakenOut(before, todo - {id}, session) == TakenOut(before, todo, session)
  {
  }

  lemma TakeOutEnds(before: map<string, Request>, session: string)
    ensures Unexpired(before, before.Keys, session) == before && TakenOut(before, before.Keys, session) == map[]
    ensures Unexpired(before, {}, session) == map id | id in before && !OfSession(before[id], session) :: before[id]
  {
  }

  predicate NewestFirst(list: seq<Request>) {
    forall i, j | 0 <= i < j < |list| :: list[i].createdAt >= list[j].createdAt
  }

  lemma InsertedInOrder(sorted: seq<Request>, r: Request, p: nat)
    requires NewestFirst(sorted) && p <= |sorted| && (forall q | 0 <= q < p :: sorted[q].createdAt >= r.createdAt)
    requires p < |sorted| ==> sorted[p].createdAt < r.createdAt
    ensures NewestFirst(sorted[..p] + [r] + sorted[p..])
  {
    var longer := sorted[..p] + [r] + sorted[p..];
    forall i, j | 0 <= i < j < |longer| ensures longer[i].createdAt >= longer[j].createdAt {
      assert longer[i] == if i < p then sorted[i] else if i == p then r else sorted[i - 1];
      assert longer[j] == if j < p then sorted[j] else if j == p then r else sorted[j - 1];
    }
  }

  lemma InsertedOnce(sorted: seq<Request>, r: Request, p: nat)
    requires p <= |sorted|
    ensures multiset(sorted[..p] + [r] + sorted[p..]) == multiset(sorted) + multiset{r}
  {
    assert sorted == sorted[..p] + sorted[p..];
  }

  method Insert(sorted: seq<Request>, r: Request) returns (longer: seq<Request>)
    requires NewestFirst(sorted)
    ensures NewestFirst(longer) && multiset(longer) == multiset(sorted) + multiset{r}
  {
    hide NewestFirst;
    var p := 0;
    while p < |sorted| && sorted[p].createdAt >= r.createdAt
      invariant 0 <= p <= |sorted|
      invariant forall q | 0 <= q < p :: sorted[q].createdAt >= r.createdAt
    {
      p := p + 1;
    }
    InsertedInOrder(sorted, r, p);
    InsertedOnce(sorted, r, p);
    longer := sorted[..p] + [r] + sorted[p..];
  }

  /** sort.Slice on the creation times. */
  method SortNewestFirst(list: seq<Request>) returns (sorted: seq<Request>)
    ensures NewestFirst(sorted) && multiset(sorted) == multiset(list)
  {
    sorted := [];
    var i := 0;
    while i < |list|
      invariant 0 <= i <= |list|
      invariant NewestFirst(sorted) && multiset(sorted) == multiset(list[..i])
    {
      assert list[..i + 1] == list[..i] + [list[i]];
      sorted := Insert(sorted, list[i]);
      i := i + 1;
    }
    assert list[..i] == list;
  }

  /** The service object. */
  class Service {
    var requests: map<string, Request>
    var lastSeen: map<RateKey, int>
    var challenges: map<int, Challenge>

    function State(): Store
      reads this
    {
      Store(requests, lastSeen, challenges)
    }

    constructor ()
      ensures State() == Empty
    {
      requests, lastSeen, challenges := map[], map[], map[];
    }

    method CleanupRequests(now: int)
      modifies this`requests
      ensures requests == Cleanup(old(State()), now).requests
    {
      var ids := requests.Keys;
      while ids != {}
        invariant ids <= old(requests).Keys
        invariant requests == map id | id in old(requests) && (id in ids || Standing(old(requests)[id], now)) ::
                  old(requests)[id]
        decreases ids
      {
        var id :| id in ids;
        if now >= requests[id].expiresAt || !requests[id].status.Pending? {
          requests := requests - {id};
        }
        ids := ids - {id};
      }
    }

    method CleanupStamps(now: int)
      modifies this`lastSeen
      ensures lastSeen == Cleanup(old(State()), now).lastSeen
    {
      var keys := lastSeen.Keys;
      while keys != {}
        invariant keys <= old(lastSeen).Keys
        invariant lastSeen == map k | k in old(lastSeen) && (k in keys || now - old(lastSeen)[k] <= REQUEST_TTL) ::
                  old(lastSeen)[k]
        decreases keys
      {
        var key :| key in keys;
        if now - lastSeen[key] > REQUEST_TTL {
          lastSeen := lastSeen - {key};
        }
        keys := keys - {key};
      }
    }

    method CleanupChallenges(now: int)
      modifies this`challenges
      ensures challenges == Cleanup(old(State()), now).challenges
    {
      var actors := challenges.Keys;
      while actors != {}
        invariant actors <= old(challenges).Keys
        invariant challenges == map a | a in old(challenges) && (a in actors || now < old(challenges)[a].expireAt) ::
                  old(challenges)[a]
        decreases actors
      {
        var actor := Any(actors);
        if now >= challenges[actor].expireAt {
          challenges := challenges - {actor};
        }
        actors := actors - {actor};
      }
    }

    /** Three loops, each deleting from the map it goes through. */
    method CleanupRecoveryRequests(now: int)
      modifies this
      ensures State() == Cleanup(old(State()), now)
    {
      CleanupRequests(now);
      CleanupStamps(now);
      CleanupChallenges(now);
    }

    /** The loop over the two rate keys, which both branches run. */
    method StampKeys(email: string, ip: string, now: int) returns (passed: bool)
      modifies this`lastSeen
      ensures (lastSeen, passed) == StampAll(old(lastSeen), RateKeys(email, ip), now)
    {
      var keys := RateKeys(email, ip);
      var i := 0;
      assert keys[0..] == keys;
      while i < |keys|
        invariant 0 <= i <= |keys|
        invariant StampAll(old(lastSeen), keys, now) == StampAll(lastSeen, keys[i..], now)
      {
        assert keys[i..][1..] == keys[i + 1..];
        if keys[i] in lastSeen && now - lastSeen[keys[i]] < COOLDOWN {
          return false;
        }
        lastSeen := lastSeen[keys[i] := now];
        i := i + 1;
      }
      return true;
    }

    method FindPending(user: int) returns (found: Option<Request>)
      ensures found.Some? <==> PendingFor(State(), user)
      ensures found.Some? ==>
              found.value in requests.Values && found.value.userId == user && found.value.status.Pending?
    {
      var ids := requests.Keys;
      while ids != {}
        invariant ids <= requests.Keys
        invariant forall id | id in requests && requests[id].userId == user && requests[id].status.Pending? :: id in ids
        decreases ids
      {
        var id :| id in ids;
        if requests[id].userId == user && requests[id].status.Pending? {
          assert PendingFor(State(), user);
          return Some(requests[id]);
        }
        ids := ids - {id};
      }
      return None;
    }

    /** existing is the caller's copy when a request is already pending. */
    method CreateRecoveryRequest(now: int, email: string, ip: string, guest: string, user: Option<int>, id: string)
      returns (created: Created, existing: Option<Request>)
      modifies this
      ensures (State(), created) == Create(old(State()), now, email, ip, guest, user, id)
      ensures existing.Some? <==> created.AlreadyPending?
      ensures existing.Some? ==> existing.value in requests.Values && existing.value.userId == user.value
    {
      existing := None;
      var normalized := Normalized(email);
      if normalized == "" { return EmailRequired, None; }
      CleanupRecoveryRequests(now);
      if user.None? {
        var allowed := StampKeys(email, ip, now);
        return if allowed then Ignored else RateLimited, None;
      }
      existing := FindPending(user.value);
      if existing.Some? { return AlreadyPending, existing; }
      var passed := StampKeys(email, ip, now);
      if !passed { return RateLimited, None; }
      var r := Request(id, normalized, user.value, Pending, TrimSpace(guest), now, now + REQUEST_TTL);
      requests := requests[id := r];
      return Registered(r), None;
    }

    /** All that is left after a cleanup, the newest first. */
    method ListRecoveryRequests(now: int) returns (list: seq<Request>)
      modifies this
      ensures State() == Cleanup(old(State()), now)
      ensures |list| == |requests| && NewestFirst(list) && forall r :: r in list <==> r in requests.Values
    {
      CleanupRecoveryRequests(now);
      var all: seq<Request> := [];
      var todo := requests.Keys;
      while todo != {}
        invariant State() == Cleanup(old(State()), now)
        invariant todo <= requests.Keys && |all| == |requests| - |todo|
        invariant forall r :: r in all <==> exists id :: id in requests && id !in todo && requests[id] == r
        decreases |todo|
      {
        var id := Any(todo);
        ghost var before := all;
        all := all + [requests[id]];
        forall r ensures r in all <==> r in before || r == requests[id] {}
        todo := todo - {id};
      }
      list := SortNewestFirst(all);
      forall r ensures r in list <==> r in all { assert r in multiset(list) <==> r in multiset(all); }
      assert multiset(list) == multiset(all) && |multiset(list)| == |multiset(all)|;
    }

    method GetRecoveryRequest(now: int, id: string) returns (found: Found)
      modifies this
      ensures (State(), found) == Get(old(State()), now, id)
    {
      CleanupRecoveryRequests(now);
      if id !in requests { return NotFound; }
      var r := requests[id];
      var late := now >= r.expiresAt;
      requests := if late then requests - {id} else requests;
      return if late then TooLate else Got(r);
    }

    method ResolveRecoveryRequest(now: int, id: string, status: Status) returns (found: Found)
      modifies this
      ensures (State(), found) == Resolve(old(State()), now, id, status)
    {
      CleanupRecoveryRequests(now);
      if id !in requests { return NotFound; }
      var r := requests[id];
      var late := now >= r.expiresAt;
      requests := requests - {id};
      return if late then TooLate else Got(r.(status := status));
    }

    /** The requests that expire are exactly the session's pending ones. */
    method ExpireRecoveryRequestsByGuestSession(session: string) returns (expired: map<string, Request>)
      modifies this`requests
      ensures State() == ExpireSession(old(State()), session)
      ensures TrimSpace(session) == "" ==> expired == map[]
      ensures TrimSpace(session) != "" ==>
        expired == TakenOut(old(requests), {}, TrimSpace(session))
    {
      hide Unexpired, TakenOut, OfSession, TrimSpace;
      var trimmed := TrimSpace(session);
      expired := map[];
      if trimmed == "" { return; }
      ghost var before := requests;
      TakeOutEnds(before, trimmed);
      assert State() == old(State());
      var ids := requests.Keys;
      while ids != {}
        invariant ids <= before.Keys
        invariant requests == Unexpired(before, ids, trimmed) && expired == TakenOut(before, ids, trimmed)
        decreases ids
      {
        var id :| id in ids;
        TakeOut(before, ids, trimmed, id);
        if OfSession(requests[id], trimmed) {
          expired := expired[id := requests[id].(status := Expired)];
          requests := requests - {id};
        }
        ids := ids - {id};
      }
    }

    method ConsumeRecoveryResolutionChallenge(actor: int, key: string)
      modifies this`challenges
      ensures State() == Consume(old(State()), actor, key)
    {
      if actor in challenges && challenges[actor].key == key {
        challenges := challenges - {actor};
      }
    }
  }
}
