/** The three-tier limiter: jail, trusted citizens, purgatory. */
module RateLimit {
  import opened Redis

  const JAIL_TTL := 300
  const TRUSTED_TTL := 86400
  const TRUSTED_LIMIT := 1500
  const BASE_LIMIT := 256
  const PENALTY_FACTOR: real := 0.10
  const MIN_FLOOR := 60
  const GRADUATION_REQUESTS := 1280
  const GRADUATION_WINDOW := 600
  const COUNTER_WINDOW := 60

  /** What the second-factor check says about the caller: no claim to a bypass,
      allowed to try one, or already granted one. */
  datatype Totp = Ineligible | Eligible | Granted

  datatype Outcome =
    | Blocked(challenge: bool)
    | Bypassed
    | Citizen
    | Purgatory(graduated: bool)

  /** The IPs serving a sentence. */
  function JailedKeys(s: Store, now: int): set<Key> {
    set k | k in s && k.Jailed? && Live(s, k, now)
  }

  /** The allowance as the source writes it, over the reals. */
  function Allowance(jailed: nat): int {
    var allowance := (BASE_LIMIT as real) / (1.0 + (jailed as real) * PENALTY_FACTOR);
    if allowance.Floor < MIN_FLOOR then MIN_FLOOR else allowance.Floor
  }

  /** The same allowance in integers: it starts at 256, never grows with the
      jail, and bottoms out at 60. */
  lemma AllowanceExact(jailed: nat)
    ensures Allowance(jailed) == if 2560 / (10 + jailed) < 60 then 60 else 2560 / (10 + jailed)
    ensures 60 <= Allowance(jailed) <= 256
    ensures jailed >= 12 ==> Allowance(jailed) <= 116
  {
    var d := 10 + jailed;
    assert 1.0 + (jailed as real) * PENALTY_FACTOR == (d as real) / 10.0;
    ScaleQuotient(d as real);
    FloorOfQuotient(2560, d);
    var q := 2560 / d;
    DivBounds(2560, d);
    if q > 256 { Times(257, q, d); }
    if jailed >= 12 && q > 116 { Times(117, q, d); }
  }

  lemma ScaleQuotient(x: real)
    requires x > 0.0
    ensures 256.0 / (x / 10.0) == 2560.0 / x
  {
    var y := 256.0 / (x / 10.0);
    assert y * (x / 10.0) == 256.0;
    assert y * x == 2560.0;
  }

  lemma Times(a: nat, b: nat, d: nat)
    requires a <= b
    ensures a * d <= b * d
  {
  }

  lemma DivBounds(n: nat, d: int)
    requires d > 0
    ensures 0 <= n / d && (n / d) * d <= n < (n / d + 1) * d
  {
    assert n == (n / d) * d + n % d;
  }

  lemma FloorOfQuotient(n: nat, d: int)
    requires d > 0
    ensures ((n as real) / (d as real)).Floor == n / d
  {
    var a, x, q := (n as real) / (d as real), d as real, n / d;
    DivBounds(n, d);
    assert a * x == n as real;
    assert (q as real) * x == (q * d) as real;
    assert ((q + 1) as real) * x == ((q + 1) * d) as real;
    assert q as real <= a by { if a < q as real { LessTimes(a, q as real, x); } }
    assert a < (q + 1) as real by { if a >= (q + 1) as real { LessTimes((q + 1) as real, a, x); } }
  }

  lemma LessTimes(a: real, b: real, x: real)
    requires a <= b && x > 0.0
    ensures a * x <= b * x
    ensures a < b ==> a * x < b * x
  {
  }

  /** The pipeline of JailIP: SET NX, DEL history, DEL counter. */
  function JailWrites(s: Store, now: int, ip: Ip): Store {
    Del(Del(SetNx(s, Jailed(ip), 1, now, JAIL_TTL), History(ip)), Counter(ip))
  }

  /** The pipeline of PromoteToTrusted. */
  function PromoteWrites(s: Store, now: int, ip: Ip): Store {
    Del(Del(Set(s, Trusted(ip), 1, now, TRUSTED_TTL), History(ip)), Counter(ip))
  }

  /** ResetDEFCON: every live jail, history and counter key goes. */
  function ResetWrites(s: Store, now: int): Store {
    map k | k in s && (k.Trusted? || !Live(s, k, now)) :: s[k]
  }

  /** The key patterns ResetDEFCON goes through, in order. */
  predicate Matches(pattern: int, k: Key) {
    match pattern
    case 0 => k.Jailed?
    case 1 => k.History?
    case _ => k.Counter?
  }

  /** A request over its limit: the second factor may still let it through;
      otherwise the IP goes to jail. */
  function OverLimit(s: Store, now: int, ip: Ip, totp: Totp): (Store, Outcome) {
    match totp
    case Granted => (s, Bypassed)
    case Eligible => (s, Blocked(true))
    case Ineligible => (JailWrites(s, now, ip), Blocked(false))
  }

  /** A request within its allowance: one more clean request, and perhaps a
      promotion. */
  function CleanRequest(s: Store, now: int, ip: Ip): (Store, Outcome) {
    var s' := IncrExpire(s, History(ip), now, GRADUATION_WINDOW);
    if Value(s', History(ip), now) >= GRADUATION_REQUESTS
    then (PromoteWrites(s', now, ip), Purgatory(true))
    else (s', Purgatory(false))
  }

  /** One request, handled at one instant. */
  function Handle(s: Store, now: int, ip: Ip, totp: Totp): (Store, Outcome) {
    if Live(s, Jailed(ip), now) then
      (s, if totp.Granted? then Bypassed else Blocked(totp.Eligible?))
    else if Live(s, Trusted(ip), now) then
      var s' := IncrExpire(GetEx(s, Trusted(ip), now, TRUSTED_TTL), Counter(ip), now, COUNTER_WINDOW);
      if Value(s', Counter(ip), now) > TRUSTED_LIMIT then OverLimit(s', now, ip, totp) else (s', Citizen)
    else
      var s' := IncrExpire(s, Counter(ip), now, COUNTER_WINDOW);
      if Value(s', Counter(ip), now) > Allowance(|JailedKeys(s, now)|)
      then OverLimit(s', now, ip, totp)
      else CleanRequest(s', now, ip)
  }

  /** The limiter with its shared store, one method per operation. */
  class Limiter {
    var store: Store
    var now: int

    constructor (clock: int)
      ensures store == map[] && now == clock
    {
      store, now := map[], clock;
    }

    method IsJailed(ip: Ip) returns (jailed: bool)
      ensures jailed == Live(store, Jailed(ip), now)
    {
      var ttl := TtlReply(store, Jailed(ip), now);
      jailed := ttl > 0;
    }

    method JailIP(ip: Ip) returns (count: nat)
      modifies this`store
      ensures store == JailWrites(old(store), now, ip)
      ensures count == |JailedKeys(store, now)|
    {
      store := SetNx(store, Jailed(ip), 1, now, JAIL_TTL);
      store := Del(store, History(ip));
      store := Del(store, Counter(ip));
      count := JailedCount();
    }

    /** SCAN hands the keys over in pages; the count is the size of the jail
        however the pages fall. */
    method JailedCount() returns (count: nat)
      ensures count == |JailedKeys(store, now)|
    {
      count := 0;
      var remaining := JailedKeys(store, now);
      while remaining != {}
        invariant remaining <= JailedKeys(store, now)
        invariant count == |JailedKeys(store, now) - remaining|
        decreases remaining
      {
        var key :| key in remaining;
        var page: set<Key> :| key in page && page <= remaining;
        assert JailedKeys(store, now) - (remaining - page) == (JailedKeys(store, now) - remaining) + page;
        count := count + |page|;
        remaining := remaining - page;
      }
      assert JailedKeys(store, now) - remaining == JailedKeys(store, now);
    }

    /** Three passes, one per key pattern, each deleting page by page. */
    method ResetDEFCON()
      modifies this`store
      ensures store == ResetWrites(old(store), now)
    {
      ghost var before := store;
      for i := 0 to 3
        invariant store == map k | k in before &&
          (!Live(before, k, now) || forall j :: 0 <= j < i ==> !Matches(j, k)) :: before[k]
      {
        ghost var entered := store;
        var remaining := set k | k in store && Matches(i, k) && Live(store, k, now);
        ghost var matched := remaining;
        while remaining != {}
          invariant remaining <= matched
          invariant store == entered - (matched - remaining)
          decreases remaining
        {
          var key :| key in remaining;
          var page: set<Key> :| key in page && page <= remaining;
          store := store - page;
          remaining := remaining - page;
        }
      }
      assert forall k: Key :: k.Trusted? <==> !Matches(0, k) && !Matches(1, k) && !Matches(2, k);
    }

    method IsTrusted(ip: Ip) returns (trusted: bool)
      modifies this`store
      ensures trusted == Live(old(store), Trusted(ip), now)
      ensures store == GetEx(old(store), Trusted(ip), now, TRUSTED_TTL)
    {
      trusted := Live(store, Trusted(ip), now);
      store := GetEx(store, Trusted(ip), now, TRUSTED_TTL);
    }

    method PromoteToTrusted(ip: Ip)
      modifies this`store
      ensures store == PromoteWrites(old(store), now, ip)
    {
      store := Set(store, Trusted(ip), 1, now, TRUSTED_TTL);
      store := Del(store, History(ip));
      store := Del(store, Counter(ip));
    }

    method AdaptiveAllowance() returns (allowance: int)
      ensures allowance == Allowance(|JailedKeys(store, now)|)
      ensures MIN_FLOOR <= allowance <= BASE_LIMIT
    {
      var jailed := JailedCount();
      AllowanceExact(jailed);
      allowance := Allowance(jailed);
    }

    method CheckAndCount(ip: Ip, limit: int) returns (count: int, over: bool)
      modifies this`store
      ensures store == IncrExpire(old(store), Counter(ip), now, COUNTER_WINDOW)
      ensures count == Value(store, Counter(ip), now) == Value(old(store), Counter(ip), now) + 1
      ensures over <==> count > limit
    {
      store := IncrExpire(store, Counter(ip), now, COUNTER_WINDOW);
      count := Value(store, Counter(ip), now);
      over := count > limit;
    }

    method RecordCleanRequest(ip: Ip) returns (graduated: bool)
      modifies this`store
      ensures store == IncrExpire(old(store), History(ip), now, GRADUATION_WINDOW)
      ensures graduated <==> Value(old(store), History(ip), now) + 1 >= GRADUATION_REQUESTS
    {
      store := IncrExpire(store, History(ip), now, GRADUATION_WINDOW);
      graduated := Value(store, History(ip), now) >= GRADUATION_REQUESTS;
    }

    /** What both tiers do with a request over its limit. */
    method RefuseOrJail(ip: Ip, totp: Totp) returns (outcome: Outcome)
      modifies this`store
      ensures (store, outcome) == OverLimit(old(store), now, ip, totp)
    {
      if totp.Granted? { return Bypassed; }
      if totp.Eligible? { return Blocked(true); }
      var _ := JailIP(ip);
      return Blocked(false);
    }

    /** DEFCONRateLimit: jail, trusted, purgatory, graduation, in that order. */
    method DEFCONRateLimit(ip: Ip, totp: Totp) returns (outcome: Outcome)
      modifies this`store
      ensures (store, outcome) == Handle(old(store), now, ip, totp)
    {
      var jailed := IsJailed(ip);
      if jailed {
        if totp.Granted? { return Bypassed; }
        return Blocked(totp.Eligible?);
      }
      var trusted := IsTrusted(ip);
      if trusted {
        var _, overLimit := CheckAndCount(ip, TRUSTED_LIMIT);
        if overLimit {
          outcome := RefuseOrJail(ip, totp);
          return;
        }
        return Citizen;
      }
      var allowance := AdaptiveAllowance();
      var _, over := CheckAndCount(ip, allowance);
      if over {
        outcome := RefuseOrJail(ip, totp);
        return;
      }
      var graduated := RecordCleanRequest(ip);
      if graduated {
        PromoteToTrusted(ip);
      }
      return Purgatory(graduated);
    }
  }
}
