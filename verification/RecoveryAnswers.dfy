/** The answers of the recovery store, in plain times and in terms of the requests and
    stamps it held before. */
module RecoveryAnswers {
  import opened GoStrings
  import opened RecoveryStore

  // Nanoseconds.
  const TWO_MINUTES := 120_000_000_000
  const HALF_AN_HOUR := 1_800_000_000_000

  /** The request is still to be decided at this moment. */
  predicate IsOpen(s: Store, id: string, now: int) {
    id in s.requests && s.requests[id].status == Pending && now < s.requests[id].expiresAt
  }

  predicate HasOpen(s: Store, user: int, now: int) {
    exists id | id in s.requests :: IsOpen(s, id, now) && s.requests[id].userId == user
  }

  /** This email or address was seen less than two minutes before. */
  predicate SeenLately(s: Store, k: RateKey, now: int) {
    k in s.lastSeen && now - s.lastSeen[k] < TWO_MINUTES
  }

  function Folded(s: string): string {
    ToLower(TrimSpace(s))
  }

  lemma CleanedIs(s: Store, now: int)
    ensures var c := Cleanup(s, now);
            && (forall id :: id in c.requests <==> IsOpen(s, id, now))
            && (forall id | id in c.requests :: c.requests[id] == s.requests[id])
            && (forall k :: SeenLately(c, k, now) <==> SeenLately(s, k, now))
  {
  }

  lemma TwoKeys(seen: map<RateKey, int>, a: RateKey, b: RateKey, now: int)
    requires a != b
    ensures StampAll(seen, [a, b], now)
         == if a in seen && now - seen[a] < COOLDOWN then (seen, false)
            else if b in seen && now - seen[b] < COOLDOWN then (seen[a := now], false)
            else (seen[a := now][b := now], true)
  {
    assert [a, b][1..] == [b] && [b][1..] == [];
    var seen1 := seen[a := now];
    assert StampAll(seen1[b := now], [], now) == (seen1[b := now], true);
    assert StampAll(seen1, [b], now) ==
      if b in seen1 && now - seen1[b] < COOLDOWN then (seen1, false) else (seen1[b := now], true);
  }

  /** What a call for recovery is answered: refused without an email, while a request
      of the account is open, and while its email or address was seen in the last two
      minutes, in that order; silently ignored without an account; and else registered. */
  lemma CreateAnswers(s: Store, now: int, email: string, ip: string, guest: string, user: Option<int>, id: string)
    ensures var r := Create(s, now, email, ip, guest, user, id).1;
            var already := user.Some? && HasOpen(s, user.value, now);
            var lately := SeenLately(s, EmailKey(Folded(email)), now) || SeenLately(s, IpKey(Folded(ip)), now);
            && (r.EmailRequired? <==> Blank(email))
            && (r.AlreadyPending? <==> !Blank(email) && already)
            && (r.RateLimited? <==> !Blank(email) && !already && lately)
            && (r.Ignored? <==> !Blank(email) && !already && !lately && user.None?)
            && (r.Registered? <==> !Blank(email) && !already && !lately && user.Some?)
  {
    BlankIsEmpty(email);
    hide TrimSpace, ToLower, Cleanup;
    CleanedIs(s, now);
    var c := Cleanup(s, now);
    assert user.Some? ==> (PendingFor(c, user.value) <==> HasOpen(s, user.value, now)) by {
      if user.Some? { SameOpen(s, user.value, now); }
    }
    TwoKeys(c.lastSeen, EmailKey(Folded(email)), IpKey(Folded(ip)), now);
    hide IsOpen, HasOpen;
  }

  lemma BlankIsEmpty(email: string)
    ensures Folded(email) == "" <==> Blank(email)
  {
    hide Blank;
  }

  lemma SameOpen(s: Store, user: int, now: int)
    ensures PendingFor(Cleanup(s, now), user) <==> HasOpen(s, user, now)
  {
    var c := Cleanup(s, now);
    if PendingFor(c, user) {
      var id :| id in c.requests && c.requests[id].userId == user && c.requests[id].status.Pending?;
      assert IsOpen(s, id, now);
    }
    if HasOpen(s, user, now) {
      var id :| id in s.requests && IsOpen(s, id, now) && s.requests[id].userId == user;
      assert id in c.requests;
    }
  }

  /** What it leaves behind: a registered request is pending for half an hour, under its
      own id, with the folded email and the trimmed session; all open requests stay. The
      email is stamped by every call that is not refused for it, the address only by one
      that is let through. */
  lemma CreateLeaves(s: Store, now: int, email: string, ip: string, guest: string, user: Option<int>, id: string)
    requires !IsOpen(s, id, now)
    ensures var (after, r) := Create(s, now, email, ip, guest, user, id);
            var emailKey, ipKey := EmailKey(Folded(email)), IpKey(Folded(ip));
            && (r.Registered? ==>
                  && id in after.requests && after.requests[id] == r.request
                  && r.request == Request(id, Folded(email), user.value, Pending, TrimSpace(guest), now,
                                          now + HALF_AN_HOUR))
            && (forall other | IsOpen(s, other, now) ::
                other in after.requests && after.requests[other] == s.requests[other])
            && (!r.EmailRequired? ==> forall other | other in after.requests ::
                IsOpen(s, other, now) || (r.Registered? && other == id))
            && (r.Registered? || r.Ignored? ==>
                  && emailKey in after.lastSeen && after.lastSeen[emailKey] == now
                  && ipKey in after.lastSeen && after.lastSeen[ipKey] == now)
            && (r.RateLimited? && !SeenLately(s, emailKey, now) ==>
                  emailKey in after.lastSeen && after.lastSeen[emailKey] == now)
            && (r.RateLimited? && ipKey in after.lastSeen ==>
                ipKey in s.lastSeen && after.lastSeen[ipKey] == s.lastSeen[ipKey])
  {
    hide TrimSpace, ToLower, PendingFor;
    CleanedIs(s, now);
    TwoKeys(Cleanup(s, now).lastSeen, EmailKey(Folded(email)), IpKey(Folded(ip)), now);
    hide StampAll;
  }

  /** A request is found, and resolved, exactly while it is open; a resolved one is gone
      and comes back with its new status, and every other open one stays. */
  lemma ResolveAnswers(s: Store, now: int, id: string, status: Status)
    ensures var (after, found) := Resolve(s, now, id, status);
            && (found.Got? <==> IsOpen(s, id, now)) && (found.Got? || found.NotFound?)
            && (found.Got? ==> found.request == s.requests[id].(status := status))
            && (forall other :: other in after.requests <==> IsOpen(s, other, now) && other != id)
            && (forall other | other in after.requests :: after.requests[other] == s.requests[other])
    ensures var (after, found) := Get(s, now, id);
            && (found.Got? <==> IsOpen(s, id, now)) && (found.Got? ==> found.request == s.requests[id])
            && (forall other :: other in after.requests <==> IsOpen(s, other, now))
  {
  }

  /** Leaving a session expires its pending requests and no others. */
  lemma ExpireAnswers(s: Store, session: string, id: string)
    ensures id in ExpireSession(s, session).requests
            <==> id in s.requests && !(!Blank(session) && s.requests[id].status == Pending
                                       && s.requests[id].guestSession == TrimSpace(session))
  {
    hide Blank;
  }

  /** A challenge is forgotten exactly by its own actor with its own key. */
  lemma ConsumeAnswers(s: Store, actor: int, key: string, other: int)
    ensures other in Consume(s, actor, key).challenges
            <==> other in s.challenges && !(other == actor && s.challenges[other].key == key)
    ensures Consume(s, actor, key).requests == s.requests && Consume(s, actor, key).lastSeen == s.lastSeen
  {
  }
}
