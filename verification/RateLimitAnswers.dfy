/** Who is let through, for how long, and at what count: the answers of the limiter
    in plain numbers. */
module RateLimitAnswers {
  import opened GoStrings
  import opened Redis
  import opened RateLimit
  import opened RateLimitRuns
  import I = RateLimitInterleaving

  /** There is an unexpired key. */
  predicate Has(s: Store, k: Key, now: int) {
    k in s && s[k].expireAt > now
  }

  /** What a counting key stands at. */
  function Count(s: Store, k: Key, now: int): int {
    if Has(s, k, now) then s[k].value else 0
  }

  function JailSize(s: Store, now: int): nat {
    |set k | k in s && k.Jailed? && s[k].expireAt > now|
  }

  /** The most requests an IP may make in a minute, at this moment. */
  function Limit(s: Store, now: int, ip: Ip): int {
    if Has(s, Trusted(ip), now) then 1500
    else if 2560 / (10 + JailSize(s, now)) < 60 then 60
    else 2560 / (10 + JailSize(s, now))
  }

  /** This request would be one too many. */
  predicate Over(s: Store, now: int, ip: Ip) {
    Count(s, Counter(ip), now) + 1 > Limit(s, now, ip)
  }

  lemma LimitIs(s: Store, now: int, ip: Ip)
    ensures Over(s, now, ip) <==>
            Value(s, Counter(ip), now) + 1 > if Live(s, Trusted(ip), now) then TRUSTED_LIMIT
              else Allowance(|JailedKeys(s, now)|)
    ensures Has(s, Jailed(ip), now) == Live(s, Jailed(ip), now) && Has(s, Trusted(ip), now) == Live(s, Trusted(ip), now)
    ensures forall k :: Count(s, k, now) == Value(s, k, now)
  {
    hide Allowance;
    AllowanceExact(|JailedKeys(s, now)|);
    assert JailedKeys(s, now) == set k | k in s && k.Jailed? && s[k].expireAt > now;
  }

  /** The tier that answers, and what it answers. A jailed IP is refused, unless its
      second factor was granted, and nothing is written. Below the limit the request
      goes through, as a citizen's exactly if the IP is trusted. Over it, it goes
      through with a granted second factor only. */
  lemma WhoIsLetThrough(s: Store, now: int, ip: Ip, totp: Totp)
    ensures var (after, outcome) := Handle(s, now, ip, totp);
            var jailed, trusted := Has(s, Jailed(ip), now), Has(s, Trusted(ip), now);
            && (outcome.Bypassed? <==> totp.Granted? && (jailed || Over(s, now, ip)))
            && (outcome.Blocked? <==> !totp.Granted? && (jailed || Over(s, now, ip)))
            && (outcome.Blocked? ==> (outcome.challenge <==> totp.Eligible?))
            && (outcome.Citizen? <==> !jailed && trusted && !Over(s, now, ip))
            && (outcome.Purgatory? <==> !jailed && !trusted && !Over(s, now, ip))
            && (outcome.Purgatory? ==> (outcome.graduated <==> Count(s, History(ip), now) + 1 >= 1280))
            && (jailed ==> after == s)
  {
    LimitIs(s, now, ip);
    hide Allowance, JailedKeys, Over, Has, Count;
  }

  /** An IP is newly jailed exactly when it is over its limit and cannot claim a
      second factor: for five minutes, with its counts gone. */
  lemma WhoIsJailed(s: Store, now: int, ip: Ip, totp: Totp)
    requires !Has(s, Jailed(ip), now)
    ensures var after := Handle(s, now, ip, totp).0;
            && (Has(after, Jailed(ip), now) <==> Over(s, now, ip) && totp.Ineligible?)
            && (Has(after, Jailed(ip), now) ==>
                  after[Jailed(ip)].expireAt == now + 300 && Counter(ip) !in after && History(ip) !in after)
  {
    LimitIs(s, now, ip);
    hide Allowance, JailedKeys, Over, Count;
  }

  /** A key counts up within a fixed window from its first count. */
  predicate CountsUp(s: Store, after: Store, k: Key, now: int, window: int) {
    && k in after && after[k].value == Count(s, k, now) + 1
    && after[k].expireAt == if Has(s, k, now) then s[k].expireAt else now + window
  }

  /** What a request that is not of a jailed IP counts: itself, in a window of a
      minute, whatever its answer, unless the counts are dropped; and a forwarded
      one of an untrusted IP as clean, in a window of ten. */
  lemma WhatIsCounted(s: Store, now: int, ip: Ip, totp: Totp)
    requires !Has(s, Jailed(ip), now)
    requires forall k | k in {Counter(ip), History(ip)} && Has(s, k, now) :: s[k].value >= 1
    ensures var (after, outcome) := Handle(s, now, ip, totp);
            && (!Has(after, Jailed(ip), now) && outcome != Purgatory(true) ==> CountsUp(s, after, Counter(ip), now, 60))
            && (outcome == Purgatory(false) ==> CountsUp(s, after, History(ip), now, 600))
            && (!outcome.Purgatory? && !Has(after, Jailed(ip), now) ==>
                  (History(ip) in after <==> History(ip) in s)
                    && (History(ip) in s ==> after[History(ip)] == s[History(ip)]))
  {
    LimitIs(s, now, ip);
    hide Allowance, JailedKeys, Over;
  }

  /** Trust is granted with the 1280th clean request and renewed by every request of
      a trusted IP that is not jailed, each time for a day. */
  lemma WhoIsTrusted(s: Store, now: int, ip: Ip, totp: Totp)
    ensures var (after, outcome) := Handle(s, now, ip, totp);
            var renewed := !Has(s, Jailed(ip), now) && Has(s, Trusted(ip), now);
            && (Has(after, Trusted(ip), now) <==> Has(s, Trusted(ip), now) || outcome == Purgatory(true))
            && (renewed || outcome == Purgatory(true) ==> after[Trusted(ip)].expireAt == now + 86400)
            && (outcome == Purgatory(true) ==> Counter(ip) !in after && History(ip) !in after)
            && (!renewed && outcome != Purgatory(true) && Trusted(ip) in s ==>
                  Trusted(ip) in after && after[Trusted(ip)] == s[Trusted(ip)])
  {
    LimitIs(s, now, ip);
    hide Allowance, JailedKeys, Over, Count;
  }

  // ---- Over runs ----

  lemma {:induction false} RunSnoc(st: State, events: seq<Event>, e: Event)
    ensures Run(st, events + [e]) == Apply(Run(st, events), e)
    decreases |events|
  {
    if events == [] {
      assert [e][1..] == [] && [] + [e] == [e];
    } else {
      assert (events + [e])[1..] == events[1..] + [e];
      RunSnoc(Apply(st, events[0]), events[1..], e);
    }
  }

  predicate IsJailedUntil(st: State, ip: Ip, until: int) {
    Jailed(ip) in st.store && st.store[Jailed(ip)].expireAt == until
  }

  lemma JailStays(st: State, e: Event, ip: Ip, until: int)
    requires IsJailedUntil(st, ip, until) && st.now < until && !e.Reset?
    ensures IsJailedUntil(Apply(st, e), ip, until) && Apply(st, e).now >= st.now
  {
    hide Allowance, JailedKeys;
  }

  lemma {:induction false} SentenceStands(st: State, events: seq<Event>, ip: Ip, until: int)
    requires IsJailedUntil(st, ip, until) && Reset !in events && Run(st, events).now < until
    ensures IsJailedUntil(Run(st, events), ip, until) && st.now <= Run(st, events).now
    decreases |events|
  {
    hide Apply, IsJailedUntil;
    if events != [] {
      TimeRuns(Apply(st, events[0]), events[1..]);
      TimeRuns(st, [events[0]]);
      assert [events[0]][1..] == [];
      JailStays(st, events[0], ip, until);
      SentenceStands(Apply(st, events[0]), events[1..], ip, until);
    }
  }

  lemma {:induction false} TimeRuns(st: State, events: seq<Event>)
    ensures Run(st, events).now >= st.now
    decreases |events|
  {
    if events != [] { TimeRuns(Apply(st, events[0]), events[1..]); }
  }

  /** A sentence is served to the end: for five minutes after an IP was jailed, and
      whatever happens short of a reset, each of its requests is refused unless its
      second factor is granted. */
  lemma SentenceIsServed(st: State, ip: Ip, events: seq<Event>, totp: Totp)
    requires !Has(st.store, Jailed(ip), st.now) && Over(st.store, st.now, ip) && Reset !in events
    requires Run(Apply(st, Request(ip, Ineligible)), events).now < st.now + 300
    ensures var later := Run(Apply(st, Request(ip, Ineligible)), events);
            Handle(later.store, later.now, ip, totp).1
            == match totp case Granted => Bypassed case Eligible => Blocked(true) case Ineligible => Blocked(false)
  {
    WhoIsJailed(st.store, st.now, ip, Ineligible);
    var jailed := Apply(st, Request(ip, Ineligible));
    assert IsJailedUntil(jailed, ip, st.now + 300);
    SentenceStands(jailed, events, ip, st.now + 300);
    var later := Run(jailed, events);
    hide Handle, Over, Run, Apply;
    WhoIsLetThrough(later.store, later.now, ip, totp);
  }

  predicate IsTrustedUntil(st: State, ip: Ip, until: int) {
    Trusted(ip) in st.store && st.store[Trusted(ip)].expireAt >= until
  }

  lemma TrustStays(st: State, e: Event, ip: Ip, until: int)
    requires IsTrustedUntil(st, ip, until) && until <= st.now + 86400
    ensures IsTrustedUntil(Apply(st, e), ip, until)
  {
    hide Allowance, JailedKeys;
  }

  lemma {:induction false} TrustStands(st: State, events: seq<Event>, ip: Ip, until: int)
    requires IsTrustedUntil(st, ip, until) && until <= st.now + 86400
    ensures IsTrustedUntil(Run(st, events), ip, until)
    decreases |events|
  {
    hide Apply, IsTrustedUntil;
    if events != [] {
      TrustStays(st, events[0], ip, until);
      TimeRuns(st, [events[0]]);
      assert [events[0]][1..] == [];
      TrustStands(Apply(st, events[0]), events[1..], ip, until);
    }
  }

  /** Trust lasts a day: for that long after a promotion, and whatever happens, an IP
      that is not in jail and has not used up its 1500 requests of the minute is let
      through as a citizen. */
  lemma TrustIsKept(st: State, ip: Ip, events: seq<Event>, totp: Totp)
    requires Run(Apply(st, Promotion(ip)), events).now < st.now + 86400
    ensures var later := Run(Apply(st, Promotion(ip)), events);
            Handle(later.store, later.now, ip, totp).1.Citizen?
            <==> !Has(later.store, Jailed(ip), later.now) && Count(later.store, Counter(ip), later.now) < 1500
  {
    var promoted := Apply(st, Promotion(ip));
    assert IsTrustedUntil(promoted, ip, st.now + 86400);
    TrustStands(promoted, events, ip, st.now + 86400);
    var later := Run(promoted, events);
    hide Handle, Run, Apply;
    WhoIsLetThrough(later.store, later.now, ip, totp);
  }

  // ---- The steps of a request, undisturbed ----

  predicate IsDone(pc: I.Pc) {
    pc.Refused? || pc.ForwardedByBypass? || pc.ForwardedAsCitizen? || pc.ForwardedUntrusted?
  }

  lemma RequestsStay(s: I.State, id: nat, totp: Totp)
    requires id < |s.reqs|
    ensures var s' := I.StepRequest(s, id, false, totp);
            |s'.reqs| == |s.reqs| && s'.now == s.now && s'.reqs[id].ip == s.reqs[id].ip
  {
    hide Allowance, JailedKeys, IncrExpire;
  }

  /** A request that is left alone takes its steps one after the other. */
  function Alone(s: I.State, id: nat, totp: Totp, steps: nat): (end: I.State)
    requires id < |s.reqs|
    ensures |end.reqs| == |s.reqs|
    decreases steps
  {
    if steps == 0 || IsDone(s.reqs[id].pc) then s
    else
      RequestsStay(s, id, totp);
      Alone(I.StepRequest(s, id, false, totp), id, totp, steps - 1)
  }

  /** The end of a request with this store and this outcome. */
  predicate Ends(end: I.State, id: nat, result: (Store, Outcome))
    requires id < |end.reqs|
  {
    && end.store == result.0
    && match result.1
       case Blocked(_) => end.reqs[id].pc.Refused?
       case Bypassed => end.reqs[id].pc.ForwardedByBypass?
       case Citizen => end.reqs[id].pc.ForwardedAsCitizen?
       case Purgatory(_) => end.reqs[id].pc.ForwardedUntrusted?
  }

  predicate At(s: I.State, id: nat, pc: I.Pc) {
    id < |s.reqs| && s.reqs[id].pc == pc
  }

  lemma FromJailSet(s: I.State, id: nat, totp: Totp, steps: nat)
    requires At(s, id, I.JailSet) && steps >= 3
    ensures Ends(Alone(s, id, totp, steps), id, (JailWrites(s.store, s.now, s.reqs[id].ip), Blocked(false)))
  {
    hide SetNx, Del;
    var s1 := I.StepRequest(s, id, false, totp);
    var s2 := I.StepRequest(s1, id, false, totp);
    var s3 := I.StepRequest(s2, id, false, totp);
    assert Alone(s, id, totp, steps) == Alone(s1, id, totp, steps - 1);
    assert Alone(s1, id, totp, steps - 1) == Alone(s2, id, totp, steps - 2);
    assert Alone(s2, id, totp, steps - 2) == Alone(s3, id, totp, steps - 3);
  }

  lemma FromTrustSet(s: I.State, id: nat, totp: Totp, steps: nat)
    requires At(s, id, I.TrustSet) && steps >= 3
    ensures Ends(Alone(s, id, totp, steps), id, (PromoteWrites(s.store, s.now, s.reqs[id].ip), Purgatory(true)))
  {
    hide Set, Del;
    var s1 := I.StepRequest(s, id, false, totp);
    var s2 := I.StepRequest(s1, id, false, totp);
    var s3 := I.StepRequest(s2, id, false, totp);
    assert Alone(s, id, totp, steps) == Alone(s1, id, totp, steps - 1);
    assert Alone(s1, id, totp, steps - 1) == Alone(s2, id, totp, steps - 2);
    assert Alone(s2, id, totp, steps - 2) == Alone(s3, id, totp, steps - 3);
  }

  lemma DrawnValue(s: I.State, k: Key, ttl: int)
    ensures var (s', ticket) := I.Draw(s, k, ttl);
            && s'.store == IncrExpire(s.store, k, s.now, ttl) && s'.reqs == s.reqs && s'.now == s.now
            && (ttl > 0 ==> ticket.number == Value(s'.store, k, s.now))
  {
  }

  lemma FromRecordClean(s: I.State, id: nat, totp: Totp, steps: nat)
    requires At(s, id, I.RecordClean) && steps >= 4
    ensures Ends(Alone(s, id, totp, steps), id, CleanRequest(s.store, s.now, s.reqs[id].ip))
  {
    DrawnValue(s, History(s.reqs[id].ip), GRADUATION_WINDOW);
    hide I.Draw, IncrExpire, PromoteWrites, Value;
    var s1 := I.StepRequest(s, id, false, totp);
    assert Alone(s, id, totp, steps) == Alone(s1, id, totp, steps - 1);
    if s1.reqs[id].pc.TrustSet? { FromTrustSet(s1, id, totp, steps - 1); }
  }

  /** Over the limit, or on with what follows. */
  lemma FromOver(s: I.State, id: nat, totp: Totp, steps: nat)
    requires At(s, id, I.AfterOver(totp)) && steps >= 3
    ensures Ends(Alone(s, id, totp, steps), id, OverLimit(s.store, s.now, s.reqs[id].ip, totp))
  {
    hide JailWrites;
    if totp.Ineligible? { FromJailSet(s, id, totp, steps); }
  }

  lemma FromCountUntrusted(s: I.State, id: nat, totp: Totp, steps: nat, allowance: int)
    requires At(s, id, I.CountUntrusted(allowance)) && steps >= 5
    ensures var ip := s.reqs[id].ip;
            var counted := IncrExpire(s.store, Counter(ip), s.now, COUNTER_WINDOW);
            Ends(Alone(s, id, totp, steps), id,
                 if Value(counted, Counter(ip), s.now) > allowance then OverLimit(counted, s.now, ip, totp)
                 else CleanRequest(counted, s.now, ip))
  {
    DrawnValue(s, Counter(s.reqs[id].ip), COUNTER_WINDOW);
    hide I.Draw, IncrExpire, Value, OverLimit, CleanRequest, I.AfterOver, Ends;
    var s1 := I.StepRequest(s, id, false, totp);
    assert Alone(s, id, totp, steps) == Alone(s1, id, totp, steps - 1);
    if I.Draw(s, Counter(s.reqs[id].ip), COUNTER_WINDOW).1.number > allowance {
      FromOver(s1, id, totp, steps - 1);
    } else {
      FromRecordClean(s1, id, totp, steps - 1);
    }
  }

  lemma FromCountTrusted(s: I.State, id: nat, totp: Totp, steps: nat)
    requires At(s, id, I.CountTrusted) && steps >= 4
    ensures var ip := s.reqs[id].ip;
            var counted := IncrExpire(s.store, Counter(ip), s.now, COUNTER_WINDOW);
            Ends(Alone(s, id, totp, steps), id,
                 if Value(counted, Counter(ip), s.now) > TRUSTED_LIMIT then OverLimit(counted, s.now, ip, totp)
                 else (counted, Citizen))
  {
    DrawnValue(s, Counter(s.reqs[id].ip), COUNTER_WINDOW);
    hide I.Draw, IncrExpire, Value, OverLimit, I.AfterOver;
    var s1 := I.StepRequest(s, id, false, totp);
    assert Alone(s, id, totp, steps) == Alone(s1, id, totp, steps - 1);
    if I.Draw(s, Counter(s.reqs[id].ip), COUNTER_WINDOW).1.number > TRUSTED_LIMIT { FromOver(s1, id, totp, steps - 1); }
  }

  /** The steps refine the request as a whole: one that is left alone, without a
      failing command, ends with the store and the answer of the request handled at
      one instant. */
  lemma AloneIsHandle(s: I.State, id: nat, totp: Totp)
    requires At(s, id, I.JailCheck)
    ensures Ends(Alone(s, id, totp, 8), id, Handle(s.store, s.now, s.reqs[id].ip, totp))
  {
    hide IncrExpire, Value, OverLimit, CleanRequest, GetEx, Live, Allowance, JailedKeys, I.Draw;
    var ip := s.reqs[id].ip;
    var s1 := I.StepRequest(s, id, false, totp);
    assert Alone(s, id, totp, 8) == Alone(s1, id, totp, 7);
    if !Live(s.store, Jailed(ip), s.now) {
      var s2 := I.StepRequest(s1, id, false, totp);
      assert Alone(s1, id, totp, 7) == Alone(s2, id, totp, 6);
      if Live(s.store, Trusted(ip), s.now) {
        FromCountTrusted(s2, id, totp, 6);
      } else {
        var s3 := I.StepRequest(s2, id, false, totp);
        assert Alone(s2, id, totp, 6) == Alone(s3, id, totp, 5);
        FromCountUntrusted(s3, id, totp, 5, Allowance(|JailedKeys(s.store, s.now)|));
      }
    }
  }
}
