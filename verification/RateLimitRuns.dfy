/** Whole runs of the limiter in which requests are handled one at a time. */
module RateLimitRuns {
  import opened Redis
  import opened RateLimit

  datatype Event =
    | Request(ip: Ip, totp: Totp)
    | Promotion(ip: Ip)
    | Reset
    | Tick(seconds: nat)

  datatype State = State(store: Store, now: int)

  function Initial(): State {
    State(map[], 0)
  }

  function Apply(st: State, e: Event): State {
    match e
    case Request(ip, totp) => st.(store := Handle(st.store, st.now, ip, totp).0)
    case Promotion(ip) => st.(store := PromoteWrites(st.store, st.now, ip))
    case Reset => st.(store := ResetWrites(st.store, st.now))
    case Tick(d) => st.(now := st.now + d)
  }

  function Run(st: State, events: seq<Event>): State
    decreases |events|
  {
    if events == [] then st else Run(Apply(st, events[0]), events[1..])
  }

  /** Is this event, in this state, a request of ip that purgatory forwards? */
  predicate ForwardedUntrusted(st: State, e: Event, ip: Ip) {
    e.Request? && e.ip == ip && Handle(st.store, st.now, ip, e.totp).1.Purgatory?
  }

  /** ... one that the graduation tier promotes? */
  predicate Graduates(st: State, e: Event, ip: Ip) {
    e.Request? && e.ip == ip && Handle(st.store, st.now, ip, e.totp).1 == Purgatory(true)
  }

  // ---- The limiter as one IP sees it ----

  /** The four keys of one IP, dead keys normalised: a lapsed sentence or trust
      ends now, and a lapsed count is zero and begins now. */
  datatype View = View(jailUntil: int, trustUntil: int, clean: int, cleanFrom: int, count: int, countFrom: int)

  function ViewOf(st: State, ip: Ip): View {
    var s, now := st.store, st.now;
    View(now + TtlReply(s, Jailed(ip), now),
         now + TtlReply(s, Trusted(ip), now),
         Value(s, History(ip), now),
         if Live(s, History(ip), now) then s[History(ip)].expireAt - GRADUATION_WINDOW else now,
         Value(s, Counter(ip), now),
         if Live(s, Counter(ip), now) then s[Counter(ip)].expireAt - COUNTER_WINDOW else now)
  }

  /** Live counts are positive and began in the past. */
  predicate Sound(st: State, ip: Ip) {
    forall k | k in {History(ip), Counter(ip)} && Live(st.store, k, st.now) ::
      st.store[k].value >= 1 && st.store[k].expireAt <= st.now + if k.History? then GRADUATION_WINDOW
        else COUNTER_WINDOW
  }

  datatype Move =
    | Still | Counted | Clean | Graduation | Jailing | Served | ServedJailing | Promoted | Wiped
    | Passing(seconds: nat)

  /** What an event means to ip. */
  function MoveOf(st: State, e: Event, ip: Ip): Move {
    var s, now := st.store, st.now;
    match e
    case Tick(d) => Passing(d)
    case Reset => Wiped
    case Promotion(ip') => if ip' == ip then Promoted else Still
    case Request(ip', totp) =>
      if ip' != ip || Live(s, Jailed(ip), now) then Still
      else if Live(s, Trusted(ip), now) then
        if Value(s, Counter(ip), now) + 1 > TRUSTED_LIMIT && totp.Ineligible? then ServedJailing else Served
      else if Value(s, Counter(ip), now) + 1 > Allowance(|JailedKeys(s, now)|) then
        if totp.Ineligible? then Jailing else Counted
      else if Value(s, History(ip), now) + 1 >= GRADUATION_REQUESTS then Graduation
      else Clean
  }

  /** One IP's own machine. */
  function Step(v: View, now: int, m: Move): View {
    match m
    case Still => v
    case Counted => v.(count := v.count + 1)
    case Clean => v.(count := v.count + 1, clean := v.clean + 1)
    case Graduation => v.(trustUntil := now + TRUSTED_TTL, clean := 0, cleanFrom := now, count := 0, countFrom := now)
    case Promoted => v.(trustUntil := now + TRUSTED_TTL, clean := 0, cleanFrom := now, count := 0, countFrom := now)
    case Jailing => v.(jailUntil := now + JAIL_TTL, clean := 0, cleanFrom := now, count := 0, countFrom := now)
    case Served => v.(trustUntil := now + TRUSTED_TTL, count := v.count + 1)
    case ServedJailing =>
      v.(jailUntil := now + JAIL_TTL, trustUntil := now + TRUSTED_TTL, clean := 0, cleanFrom := now, count := 0,
         countFrom := now)
    case Wiped => v.(jailUntil := now, clean := 0, cleanFrom := now, count := 0, countFrom := now)
    case Passing(d) =>
      var later := now + d;
      var cleanLives, countLives := v.clean > 0 && later < v.cleanFrom + GRADUATION_WINDOW,
        v.count > 0 && later < v.countFrom + COUNTER_WINDOW;
      View(if later < v.jailUntil then v.jailUntil else later,
           if later < v.trustUntil then v.trustUntil else later,
           if cleanLives then v.clean else 0, if cleanLives then v.cleanFrom else later,
           if countLives then v.count else 0, if countLives then v.countFrom else later)
  }

  /** The store as a whole simulates that machine for every IP at once: the
      other IPs reach it only through the allowance. */
  lemma Simulation(st: State, e: Event, ip: Ip)
    requires Sound(st, ip)
    ensures ViewOf(Apply(st, e), ip) == Step(ViewOf(st, ip), st.now, MoveOf(st, e, ip))
    ensures Sound(Apply(st, e), ip)
    ensures ForwardedUntrusted(st, e, ip) <==> MoveOf(st, e, ip) in {Clean, Graduation}
    ensures Graduates(st, e, ip) <==> MoveOf(st, e, ip).Graduation?
  {
    match e
    case Request(ip', totp) => if ip' != ip { OthersStandStill(st, ip', totp, ip); } else { OwnRequest(st, ip, totp); }
    case _ =>
  }

  lemma OthersStandStill(st: State, other: Ip, totp: Totp, ip: Ip)
    requires other != ip
    ensures forall k: Key | k.ip == ip :: var s' := Handle(st.store, st.now, other, totp).0;
              (k in s' <==> k in st.store) && (k in s' ==> s'[k] == st.store[k])
  {
  }

  /** What a request of ip itself does, tier by tier. */
  predicate Simulated(st: State, ip: Ip, totp: Totp) {
    var e := Request(ip, totp);
    && ViewOf(Apply(st, e), ip) == Step(ViewOf(st, ip), st.now, MoveOf(st, e, ip))
    && Sound(Apply(st, e), ip)
    && (ForwardedUntrusted(st, e, ip) <==> MoveOf(st, e, ip) in {Clean, Graduation})
    && (Graduates(st, e, ip) <==> MoveOf(st, e, ip).Graduation?)
  }

  lemma JailedRequest(st: State, ip: Ip, totp: Totp)
    requires Sound(st, ip) && Live(st.store, Jailed(ip), st.now)
    ensures Simulated(st, ip, totp)
  {
  }

  /** Going over a limit jails whoever has no claim to a bypass, and changes
      nothing for the others. */
  lemma OverLimitView(s: Store, now: int, ip: Ip, totp: Totp)
    requires Sound(State(s, now), ip) && !Live(s, Jailed(ip), now)
    ensures var after, v := State(OverLimit(s, now, ip, totp).0, now), ViewOf(State(s, now), ip);
            && Sound(after, ip)
            && ViewOf(after, ip) ==
               if totp.Ineligible? then
                 v.(jailUntil := now + JAIL_TTL, clean := 0, cleanFrom := now, count := 0, countFrom := now)
                                    else v
    ensures !OverLimit(s, now, ip, totp).1.Purgatory?
  {
  }

  /** A clean request is recorded, and at the threshold promoted. */
  lemma CleanRequestView(s: Store, now: int, ip: Ip)
    requires Sound(State(s, now), ip)
    ensures var (store, outcome) := CleanRequest(s, now, ip);
            var after, v := State(store, now), ViewOf(State(s, now), ip);
            && Sound(after, ip) && outcome == Purgatory(v.clean + 1 >= GRADUATION_REQUESTS)
            && ViewOf(after, ip) == if v.clean + 1 >= GRADUATION_REQUESTS
                                    then v.(trustUntil := now + TRUSTED_TTL, clean := 0, cleanFrom := now, count := 0,
                                            countFrom := now)
                                    else v.(clean := v.clean + 1)
  {
    RecordView(s, now, ip);
  }

  lemma TrustedRequest(st: State, ip: Ip, totp: Totp)
    requires Sound(st, ip) && !Live(st.store, Jailed(ip), st.now) && Live(st.store, Trusted(ip), st.now)
    ensures Simulated(st, ip, totp)
  {
    hide Allowance, OverLimit, CleanRequest;
    var s := GetEx(st.store, Trusted(ip), st.now, TRUSTED_TTL);
    CountView(s, st.now, ip);
    OverLimitView(IncrExpire(s, Counter(ip), st.now, COUNTER_WINDOW), st.now, ip, totp);
  }

  lemma PurgatoryRequest(st: State, ip: Ip, totp: Totp)
    requires Sound(st, ip) && !Live(st.store, Jailed(ip), st.now) && !Live(st.store, Trusted(ip), st.now)
    ensures Simulated(st, ip, totp)
  {
    hide Allowance, OverLimit, CleanRequest;
    CountView(st.store, st.now, ip);
    var s := IncrExpire(st.store, Counter(ip), st.now, COUNTER_WINDOW);
    OverLimitView(s, st.now, ip, totp);
    CleanRequestView(s, st.now, ip);
  }

  lemma OwnRequest(st: State, ip: Ip, totp: Totp)
    requires Sound(st, ip)
    ensures ViewOf(Apply(st, Request(ip, totp)), ip) == Step(ViewOf(st, ip), st.now, MoveOf(st, Request(ip, totp), ip))
    ensures Sound(Apply(st, Request(ip, totp)), ip)
    ensures ForwardedUntrusted(st, Request(ip, totp), ip) <==> MoveOf(st, Request(ip, totp), ip) in {Clean, Graduation}
    ensures Graduates(st, Request(ip, totp), ip) <==> MoveOf(st, Request(ip, totp), ip).Graduation?
  {
    hide Apply, Step, MoveOf, Sound, ForwardedUntrusted, Graduates, ViewOf, Live;
    if Live(st.store, Jailed(ip), st.now) {
      JailedRequest(st, ip, totp);
    } else if Live(st.store, Trusted(ip), st.now) {
      TrustedRequest(st, ip, totp);
    } else {
      PurgatoryRequest(st, ip, totp);
    }
  }

  lemma CountView(s: Store, now: int, ip: Ip)
    requires Sound(State(s, now), ip)
    ensures var st' := State(IncrExpire(s, Counter(ip), now, COUNTER_WINDOW), now);
            Sound(st', ip) && ViewOf(st', ip) == Step(ViewOf(State(s, now), ip), now, Counted)
  {
  }

  lemma RecordView(s: Store, now: int, ip: Ip)
    requires Sound(State(s, now), ip)
    ensures var st, st' := State(s, now), State(IncrExpire(s, History(ip), now, GRADUATION_WINDOW), now);
            Sound(st', ip) && ViewOf(st', ip) == ViewOf(st, ip).(clean := ViewOf(st, ip).clean + 1)
  {
  }

  lemma {:induction false} RunIsSound(st: State, events: seq<Event>, ip: Ip)
    requires Sound(st, ip)
    ensures Sound(Run(st, events), ip)
    decreases |events|
  {
    if events != [] {
      Simulation(st, events[0], ip);
      RunIsSound(Apply(st, events[0]), events[1..], ip);
    }
  }

  // ---- Graduation ----

  function Capped(v: int, cap: int): int {
    if v < cap then v else cap
  }

  /** How many clean requests a history can hold when every clean request was
      admitted under an allowance of at most cap.  The counter lifetime that was
      running when the history began gives at most cap - 1, for its first
      request came earlier or the history began with it; each later lifetime
      gives at most cap and begins at least one window after the one before. */
  predicate Paced(v: View, cap: int) {
    if v.countFrom < v.cleanFrom then v.clean <= Capped(v.count, cap) - 1
    else v.clean <= cap - 1 + cap * ((v.countFrom - v.cleanFrom) / COUNTER_WINDOW) + Capped(v.count, cap)
  }

  predicate Dated(v: View, now: int) {
    && 0 <= v.clean < GRADUATION_REQUESTS && 0 <= v.count
    && now - GRADUATION_WINDOW < v.cleanFrom <= now && (v.clean == 0 ==> v.cleanFrom == now)
    && now - COUNTER_WINDOW < v.countFrom <= now && (v.count == 0 ==> v.countFrom == now)
  }

  lemma TimeKeepsPace(v: View, now: int, cap: int, d: nat)
    requires cap == 256 || cap == 116
    requires Dated(v, now) && Paced(v, cap)
    ensures var v' := Step(v, now, Passing(d)); Dated(v', now + d) && Paced(v', cap)
  {
  }

  /** The move that reaches the threshold shows how long the history has been
      running: 1280 is 255 + 4 * 256 + 1, so four whole windows at 256 a window,
      and more than the ten windows a history lives at 116 a window. */
  lemma MoveKeepsPace(v: View, now: int, m: Move, cap: int)
    requires cap == 256 || cap == 116
    requires Dated(v, now) && Paced(v, cap)
    requires m in {Clean, Graduation} ==> v.count + 1 <= cap
    requires m.Clean? ==> v.clean + 1 < GRADUATION_REQUESTS
    requires m.Graduation? ==> v.clean + 1 >= GRADUATION_REQUESTS
    ensures var v' := Step(v, now, m);
            Dated(v', now + if m.Passing? then m.seconds else 0) && Paced(v', cap)
    ensures m.Graduation? ==>
            cap == 256 && v.clean == GRADUATION_REQUESTS - 1 && now - v.cleanFrom >= 4 * COUNTER_WINDOW
  {
    if m.Passing? { TimeKeepsPace(v, now, cap, m.seconds); }
  }

  predicate GraduationInv(st: State, ip: Ip, cap: int) {
    var v := ViewOf(st, ip);
    Sound(st, ip) && Dated(v, st.now) && Paced(v, cap)
  }

  lemma StepKeepsGraduationInv(st: State, e: Event, ip: Ip, cap: int)
    requires cap == 256 || cap == 116
    requires GraduationInv(st, ip, cap)
    requires Allowance(|JailedKeys(st.store, st.now)|) <= cap
    ensures GraduationInv(Apply(st, e), ip, cap)
    ensures Graduates(st, e, ip) ==>
              var v := ViewOf(st, ip);
              cap == 256 && v.clean == GRADUATION_REQUESTS - 1 && st.now - v.cleanFrom >= 4 * COUNTER_WINDOW
  {
    Simulation(st, e, ip);
    MoveKeepsPace(ViewOf(st, ip), st.now, MoveOf(st, e, ip), cap);
  }

  /** How many of the events are requests of ip that purgatory forwards. */
  function Forwards(st: State, events: seq<Event>, ip: Ip): nat
    decreases |events|
  {
    if events == [] then 0
    else (if ForwardedUntrusted(st, events[0], ip) then 1 else 0) + Forwards(Apply(st, events[0]), events[1..], ip)
  }

  /** The history counts clean requests and nothing else. */
  lemma {:induction false} HistoryCountsForwards(st: State, events: seq<Event>, ip: Ip)
    requires GraduationInv(st, ip, 256)
    ensures GraduationInv(Run(st, events), ip, 256)
    ensures ViewOf(Run(st, events), ip).clean <= ViewOf(st, ip).clean + Forwards(st, events, ip)
    decreases |events|
  {
    if events != [] {
      AllowanceExact(|JailedKeys(st.store, st.now)|);
      StepKeepsGraduationInv(st, events[0], ip, 256);
      Simulation(st, events[0], ip);
      HistoryCountsForwards(Apply(st, events[0]), events[1..], ip);
    }
  }

  predicate HasHistory(st: State, ip: Ip) {
    Live(st.store, History(ip), st.now)
  }

  lemma {:induction false} RunSnoc(st: State, events: seq<Event>, e: Event, ip: Ip)
    ensures Run(st, events + [e]) == Apply(Run(st, events), e)
    ensures Forwards(st, events + [e], ip)
            == Forwards(st, events, ip) + if ForwardedUntrusted(Run(st, events), e, ip) then 1 else 0
    decreases |events|
  {
    hide Apply, ForwardedUntrusted;
    if events == [] {
      assert [] + [e] == [e] && [e][1..] == [];
    } else {
      assert (events + [e])[1..] == events[1..] + [e];
      RunSnoc(Apply(st, events[0]), events[1..], e, ip);
    }
  }

  /** While the history key lives on, it counts the forwarded requests, each once
      and nothing else. */
  lemma StepCounts(st: State, e: Event, ip: Ip)
    requires Sound(st, ip) && HasHistory(Apply(st, e), ip)
    ensures Value(Apply(st, e).store, History(ip), Apply(st, e).now)
            == Value(st.store, History(ip), st.now) + if ForwardedUntrusted(st, e, ip) then 1 else 0
  {
    Simulation(st, e, ip);
    var after := Apply(st, e);
    assert ViewOf(after, ip).clean >= 1;
    hide Apply, MoveOf, Sound, ForwardedUntrusted, Graduates;
  }

  /** The history lifetime of ip began right after the first k events and has
      lasted since. */
  predicate LifetimeSince(events: seq<Event>, k: nat, ip: Ip)
    requires k <= |events|
  {
    !HasHistory(Run(Initial(), events[..k]), ip) && forall j | k < j <= |events| ::
      HasHistory(Run(Initial(), events[..j]), ip)
  }

  /** In every run the value of a history key is exactly the number of requests
      purgatory has forwarded in its present lifetime. */
  lemma {:induction false} HistoryIsItsForwards(events: seq<Event>, ip: Ip) returns (k: nat)
    ensures k <= |events| && LifetimeSince(events, k, ip)
    ensures var st := Run(Initial(), events);
            Value(st.store, History(ip), st.now) == Forwards(Run(Initial(), events[..k]), events[k..], ip)
    decreases |events|
  {
    hide Apply, ForwardedUntrusted, HasHistory, Run, Forwards, Sound, Value;
    assert events[..|events|] == events;
    var st := Run(Initial(), events);
    if !HasHistory(st, ip) {
      k := |events|;
      NoHistoryNoValue(st, ip);
      assert events[k..] == [];
    } else {
      if events == [] { NothingAtFirst(ip); }
      var n := |events| - 1;
      k := HistoryIsItsForwards(events[..n], ip);
      var before := Run(Initial(), events[..n]);
      assert events == events[..n] + [events[n]];
      RunSnoc(Initial(), events[..n], events[n], ip);
      assert Sound(before, ip) by { SoundAtFirst(ip); RunIsSound(Initial(), events[..n], ip); }
      StepCounts(before, events[n], ip);
      assert events[..n][..k] == events[..k];
      RunTail(Initial(), events[..n], k);
      assert events[k..] == events[..n][k..] + [events[n]];
      RunSnoc(Run(Initial(), events[..k]), events[..n][k..], events[n], ip);
      forall j | k < j <= |events| ensures HasHistory(Run(Initial(), events[..j]), ip) {
        if j <= n { assert events[..n][..j] == events[..j]; }
      }
    }
  }

  lemma {:induction false} RunTail(st: State, events: seq<Event>, k: nat)
    requires k <= |events|
    ensures Run(Run(st, events[..k]), events[k..]) == Run(st, events)
    decreases k
  {
    hide Apply;
    if k == 0 {
      assert events[..0] == [] && events[0..] == events;
    } else {
      assert events[..k][1..] == events[1..][..k - 1] && events[k..] == events[1..][k - 1..]
        && events[..k][0] == events[0];
      RunTail(Apply(st, events[0]), events[1..], k - 1);
    }
  }

  lemma NoHistoryNoValue(st: State, ip: Ip)
    requires !HasHistory(st, ip)
    ensures Value(st.store, History(ip), st.now) == 0 && Forwards(st, [], ip) == 0
  {
  }

  lemma NothingAtFirst(ip: Ip)
    ensures !HasHistory(Run(Initial(), []), ip)
  {
  }

  lemma SoundAtFirst(ip: Ip)
    ensures Sound(Initial(), ip)
  {
  }

  /** In every run a request that graduates is exactly the 1280th that purgatory
      forwards in the present lifetime of its history key. */
  lemma GraduationIsThe1280th(events: seq<Event>, ip: Ip, totp: Totp) returns (k: nat)
    requires Graduates(Run(Initial(), events), Request(ip, totp), ip)
    ensures k <= |events| && LifetimeSince(events, k, ip)
    ensures Forwards(Run(Initial(), events[..k]), events[k..], ip) == GRADUATION_REQUESTS - 1
  {
    var st := Run(Initial(), events);
    HistoryCountsForwards(Initial(), events, ip);
    AllowanceExact(|JailedKeys(st.store, st.now)|);
    StepKeepsGraduationInv(st, Request(ip, totp), ip, 256);
    hide Run, Forwards, Graduates;
    k := HistoryIsItsForwards(events, ip);
  }

  /** In every run, with resets and promotions anywhere in it, a request
      graduates exactly as the 1280th clean request of its history key's
      lifetime, at least 240 seconds after that lifetime began; and any stretch
      of the run that began without a history key holds the 1279 clean requests
      before it. */
  lemma GraduationBound(before: seq<Event>, since: seq<Event>, ip: Ip, totp: Totp)
    requires var st0 := Run(Initial(), before); !Live(st0.store, History(ip), st0.now)
    requires Graduates(Run(Run(Initial(), before), since), Request(ip, totp), ip)
    ensures var st := Run(Run(Initial(), before), since);
            && Live(st.store, History(ip), st.now)
            && st.store[History(ip)].value == GRADUATION_REQUESTS - 1
            && st.now - (st.store[History(ip)].expireAt - GRADUATION_WINDOW) >= 240
    ensures Forwards(Run(Initial(), before), since, ip) >= GRADUATION_REQUESTS - 1
  {
    var st0 := Run(Initial(), before);
    var st := Run(st0, since);
    HistoryCountsForwards(Initial(), before, ip);
    HistoryCountsForwards(st0, since, ip);
    AllowanceExact(|JailedKeys(st.store, st.now)|);
    StepKeepsGraduationInv(st, Request(ip, totp), ip, 256);
  }

  /** Is the jail at least twelve strong at every event of the run? */
  predicate TwelveJailedThroughout(st: State, events: seq<Event>)
    decreases |events|
  {
    events == [] || (|JailedKeys(st.store, st.now)| >= 12 && TwelveJailedThroughout(Apply(st, events[0]), events[1..]))
  }

  predicate NeverGraduates(st: State, events: seq<Event>, ip: Ip)
    decreases |events|
  {
    events == [] || (!Graduates(st, events[0], ip) && NeverGraduates(Apply(st, events[0]), events[1..], ip))
  }

  lemma {:induction false} CrowdedJailRun(st: State, events: seq<Event>, ip: Ip)
    requires GraduationInv(st, ip, 116) && TwelveJailedThroughout(st, events)
    ensures NeverGraduates(st, events, ip)
    decreases |events|
  {
    if events != [] {
      AllowanceExact(|JailedKeys(st.store, st.now)|);
      StepKeepsGraduationInv(st, events[0], ip, 116);
      CrowdedJailRun(Apply(st, events[0]), events[1..], ip);
    }
  }

  /** From any reachable state in which ip has no history key, ip does not
      graduate as long as twelve IPs stay jailed: eleven counter lifetimes of
      116 requests fall short of 1280. */
  lemma NoGraduationUnderTwelveJailed(before: seq<Event>, crowded: seq<Event>, ip: Ip)
    requires var st0 := Run(Initial(), before);
             !Live(st0.store, History(ip), st0.now) && TwelveJailedThroughout(st0, crowded)
    ensures NeverGraduates(Run(Initial(), before), crowded, ip)
  {
    HistoryCountsForwards(Initial(), before, ip);
    CrowdedJailRun(Run(Initial(), before), crowded, ip);
  }

  // ---- Jail and throughput ----

  /** A jailed IP has neither counter nor history, and a trusted IP's counter
      does not outlive its trust. */
  predicate Tiered(v: View, now: int) {
    && (v.jailUntil > now ==> v.count == 0 && v.clean == 0)
    && (v.trustUntil > now && v.count > 0 ==> v.countFrom + COUNTER_WINDOW <= v.trustUntil)
  }

  /** What f forwards since the instant a tell about ip: every counter lifetime
      since then has served at most 256 of them, and another one can begin to
      serve an untrusted caller only once trust, counter and jail are over. */
  predicate Budgeted(v: View, now: int, a: int, f: nat) {
    && a <= now
    && f <= 512 + 256 * ((now - a) / COUNTER_WINDOW)
    && if v.trustUntil > now then f <= 256 + 256 * ((v.trustUntil - a) / COUNTER_WINDOW)
       else if v.count > 0 then
         if v.countFrom < a then f <= Capped(v.count, 256)
         else f <= 256 + 256 * ((v.countFrom - a) / COUNTER_WINDOW) + Capped(v.count, 256)
       else f <= 256 + 256 * ((v.jailUntil - a) / COUNTER_WINDOW)
  }

  predicate ThroughputInv(st: State, ip: Ip, a: int, f: nat) {
    GraduationInv(st, ip, 256) && Tiered(ViewOf(st, ip), st.now) && Budgeted(ViewOf(st, ip), st.now, a, f)
  }

  /** Holds of every move a state allows. */
  predicate Allowed(v: View, now: int, m: Move) {
    && (m in {Counted, Clean, Graduation, Jailing} ==> v.jailUntil <= now && v.trustUntil <= now)
    && (m in {Served, ServedJailing} ==> v.jailUntil <= now && v.trustUntil > now)
    && (m in {Clean, Graduation} ==> v.count + 1 <= 256)
  }

  lemma MoveKeepsTiers(v: View, now: int, m: Move)
    requires Dated(v, now) && Tiered(v, now) && Allowed(v, now, m)
    ensures Tiered(Step(v, now, m), now + if m.Passing? then m.seconds else 0)
  {
  }

  /** The whole windows since a. */
  lemma Windows(x: int, y: int, a: int)
    requires x <= y
    ensures (x - a) / COUNTER_WINDOW <= (y - a) / COUNTER_WINDOW
    ensures x + COUNTER_WINDOW <= y ==> (x - a) / COUNTER_WINDOW + 1 <= (y - a) / COUNTER_WINDOW
  {
  }

  /** Time passing ends counter lifetimes, trust and jail. */
  lemma TimeKeepsBudget(v: View, now: int, d: nat, a: int, f: nat)
    requires v.jailUntil >= now && v.trustUntil >= now
    requires Dated(v, now) && Tiered(v, now) && Budgeted(v, now, a, f)
    ensures Budgeted(Step(v, now, Passing(d)), now + d, a, f)
  {
    var later := now + d;
    Windows(now, later, a);
    if v.trustUntil > now {
      if v.trustUntil <= later { TrustLapses(v, now, d, a, f); }
    } else if v.count > 0 {
      if later >= v.countFrom + COUNTER_WINDOW { CounterLapses(v, now, d, a, f); }
    } else {
      Windows(v.jailUntil, if v.jailUntil < later then later else v.jailUntil, a);
    }
  }

  lemma TrustLapses(v: View, now: int, d: nat, a: int, f: nat)
    requires v.jailUntil >= now && now < v.trustUntil <= now + d
    requires Dated(v, now) && Tiered(v, now) && Budgeted(v, now, a, f)
    ensures Budgeted(Step(v, now, Passing(d)), now + d, a, f)
  {
    var later := now + d;
    Windows(now, later, a);
    Windows(v.trustUntil, later, a);
    assert v.count > 0 ==> v.countFrom + COUNTER_WINDOW <= later;
    Windows(later, if v.jailUntil < later then later else v.jailUntil, a);
  }

  lemma CounterLapses(v: View, now: int, d: nat, a: int, f: nat)
    requires v.jailUntil >= now && v.trustUntil <= now && v.count > 0 && now + d >= v.countFrom + COUNTER_WINDOW
    requires Dated(v, now) && Tiered(v, now) && Budgeted(v, now, a, f)
    ensures Budgeted(Step(v, now, Passing(d)), now + d, a, f)
  {
    var later := now + d;
    Windows(now, later, a);
    if v.countFrom >= a { Windows(v.countFrom, later, a); } else { Windows(a, later, a); }
    Windows(later, if v.jailUntil < later then later else v.jailUntil, a);
  }

  /** A served request draws on the counter lifetime that is running. */
  lemma CleanKeepsBudget(v: View, now: int, a: int, f: nat)
    requires Dated(v, now) && Allowed(v, now, Clean) && Budgeted(v, now, a, f)
    requires v.jailUntil >= now && v.trustUntil >= now
    ensures Budgeted(Step(v, now, Clean), now, a, f + 1)
    ensures f + 1 <= 512 + 256 * ((now - a) / COUNTER_WINDOW)
  {
    if v.count > 0 { Windows(v.countFrom, now, a); }
  }

  lemma GraduationKeepsBudget(v: View, now: int, a: int, f: nat)
    requires Dated(v, now) && Allowed(v, now, Graduation) && Budgeted(v, now, a, f)
    requires v.jailUntil >= now && v.trustUntil >= now
    ensures Budgeted(Step(v, now, Graduation), now, a, f + 1)
  {
    CleanKeepsBudget(v, now, a, f);
    Windows(now + COUNTER_WINDOW, now + TRUSTED_TTL, a);
    Windows(now, now + COUNTER_WINDOW, a);
  }

  /** Trust or jail that starts now outlasts the windows the budget allows for. */
  lemma TierKeepsBudget(v: View, now: int, m: Move, a: int, f: nat)
    requires m.Promoted? || m.Jailing? || m.ServedJailing? || m.Served?
    requires v.jailUntil >= now && v.trustUntil >= now
    requires Dated(v, now) && Tiered(v, now) && Allowed(v, now, m) && Budgeted(v, now, a, f)
    ensures Budgeted(Step(v, now, m), now, a, f)
  {
    Windows(now + COUNTER_WINDOW, now + JAIL_TTL, a);
    Windows(now + COUNTER_WINDOW, now + TRUSTED_TTL, a);
    Windows(now, now + COUNTER_WINDOW, a);
  }

  lemma MoveKeepsBudget(v: View, now: int, m: Move, a: int, f: nat)
    requires !m.Wiped?
    requires v.jailUntil >= now && v.trustUntil >= now
    requires Dated(v, now) && Tiered(v, now) && Allowed(v, now, m) && Budgeted(v, now, a, f)
    ensures Budgeted(Step(v, now, m), now + if m.Passing? then m.seconds else 0, a,
                     f + if m in {Clean, Graduation} then 1 else 0)
  {
    match m
    case Passing(d) => TimeKeepsBudget(v, now, d, a, f);
    case Clean => CleanKeepsBudget(v, now, a, f);
    case Graduation => GraduationKeepsBudget(v, now, a, f);
    case Counted => CountedKeepsBudget(v, now, a, f);
    case Still =>
    case _ =>
      hide Budgeted, Step, Tiered, Dated, Allowed;
      TierKeepsBudget(v, now, m, a, f);
  }

  lemma CountedKeepsBudget(v: View, now: int, a: int, f: nat)
    requires Dated(v, now) && Allowed(v, now, Counted) && Budgeted(v, now, a, f)
    requires v.jailUntil >= now && v.trustUntil >= now
    ensures Budgeted(Step(v, now, Counted), now, a, f)
  {
  }

  lemma MovesAreAllowed(st: State, e: Event, ip: Ip)
    ensures Allowed(ViewOf(st, ip), st.now, MoveOf(st, e, ip))
    ensures e.Reset? <==> MoveOf(st, e, ip).Wiped?
  {
    AllowanceExact(|JailedKeys(st.store, st.now)|);
  }

  lemma StepKeepsTiers(st: State, e: Event, ip: Ip)
    requires Sound(st, ip) && Dated(ViewOf(st, ip), st.now) && Tiered(ViewOf(st, ip), st.now)
    ensures Tiered(ViewOf(Apply(st, e), ip), Apply(st, e).now)
  {
    var v, m := ViewOf(st, ip), MoveOf(st, e, ip);
    assert Allowed(v, st.now, m) by { MovesAreAllowed(st, e, ip); }
    assert ViewOf(Apply(st, e), ip) == Step(v, st.now, m) by { Simulation(st, e, ip); }
    MoveKeepsTiers(v, st.now, m);
  }

  lemma StepKeepsBudget(st: State, e: Event, ip: Ip, a: int, f: nat)
    requires !e.Reset? && Sound(st, ip) && Dated(ViewOf(st, ip), st.now) && Tiered(ViewOf(st, ip), st.now)
    requires Budgeted(ViewOf(st, ip), st.now, a, f)
    ensures Budgeted(ViewOf(Apply(st, e), ip), Apply(st, e).now, a, f + if ForwardedUntrusted(st, e, ip) then 1 else 0)
  {
    var v, m := ViewOf(st, ip), MoveOf(st, e, ip);
    assert Allowed(v, st.now, m) && !m.Wiped? by { MovesAreAllowed(st, e, ip); }
    assert ViewOf(Apply(st, e), ip) == Step(v, st.now, m)
      && (ForwardedUntrusted(st, e, ip) <==> m in {Clean, Graduation}) by {
      Simulation(st, e, ip);
    }
    MoveKeepsBudget(v, st.now, m, a, f);
  }

  lemma StepKeepsThroughputInv(st: State, e: Event, ip: Ip, a: int, f: nat)
    requires !e.Reset? && ThroughputInv(st, ip, a, f)
    ensures ThroughputInv(Apply(st, e), ip, a, f + if ForwardedUntrusted(st, e, ip) then 1 else 0)
  {
    AllowanceExact(|JailedKeys(st.store, st.now)|);
    StepKeepsGraduationInv(st, e, ip, 256);
    StepKeepsTiers(st, e, ip);
    StepKeepsBudget(st, e, ip, a, f);
  }

  lemma {:induction false} RunKeepsThroughputInv(st: State, events: seq<Event>, ip: Ip, a: int, f: nat)
    requires Reset !in events && ThroughputInv(st, ip, a, f)
    ensures ThroughputInv(Run(st, events), ip, a, f + Forwards(st, events, ip))
    decreases |events|
  {
    if events != [] {
      hide Apply;
      var st', f' := Apply(st, events[0]), f + if ForwardedUntrusted(st, events[0], ip) then 1 else 0;
      assert ThroughputInv(st', ip, a, f') by { StepKeepsThroughputInv(st, events[0], ip, a, f); }
      RunKeepsThroughputInv(st', events[1..], ip, a, f');
    }
  }

  predicate Standing(st: State, ip: Ip) {
    GraduationInv(st, ip, 256) && Tiered(ViewOf(st, ip), st.now)
  }

  lemma {:induction false} Reachable(st: State, events: seq<Event>, ip: Ip)
    requires Standing(st, ip)
    ensures Standing(Run(st, events), ip)
    decreases |events|
  {
    if events != [] {
      AllowanceExact(|JailedKeys(st.store, st.now)|);
      StepKeepsGraduationInv(st, events[0], ip, 256);
      StepKeepsTiers(st, events[0], ip);
      Reachable(Apply(st, events[0]), events[1..], ip);
    }
  }

  lemma InitiallyStanding(ip: Ip)
    ensures Standing(Initial(), ip)
  {
  }

  lemma NothingForwardedYet(st: State, ip: Ip)
    requires Standing(st, ip)
    ensures ThroughputInv(st, ip, st.now, 0)
  {
  }

  /** In every reachable state an IP with a live jail key has no counter and no
      history. */
  lemma JailedIpStartsFresh(events: seq<Event>, ip: Ip)
    requires var st := Run(Initial(), events); Live(st.store, Jailed(ip), st.now)
    ensures var st := Run(Initial(), events);
            !Live(st.store, Counter(ip), st.now) && !Live(st.store, History(ip), st.now)
  {
    Reachable(Initial(), events, ip);
  }

  /** From any reachable state on, with no reset, purgatory forwards at most
      256 * (k + 1) requests of one IP in less than k counter windows. */
  lemma ThroughputBound(before: seq<Event>, during: seq<Event>, ip: Ip, k: nat)
    requires Reset !in during
    requires Run(Run(Initial(), before), during).now < Run(Initial(), before).now + COUNTER_WINDOW * k
    ensures Forwards(Run(Initial(), before), during, ip) <= 256 * (k + 1)
  {
    hide Run, Forwards, GraduationInv, Tiered, ViewOf;
    var st0 := Run(Initial(), before);
    assert Standing(st0, ip) by { InitiallyStanding(ip); Reachable(Initial(), before, ip); }
    assert ThroughputInv(st0, ip, st0.now, 0) by { NothingForwardedYet(st0, ip); }
    RunKeepsThroughputInv(st0, during, ip, st0.now, 0);
    assert (Run(st0, during).now - st0.now) / COUNTER_WINDOW <= k - 1;
  }
}
