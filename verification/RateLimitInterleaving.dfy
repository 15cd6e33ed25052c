/** The limiter under any interleaving: each Redis command is one step, any
    number of requests are in flight, commands may fail, the clock may tick
    between any two of them, and keys may be deleted or trust granted from
    outside at any time. */
module RateLimitInterleaving {
  import opened GoStrings
  import opened Redis
  import opened RateLimit

  /** The reply of a counting script: which lifetime of the key it counted
      against, and the number it drew. */
  datatype Ticket = Ticket(ip: Ip, life: nat, number: int)

  /** The command a request issues next, or what became of it. */
  datatype Pc =
    | JailCheck
    | TrustCheck
    | CountTrusted
    | ReadAllowance
    | CountUntrusted(allowance: int)
    | RecordClean
    | JailSet
    | JailDelHistory
    | JailDelCounter
    | TrustSet
    | TrustDelHistory
    | TrustDelCounter
    | Refused
    | ForwardedByBypass
    | ForwardedAsCitizen
    | ForwardedUntrusted

  /** admitted: the number it drew when purgatory let it pass; recorded: the
      number it drew on the history key. */
  datatype Req = Req(ip: Ip, pc: Pc, admitted: Option<Ticket>, recorded: Option<Ticket>)

  /** lives tells which lifetime each counter and history key is in. */
  datatype State = State(store: Store, now: int, lives: map<Key, nat>, nextLife: nat, reqs: seq<Req>)

  datatype Action =
    | Arrive(ip: Ip)
    | Advance(id: nat, fails: bool, totp: Totp)
    | Tick(seconds: nat)
    | DeleteKey(key: Key)
    | GrantTrust(ip: Ip)

  function Initial(): State {
    State(map[], 0, map[], 0, [])
  }

  /** A counting script, with the lifetime it counts against. */
  function Draw(s: State, k: Key, ttl: int): (State, Ticket)
  {
    var store := IncrExpire(s.store, k, s.now, ttl);
    var number := store[k].value;
    if Live(s.store, k, s.now) && k in s.lives then
      (s.(store := store), Ticket(k.ip, s.lives[k], number))
    else
      (s.(store := store, lives := s.lives[k := s.nextLife], nextLife := s.nextLife + 1),
       Ticket(k.ip, s.nextLife, number))
  }

  function Goto(s: State, id: nat, pc: Pc): State
    requires id < |s.reqs|
  {
    s.(reqs := s.reqs[id := s.reqs[id].(pc := pc)])
  }

  function AfterOver(totp: Totp): Pc {
    match totp
    case Granted => ForwardedByBypass
    case Eligible => Refused
    case Ineligible => JailSet
  }

  /** One step of one request.  A failing command is read the way the
      middleware reads it: not jailed, not trusted, base allowance, not over,
      not graduated; and a failing jail or promotion pipeline is abandoned. */
  function StepRequest(s: State, id: nat, fails: bool, totp: Totp): State
    requires id < |s.reqs|
  {
    var r := s.reqs[id];
    match r.pc
    case JailCheck =>
      if !fails && Live(s.store, Jailed(r.ip), s.now)
      then Goto(s, id, if totp.Granted? then ForwardedByBypass else Refused)
      else Goto(s, id, TrustCheck)
    case TrustCheck =>
      if !fails && Live(s.store, Trusted(r.ip), s.now)
      then Goto(s.(store := GetEx(s.store, Trusted(r.ip), s.now, TRUSTED_TTL)), id, CountTrusted)
      else Goto(s, id, ReadAllowance)
    case CountTrusted =>
      if fails then Goto(s, id, ForwardedAsCitizen) else
      var (s', t) := Draw(s, Counter(r.ip), COUNTER_WINDOW);
      Goto(s', id, if t.number > TRUSTED_LIMIT then AfterOver(totp) else ForwardedAsCitizen)
    case ReadAllowance =>
      Goto(s, id, CountUntrusted(if fails then BASE_LIMIT else Allowance(|JailedKeys(s.store, s.now)|)))
    case CountUntrusted(allowance) =>
      if fails then Goto(s, id, RecordClean) else
      var (s', t) := Draw(s, Counter(r.ip), COUNTER_WINDOW);
      if t.number > allowance then Goto(s', id, AfterOver(totp))
      else s'.(reqs := s.reqs[id := r.(pc := RecordClean, admitted := Some(t))])
    case RecordClean =>
      if fails then Goto(s, id, ForwardedUntrusted) else
      var (s', t) := Draw(s, History(r.ip), GRADUATION_WINDOW);
      s'.(reqs := s.reqs[id := r.(pc := if t.number >= GRADUATION_REQUESTS then TrustSet else ForwardedUntrusted,
                                  recorded := Some(t))])
    case JailSet =>
      if fails then Goto(s, id, Refused)
      else Goto(s.(store := SetNx(s.store, Jailed(r.ip), 1, s.now, JAIL_TTL)), id, JailDelHistory)
    case JailDelHistory =>
      if fails then Goto(s, id, Refused) else Goto(s.(store := Del(s.store, History(r.ip))), id, JailDelCounter)
    case JailDelCounter =>
      Goto(if fails then s else s.(store := Del(s.store, Counter(r.ip))), id, Refused)
    case TrustSet =>
      if fails then Goto(s, id, ForwardedUntrusted)
      else Goto(s.(store := Set(s.store, Trusted(r.ip), 1, s.now, TRUSTED_TTL)), id, TrustDelHistory)
    case TrustDelHistory =>
      if fails then Goto(s, id, ForwardedUntrusted)
      else Goto(s.(store := Del(s.store, History(r.ip))), id, TrustDelCounter)
    case TrustDelCounter =>
      Goto(if fails then s else s.(store := Del(s.store, Counter(r.ip))), id, ForwardedUntrusted)
    case _ => s
  }

  function Step(s: State, a: Action): State {
    match a
    case Arrive(ip) => s.(reqs := s.reqs + [Req(ip, JailCheck, None, None)])
    case Advance(id, fails, totp) => if id < |s.reqs| then StepRequest(s, id, fails, totp) else s
    case Tick(d) => s.(now := s.now + d)
    case DeleteKey(k) => s.(store := Del(s.store, k))
    case GrantTrust(ip) => s.(store := Set(s.store, Trusted(ip), 1, s.now, TRUSTED_TTL))
  }

  function Run(s: State, actions: seq<Action>): State
    decreases |actions|
  {
    if actions == [] then s else Run(Step(s, actions[0]), actions[1..])
  }

  // ---- The invariant ----

  /** A ticket was drawn from a lifetime that has begun, and the key, if it is
      still in that lifetime, has counted past it. */
  predicate Drawn(s: State, k: Key, t: Ticket) {
    && t.ip == k.ip && t.number >= 1 && t.life < s.nextLife
    && (Live(s.store, k, s.now) && k in s.lives && s.lives[k] == t.life ==> t.number <= s.store[k].value)
  }

  predicate TicketsDrawn(s: State) {
    forall i | 0 <= i < |s.reqs| :: var r := s.reqs[i];
      && (r.admitted.Some? ==> Drawn(s, Counter(r.ip), r.admitted.value) && r.admitted.value.number <= BASE_LIMIT)
      && (r.recorded.Some? ==> Drawn(s, History(r.ip), r.recorded.value))
      && (r.pc.CountUntrusted? ==> r.pc.allowance <= BASE_LIMIT)
      && (r.admitted.Some? ==> r.pc in {RecordClean, TrustSet, TrustDelHistory, TrustDelCounter, ForwardedUntrusted})
      && (r.recorded.Some? ==> r.pc in {TrustSet, TrustDelHistory, TrustDelCounter, ForwardedUntrusted})
  }

  predicate TicketsUnique(s: State) {
    forall i, j | 0 <= i < j < |s.reqs| ::
      && (s.reqs[i].admitted.Some? ==> s.reqs[i].admitted != s.reqs[j].admitted)
      && (s.reqs[i].recorded.Some? ==> s.reqs[i].recorded != s.reqs[j].recorded)
  }

  predicate HasRecord(s: State, t: Ticket) {
    exists i :: 0 <= i < |s.reqs| && s.reqs[i].recorded == Some(t)
  }

  /** Lower numbers of a history lifetime have all been drawn by requests. */
  predicate RecordsComplete(s: State) {
    && (forall i, m | 0 <= i < |s.reqs| && s.reqs[i].recorded.Some? && 1 <= m <= s.reqs[i].recorded.value.number ::
          HasRecord(s, s.reqs[i].recorded.value.(number := m)))
    && (forall k: Key, m: int | k.History? && Live(s.store, k, s.now) && k in s.lives && 1 <= m <= s.store[k].value ::
          HasRecord(s, Ticket(k.ip, s.lives[k], m)))
  }

  predicate LivesKnown(s: State) {
    && (forall k | k in s.lives :: s.lives[k] < s.nextLife)
    && (forall k | k in s.store && (k.Counter? || k.History?) :: k in s.lives && s.store[k].value >= 1)
  }

  predicate Inv(s: State) {
    LivesKnown(s) && TicketsDrawn(s) && TicketsUnique(s) && RecordsComplete(s)
  }

  /** A step that draws no ticket: counts and histories at most disappear, and
      each request keeps its tickets. */
  predicate Quiet(s: State, s': State) {
    && s'.lives == s.lives && s'.nextLife == s.nextLife && s.now <= s'.now && |s.reqs| <= |s'.reqs|
    && (forall k | k in s'.store && (k.Counter? || k.History?) :: k in s.store && s'.store[k] == s.store[k])
    && (forall i | 0 <= i < |s.reqs| :: var r, r' := s.reqs[i], s'.reqs[i];
          && r'.ip == r.ip && r'.admitted == r.admitted && r'.recorded == r.recorded
          && (r'.pc.CountUntrusted? ==> r'.pc.allowance <= BASE_LIMIT)
          && (r.admitted.Some? ==>
              r'.pc in {RecordClean, TrustSet, TrustDelHistory, TrustDelCounter, ForwardedUntrusted})
          && (r.recorded.Some? ==> r'.pc in {TrustSet, TrustDelHistory, TrustDelCounter, ForwardedUntrusted}))
    && (forall i | |s.reqs| <= i < |s'.reqs| ::
        s'.reqs[i].admitted.None? && s'.reqs[i].recorded.None? && s'.reqs[i].pc.JailCheck?)
  }

  lemma QuietKeepsInv(s: State, s': State)
    requires Inv(s) && Quiet(s, s')
    ensures Inv(s')
  {
    forall t | HasRecord(s, t) ensures HasRecord(s', t) {
      var i :| 0 <= i < |s.reqs| && s.reqs[i].recorded == Some(t);
      assert s'.reqs[i].recorded == Some(t);
    }
    forall i | 0 <= i < |s'.reqs| && s'.reqs[i].admitted.Some?
      ensures Drawn(s', Counter(s'.reqs[i].ip), s'.reqs[i].admitted.value)
    {
      assert s.reqs[i].admitted.Some? && Drawn(s, Counter(s.reqs[i].ip), s.reqs[i].admitted.value);
    }
    forall i | 0 <= i < |s'.reqs| && s'.reqs[i].recorded.Some?
      ensures Drawn(s', History(s'.reqs[i].ip), s'.reqs[i].recorded.value)
    {
      assert s.reqs[i].recorded.Some? && Drawn(s, History(s.reqs[i].ip), s.reqs[i].recorded.value);
    }
  }

  /** A drawn ticket is new, and older tickets stay drawn. */
  lemma DrawIsFresh(s: State, k: Key, ttl: int)
    requires LivesKnown(s) && (k.Counter? || k.History?) && ttl > 0
    ensures var (s', t) := Draw(s, k, ttl);
      && LivesKnown(s') && Drawn(s', k, t)
      && s'.now == s.now && s'.reqs == s.reqs && s.nextLife <= s'.nextLife
      && Live(s'.store, k, s.now) && s'.lives[k] == t.life && s'.store[k].value == t.number
      && (forall k' | k' != k :: (k' in s'.store <==> k' in s.store) && (k' in s.store ==> s'.store[k'] == s.store[k'])
                              && (k' in s'.lives <==> k' in s.lives) && (k' in s.lives ==> s'.lives[k'] == s.lives[k']))
      && (forall k', t' | Drawn(s, k', t') :: Drawn(s', k', t'))
      && (forall t' | Drawn(s, k, t') :: t' != t)
      && (t.number > 1 ==> Live(s.store, k, s.now) && s.lives[k] == t.life && s.store[k].value == t.number - 1)
  {
  }

  /** Counting without admitting anyone. */
  lemma DrawKeepsInv(s: State, ip: Ip)
    requires Inv(s)
    ensures Inv(Draw(s, Counter(ip), COUNTER_WINDOW).0)
  {
    DrawIsFresh(s, Counter(ip), COUNTER_WINDOW);
    var s' := Draw(s, Counter(ip), COUNTER_WINDOW).0;
    forall t | HasRecord(s, t) ensures HasRecord(s', t) {
      var i :| 0 <= i < |s.reqs| && s.reqs[i].recorded == Some(t);
      assert s'.reqs[i].recorded == Some(t);
    }
    forall k: Key, m: int | k.History? && Live(s'.store, k, s'.now) && k in s'.lives && 1 <= m <= s'.store[k].value
      ensures HasRecord(s', Ticket(k.ip, s'.lives[k], m))
    {
      assert HasRecord(s, Ticket(k.ip, s.lives[k], m));
    }
  }

  /** The same requests, but one of them now holds a ticket it did not hold. */
  predicate Admits(d: State, s': State, id: nat, t: Ticket) {
    && id < |d.reqs| && d.reqs[id].admitted.None? && d.reqs[id].recorded.None?
    && s' == d.(reqs := d.reqs[id := d.reqs[id].(pc := RecordClean, admitted := Some(t))])
  }

  lemma AdmissionKeepsRecords(d: State, s': State, id: nat, t: Ticket)
    requires RecordsComplete(d) && Admits(d, s', id, t)
    ensures RecordsComplete(s')
  {
    forall u | HasRecord(d, u) ensures HasRecord(s', u) {
      var i :| 0 <= i < |d.reqs| && d.reqs[i].recorded == Some(u);
      assert s'.reqs[i].recorded == Some(u);
    }
    forall i, m | 0 <= i < |s'.reqs| && s'.reqs[i].recorded.Some? && 1 <= m <= s'.reqs[i].recorded.value.number
      ensures HasRecord(s', s'.reqs[i].recorded.value.(number := m))
    {
      assert HasRecord(d, d.reqs[i].recorded.value.(number := m));
    }
  }

  lemma AdmissionKeepsTickets(d: State, s': State, id: nat, t: Ticket)
    requires TicketsDrawn(d) && TicketsUnique(d) && Admits(d, s', id, t)
    requires Drawn(d, Counter(d.reqs[id].ip), t) && t.number <= BASE_LIMIT
    requires forall i | 0 <= i < |d.reqs| :: d.reqs[i].admitted != Some(t)
    ensures TicketsDrawn(s') && TicketsUnique(s')
  {
    forall k, u | Drawn(d, k, u) ensures Drawn(s', k, u) {}
  }

  lemma AdmitKeepsInv(s: State, id: nat)
    requires Inv(s) && id < |s.reqs| && s.reqs[id].pc.CountUntrusted?
    requires Draw(s, Counter(s.reqs[id].ip), COUNTER_WINDOW).1.number <= s.reqs[id].pc.allowance
    ensures Inv(StepRequest(s, id, false, Ineligible))
  {
    var r := s.reqs[id];
    var (d, t) := Draw(s, Counter(r.ip), COUNTER_WINDOW);
    var s' := StepRequest(s, id, false, Ineligible);
    DrawIsFresh(s, Counter(r.ip), COUNTER_WINDOW);
    DrawKeepsInv(s, r.ip);
    forall i | 0 <= i < |s.reqs| && s.reqs[i].admitted.Some? ensures s.reqs[i].admitted != Some(t) {
      assert Drawn(s, Counter(s.reqs[i].ip), s.reqs[i].admitted.value);
      if s.reqs[i].ip == r.ip { assert s.reqs[i].admitted.value != t; }
    }
    assert Admits(d, s', id, t);
    AdmissionKeepsRecords(d, s', id, t);
    AdmissionKeepsTickets(d, s', id, t);
  }

  lemma RecordingKeepsRecords(s: State, id: nat)
    requires Inv(s) && id < |s.reqs| && s.reqs[id].pc.RecordClean?
    ensures RecordsComplete(StepRequest(s, id, false, Ineligible))
  {
    var r := s.reqs[id];
    var k := History(r.ip);
    var (d, t) := Draw(s, k, GRADUATION_WINDOW);
    DrawIsFresh(s, k, GRADUATION_WINDOW);
    var s' := StepRequest(s, id, false, Ineligible);
    assert r.recorded.None? && s'.reqs[id].recorded == Some(t);
    assert HasRecord(s', t);
    forall u | HasRecord(s, u) ensures HasRecord(s', u) {
      var i :| 0 <= i < |s.reqs| && s.reqs[i].recorded == Some(u);
      assert s'.reqs[i].recorded == Some(u);
    }
    forall m: int | 1 <= m <= t.number ensures HasRecord(s', t.(number := m)) {
      if m < t.number { assert HasRecord(s, Ticket(k.ip, s.lives[k], m)); }
    }
    forall k': Key, m: int | k'.History? && Live(s'.store, k', s'.now) && k' in s'.lives && 1 <= m <= s'.store[k'].value
      ensures HasRecord(s', Ticket(k'.ip, s'.lives[k'], m))
    {
      if k' == k { assert HasRecord(s', t.(number := m)); } else { assert HasRecord(s, Ticket(k'.ip, s.lives[k'], m)); }
    }
    forall i, m | 0 <= i < |s'.reqs| && s'.reqs[i].recorded.Some? && 1 <= m <= s'.reqs[i].recorded.value.number
      ensures HasRecord(s', s'.reqs[i].recorded.value.(number := m))
    {
      if i != id { assert HasRecord(s, s.reqs[i].recorded.value.(number := m)); }
    }
  }

  lemma RecordKeepsInv(s: State, id: nat)
    requires Inv(s) && id < |s.reqs| && s.reqs[id].pc.RecordClean?
    ensures Inv(StepRequest(s, id, false, Ineligible))
  {
    RecordingKeepsRecords(s, id);
    hide RecordsComplete;
    var r := s.reqs[id];
    var k := History(r.ip);
    var (d, t) := Draw(s, k, GRADUATION_WINDOW);
    DrawIsFresh(s, k, GRADUATION_WINDOW);
    forall i | 0 <= i < |s.reqs| && i != id && s.reqs[i].recorded.Some? ensures s.reqs[i].recorded != Some(t) {
      assert Drawn(s, History(s.reqs[i].ip), s.reqs[i].recorded.value);
      if s.reqs[i].ip == r.ip { assert s.reqs[i].recorded.value != t; }
    }
  }

  lemma StepKeepsInv(s: State, a: Action)
    requires Inv(s)
    ensures Inv(Step(s, a))
  {
    if a.Advance? && a.id < |s.reqs| {
      StepRequestKeepsInv(s, a.id, a.fails, a.totp);
    } else {
      QuietKeepsInv(s, Step(s, a));
    }
  }

  lemma GotoIsQuiet(s: State, store: Store, id: nat, pc: Pc)
    requires id < |s.reqs| && TicketsDrawn(s)
    requires forall k | k in store && (k.Counter? || k.History?) :: k in s.store && store[k] == s.store[k]
    requires s.reqs[id].admitted.Some? ==>
             pc in {RecordClean, TrustSet, TrustDelHistory, TrustDelCounter, ForwardedUntrusted}
    requires s.reqs[id].recorded.Some? ==> pc in {TrustSet, TrustDelHistory, TrustDelCounter, ForwardedUntrusted}
    requires pc.CountUntrusted? ==> pc.allowance <= BASE_LIMIT
    ensures Quiet(s, Goto(s.(store := store), id, pc))
  {
  }

  lemma StoresShrink(s: State, id: nat, fails: bool, totp: Totp)
    requires id < |s.reqs|
    requires fails || !(s.reqs[id].pc.CountTrusted? || s.reqs[id].pc.CountUntrusted? || s.reqs[id].pc.RecordClean?)
    ensures var s' := StepRequest(s, id, fails, totp);
      && |s'.reqs| == |s.reqs| && s' == Goto(s.(store := s'.store), id, s'.reqs[id].pc)
      && forall k | k in s'.store && (k.Counter? || k.History?) :: k in s.store && s'.store[k] == s.store[k]
  {
    hide Allowance, JailedKeys, IncrExpire, Draw;
    assert s.reqs == s.reqs[id := s.reqs[id].(pc := s.reqs[id].pc)];
  }

  lemma QuietSteps(s: State, id: nat, fails: bool, totp: Totp)
    requires id < |s.reqs| && TicketsDrawn(s)
    requires fails || !(s.reqs[id].pc.CountTrusted? || s.reqs[id].pc.CountUntrusted? || s.reqs[id].pc.RecordClean?)
    ensures Quiet(s, StepRequest(s, id, fails, totp))
  {
    StoresShrink(s, id, fails, totp);
    AllowanceExact(|JailedKeys(s.store, s.now)|);
    var s' := StepRequest(s, id, fails, totp);
    GotoIsQuiet(s, s'.store, id, s'.reqs[id].pc);
  }

  lemma CountedKeepsInv(s: State, id: nat, totp: Totp)
    requires Inv(s) && id < |s.reqs| && (s.reqs[id].pc.CountTrusted? || s.reqs[id].pc.CountUntrusted?)
    ensures Inv(StepRequest(s, id, false, totp))
  {
    var r := s.reqs[id];
    DrawKeepsInv(s, r.ip);
    var (d, t) := Draw(s, Counter(r.ip), COUNTER_WINDOW);
    if r.pc.CountUntrusted? && t.number <= r.pc.allowance {
      AdmitKeepsInv(s, id);
    } else {
      var pc := if t.number > TRUSTED_LIMIT || r.pc.CountUntrusted? then AfterOver(totp) else ForwardedAsCitizen;
      GotoIsQuiet(d, d.store, id, pc);
      QuietKeepsInv(d, Goto(d, id, pc));
    }
  }

  lemma StepRequestKeepsInv(s: State, id: nat, fails: bool, totp: Totp)
    requires Inv(s) && id < |s.reqs|
    ensures Inv(StepRequest(s, id, fails, totp))
  {
    var r := s.reqs[id];
    if fails || !(r.pc.CountTrusted? || r.pc.CountUntrusted? || r.pc.RecordClean?) {
      QuietSteps(s, id, fails, totp);
      hide Quiet, StepRequest;
      QuietKeepsInv(s, StepRequest(s, id, fails, totp));
    } else if r.pc.RecordClean? {
      hide Inv;
      RecordKeepsInv(s, id);
    } else {
      CountedKeepsInv(s, id, totp);
    }
  }

  lemma {:induction false} RunKeepsInv(s: State, actions: seq<Action>)
    requires Inv(s)
    ensures Inv(Run(s, actions))
    decreases |actions|
  {
    if actions != [] {
      StepKeepsInv(s, actions[0]);
      RunKeepsInv(Step(s, actions[0]), actions[1..]);
    }
  }

  // ---- What follows ----

  /** The requests purgatory let pass against one counter lifetime. */
  function Admitted(s: State, ip: Ip, life: nat): set<nat> {
    set i: nat | i < |s.reqs| && s.reqs[i].admitted.Some? && s.reqs[i].admitted.value.ip == ip
      && s.reqs[i].admitted.value.life == life
  }

  /** The clean requests a history lifetime has counted. */
  function Recorded(s: State, ip: Ip, life: nat): set<nat> {
    set i: nat | i < |s.reqs| && s.reqs[i].recorded.Some? && s.reqs[i].recorded.value.ip == ip
      && s.reqs[i].recorded.value.life == life
  }

  lemma {:induction false} Pigeonhole(ids: set<nat>, number: map<nat, int>, n: nat)
    requires ids <= number.Keys
    requires forall i | i in ids :: 1 <= number[i] <= n
    requires forall i, j | i in ids && j in ids && number[i] == number[j] :: i == j
    ensures |ids| <= n
  {
    if some :| some in ids {
      assert 1 <= number[some] <= n;
      if i :| i in ids && number[i] == n {
        Pigeonhole(ids - {i}, number, n - 1);
      } else {
        Pigeonhole(ids, number, n - 1);
      }
    }
  }

  lemma AdmittedBound(s: State, ip: Ip, life: nat)
    requires Inv(s)
    ensures |Admitted(s, ip, life)| <= 256
  {
    var ids := Admitted(s, ip, life);
    var number := map i | i in ids :: s.reqs[i].admitted.value.number;
    forall i, j | i in ids && j in ids && number[i] == number[j] ensures i == j {
      assert s.reqs[i].admitted == s.reqs[j].admitted;
    }
    Pigeonhole(ids, number, 256);
  }

  /** Under any interleaving, purgatory forwards at most 256 requests against
      one lifetime of an IP's counter: each holds its own ticket in 1..256. */
  lemma ForwardsPerCounterLifetime(actions: seq<Action>, ip: Ip, life: nat)
    ensures var s := Run(Initial(), actions);
            |set i | i in Admitted(s, ip, life) && s.reqs[i].pc.ForwardedUntrusted?| <= 256
  {
    var s := Run(Initial(), actions);
    RunKeepsInv(Initial(), actions);
    AdmittedBound(s, ip, life);
    SubsetIsSmaller((set i | i in Admitted(s, ip, life) && s.reqs[i].pc.ForwardedUntrusted?), Admitted(s, ip, life));
  }

  /** The counter lifetimes that admitted the given requests. */
  function LivesOf(s: State, ids: set<nat>): set<nat>
    requires forall i | i in ids :: i < |s.reqs| && s.reqs[i].admitted.Some?
  {
    set i | i in ids :: s.reqs[i].admitted.value.life
  }

  lemma {:induction false} RecordedAtLeast(s: State, t: Ticket, n: nat) returns (ids: set<nat>)
    requires Inv(s) && HasRecord(s, t) && n <= t.number
    ensures ids <= Recorded(s, t.ip, t.life) && |ids| == n
    ensures forall i | i in ids :: s.reqs[i].recorded.value.number <= n
  {
    ids := {};
    if n > 0 {
      ids := RecordedAtLeast(s, t, n - 1);
      var g :| 0 <= g < |s.reqs| && s.reqs[g].recorded == Some(t);
      assert HasRecord(s, t.(number := n));
      var i: nat :| i < |s.reqs| && s.reqs[i].recorded == Some(t.(number := n));
      ids := ids + {i};
    }
  }

  lemma {:induction false} LivesBound(s: State, ip: Ip, ids: set<nat>, lives: set<nat>)
    requires Inv(s)
    requires forall i | i in ids :: i < |s.reqs| && s.reqs[i].admitted.Some? && s.reqs[i].admitted.value.ip == ip
    requires forall i | i in ids :: s.reqs[i].admitted.value.life in lives
    ensures |ids| <= 256 * |lives|
    decreases |lives|
  {
    hide Inv;
    if lives == {} {
      assert ids == {};
    } else {
      var life :| life in lives;
      var here := set i | i in ids && s.reqs[i].admitted.value.life == life;
      SubsetIsSmaller(here, Admitted(s, ip, life));
      AdmittedBound(s, ip, life);
      LivesBound(s, ip, ids - here, lives - {life});
      assert ids == here + (ids - here);
    }
  }

  /** Under any interleaving, a request that reaches the graduation threshold
      stands on 1280 clean requests of one history lifetime; and when the
      counter answered all of those, they were admitted by at least five
      different counter lifetimes. */
  lemma GraduationTakesFiveCounterLifetimes(actions: seq<Action>, g: nat)
    requires var s := Run(Initial(), actions);
             g < |s.reqs| && s.reqs[g].recorded.Some? && s.reqs[g].recorded.value.number >= GRADUATION_REQUESTS
    ensures var s := Run(Initial(), actions);
            var t := s.reqs[g].recorded.value;
            && |Recorded(s, t.ip, t.life)| >= GRADUATION_REQUESTS
            && ((forall i | i in Recorded(s, t.ip, t.life) :: s.reqs[i].admitted.Some?) ==>
                  |LivesOf(s, Recorded(s, t.ip, t.life))| >= 5)
  {
    var s := Run(Initial(), actions);
    RunKeepsInv(Initial(), actions);
    var t := s.reqs[g].recorded.value;
    var all := Recorded(s, t.ip, t.life);
    assert HasRecord(s, t);
    var ids := RecordedAtLeast(s, t, GRADUATION_REQUESTS);
    SubsetIsSmaller(ids, all);
    if forall i | i in all :: s.reqs[i].admitted.Some? {
      forall i | i in all ensures s.reqs[i].admitted.value.ip == t.ip {
        assert Drawn(s, Counter(s.reqs[i].ip), s.reqs[i].admitted.value)
          && Drawn(s, History(s.reqs[i].ip), s.reqs[i].recorded.value);
      }
      LivesBound(s, t.ip, all, LivesOf(s, all));
    }
  }
}
