/** The challenge lets the rightful call through: what makes a check pass, and that
    a confirmed call resolves its request. */
module RecoveryCompletes {
  import opened GoStrings
  import opened RecoveryStore
  import opened RecoveryChallenge

  // Ten minutes, in nanoseconds.
  const TEN_MINUTES := 600_000_000_000

  // ---- The check ----

  /** Without a database error a check logs a pass exactly when the challenge it has
      read is for this action and request, had not expired at its clock reading, and
      the flag table says that no second factor is required; else it goes on to
      raise the flag. */
  lemma PassesExactly(s: State, h: nat, reading: int)
    requires h < |s.handlers| && s.handlers[h].pc.ReadingFlag?
    ensures var r := s.handlers[h];
            var s' := StepHandler(s, h, false, reading);
            var passes := && r.pc.found.Some? && r.pc.found.value.key == ChallengeKey(r.requestId, r.action)
                          && r.pc.at < r.pc.found.value.expireAt && r.actor in s.mfa && s.mfa[r.actor] == false;
            && (passes <==> |s'.log| == |s.log| + 1 && s'.log[|s.log|].Passed?)
            && (passes <==> s'.handlers[h].pc == Resolving)
            && (!passes <==> s' == s.(handlers := s.handlers[h := r.(pc := Raising(r.pc.at))]))
  {
    hide ChallengeKey;
  }

  // ---- A confirmed call ----

  /** The actor has confirmed, the challenge is there, and the request stands, each
      until that moment at least. */
  predicate Open(s: State, r: Handler, until: int) {
    && s.now < until
    && r.actor in s.mfa && !s.mfa[r.actor]
    && r.actor in s.store.challenges && s.store.challenges[r.actor].key == ChallengeKey(r.requestId, r.action)
    && s.store.challenges[r.actor].expireAt >= until
    && r.requestId in s.store.requests && s.store.requests[r.requestId].status.Pending?
    && s.store.requests[r.requestId].expiresAt >= until
  }

  predicate IsPass(e: Entry, r: Handler, h: nat) {
    e.Passed? && e.actor == r.actor && e.key == ChallengeKey(r.requestId, r.action) && e.who == h
  }

  predicate IsResolution(e: Entry, r: Handler, h: nat) {
    e == Entry.Resolved(r.actor, r.requestId, r.action, h, if r.action.Accept? then Accepted else Rejected)
  }

  ghost predicate LogsPass(log: seq<Entry>, r: Handler, h: nat) {
    exists p :: 0 <= p < |log| && IsPass(log[p], r, h)
  }

  ghost predicate LogsResolution(log: seq<Entry>, r: Handler, h: nat) {
    exists p, q :: 0 <= p < q < |log| && IsPass(log[p], r, h) && IsResolution(log[q], r, h)
  }

  /** The handler has passed, resolved and consumed, in that order. */
  ghost predicate Completed(log: seq<Entry>, r: Handler, h: nat) {
    exists p, q, c :: 0 <= p < q < c < |log| && IsPass(log[p], r, h) && IsResolution(log[q], r, h)
                      && log[c] == Consumed(r.actor, ChallengeKey(r.requestId, r.action), h)
  }

  /** What is true of a confirmed call at each of its steps. */
  ghost predicate Going(s: State, h: nat, until: int)
    requires h < |s.handlers|
  {
    var r := s.handlers[h];
    match r.pc
    case Looking => true
    case CheckingMethod => true
    case ReadingClock => true
    case ReadingChallenge(at) => at < until
    case ReadingFlag(at, found, _) =>
      at < until && found.Some? && found.value.key == ChallengeKey(r.requestId, r.action)
        && found.value.expireAt >= until
    case Raising(_) => false
    case Storing(_) => false
    case Resolving => LogsPass(s.log, r, h)
    case Consuming => LogsResolution(s.log, r, h)
    case Done => Completed(s.log, r, h)
  }

  function StepsLeft(pc: Pc): nat {
    match pc
    case Looking => 7
    case CheckingMethod => 6
    case ReadingClock => 5
    case ReadingChallenge(_) => 4
    case ReadingFlag(_, _, _) => 3
    case Raising(_) => 3
    case Storing(_) => 3
    case Resolving => 2
    case Consuming => 1
    case Done => 0
  }

  predicate SameCall(r: Handler, r': Handler) {
    r'.actor == r.actor && r'.requestId == r.requestId && r'.action == r.action
  }

  lemma PassGrows(log: seq<Entry>, log': seq<Entry>, r: Handler, h: nat)
    requires log <= log' && LogsPass(log, r, h)
    ensures LogsPass(log', r, h)
  {
    hide IsPass;
    var p :| 0 <= p < |log| && IsPass(log[p], r, h);
    assert log'[p] == log[p];
  }

  lemma ResolutionGrows(log: seq<Entry>, log': seq<Entry>, r: Handler, h: nat)
    requires log <= log' && LogsResolution(log, r, h)
    ensures LogsResolution(log', r, h)
  {
    hide IsPass, IsResolution;
    var p, q :| 0 <= p < q < |log| && IsPass(log[p], r, h) && IsResolution(log[q], r, h);
    assert log'[p] == log[p] && log'[q] == log[q];
  }

  lemma CompletionGrows(log: seq<Entry>, log': seq<Entry>, r: Handler, h: nat)
    requires log <= log' && Completed(log, r, h)
    ensures Completed(log', r, h)
  {
    hide IsPass, IsResolution, ChallengeKey;
    var p, q, c :| 0 <= p < q < c < |log| && IsPass(log[p], r, h) && IsResolution(log[q], r, h)
                   && log[c] == Consumed(r.actor, ChallengeKey(r.requestId, r.action), h);
    assert log'[p] == log[p] && log'[q] == log[q] && log'[c] == log[c];
  }

  /** The last entries of a pass, a resolution and a consumption. */
  lemma LogsNext(log: seq<Entry>, e: Entry, r: Handler, h: nat)
    ensures IsPass(e, r, h) ==> LogsPass(log + [e], r, h)
    ensures LogsPass(log, r, h) && IsResolution(e, r, h) ==> LogsResolution(log + [e], r, h)
    ensures LogsResolution(log, r, h) && e == Consumed(r.actor, ChallengeKey(r.requestId, r.action), h) ==>
              Completed(log + [e], r, h)
  {
    hide IsPass, IsResolution, ChallengeKey;
    var longer := log + [e];
    var n := |log|;
    assert longer[n] == e && forall i | 0 <= i < n :: longer[i] == log[i];
    if IsPass(e, r, h) { assert IsPass(longer[n], r, h); }
    if LogsPass(log, r, h) && IsResolution(e, r, h) {
      var p :| 0 <= p < |log| && IsPass(log[p], r, h);
      assert IsPass(longer[p], r, h) && IsResolution(longer[n], r, h);
    }
    if LogsResolution(log, r, h) {
      var p, q :| 0 <= p < q < |log| && IsPass(log[p], r, h) && IsResolution(log[q], r, h);
      assert IsPass(longer[p], r, h) && IsResolution(longer[q], r, h);
    }
  }

  /** A step of the call itself brings it nearer to its end. */
  lemma OwnStepGoes(s: State, h: nat, reading: int, until: int)
    requires h < |s.handlers| && Going(s, h, until) && reading < until
    requires !s.handlers[h].pc.Consuming? && !s.handlers[h].pc.Done? ==> Open(s, s.handlers[h], until)
    ensures var s' := StepHandler(s, h, false, reading);
            && SameCall(s.handlers[h], s'.handlers[h]) && Going(s', h, until)
            && StepsLeft(s'.handlers[h].pc) == if s.handlers[h].pc.Done? then 0 else StepsLeft(s.handlers[h].pc) - 1
  {
    hide ChallengeKey, LogsPass, LogsResolution, Completed;
    var r := s.handlers[h];
    var key := ChallengeKey(r.requestId, r.action);
    var s' := StepHandler(s, h, false, reading);
    match r.pc
    case ReadingFlag(at, _, read) =>
      LogsNext(s.log, Passed(r.actor, key, h, at, read), r, h);
      LogsOfSame(s'.log, r, s'.handlers[h], h);
    case Resolving =>
      LogsNext(s.log, Entry.Resolved(r.actor, r.requestId, r.action, h, StatusFor(r.action)), r, h);
      LogsOfSame(s'.log, r, s'.handlers[h], h);
    case Consuming =>
      LogsNext(s.log, Consumed(r.actor, key, h), r, h);
      LogsOfSame(s'.log, r, s'.handlers[h], h);
    case _ =>
  }

  lemma LogsOfSame(log: seq<Entry>, r: Handler, r': Handler, h: nat)
    requires SameCall(r, r')
    ensures LogsPass(log, r, h) == LogsPass(log, r', h) && LogsResolution(log, r, h) == LogsResolution(log, r', h)
    ensures Completed(log, r, h) == Completed(log, r', h)
  {
    hide ChallengeKey;
  }

  predicate IsOwn(m: Move, h: nat) {
    m.Advance? && m.h == h
  }

  /** Steps of others leave the call where it is. */
  lemma OtherStepStays(s: State, m: Move, h: nat, until: int)
    requires h < |s.handlers| && Going(s, h, until) && !IsOwn(m, h)
    ensures var s' := Step(s, m); h < |s'.handlers| && s'.handlers[h] == s.handlers[h] && Going(s', h, until)
  {
    LogOfStep(s, m, h);
    hide Step;
    GoingGrows(s, Step(s, m), h, until);
  }

  lemma GoingGrows(s: State, s': State, h: nat, until: int)
    requires h < |s.handlers| && Going(s, h, until) && s.log <= s'.log
    requires h < |s'.handlers| && s'.handlers[h] == s.handlers[h]
    ensures Going(s', h, until)
  {
    hide ChallengeKey, LogsPass, LogsResolution, Completed;
    var r := s.handlers[h];
    match r.pc
    case Resolving => PassGrows(s.log, s'.log, r, h);
    case Consuming => ResolutionGrows(s.log, s'.log, r, h);
    case Done => CompletionGrows(s.log, s'.log, r, h);
    case _ =>
  }

  lemma LogOfStep(s: State, m: Move, h: nat)
    requires h < |s.handlers| && !IsOwn(m, h)
    ensures var s' := Step(s, m); s.log <= s'.log && h < |s'.handlers| && s'.handlers[h] == s.handlers[h]
  {
    hide ChallengeKey, Create, Get, Resolve, Cleanup, Consume, ExpireSession, StepHandler;
    if m.Advance? && m.h < |s.handlers| { LogOfOther(s, m.h, m.fails, m.reading, h); }
  }

  lemma LogOfOther(s: State, other: nat, fails: bool, reading: int, h: nat)
    requires h < |s.handlers| && other < |s.handlers| && other != h
    ensures var s' := StepHandler(s, other, fails, reading); s.log <= s'.log && s'.handlers[h] == s.handlers[h]
  {
    hide ChallengeKey, Get, Resolve, Cleanup, Consume, Held;
  }

  /** Nothing undoes the confirmation of the call in any state of the run up to its
      resolution; its own steps meet no failure, and their clock readings come
      before the end. */
  ghost predicate Undisturbed(s: State, moves: seq<Move>, h: nat, until: int)
    requires h < |s.handlers|
    decreases |moves|
  {
    && (s.handlers[h].pc.Consuming? || s.handlers[h].pc.Done? || Open(s, s.handlers[h], until))
    && (moves != [] ==>
          && (IsOwn(moves[0], h) ==> !moves[0].fails && moves[0].reading < until)
          && h < |Step(s, moves[0]).handlers| && Undisturbed(Step(s, moves[0]), moves[1..], h, until))
  }

  function OwnSteps(moves: seq<Move>, h: nat): nat {
    if moves == [] then 0 else (if IsOwn(moves[0], h) then 1 else 0) + OwnSteps(moves[1..], h)
  }

  lemma {:induction false} CallGoes(s: State, moves: seq<Move>, h: nat, until: int)
    requires h < |s.handlers| && Going(s, h, until) && Undisturbed(s, moves, h, until)
    ensures var end := Run(s, moves);
            && h < |end.handlers| && SameCall(s.handlers[h], end.handlers[h]) && Going(end, h, until)
            && (StepsLeft(s.handlers[h].pc) <= OwnSteps(moves, h) ==> end.handlers[h].pc.Done?)
    decreases |moves|
  {
    hide Step, Open, Going;
    if moves == [] {
      NoStepsLeft(s, h);
    } else {
      var next := Step(s, moves[0]);
      if IsOwn(moves[0], h) {
        OwnStepGoes(s, h, moves[0].reading, until);
        OwnMove(s, moves[0], h);
      } else {
        OtherStepStays(s, moves[0], h, until);
      }
      CallGoes(next, moves[1..], h, until);
    }
  }

  lemma NoStepsLeft(s: State, h: nat)
    requires h < |s.handlers|
    ensures StepsLeft(s.handlers[h].pc) == 0 ==> s.handlers[h].pc.Done?
  {
  }

  lemma OwnMove(s: State, m: Move, h: nat)
    requires h < |s.handlers| && IsOwn(m, h) && !m.fails
    ensures Step(s, m) == StepHandler(s, h, false, m.reading)
  {
  }

  /** Under any interleaving that leaves its confirmation, its challenge and its
      request alone, a call that takes its seven steps passes the check, resolves
      the request with the status of its action, and consumes the challenge. */
  lemma ConfirmedCallCompletes(s: State, moves: seq<Move>, h: nat, until: int)
    requires h < |s.handlers| && s.handlers[h].pc.Looking? && Undisturbed(s, moves, h, until)
    requires OwnSteps(moves, h) >= 7
    ensures Completed(Run(s, moves).log, s.handlers[h], h)
  {
    hide Undisturbed, Run, Completed;
    CallGoes(s, moves, h, until);
    var end := Run(s, moves);
    LogsOfSame(end.log, s.handlers[h], end.handlers[h], h);
  }

  // ---- Both calls ----

  /** n steps of one handler, without a failure. */
  function Steps(h: nat, now: int, n: nat): seq<Move> {
    seq(n, i => Advance(h, false, now))
  }

  lemma StepsHead(h: nat, now: int, n: nat)
    requires n > 0
    ensures |Steps(h, now, n)| == n && Steps(h, now, n)[0] == Advance(h, false, now)
            && Steps(h, now, n)[1..] == Steps(h, now, n - 1)
  {
  }

  lemma {:induction false} StepsAreOwn(h: nat, now: int, n: nat)
    ensures OwnSteps(Steps(h, now, n), h) == n
  {
    if n > 0 {
      StepsHead(h, now, n);
      StepsAreOwn(h, now, n - 1);
    }
  }

  lemma {:induction false} RunAppend(s: State, a: seq<Move>, b: seq<Move>)
    ensures Run(s, a + b) == Run(Run(s, a), b)
    decreases |a|
  {
    hide Step;
    if a == [] {
      assert a + b == b;
    } else {
      assert (a + b)[1..] == a[1..] + b;
      RunAppend(Step(s, a[0]), a[1..], b);
    }
  }

  /** The steps of a confirmed call leave it confirmed until it resolves. */
  lemma OwnStepKeepsOpen(s: State, h: nat, until: int)
    requires h < |s.handlers| && Going(s, h, until) && Open(s, s.handlers[h], until)
    requires StepsLeft(s.handlers[h].pc) > 2
    ensures var s' := StepHandler(s, h, false, s.now); Open(s', s'.handlers[h], until) && s'.now == s.now
  {
    hide ChallengeKey, LogsPass, LogsResolution, Completed;
  }

  lemma {:induction false} AloneIsUndisturbed(s: State, h: nat, n: nat, until: int)
    requires h < |s.handlers| && Going(s, h, until) && s.now < until
    requires s.handlers[h].pc.Consuming? || s.handlers[h].pc.Done? || Open(s, s.handlers[h], until)
    ensures Undisturbed(s, Steps(h, s.now, n), h, until)
    decreases n
  {
    hide Open, Going, Undisturbed, StepHandler, Steps;
    if n > 0 {
      OwnStepGoes(s, h, s.now, until);
      TimeStands(s, h);
      if StepsLeft(s.handlers[h].pc) > 2 { OwnStepKeepsOpen(s, h, until); } else { LastSteps(s, h, until); }
      AloneIsUndisturbed(StepHandler(s, h, false, s.now), h, n - 1, until);
      UndisturbedStep(s, h, n, until);
    } else {
      NoSteps(h, s.now);
      UndisturbedEnd(s, h, until);
    }
  }

  lemma UndisturbedEnd(s: State, h: nat, until: int)
    requires h < |s.handlers|
    requires s.handlers[h].pc.Consuming? || s.handlers[h].pc.Done? || Open(s, s.handlers[h], until)
    ensures Undisturbed(s, [], h, until)
  {
  }

  lemma UndisturbedStep(s: State, h: nat, n: nat, until: int)
    requires h < |s.handlers| && n > 0 && s.now < until
    requires s.handlers[h].pc.Consuming? || s.handlers[h].pc.Done? || Open(s, s.handlers[h], until)
    requires Undisturbed(StepHandler(s, h, false, s.now), Steps(h, s.now, n - 1), h, until)
    ensures Undisturbed(s, Steps(h, s.now, n), h, until)
  {
    hide Open, StepHandler, Steps;
    StepsHead(h, s.now, n);
  }

  lemma NoSteps(h: nat, now: int)
    ensures Steps(h, now, 0) == []
  {
  }

  lemma TimeStands(s: State, h: nat)
    requires h < |s.handlers|
    ensures StepHandler(s, h, false, s.now).now == s.now
  {
    hide ChallengeKey, Create, Get, Resolve, Cleanup, Consume;
  }

  lemma LastSteps(s: State, h: nat, until: int)
    requires h < |s.handlers| && Going(s, h, until) && StepsLeft(s.handlers[h].pc) <= 2
    requires s.handlers[h].pc.Consuming? || s.handlers[h].pc.Done? || Open(s, s.handlers[h], until)
    ensures var pc := StepHandler(s, h, false, s.now).handlers[h].pc; pc.Consuming? || pc.Done?
  {
    hide ChallengeKey, LogsPass, LogsResolution, Completed;
  }

  /** What the first call does: it raises the flag and stores the challenge. */
  lemma FirstCallRaises(s: State, h: nat)
    requires h < |s.handlers| && s.handlers[h].pc.Looking?
    requires !(s.handlers[h].actor in s.mfa && !s.mfa[s.handlers[h].actor])
    requires var id := s.handlers[h].requestId; id in s.store.requests && Standing(s.store.requests[id], s.now)
    ensures var r := s.handlers[h];
            var key := ChallengeKey(r.requestId, r.action);
            var end := Run(s, Steps(h, s.now, 7));
            && end.handlers == s.handlers[h := r.(pc := Done)] && end.now == s.now
            && end.log == s.log + [Raised(r.actor, key, h), Stored(r.actor, key, h, s.now)]
            && r.actor in end.store.challenges && end.store.challenges[r.actor] == Challenge(key, s.now + TEN_MINUTES)
            && r.requestId in end.store.requests && end.store.requests[r.requestId] == s.store.requests[r.requestId]
            && r.actor in end.mfa && end.mfa[r.actor]
  {
    hide ChallengeKey, Run, Steps, Cleanup;
    var s4 := FirstFourSteps(s, h);
    StaysTwice(s.store, s.now, s.handlers[h].requestId);
    RaisingAndStoring(s4, h);
    FourAndThree(s, h, s4);
  }

  lemma StaysTwice(s: Store, now: int, id: string)
    requires id in s.requests && Standing(s.requests[id], now)
    ensures var c := Cleanup(Cleanup(s, now), now); id in c.requests && c.requests[id] == s.requests[id]
  {
  }

  lemma FourAndThree(s: State, h: nat, s4: State)
    requires Run(s, Steps(h, s.now, 4)) == s4 && s4.now == s.now
    ensures Run(s, Steps(h, s.now, 7)) == Run(s4, Steps(h, s4.now, 3))
  {
    hide Run, Steps;
    RunAppend(s, Steps(h, s.now, 4), Steps(h, s.now, 3));
    StepsAdd(h, s.now, 4, 3);
  }

  lemma StepsAdd(h: nat, now: int, m: nat, n: nat)
    ensures Steps(h, now, m) + Steps(h, now, n) == Steps(h, now, m + n)
  {
  }

  lemma RunOne(s: State, h: nat, n: nat)
    requires n > 0 && h < |s.handlers|
    ensures Run(s, Steps(h, s.now, n)) == Run(StepHandler(s, h, false, s.now), Steps(h, s.now, n - 1))
  {
    hide StepHandler, Steps;
    StepsHead(h, s.now, n);
  }

  lemma RunNone(s: State, h: nat)
    ensures Run(s, Steps(h, s.now, 0)) == s
  {
  }

  lemma FirstFourSteps(s: State, h: nat) returns (s4: State)
    requires h < |s.handlers| && s.handlers[h].pc.Looking?
    requires var id := s.handlers[h].requestId; id in s.store.requests && Standing(s.store.requests[id], s.now)
    ensures Run(s, Steps(h, s.now, 4)) == s4
    ensures var r := s.handlers[h];
            && s4.store == Cleanup(Cleanup(s.store, s.now), s.now) && s4.mfa == s.mfa && s4.now == s.now
               && s4.log == s.log
            && s4.handlers == s.handlers[h := r.(pc := ReadingFlag(s.now, Held(s4.store, r.actor), |s.log|))]
  {
    hide ChallengeKey, Steps, Run;
    var s1 := StepHandler(s, h, false, s.now);
    assert s1 == s.(store := Cleanup(s.store, s.now),
                    handlers := s.handlers[h := s.handlers[h].(pc := CheckingMethod)]);
    var s2 := StepHandler(s1, h, false, s.now);
    assert s2 == s1.(handlers := s.handlers[h := s.handlers[h].(pc := ReadingClock)]);
    var s3 := StepHandler(s2, h, false, s.now);
    assert s3 == s1.(handlers := s.handlers[h := s.handlers[h].(pc := ReadingChallenge(s.now))]);
    s4 := StepHandler(s3, h, false, s.now);
    RunOne(s, h, 4);
    RunOne(s1, h, 3);
    RunOne(s2, h, 2);
    RunOne(s3, h, 1);
    RunNone(s4, h);
  }

  lemma RaisingAndStoring(s: State, h: nat)
    requires h < |s.handlers| && s.handlers[h].pc.ReadingFlag?
    requires !(s.handlers[h].actor in s.mfa && !s.mfa[s.handlers[h].actor])
    ensures var r := s.handlers[h];
            var key := ChallengeKey(r.requestId, r.action);
            Run(s, Steps(h, s.now, 3)) ==
              s.(mfa := s.mfa[r.actor := true], handlers := s.handlers[h := r.(pc := Done)],
                 log := s.log + [Raised(r.actor, key, h), Stored(r.actor, key, h, r.pc.at)],
                 store := s.store.(challenges := s.store.challenges[r.actor := Challenge(key, r.pc.at + TEN_MINUTES)]))
  {
    hide ChallengeKey, Steps, Run;
    var r := s.handlers[h];
    var key := ChallengeKey(r.requestId, r.action);
    var s1 := s.(handlers := s.handlers[h := r.(pc := Raising(r.pc.at))]);
    var s2 := s.(mfa := s.mfa[r.actor := true], handlers := s.handlers[h := r.(pc := Storing(r.pc.at))],
                 log := s.log + [Raised(r.actor, key, h)]);
    var s3 := s2.(handlers := s.handlers[h := r.(pc := Done)], log := s2.log + [Stored(r.actor, key, h, r.pc.at)],
                  store := s.store.(challenges :=
                                    s.store.challenges[r.actor := Challenge(key, r.pc.at + TEN_MINUTES)]));
    assert s1 == StepHandler(s, h, false, s.now);
    assert s2 == StepHandler(s1, h, false, s.now) by { RaisingIs(s1, h); }
    assert s3 == StepHandler(s2, h, false, s.now) by { StoringIs(s2, h); }
    assert s3.log == s.log + [Raised(r.actor, key, h), Stored(r.actor, key, h, r.pc.at)];
    hide StepHandler;
    RunOne(s, h, 3);
    RunOne(s1, h, 2);
    RunOne(s2, h, 1);
    RunNone(s3, h);
  }

  lemma RaisingIs(s: State, h: nat)
    requires h < |s.handlers| && s.handlers[h].pc.Raising?
    ensures var r := s.handlers[h];
            StepHandler(s, h, false, s.now) ==
              s.(mfa := s.mfa[r.actor := true], handlers := s.handlers[h := r.(pc := Storing(r.pc.at))],
                 log := s.log + [Raised(r.actor, ChallengeKey(r.requestId, r.action), h)])
  {
    hide ChallengeKey;
  }

  lemma StoringIs(s: State, h: nat)
    requires h < |s.handlers| && s.handlers[h].pc.Storing?
    ensures var r := s.handlers[h];
            var key := ChallengeKey(r.requestId, r.action);
            StepHandler(s, h, false, s.now) ==
              s.(store := s.store.(challenges := s.store.challenges[r.actor := Challenge(key, r.pc.at + TEN_MINUTES)]),
                 handlers := s.handlers[h := r.(pc := Done)], log := s.log + [Stored(r.actor, key, h, r.pc.at)])
  {
    hide ChallengeKey;
  }

  /** The state in which the actor has been asked for a second factor. */
  function Asked(s: State, call: Move): State {
    Run(Step(s, call), Steps(|s.handlers|, s.now, 7))
  }

  /** And the state in which the actor has confirmed and calls again, later. */
  function Again(asked: State, call: Move, actor: int, d: nat): State {
    Step(Step(Step(asked, ClearFlag(actor)), Tick(d)), call)
  }

  lemma AgainIsOpen(s: State, actor: int, id: string, action: Action, d: nat)
    requires !(actor in s.mfa && !s.mfa[actor]) && d < TEN_MINUTES
    requires id in s.store.requests && Standing(s.store.requests[id], s.now + d)
    ensures var again := Again(Asked(s, Arrive(actor, id, action)), Arrive(actor, id, action), actor, d);
            var h := |s.handlers| + 1;
            && |again.handlers| == h + 1 && again.handlers[h] == Handler(actor, id, action, Looking)
            && again.now == s.now + d && Open(again, again.handlers[h], again.now + 1)
  {
    hide ChallengeKey, Run, Steps;
    var arrived := Step(s, Arrive(actor, id, action));
    assert arrived == s.(handlers := s.handlers + [Handler(actor, id, action, Looking)]);
    FirstCallRaises(arrived, |s.handlers|);
  }

  lemma CallAloneCompletes(s: State, h: nat)
    requires h < |s.handlers| && s.handlers[h].pc.Looking? && Open(s, s.handlers[h], s.now + 1)
    ensures Completed(Run(s, Steps(h, s.now, 7)).log, s.handlers[h], h)
  {
    hide ChallengeKey, Run, Steps, Completed, Undisturbed, Open;
    AloneIsUndisturbed(s, h, 7, s.now + 1);
    StepsAreOwn(h, s.now, 7);
    ConfirmedCallCompletes(s, Steps(h, s.now, 7), h, s.now + 1);
  }

  /** A first call, the confirmation, and after a while a second call. */
  function BothCalls(s: State, actor: int, id: string, action: Action, d: nat): State {
    var call := Arrive(actor, id, action);
    var again := Again(Asked(s, call), call, actor, d);
    Run(again, Steps(|s.handlers| + 1, again.now, 7))
  }

  lemma BothCallsAre(s: State, call: Move, d: nat)
    requires call.Arrive?
    ensures var again := Again(Asked(s, call), call, call.actor, d);
            BothCalls(s, call.actor, call.requestId, call.action, d)
              == Run(again, Steps(|s.handlers| + 1, again.now, 7))
  {
    hide Run, Steps, Again, Asked;
  }

  /** For every actor, request and action, from every state in which a second factor
      is required and the request stands: with the second call within ten minutes and
      the life of the request, it is resolved. */
  lemma TwoCallsResolve(s: State, actor: int, id: string, action: Action, d: nat)
    requires !(actor in s.mfa && !s.mfa[actor]) && d < TEN_MINUTES
    requires id in s.store.requests && Standing(s.store.requests[id], s.now + d)
    ensures Completed(BothCalls(s, actor, id, action, d).log, Handler(actor, id, action, Looking), |s.handlers| + 1)
  {
    hide *;
    var call := Arrive(actor, id, action);
    AgainIsOpen(s, actor, id, action, d);
    BothCallsAre(s, call, d);
    CallAloneCompletes(Again(Asked(s, call), call, actor, d), |s.handlers| + 1);
  }
}
