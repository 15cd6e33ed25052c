/** The thread cache when reading the repository, filling the cache, writing and
    invalidating are separate steps of calls that race with each other. */
module ForumRaces {
  import opened GoStrings
  import opened Forum
  import opened ForumRuns

  /** A read-through call that has the repository's answer and has not filled the
      cache yet. */
  datatype Pending = Pending(id: int, view: View, readAt: int)

  datatype Race = Race(world: World, pending: seq<Pending>)

  datatype Move =
    | Read(id: int)
    | Fill(call: nat)
    | WriteRows(op: Op)
    | Drop(id: int)
    | Pass(seconds: nat)

  function Perform(r: Race, m: Move): Race {
    var w := r.world;
    match m
    case Read(id) =>
      if Cached(w, id).None? && ViewOf(w.tables, id).Some?
      then r.(pending := r.pending + [Pending(id, ViewOf(w.tables, id).value, w.now)]) else r
    case Fill(call) =>
      if call < |r.pending| then
        var p := r.pending[call];
        Race(w.(cache := w.cache[p.id := Entry(p.view, w.now + THREAD_TTL)]), r.pending[..call] + r.pending[call + 1..])
      else r
    case WriteRows(op) => r.(world := w.(tables := Write(w.tables, op).0))
    case Drop(id) => r.(world := Invalidated(w, id))
    case Pass(seconds) => r.(world := w.(now := w.now + seconds))
  }

  const Idle := Race(Empty, [])

  /** The states of a run, one after each move. */
  function History(moves: seq<Move>): (states: seq<Race>)
    ensures |states| == |moves| + 1
    decreases |moves|
  {
    if moves == [] then [Idle]
    else
      var before := History(moves[..|moves| - 1]);
      before + [Perform(before[|moves| - 1], moves[|moves| - 1])]
  }

  /** The repository gave this answer at that time. */
  predicate Answered(states: seq<Race>, id: int, view: View, at: int) {
    exists k | 0 <= k < |states| :: states[k].world.now == at && ViewOf(states[k].world.tables, id) == Some(view)
  }

  /** An answer from a time no later than the fill. */
  ghost predicate EntryOk(states: seq<Race>, id: int, e: Entry) {
    exists at :: Answered(states, id, e.view, at) && at <= e.expireAt - THREAD_TTL
  }

  ghost predicate Remembered(states: seq<Race>, r: Race) {
    && (forall i | 0 <= i < |r.pending| ::
          r.pending[i].readAt <= r.world.now
            && Answered(states, r.pending[i].id, r.pending[i].view, r.pending[i].readAt))
    && (forall id | id in r.world.cache ::
        r.world.cache[id].expireAt - THREAD_TTL <= r.world.now && EntryOk(states, id, r.world.cache[id]))
  }

  lemma AnsweredGrows(states: seq<Race>, r: Race, id: int, view: View, at: int)
    requires Answered(states, id, view, at)
    ensures Answered(states + [r], id, view, at)
  {
    var k :| 0 <= k < |states| && states[k].world.now == at && ViewOf(states[k].world.tables, id) == Some(view);
    assert (states + [r])[k] == states[k];
  }

  lemma EntryGrows(states: seq<Race>, r: Race, id: int, e: Entry)
    requires EntryOk(states, id, e)
    ensures EntryOk(states + [r], id, e)
  {
    hide Answered;
    var at :| Answered(states, id, e.view, at) && at <= e.expireAt - THREAD_TTL;
    AnsweredGrows(states, r, id, e.view, at);
  }

  lemma MoveRemembers(states: seq<Race>, r: Race, m: Move)
    requires Remembered(states, r)
    ensures var next := Perform(r, m); Remembered(states + [next], next)
  {
    hide ViewOf, Write, Answered, EntryOk;
    var next := Perform(r, m);
    var longer := states + [next];
    forall i | 0 <= i < |next.pending|
      ensures next.pending[i].readAt <= next.world.now
              && Answered(longer, next.pending[i].id, next.pending[i].view, next.pending[i].readAt)
    {
      var p := next.pending[i];
      if p in r.pending {
        AnsweredGrows(states, next, p.id, p.view, p.readAt);
      } else {
        AnswersNow(states, next, p.id, p.view);
      }
    }
    forall id | id in next.world.cache
      ensures next.world.cache[id].expireAt - THREAD_TTL <= next.world.now && EntryOk(longer, id, next.world.cache[id])
    {
      if m.Fill? && m.call < |r.pending| && id == r.pending[m.call].id {
        AnsweredGrows(states, next, id, r.pending[m.call].view, r.pending[m.call].readAt);
        FilledFrom(longer, id, next.world.cache[id], r.pending[m.call].readAt);
      } else {
        EntryGrows(states, next, id, r.world.cache[id]);
      }
    }
  }

  lemma AnswersNow(states: seq<Race>, r: Race, id: int, view: View)
    requires ViewOf(r.world.tables, id) == Some(view)
    ensures Answered(states + [r], id, view, r.world.now)
  {
    assert (states + [r])[|states|] == r;
  }

  lemma FilledFrom(states: seq<Race>, id: int, e: Entry, at: int)
    requires Answered(states, id, e.view, at) && at <= e.expireAt - THREAD_TTL
    ensures EntryOk(states, id, e)
  {
  }

  lemma {:induction false} HistoryRemembers(moves: seq<Move>)
    ensures Remembered(History(moves), History(moves)[|moves|])
    decreases |moves|
  {
    hide Remembered, Perform;
    if moves == [] {
      assert Remembered([Idle], Idle) by { NothingToRemember(); }
    } else {
      var n := |moves| - 1;
      HistoryRemembers(moves[..n]);
      MoveRemembers(History(moves[..n]), History(moves[..n])[n], moves[n]);
    }
  }

  lemma NothingToRemember()
    ensures Remembered([Idle], Idle)
  {
  }

  /** Under any interleaving a thread that is served from the cache is what the
      repository answered at some moment, and was filled in, no earlier than that
      moment, within the last five minutes: it is stale by less than the five
      minutes and the time between the read and the fill. */
  lemma RacingStaleness(moves: seq<Move>, id: int) returns (readAt: int, filledAt: int)
    requires Cached(History(moves)[|moves|].world, id).Some?
    ensures var w := History(moves)[|moves|].world;
            && Answered(History(moves), id, Cached(w, id).value, readAt)
            && readAt <= filledAt <= w.now < filledAt + THREAD_TTL
  {
    hide History, Perform, Answered, ViewOf;
    HistoryRemembers(moves);
    var e := History(moves)[|moves|].world.cache[id];
    assert EntryOk(History(moves), id, e);
    readAt :| Answered(History(moves), id, e.view, readAt) && readAt <= e.expireAt - THREAD_TTL;
    filledAt := e.expireAt - THREAD_TTL;
  }

  /** And the race is real: a read, a deletion with its invalidation, and then the
      fill leave the deleted thread in the cache. */
  lemma LateFillIsStale(r: Race, id: int, actor: int)
    requires ViewOf(r.world.tables, id).Some? && Cached(r.world, id).None? && r.pending == []
    ensures var after :=
            Perform(Perform(Perform(Perform(r, Read(id)), WriteRows(DropThread(id, actor))), Drop(id)), Fill(0));
            ViewOf(after.world.tables, id).None? && Cached(after.world, id) == ViewOf(r.world.tables, id)
  {
  }
}
