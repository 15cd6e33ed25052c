/** Reply counters and the thread cache over every run of the forum. */
module ForumRuns {
  import opened GoStrings
  import opened Forum

  datatype Op =
    | GetThreadOp(id: int)
    | NewThread(id: int, category: int, user: int, title: string, content: string, pinned: bool, locked: bool)
    | EditThread(id: int, category: int, title: string, content: string, pinned: bool, locked: bool)
    | DropThread(id: int, actor: int)
    | LikeOp(id: int, user: int)
    | UnlikeOp(id: int, user: int)
    | NewComment(id: int, thread: int, user: int, content: string)
    | EditComment(id: int, content: string)
    | DropComment(id: int, actor: int)
    | NewCategory(id: int, name: string)
    | RenameCategory(id: int, name: string)
    | DropCategory(id: int, actor: int)
    | Revive(resource: Resource, id: int, actor: int, managed: bool)
    | Wait(seconds: nat)

  /** What changes the tables. New rows get fresh ids. */
  function Write(t: Tables, op: Op): (Tables, Outcome) {
    match op
    case NewThread(id, category, user, title, content, pinned, locked) =>
      if id in t.threads then (t, NotFound) else CreateThread(t, id, category, user, title, content, pinned, locked)
    case EditThread(id, category, title, content, pinned, locked) =>
      UpdateThread(t, id, category, title, content, pinned, locked)
    case DropThread(id, actor) => (DeleteThread(t, id, actor), Done)
    case LikeOp(id, user) => (Like(t, id, user), Done)
    case UnlikeOp(id, user) => (Unlike(t, id, user), Done)
    case NewComment(id, thread, user, content) =>
      if id in t.comments then (t, NotFound) else CreateComment(t, id, thread, user, content)
    case EditComment(id, content) => UpdateComment(t, id, content)
    case DropComment(id, actor) =>
      if LiveComment(t, id) && Visible(t, t.comments[id].thread) then (DeleteComment(t, id, actor), Done)
        else (t, NotFound)
    case NewCategory(id, name) =>
      if id in t.categories then (t, NotFound) else (t.(categories := t.categories[id := Category(name, None)]), Done)
    case RenameCategory(id, name) =>
      if LiveCategory(t, id) then (t.(categories := t.categories[id := t.categories[id].(name := name)]), Done)
        else (t, NotFound)
    case DropCategory(id, actor) => (DeleteCategory(t, id, actor), Done)
    case Revive(resource, id, actor, managed) => Restore(t, resource, id, actor, managed)
    case _ => (t, Done)
  }

  /** The cached thread an operation invalidates when it succeeds. */
  function Touched(t: Tables, op: Op): Option<int> {
    match op
    case NewThread(id, _, _, _, _, _, _) => Some(id)
    case EditThread(id, _, _, _, _, _) => Some(id)
    case DropThread(id, _) => Some(id)
    case LikeOp(id, _) => Some(id)
    case UnlikeOp(id, _) => Some(id)
    case NewComment(_, thread, _, _) => Some(thread)
    case DropComment(id, _) => if id in t.comments then Some(t.comments[id].thread) else None
    case _ => None
  }

  function Step(w: World, op: Op): World {
    match op
    case GetThreadOp(id) => Fetched(w, id).0
    case Wait(seconds) => w.(now := w.now + seconds)
    case _ =>
      var (t, outcome) := Write(w.tables, op);
      var touched := Touched(w.tables, op);
      if outcome.Done? && touched.Some? then Invalidated(w.(tables := t), touched.value) else w.(tables := t)
  }

  const Empty := World(Tables(map[], map[], map[], map[]), map[], 0)

  function Run(w: World, ops: seq<Op>): World
    decreases |ops|
  {
    if ops == [] then w else Run(Step(w, ops[0]), ops[1..])
  }

  // ---- Conservation of replies ----

  function Replies(t: Tables, thread: int): set<int> {
    set c | c in t.comments && LiveComment(t, c) && t.comments[c].thread == thread
  }

  ghost predicate Conserved(t: Tables) {
    && (forall c | c in t.comments :: t.comments[c].thread in t.threads)
    && (forall id | id in t.threads :: t.threads[id].replyCount == |Replies(t, id)|)
  }

  /** Adding or reviving one comment, or tombstoning one. */
  lemma ReplyAdded(t: Tables, after: Tables, id: int, thread: int)
    requires !LiveComment(t, id) && LiveComment(after, id) && after.comments[id].thread == thread
    requires forall c | c != id :: LiveComment(after, c) == LiveComment(t, c)
    requires forall c | c != id && LiveComment(t, c) && LiveComment(after, c) ::
             after.comments[c].thread == t.comments[c].thread
    ensures |Replies(after, thread)| == |Replies(t, thread)| + 1
    ensures forall other | other != thread :: Replies(after, other) == Replies(t, other)
  {
    assert Replies(after, thread) == Replies(t, thread) + {id};
  }

  lemma RepliesKept(t: Tables, after: Tables)
    requires forall c :: LiveComment(after, c) == LiveComment(t, c)
    requires forall c | LiveComment(t, c) && LiveComment(after, c) :: after.comments[c].thread == t.comments[c].thread
    ensures forall thread :: Replies(after, thread) == Replies(t, thread)
  {
  }

  lemma NewCommentConserves(t: Tables, id: int, thread: int, user: int, content: string)
    requires Conserved(t) && id !in t.comments
    ensures Conserved(CreateComment(t, id, thread, user, content).0)
  {
    hide Replies;
    if Visible(t, thread) { ReplyAdded(t, CreateComment(t, id, thread, user, content).0, id, thread); }
  }

  lemma RevivedCommentConserves(t: Tables, id: int, actor: int, managed: bool)
    requires Conserved(t)
    ensures Conserved(Restore(t, Comments, id, actor, managed).0)
  {
    hide Replies;
    if Restore(t, Comments, id, actor, managed).1.Done? {
      ReplyAdded(t, Restore(t, Comments, id, actor, managed).0, id, t.comments[id].thread);
    }
  }

  /** A live comment is counted, so deleting it never meets a zero counter. */
  lemma DroppedCommentConserves(t: Tables, id: int, actor: int)
    requires Conserved(t) && LiveComment(t, id)
    ensures t.threads[t.comments[id].thread].replyCount >= 1
    ensures Conserved(DeleteComment(t, id, actor))
  {
    var after := DeleteComment(t, id, actor);
    var thread := t.comments[id].thread;
    assert id in Replies(t, thread);
    hide Replies;
    ReplyAdded(after, t, id, thread);
  }

  /** Comments alive where they were, and counters alone. */
  ghost predicate Quiet(t: Tables, after: Tables) {
    && after.comments.Keys == t.comments.Keys
    && (forall c | c in t.comments ::
          after.comments[c].thread == t.comments[c].thread && after.comments[c].tombstone == t.comments[c].tombstone)
    && (forall id | id in t.threads :: id in after.threads)
    && (forall id | id in after.threads ::
        after.threads[id].replyCount == if id in t.threads then t.threads[id].replyCount else 0)
  }

  lemma QuietWriteConserves(t: Tables, after: Tables)
    requires Conserved(t) && Quiet(t, after)
    ensures Conserved(after)
  {
    RepliesKept(t, after);
    forall id | id in after.threads && id !in t.threads ensures |Replies(t, id)| == 0 { NoReplies(t, id); }
    hide Replies;
  }

  lemma QuietWrites(t: Tables, op: Op)
    requires !op.NewComment? && !op.DropComment? && !(op.Revive? && op.resource == Comments)
    ensures Quiet(t, Write(t, op).0)
  {
    hide Authorized, Visible, LikersOf, ParentActive;
  }

  lemma WriteConserves(t: Tables, op: Op)
    requires Conserved(t)
    ensures Conserved(Write(t, op).0)
  {
    hide Conserved, Replies, Quiet, Restore, CreateComment, DeleteComment, CreateThread, UpdateThread, DeleteThread,
      Like, Unlike, UpdateComment, DeleteCategory, Visible;
    match op
    case NewComment(id, thread, user, content) => if id !in t.comments {
      NewCommentConserves(t, id, thread, user, content);
    }
    case DropComment(id, actor) => if LiveComment(t, id) { DroppedCommentConserves(t, id, actor); }
    case Revive(Comments, id, actor, managed) => RevivedCommentConserves(t, id, actor, managed);
    case _ =>
      QuietWrites(t, op);
      QuietWriteConserves(t, Write(t, op).0);
  }

  lemma NoReplies(t: Tables, thread: int)
    requires Conserved(t) && thread !in t.threads
    ensures |Replies(t, thread)| == 0
  {
    assert Replies(t, thread) == {};
  }

  lemma {:induction false} RunConserves(w: World, ops: seq<Op>)
    requires Conserved(w.tables)
    ensures Conserved(Run(w, ops).tables)
    decreases |ops|
  {
    hide Conserved, Write, Touched, ViewOf;
    if ops != [] {
      WriteConserves(w.tables, ops[0]);
      RunConserves(Step(w, ops[0]), ops[1..]);
    }
  }

  /** In every reachable state each thread's counter is the number of its comments
      that are not deleted. */
  lemma ReplyCountsAreExact(ops: seq<Op>, thread: int)
    requires thread in Run(Empty, ops).tables.threads
    ensures var t := Run(Empty, ops).tables; t.threads[thread].replyCount == |Replies(t, thread)|
  {
    RunConserves(Empty, ops);
  }

  /** So the floor of the decrement is never used. */
  lemma ClampNeverBites(ops: seq<Op>, comment: int, actor: int)
    requires LiveComment(Run(Empty, ops).tables, comment)
    ensures var t := Run(Empty, ops).tables; var thread := t.comments[comment].thread;
            thread in t.threads
            && DeleteComment(t, comment, actor).threads[thread].replyCount == t.threads[thread].replyCount - 1
  {
    RunConserves(Empty, ops);
    DroppedCommentConserves(Run(Empty, ops).tables, comment, actor);
  }

  // ---- Coherence of the cache ----

  /** Every entry is what the repository returns now. */
  ghost predicate Coherent(w: World) {
    forall id | id in w.cache :: Some(w.cache[id].view) == ViewOf(w.tables, id)
  }

  /** The operations that do not go through the service's thread and comment
      methods. */
  predicate BypassesCache(op: Op) {
    op.DropCategory? || op.Revive?
  }

  /** An operation of the service changes the view of no thread but the one it
      invalidates. */
  lemma OnlyTouchedChanges(t: Tables, op: Op, id: int)
    requires !BypassesCache(op)
    requires Write(t, op).1.Done? ==> Touched(t, op) != Some(id)
    ensures ViewOf(t, id).Some? ==> ViewOf(Write(t, op).0, id) == ViewOf(t, id)
  {
  }

  lemma StepKeepsCoherence(w: World, op: Op)
    requires Coherent(w) && !BypassesCache(op)
    ensures Coherent(Step(w, op))
  {
    hide ViewOf, Write, Touched;
    forall id | id in Step(w, op).cache ensures Some(Step(w, op).cache[id].view) == ViewOf(Step(w, op).tables, id) {
      if !op.GetThreadOp? && !op.Wait? {
        assert Write(w.tables, op).1.Done? ==> Touched(w.tables, op) != Some(id);
        OnlyTouchedChanges(w.tables, op, id);
      }
    }
  }

  lemma {:induction false} RunKeepsCoherence(w: World, ops: seq<Op>)
    requires Coherent(w) && forall i | 0 <= i < |ops| :: !BypassesCache(ops[i])
    ensures Coherent(Run(w, ops))
    decreases |ops|
  {
    hide Coherent, Step, BypassesCache;
    if ops != [] {
      StepKeepsCoherence(w, ops[0]);
      RunKeepsCoherence(Step(w, ops[0]), ops[1..]);
    }
  }

  /** After any sequence of the service's operations a thread is read as the
      repository has it, cached or not. */
  lemma GetThreadIsCurrent(ops: seq<Op>, id: int)
    requires forall i | 0 <= i < |ops| :: !BypassesCache(ops[i])
    ensures var w := Run(Empty, ops); Fetched(w, id).1 == ViewOf(w.tables, id)
  {
    RunKeepsCoherence(Empty, ops);
  }

  // ---- Bounded staleness ----

  /** The states of a run, one after each operation. */
  function Trace(w: World, ops: seq<Op>): (states: seq<World>)
    ensures |states| == |ops| + 1
    decreases |ops|
  {
    if ops == [] then [w] else [w] + Trace(Step(w, ops[0]), ops[1..])
  }

  /** An entry was the repository's answer when it was filled in. */
  predicate FilledIn(history: seq<World>, id: int, e: Entry) {
    exists k | 0 <= k < |history| ::
      history[k].now + THREAD_TTL == e.expireAt && ViewOf(history[k].tables, id) == Some(e.view)
  }

  ghost predicate CacheRemembers(history: seq<World>) {
    history != [] ==> var w := history[|history| - 1]; forall id | id in w.cache :: FilledIn(history, id, w.cache[id])
  }

  lemma StepRemembers(history: seq<World>, op: Op)
    requires history != [] && CacheRemembers(history)
    ensures CacheRemembers(history + [Step(history[|history| - 1], op)])
  {
    hide ViewOf, Write, Touched;
    var w := history[|history| - 1];
    var next := Step(w, op);
    var longer := history + [next];
    forall id | id in next.cache ensures FilledIn(longer, id, next.cache[id]) {
      if id in w.cache && next.cache[id] == w.cache[id] {
        var k :| 0 <= k < |history| && history[k].now + THREAD_TTL == w.cache[id].expireAt
          && ViewOf(history[k].tables, id) == Some(w.cache[id].view);
        assert longer[k] == history[k];
      } else {
        assert longer[|history|] == next && next.now + THREAD_TTL == next.cache[id].expireAt;
      }
    }
  }

  lemma {:induction false} TraceIsRun(w: World, ops: seq<Op>)
    ensures Trace(w, ops)[|ops|] == Run(w, ops)
    decreases |ops|
  {
    hide Step;
    if ops != [] { TraceIsRun(Step(w, ops[0]), ops[1..]); }
  }

  lemma {:induction false} TimePasses(w: World, ops: seq<Op>)
    ensures forall k | 0 <= k <= |ops| :: w.now <= Trace(w, ops)[k].now <= Run(w, ops).now
    decreases |ops|
  {
    hide ViewOf, Write, Touched;
    if ops != [] {
      var next := Step(w, ops[0]);
      assert w.now <= next.now;
      TimePasses(next, ops[1..]);
      var rest := Trace(next, ops[1..]);
      forall k | 0 <= k <= |ops| ensures w.now <= Trace(w, ops)[k].now <= Run(w, ops).now {
        assert Trace(w, ops)[k] == if k == 0 then w else rest[k - 1];
        assert w.now <= rest[0].now <= Run(w, ops).now;
      }
    }
  }

  lemma {:induction false} TraceRemembers(history: seq<World>, w: World, ops: seq<Op>)
    requires CacheRemembers(history + [w])
    ensures CacheRemembers(history + Trace(w, ops))
    decreases |ops|
  {
    hide Step, CacheRemembers;
    if ops == [] {
    } else {
      var next := Step(w, ops[0]);
      StepRemembers(history + [w], ops[0]);
      TraceRemembers(history + [w], next, ops[1..]);
      assert history + [w] + Trace(next, ops[1..]) == history + ([w] + Trace(next, ops[1..]));
    }
  }

  /** Whatever operations run, category deletions and restores included, a thread
      that is read is what the repository had at some moment of the last five
      minutes. */
  lemma StalenessIsBounded(ops: seq<Op>, id: int)
    ensures var w := Run(Empty, ops);
            exists k | 0 <= k <= |ops| :: var past := Trace(Empty, ops)[k];
              w.now - THREAD_TTL < past.now <= w.now && Fetched(w, id).1 == ViewOf(past.tables, id)
  {
    hide ViewOf, Step;
    var w, trace := Run(Empty, ops), Trace(Empty, ops);
    TraceIsRun(Empty, ops);
    assert CacheRemembers([] + [Empty]);
    TraceRemembers([], Empty, ops);
    assert [] + trace == trace;
    TimePasses(Empty, ops);
    if Cached(w, id).Some? {
      assert FilledIn(trace, id, w.cache[id]);
      var k :| 0 <= k < |trace| && trace[k].now + THREAD_TTL == w.cache[id].expireAt
        && ViewOf(trace[k].tables, id) == Some(w.cache[id].view);
      assert w.now - THREAD_TTL < trace[k].now;
    } else {
      assert trace[|ops|] == w;
    }
  }

  /** The bypass is real: a thread read once is still served after its category
      has been deleted. */
  lemma DeletedCategoryIsStillServed(w: World, id: int, actor: int)
    requires ViewOf(w.tables, id).Some?
    ensures var after := Step(Step(w, GetThreadOp(id)), DropCategory(w.tables.threads[id].category, actor));
            ViewOf(after.tables, id).None? && Fetched(after, id).1.Some?
  {
  }
}
