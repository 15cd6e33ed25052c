/** Reply counters when the two statements of a new comment are interleaved with
    everything else. */
module ForumLedger {
  import opened GoStrings
  import opened Forum
  import opened ForumRuns

  /** The tables, and for each thread the increments still to come, the
      increments that never came, and the decrements cut off at zero. */
  datatype Ledger = Ledger(tables: Tables, pending: multiset<int>, lost: multiset<int>, clamped: multiset<int>)

  datatype Move =
    | Insert(id: int, thread: int, user: int, content: string)
    | Bump(thread: int, fails: bool)
    | Remove(id: int, actor: int)
    | Other(op: Op)

  predicate CountsUp(t: Tables, thread: int) {
    thread in t.threads && t.threads[thread].tombstone.None?
  }

  predicate IsOther(op: Op) {
    !op.NewComment? && !op.DropComment?
  }

  /** One statement. The error of the increment is ignored, and it skips a thread
      that has been deleted meanwhile. */
  function Perform(l: Ledger, m: Move): Ledger {
    match m
    case Insert(id, thread, user, content) =>
      if id in l.tables.comments || !Visible(l.tables, thread) then l
      else l.(tables := InsertComment(l.tables, id, thread, user, content).0, pending := l.pending + multiset{thread})
    case Bump(thread, fails) =>
      if thread !in l.pending then l
      else if fails || !CountsUp(l.tables, thread) then
        l.(pending := l.pending - multiset{thread}, lost := l.lost + multiset{thread})
      else l.(tables := BumpReplies(l.tables, thread), pending := l.pending - multiset{thread})
    case Remove(id, actor) =>
      if !LiveComment(l.tables, id) then l
      else
        var thread := l.tables.comments[id].thread;
        var cut := thread in l.tables.threads && l.tables.threads[thread].replyCount == 0;
        l.(tables := DeleteComment(l.tables, id, actor),
           clamped := if cut then l.clamped + multiset{thread} else l.clamped)
    case Other(op) => if IsOther(op) then l.(tables := Write(l.tables, op).0) else l
  }

  function PerformAll(l: Ledger, moves: seq<Move>): Ledger
    decreases |moves|
  {
    if moves == [] then l else PerformAll(Perform(l, moves[0]), moves[1..])
  }

  const Start := Ledger(Empty.tables, multiset{}, multiset{}, multiset{})

  predicate BalancedAt(l: Ledger, thread: int)
    requires thread in l.tables.threads
  {
    l.tables.threads[thread].replyCount + l.pending[thread] + l.lost[thread]
      == |Replies(l.tables, thread)| + l.clamped[thread]
  }

  ghost predicate Balanced(l: Ledger) {
    && (forall c | c in l.tables.comments :: l.tables.comments[c].thread in l.tables.threads)
    && (forall thread | thread in l.pending || thread in l.lost || thread in l.clamped :: thread in l.tables.threads)
    && (forall thread | thread in l.tables.threads :: l.tables.threads[thread].replyCount >= 0 && BalancedAt(l, thread))
  }

  lemma InsertBalances(l: Ledger, id: int, thread: int, user: int, content: string)
    requires Balanced(l) && id !in l.tables.comments && Visible(l.tables, thread)
    ensures Balanced(Perform(l, Insert(id, thread, user, content)))
  {
    hide Replies;
    ReplyAdded(l.tables, Perform(l, Insert(id, thread, user, content)).tables, id, thread);
  }

  lemma BumpBalances(l: Ledger, thread: int, fails: bool)
    requires Balanced(l)
    ensures Balanced(Perform(l, Bump(thread, fails)))
  {
    hide Replies;
    RepliesKept(l.tables, Perform(l, Bump(thread, fails)).tables);
  }

  lemma RemoveBalances(l: Ledger, id: int, actor: int)
    requires Balanced(l) && LiveComment(l.tables, id)
    ensures Balanced(Perform(l, Remove(id, actor)))
  {
    hide Replies;
    ReplyAdded(Perform(l, Remove(id, actor)).tables, l.tables, id, l.tables.comments[id].thread);
  }

  lemma RestoreBalances(l: Ledger, id: int, actor: int, managed: bool)
    requires Balanced(l)
    ensures Balanced(l.(tables := Restore(l.tables, Comments, id, actor, managed).0))
  {
    hide Replies;
    if Restore(l.tables, Comments, id, actor, managed).1.Done? {
      ReplyAdded(l.tables, Restore(l.tables, Comments, id, actor, managed).0, id, l.tables.comments[id].thread);
    }
  }

  lemma QuietBalances(l: Ledger, after: Tables)
    requires Balanced(l) && Quiet(l.tables, after)
    ensures Balanced(l.(tables := after))
  {
    RepliesKept(l.tables, after);
    forall id | id in after.threads && id !in l.tables.threads ensures |Replies(l.tables, id)| == 0 {
      assert Replies(l.tables, id) == {};
    }
    hide Replies;
  }

  lemma MoveBalances(l: Ledger, m: Move)
    requires Balanced(l)
    ensures Balanced(Perform(l, m))
  {
    hide Balanced, Write, Quiet, Restore, InsertComment, BumpReplies, DeleteComment, Visible;
    match m
    case Insert(id, thread, user, content) =>
      if id !in l.tables.comments && Visible(l.tables, thread) { InsertBalances(l, id, thread, user, content); }
    case Bump(thread, fails) => BumpBalances(l, thread, fails);
    case Remove(id, actor) => if LiveComment(l.tables, id) { RemoveBalances(l, id, actor); }
    case Other(op) =>
      if op.Revive? && op.resource == Comments {
        RestoreBalances(l, op.id, op.actor, op.managed);
        assert Write(l.tables, op).0 == Restore(l.tables, Comments, op.id, op.actor, op.managed).0 by {
          WriteRevive(l.tables, op);
        }
      } else if IsOther(op) {
        QuietWrites(l.tables, op);
        QuietBalances(l, Write(l.tables, op).0);
      }
  }

  lemma WriteRevive(t: Tables, op: Op)
    requires op.Revive?
    ensures Write(t, op) == Restore(t, op.resource, op.id, op.actor, op.managed)
  {
  }

  lemma {:induction false} MovesBalance(l: Ledger, moves: seq<Move>)
    requires Balanced(l)
    ensures Balanced(PerformAll(l, moves))
    decreases |moves|
  {
    hide Balanced, Perform;
    if moves != [] {
      MoveBalances(l, moves[0]);
      MovesBalance(Perform(l, moves[0]), moves[1..]);
    }
  }

  /** Under any interleaving of the statements a counter is exact precisely when
      as many decrements were cut off as increments are outstanding or lost. */
  lemma CounterIsExactIff(moves: seq<Move>, thread: int)
    requires thread in PerformAll(Start, moves).tables.threads
    ensures var l := PerformAll(Start, moves);
            l.tables.threads[thread].replyCount == |Replies(l.tables, thread)|
            <==> l.clamped[thread] == l.pending[thread] + l.lost[thread]
  {
    MovesBalance(Start, moves);
  }

  /** What can be told from a move as it is made: no increment for the thread fails
      or meets a deleted thread, and no comment of it is removed while an increment
      is outstanding. */
  predicate OrderlyMove(l: Ledger, m: Move, thread: int) {
    match m
    case Bump(other, fails) => other == thread && thread in l.pending ==> !fails && CountsUp(l.tables, thread)
    case Remove(id, _) => LiveComment(l.tables, id) && l.tables.comments[id].thread == thread ==> l.pending[thread] == 0
    case _ => true
  }

  predicate Orderly(l: Ledger, moves: seq<Move>, thread: int)
    decreases |moves|
  {
    moves == [] || (OrderlyMove(l, moves[0], thread) && Orderly(Perform(l, moves[0]), moves[1..], thread))
  }

  predicate NothingAmiss(l: Ledger, thread: int) {
    l.lost[thread] == 0 && l.clamped[thread] == 0
  }

  lemma OrderlyMoveKeeps(l: Ledger, m: Move, thread: int)
    requires Balanced(l) && NothingAmiss(l, thread) && OrderlyMove(l, m, thread)
    ensures NothingAmiss(Perform(l, m), thread)
  {
    hide Write, InsertComment, BumpReplies, DeleteComment, Visible;
    if m.Remove? && LiveComment(l.tables, m.id) && l.tables.comments[m.id].thread == thread {
      assert m.id in Replies(l.tables, thread);
      assert |Replies(l.tables, thread)| >= 1;
    }
  }

  lemma {:induction false} OrderlyKeeps(l: Ledger, moves: seq<Move>, thread: int)
    requires Balanced(l) && NothingAmiss(l, thread) && Orderly(l, moves, thread)
    ensures Balanced(PerformAll(l, moves)) && NothingAmiss(PerformAll(l, moves), thread)
    decreases |moves|
  {
    hide Balanced, NothingAmiss, Perform, OrderlyMove;
    if moves != [] {
      OrderlyMoveKeeps(l, moves[0], thread);
      MoveBalances(l, moves[0]);
      OrderlyKeeps(Perform(l, moves[0]), moves[1..], thread);
    }
  }

  /** In orderly runs nothing is lost or cut off: the counter and the outstanding
      increments are the live comments. */
  lemma OrderlyRunsCount(moves: seq<Move>, thread: int)
    requires Orderly(Start, moves, thread) && thread in PerformAll(Start, moves).tables.threads
    ensures var l := PerformAll(Start, moves);
            l.tables.threads[thread].replyCount + l.pending[thread] == |Replies(l.tables, thread)|
  {
    hide PerformAll, Orderly;
    assert Balanced(Start) && NothingAmiss(Start, thread);
    OrderlyKeeps(Start, moves, thread);
  }

  /** The two statements one after the other are one creation of a comment. */
  lemma StatementsMakeAComment(l: Ledger, id: int, thread: int, user: int, content: string)
    requires id !in l.tables.comments && thread !in l.pending
    ensures Perform(Perform(l, Insert(id, thread, user, content)), Bump(thread, false))
            == l.(tables := CreateComment(l.tables, id, thread, user, content).0)
  {
    assert l.pending + multiset{thread} - multiset{thread} == l.pending;
  }

  /** A comment deleted between them leaves the counter one too high. */
  lemma DeletedInBetween(l: Ledger, id: int, thread: int, user: int, content: string, actor: int)
    requires Balanced(l) && id !in l.tables.comments && Visible(l.tables, thread)
             && l.tables.threads[thread].replyCount == 0
    requires l.pending[thread] == 0 && l.lost[thread] == 0 && l.clamped[thread] == 0
    ensures var after :=
            Perform(Perform(Perform(l, Insert(id, thread, user, content)), Remove(id, actor)), Bump(thread, false));
            after.tables.threads[thread].replyCount == 1 && |Replies(after.tables, thread)| == 0
  {
    hide Balanced, BalancedAt;
    var l1 := Perform(l, Insert(id, thread, user, content));
    var l2 := Perform(l1, Remove(id, actor));
    var l3 := Perform(l2, Bump(thread, false));
    MoveBalances(l, Insert(id, thread, user, content));
    MoveBalances(l1, Remove(id, actor));
    MoveBalances(l2, Bump(thread, false));
    assert l3.tables.threads[thread].replyCount == 1;
    assert l3.pending[thread] == 0 && l3.lost[thread] == 0 && l3.clamped[thread] == 1;
    BalancedHere(l3, thread);
  }

  lemma BalancedHere(l: Ledger, thread: int)
    requires Balanced(l) && thread in l.tables.threads
    ensures l.tables.threads[thread].replyCount + l.pending[thread] + l.lost[thread]
            == |Replies(l.tables, thread)| + l.clamped[thread]
  {
  }
}
