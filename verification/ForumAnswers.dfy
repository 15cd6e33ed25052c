/** When each operation of the forum succeeds, what it changes, and how long a thread
    is cached. */
module ForumAnswers {
  import opened GoStrings
  import opened Forum
  import opened ForumRuns

  predicate CategoryLive(t: Tables, id: int) {
    id in t.categories && t.categories[id].tombstone == None
  }

  predicate ThreadLive(t: Tables, id: int) {
    id in t.threads && t.threads[id].tombstone == None
  }

  /** A thread is shown while it and its category are live, with its counter and the
      number of users who like it. */
  lemma ThreadsShown(t: Tables, id: int)
    ensures var view := ViewOf(t, id);
            && (view != None <==> ThreadLive(t, id) && CategoryLive(t, t.threads[id].category))
            && (view != None ==>
                  var r, v := t.threads[id], view.value;
                  && v.title == r.title && v.content == r.content && v.category == r.category
                  && v.pinned == r.pinned && v.locked == r.locked && v.replyCount == r.replyCount
                  && v.likes == |LikersOf(t, id)|)
  {
  }

  /** A thread can be created in every category there is a row for, a deleted one
      included, and is shown only in a live one: without replies. */
  lemma ThreadCreation(t: Tables, id: int, category: int, user: int, title: string, content: string, pinned: bool,
                       locked: bool)
    requires id !in t.threads && id !in t.likes
    ensures var (after, outcome) := Write(t, NewThread(id, category, user, title, content, pinned, locked));
            && (outcome == Done <==> category in t.categories)
            && (outcome == Done ==>
                  && after == t.(threads :=
                                 t.threads[id := Thread(category, user, title, content, pinned, locked, 0, None)])
                  && ViewOf(after, id) == if CategoryLive(t, category)
                                          then Some(View(category, title, content, pinned, locked, 0, 0)) else None)
            && (outcome != Done ==> after == t)
  {
  }

  /** A live thread can be edited into a live category, even out of a deleted one; its
      author, its counter and its likes stay. */
  lemma ThreadUpdate(t: Tables, id: int, category: int, title: string, content: string, pinned: bool, locked: bool)
    ensures var (after, outcome) := Write(t, EditThread(id, category, title, content, pinned, locked));
            && (outcome == Done <==> ThreadLive(t, id) && CategoryLive(t, category))
            && (outcome == Done ==>
                  && after.threads
                     == t.threads[id := Thread(category, t.threads[id].user, title, content, pinned, locked,
                                                             t.threads[id].replyCount, None)]
                  && ViewOf(after, id) == Some(View(category, title, content, pinned, locked, t.threads[id].replyCount,
                                                    |LikersOf(t, id)|))
                  && after.categories == t.categories && after.comments == t.comments && after.likes == t.likes)
            && (outcome != Done ==> after == t)
  {
  }

  /** A deleted thread or category is marked with the user who did it, and is shown no
      more, nor are the threads of a deleted category. */
  lemma Deletions(t: Tables, id: int, actor: int, thread: int)
    ensures var after := Write(t, DropThread(id, actor)).0;
            && ViewOf(after, id) == None
            && (ThreadLive(t, id) ==> after == t.(threads := t.threads[id := t.threads[id].(tombstone := Some(actor))]))
            && (!ThreadLive(t, id) ==> after == t)
    ensures var after := Write(t, DropCategory(id, actor)).0;
            && (thread in t.threads && t.threads[thread].category == id ==> ViewOf(after, thread) == None)
            && (CategoryLive(t, id) ==>
                after == t.(categories := t.categories[id := t.categories[id].(tombstone := Some(actor))]))
            && (!CategoryLive(t, id) ==> after == t)
  {
  }

  /** A like adds its user, once, if the thread is shown; taking it back removes the
      user; nobody else's likes change. */
  lemma Likes(t: Tables, id: int, user: int, other: int, someone: int)
    ensures var after := Write(t, LikeOp(id, user)).0;
            && (someone in LikersOf(after, other) <==>
                  someone in LikersOf(t, other) || (someone == user && other == id && ViewOf(t, id) != None))
            && after.(likes := t.likes) == t
    ensures var after := Write(t, UnlikeOp(id, user)).0;
            && (someone in LikersOf(after, other)
                <==> someone in LikersOf(t, other) && !(someone == user && other == id))
            && after.(likes := t.likes) == t
  {
  }

  /** A comment can be added exactly to a thread that is shown, which then has one more
      reply. */
  lemma CommentCreation(t: Tables, id: int, thread: int, user: int, content: string)
    requires id !in t.comments
    ensures var (after, outcome) := Write(t, NewComment(id, thread, user, content));
            && (outcome == Done <==> ViewOf(t, thread) != None)
            && (outcome == Done ==>
                  && after.comments == t.comments[id := Comment(thread, user, content, None)]
                  && after.threads
                     == t.threads[thread := t.threads[thread].(replyCount := t.threads[thread].replyCount + 1)]
                  && after.categories == t.categories && after.likes == t.likes)
            && (outcome != Done ==> after == t)
  {
  }

  /** A live comment of a thread that is shown can be deleted; the thread has one reply
      less, but never less than none. */
  lemma CommentDeletion(t: Tables, id: int, actor: int)
    ensures var (after, outcome) := Write(t, DropComment(id, actor));
            && (outcome == Done <==>
                  id in t.comments && t.comments[id].tombstone == None && ViewOf(t, t.comments[id].thread) != None)
            && (outcome == Done ==>
                  var thread := t.comments[id].thread;
                  var replies := t.threads[thread].replyCount;
                  && after.comments == t.comments[id := t.comments[id].(tombstone := Some(actor))]
                  && after.threads
                     == t.threads[thread := t.threads[thread].(replyCount := if replies > 0 then replies - 1 else 0)]
                  && after.categories == t.categories && after.likes == t.likes)
            && (outcome != Done ==> after == t)
  {
  }

  // ---- Restoring ----

  predicate IsAllowed(owner: Option<int>, deletedBy: int, actor: int, managed: bool) {
    managed || owner == Some(actor) || actor == deletedBy
  }

  /** A deleted row comes back for a manager, its author or the one who deleted it, if
      what it belongs to is live; a comment then counts again. */
  lemma Restores(t: Tables, id: int, actor: int, managed: bool)
    ensures var (after, outcome) := Restore(t, Categories, id, actor, managed);
            && (outcome == Done <==> id > 0 && id in t.categories && t.categories[id].tombstone != None
                                     && IsAllowed(None, t.categories[id].tombstone.value, actor, managed))
            && (outcome == Done ==> after == t.(categories := t.categories[id := t.categories[id].(tombstone := None)]))
            && (outcome != Done ==> after == t)
    ensures var (after, outcome) := Restore(t, Threads, id, actor, managed);
            && (outcome == Done <==> id > 0 && id in t.threads && t.threads[id].tombstone != None
                                     && IsAllowed(Some(t.threads[id].user), t.threads[id].tombstone.value, actor,
                                                  managed)
                                     && CategoryLive(t, t.threads[id].category))
            && (outcome == Done ==> after == t.(threads := t.threads[id := t.threads[id].(tombstone := None)]))
            && (outcome != Done ==> after == t)
    ensures var (after, outcome) := Restore(t, Comments, id, actor, managed);
            && (outcome == Done <==> id > 0 && id in t.comments && t.comments[id].tombstone != None
                                     && IsAllowed(Some(t.comments[id].user), t.comments[id].tombstone.value, actor,
                                                  managed)
                                     && ViewOf(t, t.comments[id].thread) != None)
            && (outcome == Done ==>
                  var thread := t.comments[id].thread;
                  && after.comments == t.comments[id := t.comments[id].(tombstone := None)]
                  && after.threads
                     == t.threads[thread := t.threads[thread].(replyCount := t.threads[thread].replyCount + 1)]
                  && after.categories == t.categories && after.likes == t.likes)
            && (outcome != Done ==> after == t)
  {
  }

  // ---- The cache ----

  /** A thread that is read and not in the cache is kept for five minutes, and read again
      after that; one that is not shown is not kept. */
  lemma CachedFor(w: World, id: int, seconds: nat)
    requires Cached(w, id) == None
    ensures var (after, view) := Fetched(w, id);
            && view == ViewOf(w.tables, id)
            && (seconds < 300 ==> Cached(after.(now := w.now + seconds), id) == view)
            && (seconds >= 300 ==> Cached(after.(now := w.now + seconds), id) == None)
  {
  }
}
