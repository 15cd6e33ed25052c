/** Forum categories, threads and comments: tables with tombstones, reply
    counters, and the service with its thread cache. */
module Forum {
  import opened GoStrings

  // ---- The tables ----

  datatype Category = Category(name: string, tombstone: Option<int>)

  datatype Thread = Thread(category: int, user: int, title: string, content: string, pinned: bool, locked: bool,
                           replyCount: int, tombstone: Option<int>)

  datatype Comment = Comment(thread: int, user: int, content: string, tombstone: Option<int>)

  /** Who likes a thread at present; inactive likes are not kept. */
  type Likes = map<int, set<int>>

  datatype Tables = Tables(categories: map<int, Category>, threads: map<int, Thread>, comments: map<int, Comment>,
                           likes: Likes)

  datatype Resource = Categories | Threads | Comments

  datatype Outcome = Done | NotFound | Conflict

  predicate LiveCategory(t: Tables, id: int) {
    id in t.categories && t.categories[id].tombstone.None?
  }

  /** A thread that is live in a live category. */
  predicate Visible(t: Tables, id: int) {
    id in t.threads && t.threads[id].tombstone.None? && LiveCategory(t, t.threads[id].category)
  }

  predicate LiveComment(t: Tables, id: int) {
    id in t.comments && t.comments[id].tombstone.None?
  }

  function LikersOf(t: Tables, id: int): set<int> {
    if id in t.likes then t.likes[id] else {}
  }

  /** What the thread query returns. */
  datatype View = View(category: int, title: string, content: string, pinned: bool, locked: bool, replyCount: int,
                       likes: nat)

  function ViewOf(t: Tables, id: int): Option<View> {
    if !Visible(t, id) then None
    else
      var r := t.threads[id];
      Some(View(r.category, r.title, r.content, r.pinned, r.locked, r.replyCount, |LikersOf(t, id)|))
  }

  // ---- Statements ----

  function CreateThread(t: Tables, id: int, category: int, user: int, title: string, content: string, pinned: bool,
                        locked: bool): (Tables, Outcome)
  {
    if category !in t.categories then (t, NotFound)
    else (t.(threads := t.threads[id := Thread(category, user, title, content, pinned, locked, 0, None)]), Done)
  }

  /** An edited thread has to be live and to go to a live category; its own
      category may be deleted. */
  function UpdateThread(t: Tables, id: int, category: int, title: string, content: string, pinned: bool,
                        locked: bool): (Tables, Outcome)
  {
    if !(id in t.threads && t.threads[id].tombstone.None? && LiveCategory(t, category)) then (t, NotFound)
    else
      var row := t.threads[id].(category := category, title := title, content := content, pinned := pinned,
                                locked := locked);
      (t.(threads := t.threads[id := row]), Done)
  }

  function DeleteThread(t: Tables, id: int, actor: int): Tables {
    if id in t.threads && t.threads[id].tombstone.None? then
      t.(threads := t.threads[id := t.threads[id].(tombstone := Some(actor))])
    else t
  }

  function DeleteCategory(t: Tables, id: int, actor: int): Tables {
    if LiveCategory(t, id) then t.(categories := t.categories[id := t.categories[id].(tombstone := Some(actor))]) else t
  }

  function Like(t: Tables, id: int, user: int): Tables {
    if Visible(t, id) then t.(likes := t.likes[id := LikersOf(t, id) + {user}]) else t
  }

  function Unlike(t: Tables, id: int, user: int): Tables {
    if id in t.likes then t.(likes := t.likes[id := t.likes[id] - {user}]) else t
  }

  /** The first statement of a new comment. */
  function InsertComment(t: Tables, id: int, thread: int, user: int, content: string): (Tables, Outcome) {
    if !Visible(t, thread) then (t, NotFound)
    else (t.(comments := t.comments[id := Comment(thread, user, content, None)]), Done)
  }

  /** And the second, which skips deleted threads. */
  function BumpReplies(t: Tables, thread: int): Tables {
    if thread in t.threads && t.threads[thread].tombstone.None?
    then t.(threads := t.threads[thread := t.threads[thread].(replyCount := t.threads[thread].replyCount + 1)])
    else t
  }

  function CreateComment(t: Tables, id: int, thread: int, user: int, content: string): (Tables, Outcome) {
    var (inserted, outcome) := InsertComment(t, id, thread, user, content);
    if outcome.Done? then (BumpReplies(inserted, thread), Done) else (t, outcome)
  }

  function UpdateComment(t: Tables, id: int, content: string): (Tables, Outcome) {
    if LiveComment(t, id) then (t.(comments := t.comments[id := t.comments[id].(content := content)]), Done)
      else (t, NotFound)
  }

  /** One statement tombstones the comment and lowers the counter, never below
      zero. */
  function DeleteComment(t: Tables, id: int, actor: int): Tables {
    if !LiveComment(t, id) then t
    else
      var c := t.comments[id];
      var threads := if c.thread in t.threads
                     then t.threads[c.thread := t.threads[c.thread].(replyCount :=
                            if t.threads[c.thread].replyCount > 0 then t.threads[c.thread].replyCount - 1 else 0)]
                     else t.threads;
      t.(comments := t.comments[id := c.(tombstone := Some(actor))], threads := threads)
  }

  // ---- Restoring ----

  predicate Authorized(tombstone: Option<int>, owner: Option<int>, actor: int, managed: bool) {
    tombstone.Some? && (managed || owner == Some(actor) || tombstone.value == actor)
  }

  /** Whether a tombstone is there for this user to restore. */
  predicate Restorable(t: Tables, resource: Resource, id: int, actor: int, managed: bool) {
    match resource
    case Categories => id in t.categories && Authorized(t.categories[id].tombstone, None, actor, managed)
    case Threads => id in t.threads && t.threads[id].category in t.categories
                    && Authorized(t.threads[id].tombstone, Some(t.threads[id].user), actor, managed)
    case Comments =>
      id in t.comments && t.comments[id].thread in t.threads
        && t.threads[t.comments[id].thread].category in t.categories
                     && Authorized(t.comments[id].tombstone, Some(t.comments[id].user), actor, managed)
  }

  predicate ParentActive(t: Tables, resource: Resource, id: int) {
    match resource
    case Categories => true
    case Threads => id in t.threads && LiveCategory(t, t.threads[id].category)
    case Comments => id in t.comments && Visible(t, t.comments[id].thread)
  }

  /** A restore fails with a conflict when only the parent stands in its way. */
  function Restore(t: Tables, resource: Resource, id: int, actor: int, managed: bool): (Tables, Outcome) {
    if id <= 0 || !Restorable(t, resource, id, actor, managed) then (t, NotFound)
    else if !ParentActive(t, resource, id) then (t, Conflict)
    else match resource
      case Categories => (t.(categories := t.categories[id := t.categories[id].(tombstone := None)]), Done)
      case Threads => (t.(threads := t.threads[id := t.threads[id].(tombstone := None)]), Done)
      case Comments =>
        var thread := t.comments[id].thread;
        (t.(comments := t.comments[id := t.comments[id].(tombstone := None)],
            threads := t.threads[thread := t.threads[thread].(replyCount := t.threads[thread].replyCount + 1)]), Done)
  }

  /** The tables with the parents of a row live. */
  function WithParents(t: Tables, resource: Resource, id: int): Tables {
    match resource
    case Categories => t
    case Threads => if id in t.threads then WithCategory(t, t.threads[id].category) else t
    case Comments =>
      if id in t.comments && t.comments[id].thread in t.threads then
        var thread := t.comments[id].thread;
        WithCategory(t.(threads := t.threads[thread := t.threads[thread].(tombstone := None)]),
                     t.threads[thread].category)
      else t
  }

  function WithCategory(t: Tables, category: int): Tables {
    if category !in t.categories then t
    else t.(categories := t.categories[category := t.categories[category].(tombstone := None)])
  }

  // ---- The service ----

  // Seconds.
  const THREAD_TTL := 300

  datatype Entry = Entry(view: View, expireAt: int)

  datatype World = World(tables: Tables, cache: map<int, Entry>, now: int)

  /** What the cache returns: an entry that has not expired. */
  function Cached(w: World, id: int): Option<View> {
    if id in w.cache && w.now < w.cache[id].expireAt then Some(w.cache[id].view) else None
  }

  function Fetched(w: World, id: int): (World, Option<View>) {
    if Cached(w, id).Some? then (w, Cached(w, id))
    else
      var view := ViewOf(w.tables, id);
      (if view.Some? then w.(cache := w.cache[id := Entry(view.value, w.now + THREAD_TTL)]) else w, view)
  }

  function Invalidated(w: World, id: int): World {
    w.(cache := w.cache - {id})
  }

  class Service {
    var tables: Tables
    var cache: map<int, Entry>
    var now: int

    function State(): World
      reads this
    {
      World(tables, cache, now)
    }

    method GetCached(id: int) returns (view: Option<View>)
      ensures view == Cached(State(), id)
    {
      if id in cache && now < cache[id].expireAt {
        return Some(cache[id].view);
      }
      return None;
    }

    method SetCached(id: int, view: View)
      modifies this
      ensures State() == old(State()).(cache := old(cache)[id := Entry(view, now + THREAD_TTL)])
    {
      cache := cache[id := Entry(view, now + THREAD_TTL)];
    }

    method Invalidate(id: int)
      modifies this
      ensures State() == Invalidated(old(State()), id)
    {
      cache := cache - {id};
    }

    /** Read-through. */
    method GetThread(id: int) returns (view: Option<View>)
      modifies this
      ensures (State(), view) == Fetched(old(State()), id)
    {
      view := GetCached(id);
      if view.None? {
        view := ViewOf(tables, id);
        if view.Some? {
          SetCached(id, view.value);
        }
      }
    }

    method CreateThreadIn(id: int, category: int, user: int, title: string, content: string, pinned: bool, locked: bool)
      returns (outcome: Outcome)
      requires id !in tables.threads
      modifies this
      ensures outcome == CreateThread(old(tables), id, category, user, title, content, pinned, locked).1
      ensures var next :=
              old(State()).(tables := CreateThread(old(tables), id, category, user, title, content, pinned, locked).0);
              State() == if outcome.Done? then Invalidated(next, id) else next
    {
      if category !in tables.categories {
        return NotFound;
      }
      tables := tables.(threads :=
                        tables.threads[id := Thread(category, user, title, content, pinned, locked, 0, None)]);
      Invalidate(id);
      return Done;
    }

    method UpdateThreadRow(id: int, category: int, title: string, content: string, pinned: bool, locked: bool)
      returns (outcome: Outcome)
      modifies this
      ensures outcome == UpdateThread(old(tables), id, category, title, content, pinned, locked).1
      ensures var next :=
              old(State()).(tables := UpdateThread(old(tables), id, category, title, content, pinned, locked).0);
              State() == if outcome.Done? then Invalidated(next, id) else next
    {
      if id !in tables.threads || tables.threads[id].tombstone.Some?
         || category !in tables.categories || tables.categories[category].tombstone.Some? {
        return NotFound;
      }
      var row := tables.threads[id].(category := category, title := title, content := content, pinned := pinned,
                                     locked := locked);
      tables := tables.(threads := tables.threads[id := row]);
      Invalidate(id);
      return Done;
    }

    method DeleteThreadRow(id: int, actor: int)
      modifies this
      ensures State() == Invalidated(old(State()).(tables := DeleteThread(old(tables), id, actor)), id)
    {
      if id in tables.threads && tables.threads[id].tombstone.None? {
        tables := tables.(threads := tables.threads[id := tables.threads[id].(tombstone := Some(actor))]);
      }
      Invalidate(id);
    }

    method LikeThread(id: int, user: int) returns (count: int)
      modifies this
      ensures State() == Invalidated(old(State()).(tables := Like(old(tables), id, user)), id)
      ensures count == |LikersOf(tables, id)|
    {
      if Visible(tables, id) {
        tables := tables.(likes := tables.likes[id := LikersOf(tables, id) + {user}]);
      }
      count := |LikersOf(tables, id)|;
      Invalidate(id);
    }

    method UnlikeThread(id: int, user: int) returns (count: int)
      modifies this
      ensures State() == Invalidated(old(State()).(tables := Unlike(old(tables), id, user)), id)
      ensures count == |LikersOf(tables, id)|
    {
      if id in tables.likes {
        tables := tables.(likes := tables.likes[id := tables.likes[id] - {user}]);
      }
      count := |LikersOf(tables, id)|;
      Invalidate(id);
    }

    /** Insert, then count, then invalidate. */
    method CreateCommentIn(id: int, thread: int, user: int, content: string) returns (outcome: Outcome)
      requires id !in tables.comments
      modifies this
      ensures outcome == CreateComment(old(tables), id, thread, user, content).1
      ensures var next := old(State()).(tables := CreateComment(old(tables), id, thread, user, content).0);
              State() == if outcome.Done? then Invalidated(next, thread) else next
    {
      if !Visible(tables, thread) {
        return NotFound;
      }
      tables := tables.(comments := tables.comments[id := Comment(thread, user, content, None)]);
      if thread in tables.threads && tables.threads[thread].tombstone.None? {
        var row := tables.threads[thread];
        tables := tables.(threads := tables.threads[thread := row.(replyCount := row.replyCount + 1)]);
      }
      Invalidate(thread);
      return Done;
    }

    /** The comment is looked up first, so that of a hidden thread is not deleted. */
    method DeleteCommentRow(id: int, actor: int) returns (outcome: Outcome)
      modifies this
      ensures outcome ==
              if LiveComment(old(tables), id) && Visible(old(tables), old(tables).comments[id].thread) then Done
                else NotFound
      ensures State() == if outcome.Done?
                         then Invalidated(old(State()).(tables := DeleteComment(old(tables), id, actor)),
                                          old(tables).comments[id].thread)
                         else old(State())
    {
      if id !in tables.comments || tables.comments[id].tombstone.Some? || !Visible(tables, tables.comments[id].thread) {
        return NotFound;
      }
      var comment := tables.comments[id];
      var row := tables.threads[comment.thread];
      var replies := if row.replyCount - 1 > 0 then row.replyCount - 1 else 0;
      tables := tables.(comments := tables.comments[id := comment.(tombstone := Some(actor))],
                        threads := tables.threads[comment.thread := row.(replyCount := replies)]);
      Invalidate(comment.thread);
      return Done;
    }

    /** The trash restores rows without telling the service: a thread or category
        tombstone is cleared, a comment is counted again. */
    method RestoreRow(resource: Resource, id: int, actor: int, managed: bool) returns (outcome: Outcome)
      modifies this
      ensures outcome == Restore(old(tables), resource, id, actor, managed).1
      ensures State() == old(State()).(tables := Restore(old(tables), resource, id, actor, managed).0)
    {
      if id <= 0 {
        return NotFound;
      }
      var matched := Restorable(tables, resource, id, actor, managed) && ParentActive(tables, resource, id);
      if !matched {
        outcome := RestoreFailure(resource, id, actor, managed);
        return;
      }
      match resource {
        case Categories =>
          tables := tables.(categories := tables.categories[id := tables.categories[id].(tombstone := None)]);
        case Threads =>
          tables := tables.(threads := tables.threads[id := tables.threads[id].(tombstone := None)]);
        case Comments =>
          tables := tables.(comments := tables.comments[id := tables.comments[id].(tombstone := None)]);
          var thread := tables.comments[id].thread;
          var row := tables.threads[thread];
          tables := tables.(threads := tables.threads[thread := row.(replyCount := row.replyCount + 1)]);
      }
      return Done;
    }

    /** restoreFailure, called when nothing was restored: a conflict means that the
        same call succeeds once the parents are live, and is told only to a user
        for whom it does. */
    method RestoreFailure(resource: Resource, id: int, actor: int, managed: bool) returns (outcome: Outcome)
      ensures outcome != Done
      ensures id > 0 && !Restore(tables, resource, id, actor, managed).1.Done? ==>
                && outcome == Restore(tables, resource, id, actor, managed).1
                && (outcome == Conflict
                    <==> Restore(WithParents(tables, resource, id), resource, id, actor, managed).1.Done?)
    {
      if !Restorable(tables, resource, id, actor, managed) {
        return NotFound;
      }
      if !ParentActive(tables, resource, id) {
        return Conflict;
      }
      return NotFound;
    }
  }
}
