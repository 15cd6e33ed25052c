/** What every sequence of operations on documentations keeps. */
module DocumentationRuns {
  import opened GoStrings
  import opened Documentation

  datatype Op =
    | NewDoc(id: int, slug: string, title: string, owner: int)
    | EditDoc(id: int, slug: string, title: string, expected: int)
    | DropDoc(id: int, actor: int)
    | NewSection(id: int, doc: int, title: string, order: int)
    | EditSection(id: int, title: string)
    | DropSection(id: int, actor: int)
    | NewArticle(id: int, doc: int, section: Option<int>, slug: string, content: string, author: int, order: int)
    | EditArticle(id: int, section: Option<int>, slug: string, content: string, editor: int, expected: int)
    | DropArticle(id: int, actor: int)
    | Arrange(doc: int, sectionItems: seq<Item>, articleItems: seq<Item>)
    | Revive(resource: Resource, id: int, actor: int, managed: bool)
    | Break

  /** Ids come from sequences, so a new row never reuses one; a transaction in
      which the database breaks is rolled back. */
  function Apply(t: Tables, op: Op): (Tables, Outcome) {
    match op
    case NewDoc(id, slug, title, owner) => if id in t.docs then (t, Broken) else CreateDoc(t, id, slug, title, owner)
    case EditDoc(id, slug, title, expected) => UpdateDoc(t, id, slug, title, expected)
    case DropDoc(id, actor) => DeleteDoc(t, id, actor)
    case NewSection(id, doc, title, order) =>
      if id in t.sections then (t, Broken) else CreateSection(t, id, doc, title, order)
    case EditSection(id, title) => UpdateSection(t, id, title)
    case DropSection(id, actor) => DeleteSection(t, id, actor)
    case NewArticle(id, doc, section, slug, content, author, order) =>
      if id in t.articles then (t, Broken) else CreateArticle(t, id, doc, section, slug, content, author, order)
    case EditArticle(id, section, slug, content, editor, expected) =>
      UpdateArticle(t, id, section, slug, content, editor, expected)
    case DropArticle(id, actor) => DeleteArticle(t, id, actor)
    case Arrange(doc, sectionItems, articleItems) => Reorder(t, doc, sectionItems, articleItems)
    case Revive(resource, id, actor, managed) => RestoreOf(t, resource, id, actor, managed)
    case Break => (t, Broken)
  }

  const Empty := Tables(map[], map[], map[], [])

  function Run(t: Tables, ops: seq<Op>): Tables
    decreases |ops|
  {
    if ops == [] then t else Run(Apply(t, ops[0]).0, ops[1..])
  }

  // ---- Referential integrity ----

  /** Sections and articles belong to existing documentations, and the section of
      an article, deleted or not, is one of the article's own documentation. */
  ghost predicate Rooted(t: Tables) {
    && (forall s | s in t.sections :: t.sections[s].doc in t.docs)
    && (forall a | a in t.articles ::
          && t.articles[a].doc in t.docs
          && var s := t.articles[a].section; s.Some? ==>
             s.value in t.sections && t.sections[s.value].doc == t.articles[a].doc)
  }

  /** A live article has no section or a live one of its own documentation. */
  ghost predicate LiveSections(t: Tables) {
    forall a | LiveArticle(t, a) :: SectionFits(t, t.articles[a].section, t.articles[a].doc)
  }

  ghost predicate Integrity(t: Tables) {
    Rooted(t) && LiveSections(t)
  }

  lemma DocOpKeepsIntegrity(t: Tables, op: Op)
    requires Integrity(t)
    requires op.NewDoc? || op.EditDoc? || op.DropDoc? || (op.Revive? && op.resource == Documentations)
    ensures Integrity(Apply(t, op).0)
  {
    hide DocSlugTaken, MayRestore, ToLower;
  }

  lemma SectionOpKeepsIntegrity(t: Tables, op: Op)
    requires Integrity(t)
    requires op.NewSection? || op.EditSection? || op.DropSection? || (op.Revive? && op.resource == Sections)
    ensures Integrity(Apply(t, op).0)
  {
    hide MayRestore;
  }

  lemma ArticleOpKeepsIntegrity(t: Tables, op: Op)
    requires Integrity(t) && (op.NewArticle? || op.EditArticle? || op.DropArticle?)
    ensures Integrity(Apply(t, op).0)
  {
    hide ArticleSlugTaken;
  }

  /** The guard of this restore names no documentation: that the section is of the
      article's own is known only because it was so when the article was deleted. */
  lemma RestoredArticleKeepsIntegrity(t: Tables, op: Op)
    requires Integrity(t) && op.Revive? && op.resource == Articles
    ensures Integrity(Apply(t, op).0)
  {
    hide ArticleSlugTaken, MayRestore;
  }

  lemma ArrangingKeepsIntegrity(t: Tables, op: Op)
    requires Integrity(t) && op.Arrange?
    ensures Integrity(Apply(t, op).0)
  {
    hide LastOrder;
  }

  lemma ApplyKeepsIntegrity(t: Tables, op: Op)
    requires Integrity(t)
    ensures Integrity(Apply(t, op).0)
  {
    hide Integrity;
    match op
    case NewDoc(_, _, _, _) => DocOpKeepsIntegrity(t, op);
    case EditDoc(_, _, _, _) => DocOpKeepsIntegrity(t, op);
    case DropDoc(_, _) => DocOpKeepsIntegrity(t, op);
    case NewSection(_, _, _, _) => SectionOpKeepsIntegrity(t, op);
    case EditSection(_, _) => SectionOpKeepsIntegrity(t, op);
    case DropSection(_, _) => SectionOpKeepsIntegrity(t, op);
    case Revive(Documentations, _, _, _) => DocOpKeepsIntegrity(t, op);
    case Revive(Sections, _, _, _) => SectionOpKeepsIntegrity(t, op);
    case Revive(Articles, _, _, _) => RestoredArticleKeepsIntegrity(t, op);
    case Arrange(_, _, _) => ArrangingKeepsIntegrity(t, op);
    case Break =>
    case _ => ArticleOpKeepsIntegrity(t, op);
  }

  lemma {:induction false} RunKeepsIntegrity(t: Tables, ops: seq<Op>)
    requires Integrity(t)
    ensures Integrity(Run(t, ops))
    decreases |ops|
  {
    hide Integrity, Apply;
    if ops != [] {
      ApplyKeepsIntegrity(t, ops[0]);
      RunKeepsIntegrity(Apply(t, ops[0]).0, ops[1..]);
    }
  }

  /** In every reachable state each live article has no section or a live section
      of its own documentation, although restoring an article never compares the
      two documentations. */
  lemma LiveArticlesHaveLiveSections(ops: seq<Op>, article: int)
    requires LiveArticle(Run(Empty, ops), article)
    ensures var t := Run(Empty, ops); SectionFits(t, t.articles[article].section, t.articles[article].doc)
  {
    RunKeepsIntegrity(Empty, ops);
  }

  // ---- Revisions ----

  /** Rows are never removed and revisions never go back; a successful article
      update raises the revision from exactly the expected one. */
  lemma RevisionsGrow(t: Tables, op: Op, article: int)
    requires article in t.articles
    ensures var (after, outcome) := Apply(t, op);
            && article in after.articles && after.articles[article].revision >= t.articles[article].revision
            && (op.EditArticle? && op.id == article && outcome.Done? ==>
                  t.articles[article].revision == op.expected && after.articles[article].revision == op.expected + 1)
  {
    hide DocSlugTaken, ArticleSlugTaken, LastOrder, MayRestore, SectionFits;
  }

  lemma {:induction false} RunGrowsRevisions(t: Tables, ops: seq<Op>, article: int)
    requires article in t.articles
    ensures article in Run(t, ops).articles && Run(t, ops).articles[article].revision >= t.articles[article].revision
    decreases |ops|
  {
    hide Apply;
    if ops != [] {
      RevisionsGrow(t, ops[0], article);
      RunGrowsRevisions(Apply(t, ops[0]).0, ops[1..], article);
    }
  }

  /** No update is lost: of two updates of an article that expect the same
      revision, whatever happens in between, at most one succeeds. */
  lemma NoLostUpdate(t: Tables, first: Op, between: seq<Op>, second: Op)
    requires first.EditArticle? && second.EditArticle? && first.id == second.id && first.expected == second.expected
    requires Apply(t, first).1.Done?
    ensures Apply(Run(Apply(t, first).0, between), second).1.Conflict?
  {
    hide ArticleSlugTaken, SectionFits, Run;
    var after := Apply(t, first).0;
    RevisionsGrow(t, first, first.id);
    RunGrowsRevisions(after, between, first.id);
    RevisionsGrow(Run(after, between), second, first.id);
  }

  // ---- Slugs ----

  /** The unique index on article slugs. */
  ghost predicate SlugsUnique(t: Tables) {
    forall a | LiveArticle(t, a) :: !ArticleSlugTaken(t, a, t.articles[a].doc, t.articles[a].slug)
  }

  /** The live article is one of t, in the same documentation with the same slug. */
  predicate SlugStays(t: Tables, after: Tables, a: int)
    requires LiveArticle(after, a)
  {
    LiveArticle(t, a) && t.articles[a].doc == after.articles[a].doc && t.articles[a].slug == after.articles[a].slug
  }

  lemma SlugsStay(t: Tables, after: Tables)
    requires SlugsUnique(t) && forall a | LiveArticle(after, a) :: SlugStays(t, after, a)
    ensures SlugsUnique(after)
  {
    hide ToLower;
    forall a | LiveArticle(after, a)
      ensures !ArticleSlugTaken(after, a, after.articles[a].doc, after.articles[a].slug)
    {
      assert SlugStays(t, after, a);
      assert forall b | LiveArticle(after, b) :: SlugStays(t, after, b);
    }
  }

  /** One article may come in with a slug that is free. */
  lemma FreeSlugComesIn(t: Tables, after: Tables, id: int)
    requires SlugsUnique(t) && LiveArticle(after, id)
    requires forall a | LiveArticle(after, a) && a != id :: SlugStays(t, after, a)
    requires !ArticleSlugTaken(t, id, after.articles[id].doc, after.articles[id].slug)
    ensures SlugsUnique(after)
  {
    hide ToLower;
    forall a, b | LiveArticle(after, a) && LiveArticle(after, b) && a != b
      && after.articles[a].doc == after.articles[b].doc
      ensures ToLower(after.articles[a].slug) != ToLower(after.articles[b].slug)
    {
      if a != id { assert SlugStays(t, after, a); }
      if b != id { assert SlugStays(t, after, b); }
      if a != id && b != id {
        assert !ArticleSlugTaken(t, a, t.articles[a].doc, t.articles[a].slug);
      }
    }
  }

  predicate PutsSlug(op: Op) {
    op.NewArticle? || op.EditArticle? || (op.Revive? && op.resource == Articles)
  }

  lemma OtherOpsKeepSlugs(t: Tables, op: Op)
    requires SlugsUnique(t) && !PutsSlug(op)
    ensures SlugsUnique(Apply(t, op).0)
  {
    var after := Apply(t, op).0;
    assert forall a | LiveArticle(after, a) :: SlugStays(t, after, a) by {
      hide ToLower, DocSlugTaken, MayRestore, LastOrder, SlugsUnique;
    }
    hide Apply;
    SlugsStay(t, after);
  }

  lemma PuttingKeepsSlugs(t: Tables, op: Op)
    requires SlugsUnique(t) && PutsSlug(op)
    ensures SlugsUnique(Apply(t, op).0)
  {
    hide ArticleSlugTaken, MayRestore, SlugsUnique, SectionFits;
    var (after, outcome) := Apply(t, op);
    if outcome.Done? {
      assert LiveArticle(after, op.id) && forall a | LiveArticle(after, a) && a != op.id :: SlugStays(t, after, a);
      FreeSlugComesIn(t, after, op.id);
    }
  }

  lemma {:induction false} RunKeepsSlugs(t: Tables, ops: seq<Op>)
    requires SlugsUnique(t)
    ensures SlugsUnique(Run(t, ops))
    decreases |ops|
  {
    hide SlugsUnique, Apply;
    if ops != [] {
      if PutsSlug(ops[0]) { PuttingKeepsSlugs(t, ops[0]); } else { OtherOpsKeepSlugs(t, ops[0]); }
      RunKeepsSlugs(Apply(t, ops[0]).0, ops[1..]);
    }
  }

  /** In every reachable state no two live articles of a documentation share a
      slug, up to case: no restore brings a taken one back. */
  lemma LiveSlugsAreUnique(ops: seq<Op>, a: int, b: int)
    requires var t := Run(Empty, ops); LiveArticle(t, a) && LiveArticle(t, b) && a != b
    ensures var t := Run(Empty, ops);
            t.articles[a].doc == t.articles[b].doc ==> ToLower(t.articles[a].slug) != ToLower(t.articles[b].slug)
  {
    hide ToLower, Run;
    RunKeepsSlugs(Empty, ops);
  }

  // ---- Undoing a deletion ----

  lemma SlugTakenBy(t: Tables, id: int, other: int)
    requires LiveArticle(t, other) && other != id && id in t.articles && t.articles[other].doc == t.articles[id].doc
    requires ToLower(t.articles[other].slug) == ToLower(t.articles[id].slug)
    ensures ArticleSlugTaken(t, id, t.articles[id].doc, t.articles[id].slug)
  {
  }

  lemma RestoreAfterDelete(t: Tables, id: int, actor: int)
    requires Integrity(t) && SlugsUnique(t) && id > 0 && LiveArticle(t, id) && LiveDoc(t, t.articles[id].doc)
    ensures var deleted := DeleteArticle(t, id, actor).0;
            var (restored, outcome) := RestoreOf(deleted, Articles, id, actor, false);
            && outcome == Done
            && restored.articles == t.articles[id := t.articles[id].(revision := t.articles[id].revision + 2)]
            && restored.sections == t.sections && restored.docs == t.docs
  {
    hide ToLower;
    var deleted := DeleteArticle(t, id, actor).0;
    assert !ArticleSlugTaken(deleted, id, t.articles[id].doc, t.articles[id].slug) by {
      if other :| other in deleted.articles && other != id && LiveArticle(deleted, other)
                  && deleted.articles[other].doc == t.articles[id].doc
                  && ToLower(deleted.articles[other].slug) == ToLower(t.articles[id].slug)
      {
        SlugTakenBy(t, id, other);
        assert false;
      }
    }
  }

  /** In every reachable state the user who deletes a live article of a live
      documentation can restore it at once, and gets it back as it was, two
      revisions later. */
  lemma RestoreUndoesDelete(ops: seq<Op>, id: int, actor: int)
    requires var t := Run(Empty, ops); id > 0 && LiveArticle(t, id) && LiveDoc(t, t.articles[id].doc)
    ensures var t := Run(Empty, ops);
            var deleted := DeleteArticle(t, id, actor).0;
            var (restored, outcome) := RestoreOf(deleted, Articles, id, actor, false);
            && outcome == Done
            && restored.articles == t.articles[id := t.articles[id].(revision := t.articles[id].revision + 2)]
            && restored.sections == t.sections && restored.docs == t.docs
  {
    hide Run, RestoreOf, DeleteArticle;
    RunKeepsIntegrity(Empty, ops);
    RunKeepsSlugs(Empty, ops);
    RestoreAfterDelete(Run(Empty, ops), id, actor);
  }

  lemma SectionAfterDelete(t: Tables, id: int, actor: int)
    requires Integrity(t) && id > 0 && LiveSection(t, id) && LiveDoc(t, t.sections[id].doc)
    ensures var deleted := DeleteSection(t, id, actor).0;
            var (restored, outcome) := RestoreOf(deleted, Sections, id, actor, false);
            && outcome == Done && restored.sections == t.sections
            && (forall a | LiveArticle(restored, a) :: restored.articles[a].section != Some(id))
            && (forall a | a in t.articles && !LiveArticle(t, a) :: restored.articles[a] == t.articles[a])
  {
  }

  /** Deleting a section is not undone by restoring it: in every reachable state
      the section is back, and its live articles stay without one. */
  lemma RestoredSectionIsEmpty(ops: seq<Op>, id: int, actor: int)
    requires var t := Run(Empty, ops); id > 0 && LiveSection(t, id) && LiveDoc(t, t.sections[id].doc)
    ensures var t := Run(Empty, ops);
            var deleted := DeleteSection(t, id, actor).0;
            var (restored, outcome) := RestoreOf(deleted, Sections, id, actor, false);
            && outcome == Done && restored.sections == t.sections
            && (forall a | LiveArticle(restored, a) :: restored.articles[a].section != Some(id))
            && (forall a | a in t.articles && !LiveArticle(t, a) :: restored.articles[a] == t.articles[a])
  {
    hide Run, RestoreOf, DeleteSection;
    RunKeepsIntegrity(Empty, ops);
    SectionAfterDelete(Run(Empty, ops), id, actor);
  }
}
