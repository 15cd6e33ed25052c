/** When each operation on a documentation succeeds, and which rows it changes how. */
module DocumentationAnswers {
  import opened GoStrings
  import opened Documentation

  /** Another live article of the documentation has the slug, up to case. */
  predicate SlugInUse(t: Tables, doc: int, id: int, slug: string) {
    exists a | a in t.articles ::
      && a != id && t.articles[a].tombstone == None && t.articles[a].doc == doc
      && ToLower(t.articles[a].slug) == ToLower(slug)
  }

  predicate IsLiveSectionOf(t: Tables, section: int, doc: int) {
    section in t.sections && t.sections[section].tombstone == None && t.sections[section].doc == doc
  }

  /** No article but this one has changed, and no other table. */
  predicate OnlyArticle(t: Tables, after: Tables, id: int) {
    && after.docs == t.docs && after.sections == t.sections && after.articles.Keys == t.articles.Keys + {id}
    && forall a | a in t.articles && a != id :: after.articles[a] == t.articles[a]
  }

  /** An article is updated exactly if it is live, at the expected revision, stays
      without a section or goes to a live one of its documentation, and takes a slug
      that is free there. */
  lemma ArticleUpdates(t: Tables, id: int, section: Option<int>, slug: string, content: string, editor: int,
                       expected: int)
    ensures var (after, outcome) := UpdateArticle(t, id, section, slug, content, editor, expected);
            var current := id in t.articles && t.articles[id].tombstone == None && t.articles[id].revision == expected
                           && (section == None || IsLiveSectionOf(t, section.value, t.articles[id].doc));
            && (outcome == Conflict <==> !current)
            && (outcome == Violation <==> current && SlugInUse(t, t.articles[id].doc, id, slug))
            && (outcome == Done <==> current && !SlugInUse(t, t.articles[id].doc, id, slug))
            && (outcome == Done ==>
                  && OnlyArticle(t, after, id) && after.events == t.events
                  && after.articles[id] == Article(t.articles[id].doc, section, slug, content, t.articles[id].order,
                                                   t.articles[id].author, editor, expected + 1, None))
            && (outcome != Done ==> after == t)
  {
    hide ToLower;
  }

  /** One is created exactly in an existing documentation, with the same conditions on
      section and slug; at revision 1, with its author as its editor. */
  lemma ArticleCreation(t: Tables, id: int, doc: int, section: Option<int>, slug: string, content: string, author: int,
                        order: int)
    requires id !in t.articles
    ensures var (after, outcome) := CreateArticle(t, id, doc, section, slug, content, author, order);
            var placed := section == None || IsLiveSectionOf(t, section.value, doc);
            && (outcome == Done <==> placed && doc in t.docs && !SlugInUse(t, doc, id, slug))
            && (outcome == NotFound <==> !placed)
            && (outcome == Done ==>
                  && OnlyArticle(t, after, id) && after.events == t.events
                  && after.articles[id] == Article(doc, section, slug, content, order, author, author, 1, None))
            && (outcome != Done ==> after == t)
  {
    hide ToLower;
  }

  /** Deleting marks a live article with the user who does it, raises its revision and
      writes one event. */
  lemma ArticleDeletion(t: Tables, id: int, actor: int)
    ensures var (after, outcome) := DeleteArticle(t, id, actor);
            && (outcome == Done <==> id in t.articles && t.articles[id].tombstone == None)
            && (outcome == Done ==>
                  && OnlyArticle(t, after, id) && after.events == t.events + [Event(actor, Articles, id, false)]
                  && after.articles[id]
                     == t.articles[id].(tombstone := Some(actor), revision := t.articles[id].revision + 1))
            && (outcome != Done ==> after == t)
  {
  }

  /** Deleting a section marks it, takes it off its live articles, and leaves the
      deleted ones as they were. */
  lemma SectionDeletion(t: Tables, id: int, actor: int)
    ensures var (after, outcome) := DeleteSection(t, id, actor);
            && (outcome == Done <==> id in t.sections && t.sections[id].tombstone == None)
            && (outcome == Done ==>
                  && after.docs == t.docs && after.events == t.events + [Event(actor, Sections, id, false)]
                  && after.sections == t.sections[id := t.sections[id].(tombstone := Some(actor))]
                  && after.articles.Keys == t.articles.Keys
                  && (forall a | a in t.articles && t.articles[a].tombstone == None
                      && t.articles[a].section == Some(id) ::
                        after.articles[a] == t.articles[a].(section := None))
                  && (forall a | a in t.articles
                      && !(t.articles[a].tombstone == None && t.articles[a].section == Some(id)) ::
                        after.articles[a] == t.articles[a]))
            && (outcome != Done ==> after == t)
  {
  }

  // ---- Reordering ----

  /** Item i is the last one for its row. */
  predicate IsLast(items: seq<Item>, i: nat) {
    i < |items| && forall j | i < j < |items| :: items[j].id != items[i].id
  }

  lemma {:induction false} LastOrderIs(items: seq<Item>, i: nat)
    requires IsLast(items, i)
    ensures LastOrder(items, items[i].id) == Some(items[i].order)
    decreases |items|
  {
    if i < |items| - 1 {
      var init := items[..|items| - 1];
      assert init[i] == items[i];
      LastOrderIs(init, i);
    }
  }

  lemma {:induction false} NoOrder(items: seq<Item>, id: int)
    requires forall i | i in items :: i.id != id
    ensures LastOrder(items, id) == None
    decreases |items|
  {
    if items != [] {
      assert items[|items| - 1] in items;
      NoOrder(items[..|items| - 1], id);
    }
  }

  /** A reordering succeeds exactly if every item names a live row of the documentation;
      then each named row has the order of its last item, every other row its own, and
      the documentation, if it is live, its next revision. */
  lemma Reordering(t: Tables, doc: int, sections: seq<Item>, articles: seq<Item>)
    ensures var (after, outcome) := Reorder(t, doc, sections, articles);
            && (outcome == Done <==>
                  && (forall i | i in sections :: IsLiveSectionOf(t, i.id, doc))
                  && (forall i | i in articles :: i.id in t.articles && t.articles[i.id].tombstone == None
                                                  && t.articles[i.id].doc == doc))
            && (outcome != Done ==> after == t)
  {
    hide OrderedSections, OrderedArticles, BumpDoc;
  }

  lemma ReorderedRows(t: Tables, doc: int, sections: seq<Item>, articles: seq<Item>, i: nat, row: int)
    requires Reorder(t, doc, sections, articles).1 == Done
    ensures var after := Reorder(t, doc, sections, articles).0;
            && after.sections.Keys == t.sections.Keys && after.articles.Keys == t.articles.Keys
               && after.events == t.events
            && (IsLast(sections, i) ==>
                  after.sections[sections[i].id] == t.sections[sections[i].id].(order := sections[i].order))
            && (IsLast(articles, i) ==>
                  after.articles[articles[i].id] == t.articles[articles[i].id].(order := articles[i].order))
            && (row in t.sections && (forall item | item in sections :: item.id != row) ==>
                after.sections[row] == t.sections[row])
            && (row in t.articles && (forall item | item in articles :: item.id != row) ==>
                after.articles[row] == t.articles[row])
            && after.docs == if doc in t.docs && t.docs[doc].tombstone == None
                             then t.docs[doc := t.docs[doc].(revision := t.docs[doc].revision + 1)] else t.docs
  {
    hide LastOrder;
    if IsLast(sections, i) {
      assert sections[i] in sections;
      LastOrderIs(sections, i);
    }
    if IsLast(articles, i) {
      assert articles[i] in articles;
      LastOrderIs(articles, i);
    }
    if forall item | item in sections :: item.id != row { NoOrder(sections, row); }
    if forall item | item in articles :: item.id != row { NoOrder(articles, row); }
  }

  // ---- Restoring ----

  /** Who may bring a row back: a manager, the owner of the documentation, or the one
      who deleted it. */
  predicate IsAllowed(owner: int, deletedBy: int, actor: int, managed: bool) {
    managed || actor == owner || actor == deletedBy
  }

  predicate IsLive(t: Tables, section: int) {
    section in t.sections && t.sections[section].tombstone == None
  }

  predicate InLiveDoc(t: Tables, doc: int) {
    doc in t.docs && t.docs[doc].tombstone == None
  }

  /** An article comes back exactly if it is deleted, in a live documentation, without a
      section or with a live one, for a user who is allowed to, under a slug that is free;
      a conflict means that only the slug is in the way. */
  lemma ArticleRestore(t: Tables, id: int, actor: int, managed: bool)
    ensures var (after, outcome) := RestoreOf(t, Articles, id, actor, managed);
            var ready :=
              && id > 0 && id in t.articles && t.articles[id].tombstone != None && InLiveDoc(t, t.articles[id].doc)
              && IsAllowed(t.docs[t.articles[id].doc].owner, t.articles[id].tombstone.value, actor, managed)
              && (t.articles[id].section != None ==> IsLive(t, t.articles[id].section.value));
            && (outcome == Done <==> ready && !SlugInUse(t, t.articles[id].doc, id, t.articles[id].slug))
            && (outcome == Conflict <==> ready && SlugInUse(t, t.articles[id].doc, id, t.articles[id].slug))
            && (outcome == Done ==>
                  && OnlyArticle(t, after, id) && after.events == t.events + [Event(actor, Articles, id, true)]
                  && after.articles[id] == t.articles[id].(tombstone := None, revision := t.articles[id].revision + 1))
            && (outcome != Done ==> after == t)
  {
    hide ToLower;
  }

  /** A section comes back exactly if it is deleted, in a live documentation, for a user
      who is allowed to. */
  lemma SectionRestore(t: Tables, id: int, actor: int, managed: bool)
    ensures var (after, outcome) := RestoreOf(t, Sections, id, actor, managed);
            && (outcome == Done <==>
                  && id > 0 && id in t.sections && t.sections[id].tombstone != None && InLiveDoc(t, t.sections[id].doc)
                  && IsAllowed(t.docs[t.sections[id].doc].owner, t.sections[id].tombstone.value, actor, managed))
            && (outcome == Done ==>
                  && after == t.(sections := t.sections[id := t.sections[id].(tombstone := None)],
                                 events := t.events + [Event(actor, Sections, id, true)]))
            && (outcome != Done ==> after == t)
  {
  }

  /** A documentation comes back if it is deleted, for a user who is allowed to, and no
      live one has its slug. */
  lemma DocRestore(t: Tables, id: int, actor: int, managed: bool)
    ensures var (after, outcome) := RestoreOf(t, Documentations, id, actor, managed);
            var ready := && id > 0 && id in t.docs && t.docs[id].tombstone != None
                         && IsAllowed(t.docs[id].owner, t.docs[id].tombstone.value, actor, managed);
            var inUse := && id in t.docs
                         && exists d | d in t.docs :: d != id && t.docs[d].tombstone == None
                                                      && ToLower(t.docs[d].slug) == ToLower(t.docs[id].slug);
            && (outcome == Done <==> ready && !inUse) && (outcome == Conflict <==> ready && inUse)
            && (outcome == Done ==>
                  after == t.(docs := t.docs[id := t.docs[id].(tombstone := None, revision := t.docs[id].revision + 1)],
                              events := t.events + [Event(actor, Documentations, id, true)]))
            && (outcome != Done ==> after == t)
  {
    hide ToLower;
  }
}
