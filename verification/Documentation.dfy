/** Documentations, their sections and articles: tables with tombstones, and the
    operations on them. */
module Documentation {
  import opened GoStrings

  // ---- The tables ----

  /** A tombstone names the user who deleted the row. */
  datatype Doc = Doc(slug: string, title: string, owner: int, revision: int, tombstone: Option<int>)

  datatype Section = Section(doc: int, title: string, order: int, tombstone: Option<int>)

  datatype Article = Article(doc: int, section: Option<int>, slug: string, content: string, order: int, author: int,
                             editor: int, revision: int, tombstone: Option<int>)

  datatype Resource = Documentations | Sections | Articles

  datatype Event = Event(actor: int, resource: Resource, id: int, restored: bool)

  datatype Tables = Tables(docs: map<int, Doc>, sections: map<int, Section>, articles: map<int, Article>,
                           events: seq<Event>)

  datatype Outcome = Done | NotFound | Conflict | Violation | Broken

  datatype Item = Item(id: int, order: int)

  predicate LiveDoc(t: Tables, id: int) {
    id in t.docs && t.docs[id].tombstone.None?
  }

  predicate LiveSection(t: Tables, id: int) {
    id in t.sections && t.sections[id].tombstone.None?
  }

  predicate LiveArticle(t: Tables, id: int) {
    id in t.articles && t.articles[id].tombstone.None?
  }

  // ---- Constraints of the schema ----

  /** documentations_active_slug_unique */
  predicate DocSlugTaken(t: Tables, id: int, slug: string) {
    exists other | other in t.docs :: other != id && LiveDoc(t, other) && ToLower(t.docs[other].slug) == ToLower(slug)
  }

  /** documentation_articles_active_slug_unique */
  predicate ArticleSlugTaken(t: Tables, id: int, doc: int, slug: string) {
    exists other | other in t.articles ::
      other != id && LiveArticle(t, other) && t.articles[other].doc == doc
        && ToLower(t.articles[other].slug) == ToLower(slug)
  }

  /** The EXISTS guard on a section to put an article in. */
  predicate SectionFits(t: Tables, section: Option<int>, doc: int) {
    section.Some? ==> LiveSection(t, section.value) && t.sections[section.value].doc == doc
  }

  // ---- Operations on rows ----

  function CreateDoc(t: Tables, id: int, slug: string, title: string, owner: int): (Tables, Outcome) {
    if DocSlugTaken(t, id, slug) then (t, Violation)
    else (t.(docs := t.docs[id := Doc(slug, title, owner, 1, None)]), Done)
  }

  function UpdateDoc(t: Tables, id: int, slug: string, title: string, expected: int): (Tables, Outcome) {
    if !(LiveDoc(t, id) && t.docs[id].revision == expected) then (t, Conflict)
    else if DocSlugTaken(t, id, slug) then (t, Violation)
    else (t.(docs := t.docs[id := t.docs[id].(slug := slug, title := title, revision := expected + 1)]), Done)
  }

  function DeleteDoc(t: Tables, id: int, actor: int): (Tables, Outcome) {
    if !LiveDoc(t, id) then (t, NotFound)
    else
      var d := t.docs[id];
      (t.(docs := t.docs[id := d.(tombstone := Some(actor), revision := d.revision + 1)],
          events := t.events + [Event(actor, Documentations, id, false)]), Done)
  }

  /** COALESCE(MAX(display_order) + 1, 0) over the live rows of a documentation. */
  ghost predicate IsNextOrder(orders: set<int>, next: int) {
    if orders == {} then next == 0 else next - 1 in orders && forall o | o in orders :: o < next
  }

  function SectionOrders(t: Tables, doc: int): set<int> {
    set s | s in t.sections && LiveSection(t, s) && t.sections[s].doc == doc :: t.sections[s].order
  }

  function ArticleOrders(t: Tables, doc: int): set<int> {
    set a | a in t.articles && LiveArticle(t, a) && t.articles[a].doc == doc :: t.articles[a].order
  }

  function CreateSection(t: Tables, id: int, doc: int, title: string, order: int): (Tables, Outcome) {
    if doc !in t.docs then (t, Violation)
    else (t.(sections := t.sections[id := Section(doc, title, order, None)]), Done)
  }

  function UpdateSection(t: Tables, id: int, title: string): (Tables, Outcome) {
    if !LiveSection(t, id) then (t, NotFound)
    else (t.(sections := t.sections[id := t.sections[id].(title := title)]), Done)
  }

  /** The live articles of a section lose it. */
  function Unsectioned(t: Tables, section: int): map<int, Article> {
    map a | a in t.articles ::
      if LiveArticle(t, a) && t.articles[a].section == Some(section) then t.articles[a].(section := None)
        else t.articles[a]
  }

  function DeleteSection(t: Tables, id: int, actor: int): (Tables, Outcome) {
    if !LiveSection(t, id) then (t, NotFound)
    else (t.(articles := Unsectioned(t, id), sections := t.sections[id := t.sections[id].(tombstone := Some(actor))],
             events := t.events + [Event(actor, Sections, id, false)]), Done)
  }

  function CreateArticle(t: Tables, id: int, doc: int, section: Option<int>, slug: string, content: string, author: int,
                         order: int)
    : (Tables, Outcome)
  {
    if !SectionFits(t, section, doc) then (t, NotFound)
    else if doc !in t.docs || ArticleSlugTaken(t, id, doc, slug) then (t, Violation)
    else (t.(articles := t.articles[id := Article(doc, section, slug, content, order, author, author, 1, None)]), Done)
  }

  function UpdateArticle(t: Tables, id: int, section: Option<int>, slug: string, content: string, editor: int,
                         expected: int)
    : (Tables, Outcome)
  {
    if !(LiveArticle(t, id) && t.articles[id].revision == expected && SectionFits(t, section, t.articles[id].doc)) then
      (t, Conflict)
    else if ArticleSlugTaken(t, id, t.articles[id].doc, slug) then (t, Violation)
    else
      var row := t.articles[id].(section := section, slug := slug, content := content, editor := editor,
                                 revision := expected + 1);
      (t.(articles := t.articles[id := row]), Done)
  }

  function DeleteArticle(t: Tables, id: int, actor: int): (Tables, Outcome) {
    if !LiveArticle(t, id) then (t, NotFound)
    else
      var a := t.articles[id];
      (t.(articles := t.articles[id := a.(tombstone := Some(actor), revision := a.revision + 1)],
          events := t.events + [Event(actor, Articles, id, false)]), Done)
  }

  // ---- Reordering ----

  /** The order the items give a row: the last one for it counts. */
  function LastOrder(items: seq<Item>, id: int): Option<int> {
    if items == [] then None
    else if items[|items| - 1].id == id then Some(items[|items| - 1].order)
    else LastOrder(items[..|items| - 1], id)
  }

  function OrderedSections(t: Tables, items: seq<Item>): map<int, Section> {
    map s | s in t.sections ::
      var o := LastOrder(items, s); if o.Some? then t.sections[s].(order := o.value) else t.sections[s]
  }

  function OrderedArticles(t: Tables, items: seq<Item>): map<int, Article> {
    map a | a in t.articles ::
      var o := LastOrder(items, a); if o.Some? then t.articles[a].(order := o.value) else t.articles[a]
  }

  predicate SectionOf(t: Tables, doc: int, id: int) {
    LiveSection(t, id) && t.sections[id].doc == doc
  }

  predicate ArticleOf(t: Tables, doc: int, id: int) {
    LiveArticle(t, id) && t.articles[id].doc == doc
  }

  function BumpDoc(t: Tables, doc: int): map<int, Doc> {
    if LiveDoc(t, doc) then t.docs[doc := t.docs[doc].(revision := t.docs[doc].revision + 1)] else t.docs
  }

  function Reorder(t: Tables, doc: int, sections: seq<Item>, articles: seq<Item>): (Tables, Outcome) {
    if (exists i | i in sections :: !SectionOf(t, doc, i.id))
      || (exists i | i in articles :: !ArticleOf(t, doc, i.id)) then (t, NotFound)
    else (t.(sections := OrderedSections(t, sections), articles := OrderedArticles(t, articles),
             docs := BumpDoc(t, doc)), Done)
  }

  // ---- Restoring ----

  predicate MayRestore(owner: int, tombstone: Option<int>, actor: int, managed: bool) {
    tombstone.Some? && (managed || owner == actor || tombstone.value == actor)
  }

  function RestoreDoc(t: Tables, id: int, actor: int, managed: bool): (Tables, Outcome) {
    if !(id in t.docs && MayRestore(t.docs[id].owner, t.docs[id].tombstone, actor, managed)) then (t, NotFound)
    else if DocSlugTaken(t, id, t.docs[id].slug) then (t, Conflict)
    else
      var d := t.docs[id];
      (t.(docs := t.docs[id := d.(tombstone := None, revision := d.revision + 1)],
          events := t.events + [Event(actor, Documentations, id, true)]), Done)
  }

  function RestoreSection(t: Tables, id: int, actor: int, managed: bool): (Tables, Outcome) {
    if !(id in t.sections && LiveDoc(t, t.sections[id].doc)
         && MayRestore(t.docs[t.sections[id].doc].owner, t.sections[id].tombstone, actor, managed)) then (t, NotFound)
    else (t.(sections := t.sections[id := t.sections[id].(tombstone := None)],
             events := t.events + [Event(actor, Sections, id, true)]), Done)
  }

  /** The guard asks for a live section, but not for one of the same
      documentation. */
  function RestoreArticle(t: Tables, id: int, actor: int, managed: bool): (Tables, Outcome) {
    if !(id in t.articles && LiveDoc(t, t.articles[id].doc)
         && MayRestore(t.docs[t.articles[id].doc].owner, t.articles[id].tombstone, actor, managed)
         && (t.articles[id].section.Some? ==> LiveSection(t, t.articles[id].section.value))) then (t, NotFound)
    else if ArticleSlugTaken(t, id, t.articles[id].doc, t.articles[id].slug) then (t, Conflict)
    else
      var a := t.articles[id];
      (t.(articles := t.articles[id := a.(tombstone := None, revision := a.revision + 1)],
          events := t.events + [Event(actor, Articles, id, true)]), Done)
  }

  // ---- The repository ----

  /** A statement of a transaction fails when the database breaks at it. */
  class Repository {
    var docs: map<int, Doc>
    var sections: map<int, Section>
    var articles: map<int, Article>
    var events: seq<Event>

    function Rows(): Tables
      reads this
    {
      Tables(docs, sections, articles, events)
    }

    method Rollback(before: Tables)
      modifies this
      ensures Rows() == before
    {
      docs, sections, articles, events := before.docs, before.sections, before.articles, before.events;
    }

    /** First the live articles lose the section, then the section is tombstoned;
        when it is not there, the articles get it back. */
    method DeleteSectionTx(id: int, actor: int, breaksAt: nat) returns (outcome: Outcome)
      modifies this
      ensures outcome.Broken? ==> breaksAt <= 2
      ensures !outcome.Broken? ==> outcome == DeleteSection(old(Rows()), id, actor).1
      ensures Rows() == if outcome.Broken? then old(Rows()) else DeleteSection(old(Rows()), id, actor).0
    {
      var before := Rows();
      if breaksAt == 0 {
        return Broken;
      }
      articles := Unsectioned(before, id);
      if breaksAt == 1 {
        Rollback(before);
        return Broken;
      }
      if id !in sections || sections[id].tombstone.Some? {
        Rollback(before);
        return NotFound;
      }
      sections := sections[id := sections[id].(tombstone := Some(actor))];
      if breaksAt == 2 {
        Rollback(before);
        return Broken;
      }
      events := events + [Event(actor, Sections, id, false)];
      return Done;
    }

    method DeleteArticleTx(id: int, actor: int, breaksAt: nat) returns (outcome: Outcome)
      modifies this
      ensures outcome.Broken? ==> breaksAt <= 1
      ensures !outcome.Broken? ==> outcome == DeleteArticle(old(Rows()), id, actor).1
      ensures Rows() == if outcome.Broken? then old(Rows()) else DeleteArticle(old(Rows()), id, actor).0
    {
      var before := Rows();
      if breaksAt == 0 {
        return Broken;
      }
      if id !in articles || articles[id].tombstone.Some? {
        Rollback(before);
        return NotFound;
      }
      articles := articles[id := articles[id].(tombstone := Some(actor), revision := articles[id].revision + 1)];
      if breaksAt == 1 {
        Rollback(before);
        return Broken;
      }
      events := events + [Event(actor, Articles, id, false)];
      return Done;
    }

    /** One update a row, each of which has to hit a live row of the
        documentation; the first that does not undoes them all. */
    method ReorderTx(doc: int, sectionItems: seq<Item>, articleItems: seq<Item>, breaksAt: nat)
      returns (outcome: Outcome)
      modifies this
      ensures outcome.Broken? ==> breaksAt <= |sectionItems| + |articleItems|
      ensures !outcome.Broken? ==> outcome == Reorder(old(Rows()), doc, sectionItems, articleItems).1
      ensures Rows() == if outcome.Broken? then old(Rows()) else Reorder(old(Rows()), doc, sectionItems, articleItems).0
    {
      hide OrderedSections, OrderedArticles, BumpDoc;
      var before := Rows();
      assert OrderedSections(before, []) == sections && OrderedArticles(before, []) == articles by { NoItems(before); }
      var i := 0;
      while i < |sectionItems|
        invariant 0 <= i <= |sectionItems|
        invariant forall j | 0 <= j < i :: SectionOf(before, doc, sectionItems[j].id)
        invariant sections == OrderedSections(before, sectionItems[..i])
        invariant docs == before.docs && articles == before.articles && events == before.events
      {
        if breaksAt == i {
          Rollback(before);
          return Broken;
        }
        var item := sectionItems[i];
        SectionItemStep(before, sectionItems[..i], item, doc);
        assert sectionItems[..i + 1] == sectionItems[..i] + [item];
        if !(item.id in sections && sections[item.id].doc == doc && sections[item.id].tombstone.None?) {
          Rollback(before);
          assert item in sectionItems;
          return NotFound;
        }
        sections := sections[item.id := sections[item.id].(order := item.order)];
        i := i + 1;
      }
      assert sectionItems[..i] == sectionItems;
      i := 0;
      while i < |articleItems|
        invariant 0 <= i <= |articleItems|
        invariant forall j | 0 <= j < i :: ArticleOf(before, doc, articleItems[j].id)
        invariant articles == OrderedArticles(before, articleItems[..i])
        invariant sections == OrderedSections(before, sectionItems) && docs == before.docs && events == before.events
      {
        if breaksAt == |sectionItems| + i {
          Rollback(before);
          return Broken;
        }
        var item := articleItems[i];
        ArticleItemStep(before, articleItems[..i], item, doc);
        assert articleItems[..i + 1] == articleItems[..i] + [item];
        if !(item.id in articles && articles[item.id].doc == doc && articles[item.id].tombstone.None?) {
          Rollback(before);
          assert item in articleItems;
          return NotFound;
        }
        articles := articles[item.id := articles[item.id].(order := item.order)];
        i := i + 1;
      }
      assert articleItems[..i] == articleItems;
      if breaksAt == |sectionItems| + |articleItems| {
        Rollback(before);
        return Broken;
      }
      docs := BumpDoc(before, doc);
      return Done;
    }

    method CreateSectionRow(id: int, doc: int, title: string, order: int) returns (outcome: Outcome)
      requires id !in sections && IsNextOrder(SectionOrders(Rows(), doc), order)
      modifies this
      ensures (Rows(), outcome) == CreateSection(old(Rows()), id, doc, title, order)
      ensures outcome.Done? ==> forall s | LiveSection(old(Rows()), s) && old(sections)[s].doc == doc ::
              old(sections)[s].order < sections[id].order
    {
      if doc !in docs {
        return Violation;
      }
      assert forall s | LiveSection(Rows(), s) && sections[s].doc == doc ::
        sections[s].order in SectionOrders(Rows(), doc);
      sections := sections[id := Section(doc, title, order, None)];
      return Done;
    }

    method UpdateArticleRow(id: int, section: Option<int>, slug: string, content: string, editor: int, expected: int)
      returns (outcome: Outcome)
      modifies this
      ensures (Rows(), outcome) == UpdateArticle(old(Rows()), id, section, slug, content, editor, expected)
    {
      var before := Rows();
      if id !in articles || articles[id].revision != expected || articles[id].tombstone.Some? {
        return Conflict;
      }
      if section.Some?
        && !(section.value in sections && sections[section.value].doc == articles[id].doc
             && sections[section.value].tombstone.None?) {
        return Conflict;
      }
      if ArticleSlugTaken(before, id, articles[id].doc, slug) {
        return Violation;
      }
      articles := articles[id := articles[id].(section := section, slug := slug, content := content, editor := editor,
                                               revision := articles[id].revision + 1)];
      return Done;
    }

    method CreateArticleRow(id: int, doc: int, section: Option<int>, slug: string, content: string, author: int,
                            order: int)
      returns (outcome: Outcome)
      requires id !in articles && IsNextOrder(ArticleOrders(Rows(), doc), order)
      modifies this
      ensures (Rows(), outcome) == CreateArticle(old(Rows()), id, doc, section, slug, content, author, order)
    {
      var before := Rows();
      if section.Some?
        && !(section.value in sections && sections[section.value].doc == doc
             && sections[section.value].tombstone.None?) {
        return NotFound;
      }
      if doc !in docs || ArticleSlugTaken(before, id, doc, slug) {
        return Violation;
      }
      articles := articles[id := Article(doc, section, slug, content, order, author, author, 1, None)];
      return Done;
    }

    /** The three providers of the trash share one method. */
    method Restore(resource: Resource, id: int, actor: int, managed: bool, breaksAt: nat) returns (outcome: Outcome)
      modifies this
      ensures outcome.Broken? ==> breaksAt <= 1
      ensures !outcome.Broken? ==> outcome == RestoreOf(old(Rows()), resource, id, actor, managed).1
      ensures Rows() == if outcome.Broken? then old(Rows()) else RestoreOf(old(Rows()), resource, id, actor, managed).0
    {
      hide DocSlugTaken, ArticleSlugTaken;
      var before := Rows();
      if id <= 0 {
        return NotFound;
      }
      if breaksAt == 0 {
        return Broken;
      }
      match resource {
        case Documentations =>
          if id !in docs || !MayRestore(docs[id].owner, docs[id].tombstone, actor, managed) {
            return NotFound;
          }
          if DocSlugTaken(before, id, docs[id].slug) {
            return Conflict;
          }
          docs := docs[id := docs[id].(tombstone := None, revision := docs[id].revision + 1)];
        case Sections =>
          if id !in sections || sections[id].doc !in docs || docs[sections[id].doc].tombstone.Some?
             || !MayRestore(docs[sections[id].doc].owner, sections[id].tombstone, actor, managed) {
            return NotFound;
          }
          sections := sections[id := sections[id].(tombstone := None)];
        case Articles =>
          if id !in articles || articles[id].doc !in docs || docs[articles[id].doc].tombstone.Some?
             || !MayRestore(docs[articles[id].doc].owner, articles[id].tombstone, actor, managed)
             || (articles[id].section.Some?
                 && !(articles[id].section.value in sections && sections[articles[id].section.value].tombstone.None?)) {
            return NotFound;
          }
          if ArticleSlugTaken(before, id, articles[id].doc, articles[id].slug) {
            return Conflict;
          }
          articles := articles[id := articles[id].(tombstone := None, revision := articles[id].revision + 1)];
      }
      if breaksAt == 1 {
        Rollback(before);
        return Broken;
      }
      events := events + [Event(actor, resource, id, true)];
      return Done;
    }
  }

  function RestoreOf(t: Tables, resource: Resource, id: int, actor: int, managed: bool): (Tables, Outcome) {
    if id <= 0 then (t, NotFound)
    else match resource
      case Documentations => RestoreDoc(t, id, actor, managed)
      case Sections => RestoreSection(t, id, actor, managed)
      case Articles => RestoreArticle(t, id, actor, managed)
  }

  lemma NoItems(t: Tables)
    ensures OrderedSections(t, []) == t.sections && OrderedArticles(t, []) == t.articles
  {
  }

  lemma SectionItemStep(t: Tables, items: seq<Item>, item: Item, doc: int)
    ensures var after := OrderedSections(t, items);
            && (SectionOf(t, doc, item.id)
                <==> item.id in after && after[item.id].doc == doc && after[item.id].tombstone.None?)
            && (item.id in t.sections ==>
                OrderedSections(t, items + [item]) == after[item.id := after[item.id].(order := item.order)])
  {
    assert forall id ::
      LastOrder(items + [item], id) == if id == item.id then Some(item.order) else LastOrder(items, id) by {
      assert (items + [item])[..|items|] == items;
    }
  }

  lemma ArticleItemStep(t: Tables, items: seq<Item>, item: Item, doc: int)
    ensures var after := OrderedArticles(t, items);
            && (ArticleOf(t, doc, item.id)
                <==> item.id in after && after[item.id].doc == doc && after[item.id].tombstone.None?)
            && (item.id in t.articles ==>
                OrderedArticles(t, items + [item]) == after[item.id := after[item.id].(order := item.order)])
  {
    assert forall id ::
      LastOrder(items + [item], id) == if id == item.id then Some(item.order) else LastOrder(items, id) by {
      assert (items + [item])[..|items|] == items;
    }
  }
}
