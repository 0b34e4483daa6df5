/**
 * Stored articles and notes, and the two routes that change them:
 * `POST /save/:id` (toggle the save status) and `POST /note/:id` (attach a
 * new note). The document store is an in-memory table from id to record.
 */
module Articles {
  import opened Wrappers
  import Extract

  type Id = nat
  type NoteId = nat

  /** The fields a client submits for a note. */
  type NoteBody = map<string, string>

  /** Status labels and redirect targets of the save route. */
  const SavedLabel := "Saved"
  const UnsavedLabel := "Save Article"
  const IndexPath := "/"
  const SavedPath := "/saved"

  datatype Article = Article(
    title: string,
    link: Option<string>,
    summary: Option<string>,
    issaved: bool,
    status: string,
    note: Option<NoteId>,
    created: int)

  /** The status label is the one that belongs to the save flag. */
  predicate StatusAgrees(a: Article) {
    a.status == if a.issaved then SavedLabel else UnsavedLabel
  }

  /** A freshly created article: the candidate's fields, not saved, no note. */
  function NewArticle(c: Extract.Candidate, created: int): (a: Article)
    ensures a.title == c.title && a.link == c.link && a.summary == c.summary
    ensures !a.issaved && StatusAgrees(a) && a.note == None && a.created == created
  {
    Article(c.title, c.link, c.summary, false, UnsavedLabel, None, created)
  }

  datatype SaveOutcome = SaveOutcome(article: Article, redirect: string)

  /** What the save route does to one article: it flips `issaved`, sets the
      matching label, and redirects to the listing the article disappears
      from or joins. Nothing else in the record changes. */
  function Toggle(a: Article): (r: SaveOutcome)
    ensures r.article.issaved == !a.issaved
    ensures StatusAgrees(r.article)
    ensures a.issaved ==> r.article.status == UnsavedLabel && r.redirect == IndexPath
    ensures !a.issaved ==> r.article.status == SavedLabel && r.redirect == SavedPath
    ensures r.article.(issaved := a.issaved, status := a.status) == a
  {
    if a.issaved then
      SaveOutcome(a.(issaved := false, status := UnsavedLabel), IndexPath)
    else
      SaveOutcome(a.(issaved := true, status := SavedLabel), SavedPath)
  }

  /** Two toggles give back the article exactly when its label matched its
      flag beforehand. */
  lemma ToggleTwice(a: Article)
    ensures Toggle(Toggle(a).article).article == a <==> StatusAgrees(a)
  {
  }

  /** The note route's update: `note` becomes the new note's id and nothing
      else in the record changes. */
  function AttachTo(a: Article, n: NoteId): (r: Article)
    ensures r.note == Some(n)
    ensures r.(note := a.note) == a
    ensures StatusAgrees(r) == StatusAgrees(a)
  {
    a.(note := Some(n))
  }

  class Store {
    var articles: map<Id, Article>
    var notes: map<NoteId, NoteBody>
    var nextArticle: nat
    var nextNote: nat

    /** Ids are below the next id to hand out, every label matches its
        flag, and every note reference resolves (notes are never removed). */
    ghost predicate Valid()
      reads this
    {
      && (forall id :: id in articles ==> id < nextArticle)
      && (forall n :: n in notes ==> n < nextNote)
      && (forall id :: id in articles ==> StatusAgrees(articles[id]))
      && (forall id :: id in articles && articles[id].note.Some? ==> articles[id].note.value in notes)
    }

    constructor ()
      ensures Valid()
      ensures articles == map[] && notes == map[]
    {
      articles, notes := map[], map[];
      nextArticle, nextNote := 0, 0;
    }

    /** `db.Article.create(result)`: stores the candidate under a fresh id. */
    method Create(c: Extract.Candidate, created: int) returns (id: Id)
      requires Valid()
      modifies this
      ensures Valid()
      ensures id !in old(articles)
      ensures articles == old(articles)[id := NewArticle(c, created)]
      ensures notes == old(notes)
    {
      id := nextArticle;
      articles := articles[id := NewArticle(c, created)];
      nextArticle := nextArticle + 1;
    }

    /** `GET /:id`: the stored record, or nothing for an unknown id. */
    function Find(id: Id): (r: Option<Article>)
      reads this
      ensures r.Some? <==> id in articles
      ensures r.Some? ==> r.value == articles[id]
    {
      if id in articles then Some(articles[id]) else None
    }

    /** `POST /save/:id`: read the article, then write the inverted flag
        and its label, and answer with a redirect. An unknown id changes
        nothing and gives no redirect. */
    method Save(id: Id) returns (redirect: Option<string>)
      requires Valid()
      modifies this
      ensures Valid()
      ensures id !in old(articles) ==> redirect == None && articles == old(articles)
      ensures id in old(articles) ==>
        && redirect == Some(Toggle(old(articles)[id]).redirect)
        && articles == old(articles)[id := Toggle(old(articles)[id]).article]
      ensures notes == old(notes)
    {
      if id !in articles {
        return None;
      }
      var data := articles[id];
      if data.issaved {
        articles := articles[id := data.(issaved := false, status := UnsavedLabel)];
        redirect := Some(IndexPath);
      } else {
        articles := articles[id := data.(issaved := true, status := SavedLabel)];
        redirect := Some(SavedPath);
      }
    }

    /** `POST /note/:id`: store the submitted note under a fresh id, then
        point the article at it. The note is stored even when the article
        does not exist; the answer is the updated article, if any. */
    method AttachNote(id: Id, body: NoteBody) returns (noteId: NoteId, updated: Option<Article>)
      requires Valid()
      modifies this
      ensures Valid()
      ensures noteId !in old(notes) && notes == old(notes)[noteId := body]
      ensures id !in old(articles) ==> updated == None && articles == old(articles)
      ensures id in old(articles) ==>
        && updated == Some(AttachTo(old(articles)[id], noteId))
        && articles == old(articles)[id := AttachTo(old(articles)[id], noteId)]
      ensures NoteOf(id) == if id in old(articles) then Some(Some(body)) else None
    {
      noteId := nextNote;
      notes := notes[noteId := body];
      nextNote := nextNote + 1;
      if id in articles {
        var doc := AttachTo(articles[id], noteId);
        articles := articles[id := doc];
        updated := Some(doc);
      } else {
        updated := None;
      }
    }

    /** `GET /note/:id`: the article's note with its reference resolved.
        None for an unknown article; Some(None) when it has no note or the
        reference does not resolve. */
    function NoteOf(id: Id): (r: Option<Option<NoteBody>>)
      reads this
      ensures r.None? <==> id !in articles
      ensures id in articles && articles[id].note.None? ==> r == Some(None)
      ensures id in articles && articles[id].note.Some? && articles[id].note.value in notes ==>
        r == Some(Some(notes[articles[id].note.value]))
    {
      if id !in articles then None
      else match articles[id].note
        case None => Some(None)
        case Some(n) => if n in notes then Some(Some(notes[n])) else Some(None)
    }
  }

  /** Two saves in a row leave every article as it was. */
  method SaveTwice(s: Store, id: Id)
    requires s.Valid() && id in s.articles
    modifies s
    ensures s.Valid()
    ensures s.articles == old(s.articles) && s.notes == old(s.notes)
  {
    ghost var before := s.articles;
    var first := s.Save(id);
    var second := s.Save(id);
    ToggleTwice(before[id]);
    assert s.articles == before[id := Toggle(Toggle(before[id]).article).article];
  }

  /** A stored candidate is read back with its title, link and summary. */
  method CreateThenFind(s: Store, c: Extract.Candidate, created: int) returns (id: Id)
    requires s.Valid()
    modifies s
    ensures s.Valid()
    ensures s.Find(id).Some?
    ensures s.Find(id).value.title == c.title
    ensures s.Find(id).value.link == c.link
    ensures s.Find(id).value.summary == c.summary
  {
    id := s.Create(c, created);
  }
}
