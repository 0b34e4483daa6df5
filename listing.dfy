/**
 * The listing routes `GET /` and `GET /saved`. The store query
 * (`find` with a filter and a descending sort on `created`) is performed by
 * the database; its answer is an input here, characterised by
 * `IsQueryResult`. The routes then choose between the listing template and
 * the placeholder message.
 */
module Listing {
  import opened Articles

  const NothingScrapedMessage := "There's nothing scraped yet. Please click \"Scrape For Newest Articles\"."
  const NothingSavedMessage := "You have not saved any articles yet. Try to save some delicious news by simply clicking \"Save Article\"!"

  /** `{}` selects every article; `{ issaved: true }` only saved ones. */
  datatype Filter = All | SavedOnly

  predicate Selects(f: Filter, a: Article) {
    f.All? || a.issaved
  }

  /** A stored document as the query returns it: its id and its fields. */
  datatype Doc = Doc(id: Id, article: Article)

  predicate SortedByCreatedDesc(data: seq<Doc>) {
    forall i, j :: 0 <= i < j < |data| ==> data[i].article.created >= data[j].article.created
  }

  /** `data` lists, once each and newest first, exactly the documents among
      the keys `ks` of `table` that the filter selects. */
  ghost predicate ListsSelected(table: map<Id, Article>, f: Filter, ks: set<Id>, data: seq<Doc>) {
    && (forall i :: 0 <= i < |data| ==>
          data[i].id in ks && data[i].id in table &&
          table[data[i].id] == data[i].article && Selects(f, data[i].article))
    && (forall id :: id in ks && id in table && Selects(f, table[id]) ==> Doc(id, table[id]) in data)
    && (forall i, j :: 0 <= i < j < |data| ==> data[i].id != data[j].id)
    && SortedByCreatedDesc(data)
  }

  /** What `db.Article.find(filter, null, { sort: { created: -1 } })` hands
      to its callback. Documents with equal `created` may come in any order. */
  ghost predicate IsQueryResult(table: map<Id, Article>, f: Filter, data: seq<Doc>) {
    ListsSelected(table, f, table.Keys, data)
  }

  /** The view a route renders: a template with its data, or the
      placeholder template with a message. */
  datatype Page = Placeholder(message: string) | Index(articles: seq<Doc>) | Saved(saved: seq<Doc>)

  /** `GET /` once the query has answered. */
  function IndexPage(data: seq<Doc>): Page {
    if |data| == 0 then Placeholder(NothingScrapedMessage) else Index(data)
  }

  /** `GET /saved` once the query has answered. */
  function SavedPage(data: seq<Doc>): Page {
    if |data| == 0 then Placeholder(NothingSavedMessage) else Saved(data)
  }

  /** `GET /` shows the placeholder exactly when nothing is stored, and
      otherwise every stored article, newest first. */
  lemma IndexRoute(table: map<Id, Article>, data: seq<Doc>)
    requires IsQueryResult(table, All, data)
    ensures IndexPage(data) == Placeholder(NothingScrapedMessage) <==> table == map[]
    ensures table != map[] ==> IndexPage(data) == Index(data)
    ensures forall id :: id in table ==> Doc(id, table[id]) in data
  {
    if table != map[] {
      var id :| id in table;
      assert Doc(id, table[id]) in data;
    }
    if |data| > 0 {
      assert data[0].id in table;
    }
  }

  /** `GET /saved` shows the placeholder exactly when no stored article is
      saved, and otherwise only saved articles, newest first. */
  lemma SavedRoute(table: map<Id, Article>, data: seq<Doc>)
    requires IsQueryResult(table, SavedOnly, data)
    ensures SavedPage(data) == Placeholder(NothingSavedMessage) <==> forall id :: id in table ==> !table[id].issaved
    ensures SavedPage(data) != Placeholder(NothingSavedMessage) ==> SavedPage(data) == Saved(data)
    ensures forall d :: d in data ==> d.article.issaved
    ensures forall id :: id in table && table[id].issaved ==> Doc(id, table[id]) in data
  {
    if exists id :: id in table && table[id].issaved {
      var id :| id in table && table[id].issaved;
      assert Doc(id, table[id]) in data;
    }
    if |data| > 0 {
      assert data[0].id in table && table[data[0].id].issaved;
    }
  }

  /** Where a document goes in a newest-first list: after every document
      at least as new, before every older one. */
  function InsertPos(data: seq<Doc>, d: Doc): (p: nat)
    requires SortedByCreatedDesc(data)
    ensures p <= |data|
    ensures forall i :: 0 <= i < p ==> data[i].article.created >= d.article.created
    ensures forall i :: p <= i < |data| ==> d.article.created >= data[i].article.created
  {
    if data == [] || d.article.created >= data[0].article.created then 0
    else 1 + InsertPos(data[1..], d)
  }

  lemma InsertSorted(data: seq<Doc>, d: Doc)
    requires SortedByCreatedDesc(data)
    ensures SortedByCreatedDesc(data[..InsertPos(data, d)] + [d] + data[InsertPos(data, d)..])
  {
  }

  /** Inserting a document whose id is new keeps the ids distinct. */
  lemma InsertDistinct(rest: seq<Doc>, d: Doc, p: nat)
    requires p <= |rest|
    requires forall i, j :: 0 <= i < j < |rest| ==> rest[i].id != rest[j].id
    requires forall i :: 0 <= i < |rest| ==> rest[i].id != d.id
    ensures forall i, j :: 0 <= i < j < |rest[..p] + [d] + rest[p..]| ==>
      (rest[..p] + [d] + rest[p..])[i].id != (rest[..p] + [d] + rest[p..])[j].id
  {
  }

  /** The documents of the list after an insertion: the old ones and the new one. */
  lemma InsertMembers(rest: seq<Doc>, d: Doc, p: nat)
    requires p <= |rest|
    ensures forall i :: 0 <= i < |rest[..p] + [d] + rest[p..]| ==>
      (rest[..p] + [d] + rest[p..])[i] == d || (rest[..p] + [d] + rest[p..])[i] in rest
    ensures forall x :: x in rest ==> x in rest[..p] + [d] + rest[p..]
    ensures d in rest[..p] + [d] + rest[p..]
  {
    var data := rest[..p] + [d] + rest[p..];
    forall i | 0 <= i < |data|
      ensures data[i] == d || data[i] in rest
    {
      if i < p { assert data[i] == rest[i]; } else if i > p { assert data[i] == rest[i - 1]; }
    }
    forall x | x in rest
      ensures x in data
    {
      var i :| 0 <= i < |rest| && rest[i] == x;
      if i < p { assert data[i] == x; } else { assert data[i + 1] == x; }
    }
    assert data[p] == d;
  }

  /** Inserting one more selected key into a listing of the others. */
  lemma InsertListing(table: map<Id, Article>, f: Filter, ks: set<Id>, k: Id, rest: seq<Doc>)
    returns (data: seq<Doc>)
    requires k in ks && ks <= table.Keys && Selects(f, table[k])
    requires ListsSelected(table, f, ks - {k}, rest)
    ensures ListsSelected(table, f, ks, data)
  {
    var d := Doc(k, table[k]);
    var p := InsertPos(rest, d);
    InsertSorted(rest, d);
    InsertDistinct(rest, d, p);
    InsertMembers(rest, d, p);
    data := rest[..p] + [d] + rest[p..];
  }

  /** Builds a query result over the keys `ks`, one key at a time. */
  lemma {:induction false} BuildQuery(table: map<Id, Article>, f: Filter, ks: set<Id>) returns (data: seq<Doc>)
    requires ks <= table.Keys
    ensures ListsSelected(table, f, ks, data)
    decreases ks
  {
    if ks == {} {
      return [];
    }
    var k :| k in ks;
    var rest := BuildQuery(table, f, ks - {k});
    if Selects(f, table[k]) {
      data := InsertListing(table, f, ks, k, rest);
    } else {
      data := rest;
    }
  }

  /** The query the listing routes rely on always has an answer. */
  lemma QueryResultExists(table: map<Id, Article>, f: Filter)
    ensures exists data :: IsQueryResult(table, f, data)
  {
    var data := BuildQuery(table, f, table.Keys);
    assert IsQueryResult(table, f, data);
  }
}
