/**
 * Article storage: ingest with deduplication by (feed_id, guid), read and
 * saved flags, summaries, tags, and retention cleanup. Each statement is a
 * method on the `Database` tables; the table each one produces is given by
 * a function of the old tables, and the properties are lemmas about those
 * functions.
 */
module ArticleRepo {
  import opened Wrappers
  import opened FeedModels
  import opened Storage
  import opened Sorting
  import Text

  // ---------------------------------------------------------------- lookups

  function IndexOfIdFrom(articles: seq<Article>, id: Id, k: nat): (r: Option<nat>)
    requires k <= |articles|
    ensures r.Some? ==> k <= r.value < |articles| && articles[r.value].id == id
    ensures r.None? ==> forall i :: k <= i < |articles| ==> articles[i].id != id
    decreases |articles| - k
  {
    if k == |articles| then None
    else if articles[k].id == id then Some(k)
    else IndexOfIdFrom(articles, id, k + 1)
  }

  /** Position of the row with primary key `id`. */
  function IndexOfId(articles: seq<Article>, id: Id): (r: Option<nat>)
    ensures r.Some? ==> r.value < |articles| && articles[r.value].id == id
    ensures r.None? <==> id !in ArticleIds(articles)
  {
    IndexOfIdFrom(articles, id, 0)
  }

  function IndexOfKeyFrom(articles: seq<Article>, feedId: Id, guid: string, k: nat): (r: Option<nat>)
    requires k <= |articles|
    ensures r.Some? ==> k <= r.value < |articles| && articles[r.value].feedId == feedId && articles[r.value].guid == guid
    ensures r.None? ==> forall i :: k <= i < |articles| ==> articles[i].feedId != feedId || articles[i].guid != guid
    decreases |articles| - k
  {
    if k == |articles| then None
    else if articles[k].feedId == feedId && articles[k].guid == guid then Some(k)
    else IndexOfKeyFrom(articles, feedId, guid, k + 1)
  }

  /** Position of the row with unique key (feed_id, guid). */
  function IndexOfKey(articles: seq<Article>, feedId: Id, guid: string): (r: Option<nat>)
    ensures r.Some? ==> r.value < |articles| && articles[r.value].feedId == feedId && articles[r.value].guid == guid
    ensures r.None? ==> forall a :: a in articles ==> a.feedId != feedId || a.guid != guid
  {
    IndexOfKeyFrom(articles, feedId, guid, 0)
  }

  /** The stored row with primary key `id`. */
  function FindRow(articles: seq<Article>, id: Id): (r: Option<Article>)
    ensures r.Some? <==> id in ArticleIds(articles)
    ensures r.Some? ==> r.value in articles && r.value.id == id
  {
    match IndexOfId(articles, id)
    case Some(i) => Some(articles[i])
    case None => None
  }

  // ---------------------------------------------------------------- ingest

  /** The row `INSERT` writes for a new article: unread, unsaved, unsummarized, fetched and created now. */
  function NewRow(n: NewArticle, id: Id, now: int): Article
  {
    Article(id, n.feedId, n.guid, n.url, n.title, n.author, n.content, n.contentText,
            None, None, n.publishedAt, now, false, None, false, now, n.imageUrl, None, [])
  }

  /** The `UPDATE` on re-ingest: title overwritten, the optional fields COALESCEd, fetched_at set to now. */
  function Merge(row: Article, n: NewArticle, now: int): Article
  {
    row.(url := n.url.OrElse(row.url),
         title := n.title,
         author := n.author.OrElse(row.author),
         content := n.content.OrElse(row.content),
         contentText := n.contentText.OrElse(row.contentText),
         publishedAt := n.publishedAt.OrElse(row.publishedAt),
         fetchedAt := now,
         imageUrl := n.imageUrl.OrElse(row.imageUrl))
  }

  predicate IsDuplicate(articles: seq<Article>, n: NewArticle)
  {
    IndexOfKey(articles, n.feedId, n.guid).Some?
  }

  /** The articles table after `create(n)` succeeds. */
  function Ingest(articles: seq<Article>, n: NewArticle, id: Id, now: int): seq<Article>
  {
    match IndexOfKey(articles, n.feedId, n.guid)
    case Some(i) => articles[i := Merge(articles[i], n, now)]
    case None => articles + [NewRow(n, id, now)]
  }

  /** A new (feed_id, guid) adds exactly one row; a known one adds none. */
  lemma IngestCount(articles: seq<Article>, n: NewArticle, id: Id, now: int)
    ensures |Ingest(articles, n, id, now)| == |articles| + (if IsDuplicate(articles, n) then 0 else 1)
  {
  }

  /**
   * Re-ingesting a known article keeps its identity and its read, saved and
   * summary state; the title is replaced and every optional field keeps its
   * old value when the new one is absent.
   */
  lemma IngestDuplicateMerges(articles: seq<Article>, n: NewArticle, id: Id, now: int, i: nat)
    requires ArticlesWellFormed(articles)
    requires i < |articles| && articles[i].feedId == n.feedId && articles[i].guid == n.guid
    ensures var r := Ingest(articles, n, id, now)[i];
      && r.id == articles[i].id && r.isRead == articles[i].isRead && r.readAt == articles[i].readAt
      && r.isSaved == articles[i].isSaved && r.summary == articles[i].summary
      && r.createdAt == articles[i].createdAt && r.title == n.title && r.fetchedAt == now
      && (n.url.None? ==> r.url == articles[i].url) && (n.url.Some? ==> r.url == n.url)
      && (n.author.None? ==> r.author == articles[i].author)
      && (n.content.None? ==> r.content == articles[i].content)
      && (n.contentText.None? ==> r.contentText == articles[i].contentText)
      && (n.publishedAt.None? ==> r.publishedAt == articles[i].publishedAt)
      && (n.imageUrl.None? ==> r.imageUrl == articles[i].imageUrl)
    ensures forall j :: 0 <= j < |articles| && j != i ==> Ingest(articles, n, id, now)[j] == articles[j]
  {
    assert IndexOfKey(articles, n.feedId, n.guid) == Some(i);
  }

  /** Ingest keeps the keys unique, given a fresh id for a new row. */
  lemma IngestWellFormed(articles: seq<Article>, n: NewArticle, id: Id, now: int)
    requires ArticlesWellFormed(articles)
    requires id !in ArticleIds(articles)
    ensures ArticlesWellFormed(Ingest(articles, n, id, now))
    ensures ArticleIds(Ingest(articles, n, id, now)) == ArticleIds(articles) + (if IsDuplicate(articles, n) then {} else {id})
  {
    var r := Ingest(articles, n, id, now);
    match IndexOfKey(articles, n.feedId, n.guid)
    case Some(i) =>
      assert forall j :: 0 <= j < |r| ==> r[j].id == articles[j].id && r[j].feedId == articles[j].feedId && r[j].guid == articles[j].guid;
      assert ArticleIds(r) == ArticleIds(articles) by {
        forall x | x in ArticleIds(r) ensures x in ArticleIds(articles) {
          var a :| a in r && a.id == x;
          var j :| 0 <= j < |r| && r[j] == a;
          assert articles[j] in articles;
        }
        forall x | x in ArticleIds(articles) ensures x in ArticleIds(r) {
          var a :| a in articles && a.id == x;
          var j :| 0 <= j < |articles| && articles[j] == a;
          assert r[j] in r;
        }
      }
    case None =>
      forall i | 0 <= i < |articles| ensures articles[i].id != id {
        assert articles[i] in articles;
      }
      assert ArticleIds(r) == ArticleIds(articles) + {id} by {
        assert r[|articles|] in r;
        forall x | x in ArticleIds(r) ensures x in ArticleIds(articles) + {id} {
          var a :| a in r && a.id == x;
          var j :| 0 <= j < |r| && r[j] == a;
          if j < |articles| { assert articles[j] in articles; }
        }
      }
  }

  /** Ingesting the same item twice leaves as many rows as ingesting it once. */
  lemma IngestTwiceSameCount(articles: seq<Article>, n: NewArticle, id1: Id, id2: Id, now1: int, now2: int)
    ensures |Ingest(Ingest(articles, n, id1, now1), n, id2, now2)| == |Ingest(articles, n, id1, now1)|
    ensures IsDuplicate(Ingest(articles, n, id1, now1), n)
  {
    var once := Ingest(articles, n, id1, now1);
    match IndexOfKey(articles, n.feedId, n.guid)
    case Some(i) =>
      assert once[i] in once;
    case None =>
      assert once[|articles|] in once;
  }

  lemma IdsSubsetFeeds(articles: seq<Article>, feeds: seq<Feed>, n: NewArticle, id: Id, now: int)
    requires forall a :: a in articles ==> a.feedId in FeedIds(feeds)
    requires IsDuplicate(articles, n) || n.feedId in FeedIds(feeds)
    ensures forall a :: a in Ingest(articles, n, id, now) ==> a.feedId in FeedIds(feeds)
  {
    var r := Ingest(articles, n, id, now);
    forall a | a in r ensures a.feedId in FeedIds(feeds) {
      var j :| 0 <= j < |r| && r[j] == a;
      if j < |articles| {
        assert articles[j] in articles;
        assert r[j].feedId == articles[j].feedId;
      } else {
        assert !IsDuplicate(articles, n);
      }
    }
  }

  /**
   * `create`: inserts a new article, or, when (feed_id, guid) is already
   * stored, merges the new data into the stored row and returns None.
   * `freshId` is the new UUID. A new article of an unknown feed violates the
   * foreign key.
   */
  method Create(db: Database, n: NewArticle, freshId: Id, now: int) returns (r: Result<Option<Article>, DbError>)
    requires db.Valid()
    requires freshId !in ArticleIds(db.articles)
    modifies db
    ensures db.Valid()
    ensures db.feeds == old(db.feeds) && db.tags == old(db.tags) && db.styles == old(db.styles)
    ensures db.events == old(db.events) && db.preferences == old(db.preferences)
    ensures IsDuplicate(old(db.articles), n) ==>
      r == Ok(None) && db.articles == Ingest(old(db.articles), n, freshId, now)
    ensures !IsDuplicate(old(db.articles), n) && n.feedId in FeedIds(old(db.feeds)) ==>
      r == Ok(Some(NewRow(n, freshId, now))) && db.articles == old(db.articles) + [NewRow(n, freshId, now)]
    ensures !IsDuplicate(old(db.articles), n) && n.feedId !in FeedIds(old(db.feeds)) ==>
      r == Err(FOREIGN_KEY_VIOLATION) && db.articles == old(db.articles)
  {
    if !IsDuplicate(db.articles, n) && n.feedId !in FeedIds(db.feeds) {
      return Err(FOREIGN_KEY_VIOLATION);
    }
    var before := db.articles;
    IngestWellFormed(before, n, freshId, now);
    IdsSubsetFeeds(before, db.feeds, n, freshId, now);
    db.articles := Ingest(before, n, freshId, now);
    if IsDuplicate(before, n) {
      r := Ok(None);
    } else {
      r := Ok(Some(NewRow(n, freshId, now)));
    }
  }

  /** The articles table and the count `create_many` reports, or the error that stopped it. */
  function IngestAll(articles: seq<Article>, feedIds: set<Id>, items: seq<NewArticle>, ids: seq<Id>, now: int): (r: (seq<Article>, Result<nat, DbError>))
    requires |ids| == |items|
    decreases |items|
  {
    if items == [] then (articles, Ok(0))
    else if !IsDuplicate(articles, items[0]) && items[0].feedId !in feedIds then (articles, Err(FOREIGN_KEY_VIOLATION))
    else
      var next := Ingest(articles, items[0], ids[0], now);
      var rest := IngestAll(next, feedIds, items[1..], ids[1..], now);
      (rest.0, if rest.1.Err? then rest.1 else Ok(rest.1.value + (if IsDuplicate(articles, items[0]) then 0 else 1)))
  }

  /** The count `create_many` returns is exactly the number of rows it added. */
  lemma {:induction false} IngestAllCount(articles: seq<Article>, feedIds: set<Id>, items: seq<NewArticle>, ids: seq<Id>, now: int)
    requires |ids| == |items|
    ensures var r := IngestAll(articles, feedIds, items, ids, now);
      r.1.Ok? ==> |r.0| == |articles| + r.1.value
    ensures |IngestAll(articles, feedIds, items, ids, now).0| >= |articles|
    decreases |items|
  {
    if items != [] && (IsDuplicate(articles, items[0]) || items[0].feedId in feedIds) {
      var next := Ingest(articles, items[0], ids[0], now);
      IngestCount(articles, items[0], ids[0], now);
      IngestAllCount(next, feedIds, items[1..], ids[1..], now);
    }
  }

  /** The only error `create_many` reports is a foreign-key violation. */
  lemma {:induction false} IngestAllError(articles: seq<Article>, feedIds: set<Id>, items: seq<NewArticle>, ids: seq<Id>, now: int)
    requires |ids| == |items|
    ensures IngestAll(articles, feedIds, items, ids, now).1.Err? ==> IngestAll(articles, feedIds, items, ids, now).1.error == FOREIGN_KEY_VIOLATION
    decreases |items|
  {
    if items != [] && (IsDuplicate(articles, items[0]) || items[0].feedId in feedIds) {
      IngestAllError(Ingest(articles, items[0], ids[0], now), feedIds, items[1..], ids[1..], now);
    }
  }

  /** `create` only ever adds a row under the fresh id it was given. */
  lemma IngestIds(articles: seq<Article>, n: NewArticle, id: Id, now: int)
    ensures forall a :: a in Ingest(articles, n, id, now) ==> a.id in ArticleIds(articles) || a.id == id
  {
    var r := Ingest(articles, n, id, now);
    forall a | a in r ensures a.id in ArticleIds(articles) || a.id == id {
      var j :| 0 <= j < |r| && r[j] == a;
      if j < |articles| {
        assert articles[j] in articles;
        assert r[j].id == articles[j].id;
      }
    }
  }

  /** `create_many` only ever adds rows under the fresh ids it was given. */
  lemma {:induction false} IngestAllIds(articles: seq<Article>, feedIds: set<Id>, items: seq<NewArticle>, ids: seq<Id>, now: int)
    requires |ids| == |items|
    ensures forall a :: a in IngestAll(articles, feedIds, items, ids, now).0 ==> a.id in ArticleIds(articles) || a.id in ids
    decreases |items|
  {
    if items != [] && (IsDuplicate(articles, items[0]) || items[0].feedId in feedIds) {
      var next := Ingest(articles, items[0], ids[0], now);
      IngestIds(articles, items[0], ids[0], now);
      IngestAllIds(next, feedIds, items[1..], ids[1..], now);
      forall a | a in IngestAll(articles, feedIds, items, ids, now).0 ensures a.id in ArticleIds(articles) || a.id in ids {
        if a.id in ArticleIds(next) {
          var b :| b in next && b.id == a.id;
        } else {
          assert a.id in ids[1..];
        }
      }
    }
  }

  /**
   * `create_many`: creates the articles one after another and counts those
   * that were new; the first error is returned, rows created before it stay.
   * `ids` are the fresh UUIDs, one per item.
   */
  method CreateMany(db: Database, items: seq<NewArticle>, ids: seq<Id>, now: int) returns (r: Result<nat, DbError>)
    requires db.Valid()
    requires |ids| == |items|
    requires forall i, j :: 0 <= i < j < |ids| ==> ids[i] != ids[j]
    requires forall i :: 0 <= i < |ids| ==> ids[i] !in ArticleIds(db.articles)
    modifies db
    ensures db.Valid()
    ensures (db.feeds, db.tags, db.styles) == (old(db.feeds), old(db.tags), old(db.styles))
    ensures (db.events, db.preferences) == (old(db.events), old(db.preferences))
    ensures (db.articles, r) == IngestAll(old(db.articles), FeedIds(old(db.feeds)), items, ids, now)
    ensures r.Ok? ==> r.value == |db.articles| - |old(db.articles)|
  {
    var created := 0;
    var k := 0;
    ghost var feedIds := FeedIds(db.feeds);
    ghost var whole := IngestAll(db.articles, feedIds, items, ids, now);
    CreateManyStart(db.articles, feedIds, items, ids, now);
    while k < |items|
      invariant k <= |items|
      invariant db.Valid()
      invariant (db.feeds, db.tags, db.styles) == (old(db.feeds), old(db.tags), old(db.styles))
      invariant (db.events, db.preferences) == (old(db.events), old(db.preferences))
      invariant CreateManyInvariant(old(db.articles), db.articles, feedIds, items, ids, now, k, created, whole)
      decreases |items| - k
    {
      var res := CreateNext(db, old(db.articles), feedIds, items, ids, now, k, created, whole);
      if res.Err? {
        r := Err(res.error);
        break;
      }
      created := res.value;
      k := k + 1;
    }
    if k == |items| {
      CreateManyDone(old(db.articles), db.articles, feedIds, items, ids, now, created, whole);
      r := Ok(created);
    }
  }

  /** Before the first item, the outcome of all of them is still ahead. */
  lemma CreateManyStart(initial: seq<Article>, feedIds: set<Id>, items: seq<NewArticle>, ids: seq<Id>, now: int)
    requires |ids| == |items|
    requires forall i, j :: 0 <= i < j < |ids| ==> ids[i] != ids[j]
    requires forall i :: 0 <= i < |ids| ==> ids[i] !in ArticleIds(initial)
    ensures CreateManyInvariant(initial, initial, feedIds, items, ids, now, 0, 0, IngestAll(initial, feedIds, items, ids, now))
  {
    assert items[0..] == items && ids[0..] == ids;
    var whole := IngestAll(initial, feedIds, items, ids, now);
    assert Shift(whole.1, 0) == whole.1;
  }

  /** After the last item, the loop's table and count are the outcome of all of them. */
  lemma CreateManyDone(initial: seq<Article>, current: seq<Article>, feedIds: set<Id>, items: seq<NewArticle>, ids: seq<Id>,
                       now: int, created: nat, whole: (seq<Article>, Result<nat, DbError>))
    requires CreateManyInvariant(initial, current, feedIds, items, ids, now, |items|, created, whole)
    ensures whole == (current, Ok(created))
    ensures created == |current| - |initial|
  {
    assert items[|items|..] == [] && ids[|items|..] == [];
  }

  /**
   * One pass of `create_many`'s loop: `create` on the k-th item, which
   * either ends the loop with its error or leaves the loop's invariant
   * holding for the next item with the updated count.
   */
  method CreateNext(db: Database, ghost initial: seq<Article>, ghost feedIds: set<Id>, items: seq<NewArticle>, ids: seq<Id>,
                    now: int, k: nat, created: nat, ghost whole: (seq<Article>, Result<nat, DbError>))
    returns (res: Result<nat, DbError>)
    requires k < |items| && db.Valid() && feedIds == FeedIds(db.feeds)
    requires CreateManyInvariant(initial, db.articles, feedIds, items, ids, now, k, created, whole)
    modifies db
    ensures db.Valid()
    ensures (db.feeds, db.tags, db.styles) == (old(db.feeds), old(db.tags), old(db.styles))
    ensures (db.events, db.preferences) == (old(db.events), old(db.preferences))
    ensures res.Err? ==> whole == (db.articles, Err(res.error))
    ensures res.Ok? ==> CreateManyInvariant(initial, db.articles, feedIds, items, ids, now, k + 1, res.value, whole)
  {
    ghost var before := db.articles;
    var outcome := Create(db, items[k], ids[k], now);
    CreateManyStep(initial, before, feedIds, items, ids, now, k, created, whole);
    if outcome.Err? {
      return Err(outcome.error);
    }
    res := Ok(if outcome.value.Some? then created + 1 else created);
  }

  /** What `create_many` has done after `k` items: `whole` is the outcome of all of them. */
  ghost predicate CreateManyInvariant(initial: seq<Article>, current: seq<Article>, feedIds: set<Id>, items: seq<NewArticle>, ids: seq<Id>,
                                      now: int, k: nat, created: nat, whole: (seq<Article>, Result<nat, DbError>))
  {
    && |ids| == |items| && k <= |items|
    && (forall i, j :: 0 <= i < j < |ids| ==> ids[i] != ids[j])
    && (forall i :: k <= i < |ids| ==> ids[i] !in ArticleIds(current))
    && whole.0 == IngestAll(current, feedIds, items[k..], ids[k..], now).0
    && whole.1 == Shift(IngestAll(current, feedIds, items[k..], ids[k..], now).1, created)
    && created == |current| - |initial|
  }

  lemma CreateManyStep(initial: seq<Article>, before: seq<Article>, feedIds: set<Id>, items: seq<NewArticle>, ids: seq<Id>,
                       now: int, k: nat, created: nat, whole: (seq<Article>, Result<nat, DbError>))
    requires k < |items|
    requires ArticlesWellFormed(before)
    requires CreateManyInvariant(initial, before, feedIds, items, ids, now, k, created, whole)
    ensures !IsDuplicate(before, items[k]) && items[k].feedId !in feedIds ==>
      whole == (before, Err(FOREIGN_KEY_VIOLATION))
    ensures IsDuplicate(before, items[k]) || items[k].feedId in feedIds ==>
      CreateManyInvariant(initial, Ingest(before, items[k], ids[k], now), feedIds, items, ids, now, k + 1,
                          created + (if IsDuplicate(before, items[k]) then 0 else 1), whole)
  {
    assert items[k..][1..] == items[k + 1..] && ids[k..][1..] == ids[k + 1..];
    assert items[k..][0] == items[k] && ids[k..][0] == ids[k];
    IngestAllUnfold(before, feedIds, items[k..], ids[k..], now);
    if IsDuplicate(before, items[k]) || items[k].feedId in feedIds {
      var after := Ingest(before, items[k], ids[k], now);
      var added := if IsDuplicate(before, items[k]) then 0 else 1;
      IngestWellFormed(before, items[k], ids[k], now);
      IngestCount(before, items[k], ids[k], now);
      ShiftTwice(IngestAll(after, feedIds, items[k + 1..], ids[k + 1..], now).1, added, created);
    }
  }

  /** A count reported after `created` earlier rows. */
  function Shift(r: Result<nat, DbError>, created: nat): Result<nat, DbError>
  {
    if r.Err? then r else Ok(r.value + created)
  }

  lemma ShiftTwice(r: Result<nat, DbError>, a: nat, b: nat)
    ensures Shift(Shift(r, a), b) == Shift(r, a + b)
  {
  }

  lemma IngestAllUnfold(articles: seq<Article>, feedIds: set<Id>, items: seq<NewArticle>, ids: seq<Id>, now: int)
    requires |ids| == |items| && items != []
    ensures var r := IngestAll(articles, feedIds, items, ids, now);
      if !IsDuplicate(articles, items[0]) && items[0].feedId !in feedIds then r == (articles, Err(FOREIGN_KEY_VIOLATION))
      else
        var rest := IngestAll(Ingest(articles, items[0], ids[0], now), feedIds, items[1..], ids[1..], now);
        r == (rest.0, Shift(rest.1, if IsDuplicate(articles, items[0]) then 0 else 1))
  {
  }

  // ---------------------------------------------------------------- row updates

  /** `UPDATE articles SET ... WHERE id = ?`: `f` applied to the matching row, every other row unchanged. */
  function UpdateById(articles: seq<Article>, id: Id, f: Article -> Article): (r: seq<Article>)
    ensures |r| == |articles|
    ensures forall i :: 0 <= i < |articles| && articles[i].id != id ==> r[i] == articles[i]
    ensures forall i :: 0 <= i < |articles| && articles[i].id == id ==> r[i] == f(articles[i])
  {
    seq(|articles|, i requires 0 <= i < |articles| => if articles[i].id == id then f(articles[i]) else articles[i])
  }

  /** An update that keeps the key columns keeps every table invariant. */
  lemma UpdateKeepsKeys(articles: seq<Article>, id: Id, f: Article -> Article)
    requires forall a :: f(a).id == a.id && f(a).feedId == a.feedId && f(a).guid == a.guid
    ensures ArticlesWellFormed(articles) ==> ArticlesWellFormed(UpdateById(articles, id, f))
    ensures ArticleIds(UpdateById(articles, id, f)) == ArticleIds(articles)
    ensures forall a :: a in UpdateById(articles, id, f) ==> exists b :: b in articles && b.feedId == a.feedId
  {
    var r := UpdateById(articles, id, f);
    forall x | x in ArticleIds(r) ensures x in ArticleIds(articles) {
      var a :| a in r && a.id == x;
      var j :| 0 <= j < |r| && r[j] == a;
      assert articles[j] in articles;
    }
    forall x | x in ArticleIds(articles) ensures x in ArticleIds(r) {
      var a :| a in articles && a.id == x;
      var j :| 0 <= j < |articles| && articles[j] == a;
      assert r[j] in r;
    }
    forall a | a in r ensures exists b :: b in articles && b.feedId == a.feedId {
      var j :| 0 <= j < |r| && r[j] == a;
      assert articles[j] in articles;
    }
  }

  function MarkReadRow(now: int): Article -> Article
  {
    (a: Article) => a.(isRead := true, readAt := Some(now))
  }

  function MarkUnreadRow(): Article -> Article
  {
    (a: Article) => a.(isRead := false, readAt := None)
  }

  function ToggleSavedRow(): Article -> Article
  {
    (a: Article) => a.(isSaved := !a.isSaved)
  }

  /** Shared frame of the single-statement updates below. */
  method ApplyUpdate(db: Database, id: Id, f: Article -> Article)
    requires db.Valid()
    requires forall a :: f(a).id == a.id && f(a).feedId == a.feedId && f(a).guid == a.guid
    modifies db
    ensures db.Valid()
    ensures db.articles == UpdateById(old(db.articles), id, f)
    ensures db.feeds == old(db.feeds) && db.tags == old(db.tags) && db.styles == old(db.styles)
    ensures db.events == old(db.events) && db.preferences == old(db.preferences)
  {
    UpdateKeepsKeys(db.articles, id, f);
    db.articles := UpdateById(db.articles, id, f);
  }

  /** `mark_read`: sets is_read and read_at on the article, if it exists. */
  method MarkRead(db: Database, id: Id, now: int)
    requires db.Valid()
    modifies db
    ensures db.Valid()
    ensures db.articles == UpdateById(old(db.articles), id, MarkReadRow(now))
    ensures db.feeds == old(db.feeds) && db.tags == old(db.tags) && db.styles == old(db.styles)
    ensures db.events == old(db.events) && db.preferences == old(db.preferences)
  {
    ApplyUpdate(db, id, MarkReadRow(now));
  }

  /** `mark_unread`: clears is_read and read_at. */
  method MarkUnread(db: Database, id: Id)
    requires db.Valid()
    modifies db
    ensures db.Valid()
    ensures db.articles == UpdateById(old(db.articles), id, MarkUnreadRow())
    ensures db.feeds == old(db.feeds) && db.tags == old(db.tags) && db.styles == old(db.styles)
    ensures db.events == old(db.events) && db.preferences == old(db.preferences)
  {
    ApplyUpdate(db, id, MarkUnreadRow());
  }

  /** Marking an unread article read and then unread restores the table exactly. */
  lemma MarkUnreadUndoesMarkRead(articles: seq<Article>, id: Id, now: int)
    requires forall a :: a in articles && a.id == id ==> !a.isRead && a.readAt.None?
    ensures UpdateById(UpdateById(articles, id, MarkReadRow(now)), id, MarkUnreadRow()) == articles
  {
    var r := UpdateById(UpdateById(articles, id, MarkReadRow(now)), id, MarkUnreadRow());
    forall i | 0 <= i < |articles| ensures r[i] == articles[i] {
      assert articles[i] in articles;
    }
  }

  /**
   * `toggle_saved`: flips is_saved and returns the new value. The value is
   * read back with a query that requires the row, so a missing id is an error.
   */
  method ToggleSaved(db: Database, id: Id) returns (r: Result<bool, DbError>)
    requires db.Valid()
    modifies db
    ensures db.Valid()
    ensures db.articles == UpdateById(old(db.articles), id, ToggleSavedRow())
    ensures db.feeds == old(db.feeds) && db.tags == old(db.tags) && db.styles == old(db.styles)
    ensures db.events == old(db.events) && db.preferences == old(db.preferences)
    ensures id !in ArticleIds(old(db.articles)) ==> r == Err(ROW_NOT_FOUND)
    ensures id in ArticleIds(old(db.articles)) ==>
      r == Ok(!FindRow(old(db.articles), id).value.isSaved) && r == Ok(FindRow(db.articles, id).value.isSaved)
  {
    ApplyUpdate(db, id, ToggleSavedRow());
    var found := FindRow(db.articles, id);
    if found.None? {
      return Err(ROW_NOT_FOUND);
    }
    var i := IndexOfId(old(db.articles), id).value;
    var j := IndexOfId(db.articles, id).value;
    assert old(db.articles)[j].id == id;
    r := Ok(found.value.isSaved);
  }

  /** Toggling twice restores the table. */
  lemma ToggleSavedTwice(articles: seq<Article>, id: Id)
    ensures UpdateById(UpdateById(articles, id, ToggleSavedRow()), id, ToggleSavedRow()) == articles
  {
    var r := UpdateById(UpdateById(articles, id, ToggleSavedRow()), id, ToggleSavedRow());
    forall i | 0 <= i < |articles| ensures r[i] == articles[i] {
    }
  }

  function SummaryRow(summary: string, now: int): Article -> Article
  {
    (a: Article) => a.(summary := Some(summary), summaryGeneratedAt := Some(now))
  }

  /** `update_summary`: stores the summary and when it was generated. */
  method UpdateSummary(db: Database, id: Id, summary: string, now: int)
    requires db.Valid()
    modifies db
    ensures db.Valid()
    ensures db.articles == UpdateById(old(db.articles), id, SummaryRow(summary, now))
    ensures db.feeds == old(db.feeds) && db.tags == old(db.tags) && db.styles == old(db.styles)
    ensures db.events == old(db.events) && db.preferences == old(db.preferences)
  {
    ApplyUpdate(db, id, SummaryRow(summary, now));
  }

  /** `update_relevance_score`. */
  method UpdateRelevanceScore(db: Database, id: Id, score: real)
    requires db.Valid()
    modifies db
    ensures db.Valid()
    ensures db.articles == UpdateById(old(db.articles), id, (a: Article) => a.(relevanceScore := Some(score)))
    ensures db.feeds == old(db.feeds) && db.tags == old(db.tags) && db.styles == old(db.styles)
    ensures db.events == old(db.events) && db.preferences == old(db.preferences)
  {
    ApplyUpdate(db, id, (a: Article) => a.(relevanceScore := Some(score)));
  }

  // ---------------------------------------------------------------- queries

  function UnreadRowIds(articles: seq<Article>, ids: seq<Id>): (r: seq<Id>)
    ensures forall x :: x in r <==> x in ids && exists a :: a in articles && a.id == x && !a.isRead
  {
    if articles == [] then []
    else
      var rest := UnreadRowIds(articles[1..], ids);
      assert forall a :: a in articles[1..] ==> a in articles;
      assert forall a :: a in articles ==> a == articles[0] || a in articles[1..];
      if articles[0].id in ids && !articles[0].isRead then [articles[0].id] + rest else rest
  }

  /** `filter_unread_ids`: the given ids whose article exists and is unread; empty input answers empty without a query. */
  function FilterUnreadIds(articles: seq<Article>, ids: seq<Id>): (r: seq<Id>)
    ensures ids == [] ==> r == []
    ensures forall x :: x in r <==> x in ids && exists a :: a in articles && a.id == x && !a.isRead
  {
    if ids == [] then [] else UnreadRowIds(articles, ids)
  }

  /** After `mark_read(id)`, `id` is no longer reported unread; after `mark_unread(id)` it is, if it exists. */
  lemma FilterAfterMarks(articles: seq<Article>, id: Id, now: int)
    requires ArticlesWellFormed(articles)
    ensures id !in FilterUnreadIds(UpdateById(articles, id, MarkReadRow(now)), [id])
    ensures id in ArticleIds(articles) ==> id in FilterUnreadIds(UpdateById(articles, id, MarkUnreadRow()), [id])
  {
    var read := UpdateById(articles, id, MarkReadRow(now));
    forall a | a in read && a.id == id ensures a.isRead {
      var j :| 0 <= j < |read| && read[j] == a;
    }
    if id in ArticleIds(articles) {
      var unread := UpdateById(articles, id, MarkUnreadRow());
      var a :| a in articles && a.id == id;
      var j :| 0 <= j < |articles| && articles[j] == a;
      assert unread[j] in unread;
    }
  }

  /** The filter of `list_unsummarized`. SQLite's `LENGTH` of text counts characters. */
  predicate NeedsSummary(a: Article, minLength: nat)
  {
    a.summary.None? && a.contentText.Some? && |a.contentText.value| >= minLength && !a.isRead
  }

  predicate NewestCreatedFirst(a: Article, b: Article)
  {
    a.createdAt >= b.createdAt
  }

  /** `list_unsummarized(limit, min_length)`: ORDER BY created_at DESC LIMIT limit. */
  function ListUnsummarized(articles: seq<Article>, limit: nat, minLength: nat): seq<Article>
  {
    TopN(Where(articles, (a: Article) => NeedsSummary(a, minLength)), NewestCreatedFirst, limit)
  }

  /**
   * Only unread rows without summary and with enough plain text are listed,
   * at most `limit`, newest first, and no omitted candidate is newer than a
   * listed one.
   */
  lemma ListUnsummarizedSpec(articles: seq<Article>, limit: nat, minLength: nat)
    ensures var r := ListUnsummarized(articles, limit, minLength);
      && |r| <= limit
      && (forall a :: a in r ==> a in articles && NeedsSummary(a, minLength))
      && SortedBy(r, NewestCreatedFirst)
      && (forall a, b :: a in r && b in articles && NeedsSummary(b, minLength) && b !in r ==> a.createdAt >= b.createdAt)
  {
    TopNSpec(Where(articles, (a: Article) => NeedsSummary(a, minLength)), NewestCreatedFirst, limit);
  }

  predicate PublishedFirst(a: Article, b: Article)
  {
    match (a.publishedAt, b.publishedAt)
    case (Some(x), Some(y)) => x > y || (x == y && a.createdAt >= b.createdAt)
    case (Some(_), None) => true
    case (None, Some(_)) => false
    case (None, None) => a.createdAt >= b.createdAt
  }

  /** `ORDER BY published_at DESC, created_at DESC`, with NULL published dates last, is a total preorder. */
  lemma PublishedFirstOrder()
    ensures TotalPreorder(PublishedFirst)
  {
  }

  /** `list_by_feed`: the feed's articles (only unread ones when asked), newest published first. */
  function ListByFeed(articles: seq<Article>, feedId: Id, unreadOnly: bool): (r: seq<Article>)
    ensures |r| <= |articles|
    ensures !unreadOnly && (forall a :: a in articles ==> a.feedId == feedId) ==> |r| == |articles|
  {
    var keep := (a: Article) => a.feedId == feedId && (!unreadOnly || !a.isRead);
    assert !unreadOnly && (forall a :: a in articles ==> a.feedId == feedId) ==> Where(articles, keep) == articles by {
      if !unreadOnly && (forall a :: a in articles ==> a.feedId == feedId) {
        WhereAll(articles, keep);
      }
    }
    SortBy(Where(articles, keep), PublishedFirst)
  }

  /** `list_unread(limit)`. */
  function ListUnread(articles: seq<Article>, limit: nat): (r: seq<Article>)
    ensures |r| <= limit && |r| <= |articles|
    ensures (forall a :: a in articles ==> !a.isRead) ==> |r| == if limit < |articles| then limit else |articles|
  {
    var unread := (a: Article) => !a.isRead;
    assert (forall a :: a in articles ==> !a.isRead) ==> Where(articles, unread) == articles by {
      if forall a :: a in articles ==> !a.isRead {
        WhereAll(articles, unread);
      }
    }
    TopN(Where(articles, unread), PublishedFirst, limit)
  }

  predicate NewestPublishedFirst(a: Article, b: Article)
  {
    match (a.publishedAt, b.publishedAt)
    case (Some(x), Some(y)) => x >= y
    case (Some(_), None) => true
    case (None, Some(_)) => false
    case (None, None) => true
  }

  /**
   * SQLite's `LIKE` without an ESCAPE clause: '%' matches any run of
   * characters, '_' any one character, and every other character matches
   * itself regardless of ASCII case.
   */
  predicate Like(pattern: string, text: string)
    decreases |pattern| + |text|
  {
    if pattern == [] then text == []
    else if pattern[0] == '%' then Like(pattern[1..], text) || (text != [] && Like(pattern, text[1..]))
    else text != [] && (pattern[0] == '_' || Text.LowerChar(pattern[0]) == Text.LowerChar(text[0]))
         && Like(pattern[1..], text[1..])
  }

  /** The pattern `search` binds: the query between two '%'. */
  function SearchPattern(query: string): string
  {
    "%" + query + "%"
  }

  /** `title LIKE ? OR content_text LIKE ?` with the search pattern; a NULL content_text never matches. */
  function MatchesQuery(a: Article, query: string): (b: bool)
    ensures NoWildcards(query) ==>
      (b <==> Text.Contains(Text.Lower(a.title), Text.Lower(query))
              || (a.contentText.Some? && Text.Contains(Text.Lower(a.contentText.value), Text.Lower(query))))
  {
    assert NoWildcards(query) ==> (Like(SearchPattern(query), a.title) <==> Text.Contains(Text.Lower(a.title), Text.Lower(query))) by {
      if NoWildcards(query) { LikeContains(query, a.title); }
    }
    assert NoWildcards(query) && a.contentText.Some? ==>
      (Like(SearchPattern(query), a.contentText.value) <==> Text.Contains(Text.Lower(a.contentText.value), Text.Lower(query))) by {
      if NoWildcards(query) && a.contentText.Some? { LikeContains(query, a.contentText.value); }
    }
    Like(SearchPattern(query), a.title)
    || (a.contentText.Some? && Like(SearchPattern(query), a.contentText.value))
  }

  predicate NoWildcards(q: string)
  {
    forall k :: 0 <= k < |q| ==> q[k] != '%' && q[k] != '_'
  }

  lemma LowerCons(s: string)
    requires s != []
    ensures Text.Lower(s) == [Text.LowerChar(s[0])] + Text.Lower(s[1..])
  {
  }

  /** A '%' matches everything. */
  lemma {:induction false} LikeAnything(text: string)
    ensures Like("%", text)
  {
    if text != [] {
      LikeAnything(text[1..]);
    }
  }

  /** A pattern without wildcards matches a prefix of the text, ignoring case, and the rest of the pattern the rest. */
  lemma {:induction false} LikeLiteral(q: string, rest: string, text: string)
    requires NoWildcards(q)
    ensures Like(q + rest, text) <==>
      |q| <= |text| && Text.Lower(text[..|q|]) == Text.Lower(q) && Like(rest, text[|q|..])
  {
    if q == [] {
      assert q + rest == rest;
      assert text[..0] == [] && text[0..] == text;
    } else {
      assert (q + rest)[0] == q[0] && (q + rest)[1..] == q[1..] + rest;
      if text != [] {
        LikeLiteral(q[1..], rest, text[1..]);
        LowerCons(q);
        if |q| <= |text| {
          LowerCons(text[..|q|]);
          assert text[..|q|][1..] == text[1..][..|q| - 1];
          assert text[1..][|q| - 1..] == text[|q|..];
        }
      }
    }
  }

  /** A leading '%' lets the rest of the pattern match from any position. */
  lemma {:induction false} LikePercent(rest: string, text: string)
    ensures Like(['%'] + rest, text) <==> exists i :: 0 <= i <= |text| && Like(rest, text[i..])
  {
    var p := ['%'] + rest;
    assert p[1..] == rest;
    assert text[0..] == text;
    if text != [] {
      LikePercent(rest, text[1..]);
      forall i | 0 <= i <= |text| - 1 ensures text[1..][i..] == text[i + 1..] {
      }
      if exists i :: 0 <= i <= |text| && Like(rest, text[i..]) {
        var i :| 0 <= i <= |text| && Like(rest, text[i..]);
        if i > 0 {
          assert Like(rest, text[1..][i - 1..]);
        }
      }
    }
  }

  /**
   * For a query without '%' or '_', `LIKE '%q%'` is case-insensitive
   * containment of the query.
   */
  lemma LikeContains(q: string, text: string)
    requires NoWildcards(q)
    ensures Like(SearchPattern(q), text) <==> Text.Contains(Text.Lower(text), Text.Lower(q))
  {
    var tail := q + "%";
    assert SearchPattern(q) == ['%'] + tail;
    LikePercent(tail, text);
    forall i | 0 <= i <= |text|
      ensures Like(tail, text[i..]) <==> Text.OccursAt(Text.Lower(text), Text.Lower(q), i)
    {
      LikeLiteral(q, "%", text[i..]);
      if i + |q| <= |text| {
        LikeAnything(text[i..][|q|..]);
        assert text[i..][..|q|] == text[i..i + |q|];
        assert Text.Lower(text)[i..i + |q|] == Text.Lower(text[i..i + |q|]);
      }
    }
  }

  /** '_' is a wildcard: the query "a_c" matches "abc", "aXc" and every other three-letter "a?c". */
  lemma UnderscoreMatchesAnyCharacter(x: char)
    ensures Like(SearchPattern("a_c"), ['a', x, 'c'])
  {
    var p := SearchPattern("a_c");
    var t := ['a', x, 'c'];
    LikeAnything([]);
    assert Like("c%", ['c']) by {
      assert "c%"[1..] == "%" && ['c'][1..] == [];
    }
    assert Like("_c%", [x, 'c']) by {
      assert "_c%"[1..] == "c%" && [x, 'c'][1..] == ['c'];
    }
    assert Like("a_c%", t) by {
      assert "a_c%"[1..] == "_c%" && t[1..] == [x, 'c'];
    }
    assert p[1..] == "a_c%";
  }

  /** `search`: at most 100 matches, newest published first, optionally within one feed. */
  function Search(articles: seq<Article>, query: string, feedId: Option<Id>): (r: seq<Article>)
    ensures |r| <= 100
    ensures forall a :: a in r ==> a in articles && MatchesQuery(a, query) && (feedId.None? || a.feedId == feedId.value)
  {
    NewestPublishedFirstOrder();
    TopNSpec(Where(articles, (a: Article) => (feedId.None? || a.feedId == feedId.value) && MatchesQuery(a, query)), NewestPublishedFirst, 100);
    TopN(Where(articles, (a: Article) => (feedId.None? || a.feedId == feedId.value) && MatchesQuery(a, query)), NewestPublishedFirst, 100)
  }

  lemma NewestPublishedFirstOrder()
    ensures TotalPreorder(NewestPublishedFirst)
  {
  }

  /** `list_by_feed` lists exactly the feed's articles (the unread ones when asked), newest published first. */
  lemma ListByFeedSpec(articles: seq<Article>, feedId: Id, unreadOnly: bool)
    ensures SortedBy(ListByFeed(articles, feedId, unreadOnly), PublishedFirst)
    ensures forall a :: a in ListByFeed(articles, feedId, unreadOnly) <==>
      a in articles && a.feedId == feedId && (!unreadOnly || !a.isRead)
  {
    var selected := Where(articles, (a: Article) => a.feedId == feedId && (!unreadOnly || !a.isRead));
    PublishedFirstOrder();
    SortBySorted(selected, PublishedFirst);
    forall a ensures a in ListByFeed(articles, feedId, unreadOnly) <==> a in selected {
      assert a in ListByFeed(articles, feedId, unreadOnly) <==> a in multiset(SortBy(selected, PublishedFirst));
    }
  }

  /** `list_unread(limit)`: at most `limit` unread articles, and none left out is newer than one listed. */
  lemma ListUnreadSpec(articles: seq<Article>, limit: nat)
    ensures var r := ListUnread(articles, limit);
      |r| <= limit
      && (forall a :: a in r ==> a in articles && !a.isRead)
      && SortedBy(r, PublishedFirst)
      && (forall a, b :: a in r && b in articles && !b.isRead && b !in r ==> PublishedFirst(a, b))
  {
    PublishedFirstOrder();
    TopNSpec(Where(articles, (a: Article) => !a.isRead), PublishedFirst, limit);
  }

  /**
   * `search`: only matching articles of the feed asked for, at most 100,
   * newest published first; none left out is newer than one listed, and
   * with at most 100 matches every match is listed.
   */
  lemma SearchSpec(articles: seq<Article>, query: string, feedId: Option<Id>)
    ensures var r := Search(articles, query, feedId);
      (forall a :: a in r ==> a in articles && MatchesQuery(a, query) && (feedId.None? || a.feedId == feedId.value))
      && SortedBy(r, NewestPublishedFirst)
      && (forall a, b ::
            (a in r && b in articles && MatchesQuery(b, query) && (feedId.None? || b.feedId == feedId.value) && b !in r)
            ==> NewestPublishedFirst(a, b))
      && (|Where(articles, (a: Article) => (feedId.None? || a.feedId == feedId.value) && MatchesQuery(a, query))| <= 100 ==>
            forall b :: b in articles && MatchesQuery(b, query) && (feedId.None? || b.feedId == feedId.value) ==> b in r)
  {
    var matching := Where(articles, (a: Article) => (feedId.None? || a.feedId == feedId.value) && MatchesQuery(a, query));
    NewestPublishedFirstOrder();
    TopNSpec(matching, NewestPublishedFirst, 100);
    if |matching| <= 100 {
      var r := Search(articles, query, feedId);
      assert r == SortBy(matching, NewestPublishedFirst);
      forall b | b in matching ensures b in r {
        assert b in multiset(r);
      }
    }
  }

  // ---------------------------------------------------------------- tags

  function TagPairs(tags: seq<TagRow>): set<(Id, string)>
  {
    set t | t in tags :: (t.articleId, t.tag)
  }

  /** `INSERT OR IGNORE` of one tag row: ignored when the (article_id, tag) key exists. */
  function InsertTag(tags: seq<TagRow>, articleId: Id, tag: string, source: string, now: int): seq<TagRow>
  {
    if (articleId, tag) in TagPairs(tags) then tags else tags + [TagRow(articleId, tag, source, now)]
  }

  lemma InsertTagSpec(tags: seq<TagRow>, articleId: Id, tag: string, source: string, now: int)
    requires TagsWellFormed(tags)
    ensures TagsWellFormed(InsertTag(tags, articleId, tag, source, now))
    ensures TagPairs(InsertTag(tags, articleId, tag, source, now)) == TagPairs(tags) + {(articleId, tag)}
    ensures tags <= InsertTag(tags, articleId, tag, source, now)
  {
    var r := InsertTag(tags, articleId, tag, source, now);
    if (articleId, tag) !in TagPairs(tags) {
      forall i | 0 <= i < |tags| ensures tags[i].articleId != articleId || tags[i].tag != tag {
        assert tags[i] in tags;
      }
      assert r[|tags|] in r;
      forall p | p in TagPairs(r) ensures p in TagPairs(tags) + {(articleId, tag)} {
        var t :| t in r && p == (t.articleId, t.tag);
        var j :| 0 <= j < |r| && r[j] == t;
        if j < |tags| { assert tags[j] in tags; }
      }
    }
  }

  /**
   * `add_tags`: inserts each tag with INSERT OR IGNORE. A tag of an article
   * that does not exist violates the foreign key; tags inserted before that
   * stay (the first insert fails, so none do).
   */
  method AddTags(db: Database, articleId: Id, tagList: seq<string>, source: string, now: int) returns (r: Result<(), DbError>)
    requires db.Valid()
    modifies db
    ensures db.Valid()
    ensures (db.feeds, db.articles, db.styles) == (old(db.feeds), old(db.articles), old(db.styles))
    ensures (db.events, db.preferences) == (old(db.events), old(db.preferences))
    ensures old(db.tags) <= db.tags
    ensures RowsAdded(old(db.tags), db.tags, articleId, tagList, source, now)
    ensures articleId in ArticleIds(db.articles) ==>
      r == Ok(()) && TagPairs(db.tags) == TagPairs(old(db.tags)) + (set t | t in tagList :: (articleId, t))
    ensures articleId !in ArticleIds(db.articles) ==>
      db.tags == old(db.tags) && (r.Ok? <==> tagList == [])
  {
    var k := 0;
    r := Ok(());
    while k < |tagList|
      invariant k <= |tagList|
      invariant db.Valid()
      invariant (db.feeds, db.articles, db.styles) == (old(db.feeds), old(db.articles), old(db.styles))
      invariant (db.events, db.preferences) == (old(db.events), old(db.preferences))
      invariant old(db.tags) <= db.tags
      invariant TagPairs(db.tags) == TagPairs(old(db.tags)) + TaggedWith(articleId, tagList[..k])
      invariant RowsAdded(old(db.tags), db.tags, articleId, tagList, source, now)
      invariant articleId !in ArticleIds(db.articles) ==> k == 0 && db.tags == old(db.tags)
      decreases |tagList| - k
    {
      if articleId !in ArticleIds(db.articles) {
        r := Err(FOREIGN_KEY_VIOLATION);
        break;
      }
      ghost var before := db.tags;
      InsertTagRow(db, articleId, tagList[k], source, now);
      RowsAddedStep(old(db.tags), before, db.tags, articleId, tagList, k, source, now);
      TaggedWithStep(articleId, tagList, k);
      k := k + 1;
    }
    if r.Ok? {
      assert tagList[..k] == tagList;
    }
  }

  /** Every row past the old ones belongs to the article, holds one of the given tags, and carries the source and time. */
  predicate RowsAdded(before: seq<TagRow>, after: seq<TagRow>, articleId: Id, tagList: seq<string>, source: string, now: int)
  {
    forall i :: |before| <= i < |after| ==> after[i] == TagRow(articleId, after[i].tag, source, now) && after[i].tag in tagList
  }

  /** The rows one insert adds extend the rows added by the inserts before it. */
  lemma RowsAddedStep(initial: seq<TagRow>, before: seq<TagRow>, after: seq<TagRow>, articleId: Id, tagList: seq<string>,
                      k: nat, source: string, now: int)
    requires k < |tagList|
    requires initial <= before <= after
    requires RowsAdded(initial, before, articleId, tagList, source, now)
    requires RowsAdded(before, after, articleId, [tagList[k]], source, now)
    ensures RowsAdded(initial, after, articleId, tagList, source, now)
  {
    forall i | |initial| <= i < |after|
      ensures after[i] == TagRow(articleId, after[i].tag, source, now) && after[i].tag in tagList
    {
      if i < |before| {
        assert after[i] == before[i];
      }
    }
  }

  /** The (article, tag) keys of the given tags. */
  function TaggedWith(articleId: Id, tagList: seq<string>): set<(Id, string)>
  {
    set t | t in tagList :: (articleId, t)
  }

  /** One more tag of the list adds its key. */
  lemma TaggedWithStep(articleId: Id, tagList: seq<string>, k: nat)
    requires k < |tagList|
    ensures TaggedWith(articleId, tagList[..k + 1]) == TaggedWith(articleId, tagList[..k]) + {(articleId, tagList[k])}
  {
    assert tagList[..k + 1] == tagList[..k] + [tagList[k]];
  }

  /** One `INSERT OR IGNORE` of `add_tags` for an existing article: the key is added, no row is lost. */
  method InsertTagRow(db: Database, articleId: Id, tag: string, source: string, now: int)
    requires db.Valid() && articleId in ArticleIds(db.articles)
    modifies db
    ensures db.Valid()
    ensures (db.feeds, db.articles, db.styles) == (old(db.feeds), old(db.articles), old(db.styles))
    ensures (db.events, db.preferences) == (old(db.events), old(db.preferences))
    ensures old(db.tags) <= db.tags
    ensures TagPairs(db.tags) == TagPairs(old(db.tags)) + {(articleId, tag)}
    ensures RowsAdded(old(db.tags), db.tags, articleId, [tag], source, now)
  {
    InsertTagSpec(db.tags, articleId, tag, source, now);
    var next := InsertTag(db.tags, articleId, tag, source, now);
    assert forall t :: t in next ==> t in db.tags || t == TagRow(articleId, tag, source, now);
    db.tags := next;
  }

  /** `get_tags`: the tags of one article, in table order. */
  function GetTags(tags: seq<TagRow>, articleId: Id): (r: seq<string>)
    ensures forall t :: t in r <==> (articleId, t) in TagPairs(tags)
  {
    if tags == [] then []
    else
      var rest := GetTags(tags[1..], articleId);
      assert forall x :: x in tags ==> x == tags[0] || x in tags[1..];
      if tags[0].articleId == articleId then [tags[0].tag] + rest else rest
  }

  /** `find_by_id`: the row, with the article's tags attached. */
  function FindById(articles: seq<Article>, tags: seq<TagRow>, id: Id): (r: Option<Article>)
    ensures r.Some? <==> id in ArticleIds(articles)
    ensures r.Some? ==> r.value.id == id && r.value == FindRow(articles, id).value.(tags := r.value.tags)
    ensures r.Some? ==> forall t :: t in r.value.tags <==> (id, t) in TagPairs(tags)
  {
    match FindRow(articles, id)
    case Some(a) => Some(a.(tags := GetTags(tags, id)))
    case None => None
  }

  /** Tags of an article never repeat. */
  lemma {:induction false} GetTagsDistinct(tags: seq<TagRow>, articleId: Id)
    requires TagsWellFormed(tags)
    ensures forall i, j :: 0 <= i < j < |GetTags(tags, articleId)| ==> GetTags(tags, articleId)[i] != GetTags(tags, articleId)[j]
  {
    if tags != [] {
      GetTagsDistinct(tags[1..], articleId);
      var rest := GetTags(tags[1..], articleId);
      forall t | t in tags[1..] ensures (t.articleId, t.tag) != (tags[0].articleId, tags[0].tag) {
        var j :| 0 <= j < |tags[1..]| && tags[1..][j] == t;
        assert tags[j + 1] == t;
      }
    }
  }

  // ---------------------------------------------------------------- retention

  /** Rows `cleanup_old_articles` deletes: unsaved and fetched before the cutoff. */
  predicate Expired(a: Article, cutoff: int)
  {
    a.fetchedAt < cutoff && !a.isSaved
  }

  function Cutoff(now: int, retentionDays: nat): int
  {
    now - retentionDays * 86400
  }

  /** Event rows keep their article reference only while that article exists (ON DELETE SET NULL). */
  function DetachEvents(events: seq<Event>, kept: set<Id>): seq<Event>
  {
    seq(|events|, i requires 0 <= i < |events| =>
      if events[i].articleId.Some? && events[i].articleId.value !in kept then events[i].(articleId := None) else events[i])
  }

  lemma WhereKeepsWellFormed(articles: seq<Article>, p: Article -> bool)
    requires ArticlesWellFormed(articles)
    ensures ArticlesWellFormed(Where(articles, p))
    decreases |articles|
  {
    if articles != [] {
      WhereKeepsWellFormed(articles[1..], p);
      var rest := Where(articles[1..], p);
      forall j | 0 <= j < |rest| ensures articles[0].id != rest[j].id && (articles[0].feedId != rest[j].feedId || articles[0].guid != rest[j].guid) {
        assert rest[j] in articles[1..];
        var m :| 0 <= m < |articles[1..]| && articles[1..][m] == rest[j];
        assert articles[m + 1] == rest[j];
      }
    }
  }

  lemma TagsWhereWellFormed(tags: seq<TagRow>, p: TagRow -> bool)
    requires TagsWellFormed(tags)
    ensures TagsWellFormed(Where(tags, p))
    decreases |tags|
  {
    if tags != [] {
      TagsWhereWellFormed(tags[1..], p);
      var rest := Where(tags[1..], p);
      forall j | 0 <= j < |rest| ensures tags[0].articleId != rest[j].articleId || tags[0].tag != rest[j].tag {
        assert rest[j] in tags[1..];
        var m :| 0 <= m < |tags[1..]| && tags[1..][m] == rest[j];
        assert tags[m + 1] == rest[j];
      }
    }
  }

  /**
   * `cleanup_old_articles(retention_days)`: deletes the unsaved articles
   * fetched before now minus the retention period and returns how many were
   * deleted; their tags and style rows go with them.
   */
  function Kept(cutoff: int): Article -> bool
  {
    (a: Article) => !Expired(a, cutoff)
  }

  function Gone(cutoff: int): Article -> bool
  {
    (a: Article) => Expired(a, cutoff)
  }

  function TagsOf(ids: set<Id>): TagRow -> bool
  {
    (t: TagRow) => t.articleId in ids
  }

  /** The style rows that survive a delete: those whose article is still there (ON DELETE CASCADE). */
  function KeepStyles(styles: map<Id, Style>, ids: set<Id>): (r: map<Id, Style>)
    ensures r.Keys == styles.Keys * ids
    ensures forall x :: x in r ==> r[x] == styles[x]
  {
    map x | x in styles && x in ids :: styles[x]
  }

  /** Every row is either kept or deleted by the cleanup. */
  lemma CleanupPartition(articles: seq<Article>, cutoff: int)
    ensures |Where(articles, Kept(cutoff))| + |Where(articles, Gone(cutoff))| == |articles|
  {
    WhereSplit(articles, Kept(cutoff));
    WhereCongruent(articles, (x: Article) => !Kept(cutoff)(x), Gone(cutoff));
  }

  /** The tables after deleting the expired rows and cascading to tags and styles still satisfy the invariants. */
  lemma CleanupKeepsValid(feeds: seq<Feed>, articles: seq<Article>, tags: seq<TagRow>, styles: map<Id, Style>, cutoff: int)
    requires FeedsWellFormed(feeds) && ArticlesWellFormed(articles) && TagsWellFormed(tags)
    requires References(feeds, articles, tags, styles)
    ensures var kept := Where(articles, Kept(cutoff));
      var ids := ArticleIds(kept);
      && ArticlesWellFormed(kept)
      && TagsWellFormed(Where(tags, TagsOf(ids)))
      && References(feeds, kept, Where(tags, TagsOf(ids)), KeepStyles(styles, ids))
  {
    var kept := Where(articles, Kept(cutoff));
    WhereKeepsWellFormed(articles, Kept(cutoff));
    TagsWhereWellFormed(tags, TagsOf(ArticleIds(kept)));
  }

  /**
   * `cleanup_old_articles(retention_days)`: deletes the unsaved articles
   * fetched before now minus the retention period and returns how many were
   * deleted; their tags and style rows go with them.
   */
  method CleanupOldArticles(db: Database, retentionDays: nat, now: int) returns (deleted: nat)
    requires db.Valid()
    modifies db
    ensures db.Valid()
    ensures db.articles == Where(old(db.articles), Kept(Cutoff(now, retentionDays)))
    ensures deleted == |old(db.articles)| - |db.articles|
    ensures deleted == |Where(old(db.articles), Gone(Cutoff(now, retentionDays)))|
    ensures db.tags == Where(old(db.tags), TagsOf(ArticleIds(db.articles)))
    ensures db.styles == KeepStyles(old(db.styles), ArticleIds(db.articles))
    ensures db.events == DetachEvents(old(db.events), ArticleIds(db.articles))
    ensures db.feeds == old(db.feeds) && db.preferences == old(db.preferences)
  {
    var cutoff := Cutoff(now, retentionDays);
    var kept := Where(db.articles, Kept(cutoff));
    CleanupKeepsValid(db.feeds, db.articles, db.tags, db.styles, cutoff);
    CleanupPartition(db.articles, cutoff);
    var ids := ArticleIds(kept);
    deleted := |db.articles| - |kept|;
    db.articles := kept;
    db.tags := Where(db.tags, TagsOf(ids));
    db.styles := KeepStyles(db.styles, ids);
    db.events := DetachEvents(db.events, ids);
  }

  /** Cleanup never deletes a saved article, and keeps exactly the rows that are not expired. */
  lemma CleanupKeepsSaved(articles: seq<Article>, retentionDays: nat, now: int)
    ensures forall a :: a in articles && a.isSaved ==> a in Where(articles, Kept(Cutoff(now, retentionDays)))
    ensures forall a :: a in Where(articles, Kept(Cutoff(now, retentionDays))) ==>
      a in articles && (a.isSaved || a.fetchedAt >= Cutoff(now, retentionDays))
  {
  }
}
