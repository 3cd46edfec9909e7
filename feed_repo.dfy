/**
 * Feed subscriptions: create with a unique url, lookups, the feed list with
 * unread counts, metadata and error updates, and deletion, which cascades to
 * the feed's articles and their tags and styles.
 */
module FeedRepo {
  import opened Wrappers
  import opened FeedModels
  import opened Storage
  import opened Sorting
  import ArticleRepo

  function IndexOfFeedFrom(feeds: seq<Feed>, p: Feed -> bool, k: nat): (r: Option<nat>)
    requires k <= |feeds|
    ensures r.Some? ==> k <= r.value < |feeds| && p(feeds[r.value])
    ensures r.None? ==> forall i :: k <= i < |feeds| ==> !p(feeds[i])
    decreases |feeds| - k
  {
    if k == |feeds| then None
    else if p(feeds[k]) then Some(k)
    else IndexOfFeedFrom(feeds, p, k + 1)
  }

  function FeedIndexFrom(feeds: seq<Feed>, id: Id, k: nat): (r: Option<nat>)
    requires k <= |feeds|
    ensures r.Some? ==> k <= r.value < |feeds| && feeds[r.value].id == id
    ensures r.None? ==> forall i :: k <= i < |feeds| ==> feeds[i].id != id
    decreases |feeds| - k
  {
    if k == |feeds| then None
    else if feeds[k].id == id then Some(k)
    else FeedIndexFrom(feeds, id, k + 1)
  }

  /** `find_by_id`. */
  function FindById(feeds: seq<Feed>, id: Id): (r: Option<Feed>)
    ensures r.Some? <==> id in FeedIds(feeds)
    ensures r.Some? ==> r.value in feeds && r.value.id == id
  {
    match FeedIndexFrom(feeds, id, 0)
    case Some(i) => Some(feeds[i])
    case None =>
      assert forall f :: f in feeds ==> f.id != id;
      None
  }

  /** `find_by_url`. */
  function FindByUrl(feeds: seq<Feed>, url: string): (r: Option<Feed>)
    ensures r.Some? <==> exists f :: f in feeds && f.url == url
    ensures r.Some? ==> r.value in feeds && r.value.url == url
  {
    match IndexOfFeedFrom(feeds, (f: Feed) => f.url == url, 0)
    case Some(i) => Some(feeds[i])
    case None =>
      assert forall f :: f in feeds ==> f.url != url;
      None
  }

  /** Urls are unique, so a url names at most one feed. */
  lemma FindByUrlUnique(feeds: seq<Feed>, url: string, f: Feed)
    requires FeedsWellFormed(feeds)
    requires f in feeds && f.url == url
    ensures FindByUrl(feeds, url) == Some(f)
  {
    var g := FindByUrl(feeds, url).value;
    var i :| 0 <= i < |feeds| && feeds[i] == f;
    var j :| 0 <= j < |feeds| && feeds[j] == g;
    assert i == j by {
      assert !(i < j) && !(j < i);
    }
  }

  /** The row `INSERT` writes: only url, local name and the timestamps; no unread articles yet. */
  function NewRow(n: NewFeed, id: Id, now: int): Feed
  {
    Feed(id, n.url, n.localName, None, None, None, None, None, None, now, now, 0)
  }

  /**
   * `create`: subscribes to a url. A url already subscribed violates the
   * UNIQUE constraint and nothing changes; otherwise the new row (re-read by
   * its id) is returned. `freshId` is the new UUID.
   */
  method Create(db: Database, n: NewFeed, freshId: Id, now: int) returns (r: Result<Feed, DbError>)
    requires db.Valid()
    requires freshId !in FeedIds(db.feeds)
    modifies db
    ensures db.Valid()
    ensures db.articles == old(db.articles) && db.tags == old(db.tags) && db.styles == old(db.styles)
    ensures db.events == old(db.events) && db.preferences == old(db.preferences)
    ensures FindByUrl(old(db.feeds), n.url).Some? ==> r == Err(UNIQUE_VIOLATION) && db.feeds == old(db.feeds)
    ensures FindByUrl(old(db.feeds), n.url).None? ==>
      r == Ok(NewRow(n, freshId, now)) && db.feeds == old(db.feeds) + [NewRow(n, freshId, now)]
      && FindById(db.feeds, freshId) == Some(NewRow(n, freshId, now))
  {
    if FindByUrl(db.feeds, n.url).Some? {
      return Err(UNIQUE_VIOLATION);
    }
    var row := NewRow(n, freshId, now);
    var before := db.feeds;
    forall i | 0 <= i < |before| ensures before[i].id != freshId && before[i].url != n.url {
      assert before[i] in before;
    }
    db.feeds := before + [row];
    assert row in db.feeds;
    assert forall a :: a in db.articles ==> a.feedId in FeedIds(db.feeds) by {
      forall a | a in db.articles ensures a.feedId in FeedIds(db.feeds) {
        var f :| f in before && f.id == a.feedId;
        assert f in db.feeds;
      }
    }
    var found := FindById(db.feeds, freshId);
    var i :| 0 <= i < |db.feeds| && db.feeds[i] == found.value;
    assert i == |before|;
    r := Ok(found.value);
  }

  // ---------------------------------------------------------------- list_all

  /** `SELECT COUNT(*) FROM articles WHERE feed_id = ? AND is_read = 0`. */
  function UnreadCount(articles: seq<Article>, feedId: Id): nat
  {
    |Where(articles, (a: Article) => a.feedId == feedId && !a.isRead)|
  }

  predicate ByLocalName(a: Feed, b: Feed)
  {
    LexLe(a.localName, b.localName)
  }

  lemma ByLocalNameOrder()
    ensures TotalPreorder(ByLocalName)
  {
    forall a: Feed, b: Feed ensures ByLocalName(a, b) || ByLocalName(b, a) {
      LexLeTotal(a.localName, b.localName);
    }
    forall a: Feed, b: Feed, c: Feed | ByLocalName(a, b) && ByLocalName(b, c) ensures ByLocalName(a, c) {
      LexLeTransitive(a.localName, b.localName, c.localName);
    }
  }

  /** The feeds in local-name order, each carrying the number of its unread articles. */
  function FeedList(feeds: seq<Feed>, articles: seq<Article>): (r: seq<Feed>)
    ensures |r| == |feeds|
  {
    var sorted := SortBy(feeds, ByLocalName);
    seq(|sorted|, i requires 0 <= i < |sorted| => sorted[i].(unreadCount := UnreadCount(articles, sorted[i].id)))
  }

  /**
   * The list is ordered by local name, and it holds exactly the subscribed
   * feeds, one entry per row, each with its stored columns and the count of
   * its unread articles.
   */
  lemma FeedListSpec(feeds: seq<Feed>, articles: seq<Article>)
    ensures var r := FeedList(feeds, articles);
      && SortedBy(r, ByLocalName)
      && (forall f :: f in feeds ==> f.(unreadCount := UnreadCount(articles, f.id)) in r)
      && (forall g :: g in r ==> exists f :: f in feeds && g == f.(unreadCount := UnreadCount(articles, f.id)))
  {
    var sorted := SortBy(feeds, ByLocalName);
    var r := FeedList(feeds, articles);
    ByLocalNameOrder();
    SortBySorted(feeds, ByLocalName);
    assert SortedBy(r, ByLocalName) by {
      forall i, j | 0 <= i < j < |r| ensures ByLocalName(r[i], r[j]) {
        assert ByLocalName(sorted[i], sorted[j]);
      }
    }
    forall f | f in feeds ensures f.(unreadCount := UnreadCount(articles, f.id)) in r {
      assert f in multiset(sorted);
      var i :| 0 <= i < |sorted| && sorted[i] == f;
      assert r[i] == f.(unreadCount := UnreadCount(articles, f.id));
    }
    forall g | g in r ensures exists f :: f in feeds && g == f.(unreadCount := UnreadCount(articles, f.id)) {
      var i :| 0 <= i < |r| && r[i] == g;
      assert sorted[i] in multiset(feeds);
    }
  }

  /** `list_all`: reads the feeds in order, then counts the unread articles of each, one query per feed. */
  method ListAll(db: Database) returns (r: seq<Feed>)
    ensures r == FeedList(db.feeds, db.articles)
  {
    var feeds := SortBy(db.feeds, ByLocalName);
    r := [];
    var k := 0;
    while k < |feeds|
      invariant k <= |feeds|
      invariant |r| == k
      invariant forall i :: 0 <= i < k ==> r[i] == feeds[i].(unreadCount := UnreadCount(db.articles, feeds[i].id))
      decreases |feeds| - k
    {
      r := r + [feeds[k].(unreadCount := UnreadCount(db.articles, feeds[k].id))];
      k := k + 1;
    }
  }

  /** `count`: the number of feed rows. */
  function Count(feeds: seq<Feed>): (n: nat)
    ensures n == |feeds|
  {
    |feeds|
  }

  /** Feed ids are unique, so the count is the number of distinct subscriptions. */
  lemma {:induction false} CountDistinct(feeds: seq<Feed>)
    requires FeedsWellFormed(feeds)
    ensures Count(feeds) == |FeedIds(feeds)|
  {
    if feeds != [] {
      var rest := feeds[1..];
      assert FeedsWellFormed(rest) by {
        forall i, j | 0 <= i < j < |rest| ensures rest[i].id != rest[j].id && rest[i].url != rest[j].url {
          assert rest[i] == feeds[i + 1] && rest[j] == feeds[j + 1];
        }
      }
      CountDistinct(rest);
      assert feeds[0].id !in FeedIds(rest) by {
        forall f | f in rest ensures f.id != feeds[0].id {
          var m :| 0 <= m < |rest| && rest[m] == f;
          assert feeds[m + 1] == f;
        }
      }
      assert FeedIds(feeds) == FeedIds(rest) + {feeds[0].id} by {
        assert forall f :: f in feeds <==> f == feeds[0] || f in rest;
      }
    }
  }

  // ---------------------------------------------------------------- updates

  /** `UPDATE feeds SET ... WHERE id = ?`. */
  function UpdateFeed(feeds: seq<Feed>, id: Id, f: Feed -> Feed): (r: seq<Feed>)
    ensures |r| == |feeds|
    ensures forall i :: 0 <= i < |feeds| && feeds[i].id != id ==> r[i] == feeds[i]
    ensures forall i :: 0 <= i < |feeds| && feeds[i].id == id ==> r[i] == f(feeds[i])
  {
    seq(|feeds|, i requires 0 <= i < |feeds| => if feeds[i].id == id then f(feeds[i]) else feeds[i])
  }

  /** After a successful fetch: COALESCE the new metadata over the old, stamp the fetch, clear the error. */
  function FetchedRow(title: Option<string>, description: Option<string>, siteUrl: Option<string>, iconUrl: Option<string>, now: int): Feed -> Feed
  {
    (f: Feed) => f.(title := title.OrElse(f.title), description := description.OrElse(f.description),
                    siteUrl := siteUrl.OrElse(f.siteUrl), iconUrl := iconUrl.OrElse(f.iconUrl),
                    lastFetchedAt := Some(now), fetchError := None, updatedAt := now)
  }

  function FailedRow(error: string, now: int): Feed -> Feed
  {
    (f: Feed) => f.(fetchError := Some(error), updatedAt := now)
  }

  lemma UpdateFeedKeepsValid(feeds: seq<Feed>, articles: seq<Article>, id: Id, f: Feed -> Feed)
    requires forall x :: f(x).id == x.id && f(x).url == x.url
    requires FeedsWellFormed(feeds)
    requires forall a :: a in articles ==> a.feedId in FeedIds(feeds)
    ensures FeedsWellFormed(UpdateFeed(feeds, id, f))
    ensures FeedIds(UpdateFeed(feeds, id, f)) == FeedIds(feeds)
    ensures forall a :: a in articles ==> a.feedId in FeedIds(UpdateFeed(feeds, id, f))
  {
    var r := UpdateFeed(feeds, id, f);
    forall x | x in FeedIds(r) ensures x in FeedIds(feeds) {
      var g :| g in r && g.id == x;
      var j :| 0 <= j < |r| && r[j] == g;
      assert feeds[j] in feeds;
    }
    forall x | x in FeedIds(feeds) ensures x in FeedIds(r) {
      var g :| g in feeds && g.id == x;
      var j :| 0 <= j < |feeds| && feeds[j] == g;
      assert r[j] in r;
    }
  }

  method ApplyUpdate(db: Database, id: Id, f: Feed -> Feed)
    requires db.Valid()
    requires forall x :: f(x).id == x.id && f(x).url == x.url
    modifies db
    ensures db.Valid()
    ensures db.feeds == UpdateFeed(old(db.feeds), id, f)
    ensures db.articles == old(db.articles) && db.tags == old(db.tags) && db.styles == old(db.styles)
    ensures db.events == old(db.events) && db.preferences == old(db.preferences)
  {
    UpdateFeedKeepsValid(db.feeds, db.articles, id, f);
    db.feeds := UpdateFeed(db.feeds, id, f);
  }

  /** `update_metadata`: records a successful fetch of the feed. */
  method UpdateMetadata(db: Database, id: Id, title: Option<string>, description: Option<string>,
                        siteUrl: Option<string>, iconUrl: Option<string>, now: int)
    requires db.Valid()
    modifies db
    ensures db.Valid()
    ensures db.feeds == UpdateFeed(old(db.feeds), id, FetchedRow(title, description, siteUrl, iconUrl, now))
    ensures db.articles == old(db.articles) && db.tags == old(db.tags) && db.styles == old(db.styles)
    ensures db.events == old(db.events) && db.preferences == old(db.preferences)
  {
    ApplyUpdate(db, id, FetchedRow(title, description, siteUrl, iconUrl, now));
  }

  /** `update_fetch_error`: records why the last fetch failed. */
  method UpdateFetchError(db: Database, id: Id, error: string, now: int)
    requires db.Valid()
    modifies db
    ensures db.Valid()
    ensures db.feeds == UpdateFeed(old(db.feeds), id, FailedRow(error, now))
    ensures db.articles == old(db.articles) && db.tags == old(db.tags) && db.styles == old(db.styles)
    ensures db.events == old(db.events) && db.preferences == old(db.preferences)
  {
    ApplyUpdate(db, id, FailedRow(error, now));
  }

  lemma {:induction false} IndexAfterUpdate(feeds: seq<Feed>, id: Id, f: Feed -> Feed, k: nat)
    requires forall x :: f(x).id == x.id
    requires k <= |feeds|
    ensures FeedIndexFrom(UpdateFeed(feeds, id, f), id, k) == FeedIndexFrom(feeds, id, k)
    decreases |feeds| - k
  {
    if k < |feeds| {
      IndexAfterUpdate(feeds, id, f, k + 1);
    }
  }

  /** An update by id is seen by the next lookup of that id, applied to the row it found before. */
  lemma FindAfterUpdate(feeds: seq<Feed>, id: Id, f: Feed -> Feed)
    requires forall x :: f(x).id == x.id
    requires id in FeedIds(feeds)
    ensures FindById(UpdateFeed(feeds, id, f), id) == Some(f(FindById(feeds, id).value))
  {
    IndexAfterUpdate(feeds, id, f, 0);
  }

  /**
   * A failed fetch marks the feed as erroneous; a later successful fetch
   * clears the error and keeps every piece of metadata the fetch did not
   * supply.
   */
  lemma FetchErrorThenSuccess(feeds: seq<Feed>, id: Id, error: string, t1: int,
                              title: Option<string>, description: Option<string>, siteUrl: Option<string>, iconUrl: Option<string>, t2: int)
    requires id in FeedIds(feeds)
    ensures HasError(FindById(UpdateFeed(feeds, id, FailedRow(error, t1)), id).value)
    ensures FindById(UpdateFeed(feeds, id, FailedRow(error, t1)), id).value.fetchError == Some(error)
    ensures var after := FindById(UpdateFeed(UpdateFeed(feeds, id, FailedRow(error, t1)), id, FetchedRow(title, description, siteUrl, iconUrl, t2)), id).value;
      var before := FindById(feeds, id).value;
      && !HasError(after) && after.lastFetchedAt == Some(t2)
      && (title.None? ==> after.title == before.title)
      && (description.None? ==> after.description == before.description)
      && (siteUrl.None? ==> after.siteUrl == before.siteUrl)
      && (iconUrl.None? ==> after.iconUrl == before.iconUrl)
  {
    var failed := UpdateFeed(feeds, id, FailedRow(error, t1));
    FindAfterUpdate(feeds, id, FailedRow(error, t1));
    FindAfterUpdate(failed, id, FetchedRow(title, description, siteUrl, iconUrl, t2));
  }

  // ---------------------------------------------------------------- delete

  predicate OfFeed(a: Article, id: Id)
  {
    a.feedId == id
  }

  function OtherFeeds(id: Id): Feed -> bool
  {
    (f: Feed) => f.id != id
  }

  function OtherArticles(id: Id): Article -> bool
  {
    (a: Article) => !OfFeed(a, id)
  }

  /** Events lose their reference to the deleted feed and to its deleted articles (ON DELETE SET NULL). */
  function DetachFeedEvents(events: seq<Event>, id: Id, kept: set<Id>): seq<Event>
  {
    seq(|events|, i requires 0 <= i < |events| =>
      var e := if events[i].feedId == Some(id) then events[i].(feedId := None) else events[i];
      if e.articleId.Some? && e.articleId.value !in kept then e.(articleId := None) else e)
  }

  lemma FeedsWhereWellFormed(feeds: seq<Feed>, p: Feed -> bool)
    requires FeedsWellFormed(feeds)
    ensures FeedsWellFormed(Where(feeds, p))
    decreases |feeds|
  {
    if feeds != [] {
      FeedsWhereWellFormed(feeds[1..], p);
      var rest := Where(feeds[1..], p);
      forall j | 0 <= j < |rest| ensures feeds[0].id != rest[j].id && feeds[0].url != rest[j].url {
        assert rest[j] in feeds[1..];
        var m :| 0 <= m < |feeds[1..]| && feeds[1..][m] == rest[j];
        assert feeds[m + 1] == rest[j];
      }
    }
  }

  lemma DeleteKeepsValid(feeds: seq<Feed>, articles: seq<Article>, tags: seq<TagRow>, styles: map<Id, Style>, id: Id)
    requires FeedsWellFormed(feeds) && ArticlesWellFormed(articles) && TagsWellFormed(tags)
    requires References(feeds, articles, tags, styles)
    ensures var kept := Where(articles, OtherArticles(id));
      var ids := ArticleIds(kept);
      && FeedsWellFormed(Where(feeds, OtherFeeds(id)))
      && ArticlesWellFormed(kept)
      && TagsWellFormed(Where(tags, ArticleRepo.TagsOf(ids)))
      && References(Where(feeds, OtherFeeds(id)), kept, Where(tags, ArticleRepo.TagsOf(ids)),
                    ArticleRepo.KeepStyles(styles, ids))
  {
    var kept := Where(articles, OtherArticles(id));
    var remaining := Where(feeds, OtherFeeds(id));
    FeedsWhereWellFormed(feeds, OtherFeeds(id));
    ArticleRepo.WhereKeepsWellFormed(articles, OtherArticles(id));
    ArticleRepo.TagsWhereWellFormed(tags, ArticleRepo.TagsOf(ArticleIds(kept)));
    forall a | a in kept ensures a.feedId in FeedIds(remaining) {
      var f :| f in feeds && f.id == a.feedId;
      assert f in remaining;
    }
  }

  /**
   * `delete`: removes the feed and reports whether a row was deleted. The
   * foreign keys cascade: its articles go, and with them their tags and
   * styles; events keep their rows but lose the dangling references.
   */
  method Delete(db: Database, id: Id) returns (deleted: bool)
    requires db.Valid()
    modifies db
    ensures db.Valid()
    ensures deleted <==> id in FeedIds(old(db.feeds))
    ensures db.feeds == Where(old(db.feeds), OtherFeeds(id))
    ensures db.articles == Where(old(db.articles), OtherArticles(id))
    ensures db.tags == Where(old(db.tags), ArticleRepo.TagsOf(ArticleIds(db.articles)))
    ensures db.styles == ArticleRepo.KeepStyles(old(db.styles), ArticleIds(db.articles))
    ensures db.events == DetachFeedEvents(old(db.events), id, ArticleIds(db.articles))
    ensures db.preferences == old(db.preferences)
  {
    DeleteKeepsValid(db.feeds, db.articles, db.tags, db.styles, id);
    var remaining := Where(db.feeds, OtherFeeds(id));
    var kept := Where(db.articles, OtherArticles(id));
    var ids := ArticleIds(kept);
    deleted := FindById(db.feeds, id).Some?;
    db.feeds := remaining;
    db.articles := kept;
    db.tags := Where(db.tags, ArticleRepo.TagsOf(ids));
    db.styles := ArticleRepo.KeepStyles(db.styles, ids);
    db.events := DetachFeedEvents(db.events, id, ids);
  }

  /** After a delete the feed is gone and no article of it remains. */
  lemma DeleteRemovesFeed(feeds: seq<Feed>, articles: seq<Article>, id: Id)
    ensures FindById(Where(feeds, OtherFeeds(id)), id).None?
    ensures forall a :: a in Where(articles, OtherArticles(id)) ==> a.feedId != id
    ensures forall f :: f in feeds && f.id != id ==> f in Where(feeds, OtherFeeds(id))
  {
  }
}
