/**
 * The scheduler's periodic jobs: refreshing every feed, deleting expired
 * articles, and summarizing pending articles. The feed fetcher, the UUID
 * generator and the AI summarizer are parameters: `fetch(url, feedId)` is
 * the outcome of fetching one feed, `uuid(n)` the n-th fresh UUID, and
 * `summarize` / `extractTags` the summarizer's answers for a text.
 */
module Tasks {
  import opened Wrappers
  import opened FeedModels
  import opened Storage
  import opened Sorting
  import FeedRepo
  import ArticleRepo

  /** What a successful fetch yields: the channel metadata and the parsed items. */
  datatype ParsedFeed = ParsedFeed(title: Option<string>, description: Option<string>, siteUrl: Option<string>,
                                   iconUrl: Option<string>, articles: seq<NewArticle>)

  type Fetcher = (string, Id) -> Result<ParsedFeed, string>

  // ---------------------------------------------------------------- refresh_all_feeds

  /** The feed row update one fetch outcome causes: new metadata on success, the error text on failure. */
  function RefreshRow(outcome: Result<ParsedFeed, string>, now: int): Feed -> Feed
  {
    match outcome
    case Ok(p) => FeedRepo.FetchedRow(p.title, p.description, p.siteUrl, p.iconUrl, now)
    case Err(e) => FeedRepo.FailedRow(e, now)
  }

  /**
   * A successful fetch stamps the feed and clears its error, keeping stored
   * metadata the feed no longer reports; a failed one records the error and
   * leaves the last successful fetch time alone. Either way the feed keeps
   * its identity.
   */
  lemma RefreshRowSpec(f: Feed, outcome: Result<ParsedFeed, string>, now: int)
    ensures var g := RefreshRow(outcome, now)(f);
      && g.id == f.id && g.url == f.url && g.localName == f.localName && g.updatedAt == now
      && (outcome.Ok? ==>
            g.lastFetchedAt == Some(now) && !HasError(g)
            && (outcome.value.title.None? ==> g.title == f.title)
            && (outcome.value.title.Some? ==> g.title == outcome.value.title))
      && (outcome.Err? ==>
            g.fetchError == Some(outcome.error) && HasError(g) && g.lastFetchedAt == f.lastFetchedAt && g.title == f.title)
  {
  }

  /** Applying the same outcome twice changes nothing more than applying it once. */
  lemma RefreshRowIdempotent(f: Feed, outcome: Result<ParsedFeed, string>, now: int)
    ensures RefreshRow(outcome, now)(RefreshRow(outcome, now)(f)) == RefreshRow(outcome, now)(f)
  {
  }

  /** Rows of feeds whose id is in `done` carry their fetch outcome; the other rows are as before. */
  ghost predicate RefreshedUpTo(feeds0: seq<Feed>, feeds: seq<Feed>, done: set<Id>, fetch: Fetcher, now: int)
  {
    |feeds| == |feeds0|
    && forall k :: 0 <= k < |feeds0| ==>
         feeds[k] == if feeds0[k].id in done then RefreshRow(fetch(feeds0[k].url, feeds0[k].id), now)(feeds0[k]) else feeds0[k]
  }

  lemma RefreshStep(feeds0: seq<Feed>, feeds: seq<Feed>, done: set<Id>, fetch: Fetcher, now: int, m: nat)
    requires FeedsWellFormed(feeds0)
    requires RefreshedUpTo(feeds0, feeds, done, fetch, now)
    requires m < |feeds0|
    ensures RefreshedUpTo(feeds0, FeedRepo.UpdateFeed(feeds, feeds0[m].id, RefreshRow(fetch(feeds0[m].url, feeds0[m].id), now)),
                          done + {feeds0[m].id}, fetch, now)
  {
    var x := feeds0[m].id;
    var row := RefreshRow(fetch(feeds0[m].url, x), now);
    var r := FeedRepo.UpdateFeed(feeds, x, row);
    forall k | 0 <= k < |feeds0|
      ensures r[k] == if feeds0[k].id in done + {x} then RefreshRow(fetch(feeds0[k].url, feeds0[k].id), now)(feeds0[k]) else feeds0[k]
    {
      if feeds0[k].id == x {
        assert k == m;
        RefreshRowIdempotent(feeds0[k], fetch(feeds0[k].url, x), now);
      }
    }
  }

  /** After `create_many` with ids `uuid(next)`, ..., `uuid(next + used - 1)`, the later UUIDs are still unused. */
  lemma FreshAfterIngest(before: seq<Article>, after: seq<Article>, uuid: nat -> Id, next: nat, ids: seq<Id>)
    requires forall m: nat, n: nat :: m != n ==> uuid(m) != uuid(n)
    requires forall n: nat :: n >= next ==> uuid(n) !in ArticleIds(before)
    requires forall j :: 0 <= j < |ids| ==> ids[j] == uuid(next + j)
    requires forall a :: a in after ==> a.id in ArticleIds(before) || a.id in ids
    ensures forall n: nat :: n >= next + |ids| ==> uuid(n) !in ArticleIds(after)
  {
    forall n: nat | n >= next + |ids| ensures uuid(n) !in ArticleIds(after) {
      forall a | a in after ensures a.id != uuid(n) {
        if a.id in ids {
          var j :| 0 <= j < |ids| && ids[j] == a.id;
          assert next + j != n;
        }
      }
    }
  }

  /**
   * One iteration of the refresh loop for a feed whose fetch gave
   * `outcome`: on success the metadata update and the ingest of the
   * parsed items under the next `used` UUIDs, on failure the error update.
   */
  method RefreshFeed(db: Database, id: Id, outcome: Result<ParsedFeed, string>, uuid: nat -> Id, next: nat, now: int)
    returns (r: Result<nat, DbError>, used: nat)
    requires db.Valid()
    requires forall m: nat, n: nat :: m != n ==> uuid(m) != uuid(n)
    requires forall n: nat :: n >= next ==> uuid(n) !in ArticleIds(db.articles)
    modifies db
    ensures db.Valid()
    ensures db.tags == old(db.tags) && db.styles == old(db.styles)
    ensures db.events == old(db.events) && db.preferences == old(db.preferences)
    ensures r.Ok? ==> db.feeds == FeedRepo.UpdateFeed(old(db.feeds), id, RefreshRow(outcome, now))
    ensures r.Ok? ==> r.value == |db.articles| - |old(db.articles)|
    ensures forall n: nat :: n >= next + used ==> uuid(n) !in ArticleIds(db.articles)
    ensures FeedIds(db.feeds) == FeedIds(old(db.feeds))
    ensures outcome.Err? ==> r == Ok(0)
    ensures r.Err? ==> r.error == FOREIGN_KEY_VIOLATION
  {
    match outcome {
      case Ok(parsed) =>
        FeedRepo.UpdateFeedKeepsValid(db.feeds, db.articles, id, FeedRepo.FetchedRow(parsed.title, parsed.description, parsed.siteUrl, parsed.iconUrl, now));
        FeedRepo.UpdateMetadata(db, id, parsed.title, parsed.description, parsed.siteUrl, parsed.iconUrl, now);
        var ids := seq(|parsed.articles|, j requires 0 <= j < |parsed.articles| => uuid(next + j));
        ghost var before := db.articles;
        r := ArticleRepo.CreateMany(db, parsed.articles, ids, now);
        used := |ids|;
        ArticleRepo.IngestAllIds(before, FeedIds(db.feeds), parsed.articles, ids, now);
        FreshAfterIngest(before, db.articles, uuid, next, ids);
        if r.Err? {
          ArticleRepo.IngestAllError(before, FeedIds(db.feeds), parsed.articles, ids, now);
        }
      case Err(e) =>
        FeedRepo.UpdateFeedKeepsValid(db.feeds, db.articles, id, FeedRepo.FailedRow(e, now));
        FeedRepo.UpdateFetchError(db, id, e, now);
        r, used := Ok(0), 0;
    }
  }

  /** The feed `list_all` lists at position `j` is stored at position `m`, with the same id and url. */
  lemma ListedFeedStored(feeds: seq<Feed>, articles: seq<Article>, j: nat) returns (m: nat)
    requires j < |FeedRepo.FeedList(feeds, articles)|
    ensures m < |feeds|
    ensures feeds[m].id == FeedRepo.FeedList(feeds, articles)[j].id && feeds[m].url == FeedRepo.FeedList(feeds, articles)[j].url
  {
    var order := FeedRepo.FeedList(feeds, articles);
    FeedRepo.FeedListSpec(feeds, articles);
    assert order[j] in order;
    var f :| f in feeds && order[j] == f.(unreadCount := FeedRepo.UnreadCount(articles, f.id));
    m :| 0 <= m < |feeds| && feeds[m] == f;
  }

  lemma RefreshedAll(feeds0: seq<Feed>, feeds: seq<Feed>, done: set<Id>, fetch: Fetcher, now: int)
    requires RefreshedUpTo(feeds0, feeds, done, fetch, now)
    requires forall k :: 0 <= k < |feeds0| ==> feeds0[k].id in done
    ensures |feeds| == |feeds0|
    ensures forall k :: 0 <= k < |feeds0| ==> feeds[k] == RefreshRow(fetch(feeds0[k].url, feeds0[k].id), now)(feeds0[k])
  {
  }

  lemma ListedDoneStep(order: seq<Feed>, i: nat, done: set<Id>)
    requires i < |order|
    requires forall j :: 0 <= j < i ==> order[j].id in done
    ensures forall j :: 0 <= j < i + 1 ==> order[j].id in done + {order[i].id}
  {
  }

  /** Once every listed feed has been refreshed, every stored feed has been. */
  lemma ListedFeedsDone(feeds: seq<Feed>, articles: seq<Article>, done: set<Id>)
    requires forall j :: 0 <= j < |FeedRepo.FeedList(feeds, articles)| ==> FeedRepo.FeedList(feeds, articles)[j].id in done
    ensures forall k :: 0 <= k < |feeds| ==> feeds[k].id in done
  {
    var order := FeedRepo.FeedList(feeds, articles);
    FeedRepo.FeedListSpec(feeds, articles);
    forall k | 0 <= k < |feeds| ensures feeds[k].id in done {
      assert feeds[k] in feeds;
      var g := feeds[k].(unreadCount := FeedRepo.UnreadCount(articles, feeds[k].id));
      assert g in order;
      var j :| 0 <= j < |order| && order[j] == g;
    }
  }

  /**
   * `refresh_all_feeds`: fetches every subscribed feed, in the order
   * `list_all` returns them, with no per-feed interval. A successful fetch
   * updates the feed's metadata and ingests its articles; a failed one
   * records the error on that feed and the loop goes on. The result is the
   * number of new articles; an error from `create_many` ends the job.
   */
  method RefreshAllFeeds(db: Database, fetch: Fetcher, uuid: nat -> Id, now: int) returns (r: Result<nat, DbError>, used: nat)
    requires db.Valid()
    requires forall m: nat, n: nat :: m != n ==> uuid(m) != uuid(n)
    requires forall n: nat :: uuid(n) !in ArticleIds(db.articles)
    modifies db
    ensures db.Valid()
    ensures db.tags == old(db.tags) && db.styles == old(db.styles)
    ensures db.events == old(db.events) && db.preferences == old(db.preferences)
    ensures r.Ok? ==> |db.feeds| == |old(db.feeds)|
    ensures r.Ok? ==> forall k :: 0 <= k < |old(db.feeds)| ==>
      db.feeds[k] == RefreshRow(fetch(old(db.feeds)[k].url, old(db.feeds)[k].id), now)(old(db.feeds)[k])
    ensures r.Ok? ==> r.value == |db.articles| - |old(db.articles)|
    ensures r.Err? ==> r.error == FOREIGN_KEY_VIOLATION
    ensures forall n: nat :: n >= used ==> uuid(n) !in ArticleIds(db.articles)
    ensures FeedIds(db.feeds) == FeedIds(old(db.feeds))
  {
    ghost var feeds0 := db.feeds;
    ghost var articles0 := db.articles;
    ghost var count0 := |db.articles|;
    var order := FeedRepo.ListAll(db);
    var total: nat := 0;
    var next: nat := 0;
    var i := 0;
    ghost var done: set<Id> := {};
    while i < |order|
      invariant i <= |order|
      invariant db.Valid()
      invariant (db.tags, db.styles) == (old(db.tags), old(db.styles))
      invariant (db.events, db.preferences) == (old(db.events), old(db.preferences))
      invariant RefreshedUpTo(feeds0, db.feeds, done, fetch, now)
      invariant forall j :: 0 <= j < i ==> order[j].id in done
      invariant forall n: nat :: n >= next ==> uuid(n) !in ArticleIds(db.articles)
      invariant total == |db.articles| - count0
      invariant FeedIds(db.feeds) == FeedIds(feeds0)
      decreases |order| - i
    {
      var feed := order[i];
      ghost var m := ListedFeedStored(feeds0, articles0, i);
      RefreshStep(feeds0, db.feeds, done, fetch, now, m);
      var created, consumed := RefreshFeed(db, feed.id, fetch(feed.url, feed.id), uuid, next, now);
      if created.Err? {
        return Err(created.error), next + consumed;
      }
      total := total + created.value;
      next := next + consumed;
      ListedDoneStep(order, i, done);
      done := done + {feed.id};
      i := i + 1;
    }
    ListedFeedsDone(feeds0, articles0, done);
    RefreshedAll(feeds0, db.feeds, done, fetch, now);
    r, used := Ok(total), next;
  }

  // ---------------------------------------------------------------- cleanup_old_articles

  /** The cleanup job: the retention cleanup with the configured number of days. */
  method CleanupOldArticles(db: Database, retentionDays: nat, now: int) returns (deleted: nat)
    requires db.Valid()
    modifies db
    ensures db.Valid()
    ensures forall a :: a in old(db.articles) && a.isSaved ==> a in db.articles
    ensures forall a :: a in db.articles <==> a in old(db.articles) && !ArticleRepo.Expired(a, ArticleRepo.Cutoff(now, retentionDays))
    ensures deleted == |old(db.articles)| - |db.articles|
  {
    deleted := ArticleRepo.CleanupOldArticles(db, retentionDays, now);
    ArticleRepo.CleanupKeepsSaved(old(db.articles), retentionDays, now);
  }

  // ---------------------------------------------------------------- summarize_pending_articles

  type SummarizeFn = string -> Result<string, string>
  type ExtractTagsFn = string -> Result<seq<string>, string>

  /** The summarizer produces a summary for the article's plain text. */
  predicate Summarizes(a: Article, summarize: SummarizeFn)
  {
    a.contentText.Some? && summarize(a.contentText.value).Ok?
  }

  /** `Summarizes` as a filter. */
  function SummaryProduced(summarize: SummarizeFn): Article -> bool
  {
    (a: Article) => Summarizes(a, summarize)
  }

  /** The row of a summarized article: the summary of its own text, stamped now. */
  function WithSummary(a: Article, summarize: SummarizeFn, now: int): Article
    requires Summarizes(a, summarize)
  {
    a.(summary := Some(summarize(a.contentText.value).value), summaryGeneratedAt := Some(now))
  }

  /**
   * The articles table after summarizing the candidates with ids `ids`:
   * a candidate whose summary was produced carries it, every other row is
   * as before.
   */
  function SummarizeRows(articles: seq<Article>, ids: set<Id>, summarize: SummarizeFn, now: int): (r: seq<Article>)
    ensures |r| == |articles|
  {
    seq(|articles|, k requires 0 <= k < |articles| =>
      if articles[k].id in ids && Summarizes(articles[k], summarize) then WithSummary(articles[k], summarize, now) else articles[k])
  }

  /**
   * Only candidates whose summary was produced change, and they change
   * only in their summary and its timestamp; an article whose summary
   * failed is left exactly as it was.
   */
  lemma SummarizeRowsSpec(articles: seq<Article>, ids: set<Id>, summarize: SummarizeFn, now: int)
    ensures var r := SummarizeRows(articles, ids, summarize, now);
      forall k :: 0 <= k < |articles| ==>
        && r[k].id == articles[k].id
        && (articles[k].id !in ids || !Summarizes(articles[k], summarize) ==> r[k] == articles[k])
        && (articles[k].id in ids && Summarizes(articles[k], summarize) ==>
              r[k] == articles[k].(summary := Some(summarize(articles[k].contentText.value).value), summaryGeneratedAt := Some(now))
              && IsSummarized(r[k]))
  {
  }

  /** Summarizing keeps every primary key. */
  lemma SummarizeRowsKeys(articles: seq<Article>, ids: set<Id>, summarize: SummarizeFn, now: int)
    ensures ArticleIds(SummarizeRows(articles, ids, summarize, now)) == ArticleIds(articles)
  {
    var r := SummarizeRows(articles, ids, summarize, now);
    forall x | x in ArticleIds(r) ensures x in ArticleIds(articles) {
      var a :| a in r && a.id == x;
      var j :| 0 <= j < |r| && r[j] == a;
      assert articles[j] in articles;
    }
    forall x | x in ArticleIds(articles) ensures x in ArticleIds(r) {
      var a :| a in articles && a.id == x;
      var j :| 0 <= j < |articles| && articles[j] == a;
      assert r[j].id == x;
      assert r[j] in r;
    }
  }

  /** The (article, tag) pairs one candidate contributes: its extracted tags, if its summary was stored. */
  function ArticleTagPairs(a: Article, summarize: SummarizeFn, extractTags: ExtractTagsFn): set<(Id, string)>
  {
    if Summarizes(a, summarize) && extractTags(a.contentText.value).Ok?
    then set t | t in extractTags(a.contentText.value).value :: (a.id, t)
    else {}
  }

  /** The (article, tag) pairs the job adds: the extracted tags of each summarized candidate. */
  function NewTagPairs(cands: seq<Article>, summarize: SummarizeFn, extractTags: ExtractTagsFn): set<(Id, string)>
  {
    if cands == [] then {}
    else
      var a := cands[|cands| - 1];
      NewTagPairs(cands[..|cands| - 1], summarize, extractTags) + ArticleTagPairs(a, summarize, extractTags)
  }

  /** Tags are only ever added to candidates whose summary was stored. */
  lemma {:induction false} NewTagPairsSummarized(cands: seq<Article>, summarize: SummarizeFn, extractTags: ExtractTagsFn)
    ensures forall p :: p in NewTagPairs(cands, summarize, extractTags) ==>
      p.0 in ArticleIds(Where(cands, SummaryProduced(summarize)))
  {
    if cands != [] {
      var init := cands[..|cands| - 1];
      var a := cands[|cands| - 1];
      NewTagPairsSummarized(init, summarize, extractTags);
      assert cands == init + [a];
      WhereSnoc(init, a, SummaryProduced(summarize));
      var w := Where(cands, SummaryProduced(summarize));
      forall p | p in NewTagPairs(cands, summarize, extractTags) ensures p.0 in ArticleIds(w) {
        if p in NewTagPairs(init, summarize, extractTags) {
          var b :| b in Where(init, SummaryProduced(summarize)) && b.id == p.0;
          assert b in w;
        } else {
          assert a in w;
        }
      }
    }
  }

  lemma ArticleIdsSnoc(s: seq<Article>, a: Article)
    ensures ArticleIds(s + [a]) == ArticleIds(s) + {a.id}
  {
    assert forall b :: b in s + [a] <==> b in s || b == a;
  }

  /** One summarized candidate more: the stored row is `a` itself, so its own text was summarized. */
  lemma SummarizeStep(articles: seq<Article>, ids: set<Id>, summarize: SummarizeFn, now: int, a: Article)
    requires ArticlesWellFormed(articles)
    requires a in articles
    ensures Summarizes(a, summarize) ==>
      ArticleRepo.UpdateById(SummarizeRows(articles, ids, summarize, now), a.id, ArticleRepo.SummaryRow(summarize(a.contentText.value).value, now))
      == SummarizeRows(articles, ids + {a.id}, summarize, now)
    ensures !Summarizes(a, summarize) ==>
      SummarizeRows(articles, ids, summarize, now) == SummarizeRows(articles, ids + {a.id}, summarize, now)
  {
    var m :| 0 <= m < |articles| && articles[m] == a;
    forall k | 0 <= k < |articles| && articles[k].id == a.id ensures k == m {
    }
  }

  lemma UnionAssociates<T>(a: set<T>, b: set<T>, c: set<T>)
    ensures a + b + c == a + (b + c)
  {
  }

  lemma CandidatesStored(articles: seq<Article>, limit: nat, minLength: nat)
    ensures forall a :: a in ArticleRepo.ListUnsummarized(articles, limit, minLength) ==> a in articles
  {
    ArticleRepo.ListUnsummarizedSpec(articles, limit, minLength);
  }

  /** What one more candidate does to the row table, the count and the new tag pairs. */
  lemma SummarizeLoopStep(articles0: seq<Article>, cands: seq<Article>, i: nat, summarize: SummarizeFn, extractTags: ExtractTagsFn, now: int)
    requires ArticlesWellFormed(articles0)
    requires i < |cands|
    requires cands[i] in articles0
    ensures var a := cands[i];
      && (Summarizes(a, summarize) ==>
            ArticleRepo.UpdateById(SummarizeRows(articles0, ArticleIds(cands[..i]), summarize, now), a.id,
                                   ArticleRepo.SummaryRow(summarize(a.contentText.value).value, now))
            == SummarizeRows(articles0, ArticleIds(cands[..i + 1]), summarize, now))
      && (!Summarizes(a, summarize) ==>
            SummarizeRows(articles0, ArticleIds(cands[..i]), summarize, now) == SummarizeRows(articles0, ArticleIds(cands[..i + 1]), summarize, now))
      && |Where(cands[..i + 1], SummaryProduced(summarize))|
         == |Where(cands[..i], SummaryProduced(summarize))| + (if Summarizes(a, summarize) then 1 else 0)
      && NewTagPairs(cands[..i + 1], summarize, extractTags) == NewTagPairs(cands[..i], summarize, extractTags) + ArticleTagPairs(a, summarize, extractTags)
  {
    var a := cands[i];
    assert cands[..i + 1] == cands[..i] + [a];
    assert cands[..i + 1][..i] == cands[..i];
    ArticleIdsSnoc(cands[..i], a);
    WhereSnoc(cands[..i], a, SummaryProduced(summarize));
    SummarizeStep(articles0, ArticleIds(cands[..i]), summarize, now, a);
  }

  /**
   * One iteration of the summarize loop: the summary is stored when the
   * summarizer produces one, and only then are the extracted tags added.
   */
  method SummarizeArticle(db: Database, article: Article, summarize: SummarizeFn, extractTags: ExtractTagsFn, now: int)
    returns (stored: bool)
    requires db.Valid()
    requires article.id in ArticleIds(db.articles)
    modifies db
    ensures db.Valid()
    ensures stored == Summarizes(article, summarize)
    ensures stored ==> db.articles == ArticleRepo.UpdateById(old(db.articles), article.id,
                                       ArticleRepo.SummaryRow(summarize(article.contentText.value).value, now))
    ensures !stored ==> db.articles == old(db.articles)
    ensures ArticleRepo.TagPairs(db.tags) == ArticleRepo.TagPairs(old(db.tags)) + ArticleTagPairs(article, summarize, extractTags)
    ensures old(db.tags) <= db.tags
    ensures db.feeds == old(db.feeds) && db.styles == old(db.styles)
    ensures db.events == old(db.events) && db.preferences == old(db.preferences)
  {
    stored := false;
    if article.contentText.Some? {
      var content := article.contentText.value;
      match summarize(content) {
        case Ok(summary) =>
          ArticleRepo.UpdateSummary(db, article.id, summary, now);
          ArticleRepo.UpdateKeepsKeys(old(db.articles), article.id, ArticleRepo.SummaryRow(summary, now));
          match extractTags(content) {
            case Ok(tags) =>
              var added := ArticleRepo.AddTags(db, article.id, tags, "ai", now);
            case Err(_) =>
          }
          stored := true;
        case Err(_) =>
      }
    }
  }

  /**
   * `summarize_pending_articles`: for each article `list_unsummarized`
   * returns, asks for a summary of its plain text; a summary is stored and
   * then, if tag extraction succeeds too, the tags are added with source
   * "ai". A failed summary is skipped. The result counts the stored
   * summaries.
   */
  method SummarizePendingArticles(db: Database, summarize: SummarizeFn, extractTags: ExtractTagsFn,
                                  limit: nat, minLength: nat, now: int) returns (summarized: nat)
    requires db.Valid()
    modifies db
    ensures db.Valid()
    ensures var cands := ArticleRepo.ListUnsummarized(old(db.articles), limit, minLength);
      && db.articles == SummarizeRows(old(db.articles), ArticleIds(cands), summarize, now)
      && summarized == |Where(cands, SummaryProduced(summarize))|
      && ArticleRepo.TagPairs(db.tags) == ArticleRepo.TagPairs(old(db.tags)) + NewTagPairs(cands, summarize, extractTags)
    ensures summarized <= limit
    ensures old(db.tags) <= db.tags
    ensures db.feeds == old(db.feeds) && db.styles == old(db.styles)
    ensures db.events == old(db.events) && db.preferences == old(db.preferences)
  {
    ghost var articles0 := db.articles;
    var cands := ArticleRepo.ListUnsummarized(db.articles, limit, minLength);
    CandidatesStored(db.articles, limit, minLength);
    summarized := 0;
    var i := 0;
    while i < |cands|
      invariant i <= |cands|
      invariant db.Valid()
      invariant db.articles == SummarizeRows(articles0, ArticleIds(cands[..i]), summarize, now)
      invariant summarized == |Where(cands[..i], SummaryProduced(summarize))|
      invariant ArticleRepo.TagPairs(db.tags) == ArticleRepo.TagPairs(old(db.tags)) + NewTagPairs(cands[..i], summarize, extractTags)
      invariant old(db.tags) <= db.tags
      invariant db.feeds == old(db.feeds) && db.styles == old(db.styles)
      invariant db.events == old(db.events) && db.preferences == old(db.preferences)
      decreases |cands| - i
    {
      var article := cands[i];
      assert article in articles0;
      SummarizeLoopStep(articles0, cands, i, summarize, extractTags, now);
      SummarizeRowsKeys(articles0, ArticleIds(cands[..i]), summarize, now);
      var stored := SummarizeArticle(db, article, summarize, extractTags, now);
      UnionAssociates(ArticleRepo.TagPairs(old(db.tags)), NewTagPairs(cands[..i], summarize, extractTags),
                      ArticleTagPairs(article, summarize, extractTags));
      assert ArticleRepo.TagPairs(db.tags) == ArticleRepo.TagPairs(old(db.tags)) + NewTagPairs(cands[..i + 1], summarize, extractTags);
      summarized := summarized + if stored then 1 else 0;
      i := i + 1;
      assert db.articles == SummarizeRows(articles0, ArticleIds(cands[..i]), summarize, now);
      assert summarized == |Where(cands[..i], SummaryProduced(summarize))|;
      assert ArticleRepo.TagPairs(db.tags) == ArticleRepo.TagPairs(old(db.tags)) + NewTagPairs(cands[..i], summarize, extractTags);
    }
    assert cands[..i] == cands;
    ArticleRepo.ListUnsummarizedSpec(old(db.articles), limit, minLength);
  }
}
