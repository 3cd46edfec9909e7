/**
 * The daemon's request handling: one request line in, one response line
 * out. `handle_request` dispatches on the method name, decodes the
 * parameters, calls the repositories and the refresh task, and records a
 * behaviour event when an article is read or saved. Time, uptime and the
 * UUID generator are inputs of the model; the fetcher is the refresh
 * task's oracle.
 */
module Server {
  import opened Wrappers
  import opened FeedModels
  import opened Storage
  import opened ProfileModels
  import opened Protocol
  import ArticleRepo
  import FeedRepo
  import Tasks
  import opened Sorting

  /** `Uuid::nil()`, the id of the response to a line that is not a request. */
  const NIL_ID: Id := "00000000-0000-0000-0000-000000000000"
  /** `article.list` without a feed lists at most this many unread articles. */
  const UNREAD_LIMIT: nat := 1000
  const METHOD_NOT_FOUND_MESSAGE: string := "Method not found"
  const SINGLE_REFRESH_MESSAGE: string := "Single feed refresh not implemented"
  const PARSE_ERROR_PREFIX: string := "Parse error: "
  /** The text of a database error is not modelled; every internal error carries this one. */
  const INTERNAL_ERROR_MESSAGE: string := "internal error"

  /** What a request sees of the world besides the database: the clock, the hour of day, the uptime, the fetcher. */
  datatype Context = Context(now: int, hour: nat, uptimeSecs: nat, fetch: Tasks.Fetcher)

  /** The UUID generator never repeats itself. */
  ghost predicate Injective(uuid: nat -> Id)
  {
    forall m: nat, n: nat :: m != n ==> uuid(m) != uuid(n)
  }

  /** No UUID from `next` on is the id of a stored feed or article. */
  ghost predicate Fresh(db: Database, uuid: nat -> Id, next: nat)
    reads db
  {
    forall n: nat :: n >= next ==> uuid(n) !in ArticleIds(db.articles) && uuid(n) !in FeedIds(db.feeds)
  }

  /** The generator from `next` on, numbered from zero again. */
  function From(uuid: nat -> Id, next: nat): (g: nat -> Id)
    ensures forall n: nat :: g(n) == uuid(next + n)
  {
    (n: nat) => uuid(next + n)
  }

  // ---------------------------------------------------------------- the read-only part of dispatch

  /** The routes that may change the database once their parameters decode. */
  predicate Mutating(m: Method)
  {
    m in {ArticleMarkRead, ArticleMarkUnread, ArticleToggleSaved, FeedAdd, FeedDelete, FeedRefresh}
  }

  function InvalidParams(id: Id): Response
  {
    Error(id, ERR_INVALID_PARAMS, INVALID_PARAMS_MESSAGE)
  }

  /** The articles `article.list` returns: one feed's, or the newest unread ones. */
  function ListedArticles(articles: seq<Article>, p: ArticleListParams): seq<Article>
  {
    if p.feedId.Some? then ArticleRepo.ListByFeed(articles, p.feedId.value, p.unreadOnly)
    else ArticleRepo.ListUnread(articles, UNREAD_LIMIT)
  }

  /**
   * The response `handle_request` gives without touching the database, or
   * None when the request is a mutating route whose parameters decoded
   * (and, for `feed.refresh`, named no feed).
   */
  function ReadOnlyResponse(feeds: seq<Feed>, articles: seq<Article>, tags: seq<TagRow>, uptimeSecs: nat, req: Request): (r: Option<Response>)
    ensures r.Some? ==> r.value.id == req.id
    ensures r.Some? ==> (r.value.result.Some? <==> r.value.error.None?)
    ensures !Mutating(Route(req.methodName)) ==> r.Some?
    ensures Route(req.methodName) == Unknown ==> r == Some(Error(req.id, ERR_METHOD_NOT_FOUND, METHOD_NOT_FOUND_MESSAGE))
    ensures Route(req.methodName) == Ping ==> r == Some(OkResponse(req.id))
    ensures Route(req.methodName) == StatusMethod ==> r == Some(Success(req.id, Status(true, uptimeSecs, true)))
    ensures Route(req.methodName) == FeedListMethod ==> r == Some(Success(req.id, FeedList(FeedRepo.FeedList(feeds, articles))))
    ensures Route(req.methodName) == FeedRefresh && DecodeOptionalId(req.params) == Ok(None) ==> r.None?
    ensures r.Some? && r.value.error.Some? && r.value.error.value.code == ERR_INTERNAL ==>
      Route(req.methodName) == FeedRefresh && DecodeOptionalId(req.params).Ok? && DecodeOptionalId(req.params).value.Some?
    ensures r.Some? && r.value.error.Some? && r.value.error.value.code == ERR_INVALID_PARAMS ==> r.value == InvalidParams(req.id)
  {
    var id := req.id;
    match Route(req.methodName)
    case Ping => Some(OkResponse(id))
    case StatusMethod => Some(Success(id, Status(true, uptimeSecs, true)))
    case ArticleListMethod =>
      (match DecodeArticleList(req.params)
       case Ok(p) => Some(Success(id, ArticleList(ListedArticles(articles, p))))
       case Err(_) => Some(InvalidParams(id)))
    case ArticleGet =>
      (match DecodeId(req.params)
       case Ok(x) => Some(Success(id, ArticleFound(ArticleRepo.FindById(articles, tags, x))))
       case Err(_) => Some(InvalidParams(id)))
    case ArticleSearch =>
      (match DecodeSearch(req.params)
       case Ok(p) => Some(Success(id, ArticleList(ArticleRepo.Search(articles, p.query, p.feedId))))
       case Err(_) => Some(InvalidParams(id)))
    case FeedListMethod => Some(Success(id, FeedList(FeedRepo.FeedList(feeds, articles))))
    case ArticleMarkRead | ArticleMarkUnread | ArticleToggleSaved | FeedDelete =>
      if DecodeId(req.params).Err? then Some(InvalidParams(id)) else None
    case FeedAdd =>
      if DecodeFeedAdd(req.params).Err? then Some(InvalidParams(id)) else None
    case FeedRefresh =>
      (match DecodeOptionalId(req.params)
       case Err(_) => Some(InvalidParams(id))
       case Ok(Some(_)) => Some(Error(id, ERR_INTERNAL, SINGLE_REFRESH_MESSAGE))
       case Ok(None) => None)
    case Unknown => Some(Error(id, ERR_METHOD_NOT_FOUND, METHOD_NOT_FOUND_MESSAGE))
  }

  /**
   * What the read-only routes return: `article.list` without a feed gives
   * at most 1000 articles, all unread; with a feed, only that feed's
   * articles, unread ones only when asked; `article.get` finds an article
   * exactly when its id is stored; `article.search` gives at most 100
   * articles of the feed asked for.
   */
  lemma ReadOnlyPayloads(feeds: seq<Feed>, articles: seq<Article>, tags: seq<TagRow>, uptimeSecs: nat, req: Request)
    ensures var r := ReadOnlyResponse(feeds, articles, tags, uptimeSecs, req);
      Route(req.methodName) == ArticleListMethod && DecodeArticleList(req.params).Ok? ==>
        var p := DecodeArticleList(req.params).value;
        r.Some? && r.value.result.Some? && r.value.result.value.ArticleList?
        && var xs := r.value.result.value.articles;
        (p.feedId.None? ==> |xs| <= UNREAD_LIMIT && forall a :: a in xs ==> a in articles && !a.isRead)
        && (p.feedId.Some? ==> forall a :: a in xs <==> a in articles && a.feedId == p.feedId.value && (!p.unreadOnly || !a.isRead))
    ensures var r := ReadOnlyResponse(feeds, articles, tags, uptimeSecs, req);
      Route(req.methodName) == ArticleGet && DecodeId(req.params).Ok? ==>
        r.Some? && r.value.result.Some? && r.value.result.value.ArticleFound?
        && (r.value.result.value.article.Some? <==> DecodeId(req.params).value in ArticleIds(articles))
    ensures var r := ReadOnlyResponse(feeds, articles, tags, uptimeSecs, req);
      Route(req.methodName) == ArticleSearch && DecodeSearch(req.params).Ok? ==>
        var p := DecodeSearch(req.params).value;
        r.Some? && r.value.result.Some? && r.value.result.value.ArticleList?
        && |r.value.result.value.articles| <= 100
        && (p.feedId.Some? ==> forall a :: a in r.value.result.value.articles ==> a in articles && a.feedId == p.feedId.value)
  {
    var r := ReadOnlyResponse(feeds, articles, tags, uptimeSecs, req);
    if Route(req.methodName) == ArticleListMethod && DecodeArticleList(req.params).Ok? {
      var p := DecodeArticleList(req.params).value;
      if p.feedId.None? {
        ArticleRepo.ListUnreadSpec(articles, UNREAD_LIMIT);
      } else {
        ArticleRepo.ListByFeedSpec(articles, p.feedId.value, p.unreadOnly);
      }
    }
    if Route(req.methodName) == ArticleSearch && DecodeSearch(req.params).Ok? {
      var p := DecodeSearch(req.params).value;
      ArticleRepo.SearchSpec(articles, p.query, p.feedId);
    }
  }

  // ---------------------------------------------------------------- behaviour events

  /** The row `record_event` inserts for a click or a save: both ids, the hour's period, the time. */
  function UserEvent(articleId: Id, feedId: Id, t: BehaviorEventType, ctx: Context): (e: Event)
    ensures e.articleId == Some(articleId) && e.feedId == Some(feedId)
    ensures e.eventType == EventTypeName(t) && e.createdAt == ctx.now
    ensures e.timeOfDay == TimeOfDayFromHour(ctx.hour)
  {
    Event(Some(articleId), Some(feedId), EventTypeName(t), TimeOfDayFromHour(ctx.hour), ctx.now)
  }

  /** `BehaviorTracker::record_event`: appends one event. */
  method RecordEvent(db: Database, e: Event)
    requires db.Valid()
    modifies db
    ensures db.Valid()
    ensures db.events == old(db.events) + [e]
    ensures db.feeds == old(db.feeds) && db.articles == old(db.articles) && db.tags == old(db.tags)
    ensures db.styles == old(db.styles) && db.preferences == old(db.preferences)
  {
    db.events := db.events + [e];
  }

  // ---------------------------------------------------------------- the mutating routes

  /** The event a mark-read or save of `x` records: one, with the article's feed, when the article exists. */
  function EventFor(articles: seq<Article>, x: Id, t: BehaviorEventType, ctx: Context): (es: seq<Event>)
    ensures |es| == (if x in ArticleIds(articles) then 1 else 0)
    ensures x in ArticleIds(articles) ==> es[0] == UserEvent(x, ArticleRepo.FindRow(articles, x).value.feedId, t, ctx)
  {
    match ArticleRepo.FindRow(articles, x)
    case Some(a) => [UserEvent(x, a.feedId, t, ctx)]
    case None => []
  }

  /** The save event a toggle records: one when the article exists and the toggle saves it. */
  function SaveEventFor(articles: seq<Article>, x: Id, ctx: Context): (es: seq<Event>)
    ensures x in ArticleIds(articles) && !ArticleRepo.FindRow(articles, x).value.isSaved ==> es == EventFor(articles, x, Save, ctx)
    ensures x !in ArticleIds(articles) || ArticleRepo.FindRow(articles, x).value.isSaved ==> es == []
  {
    if x in ArticleIds(articles) && !ArticleRepo.FindRow(articles, x).value.isSaved then EventFor(articles, x, Save, ctx) else []
  }

  /** `article.mark_read` of `x`: the article is marked read now and a click is recorded; no other table changes. */
  ghost predicate MarkReadDone(b: Tables, a: Tables, x: Id, ctx: Context)
  {
    a == b.(articles := ArticleRepo.UpdateById(b.articles, x, ArticleRepo.MarkReadRow(ctx.now)),
            events := b.events + EventFor(b.articles, x, Click, ctx))
  }

  /** `article.mark_unread` of `x`: only the article's read flag and time are cleared. */
  ghost predicate MarkUnreadDone(b: Tables, a: Tables, x: Id)
  {
    a == b.(articles := ArticleRepo.UpdateById(b.articles, x, ArticleRepo.MarkUnreadRow()))
  }

  /** `article.toggle_saved` of `x`: the flag flips, a save is recorded when it becomes set, and the answer is the new flag. */
  ghost predicate ToggleSavedDone(b: Tables, a: Tables, x: Id, ctx: Context, reqId: Id, resp: Response)
  {
    a == b.(articles := ArticleRepo.UpdateById(b.articles, x, ArticleRepo.ToggleSavedRow()),
            events := b.events + SaveEventFor(b.articles, x, ctx))
    && resp == (if x in ArticleIds(b.articles) then Success(reqId, IsSaved(!ArticleRepo.FindRow(b.articles, x).value.isSaved))
                else Error(reqId, ERR_INTERNAL, INTERNAL_ERROR_MESSAGE))
  }

  /** `feed.add`: a new url appends `row` and answers it; a known url is an internal error and changes nothing. */
  ghost predicate FeedAddDone(b: Tables, a: Tables, p: FeedAddParams, row: Feed, reqId: Id, resp: Response)
  {
    if FeedRepo.FindByUrl(b.feeds, p.url).Some? then a == b && resp == Error(reqId, ERR_INTERNAL, INTERNAL_ERROR_MESSAGE)
    else a == b.(feeds := b.feeds + [row]) && resp == Success(reqId, FeedAdded(row))
  }

  /** The tables after deleting feed `x`: its articles go, their tags and styles cascade, their events are detached. */
  function AfterFeedDelete(b: Tables, x: Id): (a: Tables)
    ensures x !in FeedIds(a.feeds)
    ensures forall r :: r in a.articles ==> r.feedId != x
    ensures a.preferences == b.preferences
  {
    var articles := Where(b.articles, FeedRepo.OtherArticles(x));
    var ids := ArticleIds(articles);
    Tables(Where(b.feeds, FeedRepo.OtherFeeds(x)), articles, Where(b.tags, ArticleRepo.TagsOf(ids)),
           ArticleRepo.KeepStyles(b.styles, ids), FeedRepo.DetachFeedEvents(b.events, x, ids), b.preferences)
  }

  /** `feed.delete` of `x`: answers whether the feed existed and leaves the tables after its delete. */
  ghost predicate FeedDeleteDone(b: Tables, a: Tables, x: Id, reqId: Id, resp: Response)
  {
    a == AfterFeedDelete(b, x) && resp == Success(reqId, Deleted(x in FeedIds(b.feeds)))
  }

  /**
   * `feed.refresh` without an id: on success each feed holds the outcome of
   * fetching its own url and the answer counts the new articles; tags,
   * styles, events and preferences never change.
   */
  ghost predicate RefreshDone(b: Tables, a: Tables, ctx: Context, reqId: Id, resp: Response)
  {
    (a.tags, a.styles, a.events, a.preferences) == (b.tags, b.styles, b.events, b.preferences)
    && resp.id == reqId && (resp.result.Some? <==> resp.error.None?)
    && (resp.result.Some? ==>
          resp.result.value.NewArticles? && resp.result.value.count == |a.articles| - |b.articles|
          && |a.feeds| == |b.feeds|
          && forall k :: 0 <= k < |b.feeds| ==>
               a.feeds[k] == Tasks.RefreshRow(ctx.fetch(b.feeds[k].url, b.feeds[k].id), ctx.now)(b.feeds[k]))
    && (resp.error.Some? ==> resp.error.value.code == ERR_INTERNAL)
  }

  /** `article.mark_read`: marks the article read and records a click when it exists. */
  method MarkReadRoute(db: Database, reqId: Id, x: Id, ctx: Context) returns (resp: Response)
    requires db.Valid()
    modifies db
    ensures db.Valid()
    ensures resp == OkResponse(reqId)
    ensures MarkReadDone(old(db.State()), db.State(), x, ctx)
    ensures ArticleIds(db.articles) == ArticleIds(old(db.articles))
  {
    var found := ArticleRepo.FindById(db.articles, db.tags, x);
    KeysKept(db.articles, x, ArticleRepo.MarkReadRow(ctx.now));
    ArticleRepo.MarkRead(db, x, ctx.now);
    if found.Some? {
      RecordEvent(db, UserEvent(x, found.value.feedId, Click, ctx));
    }
    resp := OkResponse(reqId);
  }

  /** `article.mark_unread`: clears the read flag; no event is recorded. */
  method MarkUnreadRoute(db: Database, reqId: Id, x: Id) returns (resp: Response)
    requires db.Valid()
    modifies db
    ensures db.Valid()
    ensures resp == OkResponse(reqId)
    ensures MarkUnreadDone(old(db.State()), db.State(), x)
    ensures ArticleIds(db.articles) == ArticleIds(old(db.articles))
  {
    KeysKept(db.articles, x, ArticleRepo.MarkUnreadRow());
    ArticleRepo.MarkUnread(db, x);
    resp := OkResponse(reqId);
  }

  /** `article.toggle_saved`: flips the flag; only a flip to saved records a save event. */
  method ToggleSavedRoute(db: Database, reqId: Id, x: Id, ctx: Context) returns (resp: Response)
    requires db.Valid()
    modifies db
    ensures db.Valid()
    ensures ToggleSavedDone(old(db.State()), db.State(), x, ctx, reqId, resp)
    ensures ArticleIds(db.articles) == ArticleIds(old(db.articles))
  {
    var found := ArticleRepo.FindById(db.articles, db.tags, x);
    KeysKept(db.articles, x, ArticleRepo.ToggleSavedRow());
    var r := ArticleRepo.ToggleSaved(db, x);
    match r {
      case Ok(isSaved) =>
        if isSaved && found.Some? {
          RecordEvent(db, UserEvent(x, found.value.feedId, Save, ctx));
        }
        resp := Success(reqId, IsSaved(isSaved));
      case Err(_) =>
        resp := Error(reqId, ERR_INTERNAL, INTERNAL_ERROR_MESSAGE);
    }
  }

  /** `feed.add`: subscribes under the next UUID; an url already subscribed is an internal error. */
  method AddFeedRoute(db: Database, reqId: Id, p: FeedAddParams, uuid: nat -> Id, next: nat, ctx: Context)
    returns (resp: Response, used: nat)
    requires db.Valid() && Injective(uuid) && Fresh(db, uuid, next)
    modifies db
    ensures db.Valid() && Fresh(db, uuid, next + used) && used == 1
    ensures FeedAddDone(old(db.State()), db.State(), p, FeedRepo.NewRow(NewFeed(p.url, p.name), uuid(next), ctx.now), reqId, resp)
  {
    var r := FeedRepo.Create(db, NewFeed(p.url, p.name), uuid(next), ctx.now);
    used := 1;
    match r {
      case Ok(feed) => resp := Success(reqId, FeedAdded(feed));
      case Err(_) => resp := Error(reqId, ERR_INTERNAL, INTERNAL_ERROR_MESSAGE);
    }
    assert FeedIds(db.feeds) <= FeedIds(old(db.feeds)) + {uuid(next)} by {
      forall f | f in db.feeds ensures f.id in FeedIds(old(db.feeds)) + {uuid(next)} {
        if f !in old(db.feeds) {
          assert f == FeedRepo.NewRow(NewFeed(p.url, p.name), uuid(next), ctx.now);
        }
      }
    }
  }

  /** Deleting rows never makes a used id reappear. */
  lemma FreshAfterDelete(feeds: seq<Feed>, articles: seq<Article>, feeds1: seq<Feed>, articles1: seq<Article>, uuid: nat -> Id, next: nat)
    requires forall f :: f in feeds1 ==> f in feeds
    requires forall a :: a in articles1 ==> a in articles
    requires forall n: nat :: n >= next ==> uuid(n) !in ArticleIds(articles) && uuid(n) !in FeedIds(feeds)
    ensures forall n: nat :: n >= next ==> uuid(n) !in ArticleIds(articles1) && uuid(n) !in FeedIds(feeds1)
  {
    assert ArticleIds(articles1) <= ArticleIds(articles);
    assert FeedIds(feeds1) <= FeedIds(feeds);
  }

  /** `feed.delete`: removes the feed with its articles and reports whether it existed. */
  method DeleteFeedRoute(db: Database, reqId: Id, x: Id, uuid: nat -> Id, next: nat) returns (resp: Response)
    requires db.Valid() && Fresh(db, uuid, next)
    modifies db
    ensures db.Valid() && Fresh(db, uuid, next)
    ensures FeedDeleteDone(old(db.State()), db.State(), x, reqId, resp)
  {
    var deleted := FeedRepo.Delete(db, x);
    FreshAfterDelete(old(db.feeds), old(db.articles), db.feeds, db.articles, uuid, next);
    resp := Success(reqId, Deleted(deleted));
  }

  /** `feed.refresh` without an id: the refresh task over every feed. */
  method RefreshRoute(db: Database, reqId: Id, uuid: nat -> Id, next: nat, ctx: Context) returns (resp: Response, used: nat)
    requires db.Valid() && Injective(uuid) && Fresh(db, uuid, next)
    modifies db
    ensures db.Valid() && Fresh(db, uuid, next + used)
    ensures RefreshDone(old(db.State()), db.State(), ctx, reqId, resp)
  {
    var g := From(uuid, next);
    var r, consumed := Tasks.RefreshAllFeeds(db, ctx.fetch, g, ctx.now);
    used := consumed;
    forall n: nat | n >= next + used ensures uuid(n) !in ArticleIds(db.articles) && uuid(n) !in FeedIds(db.feeds) {
      assert g(n - next) == uuid(n);
    }
    match r {
      case Ok(count) => resp := Success(reqId, NewArticles(count));
      case Err(_) => resp := Error(reqId, ERR_INTERNAL, INTERNAL_ERROR_MESSAGE);
    }
  }

  // ---------------------------------------------------------------- handle_request

  /** The parameters of a mutating route decoded, and `feed.refresh` named no feed. */
  predicate Decoded(req: Request)
  {
    match Route(req.methodName)
    case ArticleMarkRead | ArticleMarkUnread | ArticleToggleSaved | FeedDelete => DecodeId(req.params).Ok?
    case FeedAdd => DecodeFeedAdd(req.params).Ok?
    case FeedRefresh => DecodeOptionalId(req.params) == Ok(None)
    case _ => false
  }

  /** The read-only part answers every request except a decoded mutating one. */
  lemma ReadOnlyLeavesDecoded(feeds: seq<Feed>, articles: seq<Article>, tags: seq<TagRow>, uptimeSecs: nat, req: Request)
    ensures ReadOnlyResponse(feeds, articles, tags, uptimeSecs, req).None? <==> Decoded(req)
  {
  }

  /**
   * What a decoded mutating request does, route by route: the new state of
   * every table, the answer, and how many UUIDs it used.
   */
  ghost predicate RouteDone(req: Request, ctx: Context, uuid: nat -> Id, next: nat, b: Tables, a: Tables, resp: Response, used: nat)
    requires Decoded(req)
  {
    match Route(req.methodName)
    case ArticleMarkRead => MarkReadDone(b, a, DecodeId(req.params).value, ctx) && resp == OkResponse(req.id) && used == 0
    case ArticleMarkUnread => MarkUnreadDone(b, a, DecodeId(req.params).value) && resp == OkResponse(req.id) && used == 0
    case ArticleToggleSaved => ToggleSavedDone(b, a, DecodeId(req.params).value, ctx, req.id, resp) && used == 0
    case FeedAdd =>
      var p := DecodeFeedAdd(req.params).value;
      FeedAddDone(b, a, p, FeedRepo.NewRow(NewFeed(p.url, p.name), uuid(next), ctx.now), req.id, resp) && used == 1
    case FeedDelete => FeedDeleteDone(b, a, DecodeId(req.params).value, req.id, resp) && used == 0
    case FeedRefresh => RefreshDone(b, a, ctx, req.id, resp)
  }

  /** The mutating half of `handle_request`: dispatch to the route's repository operation. */
  method Mutate(db: Database, req: Request, ctx: Context, uuid: nat -> Id, next: nat) returns (resp: Response, used: nat)
    requires db.Valid() && Injective(uuid) && Fresh(db, uuid, next) && Decoded(req)
    modifies db
    ensures db.Valid() && Fresh(db, uuid, next + used)
    ensures resp.id == req.id && (resp.result.Some? <==> resp.error.None?)
    ensures RouteDone(req, ctx, uuid, next, old(db.State()), db.State(), resp, used)
  {
    used := 0;
    match Route(req.methodName) {
      case ArticleMarkRead =>
        resp := MarkReadRoute(db, req.id, DecodeId(req.params).value, ctx);
      case ArticleMarkUnread =>
        resp := MarkUnreadRoute(db, req.id, DecodeId(req.params).value);
      case ArticleToggleSaved =>
        resp := ToggleSavedRoute(db, req.id, DecodeId(req.params).value, ctx);
      case FeedAdd =>
        resp, used := AddFeedRoute(db, req.id, DecodeFeedAdd(req.params).value, uuid, next, ctx);
      case FeedDelete =>
        resp := DeleteFeedRoute(db, req.id, DecodeId(req.params).value, uuid, next);
      case FeedRefresh =>
        resp, used := RefreshRoute(db, req.id, uuid, next, ctx);
    }
  }

  /**
   * `handle_request`: every response echoes the request id. The read-only
   * part leaves the database alone; a decoded mutating route makes exactly
   * its repository change and uses up `used` UUIDs of the generator.
   */
  method HandleRequest(db: Database, req: Request, ctx: Context, uuid: nat -> Id, next: nat) returns (resp: Response, used: nat)
    requires db.Valid() && Injective(uuid) && Fresh(db, uuid, next)
    modifies db
    ensures db.Valid() && Fresh(db, uuid, next + used)
    ensures resp.id == req.id
    ensures resp.result.Some? <==> resp.error.None?
    ensures var ro := ReadOnlyResponse(old(db.feeds), old(db.articles), old(db.tags), ctx.uptimeSecs, req);
      ro.Some? ==> resp == ro.value && unchanged(db) && used == 0
    ensures Decoded(req) ==> RouteDone(req, ctx, uuid, next, old(db.State()), db.State(), resp, used)
  {
    ReadOnlyLeavesDecoded(db.feeds, db.articles, db.tags, ctx.uptimeSecs, req);
    var ro := ReadOnlyResponse(db.feeds, db.articles, db.tags, ctx.uptimeSecs, req);
    if ro.Some? {
      return ro.value, 0;
    }
    resp, used := Mutate(db, req, ctx, uuid, next);
  }

  /** A row update that keeps ids keeps the set of ids. */
  lemma KeysKept(articles: seq<Article>, id: Id, f: Article -> Article)
    requires forall a :: f(a).id == a.id && f(a).feedId == a.feedId && f(a).guid == a.guid
    ensures ArticleIds(ArticleRepo.UpdateById(articles, id, f)) == ArticleIds(articles)
  {
    ArticleRepo.UpdateKeepsKeys(articles, id, f);
  }

  // ---------------------------------------------------------------- handle_connection

  /** One line of a connection: a line that does not parse is answered with a parse error under the nil id. */
  method HandleLine(db: Database, line: string, parse: string -> Result<Request, string>, ctx: Context, uuid: nat -> Id, next: nat)
    returns (resp: Response, used: nat)
    requires db.Valid() && Injective(uuid) && Fresh(db, uuid, next)
    modifies db
    ensures db.Valid() && Fresh(db, uuid, next + used)
    ensures parse(line).Err? ==> resp == Error(NIL_ID, ERR_PARSE, PARSE_ERROR_PREFIX + parse(line).error) && unchanged(db) && used == 0
    ensures parse(line).Ok? ==> resp.id == parse(line).value.id
  {
    match parse(line) {
      case Ok(req) => resp, used := HandleRequest(db, req, ctx, uuid, next);
      case Err(e) => resp, used := Error(NIL_ID, ERR_PARSE, PARSE_ERROR_PREFIX + e), 0;
    }
  }

  /**
   * `handle_connection`: answers every line in order, one response per
   * line; a line that does not parse does not end the connection.
   * `ctxs[k]` is the world as the k-th request sees it.
   */
  method HandleConnection(db: Database, lines: seq<string>, parse: string -> Result<Request, string>, ctxs: seq<Context>, uuid: nat -> Id)
    returns (responses: seq<Response>)
    requires |ctxs| == |lines|
    requires db.Valid() && Injective(uuid) && Fresh(db, uuid, 0)
    modifies db
    ensures db.Valid()
    ensures |responses| == |lines|
    ensures forall k :: 0 <= k < |lines| && parse(lines[k]).Err? ==>
      responses[k] == Error(NIL_ID, ERR_PARSE, PARSE_ERROR_PREFIX + parse(lines[k]).error)
    ensures forall k :: 0 <= k < |lines| && parse(lines[k]).Ok? ==> responses[k].id == parse(lines[k]).value.id
  {
    responses := [];
    var next: nat := 0;
    var k := 0;
    while k < |lines|
      invariant k <= |lines| && |responses| == k
      invariant db.Valid() && Fresh(db, uuid, next)
      invariant forall j :: 0 <= j < k && parse(lines[j]).Err? ==>
        responses[j] == Error(NIL_ID, ERR_PARSE, PARSE_ERROR_PREFIX + parse(lines[j]).error)
      invariant forall j :: 0 <= j < k && parse(lines[j]).Ok? ==> responses[j].id == parse(lines[j]).value.id
      decreases |lines| - k
    {
      var resp, used := HandleLine(db, lines[k], parse, ctxs[k], uuid, next);
      responses := responses + [resp];
      next := next + used;
      k := k + 1;
    }
  }
}
