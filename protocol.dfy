/**
 * The daemon's JSON-RPC style envelope: a request carries an id, a method
 * name and parameters; a response echoes the id and carries either a
 * result or an error with one of the codes of section 5.1 of the JSON-RPC
 * 2.0 specification. Result payloads are the shapes the daemon builds with
 * `json!`; their JSON text form is not modelled.
 */
module Protocol {
  import opened Wrappers
  import opened FeedModels

  /** A JSON value, as far as request parameters need one. Objects are maps, as in `serde_json::Value`. */
  datatype Json = Null | Bool(b: bool) | Number(n: int) | Str(s: string) | Array(items: seq<Json>) | Object(fields: map<string, Json>)

  /** The results the daemon sends back. */
  datatype Payload =
    | OkTrue                                            // {"ok": true}
    | Status(running: bool, uptimeSecs: nat, schedulerRunning: bool)
    | ArticleList(articles: seq<Article>)               // {"articles": [...]}
    | ArticleFound(article: Option<Article>)            // {"article": ... or null}
    | IsSaved(isSaved: bool)
    | FeedList(feeds: seq<Feed>)
    | FeedAdded(feed: Feed)
    | Deleted(deleted: bool)
    | NewArticles(count: nat)

  datatype Request = Request(id: Id, methodName: string, params: Json)

  datatype RpcError = RpcError(code: int, message: string)

  datatype Response = Response(id: Id, result: Option<Payload>, error: Option<RpcError>)

  const ERR_PARSE: int := -32700
  const ERR_INVALID_REQUEST: int := -32600
  const ERR_METHOD_NOT_FOUND: int := -32601
  const ERR_INVALID_PARAMS: int := -32602
  const ERR_INTERNAL: int := -32603
  const ERR_DAEMON_NOT_RUNNING: int := -32000

  /**
   * The five codes are the predefined ones of section 5.1 of the JSON-RPC
   * 2.0 specification, all distinct, in its reserved range -32768..-32000;
   * the daemon's own code lies in the range that section leaves to
   * implementation-defined server errors, -32099..-32000.
   */
  lemma ErrorCodes()
    ensures var codes := [ERR_PARSE, ERR_INVALID_REQUEST, ERR_METHOD_NOT_FOUND, ERR_INVALID_PARAMS, ERR_INTERNAL, ERR_DAEMON_NOT_RUNNING];
      && (forall i, j :: 0 <= i < j < |codes| ==> codes[i] != codes[j])
      && (forall i :: 0 <= i < |codes| ==> -32768 <= codes[i] <= -32000)
    ensures -32099 <= ERR_DAEMON_NOT_RUNNING <= -32000
    ensures !(-32099 <= ERR_PARSE <= -32000) && !(-32099 <= ERR_INTERNAL <= -32000)
  {
  }

  /** `Request::new`: a fresh id and null parameters. */
  function NewRequest(methodName: string, freshId: Id): (r: Request)
    ensures r.methodName == methodName && r.id == freshId && r.params == Null
  {
    Request(freshId, methodName, Null)
  }

  /** `with_params`: replaces the parameters and nothing else. */
  function WithParams(req: Request, params: Json): (r: Request)
    ensures r.params == params && r.id == req.id && r.methodName == req.methodName
  {
    req.(params := params)
  }

  function Success(id: Id, result: Payload): Response
  {
    Response(id, Some(result), None)
  }

  function Error(id: Id, code: int, message: string): Response
  {
    Response(id, None, Some(RpcError(code, message)))
  }

  /** `Response::ok`: success with `{"ok": true}`. */
  function OkResponse(id: Id): Response
  {
    Success(id, OkTrue)
  }

  predicate IsSuccess(r: Response)
  {
    r.error.None?
  }

  /**
   * A success response has a result and no error and is a success; an
   * error response has no result, carries the code and is not a success;
   * both echo the id. `ok` is a success.
   */
  lemma ResponseKinds(id: Id, result: Payload, code: int, message: string)
    ensures Success(id, result).id == id && Success(id, result).result == Some(result) && IsSuccess(Success(id, result))
    ensures Error(id, code, message).id == id && Error(id, code, message).result.None?
    ensures !IsSuccess(Error(id, code, message)) && Error(id, code, message).error.value.code == code
    ensures IsSuccess(OkResponse(id)) && OkResponse(id).result == Some(OkTrue)
  {
  }

  /** Either constructor's response is a success exactly when it is not an error. */
  lemma IsSuccessIffNoError(r: Response)
    requires r.result.Some? <==> r.error.None?
    ensures IsSuccess(r) <==> r.result.Some?
  {
  }

  // ---------------------------------------------------------------- method names

  /** The method names the daemon knows, and `Unknown` for every other name. */
  datatype Method =
    | Ping | StatusMethod
    | ArticleListMethod | ArticleGet | ArticleMarkRead | ArticleMarkUnread | ArticleToggleSaved | ArticleSearch
    | FeedListMethod | FeedAdd | FeedDelete | FeedRefresh
    | Unknown

  function MethodName(m: Method): string
    requires m != Unknown
  {
    match m
    case Ping => "ping"
    case StatusMethod => "status"
    case ArticleListMethod => "article.list"
    case ArticleGet => "article.get"
    case ArticleMarkRead => "article.mark_read"
    case ArticleMarkUnread => "article.mark_unread"
    case ArticleToggleSaved => "article.toggle_saved"
    case ArticleSearch => "article.search"
    case FeedListMethod => "feed.list"
    case FeedAdd => "feed.add"
    case FeedDelete => "feed.delete"
    case FeedRefresh => "feed.refresh"
  }

  /** The dispatch of `handle_request` on the method text. */
  function Route(name: string): Method
  {
    if name == "ping" then Ping
    else if name == "status" then StatusMethod
    else if name == "article.list" then ArticleListMethod
    else if name == "article.get" then ArticleGet
    else if name == "article.mark_read" then ArticleMarkRead
    else if name == "article.mark_unread" then ArticleMarkUnread
    else if name == "article.toggle_saved" then ArticleToggleSaved
    else if name == "article.search" then ArticleSearch
    else if name == "feed.list" then FeedListMethod
    else if name == "feed.add" then FeedAdd
    else if name == "feed.delete" then FeedDelete
    else if name == "feed.refresh" then FeedRefresh
    else Unknown
  }

  /** Every known method is dispatched by its own name, and only by it. */
  lemma RouteMethodName(m: Method, name: string)
    requires m != Unknown
    ensures Route(MethodName(m)) == m
    ensures Route(name) == m ==> name == MethodName(m)
  {
    match m
    case Ping =>
    case StatusMethod =>
    case ArticleListMethod =>
    case ArticleGet =>
    case ArticleMarkRead =>
    case ArticleMarkUnread =>
    case ArticleToggleSaved =>
    case ArticleSearch =>
    case FeedListMethod =>
    case FeedAdd =>
    case FeedDelete =>
    case FeedRefresh =>
  }

  // ---------------------------------------------------------------- parameters

  /** The parameter structs, as `serde_json::from_value` produces them from an object. */
  datatype ArticleListParams = ArticleListParams(feedId: Option<Id>, unreadOnly: bool)
  datatype ArticleSearchParams = ArticleSearchParams(query: string, feedId: Option<Id>)
  datatype FeedAddParams = FeedAddParams(url: string, name: string)

  const INVALID_PARAMS_MESSAGE: string := "invalid params"

  /** A required id field: present and a string. */
  function RequiredString(fields: map<string, Json>, name: string): (r: Result<string, string>)
    ensures r.Ok? <==> name in fields && fields[name].Str?
    ensures r.Ok? ==> r.value == fields[name].s
  {
    if name in fields && fields[name].Str? then Ok(fields[name].s) else Err(INVALID_PARAMS_MESSAGE)
  }

  /** An `Option` field: absent or null is None, a string is Some, anything else fails. */
  function OptionalString(fields: map<string, Json>, name: string): (r: Result<Option<string>, string>)
    ensures r.Ok? <==> name !in fields || fields[name].Null? || fields[name].Str?
    ensures r == Ok(None) <==> name !in fields || fields[name].Null?
    ensures r.Ok? && r.value.Some? ==> r.value.value == fields[name].s
  {
    if name !in fields || fields[name].Null? then Ok(None)
    else if fields[name].Str? then Ok(Some(fields[name].s))
    else Err(INVALID_PARAMS_MESSAGE)
  }

  /** A `#[serde(default)]` bool: absent is false, a boolean is itself, anything else (null included) fails. */
  function DefaultBool(fields: map<string, Json>, name: string): (r: Result<bool, string>)
    ensures r.Ok? <==> name !in fields || fields[name].Bool?
    ensures name !in fields ==> r == Ok(false)
    ensures r.Ok? && name in fields ==> r.value == fields[name].b
  {
    if name !in fields then Ok(false)
    else if fields[name].Bool? then Ok(fields[name].b)
    else Err(INVALID_PARAMS_MESSAGE)
  }

  function DecodeArticleList(p: Json): Result<ArticleListParams, string>
  {
    if !p.Object? then Err(INVALID_PARAMS_MESSAGE)
    else
      match (OptionalString(p.fields, "feed_id"), DefaultBool(p.fields, "unread_only"))
      case (Ok(feedId), Ok(unreadOnly)) => Ok(ArticleListParams(feedId, unreadOnly))
      case _ => Err(INVALID_PARAMS_MESSAGE)
  }

  /** `ArticleIdParams`: a required `id`. */
  function DecodeId(p: Json): Result<Id, string>
  {
    if !p.Object? then Err(INVALID_PARAMS_MESSAGE) else RequiredString(p.fields, "id")
  }

  function DecodeSearch(p: Json): Result<ArticleSearchParams, string>
  {
    if !p.Object? then Err(INVALID_PARAMS_MESSAGE)
    else
      match (RequiredString(p.fields, "query"), OptionalString(p.fields, "feed_id"))
      case (Ok(query), Ok(feedId)) => Ok(ArticleSearchParams(query, feedId))
      case _ => Err(INVALID_PARAMS_MESSAGE)
  }

  function DecodeFeedAdd(p: Json): Result<FeedAddParams, string>
  {
    if !p.Object? then Err(INVALID_PARAMS_MESSAGE)
    else
      match (RequiredString(p.fields, "url"), RequiredString(p.fields, "name"))
      case (Ok(url), Ok(name)) => Ok(FeedAddParams(url, name))
      case _ => Err(INVALID_PARAMS_MESSAGE)
  }

  /** `FeedIdParams`: an optional `id`. */
  function DecodeOptionalId(p: Json): Result<Option<Id>, string>
  {
    if !p.Object? then Err(INVALID_PARAMS_MESSAGE) else OptionalString(p.fields, "id")
  }

  /**
   * The parameters the client sends decode to what it put in them; extra
   * fields are ignored; and null parameters, the default of a request
   * built without any, never decode.
   */
  lemma DecodeRoundTrip(id: Id, feedId: Option<Id>, unreadOnly: bool, query: string, url: string, name: string, extra: map<string, Json>)
    requires "id" !in extra && "feed_id" !in extra && "unread_only" !in extra
    requires "query" !in extra && "url" !in extra && "name" !in extra
    ensures DecodeId(Object(extra[("id") := Str(id)])) == Ok(id)
    ensures DecodeOptionalId(Object(extra[("id") := Str(id)])) == Ok(Some(id))
    ensures DecodeOptionalId(Object(extra)) == Ok(None)
    ensures var f := if feedId.Some? then Str(feedId.value) else Null;
      DecodeArticleList(Object(extra[("feed_id") := f][("unread_only") := Bool(unreadOnly)])) == Ok(ArticleListParams(feedId, unreadOnly))
    ensures DecodeArticleList(Object(extra)) == Ok(ArticleListParams(None, false))
    ensures DecodeSearch(Object(extra[("query") := Str(query)])) == Ok(ArticleSearchParams(query, None))
    ensures DecodeFeedAdd(Object(extra[("url") := Str(url)][("name") := Str(name)])) == Ok(FeedAddParams(url, name))
    ensures DecodeId(Null).Err? && DecodeOptionalId(Null).Err? && DecodeArticleList(Null).Err?
    ensures DecodeSearch(Null).Err? && DecodeFeedAdd(Null).Err?
  {
  }
}
