/**
 * The feed fetcher's own logic: rewriting RSSHub addresses onto the
 * configured instance, the rotating User-Agent, the retry loop with its
 * doubling delay, and the checks on a response before it is parsed.
 * Sending a request, URL syntax and feed parsing are oracles. A response
 * body is a string holding one character per byte.
 */
module Fetcher {
  import opened Wrappers
  import opened Text

  const RSSHUB_PREFIX: string := "rsshub://"
  const RSSHUB_HTTPS: string := "https://rsshub.app/"
  const RSSHUB_HTTP: string := "http://rsshub.app/"
  const MAX_FEED_BYTES: nat := 5 * 1024 * 1024
  const MAX_RETRIES: nat := 3
  const INITIAL_RETRY_DELAY_MS: nat := 500
  /** How much of a body is searched for a challenge page. */
  const CHALLENGE_WINDOW: nat := 2048

  /** What can go wrong while fetching; the message texts are not modelled. */
  datatype FetchError =
    | InvalidRsshubUrl(url: string)
    | InvalidUrl(url: string)
    | Http                                  // the request could not be sent or its body not read
    | HttpStatus(status: nat, url: string)  // a status that is retried, or not a success
    | Forbidden(url: string)                // 403 from a server that is not Cloudflare
    | CloudflareProtection(url: string)     // 403 from Cloudflare
    | CloudflareChallenge(url: string)      // a challenge page served with a success status
    | TooLarge(size: nat, url: string)
    | RetriesExhausted(url: string)

  /** The RSSHub settings of the configuration. */
  datatype Rsshub = Rsshub(baseUrl: string, accessKey: Option<string>)

  // ---------------------------------------------------------------- resolve_url

  /** `trim_end_matches(c)`: drops every trailing `c`. */
  function TrimEndChar(s: string, c: char): (r: string)
    ensures |r| <= |s| && s[..|r|] == r
    ensures forall i :: |r| <= i < |s| ==> s[i] == c
    ensures r == [] || r[|r| - 1] != c
  {
    if s == [] || s[|s| - 1] != c then s else TrimEndChar(s[..|s| - 1], c)
  }

  /** `trim_start_matches(c)`: drops every leading `c`. */
  function TrimStartChar(s: string, c: char): (r: string)
    ensures |r| <= |s| && s[|s| - |r|..] == r
    ensures forall i :: 0 <= i < |s| - |r| ==> s[i] == c
    ensures r == [] || r[0] != c
  {
    if s == [] || s[0] != c then s else TrimStartChar(s[1..], c)
  }

  /** Appends the access key as a query parameter, after `&` when the URL already has a query. */
  function WithAccessKey(url: string, key: Option<string>): (r: string)
    ensures key.None? ==> r == url
    ensures key.Some? ==> StartsWith(r, url) && EndsWith(r, "key=" + key.value) && '?' in r
    ensures key.Some? ==> |r| == |url| + 1 + |"key=" + key.value|
    ensures key.Some? ==> (r[|url|] == '&' <==> '?' in url) && (r[|url|] == '?' <==> '?' !in url)
  {
    match key
    case None => url
    case Some(k) =>
      var sep := if '?' in url then "&" else "?";
      assert (url + sep + "key=" + k)[|url|] == sep[0];
      url + sep + "key=" + k
  }

  /** `convert_rsshub_path`: the path on the configured instance, joined by exactly one `/`. */
  function ConvertRsshubPath(cfg: Rsshub, path: string): (r: string)
    ensures StartsWith(r, TrimEndChar(cfg.baseUrl, '/') + "/")
    ensures cfg.accessKey.None? ==> EndsWith(r, TrimStartChar(path, '/'))
    ensures cfg.accessKey.Some? ==> EndsWith(r, "key=" + cfg.accessKey.value)
  {
    WithAccessKey(TrimEndChar(cfg.baseUrl, '/') + "/" + TrimStartChar(path, '/'), cfg.accessKey)
  }

  /** `convert_rsshub_url`: the path after `rsshub://`; any other text is not an RSSHub URL. */
  function ConvertRsshubUrl(cfg: Rsshub, url: string): (r: Result<string, FetchError>)
    ensures r.Ok? <==> StartsWith(url, RSSHUB_PREFIX)
    ensures r.Err? ==> r.error == InvalidRsshubUrl(url)
  {
    if StartsWith(url, RSSHUB_PREFIX) then Ok(ConvertRsshubPath(cfg, url[|RSSHUB_PREFIX|..]))
    else Err(InvalidRsshubUrl(url))
  }

  /**
   * `resolve_url`: `rsshub://` addresses and addresses on rsshub.app move
   * to the configured instance; any other address is kept when it parses
   * as a URL (`isUrl` stands for the URL parser).
   */
  function ResolveUrl(cfg: Rsshub, url: string, isUrl: string -> bool): (r: Result<string, FetchError>)
    ensures !StartsWith(url, RSSHUB_PREFIX) && !StartsWith(url, RSSHUB_HTTPS) && !StartsWith(url, RSSHUB_HTTP) ==>
      (r.Ok? <==> isUrl(url)) && (r.Ok? ==> r.value == url) && (r.Err? ==> r.error == InvalidUrl(url))
    ensures StartsWith(url, RSSHUB_PREFIX) || StartsWith(url, RSSHUB_HTTPS) || StartsWith(url, RSSHUB_HTTP) ==> r.Ok?
  {
    if StartsWith(url, RSSHUB_PREFIX) then ConvertRsshubUrl(cfg, url)
    else if StartsWith(url, RSSHUB_HTTPS) then Ok(ConvertRsshubPath(cfg, url[|RSSHUB_HTTPS|..]))
    else if StartsWith(url, RSSHUB_HTTP) then Ok(ConvertRsshubPath(cfg, url[|RSSHUB_HTTP|..]))
    else if isUrl(url) then Ok(url)
    else Err(InvalidUrl(url))
  }

  /** The three spellings of an RSSHub route resolve to the same address. */
  lemma ResolveRsshubForms(cfg: Rsshub, path: string, isUrl: string -> bool)
    ensures ResolveUrl(cfg, RSSHUB_PREFIX + path, isUrl) == Ok(ConvertRsshubPath(cfg, path))
    ensures ResolveUrl(cfg, RSSHUB_HTTPS + path, isUrl) == Ok(ConvertRsshubPath(cfg, path))
    ensures ResolveUrl(cfg, RSSHUB_HTTP + path, isUrl) == Ok(ConvertRsshubPath(cfg, path))
  {
    assert (RSSHUB_PREFIX + path)[..|RSSHUB_PREFIX|] == RSSHUB_PREFIX;
    assert (RSSHUB_PREFIX + path)[|RSSHUB_PREFIX|..] == path;
    assert (RSSHUB_HTTPS + path)[..|RSSHUB_HTTPS|] == RSSHUB_HTTPS;
    assert (RSSHUB_HTTPS + path)[|RSSHUB_HTTPS|..] == path;
    assert (RSSHUB_HTTPS + path)[..|RSSHUB_PREFIX|] != RSSHUB_PREFIX by {
      assert (RSSHUB_HTTPS + path)[0] == 'h';
    }
    assert (RSSHUB_HTTP + path)[..|RSSHUB_HTTP|] == RSSHUB_HTTP;
    assert (RSSHUB_HTTP + path)[|RSSHUB_HTTP|..] == path;
    assert (RSSHUB_HTTP + path)[..|RSSHUB_PREFIX|] != RSSHUB_PREFIX by {
      assert (RSSHUB_HTTP + path)[0] == 'h';
    }
    assert !StartsWith(RSSHUB_HTTP + path, RSSHUB_HTTPS) by {
      assert (RSSHUB_HTTP + path)[4] == ':';
    }
  }

  /**
   * Slashes at the end of the base and at the start of the path do not
   * matter: the join has one `/`, with no `/` on either side of it.
   */
  lemma JoinHasOneSlash(cfg: Rsshub, path: string)
    ensures ConvertRsshubPath(cfg.(baseUrl := cfg.baseUrl + "/"), path) == ConvertRsshubPath(cfg, path)
    ensures ConvertRsshubPath(cfg, "/" + path) == ConvertRsshubPath(cfg, path)
    ensures var base := TrimEndChar(cfg.baseUrl, '/');
      var joined := base + "/" + TrimStartChar(path, '/');
      StartsWith(ConvertRsshubPath(cfg, path), joined)
      && joined[|base|] == '/'
      && (|base| > 0 ==> joined[|base| - 1] != '/')
      && (|joined| > |base| + 1 ==> joined[|base| + 1] != '/')
  {
    TrimEndAppended(cfg.baseUrl, '/');
    TrimStartPrepended(path, '/');
    SlashJoin(TrimEndChar(cfg.baseUrl, '/'), TrimStartChar(path, '/'));
  }

  lemma SlashJoin(base: string, tail: string)
    requires base == [] || base[|base| - 1] != '/'
    requires tail == [] || tail[0] != '/'
    ensures var joined := base + "/" + tail;
      joined[|base|] == '/'
      && (|base| > 0 ==> joined[|base| - 1] != '/')
      && (|joined| > |base| + 1 ==> joined[|base| + 1] != '/')
  {
    var joined := base + "/" + tail;
    if |joined| > |base| + 1 {
      assert joined[|base| + 1] == tail[0];
    }
  }

  lemma TrimEndAppended(s: string, c: char)
    ensures TrimEndChar(s + [c], c) == TrimEndChar(s, c)
  {
    assert (s + [c])[..|s + [c]| - 1] == s;
  }

  lemma TrimStartPrepended(s: string, c: char)
    ensures TrimStartChar([c] + s, c) == TrimStartChar(s, c)
  {
    assert ([c] + s)[1..] == s;
  }

  // ---------------------------------------------------------------- the User-Agent pool

  // The agents are written in pieces so that the browser and platform names are visible to the proofs.
  const MOZILLA: string := "Mozilla/5.0 ("
  const MAC_WEBKIT: string := "; Intel Mac OS X 10_15_7) AppleWebKit/"
  const CHROME_MAC: string := MOZILLA + "Macintosh" + MAC_WEBKIT + "537.36" + " (KHTML, like Gecko) " + "Chrome" + "/120.0.0.0 Safari/537.36"
  const CHROME_WINDOWS: string := MOZILLA + "Windows" + " NT 10.0; Win64; x64) AppleWebKit/537.36 (KHTML, like Gecko) " + "Chrome" + "/120.0.0.0 Safari/537.36"
  const FIREFOX_MAC: string := MOZILLA + "Macintosh" + "; Intel Mac OS X 10.15; rv:121.0) Gecko/20100101 " + "Firefox" + "/121.0"
  const FIREFOX_WINDOWS: string := MOZILLA + "Windows" + " NT 10.0; Win64; x64; rv:121.0) Gecko/20100101 " + "Firefox" + "/121.0"
  const SAFARI_MAC: string := MOZILLA + "Macintosh" + MAC_WEBKIT + "605.1.15" + " (KHTML, like Gecko) Version/17.2 Safari/605.1.15"
  const EDGE_WINDOWS: string := MOZILLA + "Windows" + " NT 10.0; Win64; x64) AppleWebKit/537.36 (KHTML, like Gecko) " + "Chrome" + "/120.0.0.0 Safari/537.36 Edg/120.0.0.0"

  /** The rotating pool, in order. */
  const USER_AGENTS: seq<string> := [CHROME_MAC, CHROME_WINDOWS, FIREFOX_MAC, FIREFOX_WINDOWS, SAFARI_MAC, EDGE_WINDOWS]

  /** An `AtomicUsize` wraps around at 2^64. */
  const USIZE_MODULUS: nat := 0x1_0000_0000_0000_0000

  /** The agent handed out when the counter reads `index`. */
  function AgentAt(index: nat): (ua: string)
    ensures ua in USER_AGENTS
  {
    USER_AGENTS[index % |USER_AGENTS|]
  }

  /** The process-wide rotation counter behind `next_user_agent`. */
  class AgentRotation {
    var index: nat

    ghost predicate Valid()
      reads this
    {
      index < USIZE_MODULUS
    }

    constructor()
      ensures Valid() && index == 0
    {
      index := 0;
    }

    /** `next_user_agent`: the agent at the counter, then the counter moves on by one. */
    method Next() returns (ua: string)
      requires Valid()
      modifies this
      ensures Valid()
      ensures ua == AgentAt(old(index))
      ensures index == (old(index) + 1) % USIZE_MODULUS
    {
      ua := AgentAt(index);
      index := (index + 1) % USIZE_MODULUS;
    }
  }

  /** The agents `n` calls in a row hand out, from the counter at `index`. */
  function AgentsFrom(index: nat, n: nat): (uas: seq<string>)
    ensures |uas| == n
    ensures forall j :: 0 <= j < n ==> uas[j] == AgentAt(index + j)
  {
    seq(n, j requires 0 <= j < n => AgentAt(index + j))
  }

  /** The rotation repeats every six calls, and six calls in a row hand out six different agents. */
  lemma AgentCycle(index: nat)
    ensures AgentAt(index + |USER_AGENTS|) == AgentAt(index)
    ensures var uas := AgentsFrom(index, |USER_AGENTS|);
      forall j, k :: 0 <= j < k < |uas| ==> uas[j] != uas[k]
  {
    ShiftMod(index, 6);
    var uas := AgentsFrom(index, |USER_AGENTS|);
    forall j, k | 0 <= j < k < |uas| ensures uas[j] != uas[k] {
      ShiftMod(index, j);
      ShiftMod(index, k);
      AgentsDistinct((index + j) % 6, (index + k) % 6);
    }
  }

  /** Moving on `j <= 6` steps moves the pool position by `j`, wrapping once at most. */
  lemma ShiftMod(index: nat, j: nat)
    requires j <= 6
    ensures (index + j) % 6 == if index % 6 + j < 6 then index % 6 + j else index % 6 + j - 6
  {
    var q := index / 6;
    assert index == 6 * q + index % 6;
    var t := index % 6 + j;
    assert index + j == 6 * q + t;
    if t < 6 {
      assert (6 * q + t) % 6 == t;
    } else {
      assert 6 * q + t == 6 * (q + 1) + (t - 6);
    }
  }

  lemma AgentsDistinct(a: nat, b: nat)
    requires a < 6 && b < 6 && a != b
    ensures USER_AGENTS[a] != USER_AGENTS[b]
  {
    assert |CHROME_MAC| == 117 && |CHROME_WINDOWS| == 111 && |FIREFOX_MAC| == 84;
    assert |FIREFOX_WINDOWS| == 80 && |SAFARI_MAC| == 117 && |EDGE_WINDOWS| == 125;
    ChromeIsNotSafari();
  }

  /** The two agents of equal length part at the WebKit version. */
  lemma ChromeIsNotSafari()
    ensures CHROME_MAC != SAFARI_MAC
  {
    var prefix := MOZILLA + "Macintosh" + MAC_WEBKIT;
    var chromeTail: string := "537.36";
    var safariTail: string := "605.1.15";
    assert chromeTail[0] == '5' && safariTail[0] == '6';
    assert CHROME_MAC[|prefix|] == chromeTail[0];
    assert SAFARI_MAC[|prefix|] == safariTail[0];
  }

  /** A piece of a concatenation occurs in it. */
  lemma ContainsPiece(a: string, p: string, b: string)
    ensures Contains(a + p + b, p)
  {
    assert OccursAt(a + p + b, p, |a|) by {
      assert (a + p + b)[|a|..|a| + |p|] == p;
    }
  }

  lemma ContainsExtended(s: string, p: string, t: string)
    requires Contains(s, p)
    ensures Contains(s + t, p)
  {
    var i :| 0 <= i <= |s| && OccursAt(s, p, i);
    assert (s + t)[i..i + |p|] == s[i..i + |p|];
    assert OccursAt(s + t, p, i);
  }

  /** From a fresh counter: Chrome on a Mac, then Chrome on Windows, then Firefox on a Mac. */
  lemma FirstThreeAgents()
    ensures Contains(AgentAt(0), "Chrome") && Contains(AgentAt(0), "Macintosh")
    ensures Contains(AgentAt(1), "Chrome") && Contains(AgentAt(1), "Windows")
    ensures Contains(AgentAt(2), "Firefox") && Contains(AgentAt(2), "Macintosh")
  {
    var mac, win := MOZILLA + "Macintosh", MOZILLA + "Windows";
    var chromeMacHead := mac + MAC_WEBKIT + "537.36" + " (KHTML, like Gecko) ";
    ContainsPiece(chromeMacHead, "Chrome", "/120.0.0.0 Safari/537.36");
    ContainsPiece(MOZILLA, "Macintosh", MAC_WEBKIT);
    ContainsExtended(mac + MAC_WEBKIT, "Macintosh", "537.36");
    ContainsExtended(mac + MAC_WEBKIT + "537.36", "Macintosh", " (KHTML, like Gecko) ");
    ContainsExtended(chromeMacHead, "Macintosh", "Chrome");
    ContainsExtended(chromeMacHead + "Chrome", "Macintosh", "/120.0.0.0 Safari/537.36");
    var chromeWinHead := win + " NT 10.0; Win64; x64) AppleWebKit/537.36 (KHTML, like Gecko) ";
    ContainsPiece(chromeWinHead, "Chrome", "/120.0.0.0 Safari/537.36");
    ContainsPiece(MOZILLA, "Windows", " NT 10.0; Win64; x64) AppleWebKit/537.36 (KHTML, like Gecko) ");
    ContainsExtended(chromeWinHead, "Windows", "Chrome");
    ContainsExtended(chromeWinHead + "Chrome", "Windows", "/120.0.0.0 Safari/537.36");
    var firefoxMacHead := mac + "; Intel Mac OS X 10.15; rv:121.0) Gecko/20100101 ";
    ContainsPiece(firefoxMacHead, "Firefox", "/121.0");
    ContainsPiece(MOZILLA, "Macintosh", "; Intel Mac OS X 10.15; rv:121.0) Gecko/20100101 ");
    ContainsExtended(firefoxMacHead, "Macintosh", "Firefox");
    ContainsExtended(firefoxMacHead + "Firefox", "Macintosh", "/121.0");
  }

  // ---------------------------------------------------------------- fetch_with_retry

  /** What one attempt gave: no response, or a status and the body when it could be read. */
  datatype Attempt = SendFailed | Received(status: nat, body: Option<string>)

  predicate RetriedStatus(status: nat)
  {
    status == 429 || status == 503
  }

  /**
   * The retry loop from `attempt` on, with the delay now at `delay`: the
   * outcome, and the delays slept, in order. A 429 or 503 always sleeps,
   * a 403 sleeps and tries again unless it is the last attempt, a failed
   * send or body read sleeps unless it is the last attempt; the first
   * other response whose body was read is the result.
   */
  function RetryFrom(respond: nat -> Attempt, url: string, attempt: nat, delay: nat, lastError: Option<FetchError>): (out: (Result<(nat, string), FetchError>, seq<nat>))
    decreases MAX_RETRIES - attempt
  {
    if attempt >= MAX_RETRIES then (Err(lastError.UnwrapOr(RetriesExhausted(url))), [])
    else
      match respond(attempt)
      case Received(status, body) =>
        if RetriedStatus(status) then
          var rest := RetryFrom(respond, url, attempt + 1, delay * 2, Some(HttpStatus(status, url)));
          (rest.0, [delay] + rest.1)
        else if status == 403 && attempt < MAX_RETRIES - 1 then
          var rest := RetryFrom(respond, url, attempt + 1, delay * 2, Some(Forbidden(url)));
          (rest.0, [delay] + rest.1)
        else if body.Some? then (Ok((status, body.value)), [])
        else FailedAttempt(respond, url, attempt, delay)
      case SendFailed => FailedAttempt(respond, url, attempt, delay)
  }

  function FailedAttempt(respond: nat -> Attempt, url: string, attempt: nat, delay: nat): (out: (Result<(nat, string), FetchError>, seq<nat>))
    requires attempt < MAX_RETRIES
    decreases MAX_RETRIES - attempt, 0
  {
    if attempt < MAX_RETRIES - 1 then
      var rest := RetryFrom(respond, url, attempt + 1, delay * 2, Some(Http));
      (rest.0, [delay] + rest.1)
    else RetryFrom(respond, url, attempt + 1, delay, Some(Http))
  }

  function Pow2(n: nat): nat
  {
    if n == 0 then 1 else 2 * Pow2(n - 1)
  }

  /**
   * The delays slept are the initial delay doubled each time, one per
   * attempt at most; a result comes from an attempt whose status is not
   * retried and whose body was read, and a 403 only from the last attempt.
   */
  lemma {:induction false} RetryFromSpec(respond: nat -> Attempt, url: string, attempt: nat, delay: nat, lastError: Option<FetchError>)
    requires attempt <= MAX_RETRIES
    ensures var out := RetryFrom(respond, url, attempt, delay, lastError);
      |out.1| <= MAX_RETRIES - attempt
      && (forall k :: 0 <= k < |out.1| ==> out.1[k] == delay * Pow2(k))
      && (out.0.Ok? ==> exists k :: attempt <= k < MAX_RETRIES && respond(k) == Received(out.0.value.0, Some(out.0.value.1))
                          && !RetriedStatus(out.0.value.0) && (out.0.value.0 == 403 ==> k == MAX_RETRIES - 1))
    decreases MAX_RETRIES - attempt
  {
    if attempt < MAX_RETRIES {
      var out := RetryFrom(respond, url, attempt, delay, lastError);
      match respond(attempt)
      case Received(status, body) =>
        if RetriedStatus(status) {
          RetryFromSpec(respond, url, attempt + 1, delay * 2, Some(HttpStatus(status, url)));
          DoubledDelays(RetryFrom(respond, url, attempt + 1, delay * 2, Some(HttpStatus(status, url))).1, delay);
        } else if status == 403 && attempt < MAX_RETRIES - 1 {
          RetryFromSpec(respond, url, attempt + 1, delay * 2, Some(Forbidden(url)));
          DoubledDelays(RetryFrom(respond, url, attempt + 1, delay * 2, Some(Forbidden(url))).1, delay);
        } else if body.Some? {
        } else {
          FailedAttemptSpec(respond, url, attempt, delay);
        }
      case SendFailed =>
        FailedAttemptSpec(respond, url, attempt, delay);
    }
  }

  lemma {:induction false} FailedAttemptSpec(respond: nat -> Attempt, url: string, attempt: nat, delay: nat)
    requires attempt < MAX_RETRIES
    ensures var out := FailedAttempt(respond, url, attempt, delay);
      |out.1| <= MAX_RETRIES - attempt
      && (forall k :: 0 <= k < |out.1| ==> out.1[k] == delay * Pow2(k))
      && (out.0.Ok? ==> exists k :: attempt <= k < MAX_RETRIES && respond(k) == Received(out.0.value.0, Some(out.0.value.1))
                          && !RetriedStatus(out.0.value.0) && (out.0.value.0 == 403 ==> k == MAX_RETRIES - 1))
    decreases MAX_RETRIES - attempt, 0
  {
    if attempt < MAX_RETRIES - 1 {
      RetryFromSpec(respond, url, attempt + 1, delay * 2, Some(Http));
      DoubledDelays(RetryFrom(respond, url, attempt + 1, delay * 2, Some(Http)).1, delay);
    } else {
      assert RetryFrom(respond, url, attempt + 1, delay, Some(Http)) == (Err(Http), []);
    }
  }

  /** Prepending `delay` to delays that start at twice it keeps the doubling. */
  lemma DoubledDelays(rest: seq<nat>, delay: nat)
    requires forall k :: 0 <= k < |rest| ==> rest[k] == delay * 2 * Pow2(k)
    ensures forall k :: 0 <= k < |[delay] + rest| ==> ([delay] + rest)[k] == delay * Pow2(k)
  {
    forall k | 0 <= k < |[delay] + rest| ensures ([delay] + rest)[k] == delay * Pow2(k) {
      if k > 0 {
        assert ([delay] + rest)[k] == rest[k - 1];
        assert Pow2(k) == 2 * Pow2(k - 1);
      }
    }
  }

  /** A result never comes back without a response, and three failed sends end in the HTTP error. */
  lemma RetryOutcomes(url: string)
    ensures RetryFrom((k: nat) => SendFailed, url, 0, INITIAL_RETRY_DELAY_MS, None) == (Err(Http), [500, 1000])
    ensures RetryFrom((k: nat) => Received(429, Some("")), url, 0, INITIAL_RETRY_DELAY_MS, None) == (Err(HttpStatus(429, url)), [500, 1000, 2000])
    ensures RetryFrom((k: nat) => Received(403, Some("x")), url, 0, INITIAL_RETRY_DELAY_MS, None) == (Ok((403, "x")), [500, 1000])
  {
    var down: nat -> Attempt := (k: nat) => SendFailed;
    assert RetryFrom(down, url, 3, 2000, Some(Http)) == (Err(Http), []);
    assert FailedAttempt(down, url, 2, 2000) == (Err(Http), []);
    assert RetryFrom(down, url, 2, 2000, Some(Http)) == (Err(Http), []);
    assert [1000] + [] == [1000];
    assert FailedAttempt(down, url, 1, 1000) == (Err(Http), [1000] + []);
    assert RetryFrom(down, url, 1, 1000, Some(Http)) == (Err(Http), [1000]);
    assert [500] + [1000] == [500, 1000];
    assert FailedAttempt(down, url, 0, 500) == (Err(Http), [500, 1000]);
    var busy: nat -> Attempt := (k: nat) => Received(429, Some(""));
    var e := Some(HttpStatus(429, url));
    assert RetryFrom(busy, url, 3, 4000, e) == (Err(HttpStatus(429, url)), []);
    assert [2000] + [] == [2000] && [1000] + [2000] == [1000, 2000] && [500] + [1000, 2000] == [500, 1000, 2000];
    assert RetryFrom(busy, url, 2, 2000, e) == (Err(HttpStatus(429, url)), [2000]);
    assert RetryFrom(busy, url, 1, 1000, e) == (Err(HttpStatus(429, url)), [1000, 2000]);
    var blocked: nat -> Attempt := (k: nat) => Received(403, Some("x"));
    assert RetryFrom(blocked, url, 2, 2000, Some(Forbidden(url))) == (Ok((403, "x")), []);
    assert RetryFrom(blocked, url, 1, 1000, Some(Forbidden(url))) == (Ok((403, "x")), [1000]);
    assert [500] + [1000] == [500, 1000];
  }

  /**
   * `fetch_with_retry`: up to three attempts, each with the next agent of
   * the rotation. `respond(k)` is what the k-th attempt gets back.
   */
  method FetchWithRetry(agents: AgentRotation, respond: nat -> Attempt, url: string)
    returns (r: Result<(nat, string), FetchError>, delays: seq<nat>, used: seq<string>)
    requires agents.Valid()
    modifies agents
    ensures agents.Valid()
    ensures (r, delays) == RetryFrom(respond, url, 0, INITIAL_RETRY_DELAY_MS, None)
    ensures 1 <= |used| <= MAX_RETRIES
    ensures used == AgentsWrapping(old(agents.index), |used|)
  {
    var lastError: Option<FetchError> := None;
    var delay := INITIAL_RETRY_DELAY_MS;
    delays, used := [], [];
    var attempt: nat := 0;
    ghost var start := agents.index;
    ghost var whole := RetryFrom(respond, url, 0, INITIAL_RETRY_DELAY_MS, None);
    assert whole.1 == delays + whole.1;
    while attempt < MAX_RETRIES
      invariant attempt <= MAX_RETRIES
      invariant agents.Valid()
      invariant used == AgentsWrapping(start, attempt)
      invariant agents.index == CounterAfter(start, attempt)
      invariant whole.0 == RetryFrom(respond, url, attempt, delay, lastError).0
      invariant whole.1 == delays + RetryFrom(respond, url, attempt, delay, lastError).1
      decreases MAX_RETRIES - attempt
    {
      used := TakeAgent(agents, start, used);
      var result, slept;
      result, slept, delay, lastError := AttemptOnce(respond, url, attempt, delay, lastError);
      if result.Some? {
        assert delays + [] == delays;
        r := Ok(result.value);
        return;
      }
      ghost var next := RetryFrom(respond, url, attempt + 1, delay, lastError);
      assert delays + (slept + next.1) == (delays + slept) + next.1;
      delays := delays + slept;
      attempt := attempt + 1;
    }
    assert delays + [] == delays;
    r := Err(lastError.UnwrapOr(RetriesExhausted(url)));
  }

  /**
   * One pass of the retry loop once its agent is chosen: either the loop
   * ends with `result`, or it goes on with the next delay and error after
   * sleeping `slept`. A 429 or 503, or a 403 before the last attempt,
   * sleeps and doubles the delay; a failed send or body read does so
   * unless it was the last attempt.
   */
  method AttemptOnce(respond: nat -> Attempt, url: string, attempt: nat, delay: nat, lastError: Option<FetchError>)
    returns (result: Option<(nat, string)>, slept: seq<nat>, delay': nat, lastError': Option<FetchError>)
    requires attempt < MAX_RETRIES
    ensures result.Some? ==> RetryFrom(respond, url, attempt, delay, lastError) == (Ok(result.value), [])
    ensures result.None? ==>
      var next := RetryFrom(respond, url, attempt + 1, delay', lastError');
      RetryFrom(respond, url, attempt, delay, lastError) == (next.0, slept + next.1)
  {
    match respond(attempt) {
      case Received(status, body) =>
        if RetriedStatus(status) || (status == 403 && attempt < MAX_RETRIES - 1) {
          var e := if RetriedStatus(status) then HttpStatus(status, url) else Forbidden(url);
          RetryAgain(respond, url, attempt, delay, lastError, status, body);
          return None, [delay], delay * 2, Some(e);
        }
        if body.Some? {
          RetryDone(respond, url, attempt, delay, lastError, status, body.value);
          return Some((status, body.value)), [], delay, lastError;
        }
        RetryFailed(respond, url, attempt, delay, lastError);
      case SendFailed =>
        RetryFailed(respond, url, attempt, delay, lastError);
    }
    if attempt < MAX_RETRIES - 1 {
      return None, [delay], delay * 2, Some(Http);
    }
    assert [] + RetryFrom(respond, url, attempt + 1, delay, Some(Http)).1 == RetryFrom(respond, url, attempt + 1, delay, Some(Http)).1;
    return None, [], delay, Some(Http);
  }

  /** One turn of the rotation inside the retry loop: the agent for the next attempt. */
  method TakeAgent(agents: AgentRotation, ghost start: nat, used: seq<string>) returns (used': seq<string>)
    requires agents.Valid() && used == AgentsWrapping(start, |used|)
    requires agents.index == CounterAfter(start, |used|)
    modifies agents
    ensures agents.Valid() && used' == AgentsWrapping(start, |used| + 1)
    ensures agents.index == CounterAfter(start, |used'|)
  {
    var ua := agents.Next();
    NextIndex(start + |used|);
    AgentsWrappingStep(start, |used|);
    used' := used + [ua];
  }

  /** An attempt that is retried: sleep, double the delay, remember why. */
  lemma RetryAgain(respond: nat -> Attempt, url: string, attempt: nat, delay: nat, lastError: Option<FetchError>, status: nat, body: Option<string>)
    requires attempt < MAX_RETRIES && respond(attempt) == Received(status, body)
    requires RetriedStatus(status) || (status == 403 && attempt < MAX_RETRIES - 1)
    ensures var next := RetryFrom(respond, url, attempt + 1, delay * 2, Some(if RetriedStatus(status) then HttpStatus(status, url) else Forbidden(url)));
      RetryFrom(respond, url, attempt, delay, lastError) == (next.0, [delay] + next.1)
  {
  }

  /** An attempt whose status is kept and whose body was read ends the loop. */
  lemma RetryDone(respond: nat -> Attempt, url: string, attempt: nat, delay: nat, lastError: Option<FetchError>, status: nat, body: string)
    requires attempt < MAX_RETRIES && respond(attempt) == Received(status, Some(body))
    requires !RetriedStatus(status) && !(status == 403 && attempt < MAX_RETRIES - 1)
    ensures RetryFrom(respond, url, attempt, delay, lastError) == (Ok((status, body)), [])
  {
  }

  /** A failed send, or a body that could not be read. */
  lemma RetryFailed(respond: nat -> Attempt, url: string, attempt: nat, delay: nat, lastError: Option<FetchError>)
    requires attempt < MAX_RETRIES
    requires respond(attempt).SendFailed? || (respond(attempt).body.None? && !RetriedStatus(respond(attempt).status)
                                              && !(respond(attempt).status == 403 && attempt < MAX_RETRIES - 1))
    ensures RetryFrom(respond, url, attempt, delay, lastError) == FailedAttempt(respond, url, attempt, delay)
  {
  }

  /** The counter after `n` increments from `start`, wrapping at 2^64. */
  function CounterAfter(start: nat, n: nat): nat
  {
    (start + n) % USIZE_MODULUS
  }

  /** The `n` agents handed out from counter value `start` on, the counter wrapping at 2^64. */
  function AgentsWrapping(start: nat, n: nat): (uas: seq<string>)
    ensures |uas| == n
    ensures forall k :: 0 <= k < n ==> uas[k] == AgentAt(CounterAfter(start, k))
  {
    seq(n, k requires 0 <= k < n => AgentAt(CounterAfter(start, k)))
  }

  lemma AgentsWrappingStep(start: nat, n: nat)
    ensures AgentsWrapping(start, n + 1) == AgentsWrapping(start, n) + [AgentAt(CounterAfter(start, n))]
  {
    assert AgentsWrapping(start, n + 1) == AgentsWrapping(start, n) + [AgentAt(CounterAfter(start, n))];
  }

  /** Taking the counter modulo 2^64 before or after an increment gives the same value. */
  lemma NextIndex(a: nat)
    ensures (a % USIZE_MODULUS + 1) % USIZE_MODULUS == (a + 1) % USIZE_MODULUS
  {
    var q := a / USIZE_MODULUS;
    assert a == q * USIZE_MODULUS + a % USIZE_MODULUS;
    assert a + 1 == q * USIZE_MODULUS + (a % USIZE_MODULUS + 1);
  }

  // ---------------------------------------------------------------- checks on the response

  /** `ensure_content_size`: at most 5 MiB. */
  function EnsureContentSize(size: nat, url: string): (r: Result<(), FetchError>)
    ensures r.Ok? <==> size <= MAX_FEED_BYTES
    ensures r.Err? ==> r.error == TooLarge(size, url)
  {
    if size > MAX_FEED_BYTES then Err(TooLarge(size, url)) else Ok(())
  }

  const CHALLENGE_MARKERS: seq<string> := ["Just a moment...", "cf-browser-verification", "_cf_chl_opt", "challenge-platform"]

  /**
   * `is_cloudflare_challenge`: a marker in the first 2048 bytes. The
   * markers are ASCII, and lossy UTF-8 decoding keeps every ASCII byte, so
   * the search runs on the bytes themselves.
   */
  predicate IsCloudflareChallenge(content: string)
  {
    var preview := content[..if |content| < CHALLENGE_WINDOW then |content| else CHALLENGE_WINDOW];
    exists m :: m in CHALLENGE_MARKERS && Contains(preview, m)
  }

  /** Only the first 2048 bytes are inspected: what follows them never matters. */
  lemma ChallengeWindow(content: string, tail: string)
    requires |content| >= CHALLENGE_WINDOW
    ensures IsCloudflareChallenge(content + tail) <==> IsCloudflareChallenge(content)
    ensures IsCloudflareChallenge(content) <==> IsCloudflareChallenge(content[..CHALLENGE_WINDOW])
  {
    assert (content + tail)[..CHALLENGE_WINDOW] == content[..CHALLENGE_WINDOW];
    assert content[..CHALLENGE_WINDOW][..CHALLENGE_WINDOW] == content[..CHALLENGE_WINDOW];
  }

  /** A page that opens with a marker is a challenge; a marker that starts past the window is not seen. */
  lemma ChallengeMarkerPosition(m: string, rest: string, pad: string)
    requires m in CHALLENGE_MARKERS
    requires |pad| >= CHALLENGE_WINDOW
    requires forall m' :: m' in CHALLENGE_MARKERS ==> !Contains(pad[..CHALLENGE_WINDOW], m')
    ensures IsCloudflareChallenge(m + rest)
    ensures !IsCloudflareChallenge(pad + m)
  {
    var page := m + rest;
    var preview := page[..if |page| < CHALLENGE_WINDOW then |page| else CHALLENGE_WINDOW];
    assert OccursAt(preview, m, 0) by {
      assert |m| <= 23;
      assert preview[..|m|] == m;
    }
    assert (pad + m)[..CHALLENGE_WINDOW] == pad[..CHALLENGE_WINDOW];
  }

  /** Response headers, with lower-case names. */
  type Headers = map<string, string>

  /** A 403 is Cloudflare's when `cf-mitigated` is present or the server header mentions cloudflare. */
  predicate IsCloudflareBlock(headers: Headers)
  {
    "cf-mitigated" in headers || ("server" in headers && Contains(headers["server"], "cloudflare"))
  }

  predicate IsSuccessStatus(status: nat)
  {
    200 <= status <= 299
  }

  /**
   * The checks `fetch` and `fetch_raw` make on what the retry loop
   * returned, in their order: size, then a 403, then any other failure
   * status, then a challenge page.
   */
  function CheckResponse(status: nat, headers: Headers, content: string, url: string): (r: Result<string, FetchError>)
    ensures r.Ok? <==> |content| <= MAX_FEED_BYTES && IsSuccessStatus(status) && !IsCloudflareChallenge(content)
    ensures r.Ok? ==> r.value == content
    ensures |content| > MAX_FEED_BYTES ==> r == Err(TooLarge(|content|, url))
    ensures |content| <= MAX_FEED_BYTES && status == 403 ==>
      r == Err(if IsCloudflareBlock(headers) then CloudflareProtection(url) else Forbidden(url))
    ensures r.Err? && r.error.CloudflareChallenge? ==> IsSuccessStatus(status)
  {
    if |content| > MAX_FEED_BYTES then Err(TooLarge(|content|, url))
    else if status == 403 then
      if IsCloudflareBlock(headers) then Err(CloudflareProtection(url)) else Err(Forbidden(url))
    else if !IsSuccessStatus(status) then Err(HttpStatus(status, url))
    else if IsCloudflareChallenge(content) then Err(CloudflareChallenge(url))
    else Ok(content)
  }

  /**
   * `fetch_raw`: resolve the address, fetch with retries, check the
   * response. `fetch` hands the checked body to the feed parser.
   */
  method FetchRaw(cfg: Rsshub, agents: AgentRotation, url: string, isUrl: string -> bool, respond: nat -> Attempt, headers: Headers)
    returns (r: Result<string, FetchError>)
    requires agents.Valid()
    modifies agents
    ensures agents.Valid()
    ensures ResolveUrl(cfg, url, isUrl).Err? ==> r == Err(ResolveUrl(cfg, url, isUrl).error) && agents.index == old(agents.index)
    ensures ResolveUrl(cfg, url, isUrl).Ok? ==>
      var resolved := ResolveUrl(cfg, url, isUrl).value;
      var fetched := RetryFrom(respond, resolved, 0, INITIAL_RETRY_DELAY_MS, None).0;
      r == (if fetched.Err? then Err(fetched.error) else CheckResponse(fetched.value.0, headers, fetched.value.1, resolved))
  {
    var resolved := ResolveUrl(cfg, url, isUrl);
    if resolved.Err? {
      return Err(resolved.error);
    }
    var fetched, _, _ := FetchWithRetry(agents, respond, resolved.value);
    if fetched.Err? {
      return Err(fetched.error);
    }
    r := CheckResponse(fetched.value.0, headers, fetched.value.1, resolved.value);
  }
}
