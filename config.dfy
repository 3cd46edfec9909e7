/**
 * The application configuration: its defaults, the data paths derived from
 * it, and the theme entry that may be written either as a bare name or as
 * a table. The platform directories (home and local data) are parameters.
 */
module Config {
  import opened Wrappers
  import opened Text
  import ProfileFilter
  import Fetcher

  // ---------------------------------------------------------------- paths

  /**
   * `Path::join` on Unix paths: an absolute path replaces the base;
   * otherwise one `/` is inserted unless the base is empty or already ends
   * with one.
   */
  function JoinPath(base: string, p: string): (r: string)
    ensures StartsWith(p, "/") ==> r == p
    ensures !StartsWith(p, "/") ==> StartsWith(r, base) && EndsWith(r, p)
    ensures !StartsWith(p, "/") && |base| > 0 ==> |r| > |p| && r[|r| - |p| - 1] == '/'
    ensures !StartsWith(p, "/") ==> |r| <= |base| + 1 + |p|
    ensures !StartsWith(p, "/") ==> r == base + Separator(base) + p
  {
    if StartsWith(p, "/") then p
    else
      var r := base + Separator(base) + p;
      assert r[..|base|] == base;
      assert r[|r| - |p|..] == p;
      r
  }

  /** What joining puts between a base and a relative path. */
  function Separator(base: string): string
  {
    if |base| > 0 && base[|base| - 1] != '/' then "/" else ""
  }

  /**
   * `expand_tilde`: "~/x" becomes x under the home directory and "~"
   * the home directory itself; any other path, or any path when there is
   * no home directory, is returned unchanged.
   */
  function ExpandTilde(path: string, home: Option<string>): (r: string)
    ensures home.None? ==> r == path
    ensures !StartsWith(path, "~/") && path != "~" ==> r == path
    ensures path == "~" && home.Some? ==> r == home.value
    ensures StartsWith(path, "~/") && home.Some? ==> r == JoinPath(home.value, path[2..])
  {
    if StartsWith(path, "~/") then
      if home.Some? then JoinPath(home.value, path[2..]) else path
    else if path == "~" then
      if home.Some? then home.value else path
    else path
  }

  /** A relative path under "~/" lands under the home directory, separated by one `/`. */
  lemma ExpandTildeUnderHome(rest: string, home: string)
    requires !StartsWith(rest, "/") && |home| > 0
    ensures var r := ExpandTilde("~/" + rest, Some(home));
      StartsWith(r, home) && EndsWith(r, rest) && |r| > |rest| && r[|r| - |rest| - 1] == '/'
  {
    var path := "~/" + rest;
    assert path[..2] == "~/";
    assert path[2..] == rest;
    assert ExpandTilde(path, Some(home)) == JoinPath(home, rest);
  }

  /** Paths that do not start with a tilde are left alone, whatever the home directory. */
  lemma ExpandTildeLeavesOthers(path: string, home: Option<string>)
    requires |path| == 0 || path[0] != '~'
    ensures ExpandTilde(path, home) == path
  {
  }

  const DB_FILE_NAME: string := "kenseader.db"
  const SOCKET_FILE_NAME: string := "kenseader.sock"

  /** `database_path`: the database file inside the expanded data directory. */
  function DatabasePath(c: AppConfig, home: Option<string>): (r: string)
    ensures StartsWith(r, ExpandTilde(c.general.dataDir, home)) && EndsWith(r, DB_FILE_NAME)
    ensures |ExpandTilde(c.general.dataDir, home)| > 0 ==> |r| > |DB_FILE_NAME| && r[|r| - |DB_FILE_NAME| - 1] == '/'
  {
    assert DB_FILE_NAME[0] == 'k';
    JoinPath(ExpandTilde(c.general.dataDir, home), DB_FILE_NAME)
  }

  /** `socket_path`: the IPC socket inside the expanded data directory. */
  function SocketPath(c: AppConfig, home: Option<string>): (r: string)
    ensures StartsWith(r, ExpandTilde(c.general.dataDir, home)) && EndsWith(r, SOCKET_FILE_NAME)
    ensures |ExpandTilde(c.general.dataDir, home)| > 0 ==> |r| > |SOCKET_FILE_NAME| && r[|r| - |SOCKET_FILE_NAME| - 1] == '/'
  {
    assert SOCKET_FILE_NAME[0] == 'k';
    JoinPath(ExpandTilde(c.general.dataDir, home), SOCKET_FILE_NAME)
  }

  /** The database and the socket are two different files of the same directory. */
  lemma DatabaseBesideSocket(c: AppConfig, home: Option<string>)
    ensures DatabasePath(c, home) != SocketPath(c, home)
    ensures var dir := ExpandTilde(c.general.dataDir, home);
      DatabasePath(c, home)[..|DatabasePath(c, home)| - |DB_FILE_NAME|]
        == SocketPath(c, home)[..|SocketPath(c, home)| - |SOCKET_FILE_NAME|]
  {
    var dir := ExpandTilde(c.general.dataDir, home);
    assert DB_FILE_NAME[0] == 'k' && SOCKET_FILE_NAME[0] == 'k';
    var db := DatabasePath(c, home);
    var sock := SocketPath(c, home);
    assert db == (dir + Separator(dir)) + DB_FILE_NAME;
    assert sock == (dir + Separator(dir)) + SOCKET_FILE_NAME;
    assert db[|db| - 1] == 'b' && sock[|sock| - 1] == 'k';
    assert db[..|db| - |DB_FILE_NAME|] == (dir + Separator(dir));
    assert sock[..|sock| - |SOCKET_FILE_NAME|] == (dir + Separator(dir));
  }

  /** `config_path`: always `~/.config/kenseader/config.toml`, relative to "." without a home directory. */
  function ConfigPath(home: Option<string>): (r: string)
    ensures EndsWith(r, "config.toml")
  {
    assert "config.toml"[0] == 'c';
    JoinPath(JoinPath(JoinPath(home.UnwrapOr("."), ".config"), "kenseader"), "config.toml")
  }

  /** `default_data_dir`: `kenseader` inside the platform's local data directory, or inside ".". */
  function DefaultDataDir(dataLocalDir: Option<string>): (r: string)
    ensures EndsWith(r, "kenseader")
    ensures dataLocalDir.None? ==> r == "./kenseader"
  {
    assert "kenseader"[0] == 'k';
    assert "." + "/" + "kenseader" == "./kenseader";
    JoinPath(dataLocalDir.UnwrapOr("."), "kenseader")
  }

  // ---------------------------------------------------------------- sections

  datatype GeneralConfig = GeneralConfig(dataDir: string, articleRetentionDays: nat, logLevel: string)

  datatype AiConfig = AiConfig(
    enabled: bool,
    provider: string,
    summaryLanguage: string,
    openaiApiKey: Option<string>,
    openaiModel: string,
    geminiApiKey: Option<string>,
    geminiModel: string,
    claudeApiKey: Option<string>,
    claudeModel: string,
    maxSummaryTokens: nat,
    concurrency: nat,
    minSummarizeLength: nat,
    maxSummaryLength: nat,
    relevanceThreshold: real)

  /** Semantic colour overrides, each a hex string. */
  datatype ColorOverrides = ColorOverrides(
    bg0: Option<string>, bg1: Option<string>, bg2: Option<string>,
    fg0: Option<string>, fg1: Option<string>,
    accent: Option<string>, selection: Option<string>,
    unread: Option<string>, read: Option<string>,
    error: Option<string>, success: Option<string>, warning: Option<string>, info: Option<string>)

  const NO_OVERRIDES: ColorOverrides := ColorOverrides(None, None, None, None, None, None, None, None, None, None, None, None, None)

  datatype ThemeConfig = ThemeConfig(name: string, colors: ColorOverrides)

  datatype UiConfig = UiConfig(tickRateMs: nat, showAuthor: bool, showTimestamps: bool, imagePreview: bool, theme: ThemeConfig)

  datatype SyncConfig = SyncConfig(
    refreshIntervalSecs: nat,
    feedRefreshIntervalSecs: nat,
    cleanupIntervalSecs: nat,
    summarizeIntervalSecs: nat,
    filterIntervalSecs: nat,
    requestTimeoutSecs: nat,
    rateLimitMs: nat,
    proxyUrl: Option<string>)

  /** Key bindings in Vim-style notation, one per action. */
  datatype KeymapConfig = KeymapConfig(
    quit: string,
    focusLeft: string, focusRight: string,
    moveDown: string, moveUp: string,
    scrollHalfDown: string, scrollHalfUp: string, scrollPageDown: string, scrollPageUp: string,
    nextArticle: string, prevArticle: string,
    jumpToTop: string, jumpToBottom: string,
    select: string, openBrowser: string, toggleSaved: string, refresh: string, toggleRead: string,
    searchForward: string, searchBackward: string, nextMatch: string, prevMatch: string,
    toggleUnreadOnly: string,
    historyBack: string, historyForward: string,
    toggleSelect: string, visualMode: string,
    openItem: string, viewImage: string, nextItem: string, prevItem: string)

  datatype AppConfig = AppConfig(
    general: GeneralConfig,
    ai: AiConfig,
    ui: UiConfig,
    sync: SyncConfig,
    rsshub: Fetcher.Rsshub,
    keymap: KeymapConfig)

  // ---------------------------------------------------------------- defaults

  const DEFAULT_THEME_NAME: string := "gruvbox-dark"
  const DEFAULT_RSSHUB_BASE_URL: string := "https://hub.slarker.me"

  function DefaultGeneral(dataLocalDir: Option<string>): GeneralConfig
  {
    GeneralConfig(DefaultDataDir(dataLocalDir), 3, "info")
  }

  function DefaultAi(): AiConfig
  {
    AiConfig(true, "claude_cli", "English", None, "gpt-4o-mini", None, "gemini-2.0-flash", None,
             "claude-sonnet-4-20250514", 150, 2, 500, 150, 0.3)
  }

  function DefaultTheme(): ThemeConfig
  {
    ThemeConfig(DEFAULT_THEME_NAME, NO_OVERRIDES)
  }

  function DefaultUi(): UiConfig
  {
    UiConfig(100, true, true, true, DefaultTheme())
  }

  function DefaultSync(): SyncConfig
  {
    SyncConfig(3600, 43200, 3600, 60, 120, 30, 1000, None)
  }

  function DefaultKeymap(): KeymapConfig
  {
    KeymapConfig(
      "q",
      "h", "l",
      "j", "k",
      "<C-d>", "<C-u>", "<C-f>", "<C-b>",
      "<C-j>", "<C-k>",
      "gg", "G",
      "<CR>", "b", "s", "r", "d",
      "/", "?", "n", "N",
      "i",
      "u", "<C-r>",
      "<Space>", "v",
      "o", "<CR>", "<Tab>", "<S-Tab>")
  }

  function DefaultConfig(dataLocalDir: Option<string>): AppConfig
  {
    AppConfig(DefaultGeneral(dataLocalDir), DefaultAi(), DefaultUi(), DefaultSync(),
              Fetcher.Rsshub(DEFAULT_RSSHUB_BASE_URL, None), DefaultKeymap())
  }

  /**
   * The defaults fit the code that consumes them: the relevance threshold
   * is the filter's own default and survives its clamping, the feed
   * refresh interval is twelve hours, and RSSHub routes are sent to the
   * default instance with exactly one `/` after its host.
   */
  lemma DefaultsFitTheirUsers(dataLocalDir: Option<string>, route: string, isUrl: string -> bool)
    requires !StartsWith(route, "/")
    ensures var c := DefaultConfig(dataLocalDir);
      && c.ai.concurrency == 2 && c.ai.minSummarizeLength == 500
      && c.ai.relevanceThreshold == ProfileFilter.DEFAULT_THRESHOLD
      && ProfileFilter.WithThreshold(ProfileFilter.NewFilter(None), c.ai.relevanceThreshold).threshold == c.ai.relevanceThreshold
      && c.sync.feedRefreshIntervalSecs == 12 * 60 * 60
      && c.ui.theme.name == DEFAULT_THEME_NAME
      && Fetcher.ResolveUrl(c.rsshub, Fetcher.RSSHUB_PREFIX + route, isUrl) == Ok(DEFAULT_RSSHUB_BASE_URL + "/" + route)
  {
    var c := DefaultConfig(dataLocalDir);
    Fetcher.ResolveRsshubForms(c.rsshub, route, isUrl);
    assert DEFAULT_RSSHUB_BASE_URL[|DEFAULT_RSSHUB_BASE_URL| - 1] == 'e';
    assert Fetcher.TrimStartChar(route, '/') == route;
  }

  // ---------------------------------------------------------------- the theme entry

  /** A value in the theme table, as far as its deserialisation can tell. */
  datatype ThemeValue =
    | Text(s: string)                 // a TOML string
    | Colors(colors: ColorOverrides)  // a table that reads as colour overrides
    | Unreadable                      // anything else

  /** What the `theme` entry holds: a bare name, a table, or neither. */
  datatype ThemeInput = Name(name: string) | Table(entries: seq<(string, ThemeValue)>) | Neither

  const THEME_EXPECTING: string := "a string (theme name) or a map with 'name' and optional 'colors'"

  /** An entry the visitor cannot read: a `name` that is not a string, `colors` that are not overrides. */
  predicate BadEntry(e: (string, ThemeValue))
  {
    (e.0 == "name" && !e.1.Text?) || (e.0 == "colors" && !e.1.Colors?)
  }

  /** The visitor's state after the given entries: the last name and colours read, or the first failure. */
  function ScanTheme(entries: seq<(string, ThemeValue)>): Result<(Option<string>, Option<ColorOverrides>), string>
  {
    if |entries| == 0 then Ok((None, None))
    else
      var e := entries[|entries| - 1];
      match ScanTheme(entries[..|entries| - 1])
      case Err(m) => Err(m)
      case Ok(st) =>
        if BadEntry(e) then Err(THEME_EXPECTING)
        else if e.0 == "name" then Ok((Some(e.1.s), st.1))
        else if e.0 == "colors" then Ok((st.0, Some(e.1.colors)))
        else Ok(st)
  }

  function ThemeOf(entries: seq<(string, ThemeValue)>): Result<ThemeConfig, string>
  {
    match ScanTheme(entries)
    case Err(m) => Err(m)
    case Ok(st) => Ok(ThemeConfig(st.0.UnwrapOr(DEFAULT_THEME_NAME), st.1.UnwrapOr(NO_OVERRIDES)))
  }

  /** `visit_map`: reads the entries in order; `name` and `colors` overwrite, other keys are skipped. */
  method VisitMap(entries: seq<(string, ThemeValue)>) returns (r: Result<ThemeConfig, string>)
    ensures r == ThemeOf(entries)
  {
    var name: Option<string> := None;
    var colors: Option<ColorOverrides> := None;
    for i := 0 to |entries|
      invariant ScanTheme(entries[..i]) == Ok((name, colors))
    {
      assert entries[..i + 1][..i] == entries[..i];
      var (key, value) := entries[i];
      if key == "name" {
        if !value.Text? {
          ScanThemeFailed(entries[..i + 1], entries[i + 1..]);
          assert entries[..i + 1] + entries[i + 1..] == entries;
          return Err(THEME_EXPECTING);
        }
        name := Some(value.s);
      } else if key == "colors" {
        if !value.Colors? {
          ScanThemeFailed(entries[..i + 1], entries[i + 1..]);
          assert entries[..i + 1] + entries[i + 1..] == entries;
          return Err(THEME_EXPECTING);
        }
        colors := Some(value.colors);
      }
    }
    assert entries[..|entries|] == entries;
    r := Ok(ThemeConfig(name.UnwrapOr(DEFAULT_THEME_NAME), colors.UnwrapOr(NO_OVERRIDES)));
  }

  /** Once an entry has failed, later entries do not matter. */
  lemma {:induction false} ScanThemeFailed(a: seq<(string, ThemeValue)>, b: seq<(string, ThemeValue)>)
    requires ScanTheme(a).Err?
    ensures ScanTheme(a + b) == ScanTheme(a)
    decreases |b|
  {
    if |b| == 0 {
      assert a + b == a;
    } else {
      ScanThemeFailed(a, b[..|b| - 1]);
      assert (a + b)[..|a + b| - 1] == a + b[..|b| - 1];
    }
  }

  /** `deserialize` for the theme entry: a bare string is a name with no overrides. */
  method DeserializeTheme(input: ThemeInput) returns (r: Result<ThemeConfig, string>)
    ensures input.Name? ==> r == Ok(ThemeConfig(input.name, NO_OVERRIDES))
    ensures input.Table? ==> r == ThemeOf(input.entries)
    ensures input.Neither? ==> r == Err(THEME_EXPECTING)
  {
    match input
    case Name(n) => r := Ok(ThemeConfig(n, NO_OVERRIDES));
    case Table(entries) => r := VisitMap(entries);
    case Neither => r := Err(THEME_EXPECTING);
  }

  /**
   * The table form fails exactly when some `name` or `colors` entry cannot
   * be read; otherwise the name is the last `name` given, or gruvbox-dark
   * when there is none, and the colours the last `colors`, or none.
   */
  lemma {:induction false} ThemeOfSpec(entries: seq<(string, ThemeValue)>)
    ensures ThemeOf(entries).Err? <==> exists i :: 0 <= i < |entries| && BadEntry(entries[i])
    ensures ThemeOf(entries).Ok? && (forall i :: 0 <= i < |entries| ==> entries[i].0 != "name")
      ==> ThemeOf(entries).value.name == DEFAULT_THEME_NAME
    ensures ThemeOf(entries).Ok? ==>
      forall i :: 0 <= i < |entries| && entries[i].0 == "name" && (forall j :: i < j < |entries| ==> entries[j].0 != "name")
        ==> ThemeOf(entries).value.name == entries[i].1.s
    ensures ThemeOf(entries).Ok? && (forall i :: 0 <= i < |entries| ==> entries[i].0 != "colors")
      ==> ThemeOf(entries).value.colors == NO_OVERRIDES
  {
    if |entries| > 0 {
      var init := entries[..|entries| - 1];
      ThemeOfSpec(init);
      assert forall i :: 0 <= i < |init| ==> init[i] == entries[i];
    }
  }

  /** Keys other than `name` and `colors` are ignored wherever they stand. */
  lemma {:induction false} UnknownKeysIgnored(a: seq<(string, ThemeValue)>, key: string, v: ThemeValue, b: seq<(string, ThemeValue)>)
    requires key != "name" && key != "colors"
    ensures ThemeOf(a + [(key, v)] + b) == ThemeOf(a + b)
  {
    ScanUnknownKey(a, key, v, b);
  }

  lemma {:induction false} ScanUnknownKey(a: seq<(string, ThemeValue)>, key: string, v: ThemeValue, b: seq<(string, ThemeValue)>)
    requires key != "name" && key != "colors"
    ensures ScanTheme(a + [(key, v)] + b) == ScanTheme(a + b)
    decreases |b|
  {
    if |b| == 0 {
      assert a + [(key, v)] + b == a + [(key, v)];
      assert (a + [(key, v)])[..|a|] == a;
      assert a + b == a;
    } else {
      var init := b[..|b| - 1];
      ScanUnknownKey(a, key, v, init);
      assert (a + [(key, v)] + b)[..|a + [(key, v)] + b| - 1] == a + [(key, v)] + init;
      assert (a + b)[..|a + b| - 1] == a + init;
    }
  }

  /** The two forms agree: a bare name and a table holding only that name give the same theme. */
  lemma NameFormsAgree(name: string)
    ensures ThemeOf([("name", Text(name))]) == Ok(ThemeConfig(name, NO_OVERRIDES))
    ensures ThemeOf([]) == Ok(DefaultTheme())
  {
    assert [("name", Text(name))][..0] == [];
    assert ScanTheme([("name", Text(name))]) == Ok((Some(name), None));
  }
}
