/**
 * The command-line AI provider: input guards, the tag and score parsing of
 * the CLI's output, and the assembly of batch results. Running the CLI is
 * an oracle: a function from the text the prompt embeds to the process's
 * stdout or an error, and a batch call is given the process's result.
 */
module CliProvider {
  import opened Wrappers
  import opened Text
  import StyleRepo
  import Sorting

  /** The result of running the CLI: its stdout, or an error message. */
  type CliResult = Result<string, string>

  /** A CLI run on the (truncated) article text. */
  type Cli = string -> CliResult

  datatype CliType = Claude | Gemini | Codex

  /** The provider's settings. */
  datatype Provider = Provider(cliType: CliType, language: string, summaryMaxLength: nat, minContentLength: nat)

  const BATCH_CHAR_LIMIT: nat := 200000
  const SUMMARY_INPUT_CHARS: nat := 4000
  const TAGS_INPUT_CHARS: nat := 4000
  const SCORE_INPUT_CHARS: nat := 3000
  const STYLE_INPUT_CHARS: nat := 2000
  const MIN_TAG_CONTENT_BYTES: nat := 50
  const MAX_TAGS: nat := 5
  const MAX_TAG_BYTES: nat := 50

  // ---------------------------------------------------------------- invocation

  function Command(t: CliType): string
  {
    match t
    case Claude => "claude"
    case Gemini => "gemini"
    case Codex => "codex"
  }

  function BaseArgs(t: CliType): seq<string>
  {
    match t
    case Claude => ["-p", "--tools", ""]
    case Gemini => ["-p"]
    case Codex => ["exec"]
  }

  predicate UsesStdin(t: CliType)
  {
    t != Codex
  }

  /** A process to spawn: program, arguments and what is written to its stdin. */
  datatype Invocation = Invocation(program: string, args: seq<string>, stdin: Option<string>)

  /** `run_cli`'s process: Codex takes the prompt as its last argument, the others on stdin. */
  function Invoke(t: CliType, prompt: string): (inv: Invocation)
    ensures inv.program == Command(t)
    ensures UsesStdin(t) <==> inv.stdin == Some(prompt)
    ensures UsesStdin(t) ==> inv.args == BaseArgs(t)
    ensures !UsesStdin(t) ==> inv.args == BaseArgs(t) + [prompt] && inv.stdin.None?
  {
    if UsesStdin(t) then Invocation(Command(t), BaseArgs(t), Some(prompt))
    else Invocation(Command(t), BaseArgs(t) + [prompt], None)
  }

  /** The three CLIs are told apart by their program name. */
  lemma CommandInjective(a: CliType, b: CliType)
    ensures Command(a) == Command(b) ==> a == b
  {
  }

  /** A successful run yields its stdout trimmed. */
  function RunCli(result: CliResult): (r: CliResult)
    ensures result.Err? ==> r == result
    ensures result.Ok? ==> r == Ok(Trim(result.value))
  {
    match result
    case Ok(out) => Ok(Trim(out))
    case Err(e) => Err(e)
  }

  // ---------------------------------------------------------------- truncation

  /** `truncate_chars`: the first `maxChars` characters, or the whole input when shorter. */
  function TruncateChars(input: string, maxChars: nat): (r: string)
    ensures |r| <= maxChars && |r| <= |input|
    ensures r == input[..|r|]
    ensures |input| <= maxChars ==> r == input
    ensures |input| > maxChars ==> |r| == maxChars
  {
    if |input| <= maxChars then input else input[..maxChars]
  }

  /** Truncating again to the same or a larger bound changes nothing. */
  lemma TruncateCharsIdempotent(input: string, a: nat, b: nat)
    requires a <= b
    ensures TruncateChars(TruncateChars(input, a), b) == TruncateChars(input, a)
    ensures TruncateChars(TruncateChars(input, b), a) == TruncateChars(input, a)
  {
  }

  // ---------------------------------------------------------------- single calls

  datatype ProviderError =
    | ContentTooShort(length: nat, minimum: nat)
    | JustAUrl
    | CliFailed(message: string)

  predicate IsUrlOnly(trimmed: string)
  {
    (StartsWith(trimmed, "http://") || StartsWith(trimmed, "https://")) && |Lines(trimmed)| <= 2
  }

  /**
   * The checks `summarize` makes before calling the CLI: the trimmed content
   * must have at least `minContentLength` bytes and must not be just a URL.
   */
  function SummarizeGuard(p: Provider, content: string): (r: Option<ProviderError>)
    ensures ByteLen(Trim(content)) < p.minContentLength <==> r.Some? && r.value.ContentTooShort?
    ensures r == Some(JustAUrl) <==> ByteLen(Trim(content)) >= p.minContentLength && IsUrlOnly(Trim(content))
    ensures r.None? <==> ByteLen(Trim(content)) >= p.minContentLength && !IsUrlOnly(Trim(content))
  {
    var trimmed := Trim(content);
    if ByteLen(trimmed) < p.minContentLength then Some(ContentTooShort(ByteLen(trimmed), p.minContentLength))
    else if IsUrlOnly(trimmed) then Some(JustAUrl)
    else None
  }

  /** `summarize`: the guarded CLI run on the first 4000 characters. */
  function Summarize(p: Provider, content: string, cli: Cli): (r: Result<string, ProviderError>)
    ensures SummarizeGuard(p, content).Some? ==> r == Err(SummarizeGuard(p, content).value)
    ensures SummarizeGuard(p, content).None? && cli(TruncateChars(content, SUMMARY_INPUT_CHARS)).Ok? ==>
      r == Ok(Trim(cli(TruncateChars(content, SUMMARY_INPUT_CHARS)).value))
    ensures SummarizeGuard(p, content).None? && cli(TruncateChars(content, SUMMARY_INPUT_CHARS)).Err? ==> r.Err? && r.error.CliFailed?
  {
    match SummarizeGuard(p, content)
    case Some(e) => Err(e)
    case None =>
      match RunCli(cli(TruncateChars(content, SUMMARY_INPUT_CHARS)))
      case Ok(s) => Ok(s)
      case Err(m) => Err(CliFailed(m))
  }

  /** A summary is only ever produced for content that passes both guards. */
  lemma SummarizeNeedsContent(p: Provider, content: string, cli: Cli)
    requires Summarize(p, content, cli).Ok?
    ensures ByteLen(Trim(content)) >= p.minContentLength
    ensures !IsUrlOnly(Trim(content))
  {
  }

  /** A piece of the CLI's comma-separated answer, trimmed and lowercased. */
  function NormalizeTag(piece: string): string
  {
    Lower(Trim(piece))
  }

  predicate GoodTag(t: string)
  {
    t != [] && ByteLen(t) < MAX_TAG_BYTES
  }

  /** Every piece of the answer, trimmed and lowercased, in order. */
  function NormalizeAll(pieces: seq<string>): (r: seq<string>)
    ensures |r| == |pieces|
    ensures forall k :: 0 <= k < |pieces| ==> r[k] == NormalizeTag(pieces[k])
  {
    seq(|pieces|, k requires 0 <= k < |pieces| => NormalizeTag(pieces[k]))
  }

  /** The normalized pieces that are non-empty and shorter than 50 bytes, in order. */
  function KeepTags(pieces: seq<string>): (r: seq<string>)
    ensures forall t :: t in r <==> t in NormalizeAll(pieces) && GoodTag(t)
  {
    Sorting.Where(NormalizeAll(pieces), GoodTag)
  }

  /** The tags `extract_tags` takes from the CLI's answer: at most five kept pieces. */
  function TagsOf(output: string): (r: seq<string>)
    ensures |r| <= MAX_TAGS
    ensures forall t :: t in r ==> GoodTag(t) && Lower(t) == t && ',' !in t
    ensures |r| <= |KeepTags(Split(output, ','))| && r == KeepTags(Split(output, ','))[..|r|]
    ensures |r| == MAX_TAGS || r == KeepTags(Split(output, ','))
  {
    var pieces := Split(output, ',');
    var kept := KeepTags(pieces);
    var r := if |kept| <= MAX_TAGS then kept else kept[..MAX_TAGS];
    forall t | t in r ensures GoodTag(t) && Lower(t) == t && ',' !in t {
      assert t in kept;
      var k :| 0 <= k < |pieces| && NormalizeAll(pieces)[k] == t;
      LowerTrimNoComma(pieces[k]);
      LowerIdempotent(Trim(pieces[k]));
    }
    r
  }

  lemma LowerIdempotent(s: string)
    ensures Lower(Lower(s)) == Lower(s)
  {
  }

  lemma LowerTrimNoComma(q: string)
    requires ',' !in q
    ensures ',' !in Lower(Trim(q))
  {
    var u := TrimStart(q);
    var t := TrimEnd(u);
    assert Trim(q) == t;
    forall i | 0 <= i < |t| ensures t[i] != ',' {
      assert t[i] == u[i] == q[|q| - |u| + i];
    }
    forall i | 0 <= i < |t| ensures Lower(t)[i] != ',' {
      assert Lower(t)[i] == LowerChar(t[i]);
    }
  }

  /**
   * `extract_tags`: nothing for trimmed content under 50 bytes, otherwise
   * the tags of the CLI's answer on the first 4000 characters.
   */
  function ExtractTags(content: string, cli: Cli): (r: Result<seq<string>, ProviderError>)
    ensures ByteLen(Trim(content)) < MIN_TAG_CONTENT_BYTES ==> r == Ok([])
    ensures r.Ok? && ByteLen(Trim(content)) >= MIN_TAG_CONTENT_BYTES ==>
      cli(TruncateChars(content, TAGS_INPUT_CHARS)).Ok? && r.value == TagsOf(Trim(cli(TruncateChars(content, TAGS_INPUT_CHARS)).value))
    ensures r.Ok? ==> |r.value| <= MAX_TAGS
  {
    if ByteLen(Trim(content)) < MIN_TAG_CONTENT_BYTES then Ok([])
    else
      match RunCli(cli(TruncateChars(content, TAGS_INPUT_CHARS)))
      case Ok(out) => Ok(TagsOf(out))
      case Err(m) => Err(CliFailed(m))
  }

  /** A well-formed answer of up to five tags, joined by commas, is read back exactly. */
  lemma TagsRoundTrip(tags: seq<string>)
    requires 1 <= |tags| <= MAX_TAGS
    requires forall k :: 0 <= k < |tags| ==> GoodTag(tags[k]) && ',' !in tags[k] && Trimmed(tags[k]) && Lower(tags[k]) == tags[k]
    ensures TagsOf(Trim(Join(tags, ','))) == tags
  {
    JoinedTagsTrimmed(tags);
    JoinedTagsKept(tags);
    TagsOfFew(Join(tags, ','));
  }

  lemma JoinedTagsTrimmed(tags: seq<string>)
    requires 1 <= |tags|
    requires forall k :: 0 <= k < |tags| ==> tags[k] != [] && Trimmed(tags[k])
    ensures Trim(Join(tags, ',')) == Join(tags, ',')
  {
    var s := Join(tags, ',');
    var first, last := tags[0], tags[|tags| - 1];
    assert s != [] && s[0] == first[0] && s[|s| - 1] == last[|last| - 1] by {
      JoinEnds(tags, ',');
    }
    assert Trimmed(first) && Trimmed(last);
    assert !IsWhitespace(s[0]) && !IsWhitespace(s[|s| - 1]);
    assert Trimmed(s);
    TrimUnchanged(s);
  }

  lemma JoinedTagsKept(tags: seq<string>)
    requires 1 <= |tags|
    requires forall k :: 0 <= k < |tags| ==> GoodTag(tags[k]) && ',' !in tags[k] && Trimmed(tags[k]) && Lower(tags[k]) == tags[k]
    ensures KeepTags(Split(Join(tags, ','), ',')) == tags
  {
    JoinSplit(tags, ',');
    KeepAll(tags);
  }

  /** With at most five kept pieces, all of them are the tags. */
  lemma TagsOfFew(output: string)
    requires |KeepTags(Split(output, ','))| <= MAX_TAGS
    ensures TagsOf(output) == KeepTags(Split(output, ','))
  {
  }

  lemma KeepAll(tags: seq<string>)
    requires forall k :: 0 <= k < |tags| ==> GoodTag(tags[k]) && Trimmed(tags[k]) && Lower(tags[k]) == tags[k]
    ensures KeepTags(tags) == tags
  {
    forall k | 0 <= k < |tags| ensures NormalizeAll(tags)[k] == tags[k] {
      TrimUnchanged(tags[k]);
    }
    assert NormalizeAll(tags) == tags;
    Sorting.WhereAll(tags, GoodTag);
  }

  /** A join of trimmed, non-empty pieces starts with the first piece's first character and ends with the last piece's last. */
  lemma {:induction false} JoinEnds(parts: seq<string>, sep: char)
    requires |parts| >= 1
    requires forall k :: 0 <= k < |parts| ==> parts[k] != []
    ensures var s := Join(parts, sep); s != [] && s[0] == parts[0][0] && s[|s| - 1] == parts[|parts| - 1][|parts[|parts| - 1]| - 1]
    decreases |parts|
  {
    if |parts| > 1 {
      JoinEnds(parts[1..], sep);
    }
  }

  /** The score the CLI's answer stands for: the parsed number, or 50 when it is not a number, over 100. */
  function ScoreOf(output: string, parseNumber: string -> Option<real>): real
  {
    parseNumber(Trim(output)).UnwrapOr(50.0) / 100.0
  }

  /** `score_relevance`: 0.5 without interests, otherwise the CLI's score on the first 3000 characters. */
  function ScoreRelevance(content: string, interests: seq<string>, cli: Cli, parseNumber: string -> Option<real>): (r: Result<real, ProviderError>)
    ensures interests == [] ==> r == Ok(0.5)
    ensures interests != [] && cli(TruncateChars(content, SCORE_INPUT_CHARS)).Ok? ==>
      r == Ok(ScoreOf(Trim(cli(TruncateChars(content, SCORE_INPUT_CHARS)).value), parseNumber))
    ensures interests != [] && cli(TruncateChars(content, SCORE_INPUT_CHARS)).Err? ==> r.Err?
  {
    if interests == [] then Ok(0.5)
    else
      match RunCli(cli(TruncateChars(content, SCORE_INPUT_CHARS)))
      case Ok(out) => Ok(ScoreOf(out, parseNumber))
      case Err(m) => Err(CliFailed(m))
  }

  /** An unreadable answer scores 0.5; a number in [0, 100] gives a score in [0, 1]. */
  lemma ScoreOfBounds(output: string, parseNumber: string -> Option<real>)
    ensures parseNumber(Trim(output)).None? ==> ScoreOf(output, parseNumber) == 0.5
    ensures parseNumber(Trim(output)).Some? && 0.0 <= parseNumber(Trim(output)).value <= 100.0 ==>
      0.0 <= ScoreOf(output, parseNumber) <= 1.0
  {
  }

  /** The classification used when the CLI's answer is not valid JSON. */
  const DEFAULT_STYLE := StyleRepo.StyleResult("news", "formal", "medium")

  predicate Backtick(c: char)
  {
    c == '`' || c == '\n'
  }

  /** `trim_matches` on backticks and newlines. */
  function StripFences(s: string): (r: string)
    ensures |r| <= |s|
    ensures r != [] ==> !Backtick(r[0]) && !Backtick(r[|r| - 1])
    decreases |s|
  {
    if s != [] && Backtick(s[0]) then StripFences(s[1..])
    else if s != [] && Backtick(s[|s| - 1]) then StripFences(s[..|s| - 1])
    else s
  }

  /** `classify_style`: the JSON answer on the first 2000 characters, or the default classification. */
  function ClassifyStyle(content: string, cli: Cli, parseJson: string -> Option<StyleRepo.StyleResult>): (r: Result<StyleRepo.StyleResult, ProviderError>)
    ensures cli(TruncateChars(content, STYLE_INPUT_CHARS)).Err? <==> r.Err?
    ensures r.Ok? && parseJson(StripFences(Trim(cli(TruncateChars(content, STYLE_INPUT_CHARS)).value))).None? ==> r.value == DEFAULT_STYLE
    ensures r.Ok? && parseJson(StripFences(Trim(cli(TruncateChars(content, STYLE_INPUT_CHARS)).value))).Some? ==>
      r.value == parseJson(StripFences(Trim(cli(TruncateChars(content, STYLE_INPUT_CHARS)).value))).value
  {
    match RunCli(cli(TruncateChars(content, STYLE_INPUT_CHARS)))
    case Ok(out) => Ok(parseJson(StripFences(out)).UnwrapOr(DEFAULT_STYLE))
    case Err(m) => Err(CliFailed(m))
  }

  // ---------------------------------------------------------------- answer lines

  /**
   * One answer line `[ID]: text`: the line is trimmed, must start with '[',
   * and is cut at the first "]:"; the id is what lies between, the text the
   * trimmed rest.
   */
  function ParseLine(raw: string): (r: Option<(string, string)>)
  {
    SplitAnswer(Trim(raw))
  }

  /** The cut of a trimmed line: the line begins with the id in brackets followed by ':'. */
  function SplitAnswer(l: string): (r: Option<(string, string)>)
    ensures r.Some? ==> StartsWith(l, "[" + r.value.0 + "]:")
  {
    if l == [] || l[0] != '[' then None
    else
      match Find(l, "]:")
      case None => None
      case Some(e) =>
        assert l[e..e + 2] == "]:";
        assert l[e] == ']';
        assert l[..e + 2] == "[" + l[1..e] + "]:";
        Some((l[1..e], Trim(l[e + 2..])))
  }

  /** In "[id]:rest" with no ']' in the id, the first "]:" is the one that closes the id. */
  lemma FindClosingBracket(id: string, rest: string)
    requires ']' !in id
    ensures Find("[" + id + "]:" + rest, "]:") == Some(|id| + 1)
  {
    var l := "[" + id + "]:" + rest;
    var e := |id| + 1;
    assert OccursAt(l, "]:", e) by {
      assert l[e..e + 2] == "]:";
    }
    forall j | 0 <= j < e ensures !OccursAt(l, "]:", j) {
      if j + 2 <= |l| {
        assert l[j..j + 2][0] == l[j];
        if j == 0 {
          assert l[j] == '[';
        } else {
          assert l[j] == id[j - 1];
        }
      }
    }
  }

  /** The cut of "[id]:rest" is the id and the trimmed rest. */
  lemma SplitAnswerOf(id: string, rest: string)
    requires ']' !in id
    ensures SplitAnswer("[" + id + "]:" + rest) == Some((id, Trim(rest)))
  {
    var l := "[" + id + "]:" + rest;
    FindClosingBracket(id, rest);
    assert l[1..|id| + 1] == id;
    assert l[|id| + 3..] == rest;
  }

  /** A line written as `[ID]:text` with an id free of ']' and trimmed, non-empty text reads back as that id and text. */
  lemma ParseLineRoundTrip(id: string, text: string)
    requires ']' !in id
    requires text != [] && Trimmed(text)
    ensures ParseLine("[" + id + "]:" + text) == Some((id, text))
  {
    var l := "[" + id + "]:" + text;
    assert Trimmed(l) by {
      assert l[0] == '[' && l[|l| - 1] == text[|text| - 1];
    }
    TrimUnchanged(l);
    TrimUnchanged(text);
    assert ParseLine(l) == SplitAnswer(l);
    SplitAnswerOf(id, text);
  }

  /** The id and value an answer line gives, when it parses and `read` accepts its text. */
  function AnswerOf<V>(line: string, read: string -> Option<V>): Option<(string, V)>
  {
    match ParseLine(line)
    case None => None
    case Some(p) =>
      match read(p.1)
      case None => None
      case Some(v) => Some((p.0, v))
  }

  /**
   * The answers of a batch response, by id: each line that parses and whose
   * value `read` accepts sets that id; a later line for the same id wins.
   */
  function Answers<V>(lines: seq<string>, read: string -> Option<V>): map<string, V>
  {
    if lines == [] then map[]
    else
      var m := Answers(lines[..|lines| - 1], read);
      match AnswerOf(lines[|lines| - 1], read)
      case None => m
      case Some(a) => m[a.0 := a.1]
  }

  /**
   * The loop of `batch_summarize` and `batch_score_relevance` that fills a
   * map from the response lines.
   */
  method ParseAnswers<V>(lines: seq<string>, read: string -> Option<V>) returns (m: map<string, V>)
    ensures m == Answers(lines, read)
  {
    m := map[];
    var i := 0;
    while i < |lines|
      invariant 0 <= i <= |lines|
      invariant m == Answers(lines[..i], read)
    {
      assert lines[..i + 1][..i] == lines[..i];
      match AnswerOf(lines[i], read) {
        case None =>
        case Some(a) => m := m[a.0 := a.1];
      }
      i := i + 1;
    }
    assert lines[..|lines|] == lines;
  }

  /** Every id in the answers comes from a line that gives it exactly that value. */
  lemma {:induction false} AnswersFrom<V>(lines: seq<string>, read: string -> Option<V>, id: string)
    requires id in Answers(lines, read)
    ensures exists k :: 0 <= k < |lines| && AnswerOf(lines[k], read) == Some((id, Answers(lines, read)[id]))
  {
    var init := lines[..|lines| - 1];
    var last := AnswerOf(lines[|lines| - 1], read);
    if last.Some? && last.value.0 == id {
      assert AnswerOf(lines[|lines| - 1], read) == Some((id, Answers(lines, read)[id]));
    } else {
      AnswersFrom(init, read, id);
      var k :| 0 <= k < |init| && AnswerOf(init[k], read) == Some((id, Answers(init, read)[id]));
      assert lines[k] == init[k];
    }
  }

  /** The last accepted line for an id decides its answer. */
  lemma {:induction false} AnswersLastWins<V>(lines: seq<string>, read: string -> Option<V>, k: nat)
    requires k < |lines| && AnswerOf(lines[k], read).Some?
    requires forall j :: k < j < |lines| && AnswerOf(lines[j], read).Some? ==>
      AnswerOf(lines[j], read).value.0 != AnswerOf(lines[k], read).value.0
    ensures AnswerOf(lines[k], read).value.0 in Answers(lines, read)
    ensures Answers(lines, read)[AnswerOf(lines[k], read).value.0] == AnswerOf(lines[k], read).value.1
  {
    var init := lines[..|lines| - 1];
    if k < |lines| - 1 {
      assert init[k] == lines[k];
      AnswersLastWins(init, read, k);
    }
  }

  /** A summary line is accepted when its text is not empty. */
  function ReadSummary(text: string): Option<string>
  {
    if text == [] then None else Some(text)
  }

  /** A score line is accepted when its text parses as a number; the score is that number over 100. */
  function ReadScore(parseNumber: string -> Option<real>): string -> Option<real>
  {
    (text: string) => match parseNumber(text) case Some(v) => Some(v / 100.0) case None => None
  }

  // ---------------------------------------------------------------- batches

  datatype ArticleForSummary = ArticleForSummary(id: string, title: string, content: string)
  datatype ArticleForScoring = ArticleForScoring(id: string, content: string)

  datatype ResultError = TooShort(minimum: nat) | SummaryNotFound | ScoreNotFound

  datatype BatchSummaryResult = BatchSummaryResult(id: string, summary: Option<string>, error: Option<ResultError>)
  datatype BatchScoreResult = BatchScoreResult(id: string, score: Option<real>, error: Option<ResultError>)

  predicate LongEnough(a: ArticleForSummary, minLen: nat)
  {
    ByteLen(Trim(a.content)) >= minLen
  }

  /** Some article of the batch is long enough to be summarized. */
  predicate AnyLongEnough(articles: seq<ArticleForSummary>, minLen: nat)
  {
    exists i :: 0 <= i < |articles| && LongEnough(articles[i], minLen)
  }

  function SummaryResult(a: ArticleForSummary, minLen: nat, answers: map<string, string>): (r: BatchSummaryResult)
    ensures r.id == a.id
    ensures r.summary.Some? <==> r.error.None?
    ensures !LongEnough(a, minLen) ==> r.error == Some(TooShort(minLen))
    ensures LongEnough(a, minLen) && a.id in answers ==> r.summary == Some(answers[a.id])
    ensures LongEnough(a, minLen) && a.id !in answers ==> r.error == Some(SummaryNotFound)
  {
    if !LongEnough(a, minLen) then BatchSummaryResult(a.id, None, Some(TooShort(minLen)))
    else if a.id in answers then BatchSummaryResult(a.id, Some(answers[a.id]), None)
    else BatchSummaryResult(a.id, None, Some(SummaryNotFound))
  }

  /** The results when no article is long enough: every one is the too-short error. */
  function AllTooShort(articles: seq<ArticleForSummary>, minLen: nat): (r: seq<BatchSummaryResult>)
    ensures |r| == |articles|
    ensures forall i :: 0 <= i < |articles| ==> r[i] == BatchSummaryResult(articles[i].id, None, Some(TooShort(minLen)))
  {
    seq(|articles|, i requires 0 <= i < |articles| => BatchSummaryResult(articles[i].id, None, Some(TooShort(minLen))))
  }

  /** The results read from a response's answers, one per article. */
  function SummaryResults(articles: seq<ArticleForSummary>, minLen: nat, answers: map<string, string>): (r: seq<BatchSummaryResult>)
    ensures |r| == |articles|
    ensures forall i :: 0 <= i < |articles| ==> r[i] == SummaryResult(articles[i], minLen, answers)
  {
    seq(|articles|, i requires 0 <= i < |articles| => SummaryResult(articles[i], minLen, answers))
  }

  /**
   * `batch_summarize`: one result per input article, in input order. When
   * no article is long enough the CLI is not run and every result is the
   * too-short error; otherwise a failed run fails the whole batch.
   */
  function BatchSummarize(p: Provider, articles: seq<ArticleForSummary>, run: CliResult): (r: Result<seq<BatchSummaryResult>, ProviderError>)
    ensures articles == [] ==> r == Ok([])
    ensures r.Err? <==> AnyLongEnough(articles, p.minContentLength) && run.Err?
    ensures r.Ok? ==> |r.value| == |articles|
    ensures r.Ok? ==> forall i :: 0 <= i < |articles| ==> r.value[i].id == articles[i].id
    ensures r.Ok? ==> forall i :: 0 <= i < |articles| ==> (r.value[i].summary.Some? <==> r.value[i].error.None?)
    ensures r.Ok? ==> forall i :: 0 <= i < |articles| && !LongEnough(articles[i], p.minContentLength) ==>
      r.value[i].error == Some(TooShort(p.minContentLength))
  {
    var minLen := p.minContentLength;
    if articles == [] then Ok([])
    else if !AnyLongEnough(articles, minLen) then Ok(AllTooShort(articles, minLen))
    else
      match RunCli(run)
      case Err(m) => Err(CliFailed(m))
      case Ok(out) => Ok(SummaryResults(articles, minLen, Answers(Lines(out), ReadSummary)))
  }

  /** Every summary in a batch result is the text of an answer line naming that article. */
  lemma BatchSummaryFromAnswer(p: Provider, articles: seq<ArticleForSummary>, run: CliResult, i: nat) returns (k: nat)
    requires BatchSummarize(p, articles, run).Ok? && i < |articles|
    requires BatchSummarize(p, articles, run).value[i].summary.Some?
    ensures run.Ok? && k < |Lines(Trim(run.value))|
    ensures AnswerOf(Lines(Trim(run.value))[k], ReadSummary) == Some((articles[i].id, BatchSummarize(p, articles, run).value[i].summary.value))
  {
    var minLen := p.minContentLength;
    var r := BatchSummarize(p, articles, run);
    assert LongEnough(articles[i], minLen);
    assert AnyLongEnough(articles, minLen);
    var lines := Lines(Trim(run.value));
    var answers := Answers(lines, ReadSummary);
    assert r.value == SummaryResults(articles, minLen, answers);
    assert r.value[i] == SummaryResult(articles[i], minLen, answers);
    AnswersFrom(lines, ReadSummary, articles[i].id);
    k :| 0 <= k < |lines| && AnswerOf(lines[k], ReadSummary) == Some((articles[i].id, answers[articles[i].id]));
    assert r.value[i].summary.value == answers[articles[i].id];
  }

  function ScoreResult(a: ArticleForScoring, answers: map<string, real>): (r: BatchScoreResult)
    ensures r.id == a.id
    ensures r.score.Some? <==> r.error.None?
    ensures a.id in answers ==> r.score == Some(answers[a.id])
    ensures a.id !in answers ==> r.error == Some(ScoreNotFound)
  {
    if a.id in answers then BatchScoreResult(a.id, Some(answers[a.id]), None)
    else BatchScoreResult(a.id, None, Some(ScoreNotFound))
  }

  /** The results read from a response's answers, one per article. */
  function ScoreResults(articles: seq<ArticleForScoring>, answers: map<string, real>): (r: seq<BatchScoreResult>)
    ensures |r| == |articles|
    ensures forall i :: 0 <= i < |articles| ==> r[i] == ScoreResult(articles[i], answers)
  {
    seq(|articles|, i requires 0 <= i < |articles| => ScoreResult(articles[i], answers))
  }

  /** The results without interests: every article scores 0.5. */
  function NeutralScores(articles: seq<ArticleForScoring>): (r: seq<BatchScoreResult>)
    ensures |r| == |articles|
    ensures forall i :: 0 <= i < |articles| ==> r[i] == BatchScoreResult(articles[i].id, Some(0.5), None)
  {
    seq(|articles|, i requires 0 <= i < |articles| => BatchScoreResult(articles[i].id, Some(0.5), None))
  }

  /**
   * `batch_score_relevance`: one result per input article, in input order;
   * without interests every article scores 0.5 and the CLI is not run.
   */
  function BatchScoreRelevance(articles: seq<ArticleForScoring>, interests: seq<string>, run: CliResult, parseNumber: string -> Option<real>): (r: Result<seq<BatchScoreResult>, ProviderError>)
    ensures articles == [] ==> r == Ok([])
    ensures r.Err? <==> articles != [] && interests != [] && run.Err?
    ensures r.Ok? ==> |r.value| == |articles|
    ensures r.Ok? ==> forall i :: 0 <= i < |articles| ==> r.value[i].id == articles[i].id
    ensures r.Ok? ==> forall i :: 0 <= i < |articles| ==> (r.value[i].score.Some? <==> r.value[i].error.None?)
    ensures r.Ok? && interests == [] ==> forall i :: 0 <= i < |articles| ==> r.value[i].score == Some(0.5)
  {
    if articles == [] then Ok([])
    else if interests == [] then Ok(NeutralScores(articles))
    else
      match RunCli(run)
      case Err(m) => Err(CliFailed(m))
      case Ok(out) => Ok(ScoreResults(articles, Answers(Lines(out), ReadScore(parseNumber))))
  }

  /** Every score in a batch result is an answer line's number over 100. */
  lemma BatchScoreFromAnswer(articles: seq<ArticleForScoring>, interests: seq<string>, run: CliResult, parseNumber: string -> Option<real>, i: nat) returns (k: nat)
    requires BatchScoreRelevance(articles, interests, run, parseNumber).Ok? && i < |articles| && interests != []
    requires BatchScoreRelevance(articles, interests, run, parseNumber).value[i].score.Some?
    ensures run.Ok? && k < |Lines(Trim(run.value))|
    ensures AnswerOf(Lines(Trim(run.value))[k], ReadScore(parseNumber)) ==
      Some((articles[i].id, BatchScoreRelevance(articles, interests, run, parseNumber).value[i].score.value))
  {
    var r := BatchScoreRelevance(articles, interests, run, parseNumber);
    var lines := Lines(Trim(run.value));
    var answers := Answers(lines, ReadScore(parseNumber));
    assert r.value == ScoreResults(articles, answers);
    assert r.value[i] == ScoreResult(articles[i], answers);
    AnswersFrom(lines, ReadScore(parseNumber), articles[i].id);
    k :| 0 <= k < |lines| && AnswerOf(lines[k], ReadScore(parseNumber)) == Some((articles[i].id, answers[articles[i].id]));
    assert r.value[i].score.value == answers[articles[i].id];
  }
}
