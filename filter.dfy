/**
 * The article filter: each article gets a combined relevance score,
 * 40% from matching its tags against the reader's top interests and 60%
 * from the AI summarizer; articles below the threshold are marked read.
 * The summarizer is an oracle parameter.
 */
module ProfileFilter {
  import opened Wrappers
  import opened Text
  import opened FeedModels
  import opened ProfileModels
  import opened Storage
  import opened Sorting
  import opened ArticleRepo
  import opened Analyzer

  const DEFAULT_THRESHOLD: real := 0.3
  const PROFILE_SHARE: real := 0.4
  const AI_SHARE: real := 0.6
  /** The interests are the 10 heaviest tags of the 30-day window. */
  const INTEREST_LIMIT: nat := 10

  /** `Summarizer::score_relevance(content, interests)`: a score or an error message. */
  type Scorer = (string, seq<string>) -> Result<real, string>

  /** The filter's settings; the database handle is passed to `FilterArticles`. */
  datatype Filter = Filter(summarizer: Option<Scorer>, threshold: real)

  /** `ArticleFilter::new`: the default threshold 0.3. */
  function NewFilter(summarizer: Option<Scorer>): (f: Filter)
    ensures f.summarizer == summarizer && f.threshold == DEFAULT_THRESHOLD
  {
    Filter(summarizer, DEFAULT_THRESHOLD)
  }

  /** `with_threshold`: the threshold clamped into [0, 1]. */
  function WithThreshold(f: Filter, threshold: real): (r: Filter)
    ensures r.summarizer == f.summarizer
    ensures 0.0 <= r.threshold <= 1.0
    ensures 0.0 <= threshold <= 1.0 ==> r.threshold == threshold
    ensures threshold < 0.0 ==> r.threshold == 0.0
    ensures threshold > 1.0 ==> r.threshold == 1.0
  {
    f.(threshold := if threshold < 0.0 then 0.0 else if threshold > 1.0 then 1.0 else threshold)
  }

  /** Setting a threshold twice is the same as setting the second one. */
  lemma WithThresholdLastWins(f: Filter, t1: real, t2: real)
    ensures WithThreshold(WithThreshold(f, t1), t2) == WithThreshold(f, t2)
  {
  }

  // ---------------------------------------------------------------- profile score

  /** `str::eq_ignore_ascii_case`. */
  predicate EqIgnoreAsciiCase(a: string, b: string)
  {
    Lower(a) == Lower(b)
  }

  predicate IsInterest(interests: seq<string>, tag: string)
  {
    exists i :: i in interests && EqIgnoreAsciiCase(i, tag)
  }

  /** Number of tags that match some interest, ignoring ASCII case. */
  function MatchCount(tags: seq<string>, interests: seq<string>): (n: nat)
    ensures n <= |tags|
  {
    if tags == [] then 0
    else MatchCount(tags[..|tags| - 1], interests) + (if IsInterest(interests, tags[|tags| - 1]) then 1 else 0)
  }

  function Min(a: nat, b: nat): nat
  {
    if a <= b then a else b
  }

  /**
   * `calculate_profile_score`: 1 without interests or without tags, else
   * the matches over the smaller of the two counts, capped at 1.
   */
  function ProfileScore(tags: seq<string>, interests: seq<string>): (r: real)
    ensures 0.0 <= r <= 1.0
    ensures interests == [] || tags == [] ==> r == 1.0
  {
    if interests == [] || tags == [] then 1.0
    else
      var score := MatchCount(tags, interests) as real / Min(|interests|, |tags|) as real;
      if score < 1.0 then score else 1.0
  }

  /** The score is 1 exactly when there is no profile data or at least the smaller count of tags match. */
  lemma ProfileScoreFull(tags: seq<string>, interests: seq<string>)
    ensures ProfileScore(tags, interests) == 1.0 <==>
      interests == [] || tags == [] || MatchCount(tags, interests) >= Min(|interests|, |tags|)
  {
    if interests != [] && tags != [] {
      RatioAtLeastOne(MatchCount(tags, interests) as real, Min(|interests|, |tags|) as real);
    }
  }

  lemma RatioAtLeastOne(m: real, d: real)
    requires d > 0.0
    ensures m / d >= 1.0 <==> m >= d
  {
    var q := m / d;
    assert q * d == m;
    if q >= 1.0 {
      assert q * d >= 1.0 * d;
    } else {
      assert q * d < 1.0 * d;
    }
  }

  /** No tag matching means a zero score when there is profile data. */
  lemma {:induction false} ProfileScoreNoMatch(tags: seq<string>, interests: seq<string>)
    requires interests != [] && tags != []
    requires forall t :: t in tags ==> !IsInterest(interests, t)
    ensures ProfileScore(tags, interests) == 0.0
  {
    NoMatchCount(tags, interests);
  }

  lemma {:induction false} NoMatchCount(tags: seq<string>, interests: seq<string>)
    requires forall t :: t in tags ==> !IsInterest(interests, t)
    ensures MatchCount(tags, interests) == 0
  {
    if tags != [] {
      assert tags[|tags| - 1] in tags;
      assert forall t :: t in tags[..|tags| - 1] ==> t in tags;
      NoMatchCount(tags[..|tags| - 1], interests);
    }
  }

  lemma LowerIdempotent(s: string)
    ensures Lower(Lower(s)) == Lower(s)
  {
  }

  function LowerAll(interests: seq<string>): (r: seq<string>)
    ensures |r| == |interests|
    ensures forall k :: 0 <= k < |interests| ==> r[k] == Lower(interests[k])
  {
    seq(|interests|, k requires 0 <= k < |interests| => Lower(interests[k]))
  }

  /** Matching ignores case: lowercasing the interests changes no score. */
  lemma ProfileScoreIgnoresCase(tags: seq<string>, interests: seq<string>)
    ensures ProfileScore(tags, LowerAll(interests)) == ProfileScore(tags, interests)
  {
    var lowered := LowerAll(interests);
    forall t ensures IsInterest(lowered, t) == IsInterest(interests, t) {
      if IsInterest(interests, t) {
        var i :| i in interests && EqIgnoreAsciiCase(i, t);
        var k :| 0 <= k < |interests| && interests[k] == i;
        LowerIdempotent(i);
        assert lowered[k] in lowered && EqIgnoreAsciiCase(lowered[k], t);
      }
      if IsInterest(lowered, t) {
        var i :| i in lowered && EqIgnoreAsciiCase(i, t);
        var k :| 0 <= k < |lowered| && lowered[k] == i;
        LowerIdempotent(interests[k]);
        assert interests[k] in interests && EqIgnoreAsciiCase(interests[k], t);
      }
    }
    MatchCountCongruent(tags, lowered, interests);
  }

  lemma {:induction false} MatchCountCongruent(tags: seq<string>, a: seq<string>, b: seq<string>)
    requires forall t :: IsInterest(a, t) == IsInterest(b, t)
    ensures MatchCount(tags, a) == MatchCount(tags, b)
  {
    if tags != [] {
      MatchCountCongruent(tags[..|tags| - 1], a, b);
    }
  }

  // ---------------------------------------------------------------- combined score

  /** The text the summarizer scores: plain-text content, else the summary, else the title. */
  function ScoringText(a: Article): (text: string)
    ensures a.contentText.Some? ==> text == a.contentText.value
    ensures a.contentText.None? && a.summary.Some? ==> text == a.summary.value
    ensures a.contentText.None? && a.summary.None? ==> text == a.title
  {
    a.contentText.OrElse(a.summary).UnwrapOr(a.title)
  }

  /** The AI score: the summarizer's answer, or 1 when there is none or it fails. */
  function AiScore(summarizer: Option<Scorer>, text: string, interests: seq<string>): (r: real)
    ensures summarizer.None? ==> r == 1.0
    ensures summarizer.Some? && summarizer.value(text, interests).Err? ==> r == 1.0
    ensures summarizer.Some? && summarizer.value(text, interests).Ok? ==> r == summarizer.value(text, interests).value
  {
    match summarizer
    case None => 1.0
    case Some(score) =>
      match score(text, interests)
      case Ok(s) => s
      case Err(_) => 1.0
  }

  /** `score_article`: 40% profile score plus 60% AI score. */
  function ScoreArticle(f: Filter, a: Article, interests: seq<string>): real
  {
    ProfileScore(a.tags, interests) * PROFILE_SHARE + AiScore(f.summarizer, ScoringText(a), interests) * AI_SHARE
  }

  /**
   * Without a working AI score the article scores at least 0.6 (only the
   * profile part varies), so it passes any threshold up to 0.6.
   */
  lemma ScoreWithoutAi(f: Filter, a: Article, interests: seq<string>)
    requires f.summarizer.None? || f.summarizer.value(ScoringText(a), interests).Err?
    ensures 0.6 <= ScoreArticle(f, a, interests) <= 1.0
    ensures ScoreArticle(f, a, interests) == 1.0 <==> ProfileScore(a.tags, interests) == 1.0
  {
  }

  /** With an AI score in [0, 1] the combined score is in [0, 1] as well. */
  lemma ScoreBounds(f: Filter, a: Article, interests: seq<string>)
    requires f.summarizer.Some? ==> var s := f.summarizer.value(ScoringText(a), interests); s.Ok? ==> 0.0 <= s.value <= 1.0
    ensures 0.0 <= ScoreArticle(f, a, interests) <= 1.0
  {
  }

  // ---------------------------------------------------------------- filtering

  function Passes(f: Filter, interests: seq<string>): Article -> bool
  {
    (a: Article) => ScoreArticle(f, a, interests) >= f.threshold
  }

  function Fails(f: Filter, interests: seq<string>): Article -> bool
  {
    (a: Article) => ScoreArticle(f, a, interests) < f.threshold
  }

  /** The ids of the filtered-out articles, in input order. */
  function RejectedIds(articles: seq<Article>, f: Filter, interests: seq<string>): (r: seq<Id>)
    ensures forall id :: id in r <==> exists a :: a in articles && Fails(f, interests)(a) && a.id == id
  {
    if articles == [] then []
    else
      var init := articles[..|articles| - 1];
      var last := articles[|articles| - 1];
      assert forall a :: a in articles <==> a in init || a == last;
      RejectedIds(init, f, interests) + (if Fails(f, interests)(last) then [last.id] else [])
  }

  /** The articles table after `mark_read` on each id in turn. */
  function MarkReadAll(articles: seq<Article>, ids: seq<Id>, now: int): seq<Article>
  {
    if ids == [] then articles
    else UpdateById(MarkReadAll(articles, ids[..|ids| - 1], now), ids[|ids| - 1], MarkReadRow(now))
  }

  /** Marking a list of ids read marks exactly the rows with those ids, keeping every row's place. */
  lemma {:induction false} MarkReadAllSpec(articles: seq<Article>, ids: seq<Id>, now: int)
    ensures var r := MarkReadAll(articles, ids, now);
      && |r| == |articles|
      && (forall i :: 0 <= i < |articles| && articles[i].id in ids ==> r[i] == articles[i].(isRead := true, readAt := Some(now)))
      && (forall i :: 0 <= i < |articles| && articles[i].id !in ids ==> r[i] == articles[i])
  {
    if ids != [] {
      var init := ids[..|ids| - 1];
      MarkReadAllSpec(articles, init, now);
      assert forall x :: x in ids <==> x in init || x == ids[|ids| - 1];
    }
  }

  lemma MarkReadAllKeepsValid(articles: seq<Article>, ids: seq<Id>, now: int)
    ensures ArticlesWellFormed(articles) ==> ArticlesWellFormed(MarkReadAll(articles, ids, now))
    ensures ArticleIds(MarkReadAll(articles, ids, now)) == ArticleIds(articles)
    ensures forall a :: a in MarkReadAll(articles, ids, now) ==> exists b :: b in articles && b.feedId == a.feedId
    decreases |ids|
  {
    if ids != [] {
      var prev := MarkReadAll(articles, ids[..|ids| - 1], now);
      MarkReadAllKeepsValid(articles, ids[..|ids| - 1], now);
      UpdateKeepsKeys(prev, ids[|ids| - 1], MarkReadRow(now));
    }
  }

  /** The reader's interests as `filter_articles` reads them. */
  function Interests(prefs: seq<PrefRow>): seq<string>
  {
    GetTopTags(prefs, Last30Days, INTEREST_LIMIT)
  }

  /**
   * `filter_articles`: returns, in input order, the articles whose score
   * reaches the threshold, and marks every other one read. An empty input
   * returns at once and changes nothing.
   */
  method FilterArticles(db: Database, f: Filter, articles: seq<Article>, now: int) returns (passed: seq<Article>)
    requires db.Valid()
    modifies db
    ensures db.Valid()
    ensures passed == Where(articles, Passes(f, Interests(old(db.preferences))))
    ensures db.articles == MarkReadAll(old(db.articles), RejectedIds(articles, f, Interests(old(db.preferences))), now)
    ensures articles == [] ==> passed == [] && db.articles == old(db.articles)
    ensures db.feeds == old(db.feeds) && db.tags == old(db.tags) && db.styles == old(db.styles)
    ensures db.events == old(db.events) && db.preferences == old(db.preferences)
  {
    passed := [];
    if articles == [] {
      return;
    }
    var interests := Interests(db.preferences);
    var k := 0;
    while k < |articles|
      invariant k <= |articles|
      invariant db.Valid()
      invariant passed == Where(articles[..k], Passes(f, interests))
      invariant db.articles == MarkReadAll(old(db.articles), RejectedIds(articles[..k], f, interests), now)
      invariant (db.feeds, db.tags, db.styles) == (old(db.feeds), old(db.tags), old(db.styles))
      invariant (db.events, db.preferences) == (old(db.events), old(db.preferences))
      decreases |articles| - k
    {
      FilterStep(articles, k, f, interests);
      var keep := FilterOne(db, f, interests, articles[k], now, old(db.articles), RejectedIds(articles[..k], f, interests));
      if keep {
        passed := passed + [articles[k]];
      }
      k := k + 1;
    }
    assert articles[..k] == articles;
  }

  /**
   * One article of the loop: it is kept when its score reaches the
   * threshold, and otherwise marked read, extending the rejected ids.
   */
  method FilterOne(db: Database, f: Filter, interests: seq<string>, a: Article, now: int, ghost before: seq<Article>, ghost ids: seq<Id>)
    returns (keep: bool)
    requires db.Valid() && db.articles == MarkReadAll(before, ids, now)
    modifies db
    ensures db.Valid()
    ensures keep == Passes(f, interests)(a) && keep == !Fails(f, interests)(a)
    ensures db.articles == MarkReadAll(before, ids + (if Fails(f, interests)(a) then [a.id] else []), now)
    ensures (db.feeds, db.tags, db.styles) == (old(db.feeds), old(db.tags), old(db.styles))
    ensures (db.events, db.preferences) == (old(db.events), old(db.preferences))
  {
    var score := ScoreArticle(f, a, interests);
    keep := score >= f.threshold;
    if keep {
      assert ids + [] == ids;
    } else {
      MarkReadAllSnoc(before, ids, a.id, now);
      MarkRead(db, a.id, now);
    }
  }

  lemma FilterStep(articles: seq<Article>, k: nat, f: Filter, interests: seq<string>)
    requires k < |articles|
    ensures Where(articles[..k + 1], Passes(f, interests))
      == Where(articles[..k], Passes(f, interests)) + (if Passes(f, interests)(articles[k]) then [articles[k]] else [])
    ensures RejectedIds(articles[..k + 1], f, interests)
      == RejectedIds(articles[..k], f, interests) + (if Fails(f, interests)(articles[k]) then [articles[k].id] else [])
  {
    assert articles[..k + 1] == articles[..k] + [articles[k]];
    assert articles[..k + 1][..k] == articles[..k];
    WhereSnoc(articles[..k], articles[k], Passes(f, interests));
  }

  lemma MarkReadAllSnoc(articles: seq<Article>, ids: seq<Id>, id: Id, now: int)
    ensures MarkReadAll(articles, ids + [id], now) == UpdateById(MarkReadAll(articles, ids, now), id, MarkReadRow(now))
  {
    assert (ids + [id])[..|ids|] == ids;
  }

  /**
   * After filtering, every stored article that some filtered-out input
   * names is read, and every stored article no filtered-out input names
   * is unchanged.
   */
  lemma FilterMarksRejected(before: seq<Article>, articles: seq<Article>, f: Filter, interests: seq<string>, now: int)
    ensures var after := MarkReadAll(before, RejectedIds(articles, f, interests), now);
      && |after| == |before|
      && (forall i :: 0 <= i < |before| && (exists a :: a in articles && Fails(f, interests)(a) && a.id == before[i].id) ==>
            after[i].isRead && after[i].readAt == Some(now))
      && (forall i :: 0 <= i < |before| && (forall a :: a in articles && a.id == before[i].id ==> Passes(f, interests)(a)) ==>
            after[i] == before[i])
  {
    MarkReadAllSpec(before, RejectedIds(articles, f, interests), now);
  }

  /** Every input article either passes or is filtered out, never both. */
  lemma FilterPartitions(articles: seq<Article>, f: Filter, interests: seq<string>)
    ensures |Where(articles, Passes(f, interests))| + |Where(articles, Fails(f, interests))| == |articles|
  {
    WhereSplit(articles, Passes(f, interests));
    WhereCongruent(articles, (x: Article) => !Passes(f, interests)(x), Fails(f, interests));
  }

  /** Without a summarizer and with a threshold of at most 0.6 (the default is 0.3) nothing is filtered out. */
  lemma {:induction false} NoSummarizerKeepsAll(articles: seq<Article>, f: Filter, interests: seq<string>)
    requires f.summarizer.None? && f.threshold <= 0.6
    ensures Where(articles, Passes(f, interests)) == articles
    ensures RejectedIds(articles, f, interests) == []
  {
    if articles != [] {
      NoSummarizerKeepsAll(articles[1..], f, interests);
      NoSummarizerKeepsAll(articles[..|articles| - 1], f, interests);
      ScoreWithoutAi(f, articles[0], interests);
      ScoreWithoutAi(f, articles[|articles| - 1], interests);
      assert [articles[0]] + articles[1..] == articles;
    }
  }
}
