/**
 * The SQLite database as in-memory tables. Rows are kept in insertion order;
 * the schema's keys and foreign keys are the invariant `Valid`:
 * feeds have unique ids and unique urls, articles unique ids and a unique
 * (feed_id, guid) pair, and every article, tag and style row refers to a
 * row that exists (deletes cascade).
 */
module Storage {
  import opened Wrappers
  import opened FeedModels
  import opened ProfileModels
  import Retry

  type DbError = Retry.DbError

  /** SQLITE_CONSTRAINT_UNIQUE, SQLITE_CONSTRAINT_FOREIGNKEY and sqlx's "no row" error. */
  const UNIQUE_VIOLATION: DbError := Retry.Database(Some("2067"))
  const FOREIGN_KEY_VIOLATION: DbError := Retry.Database(Some("787"))
  const ROW_NOT_FOUND: DbError := Retry.OtherError("no rows returned by a query that expected to return at least one row")

  /** A constraint violation is not a transient condition: it is never retried. */
  lemma ConstraintErrorsAreFinal()
    ensures !Retry.IsTransientError(UNIQUE_VIOLATION)
    ensures !Retry.IsTransientError(FOREIGN_KEY_VIOLATION)
    ensures !Retry.IsTransientError(ROW_NOT_FOUND)
  {
  }

  /** A row of `article_tags`; (article_id, tag) is its primary key. */
  datatype TagRow = TagRow(articleId: Id, tag: string, source: string, createdAt: int)

  /** A row of `article_styles`, keyed by article id. */
  datatype Style = Style(styleType: Option<string>, tone: Option<string>, lengthCategory: Option<string>, computedAt: int)

  /** A row of `behavior_events`; the event type is stored as text. */
  datatype Event = Event(articleId: Option<Id>, feedId: Option<Id>, eventType: string, timeOfDay: TimeOfDay, createdAt: int)

  /** The unique key of `user_preferences`. */
  datatype PrefKey = PrefKey(kind: PreferenceType, key: string, window: TimeWindow)

  /** A row of `user_preferences`, in rowid order. */
  datatype PrefRow = PrefRow(key: PrefKey, weight: real, computedAt: int)

  function FeedIds(feeds: seq<Feed>): set<Id>
  {
    set f | f in feeds :: f.id
  }

  function ArticleIds(articles: seq<Article>): set<Id>
  {
    set a | a in articles :: a.id
  }

  ghost predicate FeedsWellFormed(feeds: seq<Feed>)
  {
    forall i, j :: 0 <= i < j < |feeds| ==> feeds[i].id != feeds[j].id && feeds[i].url != feeds[j].url
  }

  ghost predicate ArticlesWellFormed(articles: seq<Article>)
  {
    forall i, j :: 0 <= i < j < |articles| ==>
      articles[i].id != articles[j].id
      && (articles[i].feedId != articles[j].feedId || articles[i].guid != articles[j].guid)
  }

  ghost predicate TagsWellFormed(tags: seq<TagRow>)
  {
    forall i, j :: 0 <= i < j < |tags| ==>
      tags[i].articleId != tags[j].articleId || tags[i].tag != tags[j].tag
  }

  /** No two preference rows share the (preference_type, preference_key, time_window) key. */
  ghost predicate PrefsWellFormed(prefs: seq<PrefRow>)
  {
    forall i, j :: 0 <= i < j < |prefs| ==> prefs[i].key != prefs[j].key
  }

  /** Every article belongs to an existing feed, every tag and style row to an existing article. */
  ghost predicate References(feeds: seq<Feed>, articles: seq<Article>, tags: seq<TagRow>, styles: map<Id, Style>)
  {
    (forall a :: a in articles ==> a.feedId in FeedIds(feeds))
    && (forall t :: t in tags ==> t.articleId in ArticleIds(articles))
    && (forall id :: id in styles ==> id in ArticleIds(articles))
  }

  /** The contents of all six tables at one moment. */
  datatype Tables = Tables(feeds: seq<Feed>, articles: seq<Article>, tags: seq<TagRow>, styles: map<Id, Style>,
                           events: seq<Event>, preferences: seq<PrefRow>)

  class Database {
    var feeds: seq<Feed>
    var articles: seq<Article>
    var tags: seq<TagRow>
    var styles: map<Id, Style>
    var events: seq<Event>
    var preferences: seq<PrefRow>

    ghost predicate Valid()
      reads this
    {
      FeedsWellFormed(feeds) && ArticlesWellFormed(articles) && TagsWellFormed(tags)
      && References(feeds, articles, tags, styles) && PrefsWellFormed(preferences)
    }

    function State(): Tables
      reads this
    {
      Tables(feeds, articles, tags, styles, events, preferences)
    }

    /** A freshly migrated, empty database. */
    constructor()
      ensures Valid()
      ensures feeds == [] && articles == [] && tags == [] && styles == map[]
      ensures events == [] && preferences == []
    {
      feeds := [];
      articles := [];
      tags := [];
      styles := map[];
      events := [];
      preferences := [];
    }
  }
}
