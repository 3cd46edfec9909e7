/**
 * Article style classifications: one row per article, written by upsert,
 * and the query for summarized articles that still lack a classification.
 */
module StyleRepo {
  import opened Wrappers
  import opened FeedModels
  import opened Storage
  import opened Sorting

  /** What the classifier returns for one article. */
  datatype StyleResult = StyleResult(styleType: string, tone: string, lengthCategory: string)

  /** The style row written for a classification at time `now`. */
  function StyleRow(s: StyleResult, now: int): Style
  {
    Style(Some(s.styleType), Some(s.tone), Some(s.lengthCategory), now)
  }

  /**
   * `upsert`: `INSERT ... ON CONFLICT(article_id) DO UPDATE`, so an article
   * has at most one row, replaced on every call. A row for an article that
   * does not exist violates the foreign key, which is not a transient error,
   * so the retry wrapper returns it after the first attempt.
   */
  method Upsert(db: Database, articleId: Id, s: StyleResult, now: int) returns (r: Result<(), DbError>)
    requires db.Valid()
    modifies db
    ensures db.Valid()
    ensures db.feeds == old(db.feeds) && db.articles == old(db.articles) && db.tags == old(db.tags)
    ensures db.events == old(db.events) && db.preferences == old(db.preferences)
    ensures articleId in ArticleIds(db.articles) ==> r == Ok(()) && db.styles == old(db.styles)[articleId := StyleRow(s, now)]
    ensures articleId !in ArticleIds(db.articles) ==> r == Err(FOREIGN_KEY_VIOLATION) && db.styles == old(db.styles)
  {
    if articleId !in ArticleIds(db.articles) {
      Storage.ConstraintErrorsAreFinal();
      return Err(FOREIGN_KEY_VIOLATION);
    }
    db.styles := db.styles[articleId := StyleRow(s, now)];
    r := Ok(());
  }

  /** `find_by_article`. */
  function FindByArticle(styles: map<Id, Style>, articleId: Id): (r: Option<Style>)
    ensures r.Some? <==> articleId in styles
    ensures r.Some? ==> r.value == styles[articleId]
  {
    if articleId in styles then Some(styles[articleId]) else None
  }

  /** `count_classified`: the number of style rows. */
  function CountClassified(styles: map<Id, Style>): (n: nat)
    ensures n == |styles.Keys|
  {
    |styles|
  }

  /**
   * Upserting twice for the same article leaves one row holding the second
   * classification, the count grows by one only for a first classification,
   * and the row read back is the one just written.
   */
  lemma UpsertSpec(styles: map<Id, Style>, articleId: Id, s1: StyleResult, t1: int, s2: StyleResult, t2: int)
    ensures styles[articleId := StyleRow(s1, t1)][articleId := StyleRow(s2, t2)] == styles[articleId := StyleRow(s2, t2)]
    ensures CountClassified(styles[articleId := StyleRow(s1, t1)]) == CountClassified(styles) + (if articleId in styles then 0 else 1)
    ensures var found := FindByArticle(styles[articleId := StyleRow(s1, t1)], articleId);
      found.Some? && found.value.styleType == Some(s1.styleType) && found.value.tone == Some(s1.tone)
      && found.value.lengthCategory == Some(s1.lengthCategory)
  {
    var m := styles[articleId := StyleRow(s1, t1)];
    if articleId in styles {
      assert m.Keys == styles.Keys;
    } else {
      assert m.Keys == styles.Keys + {articleId};
    }
  }

  /** The filter of `list_unclassified`; `length(NULL)` is NULL, so an article without content is not listed. */
  predicate Unclassified(a: Article, styles: map<Id, Style>)
  {
    a.id !in styles && a.summary.Some? && a.content.Some? && |a.content.value| >= 500
  }

  predicate NewestFetchedFirst(a: Article, b: Article)
  {
    a.fetchedAt >= b.fetchedAt
  }

  /** `list_unclassified(limit)`: ORDER BY fetched_at DESC LIMIT limit; a negative limit lists all. */
  function ListUnclassified(articles: seq<Article>, styles: map<Id, Style>, limit: int): (r: seq<Article>)
    ensures limit >= 0 ==> |r| <= limit
  {
    TopN(Where(articles, (a: Article) => Unclassified(a, styles)), NewestFetchedFirst, limit)
  }

  /**
   * Only summarized articles without a style row and with at least 500
   * characters of content are listed, newest fetch first, and no omitted
   * candidate was fetched later than a listed one.
   */
  lemma ListUnclassifiedSpec(articles: seq<Article>, styles: map<Id, Style>, limit: int)
    ensures var r := ListUnclassified(articles, styles, limit);
      && (forall a :: a in r ==> a in articles && a.id !in styles && a.summary.Some? && a.content.Some? && |a.content.value| >= 500)
      && SortedBy(r, NewestFetchedFirst)
      && (forall a, b :: a in r && b in articles && Unclassified(b, styles) && b !in r ==> a.fetchedAt >= b.fetchedAt)
      && (limit < 0 ==> forall a :: a in articles && Unclassified(a, styles) ==> a in r)
  {
    var candidates := Where(articles, (a: Article) => Unclassified(a, styles));
    TopNSpec(candidates, NewestFetchedFirst, limit);
    if limit < 0 {
      TopNUnlimited(candidates, NewestFetchedFirst, limit);
    }
  }

  /** Once an article is classified it is no longer listed as unclassified. */
  lemma UpsertRemovesFromUnclassified(articles: seq<Article>, styles: map<Id, Style>, articleId: Id, s: StyleResult, now: int, limit: int)
    ensures forall a :: a in ListUnclassified(articles, styles[articleId := StyleRow(s, now)], limit) ==> a.id != articleId
  {
    ListUnclassifiedSpec(articles, styles[articleId := StyleRow(s, now)], limit);
  }
}
