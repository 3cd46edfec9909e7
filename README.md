# kenseader, modelled in Dafny

kenseader is a terminal RSS reader. A background daemon fetches feeds, stores
articles in SQLite, summarizes and scores them with an AI command-line tool,
and learns the reader's interests from behaviour events. A terminal front end
talks to the daemon over a local socket and presents feeds, article lists and
article bodies with Vim-style keys.

This project models the logic of both halves that is not rendering, I/O or
concurrency, and proves properties of it:

- **Storage** (`database.dfy`, `article_repo.dfy`, `feed_repo.dfy`,
  `style_repo.dfy`, `retry.dfy`). The database is a `Database` class whose
  tables are sequences and maps. Its schema keys are the invariant `Valid`.
  Every repository statement is a method proved against a function of the old
  tables. Covered: deduplicating ingest with a merge on re-ingest, read, saved
  and tag flags, cascading deletes, style upserts, retention cleanup, and the
  bounded exponential-backoff retry around all of it.
- **Profile** (`profile_models.dfy`, `analyzer.dfy`, `filter.dfy`). Event
  weights, the tag, feed and time-of-day affinity aggregation, and the 40/60
  profile-plus-AI relevance score with the threshold filter.
- **AI provider** (`cli_base.dfy`). Input guards, character truncation, tag
  and score parsing of the tool's output, and batch result assembly.
- **Daemon** (`protocol.dfy`, `server.dfy`, `tasks.dfy`). The JSON-RPC style
  envelope, request dispatch over the store, and the refresh, cleanup and
  summarize jobs.
- **Feeds** (`fetcher.dfy`, `feed_models.dfy`, `opml.dfy`, `config.dfy`).
  RSSHub rewriting, User-Agent rotation, the response checks, OPML import,
  and the configuration defaults and paths.
- **Front end**:
  - `app.dfy` holds the `App` navigation state machine and the article
    height bookkeeping.
  - `input.dfy` and `keymap.dfy` cover key handling and Vim-style key
    notation.
  - `themes.dfy` covers hex colours and themes.
  - `scroll_config.dfy` and `scroll_animation.dfy` cover the integer part of
    the scroll animator.
  - `kitty.dfy` and `ueberzug.dfy` cover image-protocol bookkeeping and JSON
    escaping.
  - `rich_content.dfy` holds the HTML simplification helpers.
  - `article_list.dfy`, `article_detail.dfy` and `popup.dfy` hold the text
    layout helpers of the widgets.
- **Shared modules** (`wrappers.dfy`, `text.dfy`, `numeric.dfy`,
  `sorting.dfy`). Option and Result types, Rust string primitives, unsigned
  saturating arithmetic, and ORDER BY ... LIMIT.

Clocks, UUID generation, the network, the AI tool and the SQL text are
parameters or oracles of the model. Each one is named where it is used.

## Model

| member | source | states |
|---|---|---|
| Retry.IsTransientError | crates/kenseader-core/src/storage/retry.rs:27-48 | holds exactly for a database error whose SQLite code is one of the eleven busy, locked and I/O codes; never for any other error |
| Retry.BackoffDoubles | crates/kenseader-core/src/storage/retry.rs:54-56 | from attempt 1 on, each retry waits twice as long as the one before |
| Retry.BackoffSchedule | crates/kenseader-core/src/storage/retry.rs:54-56 | attempt 0 waits 200 ms because the exponent saturates; attempts 1 to 5 wait 200, 400, 800, 1600 and 3200 ms, as the unit test expects |
| Retry.RetryFrom | crates/kenseader-core/src/storage/retry.rs:97-115 | the retry loop makes at least one and at most MAX_RETRIES + 1 = 6 calls, returns the last call's result, every earlier call failed with a transient error, and an error is returned only when it is not transient or the retries are used up |
| Retry.NonTransientNotRetried | crates/kenseader-core/src/storage/retry.rs:101-113 | a first call failing with a non-transient error is returned as it is, after that one call |
| Retry.SuccessAfterTransients | crates/kenseader-core/src/storage/retry.rs:99-112 | after k transient failures (k at most 5), a success is returned unchanged, after k + 1 calls |
| Retry.QueryWithRetry | crates/kenseader-core/src/storage/retry.rs:92-116 | the loop returns the result and call count of the retry specification, between 1 and 6 calls, and sleeps exactly the backoff schedule of the retries it made |
| Retry.Backoffs | crates/kenseader-core/src/storage/retry.rs:104-108 | the sleeps before the first n retries: retry i waits backoff_delay(i) |
| Retry.BackoffsSnoc | crates/kenseader-core/src/storage/retry.rs:104-108 | one more retry appends the next backoff delay to the schedule |
| Retry.ExecuteWithRetry | crates/kenseader-core/src/storage/retry.rs:62-86 | the same loop for writes: result and call count of the specification, and an error only when every call failed |
| Storage.ConstraintErrorsAreFinal | crates/kenseader-core/src/storage/retry.rs:27-48 | unique and foreign-key violations and the missing-row error are not transient, so they are never retried |
| Storage.Database.constructor | crates/kenseader-core/src/storage/database.rs:178-264 | a freshly migrated database has empty tables and satisfies the schema's key and reference constraints |
| FeedModels.PreviewSource | crates/kenseader-core/src/feed/models.rs:77-79 | the preview is cut from the plain-text content when present, else from the summary, else from the empty string |
| FeedModels.FittingPrefix | crates/kenseader-core/src/feed/models.rs:87-94 | the cut keeps k characters whose UTF-8 encoding fits in max_len bytes, and one more character would not fit |
| FeedModels.FittingPrefixFrom | crates/kenseader-core/src/feed/models.rs:87-94 | scanning on from a fitting prefix ends at a fitting prefix that cannot be extended by one character |
| FeedModels.FittingPrefixLongest | crates/kenseader-core/src/feed/models.rs:87-94 | no longer prefix fits: the cut is at the last character boundary within the byte limit |
| FeedModels.ContentPreview | crates/kenseader-core/src/feed/models.rs:76-98 | the loop computes the preview specification: "" for max_len 0, the whole text when its byte length fits, and otherwise at most max_len bytes of it followed by "..." |
| ProfileModels.ParseEventType | crates/kenseader-core/src/profile/models.rs:28-39 | any event type read back from a stored name has exactly that name |
| ProfileModels.EventTypeNameRoundTrip | crates/kenseader-core/src/profile/models.rs:28-39 | reading back the name of an event type gives that event type |
| ProfileModels.EventTypeNameInjective | crates/kenseader-core/src/profile/models.rs:28-39 | no two event types share a name |
| ProfileModels.WeightBounds | crates/kenseader-core/src/profile/models.rs:42-53 | every event weight is positive and at most 5.0, and the weight is 5.0 exactly for a save or a share |
| ProfileModels.TimeOfDayFromHour | crates/kenseader-core/src/profile/models.rs:71-78 | hours 6-11 are morning, 12-17 afternoon, 18-21 evening, and every other hour is night, each in both directions |
| ProfileModels.TimeOfDayNameInjective | crates/kenseader-core/src/profile/models.rs:80-87 | no two periods of the day share a name |
| ProfileModels.TimeWindowNameInjective | crates/kenseader-core/src/profile/models.rs:103-109 | no two time windows share a name |
| ProfileModels.PreferenceTypeNameInjective | crates/kenseader-core/src/profile/models.rs:143-150 | no two preference types share a name |
| FeedRepo.FindById | crates/kenseader-core/src/storage/feed_repo.rs:78-92 | a feed is found exactly when a row with that id exists, and the row found has that id |
| FeedRepo.FindByUrl | crates/kenseader-core/src/storage/feed_repo.rs:95-109 | a feed is found exactly when a row with that url exists, and the row found has that url |
| FeedRepo.FindByUrlUnique | crates/kenseader-core/src/storage/feed_repo.rs:95-109 | since urls are UNIQUE, the lookup by url returns the one feed with that url |
| FeedRepo.Create | crates/kenseader-core/src/storage/feed_repo.rs:54-75 | an already subscribed url is rejected by the UNIQUE constraint with no change; otherwise exactly one row with the fresh id, the url, the local name and the timestamps is appended and returned as re-read by id; other tables are unchanged and the schema constraints still hold |
| FeedRepo.ByLocalNameOrder | crates/kenseader-core/src/storage/feed_repo.rs:118 | ordering by local_name is a total preorder, so sorting by it is well defined |
| FeedRepo.FeedList | crates/kenseader-core/src/storage/feed_repo.rs:112-139 | the listing has one entry per feed |
| FeedRepo.FeedListSpec | crates/kenseader-core/src/storage/feed_repo.rs:112-139 | the listing is sorted by local name and holds exactly the feeds, each with unread_count equal to the number of its unread articles |
| FeedRepo.ListAll | crates/kenseader-core/src/storage/feed_repo.rs:112-139 | the loop over the sorted feeds, writing each unread count, yields the listing specification |
| FeedRepo.Count | crates/kenseader-core/src/storage/feed_repo.rs:210-216 | the count is the number of feed rows |
| FeedRepo.CountDistinct | crates/kenseader-core/src/storage/feed_repo.rs:210-216 | since ids are unique, the count is the number of distinct feed ids |
| FeedRepo.UpdateFeed | crates/kenseader-core/src/storage/feed_repo.rs:152-173 | an UPDATE ... WHERE id = ? changes exactly the rows with that id and keeps every other row and the row order |
| FeedRepo.UpdateMetadata | crates/kenseader-core/src/storage/feed_repo.rs:142-176 | only the feed with that id is rewritten, by COALESCE on title, description, site and icon url, with last_fetched_at set and fetch_error cleared; other tables are unchanged and the constraints still hold |
| FeedRepo.UpdateFetchError | crates/kenseader-core/src/storage/feed_repo.rs:179-197 | only the feed with that id is rewritten, with fetch_error set and updated_at bumped; last_fetched_at and other tables are unchanged |
| FeedRepo.FindAfterUpdate | crates/kenseader-core/src/storage/feed_repo.rs:152-173 | the next lookup of an updated id sees the update applied to the row it found before |
| FeedRepo.FetchErrorThenSuccess | crates/kenseader-core/src/storage/feed_repo.rs:142-197 | after a failed fetch the feed has that error; a later successful fetch clears it, sets last_fetched_at and keeps every metadata field the fetch did not supply |
| FeedRepo.Delete | crates/kenseader-core/src/storage/feed_repo.rs:200-207 | returns true exactly when a feed with that id existed; the feed, its articles and (by cascade) their tags and styles are removed, events of removed rows are detached, preferences are kept, and the constraints still hold |
| FeedRepo.DeleteRemovesFeed | crates/kenseader-core/src/storage/feed_repo.rs:200-207 | after a delete the feed is not found, no article of it remains, and every other feed is kept |
| ArticleRepo.IndexOfId | crates/kenseader-core/src/storage/article_repo.rs:144-156 | the position found holds the row with that primary key, and there is none exactly when no row has it |
| ArticleRepo.IndexOfKey | crates/kenseader-core/src/storage/article_repo.rs:109 | the position found holds the row with that (feed_id, guid), and there is none only when no row has that pair |
| ArticleRepo.FindRow | crates/kenseader-core/src/storage/article_repo.rs:144-156 | a row is found exactly when one has that id, and it is that row |
| ArticleRepo.IngestCount | crates/kenseader-core/src/storage/article_repo.rs:73-127 | an INSERT OR IGNORE with a new (feed_id, guid) adds exactly one row; a known pair adds none |
| ArticleRepo.IngestDuplicateMerges | crates/kenseader-core/src/storage/article_repo.rs:98-123 | on a duplicate, the stored row keeps its id, read, saved and summary state; the title is overwritten, fetched_at set to now, and url, author, content, content_text, published_at and image_url keep their old value when the new one is absent |
| ArticleRepo.IngestWellFormed | crates/kenseader-core/src/storage/article_repo.rs:73-127 | ingesting keeps the ids and the (feed_id, guid) pairs unique and adds the fresh id exactly when the item is new |
| ArticleRepo.IngestTwiceSameCount | crates/kenseader-core/src/storage/article_repo.rs:73-127 | ingesting the same item twice leaves as many rows as ingesting it once, and the second time it is a duplicate |
| ArticleRepo.Create | crates/kenseader-core/src/storage/article_repo.rs:68-128 | a duplicate (feed_id, guid) is merged and answers None; a new item of an existing feed is appended and returned; a new item of an unknown feed fails on the foreign key with no change; other tables are untouched and the constraints still hold |
| ArticleRepo.IngestAllCount | crates/kenseader-core/src/storage/article_repo.rs:131-141 | the count create_many returns is exactly the number of rows it added, and rows are never lost |
| ArticleRepo.IngestAllError | crates/kenseader-core/src/storage/article_repo.rs:131-141 | the only error create_many passes on is the foreign-key violation of a create |
| ArticleRepo.IngestIds | crates/kenseader-core/src/storage/article_repo.rs:68-128 | create only ever adds a row under the fresh id it was given |
| ArticleRepo.IngestAllIds | crates/kenseader-core/src/storage/article_repo.rs:131-141 | create_many only ever adds rows under the fresh ids it was given |
| ArticleRepo.CreateMany | crates/kenseader-core/src/storage/article_repo.rs:131-141 | the loop over the items equals the fold of create over them, stops at the first error, and the returned count is the number of rows added |
| ArticleRepo.CreateNext | crates/kenseader-core/src/storage/article_repo.rs:134-138 | one item: its `create` error ends the loop as the outcome of the whole fold; otherwise the loop state still agrees with the fold, with the count raised exactly when a row was inserted |
| ArticleRepo.CreateManyStart | crates/kenseader-core/src/storage/article_repo.rs:131-133 | before the first item the whole outcome lies ahead and nothing has been counted |
| ArticleRepo.CreateManyDone | crates/kenseader-core/src/storage/article_repo.rs:139-140 | after the last item the table is the fold's table and the count is the number of rows added |
| ArticleRepo.UpdateById | crates/kenseader-core/src/storage/article_repo.rs:292-301 | an UPDATE ... WHERE id = ? rewrites exactly the row with that id and keeps every other row and the order |
| ArticleRepo.UpdateKeepsKeys | crates/kenseader-core/src/storage/article_repo.rs:292-301 | an update that does not touch id, feed_id or guid keeps the keys unique, the id set and the feed references |
| ArticleRepo.MarkRead | crates/kenseader-core/src/storage/article_repo.rs:289-305 | only the article with that id changes, getting is_read set and read_at = now; nothing else changes |
| ArticleRepo.MarkUnread | crates/kenseader-core/src/storage/article_repo.rs:308-321 | only the article with that id changes, getting is_read and read_at cleared; nothing else changes |
| ArticleRepo.MarkUnreadUndoesMarkRead | crates/kenseader-core/src/storage/article_repo.rs:289-321 | marking an unread article read and then unread restores the table exactly |
| ArticleRepo.ToggleSaved | crates/kenseader-core/src/storage/article_repo.rs:324-343 | flips is_saved on that article only and returns the new value, which is the negation of the old one; a missing id fails with the no-row error of the re-read |
| ArticleRepo.ToggleSavedTwice | crates/kenseader-core/src/storage/article_repo.rs:324-343 | toggling twice restores the table |
| ArticleRepo.UpdateSummary | crates/kenseader-core/src/storage/article_repo.rs:346-363 | only that article changes, getting the summary and its generation time |
| ArticleRepo.UpdateRelevanceScore | crates/kenseader-core/src/storage/article_repo.rs:366-380 | only that article changes, getting the relevance score |
| ArticleRepo.UnreadRowIds | crates/kenseader-core/src/storage/article_repo.rs:270-285 | an id is answered exactly when it was asked for and its article exists and is unread |
| ArticleRepo.FilterUnreadIds | crates/kenseader-core/src/storage/article_repo.rs:263-286 | empty input answers empty; otherwise an id is answered exactly when it was asked for and its article exists and is unread |
| ArticleRepo.FilterAfterMarks | crates/kenseader-core/src/storage/article_repo.rs:263-321 | after mark_read an id is no longer reported unread; after mark_unread an existing id is |
| ArticleRepo.ListUnsummarizedSpec | crates/kenseader-core/src/storage/article_repo.rs:238-259 | at most limit rows, each unread, without a summary and with content_text of at least min_length characters, newest created first, and no qualifying row left out is newer than one listed |
| ArticleRepo.PublishedFirstOrder | crates/kenseader-core/src/storage/article_repo.rs:177 | ORDER BY published_at DESC, created_at DESC with NULL dates last is a total preorder |
| ArticleRepo.Search | crates/kenseader-core/src/storage/article_repo.rs:434-474 | at most 100 articles, each from the table, matching the query under LIKE and of the feed asked for, if any |
| ArticleRepo.MatchesQuery | crates/kenseader-core/src/storage/article_repo.rs:435-456 | for a query without LIKE wildcards, an article matches exactly when its lower-cased title or plain-text content contains the lower-cased query |
| ArticleRepo.LikeAnything | crates/kenseader-core/src/storage/article_repo.rs:435 | the pattern "%" matches any text |
| ArticleRepo.LikeLiteral | crates/kenseader-core/src/storage/article_repo.rs:435-456 | a wildcard-free pattern prefix matches exactly a text prefix of the same length equal to it up to ASCII case, followed by a match of the rest |
| ArticleRepo.LikePercent | crates/kenseader-core/src/storage/article_repo.rs:435-456 | a leading "%" matches exactly when the rest of the pattern matches some suffix of the text |
| ArticleRepo.LikeContains | crates/kenseader-core/src/storage/article_repo.rs:435-456 | for a wildcard-free query, "%query%" matches exactly the texts that contain the query, ignoring ASCII case |
| ArticleRepo.UnderscoreMatchesAnyCharacter | crates/kenseader-core/src/storage/article_repo.rs:435-456 | an "_" in the query is not taken literally: the query "a_c" matches "a", any character, "c" |
| ArticleRepo.NewestPublishedFirstOrder | crates/kenseader-core/src/storage/article_repo.rs:434-474 | the search ordering is a total preorder |
| ArticleRepo.ListByFeed | crates/kenseader-core/src/storage/article_repo.rs:169-196 | never more rows than the table holds, and when every row is of that feed and unread ones are not asked for, all of them are listed |
| ArticleRepo.ListByFeedSpec | crates/kenseader-core/src/storage/article_repo.rs:169-196 | lists exactly the feed's articles, or only its unread ones when asked, newest published first |
| ArticleRepo.ListUnread | crates/kenseader-core/src/storage/article_repo.rs:217-234 | never more rows than the limit or the table, and when every article is unread exactly the limit (or all of them) are listed |
| ArticleRepo.ListUnreadSpec | crates/kenseader-core/src/storage/article_repo.rs:217-234 | at most limit unread articles, newest published first, and none left out comes before one listed |
| ArticleRepo.SearchSpec | crates/kenseader-core/src/storage/article_repo.rs:434-474 | only LIKE matches of the feed asked for, newest published first; no match left out is newer than a listed one, and with at most 100 matches every match is listed |
| ArticleRepo.InsertTagSpec | crates/kenseader-core/src/storage/article_repo.rs:387-397 | INSERT OR IGNORE of a tag keeps the (article_id, tag) pairs unique, adds exactly that pair and keeps every existing row |
| ArticleRepo.AddTags | crates/kenseader-core/src/storage/article_repo.rs:383-402 | for an existing article the tag pairs become the old ones plus one per tag given, with no duplicate, and each new row belongs to that article, holds one of the given tags and carries the given source and the time now; for a missing article nothing is written and the call fails unless the list is empty; no other table changes |
| ArticleRepo.TaggedWithStep | crates/kenseader-core/src/storage/article_repo.rs:386-399 | each further tag of the list adds exactly its own (article, tag) key |
| ArticleRepo.RowsAddedStep | crates/kenseader-core/src/storage/article_repo.rs:387-398 | rows added by one insert after rows added by earlier ones are, together, rows of that article with given tags, the source and the time |
| ArticleRepo.InsertTagRow | crates/kenseader-core/src/storage/article_repo.rs:387-398 | one insert for an existing article adds exactly its (article, tag) key, and any new row is `(article, tag, source, now)`; it keeps every row and changes no other table |
| ArticleRepo.GetTags | crates/kenseader-core/src/storage/article_repo.rs:405-414 | the tags answered are exactly those stored for that article |
| ArticleRepo.FindById | crates/kenseader-core/src/storage/article_repo.rs:144-166 | an article is found exactly when its row exists; it is that row with exactly its tags attached |
| ArticleRepo.GetTagsDistinct | crates/kenseader-core/src/storage/article_repo.rs:405-414 | because of the primary key, an article's tags never repeat |
| ArticleRepo.KeepStyles | crates/kenseader-core/src/storage/database.rs:256-264 | the style rows surviving a delete are exactly those of remaining articles, unchanged (ON DELETE CASCADE) |
| ArticleRepo.CleanupPartition | crates/kenseader-core/src/storage/article_repo.rs:420-424 | every row is either kept or deleted by the cleanup |
| ArticleRepo.CleanupKeepsValid | crates/kenseader-core/src/storage/article_repo.rs:420-424 | deleting the expired rows and cascading to tags and styles keeps the schema constraints |
| ArticleRepo.CleanupOldArticles | crates/kenseader-core/src/storage/article_repo.rs:417-431 | deletes exactly the unsaved rows fetched before now minus retention_days, returns how many, cascades to their tags and styles and detaches their events |
| ArticleRepo.CleanupKeepsSaved | crates/kenseader-core/src/storage/article_repo.rs:417-431 | a saved article is never deleted, and every row kept is saved or fetched at or after the cutoff |
| StyleRepo.Upsert | crates/kenseader-core/src/storage/style_repo.rs:32-69 | for an existing article the style row becomes the given style stamped now (inserted or replaced on conflict); for a missing article it fails on the foreign key and nothing changes; no other table changes |
| StyleRepo.FindByArticle | crates/kenseader-core/src/storage/style_repo.rs:72-108 | a style is found exactly when the article has one, and it is that row |
| StyleRepo.CountClassified | crates/kenseader-core/src/storage/style_repo.rs:172-178 | the count is the number of classified articles |
| StyleRepo.UpsertSpec | crates/kenseader-core/src/storage/style_repo.rs:32-69 | a second upsert overwrites the first, an upsert adds one classified article only when the article had none, and the stored style reads back as given |
| StyleRepo.ListUnclassified | crates/kenseader-core/src/storage/style_repo.rs:111-169 | a non-negative limit bounds the number of rows |
| StyleRepo.ListUnclassifiedSpec | crates/kenseader-core/src/storage/style_repo.rs:111-169 | only articles without a style that have a summary and at least 500 characters of content, newest fetched first, none left out newer than one listed, and all of them when the limit is negative |
| StyleRepo.UpsertRemovesFromUnclassified | crates/kenseader-core/src/storage/style_repo.rs:32-169 | an article that was just classified is never listed as unclassified |
| Analyzer.SqlWeight | crates/kenseader-core/src/profile/analyzer.rs:58-65 | the SQL CASE gives every event type, known or not, a positive weight |
| Analyzer.SqlWeightDisagreesOnShare | crates/kenseader-core/src/profile/analyzer.rs:58-65 | the aggregation's weight table agrees with the event types' own weights for every type except share, which it weighs 0.5 instead of 5.0 |
| Analyzer.EventWeight | crates/kenseader-core/src/profile/models.rs:41-52 | every event type's own weight is positive (the intended weight table, not the one the queries use) |
| Analyzer.EventWeightAgrees | crates/kenseader-core/src/profile/models.rs:41-52 | the weight of a known event type's name is that type's weight, and any other text weighs 0.5 |
| Analyzer.WindowSeconds | crates/kenseader-core/src/profile/analyzer.rs:48-52 | every window has a positive length |
| Analyzer.WindowsNested | crates/kenseader-core/src/profile/analyzer.rs:48-52 | the 30-day cutoff precedes the 1-day cutoff, which precedes the 5-minute cutoff, which precedes now |
| Analyzer.HeavierFirstOrder | crates/kenseader-core/src/profile/analyzer.rs:72 | ORDER BY weight DESC is a total preorder |
| Analyzer.TagWeight | crates/kenseader-core/src/profile/analyzer.rs:57-70 | the SUM of CASE weights over the joined events of a tag is never negative |
| Analyzer.TagWeightPositive | crates/kenseader-core/src/profile/analyzer.rs:56-70 | a tag's summed CASE weight is never negative and is positive exactly when some event since the cutoff joins with that tag |
| Analyzer.TagWeightAppend | crates/kenseader-core/src/profile/analyzer.rs:57-70 | one more event adds its SQL CASE weight (0.5 for a share) to each tag of its article and to no other tag |
| Analyzer.JoinedTags | crates/kenseader-core/src/profile/analyzer.rs:68-71 | the groups are exactly the tags joined by some recent event, each once |
| Analyzer.DistinctFrom | crates/kenseader-core/src/profile/analyzer.rs:68-71 | collecting group keys keeps them distinct and adds exactly the tags with recent events |
| Analyzer.TagGroups | crates/kenseader-core/src/profile/analyzer.rs:56-71 | one row per joined tag, holding that tag's summed CASE weight |
| Analyzer.TagAffinityRows | crates/kenseader-core/src/profile/analyzer.rs:73 | at most 50 rows |
| Analyzer.TagAffinityRowsSpec | crates/kenseader-core/src/profile/analyzer.rs:54-78 | the rows are heaviest first, each holds its tag's summed CASE weight, and no tag left out is heavier than a listed one |
| Analyzer.EventFeeds | crates/kenseader-core/src/profile/analyzer.rs:124-127 | the groups are exactly the feeds of recent events, each once |
| Analyzer.FeedsFrom | crates/kenseader-core/src/profile/analyzer.rs:124-127 | collecting feed keys keeps them distinct and adds exactly the feeds with recent events |
| Analyzer.FeedWeight | crates/kenseader-core/src/profile/analyzer.rs:113-127 | a feed's SUM of CASE weights is never negative, and positive exactly when some event of that feed is at or after the cutoff |
| Analyzer.FeedGroups | crates/kenseader-core/src/profile/analyzer.rs:112-127 | one row per feed with a recent event, holding its summed CASE weight |
| Analyzer.FeedAffinityRows | crates/kenseader-core/src/profile/analyzer.rs:112-127 | the ordered rows are exactly the feed groups, none dropped, since the query has no LIMIT |
| Analyzer.FeedAffinityRowsSpec | crates/kenseader-core/src/profile/analyzer.rs:112-132 | every feed with a recent event gets a row with its summed CASE weight, heaviest first, and there is no limit |
| Analyzer.TimeRowsFromSpec | crates/kenseader-core/src/profile/analyzer.rs:166-175 | a listed period has a row exactly when it has engaging events, and the row holds their count |
| Analyzer.NoRowsWithout | crates/kenseader-core/src/profile/analyzer.rs:166-175 | every time row belongs to a listed period with engaging events and holds their count |
| Analyzer.TimeRows | crates/kenseader-core/src/profile/analyzer.rs:166-172 | at most one row per time of day, each counting at least one event |
| Analyzer.TimeRowsFrom | crates/kenseader-core/src/profile/analyzer.rs:166-172 | at most one row per listed period, each counting at least one event |
| Analyzer.TimeRowsSpec | crates/kenseader-core/src/profile/analyzer.rs:166-175 | a time of day has a row exactly when it has click, read_complete or save events since the cutoff, and the row holds their count |
| Analyzer.TimeRowsFromDistinct | crates/kenseader-core/src/profile/analyzer.rs:171 | GROUP BY gives each time of day at most one row |
| Analyzer.TimeRowsCountEngagementOnly | crates/kenseader-core/src/profile/analyzer.rs:170 | events other than click, read_complete and save never change a time-of-day count |
| Analyzer.ReplaceSpec | crates/kenseader-core/src/profile/analyzer.rs:85-87 | INSERT OR REPLACE keeps the preference key unique, stores the new row, and keeps every row with another key |
| Analyzer.PrefsWhereWellFormed | crates/kenseader-core/src/profile/analyzer.rs:85-87 | removing preferences keeps their keys unique |
| Analyzer.WriteRowsSpec | crates/kenseader-core/src/profile/analyzer.rs:80-97 | writing a window's rows keeps the keys unique, stores every row under its key, and keeps every preference the rows do not replace |
| Analyzer.WriteWindow | crates/kenseader-core/src/profile/analyzer.rs:80-97 | the loop of INSERT OR REPLACE statements leaves the preferences equal to writing all the rows at once, and changes no other table |
| Analyzer.ComputeTagAffinities | crates/kenseader-core/src/profile/analyzer.rs:46-101 | for each of the three windows in turn, the 50 heaviest tags since its cutoff, weighed by the SQL CASE table, are written as tag affinities; nothing else changes |
| Analyzer.ComputeFeedAffinities | crates/kenseader-core/src/profile/analyzer.rs:104-155 | for each of the three windows in turn, every feed with recent events is written as a feed affinity with its summed CASE weight; nothing else changes |
| Analyzer.ComputeTimePreferences | crates/kenseader-core/src/profile/analyzer.rs:158-197 | for the 1-day and 30-day windows in turn, each time of day's engagement count is written as a time preference; nothing else changes |
| Analyzer.TimePassSkipsRecent | crates/kenseader-core/src/profile/analyzer.rs:159 | a pass over windows without the 5-minute window keeps the keys unique and every 5-minute preference |
| Analyzer.TimePassKeepsRecent | crates/kenseader-core/src/profile/analyzer.rs:158-197 | the time-preference pass leaves every 5-minute-window preference as it was |
| Analyzer.ComputePreferences | crates/kenseader-core/src/profile/analyzer.rs:18-23 | the preferences become the tag pass, then the feed pass, then the time pass over the old ones; no other table changes |
| Analyzer.GetTopTags | crates/kenseader-core/src/profile/analyzer.rs:26-43 | at most limit tags |
| Analyzer.GetTopTagsSpec | crates/kenseader-core/src/profile/analyzer.rs:26-43 | the answer is the keys of the window's tag affinities, heaviest first, none left out heavier than one listed |
| ProfileFilter.NewFilter | crates/kenseader-core/src/profile/filter.rs:18-24 | a new filter keeps the summarizer it was given and starts at the 0.3 threshold |
| ProfileFilter.WithThreshold | crates/kenseader-core/src/profile/filter.rs:27-30 | the threshold is clamped into [0, 1]: kept when inside, 0 below and 1 above; the summarizer is kept |
| ProfileFilter.WithThresholdLastWins | crates/kenseader-core/src/profile/filter.rs:27-30 | setting the threshold twice is the same as setting only the second |
| ProfileFilter.MatchCount | crates/kenseader-core/src/profile/filter.rs:105-107 | no more tags match than there are tags |
| ProfileFilter.ProfileScore | crates/kenseader-core/src/profile/filter.rs:100-112 | the profile score lies in [0, 1] and is 1 when there are no interests or no tags |
| ProfileFilter.ProfileScoreFull | crates/kenseader-core/src/profile/filter.rs:100-112 | the score is 1 exactly when there is no profile data or at least as many tags match as the smaller of the two counts |
| ProfileFilter.ProfileScoreNoMatch | crates/kenseader-core/src/profile/filter.rs:100-112 | with interests and tags but no tag matching, the score is 0 |
| ProfileFilter.NoMatchCount | crates/kenseader-core/src/profile/filter.rs:105-107 | when no tag is an interest, none is counted |
| ProfileFilter.ProfileScoreIgnoresCase | crates/kenseader-core/src/profile/filter.rs:106 | matching ignores ASCII case: lowercasing the interests changes no score |
| ProfileFilter.MatchCountCongruent | crates/kenseader-core/src/profile/filter.rs:105-107 | interest lists that accept the same tags count the same matches |
| ProfileFilter.ScoringText | crates/kenseader-core/src/profile/filter.rs:73-75 | the text scored is the plain-text content when present, else the summary, else the title |
| ProfileFilter.AiScore | crates/kenseader-core/src/profile/filter.rs:81-91 | the summarizer's relevance answer when there is one, and 1 (pass through) when there is no summarizer or it fails |
| ProfileFilter.ScoreWithoutAi | crates/kenseader-core/src/profile/filter.rs:72-97 | without a usable AI answer the combined score is between 0.6 and 1, and 1 exactly when the profile score is |
| ProfileFilter.ScoreBounds | crates/kenseader-core/src/profile/filter.rs:94 | with an AI score in [0, 1], 40% profile plus 60% AI stays in [0, 1] |
| ProfileFilter.RejectedIds | crates/kenseader-core/src/profile/filter.rs:48-55 | an id is rejected exactly when an input article with that id scores below the threshold |
| ProfileFilter.MarkReadAllSpec | crates/kenseader-core/src/profile/filter.rs:53 | marking a list of ids read marks exactly the rows with those ids read now, keeping every other row and every row's place |
| ProfileFilter.MarkReadAllKeepsValid | crates/kenseader-core/src/profile/filter.rs:53 | marking rows read keeps the schema constraints, the id set and the feed references |
| ProfileFilter.FilterArticles | crates/kenseader-core/src/profile/filter.rs:34-68 | returns exactly the input articles scoring at least the threshold, in order, against the 10 heaviest 30-day interests; every one scoring below is marked read; an empty input returns empty with no change; no other table changes |
| ProfileFilter.FilterOne | crates/kenseader-core/src/profile/filter.rs:47-59 | an article is kept exactly when its score reaches the threshold; otherwise it is marked read and its id joins the rejected ones; no other table changes |
| ProfileFilter.FilterStep | crates/kenseader-core/src/profile/filter.rs:46-56 | each loop step appends the article to the passed list or its id to the rejected ones, according to its score |
| ProfileFilter.MarkReadAllSnoc | crates/kenseader-core/src/profile/filter.rs:53 | marking one more id read is one more mark_read |
| ProfileFilter.FilterMarksRejected | crates/kenseader-core/src/profile/filter.rs:46-56 | after filtering, the rows of rejected articles are read at now and the rows of articles that all passed are unchanged |
| ProfileFilter.FilterPartitions | crates/kenseader-core/src/profile/filter.rs:46-56 | every input article either passes or is filtered out, never both |
| ProfileFilter.NoSummarizerKeepsAll | crates/kenseader-core/src/profile/filter.rs:81-91 | without a summarizer and with a threshold of at most 0.6 (the default is 0.3) nothing is filtered out |
| CliProvider.Invoke | crates/kenseader-core/src/ai/providers/cli_base.rs:64-99 | the process runs the CLI's own program with its base arguments; Claude and Gemini get the prompt on stdin, Codex as its last argument and no stdin |
| CliProvider.CommandInjective | crates/kenseader-core/src/ai/providers/cli_base.rs:22-28 | the three CLIs run three different programs |
| CliProvider.RunCli | crates/kenseader-core/src/ai/providers/cli_base.rs:101-118 | a failed run passes its error on; a successful one yields its stdout trimmed |
| CliProvider.TruncateChars | crates/kenseader-core/src/ai/providers/cli_base.rs:6-11 | the result is the input's prefix of exactly maxChars characters, or the whole input when it is not longer |
| CliProvider.TruncateCharsIdempotent | crates/kenseader-core/src/ai/providers/cli_base.rs:6-11 | truncating again to the same or a larger bound changes nothing, and truncating to the larger bound first then to the smaller is truncating to the smaller |
| CliProvider.SummarizeGuard | crates/kenseader-core/src/ai/providers/cli_base.rs:129-141 | content whose trimmed byte length is below the minimum is too short; otherwise content that is only a URL on at most two lines is refused; anything else passes |
| CliProvider.Summarize | crates/kenseader-core/src/ai/providers/cli_base.rs:128-165 | a guard failure is the error; otherwise the CLI's trimmed answer on the first 4000 characters, or its failure |
| CliProvider.SummarizeNeedsContent | crates/kenseader-core/src/ai/providers/cli_base.rs:129-141 | a summary is only produced for content long enough and not just a URL |
| CliProvider.NormalizeAll | crates/kenseader-core/src/ai/providers/cli_base.rs:198 | each comma-separated piece is trimmed and lowercased, in order |
| CliProvider.KeepTags | crates/kenseader-core/src/ai/providers/cli_base.rs:199 | exactly the normalised pieces that are non-empty and shorter than 50 bytes are kept |
| CliProvider.TagsOf | crates/kenseader-core/src/ai/providers/cli_base.rs:196-201 | at most five tags, each non-empty, under 50 bytes, lowercase and without a comma, and they are the first kept pieces in order |
| CliProvider.LowerTrimNoComma | crates/kenseader-core/src/ai/providers/cli_base.rs:196-198 | a piece of a comma split stays free of commas after trimming and lowercasing |
| CliProvider.ExtractTags | crates/kenseader-core/src/ai/providers/cli_base.rs:167-204 | content under 50 trimmed bytes gives no tags and no CLI run; otherwise the tags read from the CLI's answer on the first 4000 characters, at most five |
| CliProvider.TagsRoundTrip | crates/kenseader-core/src/ai/providers/cli_base.rs:196-201 | an answer of one to five well-formed tags joined by commas reads back as exactly those tags |
| CliProvider.JoinedTagsTrimmed | crates/kenseader-core/src/ai/providers/cli_base.rs:196-201 | joining trimmed non-empty tags with commas gives a string that trimming leaves alone |
| CliProvider.JoinedTagsKept | crates/kenseader-core/src/ai/providers/cli_base.rs:196-199 | splitting such a join on commas and normalising keeps every tag, in order |
| CliProvider.TagsOfFew | crates/kenseader-core/src/ai/providers/cli_base.rs:200 | take(5) keeps everything when there are at most five kept pieces |
| CliProvider.KeepAll | crates/kenseader-core/src/ai/providers/cli_base.rs:198-199 | well-formed pieces all survive normalising and filtering |
| CliProvider.JoinEnds | crates/kenseader-core/src/ai/providers/cli_base.rs:196-198 | a join of non-empty pieces starts with the first piece's first character and ends with the last piece's last |
| CliProvider.ScoreRelevance | crates/kenseader-core/src/ai/providers/cli_base.rs:206-236 | no interests score 0.5 without a CLI run; otherwise the CLI's answer on the first 3000 characters read as a number over 100, or the CLI's failure |
| CliProvider.ScoreOfBounds | crates/kenseader-core/src/ai/providers/cli_base.rs:234-235 | an answer that is not a number scores 0.5 (50 over 100), and a number in [0, 100] gives a score in [0, 1] |
| CliProvider.StripFences | crates/kenseader-core/src/ai/providers/cli_base.rs:453 | stripping backticks and newlines from both ends never lengthens the text and leaves no backtick or newline at either end |
| CliProvider.ClassifyStyle | crates/kenseader-core/src/ai/providers/cli_base.rs:429-455 | fails exactly when the CLI run on the first 2000 characters fails; a cleaned answer that parses is the style, anything else the default style |
| CliProvider.SplitAnswer | crates/kenseader-core/src/ai/providers/cli_base.rs:298-301 | a line that is cut begins with its id in brackets followed by ':' |
| CliProvider.FindClosingBracket | crates/kenseader-core/src/ai/providers/cli_base.rs:299 | in "[id]:rest" with no ']' in the id, the first "]:" is the one closing the id |
| CliProvider.SplitAnswerOf | crates/kenseader-core/src/ai/providers/cli_base.rs:298-301 | the cut of "[id]:rest" is the id and the trimmed rest |
| CliProvider.ParseLineRoundTrip | crates/kenseader-core/src/ai/providers/cli_base.rs:296-304 | a line written as [id]:text, with an id free of ']' and trimmed non-empty text, reads back as that id and text |
| CliProvider.ParseAnswers | crates/kenseader-core/src/ai/providers/cli_base.rs:293-307 | the loop over the response's lines builds exactly the answer map of the lines, read in order |
| CliProvider.AnswersFrom | crates/kenseader-core/src/ai/providers/cli_base.rs:293-307 | every id in the answers comes from a line that gives it exactly that value |
| CliProvider.AnswersLastWins | crates/kenseader-core/src/ai/providers/cli_base.rs:303 | when an id is answered twice, the last accepted line decides |
| CliProvider.SummaryResult | crates/kenseader-core/src/ai/providers/cli_base.rs:311-330 | a result has a summary exactly when it has no error: too short content is the too-short error, an answered article gets its answer, an unanswered one the not-found error |
| CliProvider.AllTooShort | crates/kenseader-core/src/ai/providers/cli_base.rs:249-258 | when no article is long enough, every article gets the too-short error, in order |
| CliProvider.SummaryResults | crates/kenseader-core/src/ai/providers/cli_base.rs:309-332 | one result per article, in order |
| CliProvider.BatchSummarize | crates/kenseader-core/src/ai/providers/cli_base.rs:238-333 | no articles give no results; the call fails exactly when some article is long enough and the CLI fails; otherwise one result per article in order, with the too-short error, its answer or the not-found error |
| CliProvider.BatchSummaryFromAnswer | crates/kenseader-core/src/ai/providers/cli_base.rs:293-322 | every summary in a batch result is the text of a response line naming that article |
| CliProvider.ScoreResult | crates/kenseader-core/src/ai/providers/cli_base.rs:404-416 | a result has a score exactly when it has no error: an answered article gets its answer, an unanswered one the not-found error |
| CliProvider.ScoreResults | crates/kenseader-core/src/ai/providers/cli_base.rs:401-418 | one result per article, in order |
| CliProvider.NeutralScores | crates/kenseader-core/src/ai/providers/cli_base.rs:344-353 | without interests every article scores 0.5, in order |
| CliProvider.BatchScoreRelevance | crates/kenseader-core/src/ai/providers/cli_base.rs:335-419 | no articles give no results; the call fails exactly when there are articles and interests and the CLI fails; otherwise one result per article in order, 0.5 each without interests |
| CliProvider.BatchScoreFromAnswer | crates/kenseader-core/src/ai/providers/cli_base.rs:386-407 | every score in a batch result is a response line's number for that article over 100 |
| Protocol.ErrorCodes | crates/kenseader-core/src/ipc/protocol.rs:81-86 | the error codes are distinct and in JSON-RPC 2.0's reserved range; only the daemon-not-running code is in the implementation-defined server-error range |
| Protocol.NewRequest | crates/kenseader-core/src/ipc/protocol.rs:20-26 | a new request carries the method, a fresh id and null parameters |
| Protocol.WithParams | crates/kenseader-core/src/ipc/protocol.rs:28-31 | with_params replaces the parameters and keeps the id and the method |
| Protocol.ResponseKinds | crates/kenseader-core/src/ipc/protocol.rs:45-71 | success keeps the id and carries the result; error keeps the id and the code and carries no result; ok is a success whose result is {"ok": true} |
| Protocol.IsSuccessIffNoError | crates/kenseader-core/src/ipc/protocol.rs:68-70 | for responses built by success or error, being a success is exactly having a result |
| Protocol.RouteMethodName | crates/kenseader-core/src/ipc/protocol.rs:89-106 | every known method is dispatched by its own name and only by that name |
| Protocol.RequiredString | crates/kenseader-core/src/ipc/protocol.rs:118-120 | a required field decodes exactly when it is present and a string, to that string |
| Protocol.OptionalString | crates/kenseader-core/src/ipc/protocol.rs:111-112 | an Option field decodes to None when absent or null, to the string when a string, and fails otherwise |
| Protocol.DefaultBool | crates/kenseader-core/src/ipc/protocol.rs:113-114 | a defaulted bool decodes to false when absent, to itself when a boolean, and fails otherwise |
| Protocol.DecodeRoundTrip | crates/kenseader-core/src/ipc/protocol.rs:110-137 | every parameter structure decodes back to the values the client put in, extra fields are ignored, and null parameters never decode |
| Tasks.RefreshRowSpec | crates/kenseader-core/src/scheduler/tasks.rs:21-42 | a refresh keeps the feed's id, url and local name and stamps updated_at; a successful fetch stamps last_fetched_at, clears the error and takes the parsed title when there is one; a failed fetch records the error and keeps the rest |
| Tasks.RefreshRowIdempotent | crates/kenseader-core/src/scheduler/tasks.rs:21-42 | applying the same fetch outcome twice is the same as applying it once |
| Tasks.RefreshStep | crates/kenseader-core/src/scheduler/tasks.rs:18-43 | each loop step refreshes one more listed feed and leaves the others as they were |
| Tasks.FreshAfterIngest | crates/kenseader-core/src/scheduler/tasks.rs:33 | the article ids left after a create_many that used the next ids are still unused |
| Tasks.RefreshFeed | crates/kenseader-core/src/scheduler/tasks.rs:21-42 | one feed's refresh: on success its metadata is updated and the parsed articles ingested, answering the number of new rows; on a fetch failure the error is recorded and 0 new rows; the only error is the foreign-key failure of an ingest; the feed set and the other tables are unchanged |
| Tasks.ListedFeedStored | crates/kenseader-core/src/storage/feed_repo.rs:112-139 | every feed list_all lists is a stored feed with the same id and url |
| Tasks.RefreshedAll | crates/kenseader-core/src/scheduler/tasks.rs:18-43 | once every feed is done, each stored feed holds its own fetch outcome |
| Tasks.ListedDoneStep | crates/kenseader-core/src/scheduler/tasks.rs:15-18 | after refreshing the next listed feed, every feed listed so far is refreshed |
| Tasks.ListedFeedsDone | crates/kenseader-core/src/scheduler/tasks.rs:15-18 | once every listed feed is refreshed, every stored feed is |
| Tasks.RefreshAllFeeds | crates/kenseader-core/src/scheduler/tasks.rs:10-46 | on success each stored feed is refreshed with the outcome of fetching its own url, the total is the number of rows added, and the only possible error is a foreign-key violation; no other table changes |
| Tasks.CleanupOldArticles | crates/kenseader-core/src/scheduler/tasks.rs:49-58 | the job deletes exactly the unsaved articles older than the configured retention, never a saved one, and answers how many went |
| Tasks.SummarizeRows | crates/kenseader-core/src/scheduler/tasks.rs:71-90 | summarizing keeps the number of rows |
| Tasks.SummarizeRowsSpec | crates/kenseader-core/src/scheduler/tasks.rs:71-90 | a candidate with plain text that the summarizer accepts gets that summary and its time; every other row is unchanged |
| Tasks.SummarizeRowsKeys | crates/kenseader-core/src/scheduler/tasks.rs:75 | summarizing keeps every primary key |
| Tasks.NewTagPairsSummarized | crates/kenseader-core/src/scheduler/tasks.rs:78-80 | tags are only ever added to candidates whose summary was stored |
| Tasks.SummarizeStep | crates/kenseader-core/src/scheduler/tasks.rs:72-88 | one candidate more: if the summarizer accepts its text, it is the one row updated, otherwise nothing changes |
| Tasks.CandidatesStored | crates/kenseader-core/src/storage/article_repo.rs:238-259 | every candidate listed for summarizing is a stored article |
| Tasks.SummarizeLoopStep | crates/kenseader-core/src/scheduler/tasks.rs:71-90 | one loop step updates the rows, the count and the tag pairs by exactly that candidate's outcome |
| Tasks.SummarizeArticle | crates/kenseader-core/src/scheduler/tasks.rs:72-89 | a candidate's summary is stored exactly when it has plain text and the summarizer accepts it; tags are added only then, and only when extraction succeeds; no other table changes |
| Tasks.SummarizePendingArticles | crates/kenseader-core/src/scheduler/tasks.rs:61-97 | the rows become every unsummarized candidate summarized in turn, the count is the number of summaries stored and at most the limit, the tag pairs gain exactly the tags of those articles, and nothing else changes |
| Server.From | crates/kenseader-core/src/ipc/server.rs:318-327 | the generator from the next unused UUID on yields the same ids as the original one shifted |
| Server.ReadOnlyResponse | crates/kenseader-core/src/ipc/server.rs:142-372 | a request that changes nothing is answered under its own id with a result or an error, never both: an unknown method is method-not-found, ping is ok, status reports running with the uptime, the list, get and search routes answer their queries and invalid parameters are invalid-params |
| Server.ReadOnlyPayloads | crates/kenseader-core/src/ipc/server.rs:165-313 | article.list without a feed lists at most 1000 unread articles, with a feed exactly that feed's (unread) articles; article.get answers the article found; article.search answers at most 100 matches; feed.list answers the feed list |
| Server.UserEvent | crates/kenseader-core/src/ipc/server.rs:216-229 | the event recorded for a click or a save carries the article and its feed, the event type's name, the time and the period of the hour |
| Server.RecordEvent | crates/kenseader-core/src/ipc/server.rs:218-229 | recording appends exactly that event and changes no other table |
| Server.EventFor | crates/kenseader-core/src/ipc/server.rs:209-229 | a mark-read or save records one event, with the article's feed, when the article exists, and none otherwise |
| Server.MarkReadRoute | crates/kenseader-core/src/ipc/server.rs:204-237 | article.mark_read answers ok; the articles table becomes the mark-read update of the article, a click with the article's feed is appended to the events when the article exists, and no other table changes; article ids are kept |
| Server.MarkUnreadRoute | crates/kenseader-core/src/ipc/server.rs:240-251 | article.mark_unread answers ok; only the article's read flag and read time are cleared, no event is recorded and no other table changes |
| Server.SaveEventFor | crates/kenseader-core/src/ipc/server.rs:262-285 | the toggle records one save event exactly when the article exists and was not saved, and none otherwise |
| Server.ToggleSavedRoute | crates/kenseader-core/src/ipc/server.rs:253-291 | article.toggle_saved flips the flag of that article only; the events gain a save exactly when an existing article becomes saved; the answer is the new flag, or an internal error for a missing article; no other table changes |
| Server.AddFeedRoute | crates/kenseader-core/src/ipc/server.rs:318-333 | feed.add uses one UUID; a new url appends exactly the new feed row and answers it; an url already subscribed is an internal error and no table changes |
| Server.FreshAfterDelete | crates/kenseader-core/src/ipc/server.rs:335-349 | deleting rows never makes a used id reappear |
| Server.AfterFeedDelete | crates/kenseader-core/src/ipc/server.rs:335-349 | after deleting a feed, no feed row has its id, no article belongs to it, and the preferences are untouched |
| Server.DeleteFeedRoute | crates/kenseader-core/src/ipc/server.rs:335-349 | feed.delete answers whether the feed existed; the feeds, articles, tags, styles and events become those after the delete (articles removed with their tags and styles, events detached) and the preferences are kept |
| Server.RefreshRoute | crates/kenseader-core/src/ipc/server.rs:351-366 | feed.refresh without an id: on success every feed holds its own fetch outcome, the feed count is kept, and the answer is the number of rows added to the articles; a failure is an internal error; tags, styles, events and preferences never change |
| Server.ReadOnlyLeavesDecoded | crates/kenseader-core/src/ipc/server.rs:142-373 | the read-only part answers every request except exactly a mutating one whose parameters decode (and, for feed.refresh, name no feed) |
| Server.Mutate | crates/kenseader-core/src/ipc/server.rs:204-366 | a decoded mutating request answers under its own id with a result or an error, and leaves every table as its route prescribes |
| Server.HandleRequest | crates/kenseader-core/src/ipc/server.rs:142-373 | every request is answered under its own id with a result or an error, never both; a read-only or undecodable request gets the read-only answer and changes nothing; a decoded mutating request leaves every table (feeds, articles, tags, styles, events, preferences) exactly as its route prescribes |
| Server.KeysKept | crates/kenseader-core/src/ipc/server.rs:213-262 | an update that keeps ids keeps the set of ids |
| Server.HandleLine | crates/kenseader-core/src/ipc/server.rs:122-131 | a line that does not parse is answered with a parse error under the nil id and changes nothing; a parsed request is answered under its own id |
| Server.HandleConnection | crates/kenseader-core/src/ipc/server.rs:98-139 | one response per line, in order: a parse error under the nil id for a line that does not parse, and a response under the request's id otherwise |
| Fetcher.TrimEndChar | crates/kenseader-core/src/feed/fetcher.rs:125 | the result is a prefix of the input, everything cut off is the character, and the result does not end with it |
| Fetcher.TrimStartChar | crates/kenseader-core/src/feed/fetcher.rs:126 | the result is a suffix of the input, everything cut off is the character, and the result does not start with it |
| Fetcher.WithAccessKey | crates/kenseader-core/src/feed/fetcher.rs:131-134 | without a key the URL is unchanged; with one, the URL is extended by one separator and key=KEY, the separator being '&' exactly when the URL already has a query and '?' otherwise |
| Fetcher.ConvertRsshubUrl | crates/kenseader-core/src/feed/fetcher.rs:141-158 | converts exactly the URLs that start with rsshub://, and fails on any other with the invalid-RSSHub-URL error |
| Fetcher.ResolveUrl | crates/kenseader-core/src/feed/fetcher.rs:108-121 | an rsshub:// URL and an rsshub.app URL over http or https always resolve; any other URL resolves to itself when it parses and fails with the invalid-URL error otherwise |
| Fetcher.ResolveRsshubForms | crates/kenseader-core/src/feed/fetcher.rs:108-116 | rsshub://PATH, https://rsshub.app/PATH and http://rsshub.app/PATH resolve to the same address |
| Fetcher.ConvertRsshubPath | crates/kenseader-core/src/feed/fetcher.rs:124-137 | the address starts with the base without trailing slashes and one slash; without an access key it ends with the path without leading slashes, and with one it ends with "key=" and the key |
| Fetcher.JoinHasOneSlash | crates/kenseader-core/src/feed/fetcher.rs:124-138 | trailing slashes on the base and leading slashes on the path do not matter: the base and the path are joined by exactly one slash |
| Fetcher.SlashJoin | crates/kenseader-core/src/feed/fetcher.rs:128 | joining a base without a trailing slash and a path without a leading slash puts exactly one slash between them |
| Fetcher.TrimEndAppended | crates/kenseader-core/src/feed/fetcher.rs:125 | one more trailing slash is trimmed the same |
| Fetcher.TrimStartPrepended | crates/kenseader-core/src/feed/fetcher.rs:126 | one more leading slash is trimmed the same |
| Fetcher.AgentAt | crates/kenseader-core/src/feed/fetcher.rs:36-39 | every agent handed out is one of the six in the pool |
| Fetcher.AgentRotation.constructor | crates/kenseader-core/src/feed/fetcher.rs:19 | the counter starts at zero |
| Fetcher.AgentRotation.Next | crates/kenseader-core/src/feed/fetcher.rs:36-39 | hands out the agent at the counter modulo the pool size and moves the counter on by one, wrapping at 2^64 |
| Fetcher.AgentsFrom | crates/kenseader-core/src/feed/fetcher.rs:36-39 | n calls in a row hand out the agents at n consecutive counter values |
| Fetcher.AgentCycle | crates/kenseader-core/src/feed/fetcher.rs:20-39 | the rotation repeats every six calls, and six calls in a row hand out six different agents |
| Fetcher.ShiftMod | crates/kenseader-core/src/feed/fetcher.rs:37 | moving on by at most six steps moves the pool position by that many, wrapping at most once |
| Fetcher.AgentsDistinct | crates/kenseader-core/src/feed/fetcher.rs:20-27 | the six agents in the pool are pairwise different |
| Fetcher.ChromeIsNotSafari | crates/kenseader-core/src/feed/fetcher.rs:21-25 | the Chrome and Safari agents for the Mac differ |
| Fetcher.FirstThreeAgents | crates/kenseader-core/src/feed/fetcher.rs:404-411 | from a fresh counter: Chrome on a Mac, then Chrome on Windows, then Firefox on a Mac |
| Fetcher.RetryFromSpec | crates/kenseader-core/src/feed/fetcher.rs:161-240 | at most three attempts, the sleeps are 500 ms doubled each time, and a result is a response actually received, with a status that is not retried, and a 403 only on the last attempt |
| Fetcher.FailedAttemptSpec | crates/kenseader-core/src/feed/fetcher.rs:216-236 | a failed attempt sleeps (except after the last) and goes on, with the same guarantees |
| Fetcher.DoubledDelays | crates/kenseader-core/src/feed/fetcher.rs:197 | prepending a delay to delays that start at twice it keeps the doubling |
| Fetcher.RetryOutcomes | crates/kenseader-core/src/feed/fetcher.rs:161-240 | three failed sends end in the transport error after sleeps of 500 and 1000 ms; constant 429 ends in the HTTP 429 error after three sleeps; constant 403 returns the third 403 response after two sleeps |
| Fetcher.FetchWithRetry | crates/kenseader-core/src/feed/fetcher.rs:161-240 | the loop equals the recursive retry definition and uses one to three agents from the rotation, in order |
| Fetcher.AttemptOnce | crates/kenseader-core/src/feed/fetcher.rs:165-236 | one pass of the loop agrees with the recursive retry definition: either it ends the loop with the response, or it sleeps and hands on the next delay and error |
| Fetcher.TakeAgent | crates/kenseader-core/src/feed/fetcher.rs:166-168 | each attempt takes the next agent from the rotation |
| Fetcher.RetryAgain | crates/kenseader-core/src/feed/fetcher.rs:186-212 | a 429 or 503, or a 403 before the last attempt, sleeps, doubles the delay and remembers the error |
| Fetcher.RetryDone | crates/kenseader-core/src/feed/fetcher.rs:214-215 | a response that is not retried and whose body was read ends the loop with it |
| Fetcher.RetryFailed | crates/kenseader-core/src/feed/fetcher.rs:216-236 | a failed send or an unreadable body is a failed attempt |
| Fetcher.AgentsWrapping | crates/kenseader-core/src/feed/fetcher.rs:36-39 | the n agents handed out from a counter value, the counter wrapping at 2^64 |
| Fetcher.AgentsWrappingStep | crates/kenseader-core/src/feed/fetcher.rs:36-39 | one more call hands out the agent at the next counter value |
| Fetcher.NextIndex | crates/kenseader-core/src/feed/fetcher.rs:37 | the counter's wrapping increment is consistent with reducing it modulo 2^64 first |
| Fetcher.EnsureContentSize | crates/kenseader-core/src/feed/fetcher.rs:367-376 | a body is accepted exactly when it is at most 5 MiB, and otherwise fails with the too-large error |
| Fetcher.ChallengeWindow | crates/kenseader-core/src/feed/fetcher.rs:300-310 | only the first 2048 bytes are inspected: what follows them never matters |
| Fetcher.ChallengeMarkerPosition | crates/kenseader-core/src/feed/fetcher.rs:300-310 | a page that opens with a marker is a challenge; a marker that starts past the first 2048 bytes is not seen |
| Fetcher.CheckResponse | crates/kenseader-core/src/feed/fetcher.rs:320-364 | the body is returned exactly when it is at most 5 MiB, the status is a success and it is not a challenge page; too large is checked first, then a 403 is the Cloudflare error when a header names cloudflare and the forbidden error otherwise |
| Fetcher.FetchRaw | crates/kenseader-core/src/feed/fetcher.rs:313-365 | an URL that does not resolve fails before any request and leaves the rotation alone; otherwise the retry loop's failure, or its response checked for size, status and challenge |
| Opml.LastValueSpec | crates/kenseader-core/src/feed/opml.rs:36-38 | an attribute that is assigned on every occurrence reports the last occurrence's value, and is absent exactly when the key never occurs |
| Opml.FirstValueSpec | crates/kenseader-core/src/feed/opml.rs:40-42 | an attribute that is only taken while unset reports the first occurrence's value, and is absent exactly when the key never occurs |
| Opml.NameOfSpec | crates/kenseader-core/src/feed/opml.rs:39-42 | the name is the last title when there is one, else the first text, and there is none exactly when neither occurs |
| Opml.TitleRegardlessOfOrder | crates/kenseader-core/src/feed/opml.rs:39-42 | a title wins over a text whether it comes before or after it |
| Opml.ScanAttributes | crates/kenseader-core/src/feed/opml.rs:31-45 | the attribute loop reports the last xmlUrl and the name as defined above |
| Opml.FeedOf | crates/kenseader-core/src/feed/opml.rs:30-54 | an event gives a feed exactly when it is an outline element with an xmlUrl; without a title or text it is named "Unnamed Feed" |
| Opml.FeedsOfAppend | crates/kenseader-core/src/feed/opml.rs:28-61 | feeds appear in document order |
| Opml.FeedsOfSpec | crates/kenseader-core/src/feed/opml.rs:28-61 | every feed comes from an outline with an xmlUrl, and there are none exactly when no event gives one |
| Opml.Stop | crates/kenseader-core/src/feed/opml.rs:55-58 | the reader stops at the first end of file or error, and at no earlier event |
| Opml.ParseOpml | crates/kenseader-core/src/feed/opml.rs:22-64 | fails exactly when the reader hits an error before the end of file, with the error's message; otherwise answers the feeds of the events before the end, in order |
| Opml.TitledOutlineFeed | crates/kenseader-core/src/feed/opml.rs:77 | an outline with text, title and xmlUrl is the feed at that url named by the title |
| Opml.TextOutlineFeed | crates/kenseader-core/src/feed/opml.rs:78 | an outline with text and xmlUrl is the feed at that url named by the text |
| Opml.CategoryOutline | crates/kenseader-core/src/feed/opml.rs:76 | a category outline with no xmlUrl gives no feed |
| Opml.FeedsOfSnoc | crates/kenseader-core/src/feed/opml.rs:48-53 | one more event adds its feed, if any, at the end |
| Opml.CategoryDocument | crates/kenseader-core/src/feed/opml.rs:71-90 | the first test document yields its three feeds, in order, the first named by its title and the others by their text |
| Opml.DocumentFeeds | crates/kenseader-core/src/feed/opml.rs:28-61 | of seven events, exactly those that give feeds contribute, in order |
| Opml.EmptyCategoryExample | crates/kenseader-core/src/feed/opml.rs:93-103 | the second test document, a lone category, yields no feed |
| Config.JoinPath | crates/kenseader-core/src/config.rs:626-627 | joining an absolute path gives that path; joining a relative one gives the base, at most one '/' and the path, with a '/' right before the path when the base is not empty |
| Config.ExpandTilde | crates/kenseader-core/src/config.rs:623-636 | without a home directory, and for paths other than "~" and "~/...", the path is kept; "~" becomes the home directory and "~/rest" the home directory joined with rest |
| Config.ExpandTildeUnderHome | crates/kenseader-core/src/config.rs:625-628 | a relative path under "~/" lands under the home directory, right after one '/' |
| Config.ExpandTildeLeavesOthers | crates/kenseader-core/src/config.rs:623-636 | paths that do not start with '~' are kept whatever the home directory |
| Config.DatabasePath | crates/kenseader-core/src/config.rs:678-680 | the database file kenseader.db lies directly inside the expanded data directory |
| Config.SocketPath | crates/kenseader-core/src/config.rs:683-685 | the IPC socket kenseader.sock lies directly inside the expanded data directory |
| Config.DatabaseBesideSocket | crates/kenseader-core/src/config.rs:678-690 | the database and the socket are two different files of the same directory |
| Config.ConfigPath | crates/kenseader-core/src/config.rs:669-675 | the configuration file is always config.toml, under .config/kenseader in the home directory or in "." |
| Config.DefaultDataDir | crates/kenseader-core/src/config.rs:527-531 | the default data directory is kenseader inside the platform's local data directory, or ./kenseader without one |
| Config.DefaultsFitTheirUsers | crates/kenseader-core/src/config.rs:569-620 | the defaults agree with their users: concurrency 2, minimum summarize length 500, the filter's own 0.3 threshold that its clamp keeps, a 12-hour feed refresh, the gruvbox-dark theme, and RSSHub routes sent to the default instance with one '/' |
| Config.VisitMap | crates/kenseader-core/src/config.rs:203-230 | the loop over the theme table's entries equals the scan that keeps the last name and colours, skips other keys and stops at the first unreadable value |
| Config.ScanThemeFailed | crates/kenseader-core/src/config.rs:211-222 | once an entry fails, later entries do not matter |
| Config.DeserializeTheme | crates/kenseader-core/src/config.rs:175-233 | a bare string is a theme of that name with no overrides; a table is read by the map visitor; anything else fails with the expecting message |
| Config.ThemeOfSpec | crates/kenseader-core/src/config.rs:203-230 | a table fails exactly when some name is not a string or some colours are not overrides; otherwise the name is the last one given or gruvbox-dark, and there are no colour overrides when colors is absent |
| Config.UnknownKeysIgnored | crates/kenseader-core/src/config.rs:218-221 | keys other than name and colors are ignored wherever they stand |
| Config.ScanUnknownKey | crates/kenseader-core/src/config.rs:218-221 | the scan skips an unknown key wherever it stands |
| Config.NameFormsAgree | crates/kenseader-core/src/config.rs:192-230 | a bare name and a table holding only that name give the same theme, and an empty table gives the default theme |
| RichContent.Content | crates/kenseader-tui/src/rich_content.rs:476-501 | the non-blank elements of a sequence, in order, none of them a blank line |
| RichContent.PushStateShape | crates/kenseader-tui/src/rich_content.rs:476-494 | after any prefix the pass has kept every non-blank element in order, made no blank run, not started with a blank, and its `last_was_empty` flag is true exactly when the result ends in a blank |
| RichContent.PushStepShape | crates/kenseader-tui/src/rich_content.rs:480-490 | one more element keeps that shape: a blank is pushed only after a non-blank, and a non-blank element is appended to the kept content |
| RichContent.CollapseSpec | crates/kenseader-tui/src/rich_content.rs:476-501 | collapsing keeps the non-blank elements in order and leaves no run of blank lines and no blank line at either end; the result is exactly `Normalized` |
| RichContent.CollapseSeparates | crates/kenseader-tui/src/rich_content.rs:476-501 | for the one input [blank, x, blank, blank, y, blank] the result is [x, blank, y], and [x, y] is unchanged |
| RichContent.Normalized | crates/kenseader-tui/src/rich_content.rs:474-500 | an independent reading of the doc comment: leading blanks go, and each non-blank element is followed by one blank exactly when blanks follow it and something non-blank comes later; so the result neither starts nor ends with a blank |
| RichContent.PushAppend | crates/kenseader-tui/src/rich_content.rs:479-492 | the pass over `s + t` leaves what it left after `s`, followed by what `t` pushes from that state |
| RichContent.DropTrailingBlankCons | crates/kenseader-tui/src/rich_content.rs:494-497 | dropping the trailing blank of a non-empty tail commutes with putting an element in front |
| RichContent.DropTrailingBlankKeepsHead | crates/kenseader-tui/src/rich_content.rs:494-497 | dropping the trailing blank keeps a leading non-blank element |
| RichContent.PushedAgreesBlank | crates/kenseader-tui/src/rich_content.rs:481-486 | a blank at the front adds at most one blank, and only right after a non-blank element, in agreement with `Normalized` |
| RichContent.PushedFromElement | crates/kenseader-tui/src/rich_content.rs:487-490 | a non-blank element is pushed as is, whatever came before |
| RichContent.NormalizedElement | crates/kenseader-tui/src/rich_content.rs:474 | in the documented result a non-blank element is followed by its gap and then the result of the rest |
| RichContent.PushedAgreesElement | crates/kenseader-tui/src/rich_content.rs:487-490 | a non-blank element at the front keeps the pass in agreement with `Normalized` |
| RichContent.PushedFromNormalized | crates/kenseader-tui/src/rich_content.rs:475-500 | from a fresh start, the pushed elements less a trailing blank are `Normalized`, never start with a blank, and after a non-blank element one blank comes first exactly when blanks follow and something is kept |
| RichContent.CollapseNormalized | crates/kenseader-tui/src/rich_content.rs:474-500 | `collapse_empty_lines` gives exactly the documented result `Normalized`, for every input |
| RichContent.NormalizedSkipsBlanks | crates/kenseader-tui/src/rich_content.rs:474 | leading blank lines do not change the documented result |
| RichContent.CollapseRun | crates/kenseader-tui/src/rich_content.rs:474-500 | for every non-blank x, every n >= 1 and every b starting non-blank, a run of n blanks after x collapses to one: the result is x, one blank, then the collapse of b |
| RichContent.CollapseEmptyLines | crates/kenseader-tui/src/rich_content.rs:476-501 | the loop computes the collapsed sequence, which is exactly `Normalized`, so its result keeps the content and has no blank runs or blank ends |
| RichContent.StripNoBrackets | crates/kenseader-tui/src/rich_content.rs:438-450 | no '<' and no '>' survives tag stripping |
| RichContent.StripPlain | crates/kenseader-tui/src/rich_content.rs:438-450 | text without angle brackets is kept unchanged and leaves the scanner outside a tag |
| RichContent.StripAppend | crates/kenseader-tui/src/rich_content.rs:438-450 | the character scan is a left fold: stripping a concatenation continues from the state the first part left |
| RichContent.StripDropsTag | crates/kenseader-tui/src/rich_content.rs:438-450 | everything from a '<' through the next '>' is dropped and the text on both sides is kept |
| RichContent.StripHtmlTags | crates/kenseader-tui/src/rich_content.rs:438-453 | the loop's result is the entity-decoded text of the tag-stripped input |
| RichContent.ReplaceAbsent | crates/kenseader-tui/src/rich_content.rs:456-473 | `str::replace` leaves a string unchanged when it does not contain the pattern's first character |
| RichContent.DecodeWithoutAmpersand | crates/kenseader-tui/src/rich_content.rs:456-473 | text with no '&' is unchanged by entity decoding, since every replaced entity starts with '&' |
| RichContent.Replace | crates/kenseader-tui/src/rich_content.rs:457-472 | `str::replace` with a replacement no longer than the pattern never lengthens the text |
| RichContent.ReplaceEach | crates/kenseader-tui/src/rich_content.rs:457-472 | replacements applied in turn, each no longer than its entity, never lengthen the text |
| RichContent.EntitiesShrink | crates/kenseader-tui/src/rich_content.rs:457-472 | every entity of the decoding table is longer than the one character that replaces it |
| RichContent.DecodeHtmlEntities | crates/kenseader-tui/src/rich_content.rs:456-473 | decoding entities never makes the text longer |
| RichContent.AmpersandFirst | crates/kenseader-tui/src/rich_content.rs:457-458 | because "&amp;" is replaced before "&lt;", the doubly escaped "&amp;lt;" decodes all the way to "<" |
| RichContent.AttrValue | crates/kenseader-tui/src/rich_content.rs:424-432 | one pattern of `extract_attr`: a found value never holds its closing quote, and nothing is found when the lowered tag lacks the lowered pattern |
| RichContent.ExtractAttr | crates/kenseader-tui/src/rich_content.rs:418-435 | a value comes from the double-quoted pattern or, failing that, from the single-quoted one |
| RichContent.ExtractDoubleQuoted | crates/kenseader-tui/src/rich_content.rs:418-435 | for `attr="v"` with no '=' before it, the value between the quotes is returned |
| RichContent.ExtractSingleQuoted | crates/kenseader-tui/src/rich_content.rs:418-435 | when the double-quoted form is absent, `attr='v'` yields the value between the single quotes |
| RichContent.RemoveOnce | crates/kenseader-tui/src/rich_content.rs:211-215 | one cut of `remove_tags`: a cut always shortens the text, and nothing is cut when the lowered text lacks the opening pattern |
| RichContent.RemoveTags | crates/kenseader-tui/src/rich_content.rs:203-225 | the nested loops compute the tag-by-tag fold of repeated cuts |
| RichContent.RemoveTagNoBracket | crates/kenseader-tui/src/rich_content.rs:207-211 | text without a '[' never contains the literal pattern "<tag[^>]*>", so it is left unchanged |
| RichContent.OrdinaryHtmlUnchanged | crates/kenseader-tui/src/rich_content.rs:203-225 | as written, `remove_tags` leaves any text without a '[' unchanged, whatever the tags |
| RichContent.ScriptBlockKept | crates/kenseader-tui/src/rich_content.rs:203-225 | as written, "a<script>x</script>b" survives the removal of script, style and noscript unchanged |
| RichContent.IntendedRemoveOnce | crates/kenseader-tui/src/rich_content.rs:207-215 | the corrected cut looks for "<tag" followed later by a '>' and cuts through the closing tag; a cut shortens the text, and no "<tag" means no cut |
| RichContent.FindOpening | crates/kenseader-tui/src/rich_content.rs:211 | with no '<' before it, the search for the opening tag stops at the element's '<' |
| RichContent.ClosingAt | crates/kenseader-tui/src/rich_content.rs:212 | the element's closing tag starts right after its text |
| RichContent.FindClosing | crates/kenseader-tui/src/rich_content.rs:212 | inside an element whose attributes and text hold no '<', the first closing tag found is the element's own |
| RichContent.IntendedRemovesBlock | crates/kenseader-tui/src/rich_content.rs:211-214 | one corrected cut removes exactly the first element, opening tag, attributes, text and closing tag, keeping the text on both sides |
| RichContent.IntendedKeepsPlain | crates/kenseader-tui/src/rich_content.rs:210-220 | text with no '<' holds no element, so the corrected loop leaves it unchanged |
| RichContent.IntendedRemovesElement | crates/kenseader-tui/src/rich_content.rs:203-225 | a single element in plain text is removed with its contents, whatever its attributes |
| RichContent.ScriptBlockRemoved | crates/kenseader-tui/src/rich_content.rs:203-225 | with the corrected pattern, "a<script>x</script>b" becomes "ab" |
| RichContent.LineElement | crates/kenseader-tui/src/rich_content.rs:186-192 | a line is an empty-line element exactly when it is blank after trimming, and otherwise a paragraph holding the line |
| RichContent.FromText | crates/kenseader-tui/src/rich_content.rs:183-199 | one element per line of the text, each a blank line or a paragraph holding that line |
| RichContent.RecordImageUrl | crates/kenseader-tui/src/rich_content.rs:265-267 | the url list keeps its old entries in order, gains the src exactly when it is non-empty and not yet listed, and stays free of duplicates |
| RichContent.ArticleImageCache.constructor | crates/kenseader-tui/src/rich_content.rs:512-518 | a new cache holds no image state |
| RichContent.ArticleImageCache.StartLoading | crates/kenseader-tui/src/rich_content.rs:547-551 | only a url with no state becomes Loading; an image is never ready and loading at once, and a ready image stays ready |
| RichContent.ArticleImageCache.IsReady | crates/kenseader-tui/src/rich_content.rs:521-523 | a ready image has a state and is never also reported as loading |
| RichContent.ArticleImageCache.IsLoading | crates/kenseader-tui/src/rich_content.rs:526-528 | only a url with a state can be loading, and a failed image is never loading |
| RichContent.ArticleImageCache.SetLoaded | crates/kenseader-tui/src/rich_content.rs:554-556 | the url becomes Loaded with the image, so it is ready and not loading; other urls are untouched |
| RichContent.ArticleImageCache.SetFailed | crates/kenseader-tui/src/rich_content.rs:559-561 | the url becomes Failed with the message, so it is neither ready nor loading |
| RichContent.ArticleImageCache.TryLoadFromDisk | crates/kenseader-tui/src/rich_content.rs:564-572 | it answers true exactly when the disk held the image, which is then stored as Loaded; otherwise nothing changes |
| RichContent.ArticleImageCache.Clear | crates/kenseader-tui/src/rich_content.rs:582-584 | the cache is emptied |
| RichContent.ArticleImageCache.Status | crates/kenseader-tui/src/rich_content.rs:587-593 | the loading message is given exactly for a loading image, a failed image reports its error, and there is no message exactly for an unknown or loaded image |
| ScrollSettings.AnimationTickDuration | crates/kenseader-tui/src/scroll/config.rs:28-35 | 16 ms without a frame rate; otherwise the largest whole number of milliseconds of which fps ticks fit in one second |
| ScrollSettings.SmoothNeedsBoth | crates/kenseader-tui/src/scroll/config.rs:37-40 | the defaults are smooth, turning the switch off or the duration to zero makes scrolling instant, and the switch with a positive duration makes it smooth |
| ScrollSettings.AnimationDuration | crates/kenseader-tui/src/scroll/config.rs:24-26 | whenever scrolling is smooth the animation lasts a positive number of milliseconds, and with the switch on a positive duration makes scrolling smooth |
| ScrollSettings.DefaultTickMatchesFallback | crates/kenseader-tui/src/scroll/config.rs:28-35 | at the default 60 frames a second the tick is 16 ms, the same as the fallback |
| ScrollSettings.TickVanishesAboveThousandFps | crates/kenseader-tui/src/scroll/config.rs:28-35 | above 1000 frames a second the integer division makes the tick zero milliseconds |
| ScrollAnimation.ClampOffset | crates/kenseader-tui/src/scroll/animation.rs:155-156 | `clamp(0, max)`: the result never exceeds max, equals x inside the range, and is 0 below it and max above it |
| ScrollAnimation.ScrollToSpec | crates/kenseader-tui/src/scroll/animation.rs:120-148 | the target becomes the requested offset capped at max; when not smooth the view jumps there with no animation, otherwise the view stays and an animation runs exactly when the view is not already there; pending deltas are untouched |
| ScrollAnimation.ScrollBySpec | crates/kenseader-tui/src/scroll/animation.rs:152-164 | when not smooth the view moves at once by the clamped delta and any animation stops; when smooth only the pending delta grows |
| ScrollAnimation.StartAnimation | crates/kenseader-tui/src/scroll/animation.rs:222-228 | a new animation starts now, from the given offset to the given target, with the configured easing, and lasts a positive time whenever scrolling is smooth |
| ScrollAnimation.Retarget | crates/kenseader-tui/src/scroll/animation.rs:214-229 | the first half of update as written: the visible offset is kept and nothing stays pending; with nothing pending the state is unchanged; a clamped new target away from the view starts an animation from the view to it; a new target equal to the view keeps whatever animation was running |
| ScrollAnimation.Advance | crates/kenseader-tui/src/scroll/animation.rs:233-244 | the second half of update: the pending delta is untouched and an idle state is unchanged; a running animation finishes exactly when its duration has elapsed, landing on its end capped at max, and otherwise stays as it is with the view capped at max |
| ScrollAnimation.UpdateSpec | crates/kenseader-tui/src/scroll/animation.rs:212-246 | update as written leaves nothing pending, and an idle state with nothing pending is unchanged |
| ScrollAnimation.UpdateClearsPending | crates/kenseader-tui/src/scroll/animation.rs:212-246 | after an update no delta is pending, and whenever an animation ran the visible offset is within max |
| ScrollAnimation.UpdateFoldsPending | crates/kenseader-tui/src/scroll/animation.rs:214-228 | as written, a pending delta moves the target to the old target plus the delta, clamped, unless that lands on the visible offset while an animation runs; then the running animation is kept unchanged |
| ScrollAnimation.ScrollByBatches | crates/kenseader-tui/src/scroll/animation.rs:152-164 | smooth requests batch: two deltas in a row act as one delta of their sum |
| ScrollAnimation.ThreeScrollsAimAtThirty | crates/kenseader-tui/src/scroll/animation.rs:295-311 | from rest, three smooth scrolls by 10 followed by an update aim at offset 30 |
| ScrollAnimation.StaleAnimationKept | crates/kenseader-tui/src/scroll/animation.rs:214-229 | as written, halfway (offset 5) through scrolling from 0 to 10, a delta of -5 brings the new target onto the view, yet the animation still aims at 10; the corrected update stops idle at 5 |
| ScrollAnimation.RetargetCorrected | crates/kenseader-tui/src/scroll/animation.rs:214-229 | the corrected first half keeps the visible offset and leaves an idle request unchanged; any animation it starts runs from the view to a different offset |
| ScrollAnimation.RetargetCorrectedFolds | crates/kenseader-tui/src/scroll/animation.rs:214-229 | with the correction every pending delta moves the target to the old target plus the delta, clamped, and is consumed |
| ScrollAnimation.UpdateCorrected | crates/kenseader-tui/src/scroll/animation.rs:212-246 | the corrected update leaves nothing pending, and an idle state with nothing pending is unchanged |
| ScrollAnimation.UpdateCorrectedFolds | crates/kenseader-tui/src/scroll/animation.rs:214-229 | with the correction, every pending delta lands in the target after the whole update, whether or not the new animation already finished, and nothing stays pending |
| ScrollAnimation.CorrectionOnlyDropsStaleAnimation | crates/kenseader-tui/src/scroll/animation.rs:214-229 | the corrected and as-written updates give the same state except when a delta brings the target back onto the view while an animation runs; there the corrected one stops idle at the visible offset |
| ScrollAnimation.LineStep | crates/kenseader-tui/src/scroll/animation.rs:167-184 | one line per step when smooth, otherwise the configured number of lines |
| ScrollAnimation.ScrollAnimator.constructor | crates/kenseader-tui/src/scroll/animation.rs:57-64 | a new animator is idle at offset 0, with nothing pending, and keeps the given configuration |
| ScrollAnimation.ScrollAnimator.SetConfig | crates/kenseader-tui/src/scroll/animation.rs:72-74 | the configuration is replaced |
| ScrollAnimation.ScrollAnimator.IsAnimating | crates/kenseader-tui/src/scroll/animation.rs:83-85 | when no animation runs, the target is the visible offset |
| ScrollAnimation.ScrollAnimator.NeedsUpdate | crates/kenseader-tui/src/scroll/animation.rs:90-92 | when no update is needed nothing animates, and an update at any time and bound leaves the state as it is |
| ScrollAnimation.ScrollAnimator.TargetScroll | crates/kenseader-tui/src/scroll/animation.rs:95-100 | the end of the running animation, or the visible offset when idle |
| ScrollAnimation.ScrollAnimator.SetScroll | crates/kenseader-tui/src/scroll/animation.rs:109-113 | the view jumps to the offset, dropping the animation and the pending delta, so nothing needs updating |
| ScrollAnimation.ScrollAnimator.ScrollTo | crates/kenseader-tui/src/scroll/animation.rs:120-148 | the new state is the scroll-to state of the old one, so the target is the requested offset capped at max |
| ScrollAnimation.ScrollAnimator.ScrollBy | crates/kenseader-tui/src/scroll/animation.rs:152-164 | the new state is the scroll-by state of the old one |
| ScrollAnimation.ScrollAnimator.ScrollDown | crates/kenseader-tui/src/scroll/animation.rs:167-174 | scrolls by the line step |
| ScrollAnimation.ScrollAnimator.ScrollUp | crates/kenseader-tui/src/scroll/animation.rs:177-184 | scrolls back by the line step |
| ScrollAnimation.ScrollAnimator.ScrollHalfPageDown | crates/kenseader-tui/src/scroll/animation.rs:187-190 | scrolls by half the viewport height, at least one line |
| ScrollAnimation.ScrollAnimator.ScrollHalfPageUp | crates/kenseader-tui/src/scroll/animation.rs:193-196 | scrolls back by half the viewport height, at least one line |
| ScrollAnimation.ScrollAnimator.ScrollFullPageDown | crates/kenseader-tui/src/scroll/animation.rs:199-201 | scrolls by the viewport height |
| ScrollAnimation.ScrollAnimator.ScrollFullPageUp | crates/kenseader-tui/src/scroll/animation.rs:204-206 | scrolls back by the viewport height |
| ScrollAnimation.ScrollAnimator.Update | crates/kenseader-tui/src/scroll/animation.rs:212-246 | the new state is the as-written update of the old one for the given time and interpolated offset; it returns the visible offset and leaves nothing pending |
| ScrollAnimation.ScrollAnimator.Cancel | crates/kenseader-tui/src/scroll/animation.rs:250-253 | the animation and the pending delta are dropped and the view stays where it is |
| ScrollAnimation.ScrollAnimator.Reset | crates/kenseader-tui/src/scroll/animation.rs:256-260 | back to offset 0, idle, with nothing pending |
| Numeric.HalfPage | crates/kenseader-tui/src/scroll/animation.rs:188 | half the viewport, at least one line and no more than the viewport; for two or more rows, twice it fits the viewport with less than two rows to spare |
| Themes.DigitValue | crates/kenseader-tui/src/themes/mod.rs:30-32 | a hex digit's value is below 16, the decimal value for '0'..'9' and at least 10 for a letter |
| Themes.HexValue | crates/kenseader-tui/src/themes/mod.rs:36-38 | a run of hex digits read most significant first: one digit is below 16, two digits are below 256 |
| Themes.FromHexU8 | crates/kenseader-tui/src/themes/mod.rs:30-40 | `u8::from_str_radix(_, 16)`: one or two hex digits give their value; without a leading '+', anything that is not all hex digits is rejected |
| Themes.StripHashes | crates/kenseader-tui/src/themes/mod.rs:25 | `trim_start_matches('#')`: a suffix of the input, every removed character a '#', and the rest does not start with '#' |
| Themes.ParseHexBodyAsWritten | crates/kenseader-tui/src/themes/mod.rs:27-43 | as written, only three or six bytes can parse |
| Themes.ParseHexColorAsWritten | crates/kenseader-tui/src/themes/mod.rs:24-44 | as written, a colour comes only from a trimmed, '#'-stripped body of three or six bytes |
| Themes.ShortChannel | crates/kenseader-tui/src/themes/mod.rs:30-32 | the short form's digit d stands for the byte dd, i.e. 17 times d |
| Themes.ParseHexBody | crates/kenseader-tui/src/themes/mod.rs:27-43 | the documented notation: the body parses exactly when it is three or six hex digits |
| Themes.ParseHexColor | crates/kenseader-tui/src/themes/mod.rs:22-44 | "#RGB", "RGB", "#RRGGBB" or "RRGGBB": a colour exactly when the trimmed, '#'-stripped text is three or six hex digits |
| Themes.HexBodyOfDigits | crates/kenseader-tui/src/themes/mod.rs:25 | hex digits need no trimming and have no '#' to strip |
| Themes.HexBodyHash | crates/kenseader-tui/src/themes/mod.rs:25 | a leading '#' is stripped and the rest read as without it |
| Themes.ShortFormDoubles | crates/kenseader-tui/src/themes/mod.rs:28-40 | the short form always parses and equals the full form with every digit doubled |
| Themes.FullForm | crates/kenseader-tui/src/themes/mod.rs:35-40 | six hex digits, with or without '#', are three two-digit channels |
| Themes.ShortForm | crates/kenseader-tui/src/themes/mod.rs:28-33 | three hex digits, with or without '#', are three doubled channels |
| Themes.OrangeChannels | crates/kenseader-tui/src/themes/mod.rs:28-40 | "ff", "55" and "00" are 255, 85 and 0, and the short digits f, 5 and 0 double to the same |
| Themes.FullFormExample | crates/kenseader-tui/src/themes/mod.rs:211-227 | "ff5500" and "#ff5500" are the colour (255, 85, 0) |
| Themes.ShortFormExample | crates/kenseader-tui/src/themes/mod.rs:217-221 | "#f50" is the same colour (255, 85, 0) |
| Themes.InvalidExamples | crates/kenseader-tui/src/themes/mod.rs:229-233 | "#gg0000" and "invalid" are not colours |
| Themes.HashOptional | crates/kenseader-tui/src/themes/mod.rs:23-25 | a leading '#' is optional, both in the documented notation and as written |
| Themes.AsWrittenAgreesWithoutSign | crates/kenseader-tui/src/themes/mod.rs:24-44 | where the body holds no '+', the code as written and the documented notation agree |
| Themes.BodyAgreesWithoutSign | crates/kenseader-tui/src/themes/mod.rs:28-44 | for a body without '+', the as-written reading and the documented notation agree |
| Themes.ShortAgreesWithoutSign | crates/kenseader-tui/src/themes/mod.rs:30-35 | without a '+', the as-written reading of three characters is the documented short form |
| Themes.FullAgreesWithoutSign | crates/kenseader-tui/src/themes/mod.rs:37-42 | without a '+', the as-written reading of six characters is the documented full form |
| Themes.SignedPiecesAccepted | crates/kenseader-tui/src/themes/mod.rs:35-40 | as written, "+f+f+f" is accepted because each piece "+f" reads as a signed number, while the documented notation rejects it |
| Themes.BareBody | crates/kenseader-tui/src/themes/mod.rs:26 | trimming and stripping '#' leave a trimmed string without a leading '#' as it is |
| Themes.SignedBody | crates/kenseader-tui/src/themes/mod.rs:37-41 | as written, the six-character body "+x+y+z" reads as the three digits x, y and z |
| Themes.SignedDigit | crates/kenseader-tui/src/themes/mod.rs:38 | `u8::from_str_radix` reads "+d" as the digit d |
| Themes.LookupTheme | crates/kenseader-tui/src/themes/mod.rs:49-100 | the first palette registered under the name, and none exactly when the name is not registered |
| Themes.ThemeFor | crates/kenseader-tui/src/themes/mod.rs:48-100 | the lowercased name selects a registered palette, and an unknown name falls back to gruvbox-dark |
| Themes.ThemeForIgnoresCase | crates/kenseader-tui/src/themes/mod.rs:49 | theme names are matched without regard to ASCII case |
| Themes.RegistryNamesDistinct | crates/kenseader-tui/src/themes/mod.rs:49-100 | no name is registered twice, so the order of the match arms does not matter |
| Themes.LookupFirst | crates/kenseader-tui/src/themes/mod.rs:49-100 | a lookup answers the first entry registered under the name |
| Themes.AvailableThemesDistinct | crates/kenseader-tui/src/themes/mod.rs:177-204 | `available_themes` lists 24 different names and every built-in palette is among the 24 |
| Themes.Override | crates/kenseader-tui/src/themes/mod.rs:107-111 | one slot after an override: the colour the parser as written reads from the override when it is given and parses (so "+f+f+f" is applied), otherwise the old colour |
| Themes.DocumentedOverride | crates/kenseader-tui/src/themes/mod.rs:107-111 | an override in the documented notation, with no '+' in its body, sets the slot to the documented colour |
| Themes.SignedOverrideApplied | crates/kenseader-tui/src/themes/mod.rs:107-111 | as written, a signed override such as "+f+f+f", which the documented notation rejects, still sets the slot to the colour of its digits |
| Themes.OverrideSlot | crates/kenseader-tui/src/themes/mod.rs:107-111 | one `if let` block: the slot becomes the as-written parse of the override when it succeeds and otherwise keeps its colour |
| Themes.ApplyOverrides | crates/kenseader-tui/src/themes/mod.rs:106-174 | after the thirteen `if let` blocks every overridable slot holds its usable override's as-written colour or else the base colour, and the eleven other slots are the base theme's |
| Themes.OverridesKeepFixedSlots | crates/kenseader-tui/src/themes/mod.rs:106-174 | overrides never touch the eleven slots that have no override |
| Themes.NoValidOverrideKeepsTheme | crates/kenseader-tui/src/themes/mod.rs:106-174 | with no override, or only overrides the parser as written rejects, the theme is unchanged |
| Themes.OverridesIdempotent | crates/kenseader-tui/src/themes/mod.rs:106-174 | applying the same overrides twice is the same as once |
| Themes.ValidOverrideWins | crates/kenseader-tui/src/themes/mod.rs:243-253 | a single override that the parser as written accepts, such as of the unread colour, sets that slot to the parsed colour and nothing else |
| Themes.LoadTheme | crates/kenseader-tui/src/themes/mod.rs:48-103 | the loaded theme is the palette its name selects with each of the thirteen overridable slots set to its usable override's as-written colour and every other slot kept |
| Themes.DefaultThemeIsGruvboxDark | crates/kenseader-tui/src/themes/mod.rs:235-241 | the default theme configuration loads gruvbox-dark unchanged |
| Themes.UnknownNameFallsBack | crates/kenseader-tui/src/themes/mod.rs:99-102 | an unknown name loads gruvbox-dark with the overrides applied as the parser as written reads them |
| Ueberzug.HexDigit | crates/kenseader-tui/src/image_renderer/ueberzug.rs:129-130 | one lower-case hexadecimal digit |
| Ueberzug.Hex4 | crates/kenseader-tui/src/image_renderer/ueberzug.rs:129-130 | `{:04x}` of a code below 2^16 is exactly four digits |
| Ueberzug.EscapeChar | crates/kenseader-tui/src/image_renderer/ueberzug.rs:123-133 | a character is rewritten exactly when it is a quote, a backslash or a control character, and what is written holds no control character |
| Ueberzug.Escaped | crates/kenseader-tui/src/image_renderer/ueberzug.rs:120-136 | the escaped text is at least as long as the input and holds no control character |
| Ueberzug.EscapedAppend | crates/kenseader-tui/src/image_renderer/ueberzug.rs:122-134 | escaping goes character by character: one more character appends its own escape |
| Ueberzug.EscapeJsonString | crates/kenseader-tui/src/image_renderer/ueberzug.rs:120-136 | the loop's result is the character-by-character escape of the input |
| Ueberzug.PlainUnchanged | crates/kenseader-tui/src/image_renderer/ueberzug.rs:133 | a string with nothing to escape, such as "hello", comes back unchanged |
| Ueberzug.SpecialGrows | crates/kenseader-tui/src/image_renderer/ueberzug.rs:123-130 | a string holding a character to escape comes back strictly longer |
| Ueberzug.HexValue | crates/kenseader-tui/src/image_renderer/ueberzug.rs:129-130 | the value of a hexadecimal digit is below 16 |
| Ueberzug.ParseHex4 | crates/kenseader-tui/src/image_renderer/ueberzug.rs:129-130 | four hexadecimal digits read as a code below 2^16 |
| Ueberzug.HexDigitValue | crates/kenseader-tui/src/image_renderer/ueberzug.rs:129-130 | each written digit reads back as its value |
| Ueberzug.Hex4Places | crates/kenseader-tui/src/image_renderer/ueberzug.rs:129-130 | the four digits `{:04x}` writes, weighed by their places, add up to the code |
| Ueberzug.ParseHex4Inverse | crates/kenseader-tui/src/image_renderer/ueberzug.rs:129-130 | the four written digits read back as the code |
| Ueberzug.UnescapeChar | crates/kenseader-tui/src/image_renderer/ueberzug.rs:123-133 | a JSON reader reads one escaped character back as that character, followed by whatever the rest reads as |
| Ueberzug.EscapeRoundTrip | crates/kenseader-tui/src/image_renderer/ueberzug.rs:120-136 | the escaped text is a valid JSON string body that reads back as the original |
| Ueberzug.EscapeInjective | crates/kenseader-tui/src/image_renderer/ueberzug.rs:120-136 | different strings stay different once escaped |
| Kitty.QuantizeSide | crates/kenseader-tui/src/image_renderer/kitty.rs:66-72 | a quantized side is a positive multiple of 4; a side from 1 to 65532 is rounded up to the next multiple of 4, and 0 becomes 4 |
| Kitty.QuantizeRoundsUp | crates/kenseader-tui/src/image_renderer/kitty.rs:66-72 | below the top of the 16-bit range a side rounds up to the end of its 4-cell bucket |
| Kitty.QuantizeSharesBuckets | crates/kenseader-tui/src/image_renderer/kitty.rs:51-72 | sizes in one bucket share a quantized size, so the encoding cache keeps hitting while the bounds change a little |
| Kitty.QuantizeIdempotent | crates/kenseader-tui/src/image_renderer/kitty.rs:66-72 | quantizing a quantized side changes nothing |
| Kitty.QuantizeWrapsAtTop | crates/kenseader-tui/src/image_renderer/kitty.rs:66-72 | 65532 stays itself, while 65533 to 65535 overflow the 16-bit sum and collapse to 4 |
| Kitty.EncodePng | crates/kenseader-tui/src/image_renderer/kitty.rs:211-262 | encoding yields the rendered PNG within the bounds; each resized side is at least one pixel, so a positive bound gives at least one cell; each side is either the whole bound or enough cells to hold the resized pixels |
| Kitty.Chunks | crates/kenseader-tui/src/image_renderer/kitty.rs:280-283 | `data.chunks(4096)`: as many chunks as the ceiling of the length over 4096, all but the last full, none empty, and joined they give back the data |
| Kitty.ChunkedTransmission | crates/kenseader-tui/src/image_renderer/kitty.rs:280-314 | one command per chunk, only the first naming the image id and size, `m=1` on all but the last, every payload 1 to 4096 bytes, and the payloads joined give back the image data |
| Kitty.CachedEncoding | crates/kenseader-tui/src/image_renderer/kitty.rs:173-181 | a cached encoding is reused; otherwise encoding succeeds exactly when rendering did, and fits within the quantized bounds |
| Kitty.RecordKeepsIdsValid | crates/kenseader-tui/src/image_renderer/kitty.rs:164-205 | recording a placement under the next id, in place of any old one, keeps every shown id below the counter and distinct |
| Kitty.KeepActive | crates/kenseader-tui/src/image_renderer/kitty.rs:124-140 | dropping the inactive urls keeps exactly the shown images whose url is active |
| Kitty.AppendUnseen | crates/kenseader-tui/src/image_renderer/kitty.rs:134-139 | a url not yet deleted can be added to the deleted ones without repeating any |
| Kitty.DropOneStale | crates/kenseader-tui/src/image_renderer/kitty.rs:134-139 | removing one more url from the map is removing it together with the ones gone so far, and its image is still the one first shown |
| Kitty.DeleteCommandsSnoc | crates/kenseader-tui/src/image_renderer/kitty.rs:134-139 | one more deleted url adds its delete command at the end |
| Kitty.KittyRenderer.constructor | crates/kenseader-tui/src/image_renderer/kitty.rs:54-63 | a new renderer starts at id 1 with nothing shown or cached, clean, and having written nothing |
| Kitty.KittyRenderer.BeginFrame | crates/kenseader-tui/src/image_renderer/kitty.rs:114-116 | a full redraw is due exactly when the renderer is dirty |
| Kitty.KittyRenderer.MarkDirty | crates/kenseader-tui/src/image_renderer/kitty.rs:119-121 | the renderer becomes dirty |
| Kitty.KittyRenderer.ClearImage | crates/kenseader-tui/src/image_renderer/kitty.rs:94-100 | one delete-by-id command is written |
| Kitty.KittyRenderer.ClearAll | crates/kenseader-tui/src/image_renderer/kitty.rs:75-91 | with nothing shown nothing happens; otherwise one delete-all command is written and every placement and encoding is forgotten |
| Kitty.KittyRenderer.EndFrame | crates/kenseader-tui/src/image_renderer/kitty.rs:124-143 | exactly the shown images whose url is not active are deleted, each once, the rest stay, and the renderer is clean |
| Kitty.KittyRenderer.DropStale | crates/kenseader-tui/src/image_renderer/kitty.rs:135-138 | one stale image is deleted by its id and forgotten |
| Kitty.KittyRenderer.DropStaleStep | crates/kenseader-tui/src/image_renderer/kitty.rs:134-139 | one pass of the loop: the next stale url leaves the map and its delete command joins the ones sent so far |
| Kitty.KittyRenderer.DisplayOrUpdate | crates/kenseader-tui/src/image_renderer/kitty.rs:146-208 | an image already in place keeps its id and nothing is written; otherwise the old copy is deleted, the cached or fresh encoding is sent centred under a new id and recorded, and ids stay distinct; on an encoding error only the delete of the old copy is written |
| Kitty.KittyRenderer.NeedsUpdate | crates/kenseader-tui/src/image_renderer/kitty.rs:103-110 | a url never displayed always needs an update; one that needs none is displayed at the same position |
| Kitty.KittyRenderer.Redraw | crates/kenseader-tui/src/image_renderer/kitty.rs:161-208 | once an update is due: the old copy is deleted, the cached or fresh encoding is sent centred under the next id and recorded, ids stay distinct, and on an encoding error only the delete of the old copy is written, and the cache and counter are untouched |
| Kitty.KittyRenderer.Place | crates/kenseader-tui/src/image_renderer/kitty.rs:183-205 | the encoding is sent centred horizontally under the next id, the counter advances, and the placement is recorded |
| Kitty.KittyRenderer.Forget | crates/kenseader-tui/src/image_renderer/kitty.rs:164-166 | the old copy, if any, is deleted by its id and forgotten |
| Kitty.KittyRenderer.Encode | crates/kenseader-tui/src/image_renderer/kitty.rs:170-181 | the cache answers a known key; otherwise the fresh encoding is cached when encoding succeeds |
| Kitty.KittyRenderer.SendImageAtPosition | crates/kenseader-tui/src/image_renderer/kitty.rs:265-320 | the cursor is saved, moved to the 1-based cell, one command per 4096-byte chunk is sent, and the cursor is restored |
| Popup.CenteredRect | crates/kenseader-tui/src/widgets/popup.rs:104-108 | the rectangle has exactly the requested size |
| Popup.CenteredInside | crates/kenseader-tui/src/widgets/popup.rs:104-108 | a rectangle that fits the area is placed inside it |
| Popup.CenteredBalanced | crates/kenseader-tui/src/widgets/popup.rs:104-108 | a rectangle that fits is centred: the room on its two sides differs by at most one cell, the extra cell going right or below |
| Popup.OversizedAnchored | crates/kenseader-tui/src/widgets/popup.rs:104-108 | a rectangle wider or taller than the area starts at the area's left or top edge |
| Popup.ConfirmArea | crates/kenseader-tui/src/widgets/popup.rs:20-26 | the confirmation popup is at most 50 by 7 cells |
| Popup.ConfirmAreaFits | crates/kenseader-tui/src/widgets/popup.rs:20-26 | the popup lies on the screen, keeps two free columns on each side and one free row above and below, and has its full size once the screen is at least 54 by 9 cells |
| Popup.TruncateStr | crates/kenseader-tui/src/widgets/popup.rs:111-118 | a string within the limit is kept; a longer one becomes exactly the limit long, a prefix of the original followed by "..." |
| Popup.TruncateIdempotent | crates/kenseader-tui/src/widgets/popup.rs:111-118 | truncating twice is the same as truncating once |
| Popup.TruncateForgetsTail | crates/kenseader-tui/src/widgets/popup.rs:111-118 | two too-long names with the same first limit-minus-three characters are shown the same |
| Popup.DeleteMessage | crates/kenseader-tui/src/widgets/popup.rs:90-94 | the delete prompt is the quoted question around the name, at most 30 name characters long |
| Popup.DeleteMessageShowsShortName | crates/kenseader-tui/src/widgets/popup.rs:90-94 | a name of up to 30 characters appears in full right after the opening quote |
| Input.HandleInputMode | crates/kenseader-tui/src/input.rs:120-128 | while typing a search, Enter confirms, Esc cancels, Backspace deletes, a character is typed, and every other key does nothing |
| Input.HandleConfirmMode | crates/kenseader-tui/src/input.rs:131-137 | the prompt is confirmed exactly by y, Y or Enter and cancelled exactly by n, N or Esc, whatever the modifiers; any other key does nothing |
| Input.HandleKeyEvent | crates/kenseader-tui/src/input.rs:39-117 | search input takes precedence, then the delete prompt, then help (any key leaves it), and otherwise the normal key table decides |
| Input.NormalKeysNeverEdit | crates/kenseader-tui/src/input.rs:55-116 | no normal-mode key types text, confirms, cancels or deletes a character |
| Input.GPrefix | crates/kenseader-tui/src/input.rs:80-87 | a plain g completes "gg" (jump to top) when a g is pending and otherwise starts it |
| Input.BrowserOnlyInDetail | crates/kenseader-tui/src/input.rs:94-96 | a plain b opens the browser only from the article detail panel, and does nothing elsewhere |
| Input.DeleteOnlyInSubscriptions | crates/kenseader-tui/src/input.rs:101-103 | a plain d deletes only from the subscriptions panel, and does nothing elsewhere |
| Input.ExactModifiers | crates/kenseader-tui/src/input.rs:55-116 | modifiers must match exactly: with Alt held nothing happens, nor for G without Shift or Q with Shift |
| Input.BatchDeleteUsesNormalKeys | crates/kenseader-tui/src/input.rs:45-52 | the batch-delete prompt has no handler of its own, so keys act there as in normal mode |
| Keymap.KeyNamesWellFormed | crates/kenseader-tui/src/keymap.rs:205-232 | every key name has at least two characters, and the only character key it names is the space |
| Keymap.LookupName | crates/kenseader-tui/src/keymap.rs:205-232 | a found key is the key of an entry carrying that name |
| Keymap.ParseKeyName | crates/kenseader-tui/src/keymap.rs:204-244 | a key name never yields an upper-case character; a character other than space comes from a one-character name, lowercased; any one-byte name yields its own character, lowercased |
| Keymap.SplitModifier | crates/kenseader-tui/src/keymap.rs:189-197 | the prefix "C-" means Control and "S-" Shift, and the rest follows the two-character prefix; without a prefix the text is kept whole |
| Keymap.ParseSpecialKey | crates/kenseader-tui/src/keymap.rs:187-201 | the notation inside angle brackets holds no modifier, Control or Shift, and never an upper-case character |
| Keymap.ParseTrimmed | crates/kenseader-tui/src/keymap.rs:162-183 | a parsed binding holds no modifier, Control or Shift, and Control never comes with an upper-case character |
| Keymap.ParseKeyBinding | crates/kenseader-tui/src/keymap.rs:158-184 | as the trimmed notation: only "<…>", a single byte or "gg" can parse, with at most Control or Shift, and Control never with an upper-case character |
| Keymap.ParseIgnoresWhitespace | crates/kenseader-tui/src/keymap.rs:159 | surrounding whitespace does not change the binding |
| Keymap.ParseSingleChar | crates/kenseader-tui/src/keymap.rs:170-176 | a lone one-byte character that is not whitespace binds itself, with Shift exactly for 'A' to 'Z', as "j", "/" and "G" do |
| Keymap.ParseCharName | crates/kenseader-tui/src/keymap.rs:234-242 | a one-byte name that is no key name stands for its own character, lowercased |
| Keymap.ParseKeyNameIgnoresCase | crates/kenseader-tui/src/keymap.rs:205 | key names are matched without regard to case |
| Keymap.BracketedInner | crates/kenseader-tui/src/keymap.rs:162-166 | "<x>" is parsed as the text between the brackets |
| Keymap.ParseCtrl | crates/kenseader-tui/src/keymap.rs:189-192 | "<C-name>" holds Control over the named key, and fails when the name does |
| Keymap.ParseShift | crates/kenseader-tui/src/keymap.rs:194-197 | "<S-name>" holds Shift over the named key, and fails when the name does |
| Keymap.ParsePlainName | crates/kenseader-tui/src/keymap.rs:199-200 | "<name>" without a modifier prefix is the named key with no modifier |
| Keymap.ParseGG | crates/kenseader-tui/src/keymap.rs:178-181 | "gg" on its own parses as a plain g |
| Keymap.ParseCtrlChar | crates/kenseader-tui/src/keymap.rs:279-288 | "<C-x>" for a one-byte character holds Control over that character, lowercased, as "<C-j>" and "<C-d>" do |
| Keymap.LookupFirst | crates/kenseader-tui/src/keymap.rs:205-232 | the name lookup answers the first entry with the name |
| Keymap.ParseNamedKey | crates/kenseader-tui/src/keymap.rs:290-316 | a key name such as "CR", "Esc", "Tab" or "Space", in any case, parses to its key alone, under "<…>", and under Control or Shift |
| Keymap.Classify | crates/kenseader-tui/src/keymap.rs:56-75 | a notation is the "gg" sequence exactly when it is "gg", a key exactly when it parses, and invalid otherwise |
| Keymap.AddEntry | crates/kenseader-tui/src/keymap.rs:56-75 | one added binding: "gg" sets the sequence's action; a new key gains the action; a key already bound keeps its action; nothing else changes |
| Keymap.ConfigBindings | crates/kenseader-tui/src/keymap.rs:78-108 | the 31 configurable actions, in the order they are added |
| Keymap.Entries | crates/kenseader-tui/src/keymap.rs:78-108 | each configured notation is classified, keeping its action and its position |
| Keymap.FirstBinderFrom | crates/kenseader-tui/src/keymap.rs:63-70 | the first entry at or after a position that binds the key, with none before it, or none at all |
| Keymap.FirstBinderIs | crates/kenseader-tui/src/keymap.rs:63-70 | the first binder is the least index binding the key |
| Keymap.FirstBindingWins | crates/kenseader-tui/src/keymap.rs:63-70 | after all configured bindings, a key is bound exactly when some entry binds it, and to the action of the first such entry |
| Keymap.LastGSequenceWins | crates/kenseader-tui/src/keymap.rs:57-61 | the "gg" action is unset exactly when no entry is "gg", and otherwise is the action of the last "gg" entry |
| Keymap.OrInsert | crates/kenseader-tui/src/keymap.rs:114-117 | `entry(k).or_insert(v)`: the key keeps an existing action or gains v, every other key is unchanged, and no other key is added |
| Keymap.FillDefault | crates/kenseader-tui/src/keymap.rs:114-117 | one `or_insert` on the keymap: the key keeps a configured action or gets the default, and no other key changes or is added |
| Keymap.ArrowDefaults | crates/kenseader-tui/src/keymap.rs:114-117 | each arrow key keeps a configured action or gets its default, and every configured key keeps its action |
| Keymap.ArrowDefaultsAdds | crates/kenseader-tui/src/keymap.rs:114-117 | the four arrow keys are the only keys the defaults add |
| Keymap.Bind | crates/kenseader-tui/src/keymap.rs:112-119 | `insert`: the key gets the action whatever was configured, and no other key changes or is added |
| Keymap.Get | crates/kenseader-tui/src/keymap.rs:128-130 | an action is found exactly for a bound key, and is its bound action |
| Keymap.FixedKeys | crates/kenseader-tui/src/keymap.rs:110-119 | Ctrl+C quits and Escape exits whatever was configured, and the "gg" action is untouched |
| Keymap.FixedKeysArrows | crates/kenseader-tui/src/keymap.rs:114-117 | after the fixed keys, each arrow key keeps a configured action or gets its default |
| Keymap.FixedKeysFrame | crates/kenseader-tui/src/keymap.rs:110-119 | after the fixed keys, every configured key other than Ctrl+C and Escape keeps its action, and only the six fixed keys can be added |
| Keymap.AddBindings | crates/kenseader-tui/src/keymap.rs:56-108 | calling `add_binding` on each configured notation in order builds the bindings and "gg" action that adding the classified entries one by one gives |
| Keymap.FromConfig | crates/kenseader-tui/src/keymap.rs:51-125 | the configured bindings followed by the fixed keys give exactly the keymap the configuration describes |
| Keymap.GPrefixOnlyPlainG | crates/kenseader-tui/src/keymap.rs:143-147 | a key starts the g sequence exactly when it is a plain g and some action is configured as "gg" |
| Keymap.NoEarlierBindingStep | crates/kenseader-tui/src/keymap.rs:63-70 | when none of the first k notations binds the key and the next one does not either, none of the first k + 1 does |
| Keymap.FirstConfiguredWins | crates/kenseader-tui/src/keymap.rs:63-70 | the key takes the action of the first notation that parses to it |
| Keymap.ConfiguredWins | crates/kenseader-tui/src/keymap.rs:51-125 | in the final keymap, the first configured notation for a key other than Ctrl+C and Escape decides the key |
| Keymap.LastGSequenceAt | crates/kenseader-tui/src/keymap.rs:57-61 | with no "gg" entry after position k, the sequence holds the action of the "gg" entry at k |
| Keymap.LastConfiguredGSequence | crates/kenseader-tui/src/keymap.rs:57-61 | the sequence holds the action of the last "gg" notation |
| Keymap.SingleCharNotation | crates/kenseader-tui/src/keymap.rs:170-176 | a configured notation of one ASCII non-whitespace character binds that character, with Shift exactly for upper case |
| Keymap.SingleCharTrimmed | crates/kenseader-tui/src/keymap.rs:170-176 | a one-character notation parses to that character and never holds Control |
| Keymap.SingleCharKey | crates/kenseader-tui/src/keymap.rs:170-176 | a one-character notation never holds Control |
| Keymap.CtrlNotation | crates/kenseader-tui/src/keymap.rs:189-192 | a configured "<C-x>" for a one-byte character binds Control with that character lowercased |
| Keymap.QuitBindingWins | crates/kenseader-tui/src/keymap.rs:78 | quitting is configured first, so the key its notation names always quits |
| Keymap.QuitSingleChar | crates/kenseader-tui/src/keymap.rs:78 | a one-character quit notation binds its own key to Quit |
| Keymap.MoveDownBinding | crates/kenseader-tui/src/keymap.rs:81 | a one-character move-down notation distinct from the three before it binds its key to MoveDown |
| Keymap.OneCharNoControl | crates/kenseader-tui/src/keymap.rs:170-176 | a one-character notation never binds a Control key |
| Keymap.OneCharOtherKey | crates/kenseader-tui/src/keymap.rs:170-176 | a one-character notation never binds another character's key |
| Keymap.PlainBeforeScrolling | crates/kenseader-tui/src/keymap.rs:78-82 | when the first five actions are single characters, none of them binds a Control key |
| Keymap.HalfPageDownBinding | crates/kenseader-tui/src/keymap.rs:83 | a "<C-x>" half-page-down notation after five single characters binds Control with x |
| Keymap.DefaultQuit | crates/kenseader-tui/src/keymap.rs:324-327 | in the default keymap q quits |
| Keymap.DefaultMoveDown | crates/kenseader-tui/src/keymap.rs:328-331 | in the default keymap j moves down |
| Keymap.DefaultHalfPageDown | crates/kenseader-tui/src/keymap.rs:332-335 | in the default keymap Ctrl+D scrolls half a page down |
| Keymap.DefaultGSequence | crates/kenseader-tui/src/keymap.rs:338-339 | in the default keymap "gg" is configured and jumps to the top |
| ArticleList.MatchesFrom | crates/kenseader-tui/src/widgets/article_list.rs:105 | every match of the query lies inside the lower-cased title, at or after the search start |
| ArticleList.MatchesUnfold | crates/kenseader-tui/src/widgets/article_list.rs:105 | a non-empty match list is an occurrence followed by the matches found after it; the search resumes at the match's end |
| ArticleList.MatchesOccur | crates/kenseader-tui/src/widgets/article_list.rs:105 | every reported match is an occurrence of the query |
| ArticleList.MatchesDisjoint | crates/kenseader-tui/src/widgets/article_list.rs:105 | the matches are increasing and never overlap |
| ArticleList.NothingBeforeFirstMatch | crates/kenseader-tui/src/widgets/article_list.rs:105 | no occurrence of a non-empty query is skipped before the first match |
| ArticleList.NothingBetweenMatches | crates/kenseader-tui/src/widgets/article_list.rs:105 | no occurrence of a non-empty query starts between one match's end and the next match |
| ArticleList.NothingAfterLastMatch | crates/kenseader-tui/src/widgets/article_list.rs:105 | no occurrence of a non-empty query starts after the last match's end |
| ArticleList.MatchesAreLeftmost | crates/kenseader-tui/src/widgets/article_list.rs:105 | the matches are the leftmost non-overlapping occurrences: none is skipped before, between or after them |
| ArticleList.EmptyPatternMatchesEverywhere | crates/kenseader-tui/src/widgets/article_list.rs:105 | an empty query matches at every position from the start to the end of the title |
| ArticleList.MatchesInOrder | crates/kenseader-tui/src/widgets/article_list.rs:101-105 | matches found in the lower-cased title can be cut out of the original title in order, since lower-casing keeps positions |
| ArticleList.AddMatch | crates/kenseader-tui/src/widgets/article_list.rs:107-124 | after one match the next search for gaps resumes at that match's end |
| ArticleList.SpanFold | crates/kenseader-tui/src/widgets/article_list.rs:105-125 | after the loop the last end is the end of the last match, or 0 without matches, and lies within the title |
| ArticleList.HighlightMatches | crates/kenseader-tui/src/widgets/article_list.rs:99-141 | the method builds exactly the spans of the specification Highlighted, whose joins and highlights are proved below |
| ArticleList.CollectSpans | crates/kenseader-tui/src/widgets/article_list.rs:105-125 | the loop over the matches yields the spans and last end of the fold over those matches |
| ArticleList.PushMatch | crates/kenseader-tui/src/widgets/article_list.rs:107-124 | one round pushes the gap before the match only when it is non-empty, then the highlighted match |
| ArticleList.AddMatchJoins | crates/kenseader-tui/src/widgets/article_list.rs:107-124 | a round extends the text spelled out by the spans up to the match's end |
| ArticleList.AddMatchMarks | crates/kenseader-tui/src/widgets/article_list.rs:114-122 | a round adds exactly the match's text to the highlighted spans |
| ArticleList.SpanFoldJoins | crates/kenseader-tui/src/widgets/article_list.rs:105-125 | after any number of rounds the spans spell out the title up to the last match's end |
| ArticleList.SpanFoldMarks | crates/kenseader-tui/src/widgets/article_list.rs:105-125 | after any number of rounds the highlighted spans are the matches so far, in order |
| ArticleList.FinishJoins | crates/kenseader-tui/src/widgets/article_list.rs:127-138 | the trailing span and the fallback together make the spans spell out the whole title |
| ArticleList.FinishMarks | crates/kenseader-tui/src/widgets/article_list.rs:127-138 | the trailing span and the fallback are never highlighted |
| ArticleList.HighlightJoins | crates/kenseader-tui/src/widgets/article_list.rs:99-141 | the spans joined together give back the title unchanged |
| ArticleList.HighlightMarks | crates/kenseader-tui/src/widgets/article_list.rs:99-141 | the highlighted spans are exactly the successive non-overlapping matches of the query in the lower-cased title |
| ArticleList.MatchesLowerToQuery | crates/kenseader-tui/src/widgets/article_list.rs:101-120 | each highlighted piece of the title lower-cases to the query, so matching is case-insensitive in the title |
| ArticleList.NoMatchOneSpan | crates/kenseader-tui/src/widgets/article_list.rs:135-138 | a title without the (non-empty) query comes back as one unhighlighted span |
| ArticleDetail.TruncateUrl | crates/kenseader-tui/src/widgets/article_detail.rs:428-435 | a URL within the limit is kept; a longer one becomes a prefix of it followed by "...", max(limit, 3) characters in all |
| ArticleDetail.WrapText | crates/kenseader-tui/src/widgets/article_detail.rs:486-525 | wrapping always yields at least one line |
| ArticleDetail.WrapFoldWidth | crates/kenseader-tui/src/widgets/article_detail.rs:495-512 | while a paragraph is wrapped, the running width is the display width of the current line, and the line is non-empty once a character was read |
| ArticleDetail.WrapFoldJoins | crates/kenseader-tui/src/widgets/article_detail.rs:498-512 | while a paragraph is wrapped, no character is lost or reordered: the finished lines and the current one spell out what was read |
| ArticleDetail.WrapFoldFits | crates/kenseader-tui/src/widgets/article_detail.rs:498-512 | while a paragraph is wrapped, every finished line is non-empty and fits the width unless it is one over-wide character |
| ArticleDetail.WrapParagraphJoins | crates/kenseader-tui/src/widgets/article_detail.rs:495-516 | a paragraph's wrapped lines joined give the paragraph back |
| ArticleDetail.WrapParagraphFits | crates/kenseader-tui/src/widgets/article_detail.rs:495-516 | every wrapped line of a paragraph is non-empty and no wider than the limit, unless it is one over-wide character |
| ArticleDetail.WrapParagraphsFit | crates/kenseader-tui/src/widgets/article_detail.rs:489-517 | every line of the wrapped text fits the width, unless it is one over-wide character |
| ArticleDetail.WrapTextUnicode | crates/kenseader-tui/src/widgets/article_detail.rs:486-525 | the method's lines are exactly those of the wrapping specification, whose fitting and joining are proved |
| ArticleDetail.AppendParagraph | crates/kenseader-tui/src/widgets/article_detail.rs:495-516 | the per-paragraph loop appends that paragraph's wrapped lines and leaves the earlier lines alone |
| ArticleDetail.Repeat | crates/kenseader-tui/src/widgets/article_detail.rs:456 | a repeated character string has the requested length and that character everywhere |
| ArticleDetail.RepeatWidth | crates/kenseader-tui/src/widgets/article_detail.rs:456 | a run of one character is n times that character's width |
| ArticleDetail.Layout | crates/kenseader-tui/src/widgets/article_detail.rs:443-453 | the inner width is at least 20 and at least the space minus 4, the box is two wider, and the dashes around the title fill the rest, split evenly with any extra dash on the right |
| ArticleDetail.OneColumnWidth | crates/kenseader-tui/src/widgets/article_detail.rs:450 | a string of one-column characters is as wide as it is long |
| ArticleDetail.TitleWidth | crates/kenseader-tui/src/widgets/article_detail.rs:440 | the " AI Summary " title is 12 columns wide |
| ArticleDetail.PieceWidths | crates/kenseader-tui/src/widgets/article_detail.rs:455-479 | the corner pieces are one column and the side pieces two columns wide |
| ArticleDetail.RowWidth | crates/kenseader-tui/src/widgets/article_detail.rs:465-472 | a content row that fits is padded to exactly the inner width plus its two side pieces |
| ArticleDetail.TopWidth | crates/kenseader-tui/src/widgets/article_detail.rs:449-460 | the top border is exactly as wide as the box plus its two corners |
| ArticleDetail.BottomWidth | crates/kenseader-tui/src/widgets/article_detail.rs:475-480 | the bottom border is exactly as wide as its dashes plus its two corners |
| ArticleDetail.SummaryBoxIsRectangular | crates/kenseader-tui/src/widgets/article_detail.rs:438-483 | the summary box has a top, at least one row and a bottom, and every row has the same display width, so the borders line up |
| TuiApp.LineRows | crates/kenseader-tui/src/app.rs:100-104 | a line takes at least one row, more than one exactly when it is wider than the width, and its rows hold all its characters |
| TuiApp.RowsCoverLines | crates/kenseader-tui/src/app.rs:99-105 | the wrapped lines take at least one row each and have room for all their characters |
| TuiApp.TextHeight | crates/kenseader-tui/src/app.rs:93-107 | the text height is at least 1, and exactly 1 at zero width |
| TuiApp.TextHeightCovers | crates/kenseader-tui/src/app.rs:93-107 | at a positive width the height covers every line and every character, and for non-empty text is the sum of the lines' rows |
| TuiApp.ComputeTextHeight | crates/kenseader-tui/src/app.rs:93-107 | the loop over the lines computes exactly the text height specified above |
| TuiApp.ElementHeight | crates/kenseader-tui/src/app.rs:76-85 | every element but an image takes at least one row; an image takes the image height, a heading its text plus one, a code block its line count plus two |
| TuiApp.SumAtLeastCount | crates/kenseader-tui/src/app.rs:87-88 | a total of heights that are each at least 1 is at least their number |
| TuiApp.RichArticleState.constructor | crates/kenseader-tui/src/app.rs:55-68 | the plain-text state holds the text's elements with no layout yet and the default image height of 12 |
| TuiApp.RichArticleState.HeightOf | crates/kenseader-tui/src/app.rs:76-85 | the per-element match computes that element's specified height |
| TuiApp.RichArticleState.CalculateHeights | crates/kenseader-tui/src/app.rs:71-90 | after layout there is one height per element, each the element's height, and the total is their sum |
| TuiApp.RichArticleState.Clear | crates/kenseader-tui/src/app.rs:136-142 | clearing forgets the heights and resets the total to 0 |
| TuiApp.LaidOutTotal | crates/kenseader-tui/src/app.rs:71-90 | an article laid out without images is at least one row per element |
| TuiApp.StepDown | crates/kenseader-tui/src/app.rs:445-452 | a step down moves by one exactly when there is an entry below, so a valid selection stays valid |
| TuiApp.JumpDown | crates/kenseader-tui/src/app.rs:502-503 | a forward jump lands on the target when it exists and otherwise on the last entry, 0 on an empty list |
| TuiApp.HalfJump | crates/kenseader-tui/src/app.rs:502 | half a list is at least one entry and no more than the list |
| TuiApp.JumpUpSaturates | crates/kenseader-tui/src/app.rs:519-525 | a backward jump keeps a valid selection valid and stops at 0 exactly when the jump reaches past the top |
| TuiApp.Recorded | crates/kenseader-tui/src/app.rs:686-696 | recording cuts the forward history, ends with the entry, adds it only if it is not already the last one, never creates consecutive duplicates and leaves the position at the end |
| TuiApp.Back | crates/kenseader-tui/src/app.rs:700-707 | going back from position p above 1 gives position p-1 and the entry before it; otherwise nothing moves and no entry comes back |
| TuiApp.Forward | crates/kenseader-tui/src/app.rs:710-717 | going forward before the end advances one position and gives the entry there; at the end nothing moves |
| TuiApp.BackThenForward | crates/kenseader-tui/src/app.rs:700-717 | back then forward returns to the same position and entry |
| TuiApp.ForwardThenBack | crates/kenseader-tui/src/app.rs:700-717 | forward then back returns to the same position and entry |
| TuiApp.RecordedThenBack | crates/kenseader-tui/src/app.rs:674-717 | right after recording there is nothing to go forward to, and going back gives the entry that preceded the new one |
| TuiApp.MatchesBelow | crates/kenseader-tui/src/app.rs:655-665 | the collected indices are ascending and are exactly those of the articles whose title or content contains the query |
| TuiApp.SearchMatches | crates/kenseader-tui/src/app.rs:646-665 | an empty query matches nothing; otherwise the matches are exactly the indices of the articles containing the query case-insensitively, ascending |
| TuiApp.NextMatch | crates/kenseader-tui/src/app.rs:624 | the next match index stays below the match count |
| TuiApp.PrevMatch | crates/kenseader-tui/src/app.rs:634-638 | the previous match index stays below the match count |
| TuiApp.MatchCycle | crates/kenseader-tui/src/app.rs:622-643 | next and previous are inverse to each other on the match indices |
| TuiApp.Toggle | crates/kenseader-tui/src/app.rs:732-738 | toggling flips the membership of the given index and no other |
| TuiApp.ToggleTwice | crates/kenseader-tui/src/app.rs:732-738 | toggling the same index twice restores the selection |
| TuiApp.Span | crates/kenseader-tui/src/app.rs:771-773 | the range holds exactly the indices from its low to its high end |
| TuiApp.PositionOf | crates/kenseader-tui/src/app.rs:720-727 | the index found for a feed or article id holds that id and is the first such; none is found exactly when no entry has it |
| TuiApp.App.constructor | crates/kenseader-tui/src/app.rs:293-326 | a new app has empty lists and selections, the subscriptions panel focused, all articles shown, normal mode, no history and a 24-row viewport |
| TuiApp.App.FocusRight | crates/kenseader-tui/src/app.rs:424-430 | focus moves from subscriptions to the list and otherwise to the detail view |
| TuiApp.App.FocusLeft | crates/kenseader-tui/src/app.rs:433-439 | focus moves from the detail view to the list and otherwise to subscriptions |
| TuiApp.App.MoveDown | crates/kenseader-tui/src/app.rs:442-458 | only the focused panel moves: one entry down without passing the last, or the detail view one row further with u16 saturation |
| TuiApp.App.MoveUp | crates/kenseader-tui/src/app.rs:461-473 | only the focused panel moves: one entry or row up, stopping at 0 |
| TuiApp.App.ScrollHalfPageDown | crates/kenseader-tui/src/app.rs:498-513 | only the focused panel moves: half the list forward clamped to its last entry, or half the viewport (at least one row) with u16 saturation |
| TuiApp.App.ScrollHalfPageUp | crates/kenseader-tui/src/app.rs:516-531 | only the focused panel moves: half the list or half the viewport back, stopping at 0 |
| TuiApp.App.ScrollFullPageDown | crates/kenseader-tui/src/app.rs:534-549 | only the focused panel moves: a whole list forward (to the last entry) or a whole viewport with u16 saturation |
| TuiApp.App.ScrollFullPageUp | crates/kenseader-tui/src/app.rs:552-567 | only the focused panel moves: a whole list back, which lands on the first entry, or a whole viewport back, stopping at 0 |
| TuiApp.App.JumpToTop | crates/kenseader-tui/src/app.rs:570-576 | only the focused panel moves, to its first entry or the top of the detail view |
| TuiApp.App.JumpToBottom | crates/kenseader-tui/src/app.rs:579-591 | only the focused panel moves: to the last entry, or to the largest u16 scroll offset |
| TuiApp.App.ToggleViewMode | crates/kenseader-tui/src/app.rs:594-599 | the view switches between all and unread-only articles |
| TuiApp.App.ClearPendingKey | crates/kenseader-tui/src/app.rs:617-619 | no key is pending afterwards |
| TuiApp.App.FindNextUnreadArticle | crates/kenseader-tui/src/app.rs:477-484 | the answer is the first unread article after the selection, and none means every later article is read |
| TuiApp.App.FindPrevUnreadArticle | crates/kenseader-tui/src/app.rs:488-495 | the answer is the last unread article before the selection, and none means every earlier article is read |
| TuiApp.App.NextSearchMatch | crates/kenseader-tui/src/app.rs:622-629 | with matches, the current match advances cyclically and that article is selected; without matches nothing changes |
| TuiApp.App.PrevSearchMatch | crates/kenseader-tui/src/app.rs:632-643 | with matches, the current match steps back cyclically and that article is selected when the index is a match; without matches nothing changes |
| TuiApp.App.ExecuteSearch | crates/kenseader-tui/src/app.rs:646-671 | the matches are rebuilt from the query, the current match reset, and the first match selected if there is one |
| TuiApp.App.PushHistory | crates/kenseader-tui/src/app.rs:674-697 | with a selected feed and article their ids are recorded as specified by Recorded; otherwise the history is untouched |
| TuiApp.App.HistoryBack | crates/kenseader-tui/src/app.rs:700-707 | the position and returned entry are those of Back, whose round trip with Forward is proved |
| TuiApp.App.HistoryForward | crates/kenseader-tui/src/app.rs:710-717 | the position and returned entry are those of Forward, whose round trip with Back is proved |
| TuiApp.App.ToggleArticleSelection | crates/kenseader-tui/src/app.rs:732-738 | the article selection is toggled at the index |
| TuiApp.App.ToggleFeedSelection | crates/kenseader-tui/src/app.rs:741-747 | the feed selection is toggled at the index |
| TuiApp.App.ClearArticleSelection | crates/kenseader-tui/src/app.rs:750-753 | no article is selected and visual mode for articles ends |
| TuiApp.App.ClearFeedSelection | crates/kenseader-tui/src/app.rs:756-759 | no feed is selected and visual mode for feeds ends |
| TuiApp.App.UpdateVisualSelectionArticles | crates/kenseader-tui/src/app.rs:762-775 | in visual mode the selection is exactly the range between the anchor and the cursor, in either order; otherwise it is unchanged |
| TuiApp.App.UpdateVisualSelectionFeeds | crates/kenseader-tui/src/app.rs:778-791 | in visual mode the selection is exactly the range between the anchor and the cursor, in either order; otherwise it is unchanged |
| TuiApp.FillRange | crates/kenseader-tui/src/app.rs:770-773 | the insertion loop into a cleared set yields exactly the range from its low to its high end |

## Left out

- Concurrency and plumbing are not modelled, because their point is concurrency or I/O rather than logic. This covers the scheduler service's select loop, the IPC client, the accept loop, its semaphore, and socket I/O. Only one connection's sequence of lines is modelled.
- SQL text, the schema DDL, migrations and the stale-lock file handling in `storage/database.rs` are not modelled. They are database-engine work. The schema's keys and cascades appear only as the `Database.Valid` invariant.
- The SQL engine's errors are not modelled. Database calls succeed, except where an operation's own error path is modelled, such as the retry wrapper's `op` outcomes and the unique-url conflict. Database error texts are one constant.
- The clock and UUID generation are parameters: `now`, and `uuid(n)` assumed injective and fresh.
- The HTTP client, the feed parser (feed_rs and html2text), URL syntax and the AI command-line tool are oracles, because they are foreign code. So are `fetch` and `fetch_raw`'s transport, and `run_cli`'s process.
- The providers' prompt wording is not modelled. A provider is a function of the text it is given.
- The HTTP providers in `claude_api.rs`, `gemini_api.rs` and `openai.rs`, the `claude_cli.rs` wrapper, `summarizer.rs`, `profile/tracker.rs` and `feed/parser.rs` are not part of this model. The one event insert the server makes is modelled where the server makes it.
- Headers are a map with lower-case names.
- A response body is one character per byte, and lossy UTF-8 decoding is not modelled.
- JSON text and serde are not modelled, because they are foreign code. A request line reaches the server through a `parse` oracle. The parameters are a small JSON value, and only the object form is decoded. serde's positional array form and its error messages are not modelled.
- Server, Protocol: an id parameter is any string. UUID syntax is not checked, so a malformed id is looked up rather than rejected as invalid params.
- Date and time conversion are not modelled. Timestamps are integers, and the UTC hour (`Utc::now().hour()`, `profile/tracker.rs`:27-28) is a parameter.
- `f64` arithmetic is modelled with `real`: relevance scores, affinity weights and the 40/60 blend. Rounding is not modelled.
- Unicode case mapping is modelled on ASCII: `to_lowercase` lowercases A-Z only.
- ArticleList.HighlightMatches and Themes.ParseHexColor are stated for the characters the model has. The source slices bytes and can panic on multibyte input. For a non-ASCII hex string the model returns None, where the source may panic.
- AppConfig `load` and `save` read and write TOML files, and `parse_opml_file` reads a file. File I/O and TOML are not modelled. OPML's XML reader is an abstract event stream, and the end of the stream counts as the end of the document.
- The platform's home and data directories are parameters of the configuration paths.
- `list_unread_summarized` in `storage/article_repo.rs`:199-213 is not modelled. It is a read-only query that no modelled operation calls.
- Feed repository `From` row conversions and the repositories' `new` constructors are not modelled. They are plumbing.
- In `kenseader-tui/src/app.rs`, the following are not modelled because they are accessors, rendering support or image-cache plumbing:
  - the focused-item accessors, `get_urls_needing_load` and the image preload range;
  - the spinner, the status message, `visible_feeds` and its index conversions;
  - `current_feed` and `current_article`, `clear_rich_state`, and the `is_*_mode` predicates other than `is_input_mode` and `is_visual_mode`, which are modelled.
- `parse_html_content` (`rich_content.rs`:227-415) is not modelled. It is a hand-written scanner that turns HTML tags into headings, quotes, code blocks, list items, rules, line breaks and images, and it lies outside the modelled core. `from_html` is modelled only through the steps it delegates: `remove_tags`, `decode_html_entities` and `collapse_empty_lines`.
- Image downloads, decoding, the disk cache and its DefaultHasher file names are not modelled. This covers `ArticleImageCache.get`, `get_mut` and `save_to_disk`.
- Floating-point easing, interpolation and the animation clock are not modelled. The eased offset and `now` are parameters.
- ScrollAnimation.ScrollAnimator.ScrollBy: the i32 overflow of `pending_delta`, and of `current + delta`, is not modelled, because deltas are unbounded integers.
- TuiApp.TextHeight: the u16 accumulator of `text_height` is not wrapped, because heights are unbounded naturals. `total_height` in `calculate_heights` is not wrapped either.
- Popup.TruncateStr requires a limit of at least 3 for strings longer than the limit. With a smaller limit, the source's `max_len - 3` underflows and panics in a debug build.
- Popup.CenteredRect: the u16 sum of the area's offset and half the spare room is not bounded.
- `render_confirm`'s inner layout and `render_batch_delete_confirm` in `popup.rs` are not modelled. They are rendering only.
- Kitty's legacy calls `display_image`, `send_chunked_image` and `display_at_position` are not modelled. Nothing else in the renderer uses them.
- In Kitty, the following are not modelled:
  - base64 encoding of chunks;
  - terminal write errors;
  - the u16 overflow of the cursor position and centring sums;
  - the u32 wrap of the image id counter;
  - cell-size detection.
- ueberzug's process management (`new`, `add`, `remove`, `is_alive`, `drop`) is not modelled. It drives a child process.
- ArticleDetail.WrapTextUnicode takes character widths from a `width` oracle instead of the Unicode width table.
- Keymap: `has_pending_g` and `get_pending_g_action` are not modelled. They only read the `pendingG` field.
- Input.Action is the union of the variants `input.rs` declares and those `keymap.rs` binds. The keymap refers to actions, such as `NextArticle`, that the `Action` enum in `input.rs` does not declare.
- Themes: the palette of each built-in theme is a parameter, because the palette constants are rendering data.
- Tasks.SummarizePendingArticles: `minLength` is a free parameter, because the call at `scheduler/tasks.rs`:67 passes only the limit while `list_unsummarized` (`storage/article_repo.rs`:238) also takes a minimum length; the model does not fix its value.
- Three behaviours are modelled as the code has them:
  - `list_unclassified` filters on `content`, not `content_text`;
  - `toggle_saved` on a missing id is an error;
  - `summarize_pending_articles` calls `list_unsummarized` with the limit alone (`scheduler/tasks.rs`:67), although `list_unsummarized` also takes a minimum length (`storage/article_repo.rs`:238); see the Tasks.SummarizePendingArticles line above.
- The fetcher test at `feed/fetcher.rs`:384-393 expects an rsshub.app base, but the configured default base differs. That example is not stated.

## Findings

In each case the model's operations follow the code as written, and the corrected definition stands beside them with the intended property proved.

| source | as written | input that shows it | evidently intended | confidence | as-written member | corrected member |
|---|---|---|---|---|---|---|
| crates/kenseader-tui/src/themes/mod.rs:30-42 | each one- or two-character piece is read by `u8::from_str_radix`, which accepts a leading '+' sign | "+f+f+f" parses as Rgb(15, 15, 15) instead of being rejected | only hex digits are accepted | high, not executed | Themes.ParseHexColorAsWritten, Themes.SignedPiecesAccepted, Themes.SignedOverrideApplied | Themes.ParseHexColor, Themes.FullForm, Themes.ShortForm |
| crates/kenseader-tui/src/scroll/animation.rs:214-229 | when the new target equals the visible offset, the running animation is kept | halfway (offset 5) through a scroll from 0 to 10, scroll_by(-5) then update: the view still ends at 10 | the pending delta always lands in the target, so the animation stops at 5 | medium, not executed | ScrollAnimation.StaleAnimationKept, ScrollAnimation.UpdateFoldsPending | ScrollAnimation.UpdateCorrected, ScrollAnimation.UpdateCorrectedFolds |
| crates/kenseader-core/src/profile/analyzer.rs:57-66 | the SQL weight table has no 'share' case, so a share falls into ELSE 0.5 | a tag whose only event is one share gets weight 0.5 | the event type's own weight, 5.0 for a share | high, not executed | Analyzer.SqlWeight, Analyzer.SqlWeightDisagreesOnShare | Analyzer.EventWeight, Analyzer.EventWeightAgrees |
| crates/kenseader-tui/src/rich_content.rs:207-212 | `<{tag}[^>]*>` is searched for as literal text with `str::find`, so the pattern never occurs in real HTML | "a<script>x</script>b" comes back unchanged | the element is removed: "ab" | high, not executed | RichContent.ScriptBlockKept | RichContent.ScriptBlockRemoved, RichContent.IntendedRemovesElement |
