/**
 * The profile analyzer: aggregates behaviour events into tag, feed and
 * time-of-day preferences per time window, and reads back the top tags.
 * The grouped SQL queries are given as functions over the tables; the
 * writes are INSERT OR REPLACE on the `user_preferences` key.
 */
module Analyzer {
  import opened Wrappers
  import opened FeedModels
  import opened ProfileModels
  import opened Storage
  import opened Sorting

  // ---------------------------------------------------------------- weights

  /** The `CASE event_type ...` table exactly as the aggregation queries write it. */
  function SqlWeight(eventType: string): (w: real)
    ensures w > 0.0
  {
    if eventType == "exposure" then 0.1
    else if eventType == "click" then 1.0
    else if eventType == "read_start" then 1.5
    else if eventType == "read_complete" then 3.0
    else if eventType == "save" then 5.0
    else if eventType == "view_repeat" then 4.0
    else 0.5
  }

  /** The table lists every event type but "scroll" and "share"; "share" falls into the 0.5 default. */
  lemma SqlWeightDisagreesOnShare()
    ensures SqlWeight(EventTypeName(Share)) == 0.5 && Weight(Share) == 5.0
    ensures forall e :: e != Share ==> SqlWeight(EventTypeName(e)) == Weight(e)
  {
  }

  /** The event-type weight the aggregation is meant to use: the enum's weight, 0.5 for unknown text. */
  function EventWeight(eventType: string): (w: real)
    ensures w > 0.0
  {
    match ParseEventType(eventType)
    case Some(e) => WeightBounds(e); Weight(e)
    case None => 0.5
  }

  lemma EventWeightAgrees()
    ensures forall e :: EventWeight(EventTypeName(e)) == Weight(e)
    ensures forall t :: (forall e :: EventTypeName(e) != t) ==> EventWeight(t) == 0.5
  {
    forall e ensures EventWeight(EventTypeName(e)) == Weight(e) {
      EventTypeNameRoundTrip(e);
    }
  }

  // ---------------------------------------------------------------- windows

  const WINDOWS: seq<TimeWindow> := [Recent5Min, Last1Day, Last30Days]
  const TIME_WINDOWS: seq<TimeWindow> := [Last1Day, Last30Days]

  /** Length of a window in seconds: 5 minutes, 1 day, 30 days. */
  function WindowSeconds(w: TimeWindow): (n: nat)
    ensures n > 0
  {
    match w
    case Recent5Min => 5 * 60
    case Last1Day => 24 * 60 * 60
    case Last30Days => 30 * 24 * 60 * 60
  }

  function Cutoff(w: TimeWindow, now: int): int
  {
    now - WindowSeconds(w)
  }

  lemma WindowsNested(now: int)
    ensures Cutoff(Last30Days, now) < Cutoff(Last1Day, now) < Cutoff(Recent5Min, now) < now
  {
  }

  // ---------------------------------------------------------------- aggregation

  /** A grouped row: the group key and its aggregate. */
  datatype Row = Row(key: string, weight: real)

  predicate HeavierFirst(a: Row, b: Row)
  {
    a.weight >= b.weight
  }

  /** No two grouped rows share a key, as `GROUP BY` guarantees. */
  predicate DistinctKeys(rows: seq<Row>)
  {
    forall i, j :: 0 <= i < j < |rows| ==> rows[i].key != rows[j].key
  }

  lemma HeavierFirstOrder()
    ensures TotalPreorder(HeavierFirst)
  {
  }

  /** An event joined with one tag row: recent enough and about an article carrying the tag. */
  predicate TagEvent(e: Event, tags: seq<TagRow>, tag: string, cutoff: int)
  {
    e.createdAt >= cutoff && e.articleId.Some? && exists t :: t in tags && t.articleId == e.articleId.value && t.tag == tag
  }

  /** `SUM(weight)` of a tag's group: each recent event on an article with the tag contributes its weight once (the tag row key is unique). */
  function TagWeight(events: seq<Event>, tags: seq<TagRow>, tag: string, cutoff: int): (r: real)
    ensures r >= 0.0
  {
    if events == [] then 0.0
    else TagWeight(events[..|events| - 1], tags, tag, cutoff)
         + (if TagEvent(events[|events| - 1], tags, tag, cutoff) then SqlWeight(events[|events| - 1].eventType) else 0.0)
  }

  /** A tag's weight is positive exactly when some recent event joins with it. */
  lemma {:induction false} TagWeightPositive(events: seq<Event>, tags: seq<TagRow>, tag: string, cutoff: int)
    ensures TagWeight(events, tags, tag, cutoff) >= 0.0
    ensures TagWeight(events, tags, tag, cutoff) > 0.0 <==> exists e :: e in events && TagEvent(e, tags, tag, cutoff)
  {
    if events != [] {
      var init := events[..|events| - 1];
      TagWeightPositive(init, tags, tag, cutoff);
      assert events == init + [events[|events| - 1]];
      assert forall e :: e in events <==> e in init || e == events[|events| - 1];
    }
  }

  /** Recording one more event adds its weight to every tag of its article and to no other tag. */
  lemma TagWeightAppend(events: seq<Event>, e: Event, tags: seq<TagRow>, tag: string, cutoff: int)
    ensures TagWeight(events + [e], tags, tag, cutoff)
      == TagWeight(events, tags, tag, cutoff) + (if TagEvent(e, tags, tag, cutoff) then SqlWeight(e.eventType) else 0.0)
  {
    assert (events + [e])[..|events|] == events;
  }

  /** Tags in the join, each once, in tag-table order. */
  function JoinedTags(tags: seq<TagRow>, events: seq<Event>, cutoff: int): (r: seq<string>)
    ensures forall x :: x in r <==> exists t :: t in tags && t.tag == x && TagWeight(events, tags, x, cutoff) > 0.0
    ensures forall i, j :: 0 <= i < j < |r| ==> r[i] != r[j]
  {
    DistinctFrom(tags, tags, events, cutoff, [])
  }

  function DistinctFrom(rest: seq<TagRow>, tags: seq<TagRow>, events: seq<Event>, cutoff: int, acc: seq<string>): (r: seq<string>)
    requires forall i, j :: 0 <= i < j < |acc| ==> acc[i] != acc[j]
    ensures forall x :: x in r <==> x in acc || exists t :: t in rest && t.tag == x && TagWeight(events, tags, x, cutoff) > 0.0
    ensures forall i, j :: 0 <= i < j < |r| ==> r[i] != r[j]
    decreases |rest|
  {
    if rest == [] then acc
    else
      var t := rest[0];
      assert forall u :: u in rest <==> u == t || u in rest[1..];
      if t.tag !in acc && TagWeight(events, tags, t.tag, cutoff) > 0.0
      then DistinctFrom(rest[1..], tags, events, cutoff, acc + [t.tag])
      else DistinctFrom(rest[1..], tags, events, cutoff, acc)
  }

  /** The groups of the tag join, one row per tag with its summed weight. */
  function TagGroups(events: seq<Event>, tags: seq<TagRow>, cutoff: int): (r: seq<Row>)
    ensures forall row :: row in r ==> row.weight == TagWeight(events, tags, row.key, cutoff) && row.weight > 0.0
    ensures forall t :: t in tags && TagWeight(events, tags, t.tag, cutoff) > 0.0 ==> Row(t.tag, TagWeight(events, tags, t.tag, cutoff)) in r
  {
    var groups := JoinedTags(tags, events, cutoff);
    var r := seq(|groups|, i requires 0 <= i < |groups| => Row(groups[i], TagWeight(events, tags, groups[i], cutoff)));
    forall t | t in tags && TagWeight(events, tags, t.tag, cutoff) > 0.0
      ensures Row(t.tag, TagWeight(events, tags, t.tag, cutoff)) in r
    {
      var i :| 0 <= i < |groups| && groups[i] == t.tag;
      assert r[i] == Row(t.tag, TagWeight(events, tags, t.tag, cutoff));
    }
    r
  }

  /** The tag affinity query of one window: the 50 heaviest groups. */
  function TagAffinityRows(events: seq<Event>, tags: seq<TagRow>, cutoff: int): (r: seq<Row>)
    ensures |r| <= 50
  {
    TopN(TagGroups(events, tags, cutoff), HeavierFirst, 50)
  }

  /**
   * At most 50 tags, each with the summed weight of its recent events,
   * heaviest first; a tag left out weighs no more than any tag kept.
   */
  lemma TagAffinityRowsSpec(events: seq<Event>, tags: seq<TagRow>, cutoff: int)
    ensures var r := TagAffinityRows(events, tags, cutoff);
      && SortedBy(r, HeavierFirst)
      && (forall row :: row in r ==> row.weight == TagWeight(events, tags, row.key, cutoff) && row.weight > 0.0)
      && (forall t :: t in tags && TagWeight(events, tags, t.tag, cutoff) > 0.0 && Row(t.tag, TagWeight(events, tags, t.tag, cutoff)) !in r ==>
            forall row :: row in r ==> row.weight >= TagWeight(events, tags, t.tag, cutoff))
  {
    HeavierFirstOrder();
    TopNSpec(TagGroups(events, tags, cutoff), HeavierFirst, 50);
  }

  /** Recent events about a feed. */
  predicate FeedEvent(e: Event, feedId: Id, cutoff: int)
  {
    e.feedId == Some(feedId) && e.createdAt >= cutoff
  }

  function FeedWeight(events: seq<Event>, feedId: Id, cutoff: int): (r: real)
    ensures r >= 0.0
    ensures r > 0.0 <==> exists e :: e in events && FeedEvent(e, feedId, cutoff)
  {
    if events == [] then 0.0
    else
      var last := events[|events| - 1];
      assert forall e :: e in events <==> e in events[..|events| - 1] || e == last;
      FeedWeight(events[..|events| - 1], feedId, cutoff)
      + (if FeedEvent(last, feedId, cutoff) then SqlWeight(last.eventType) else 0.0)
  }

  /** The feeds of recent events, each once, in event order. */
  function EventFeeds(events: seq<Event>, cutoff: int): (r: seq<Id>)
    ensures forall x :: x in r <==> exists e :: e in events && FeedEvent(e, x, cutoff)
    ensures forall i, j :: 0 <= i < j < |r| ==> r[i] != r[j]
  {
    FeedsFrom(events, cutoff, [])
  }

  function FeedsFrom(rest: seq<Event>, cutoff: int, acc: seq<Id>): (r: seq<Id>)
    requires forall i, j :: 0 <= i < j < |acc| ==> acc[i] != acc[j]
    ensures forall x :: x in r <==> x in acc || exists e :: e in rest && FeedEvent(e, x, cutoff)
    ensures forall i, j :: 0 <= i < j < |r| ==> r[i] != r[j]
    decreases |rest|
  {
    if rest == [] then acc
    else
      var e := rest[0];
      assert forall u :: u in rest <==> u == e || u in rest[1..];
      assert forall x :: FeedEvent(e, x, cutoff) <==> e.feedId.Some? && e.createdAt >= cutoff && x == e.feedId.value;
      if e.feedId.Some? && e.createdAt >= cutoff && e.feedId.value !in acc
      then
        var v := e.feedId.value;
        assert forall x :: x in acc + [v] <==> x in acc || x == v;
        assert FeedEvent(e, v, cutoff);
        FeedsFrom(rest[1..], cutoff, acc + [v])
      else FeedsFrom(rest[1..], cutoff, acc)
  }

  /** The feed groups, one row per feed with its summed weight. */
  function FeedGroups(events: seq<Event>, cutoff: int): (r: seq<Row>)
    ensures forall row :: row in r ==> row.weight == FeedWeight(events, row.key, cutoff)
    ensures forall e :: e in events && e.feedId.Some? && e.createdAt >= cutoff ==>
      Row(e.feedId.value, FeedWeight(events, e.feedId.value, cutoff)) in r
  {
    var groups := EventFeeds(events, cutoff);
    var r := seq(|groups|, i requires 0 <= i < |groups| => Row(groups[i], FeedWeight(events, groups[i], cutoff)));
    forall e | e in events && e.feedId.Some? && e.createdAt >= cutoff
      ensures Row(e.feedId.value, FeedWeight(events, e.feedId.value, cutoff)) in r
    {
      assert FeedEvent(e, e.feedId.value, cutoff);
      assert e.feedId.value in groups;
      var i :| 0 <= i < |groups| && groups[i] == e.feedId.value;
      assert r[i] == Row(e.feedId.value, FeedWeight(events, e.feedId.value, cutoff));
    }
    r
  }

  /** The feed affinity query of one window: every group, heaviest first (no LIMIT). */
  function FeedAffinityRows(events: seq<Event>, cutoff: int): (r: seq<Row>)
    ensures multiset(r) == multiset(FeedGroups(events, cutoff))
  {
    SortBy(FeedGroups(events, cutoff), HeavierFirst)
  }

  /** Every feed with a recent event gets exactly its summed weight, heaviest first. */
  lemma FeedAffinityRowsSpec(events: seq<Event>, cutoff: int)
    ensures var r := FeedAffinityRows(events, cutoff);
      && SortedBy(r, HeavierFirst)
      && (forall row :: row in r ==> row.weight == FeedWeight(events, row.key, cutoff))
      && (forall e :: e in events && e.feedId.Some? && e.createdAt >= cutoff ==> Row(e.feedId.value, FeedWeight(events, e.feedId.value, cutoff)) in r)
  {
    HeavierFirstOrder();
    SortBySorted(FeedGroups(events, cutoff), HeavierFirst);
    var g := FeedGroups(events, cutoff);
    var r := FeedAffinityRows(events, cutoff);
    forall row | row in r ensures row in g {
      assert row in multiset(r);
    }
    forall row | row in g ensures row in r {
      assert row in multiset(g);
    }
  }

  /** Only click, read_complete and save count toward time-of-day preferences. */
  predicate EngagedAt(e: Event, period: TimeOfDay, cutoff: int)
  {
    e.eventType in {"click", "read_complete", "save"} && e.createdAt >= cutoff && e.timeOfDay == period
  }

  function PeriodCount(events: seq<Event>, period: TimeOfDay, cutoff: int): nat
  {
    |Where(events, (e: Event) => EngagedAt(e, period, cutoff))|
  }

  const PERIODS: seq<TimeOfDay> := [Morning, Afternoon, Evening, Night]

  /** The time preference query of one window: one `COUNT(*)` row per period that has engaged events. */
  function TimeRows(events: seq<Event>, cutoff: int): (r: seq<Row>)
    ensures |r| <= |PERIODS|
    ensures forall row :: row in r ==> row.weight >= 1.0
  {
    TimeRowsFrom(PERIODS, events, cutoff)
  }

  function TimeRowsFrom(periods: seq<TimeOfDay>, events: seq<Event>, cutoff: int): (r: seq<Row>)
    ensures |r| <= |periods|
    ensures forall row :: row in r ==> row.weight >= 1.0
  {
    if periods == [] then []
    else
      var n := PeriodCount(events, periods[0], cutoff);
      (if n > 0 then [Row(TimeOfDayName(periods[0]), n as real)] else []) + TimeRowsFrom(periods[1..], events, cutoff)
  }

  lemma {:induction false} TimeRowsFromSpec(periods: seq<TimeOfDay>, events: seq<Event>, cutoff: int, p: TimeOfDay)
    requires p in periods
    ensures PeriodCount(events, p, cutoff) > 0 <==> Row(TimeOfDayName(p), PeriodCount(events, p, cutoff) as real) in TimeRowsFrom(periods, events, cutoff)
    ensures forall row :: row in TimeRowsFrom(periods, events, cutoff) && row.key == TimeOfDayName(p) ==> row.weight == PeriodCount(events, p, cutoff) as real
  {
    var q := periods[0];
    var rest := TimeRowsFrom(periods[1..], events, cutoff);
    TimeOfDayNameInjective(p, q);
    if p == q {
      NoRowsWithout(periods[1..], events, cutoff, p);
    } else {
      assert p in periods[1..];
      TimeRowsFromSpec(periods[1..], events, cutoff, p);
    }
  }

  /** Rows come only from the listed periods. */
  lemma {:induction false} NoRowsWithout(periods: seq<TimeOfDay>, events: seq<Event>, cutoff: int, p: TimeOfDay)
    ensures forall row :: row in TimeRowsFrom(periods, events, cutoff) && row.key == TimeOfDayName(p) ==>
      p in periods && PeriodCount(events, p, cutoff) > 0 && row.weight == PeriodCount(events, p, cutoff) as real
  {
    if periods != [] {
      NoRowsWithout(periods[1..], events, cutoff, p);
      TimeOfDayNameInjective(p, periods[0]);
    }
  }

  /** A period has a row exactly when it has engaged events, and the row holds their count. */
  lemma TimeRowsSpec(events: seq<Event>, cutoff: int, p: TimeOfDay)
    ensures PeriodCount(events, p, cutoff) > 0 <==> Row(TimeOfDayName(p), PeriodCount(events, p, cutoff) as real) in TimeRows(events, cutoff)
    ensures forall row :: row in TimeRows(events, cutoff) && row.key == TimeOfDayName(p) ==> row.weight == PeriodCount(events, p, cutoff) as real
  {
    TimeRowsFromSpec(PERIODS, events, cutoff, p);
  }

  /** Each period has at most one row: the keys of the time rows are distinct. */
  lemma {:induction false} TimeRowsFromDistinct(periods: seq<TimeOfDay>, events: seq<Event>, cutoff: int)
    requires forall i, j :: 0 <= i < j < |periods| ==> periods[i] != periods[j]
    ensures DistinctKeys(TimeRowsFrom(periods, events, cutoff))
  {
    if periods != [] {
      var q := periods[0];
      TimeRowsFromDistinct(periods[1..], events, cutoff);
      NoRowsWithout(periods[1..], events, cutoff, q);
      var n := PeriodCount(events, q, cutoff);
      var head := if n > 0 then [Row(TimeOfDayName(q), n as real)] else [];
      var rest := TimeRowsFrom(periods[1..], events, cutoff);
      var r := head + rest;
      assert q !in periods[1..] by {
        forall m | 0 <= m < |periods[1..]| ensures periods[1..][m] != q {
          assert periods[1..][m] == periods[m + 1];
        }
      }
      forall i, j | 0 <= i < j < |r| ensures r[i].key != r[j].key {
        if i < |head| {
          assert r[i] == Row(TimeOfDayName(q), n as real);
          assert r[j] == rest[j - |head|];
          assert r[j] in rest;
          assert r[j].key != TimeOfDayName(q);
        } else {
          var i', j' := i - |head|, j - |head|;
          assert r[i] == rest[i'] && r[j] == rest[j'];
          assert rest[i'].key != rest[j'].key;
        }
      }
    }
  }

  /** Exposure, read_start and the other event types never count toward a time preference. */
  lemma TimeRowsCountEngagementOnly(events: seq<Event>, e: Event, cutoff: int)
    requires e.eventType !in {"click", "read_complete", "save"}
    ensures forall p :: PeriodCount(events + [e], p, cutoff) == PeriodCount(events, p, cutoff)
  {
    forall p ensures PeriodCount(events + [e], p, cutoff) == PeriodCount(events, p, cutoff) {
      WhereSnoc(events, e, (x: Event) => EngagedAt(x, p, cutoff));
    }
  }

  // ---------------------------------------------------------------- writes

  /** `INSERT OR REPLACE`: the row with the same key, if any, is deleted and the new row appended. */
  function Replace(prefs: seq<PrefRow>, row: PrefRow): (r: seq<PrefRow>)
  {
    Where(prefs, (p: PrefRow) => p.key != row.key) + [row]
  }

  lemma ReplaceSpec(prefs: seq<PrefRow>, row: PrefRow)
    requires PrefsWellFormed(prefs)
    ensures PrefsWellFormed(Replace(prefs, row))
    ensures row in Replace(prefs, row)
    ensures forall p :: p in Replace(prefs, row) && p.key == row.key ==> p == row
    ensures forall p :: p in prefs && p.key != row.key <==> p in Replace(prefs, row) && p != row
  {
    var kept := Where(prefs, (p: PrefRow) => p.key != row.key);
    PrefsWhereWellFormed(prefs, (p: PrefRow) => p.key != row.key);
    var r := Replace(prefs, row);
    forall i, j | 0 <= i < j < |r| ensures r[i].key != r[j].key {
      if j == |kept| {
        assert r[i] in kept;
      }
    }
  }

  lemma PrefsWhereWellFormed(prefs: seq<PrefRow>, p: PrefRow -> bool)
    requires PrefsWellFormed(prefs)
    ensures PrefsWellFormed(Where(prefs, p))
    decreases |prefs|
  {
    if prefs != [] {
      PrefsWhereWellFormed(prefs[1..], p);
      var rest := Where(prefs[1..], p);
      forall j | 0 <= j < |rest| ensures prefs[0].key != rest[j].key {
        assert rest[j] in prefs[1..];
        var m :| 0 <= m < |prefs[1..]| && prefs[1..][m] == rest[j];
        assert prefs[m + 1] == rest[j];
      }
    }
  }

  /** The table after writing one window's grouped rows in order. */
  function WriteRows(prefs: seq<PrefRow>, kind: PreferenceType, window: TimeWindow, rows: seq<Row>, now: int): seq<PrefRow>
    decreases |rows|
  {
    if rows == [] then prefs
    else WriteRows(Replace(prefs, PrefRow(PrefKey(kind, rows[0].key, window), rows[0].weight, now)), kind, window, rows[1..], now)
  }

  /**
   * Writing keeps the key unique, leaves every row whose key is not
   * rewritten untouched, and leaves each written key with its row's weight.
   */
  lemma {:induction false} WriteRowsSpec(prefs: seq<PrefRow>, kind: PreferenceType, window: TimeWindow, rows: seq<Row>, now: int)
    requires PrefsWellFormed(prefs)
    requires DistinctKeys(rows)
    ensures var r := WriteRows(prefs, kind, window, rows, now);
      && PrefsWellFormed(r)
      && (forall p :: p in prefs && (p.key.kind != kind || p.key.window != window || forall row :: row in rows ==> row.key != p.key.key) ==> p in r)
      && (forall row :: row in rows ==> PrefRow(PrefKey(kind, row.key, window), row.weight, now) in r)
    decreases |rows|
  {
    if rows != [] {
      var row := PrefRow(PrefKey(kind, rows[0].key, window), rows[0].weight, now);
      var next := Replace(prefs, row);
      ReplaceSpec(prefs, row);
      WriteRowsSpec(next, kind, window, rows[1..], now);
      var r := WriteRows(next, kind, window, rows[1..], now);
      assert forall x :: x in rows <==> x == rows[0] || x in rows[1..];
      assert row in r by {
        forall x | x in rows[1..] ensures x.key != rows[0].key {
          var m :| 0 <= m < |rows[1..]| && rows[1..][m] == x;
          assert rows[m + 1] == x;
        }
      }
    }
  }

  /** Writes one window's rows, one INSERT OR REPLACE per row. */
  method WriteWindow(db: Database, kind: PreferenceType, window: TimeWindow, rows: seq<Row>, now: int)
    requires db.Valid()
    modifies db
    ensures db.Valid()
    ensures db.preferences == WriteRows(old(db.preferences), kind, window, rows, now)
    ensures db.feeds == old(db.feeds) && db.articles == old(db.articles) && db.tags == old(db.tags)
    ensures db.styles == old(db.styles) && db.events == old(db.events)
  {
    var k := 0;
    while k < |rows|
      invariant k <= |rows|
      invariant db.Valid()
      invariant WriteRows(old(db.preferences), kind, window, rows, now) == WriteRows(db.preferences, kind, window, rows[k..], now)
      invariant db.feeds == old(db.feeds) && db.articles == old(db.articles) && db.tags == old(db.tags)
      invariant db.styles == old(db.styles) && db.events == old(db.events)
      decreases |rows| - k
    {
      var row := PrefRow(PrefKey(kind, rows[k].key, window), rows[k].weight, now);
      ReplaceSpec(db.preferences, row);
      assert rows[k..][1..] == rows[k + 1..];
      db.preferences := Replace(db.preferences, row);
      k := k + 1;
    }
    assert rows[k..] == [];
  }

  /** `compute_tag_affinities`: for each window, the 50 heaviest tags since its cutoff. */
  method ComputeTagAffinities(db: Database, now: int)
    requires db.Valid()
    modifies db
    ensures db.Valid()
    ensures db.feeds == old(db.feeds) && db.articles == old(db.articles) && db.tags == old(db.tags)
    ensures db.styles == old(db.styles) && db.events == old(db.events)
    ensures db.preferences == TagPass(old(db.preferences), db.events, db.tags, WINDOWS, now)
  {
    var k := 0;
    while k < |WINDOWS|
      invariant k <= |WINDOWS|
      invariant db.Valid()
      invariant db.feeds == old(db.feeds) && db.articles == old(db.articles) && db.tags == old(db.tags)
      invariant db.styles == old(db.styles) && db.events == old(db.events)
      invariant TagPass(old(db.preferences), db.events, db.tags, WINDOWS, now) == TagPass(db.preferences, db.events, db.tags, WINDOWS[k..], now)
      decreases |WINDOWS| - k
    {
      var window := WINDOWS[k];
      var rows := TagAffinityRows(db.events, db.tags, Cutoff(window, now));
      assert WINDOWS[k..][1..] == WINDOWS[k + 1..];
      WriteWindow(db, TagAffinity, window, rows, now);
      k := k + 1;
    }
  }

  function TagPass(prefs: seq<PrefRow>, events: seq<Event>, tags: seq<TagRow>, windows: seq<TimeWindow>, now: int): seq<PrefRow>
    decreases |windows|
  {
    if windows == [] then prefs
    else TagPass(WriteRows(prefs, TagAffinity, windows[0], TagAffinityRows(events, tags, Cutoff(windows[0], now)), now),
                 events, tags, windows[1..], now)
  }

  /** `compute_feed_affinities`: for each window, every feed with recent events. */
  method ComputeFeedAffinities(db: Database, now: int)
    requires db.Valid()
    modifies db
    ensures db.Valid()
    ensures db.feeds == old(db.feeds) && db.articles == old(db.articles) && db.tags == old(db.tags)
    ensures db.styles == old(db.styles) && db.events == old(db.events)
    ensures db.preferences == GroupPass(old(db.preferences), FeedAffinity, FeedRowsOf(db.events, now), WINDOWS, now)
  {
    var k := 0;
    var rowsOf := FeedRowsOf(db.events, now);
    while k < |WINDOWS|
      invariant k <= |WINDOWS|
      invariant db.Valid()
      invariant db.feeds == old(db.feeds) && db.articles == old(db.articles) && db.tags == old(db.tags)
      invariant db.styles == old(db.styles) && db.events == old(db.events)
      invariant GroupPass(old(db.preferences), FeedAffinity, rowsOf, WINDOWS, now) == GroupPass(db.preferences, FeedAffinity, rowsOf, WINDOWS[k..], now)
      decreases |WINDOWS| - k
    {
      assert WINDOWS[k..][1..] == WINDOWS[k + 1..];
      WriteWindow(db, FeedAffinity, WINDOWS[k], rowsOf(WINDOWS[k]), now);
      k := k + 1;
    }
  }

  /** `compute_time_preferences`: only the 1-day and 30-day windows. */
  method ComputeTimePreferences(db: Database, now: int)
    requires db.Valid()
    modifies db
    ensures db.Valid()
    ensures db.feeds == old(db.feeds) && db.articles == old(db.articles) && db.tags == old(db.tags)
    ensures db.styles == old(db.styles) && db.events == old(db.events)
    ensures db.preferences == GroupPass(old(db.preferences), TimePreference, TimeRowsOf(db.events, now), TIME_WINDOWS, now)
  {
    var k := 0;
    var rowsOf := TimeRowsOf(db.events, now);
    while k < |TIME_WINDOWS|
      invariant k <= |TIME_WINDOWS|
      invariant db.Valid()
      invariant db.feeds == old(db.feeds) && db.articles == old(db.articles) && db.tags == old(db.tags)
      invariant db.styles == old(db.styles) && db.events == old(db.events)
      invariant GroupPass(old(db.preferences), TimePreference, rowsOf, TIME_WINDOWS, now) == GroupPass(db.preferences, TimePreference, rowsOf, TIME_WINDOWS[k..], now)
      decreases |TIME_WINDOWS| - k
    {
      assert TIME_WINDOWS[k..][1..] == TIME_WINDOWS[k + 1..];
      WriteWindow(db, TimePreference, TIME_WINDOWS[k], rowsOf(TIME_WINDOWS[k]), now);
      k := k + 1;
    }
  }

  function FeedRowsOf(events: seq<Event>, now: int): TimeWindow -> seq<Row>
  {
    (w: TimeWindow) => FeedAffinityRows(events, Cutoff(w, now))
  }

  function TimeRowsOf(events: seq<Event>, now: int): TimeWindow -> seq<Row>
  {
    (w: TimeWindow) => TimeRows(events, Cutoff(w, now))
  }

  function GroupPass(prefs: seq<PrefRow>, kind: PreferenceType, rowsOf: TimeWindow -> seq<Row>, windows: seq<TimeWindow>, now: int): seq<PrefRow>
    decreases |windows|
  {
    if windows == [] then prefs
    else GroupPass(WriteRows(prefs, kind, windows[0], rowsOf(windows[0]), now), kind, rowsOf, windows[1..], now)
  }

  /** Time preferences never touch the 5-minute window: every row of it is left as it was. */
  lemma {:induction false} TimePassSkipsRecent(prefs: seq<PrefRow>, rowsOf: TimeWindow -> seq<Row>, windows: seq<TimeWindow>, now: int)
    requires PrefsWellFormed(prefs)
    requires Recent5Min !in windows
    requires forall w :: DistinctKeys(rowsOf(w))
    ensures PrefsWellFormed(GroupPass(prefs, TimePreference, rowsOf, windows, now))
    ensures forall p :: p in prefs && p.key.window == Recent5Min ==> p in GroupPass(prefs, TimePreference, rowsOf, windows, now)
    decreases |windows|
  {
    if windows != [] {
      var next := WriteRows(prefs, TimePreference, windows[0], rowsOf(windows[0]), now);
      WriteRowsSpec(prefs, TimePreference, windows[0], rowsOf(windows[0]), now);
      assert windows[0] in windows;
      assert forall w :: w in windows[1..] ==> w in windows;
      TimePassSkipsRecent(next, rowsOf, windows[1..], now);
    }
  }

  /** The time preference pass leaves every 5-minute-window preference as it was. */
  lemma TimePassKeepsRecent(prefs: seq<PrefRow>, events: seq<Event>, now: int)
    requires PrefsWellFormed(prefs)
    ensures forall p :: p in prefs && p.key.window == Recent5Min ==> p in GroupPass(prefs, TimePreference, TimeRowsOf(events, now), TIME_WINDOWS, now)
  {
    var rowsOf := TimeRowsOf(events, now);
    forall w ensures DistinctKeys(rowsOf(w)) {
      assert rowsOf(w) == TimeRowsFrom(PERIODS, events, Cutoff(w, now));
      TimeRowsFromDistinct(PERIODS, events, Cutoff(w, now));
    }
    TimePassSkipsRecent(prefs, rowsOf, TIME_WINDOWS, now);
  }

  /** `compute_preferences`: tag, feed and time preferences in turn. */
  method ComputePreferences(db: Database, now: int)
    requires db.Valid()
    modifies db
    ensures db.Valid()
    ensures db.feeds == old(db.feeds) && db.articles == old(db.articles) && db.tags == old(db.tags)
    ensures db.styles == old(db.styles) && db.events == old(db.events)
    ensures db.preferences ==
      GroupPass(GroupPass(TagPass(old(db.preferences), db.events, db.tags, WINDOWS, now),
                          FeedAffinity, FeedRowsOf(db.events, now), WINDOWS, now),
                TimePreference, TimeRowsOf(db.events, now), TIME_WINDOWS, now)
  {
    ComputeTagAffinities(db, now);
    ComputeFeedAffinities(db, now);
    ComputeTimePreferences(db, now);
  }

  // ---------------------------------------------------------------- reads

  /** `get_top_tags(window, limit)`: the keys of the heaviest tag-affinity rows of the window. */
  function GetTopTags(prefs: seq<PrefRow>, window: TimeWindow, limit: nat): (r: seq<string>)
    ensures |r| <= limit
  {
    var top := TopN(Where(prefs, (p: PrefRow) => p.key.kind == TagAffinity && p.key.window == window), PrefHeavierFirst, limit);
    seq(|top|, i requires 0 <= i < |top| => top[i].key.key)
  }

  predicate PrefHeavierFirst(a: PrefRow, b: PrefRow)
  {
    a.weight >= b.weight
  }

  /**
   * The top tags are tag-affinity keys of that window, listed by
   * non-increasing weight, and none left out is heavier than one listed.
   */
  lemma GetTopTagsSpec(prefs: seq<PrefRow>, window: TimeWindow, limit: nat)
    ensures var top := TopN(Where(prefs, (p: PrefRow) => p.key.kind == TagAffinity && p.key.window == window), PrefHeavierFirst, limit);
      && GetTopTags(prefs, window, limit) == seq(|top|, i requires 0 <= i < |top| => top[i].key.key)
      && (forall p :: p in top ==> p in prefs && p.key.kind == TagAffinity && p.key.window == window)
      && (forall i, j :: 0 <= i < j < |top| ==> top[i].weight >= top[j].weight)
      && (forall p, q :: p in top && q in prefs && q.key.kind == TagAffinity && q.key.window == window && q !in top ==> p.weight >= q.weight)
  {
    TopNSpec(Where(prefs, (p: PrefRow) => p.key.kind == TagAffinity && p.key.window == window), PrefHeavierFirst, limit);
  }
}
