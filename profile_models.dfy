/** Behaviour events, their weights, and the names the preference tables store. */
module ProfileModels {
  import opened Wrappers

  datatype BehaviorEventType =
    | Exposure | Click | ReadStart | ReadComplete | Scroll | Save | Share | ViewRepeat

  const ALL_EVENT_TYPES: seq<BehaviorEventType> :=
    [Exposure, Click, ReadStart, ReadComplete, Scroll, Save, Share, ViewRepeat]

  /** The snake_case name stored in the `event_type` column. */
  function EventTypeName(t: BehaviorEventType): string
  {
    match t
    case Exposure => "exposure"
    case Click => "click"
    case ReadStart => "read_start"
    case ReadComplete => "read_complete"
    case Scroll => "scroll"
    case Save => "save"
    case Share => "share"
    case ViewRepeat => "view_repeat"
  }

  /** Reading a stored name back (the serde `snake_case` form). */
  function ParseEventType(s: string): (r: Option<BehaviorEventType>)
    ensures r.Some? ==> EventTypeName(r.value) == s
  {
    if s == "exposure" then Some(Exposure)
    else if s == "click" then Some(Click)
    else if s == "read_start" then Some(ReadStart)
    else if s == "read_complete" then Some(ReadComplete)
    else if s == "scroll" then Some(Scroll)
    else if s == "save" then Some(Save)
    else if s == "share" then Some(Share)
    else if s == "view_repeat" then Some(ViewRepeat)
    else None
  }

  /** Names round-trip, so no two event types share a name. */
  lemma EventTypeNameRoundTrip(t: BehaviorEventType)
    ensures ParseEventType(EventTypeName(t)) == Some(t)
  {
  }

  lemma EventTypeNameInjective(a: BehaviorEventType, b: BehaviorEventType)
    ensures EventTypeName(a) == EventTypeName(b) ==> a == b
  {
    EventTypeNameRoundTrip(a);
    EventTypeNameRoundTrip(b);
  }

  /** Weight of an event type in preference scores. */
  function Weight(t: BehaviorEventType): real
  {
    match t
    case Exposure => 0.1
    case Click => 1.0
    case ReadStart => 1.5
    case ReadComplete => 3.0
    case Scroll => 0.5
    case Save => 5.0
    case Share => 5.0
    case ViewRepeat => 4.0
  }

  /** Every weight is positive and at most 5; a save or share outweighs all other signals. */
  lemma WeightBounds(t: BehaviorEventType)
    ensures 0.0 < Weight(t) <= 5.0
    ensures Weight(t) == 5.0 <==> t == Save || t == Share
  {
  }

  datatype TimeOfDay = Morning | Afternoon | Evening | Night

  /** Hour of the day to period: 6-11 morning, 12-17 afternoon, 18-21 evening, any other hour night. */
  function TimeOfDayFromHour(hour: nat): (t: TimeOfDay)
    ensures t == Morning <==> 6 <= hour <= 11
    ensures t == Afternoon <==> 12 <= hour <= 17
    ensures t == Evening <==> 18 <= hour <= 21
    ensures t == Night <==> hour < 6 || hour > 21
  {
    if 6 <= hour <= 11 then Morning
    else if 12 <= hour <= 17 then Afternoon
    else if 18 <= hour <= 21 then Evening
    else Night
  }

  function TimeOfDayName(t: TimeOfDay): string
  {
    match t
    case Morning => "morning"
    case Afternoon => "afternoon"
    case Evening => "evening"
    case Night => "night"
  }

  lemma TimeOfDayNameInjective(a: TimeOfDay, b: TimeOfDay)
    ensures TimeOfDayName(a) == TimeOfDayName(b) ==> a == b
  {
  }

  datatype TimeWindow = Recent5Min | Last1Day | Last30Days

  function TimeWindowName(w: TimeWindow): string
  {
    match w
    case Recent5Min => "5min"
    case Last1Day => "1day"
    case Last30Days => "30days"
  }

  lemma TimeWindowNameInjective(a: TimeWindow, b: TimeWindow)
    ensures TimeWindowName(a) == TimeWindowName(b) ==> a == b
  {
  }

  datatype PreferenceType = TagAffinity | FeedAffinity | TimePreference | StylePreference

  function PreferenceTypeName(p: PreferenceType): string
  {
    match p
    case TagAffinity => "tag_affinity"
    case FeedAffinity => "feed_affinity"
    case TimePreference => "time_preference"
    case StylePreference => "style_preference"
  }

  lemma PreferenceTypeNameInjective(a: PreferenceType, b: PreferenceType)
    ensures PreferenceTypeName(a) == PreferenceTypeName(b) ==> a == b
  {
  }
}
