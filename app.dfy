/**
 * The terminal front end's application state: the three panels, the
 * selection in each, the detail scroll offset, the reading history, search
 * matches and the visual (range) selection; plus the height bookkeeping of a
 * rendered article.
 */
module TuiApp {
  import opened Wrappers
  import opened Numeric
  import Text
  import FeedModels
  import RichContent

  datatype Focus = Subscriptions | ArticleList | ArticleDetail

  datatype ViewMode = All | UnreadOnly

  datatype Mode =
    | Normal
    | SearchForward(query: string)
    | SearchBackward(query: string)
    | DeleteConfirm(feedId: FeedModels.Id)
    | BatchDeleteConfirm
    | Help
    | ImageViewer(index: nat)

  /** `is_input_mode`: the two search modes take typed text. */
  predicate IsInputMode(mode: Mode)
  {
    mode.SearchForward? || mode.SearchBackward?
  }

  // ---------------------------------------------------------------- article heights

  /** Rows one line needs at `width` columns: an empty line still takes one. */
  function LineRows(line: string, width: nat): (r: nat)
    requires width > 0
    ensures r >= 1
    ensures r * width >= |line|
    ensures |line| > width ==> r > 1
  {
    if line == [] then 1 else CeilDiv(|line|, width)
  }

  /** Rows for a sequence of lines, summed. */
  function RowsOf(lines: seq<string>, width: nat): (r: nat)
    requires width > 0
  {
    if lines == [] then 0 else RowsOf(lines[..|lines| - 1], width) + LineRows(lines[|lines| - 1], width)
  }

  /** Characters in a sequence of lines, summed. */
  function CharsOf(lines: seq<string>): nat
  {
    if lines == [] then 0 else CharsOf(lines[..|lines| - 1]) + |lines[|lines| - 1]|
  }

  /** Every line gets at least one row, and the rows have room for all the characters. */
  lemma {:induction false} RowsCoverLines(lines: seq<string>, width: nat)
    requires width > 0
    ensures RowsOf(lines, width) >= |lines|
    ensures RowsOf(lines, width) * width >= CharsOf(lines)
  {
    if lines != [] {
      var init := lines[..|lines| - 1];
      var last := lines[|lines| - 1];
      RowsCoverLines(init, width);
      var a, b := RowsOf(init, width), LineRows(last, width);
      assert RowsOf(lines, width) == a + b;
      assert CharsOf(lines) == CharsOf(init) + |last|;
      Distribute(a, b, width);
    }
  }

  lemma Distribute(a: nat, b: nat, w: nat)
    ensures (a + b) * w == a * w + b * w
  {
  }

  /** `text_height` as a value: one row at zero width, else the wrapped rows of every line, at least one. */
  function TextHeight(text: string, width: nat): (h: nat)
    ensures h >= 1
    ensures width == 0 ==> h == 1
  {
    if width == 0 then 1 else Max(RowsOf(Text.Lines(text), width), 1)
  }

  /** The wrapped height covers every line and every character of the text. */
  lemma TextHeightCovers(text: string, width: nat)
    requires width > 0
    ensures TextHeight(text, width) >= |Text.Lines(text)|
    ensures TextHeight(text, width) * width >= CharsOf(Text.Lines(text))
    ensures text != [] ==> TextHeight(text, width) == RowsOf(Text.Lines(text), width)
  {
    RowsCoverLines(Text.Lines(text), width);
  }

  /** `text_height`: a loop over the lines adding each one's rows. */
  method ComputeTextHeight(text: string, width: nat) returns (h: nat)
    ensures h == TextHeight(text, width)
  {
    if width == 0 {
      return 1;
    }
    var lines := Text.Lines(text);
    var rows := 0;
    for i := 0 to |lines|
      invariant rows == RowsOf(lines[..i], width)
    {
      assert lines[..i + 1][..i] == lines[..i];
      var line := lines[i];
      if line == [] {
        rows := rows + 1;
      } else {
        rows := rows + (|line| + width - 1) / width;
      }
    }
    assert lines[..|lines|] == lines;
    h := Max(rows, 1);
  }

  const DEFAULT_IMAGE_HEIGHT: nat := 12

  /** The height one element takes in the detail view. */
  function ElementHeight(e: RichContent.ContentElement, width: nat, imageHeight: nat): (h: nat)
    ensures !e.Image? ==> h >= 1
    ensures e.Image? ==> h == imageHeight
    ensures e.Heading? ==> h == TextHeight(e.text, width) + 1
    ensures e.Code? ==> h == |Text.Lines(e.text)| + 2
  {
    match e
    case Paragraph(text) => TextHeight(text, width)
    case Heading(_, text) => TextHeight(text, width) + 1
    case Image(_, _) => imageHeight
    case Quote(text) => TextHeight(text, SatSub(width, 2))
    case Code(text) => |Text.Lines(text)| + 2
    case ListItem(text) => TextHeight(text, SatSub(width, 2))
    case Separator => 1
    case EmptyLine => 1
  }

  function Sum(hs: seq<nat>): nat
  {
    if hs == [] then 0 else Sum(hs[..|hs| - 1]) + hs[|hs| - 1]
  }

  /** Without images, the total height is at least the number of elements. */
  lemma {:induction false} SumAtLeastCount(hs: seq<nat>)
    requires forall k :: 0 <= k < |hs| ==> hs[k] >= 1
    ensures Sum(hs) >= |hs|
  {
    if hs != [] {
      SumAtLeastCount(hs[..|hs| - 1]);
    }
  }

  /** The laid-out state of the article shown in the detail panel. */
  class RichArticleState {
    var elements: seq<RichContent.ContentElement>
    var elementHeights: seq<nat>
    var totalHeight: nat
    var imageHeight: nat

    /** `from_text`: the plain-text fallback, not yet laid out. */
    constructor (text: string)
      ensures elements == RichContent.FromText(text)
      ensures elementHeights == [] && totalHeight == 0 && imageHeight == DEFAULT_IMAGE_HEIGHT
    {
      elements := RichContent.FromText(text);
      elementHeights := [];
      totalHeight := 0;
      imageHeight := DEFAULT_IMAGE_HEIGHT;
    }

    /** The heights line up with the elements and add up to the total. */
    predicate LaidOut(width: nat)
      reads this
    {
      |elementHeights| == |elements| &&
      (forall k :: 0 <= k < |elements| ==> elementHeights[k] == ElementHeight(elements[k], width, imageHeight)) &&
      totalHeight == Sum(elementHeights)
    }

    method HeightOf(e: RichContent.ContentElement, width: nat) returns (h: nat)
      ensures h == ElementHeight(e, width, imageHeight)
    {
      match e {
        case Paragraph(text) => h := ComputeTextHeight(text, width);
        case Heading(_, text) => h := ComputeTextHeight(text, width); h := h + 1;
        case Image(_, _) => h := imageHeight;
        case Quote(text) => h := ComputeTextHeight(text, SatSub(width, 2));
        case Code(text) => h := |Text.Lines(text)| + 2;
        case ListItem(text) => h := ComputeTextHeight(text, SatSub(width, 2));
        case Separator => h := 1;
        case EmptyLine => h := 1;
      }
    }

    /** `calculate_heights`: one height per element, and their sum as the total. */
    method CalculateHeights(width: nat)
      modifies this`elementHeights, this`totalHeight
      ensures LaidOut(width)
    {
      elementHeights := [];
      totalHeight := 0;
      for i := 0 to |elements|
        invariant |elementHeights| == i
        invariant forall k :: 0 <= k < i ==> elementHeights[k] == ElementHeight(elements[k], width, imageHeight)
        invariant totalHeight == Sum(elementHeights)
      {
        var h := HeightOf(elements[i], width);
        assert (elementHeights + [h])[..i] == elementHeights;
        elementHeights := elementHeights + [h];
        totalHeight := totalHeight + h;
      }
    }

    /** `clear`: the layout is forgotten. */
    method Clear()
      modifies this`elementHeights, this`totalHeight
      ensures elementHeights == [] && totalHeight == 0
    {
      elementHeights := [];
      totalHeight := 0;
    }
  }

  /** With no images, the laid-out article is at least one row per element. */
  lemma LaidOutTotal(elements: seq<RichContent.ContentElement>, heights: seq<nat>, width: nat, imageHeight: nat)
    requires |heights| == |elements|
    requires forall k :: 0 <= k < |elements| ==> heights[k] == ElementHeight(elements[k], width, imageHeight)
    requires forall k :: 0 <= k < |elements| ==> !elements[k].Image?
    ensures Sum(heights) >= |elements|
  {
    SumAtLeastCount(heights);
  }

  // ---------------------------------------------------------------- moving the selection

  /** `move_down` on a list: one step, but never past the last entry. */
  function StepDown(sel: nat, len: nat): (r: nat)
    ensures sel < len ==> r < len
    ensures r == sel || r == sel + 1
    ensures r == sel + 1 <==> sel + 1 < len
  {
    if len > 0 && sel < len - 1 then sel + 1 else sel
  }

  /** A forward page jump on a list: clamped to the last entry (0 for an empty list). */
  function JumpDown(sel: nat, jump: nat, len: nat): (r: nat)
    ensures len > 0 ==> r < len
    ensures len == 0 ==> r == 0
    ensures r <= sel + jump
    ensures sel + jump < len ==> r == sel + jump
  {
    Min(sel + jump, SatSub(len, 1))
  }

  /** Half a list, at least one entry. */
  function HalfJump(len: nat): (r: nat)
    ensures r >= 1 && r <= Max(len, 1)
  {
    Max(len / 2, 1)
  }

  /** Moving up saturates at the top: the result is never below 0 and moves by at most `jump`. */
  lemma JumpUpSaturates(sel: nat, jump: nat, len: nat)
    requires sel < len
    ensures SatSub(sel, jump) < len
    ensures SatSub(sel, jump) == 0 <==> sel <= jump
  {
  }

  // ---------------------------------------------------------------- reading history

  /** A history entry: the feed id and the article id. */
  type HistoryEntry = (FeedModels.Id, FeedModels.Id)

  /** No entry is immediately followed by the same entry. */
  predicate NoConsecutiveDuplicates(h: seq<HistoryEntry>)
  {
    forall i :: 0 <= i < |h| - 1 ==> h[i] != h[i + 1]
  }

  /**
   * `push_history` on (history, position): forward history is dropped, and
   * the entry is appended unless it repeats the last one.
   */
  function Recorded(h: seq<HistoryEntry>, pos: nat, entry: HistoryEntry): (r: (seq<HistoryEntry>, nat))
    requires pos <= |h|
    ensures r.1 == |r.0|
    ensures r.0 != [] && r.0[|r.0| - 1] == entry
    ensures r.0 == h[..pos] || r.0 == h[..pos] + [entry]
    ensures r.0 == h[..pos] <==> pos > 0 && h[pos - 1] == entry
    ensures NoConsecutiveDuplicates(h) ==> NoConsecutiveDuplicates(r.0)
  {
    var kept := if pos < |h| then h[..pos] else h;
    assert kept == h[..pos];
    if kept != [] && kept[|kept| - 1] == entry then (kept, pos) else (kept + [entry], |kept| + 1)
  }

  /** `history_back` on (history, position): the new position and the entry there, if any. */
  function Back(h: seq<HistoryEntry>, pos: nat): (r: (nat, Option<HistoryEntry>))
    requires pos <= |h|
    ensures r.0 <= |h|
    ensures pos > 1 ==> r == (pos - 1, Some(h[pos - 2]))
    ensures pos <= 1 ==> r == (pos, None)
  {
    if pos > 1 then (pos - 1, Some(h[pos - 2])) else (pos, None)
  }

  /** `history_forward` on (history, position): the new position and the entry there, if any. */
  function Forward(h: seq<HistoryEntry>, pos: nat): (r: (nat, Option<HistoryEntry>))
    requires pos <= |h|
    ensures r.0 <= |h|
    ensures pos < |h| ==> r == (pos + 1, Some(h[pos]))
    ensures pos == |h| ==> r == (pos, None)
  {
    if pos < |h| then (pos + 1, Some(h[pos])) else (pos, None)
  }

  /** Going back and then forward returns to the same position and entry. */
  lemma BackThenForward(h: seq<HistoryEntry>, pos: nat)
    requires 1 < pos <= |h|
    ensures Forward(h, Back(h, pos).0) == (pos, Some(h[pos - 1]))
  {
  }

  /** Going forward and then back returns to the same position and entry. */
  lemma ForwardThenBack(h: seq<HistoryEntry>, pos: nat)
    requires 1 <= pos < |h|
    ensures Back(h, Forward(h, pos).0) == (pos, Some(h[pos - 1]))
  {
  }

  /** After recording, there is nothing to go forward to, and going back gives the entry before. */
  lemma RecordedThenBack(h: seq<HistoryEntry>, pos: nat, entry: HistoryEntry)
    requires pos <= |h|
    ensures Forward(Recorded(h, pos, entry).0, Recorded(h, pos, entry).1).1.None?
    ensures pos > 0 && h[pos - 1] != entry ==> Back(Recorded(h, pos, entry).0, Recorded(h, pos, entry).1) == (pos, Some(h[pos - 1]))
  {
  }

  // ---------------------------------------------------------------- search

  /** A match: the query occurs in the title or the content, ignoring case. */
  predicate ArticleMatches(a: FeedModels.Article, query: string)
  {
    Text.Contains(Text.Lower(a.title), Text.Lower(query)) ||
    (a.content.Some? && Text.Contains(Text.Lower(a.content.value), Text.Lower(query)))
  }

  predicate StrictlyIncreasing(s: seq<nat>)
  {
    forall i, j :: 0 <= i < j < |s| ==> s[i] < s[j]
  }

  /** The indices below `n` of the articles that match, in ascending order. */
  function MatchesBelow(articles: seq<FeedModels.Article>, query: string, n: nat): (r: seq<nat>)
    requires n <= |articles|
    ensures StrictlyIncreasing(r)
    ensures forall k :: k in r <==> 0 <= k < n && ArticleMatches(articles[k], query)
  {
    if n == 0 then []
    else
      var prev := MatchesBelow(articles, query, n - 1);
      assert forall i :: 0 <= i < |prev| ==> prev[i] in prev;
      if ArticleMatches(articles[n - 1], query) then prev + [n - 1] else prev
  }

  /** `execute_search`'s matches: none for an empty query, else every matching index in order. */
  function SearchMatches(articles: seq<FeedModels.Article>, query: string): (r: seq<nat>)
    ensures query == [] ==> r == []
    ensures StrictlyIncreasing(r)
    ensures query != [] ==> forall k :: k in r <==> 0 <= k < |articles| && ArticleMatches(articles[k], query)
  {
    if query == [] then [] else MatchesBelow(articles, query, |articles|)
  }

  /** `next_search_match`: the following match, wrapping to the first. */
  function NextMatch(current: nat, count: nat): (r: nat)
    requires count > 0
    ensures r < count
  {
    (current + 1) % count
  }

  /** `prev_search_match`: the preceding match, wrapping to the last. */
  function PrevMatch(current: nat, count: nat): (r: nat)
    requires count > 0
    ensures current <= count ==> r < count
  {
    if current == 0 then count - 1 else current - 1
  }

  /** The two cycle through the matches in opposite directions. */
  lemma MatchCycle(current: nat, count: nat)
    requires current < count
    ensures PrevMatch(NextMatch(current, count), count) == current
    ensures NextMatch(PrevMatch(current, count), count) == current
  {
    if current + 1 == count {
      assert NextMatch(current, count) == 0;
    } else {
      assert NextMatch(current, count) == current + 1;
    }
    if current == 0 {
      assert NextMatch(count - 1, count) == 0;
    } else {
      assert NextMatch(current - 1, count) == current;
    }
  }

  // ---------------------------------------------------------------- selection sets

  /** `toggle_*_selection` on a set of indices. */
  function Toggle(s: set<nat>, i: nat): (r: set<nat>)
    ensures i in r <==> i !in s
    ensures forall j :: j != i ==> (j in r <==> j in s)
  {
    if i in s then s - {i} else s + {i}
  }

  /** Toggling the same index twice gives the selection back. */
  lemma ToggleTwice(s: set<nat>, i: nat)
    ensures Toggle(Toggle(s, i), i) == s
  {
    assert forall j :: j in Toggle(Toggle(s, i), i) <==> j in s;
  }

  /** The indices from `lo` through `hi`. */
  function Span(lo: nat, hi: nat): (r: set<nat>)
    ensures forall j :: j in r <==> lo <= j <= hi
    decreases hi + 1 - lo
  {
    if lo > hi then {} else {lo} + Span(lo + 1, hi)
  }

  /**
   * `find_feed_index` and `find_article_index`: the index of the first entry
   * whose id (read by `idOf`) is `id`, if any.
   */
  function PositionOf<T>(xs: seq<T>, idOf: T -> FeedModels.Id, id: FeedModels.Id): (r: Option<nat>)
    ensures r.Some? ==> r.value < |xs| && idOf(xs[r.value]) == id
    ensures r.Some? ==> forall j :: 0 <= j < r.value ==> idOf(xs[j]) != id
    ensures r.None? <==> forall j :: 0 <= j < |xs| ==> idOf(xs[j]) != id
  {
    if xs == [] then None
    else if idOf(xs[0]) == id then Some(0)
    else match PositionOf(xs[1..], idOf, id)
      case None => None
      case Some(k) => Some(k + 1)
  }

  // ---------------------------------------------------------------- the application state

  class App {
    var feeds: seq<FeedModels.Feed>
    var selectedFeed: nat
    var articles: seq<FeedModels.Article>
    var selectedArticle: nat
    var focus: Focus
    var viewMode: ViewMode
    var mode: Mode
    var detailScroll: nat
    var searchQuery: string
    var searchMatches: seq<nat>
    var currentMatch: nat
    var pendingKey: Option<char>
    var readHistory: seq<HistoryEntry>
    var historyPosition: nat
    var selectedArticles: set<nat>
    var selectedFeeds: set<nat>
    var visualStartArticle: Option<nat>
    var visualStartFeed: Option<nat>
    var viewportHeight: nat

    /** The state invariants the navigation methods keep. */
    predicate Valid()
      reads this
    {
      detailScroll <= U16_MAX &&
      historyPosition <= |readHistory| &&
      (|feeds| > 0 ==> selectedFeed < |feeds|) &&
      (|articles| > 0 ==> selectedArticle < |articles|)
    }

    /** `new_with_mode`: empty lists, the subscriptions panel, normal mode, a 24-row viewport. */
    constructor()
      ensures Valid()
      ensures feeds == [] && articles == [] && selectedFeed == 0 && selectedArticle == 0
      ensures focus == Subscriptions && viewMode == All && mode == Normal && detailScroll == 0
      ensures searchQuery == [] && searchMatches == [] && currentMatch == 0 && pendingKey.None?
      ensures readHistory == [] && historyPosition == 0
      ensures selectedArticles == {} && selectedFeeds == {}
      ensures visualStartArticle.None? && visualStartFeed.None? && viewportHeight == 24
    {
      feeds := [];
      selectedFeed := 0;
      articles := [];
      selectedArticle := 0;
      focus := Subscriptions;
      viewMode := All;
      mode := Normal;
      detailScroll := 0;
      searchQuery := [];
      searchMatches := [];
      currentMatch := 0;
      pendingKey := None;
      readHistory := [];
      historyPosition := 0;
      selectedArticles := {};
      selectedFeeds := {};
      visualStartArticle := None;
      visualStartFeed := None;
      viewportHeight := 24;
    }

    method FocusRight()
      modifies this`focus
      ensures old(focus) == Subscriptions ==> focus == ArticleList
      ensures old(focus) != Subscriptions ==> focus == ArticleDetail
    {
      focus := match focus
        case Subscriptions => ArticleList
        case ArticleList => ArticleDetail
        case ArticleDetail => ArticleDetail;
    }

    method FocusLeft()
      modifies this`focus
      ensures old(focus) == ArticleDetail ==> focus == ArticleList
      ensures old(focus) != ArticleDetail ==> focus == Subscriptions
    {
      focus := match focus
        case Subscriptions => Subscriptions
        case ArticleList => Subscriptions
        case ArticleDetail => ArticleList;
    }

    /** `move_down`: one step in the focused panel; the detail view scrolls one row. */
    method MoveDown()
      requires Valid()
      modifies this`selectedFeed, this`selectedArticle, this`detailScroll
      ensures Valid()
      ensures selectedFeed == if focus == Subscriptions then StepDown(old(selectedFeed), |feeds|) else old(selectedFeed)
      ensures selectedArticle == if focus == ArticleList then StepDown(old(selectedArticle), |articles|) else old(selectedArticle)
      ensures detailScroll == if focus == ArticleDetail then SatAddU16(old(detailScroll), 1) else old(detailScroll)
    {
      match focus {
        case Subscriptions =>
          if |feeds| > 0 && selectedFeed < |feeds| - 1 {
            selectedFeed := selectedFeed + 1;
          }
        case ArticleList =>
          if |articles| > 0 && selectedArticle < |articles| - 1 {
            selectedArticle := selectedArticle + 1;
          }
        case ArticleDetail =>
          detailScroll := SatAddU16(detailScroll, 1);
      }
    }

    /** `move_up`: one step back in the focused panel, stopping at 0. */
    method MoveUp()
      requires Valid()
      modifies this`selectedFeed, this`selectedArticle, this`detailScroll
      ensures Valid()
      ensures selectedFeed == if focus == Subscriptions then SatSub(old(selectedFeed), 1) else old(selectedFeed)
      ensures selectedArticle == if focus == ArticleList then SatSub(old(selectedArticle), 1) else old(selectedArticle)
      ensures detailScroll == if focus == ArticleDetail then SatSub(old(detailScroll), 1) else old(detailScroll)
    {
      match focus {
        case Subscriptions => selectedFeed := SatSub(selectedFeed, 1);
        case ArticleList => selectedArticle := SatSub(selectedArticle, 1);
        case ArticleDetail => detailScroll := SatSub(detailScroll, 1);
      }
    }

    /** `scroll_half_page_down`: half the list (clamped to its end) or half the viewport. */
    method ScrollHalfPageDown()
      requires Valid()
      modifies this`selectedFeed, this`selectedArticle, this`detailScroll
      ensures Valid()
      ensures selectedFeed == if focus == Subscriptions then JumpDown(old(selectedFeed), HalfJump(|feeds|), |feeds|) else old(selectedFeed)
      ensures selectedArticle == if focus == ArticleList then JumpDown(old(selectedArticle), HalfJump(|articles|), |articles|) else old(selectedArticle)
      ensures detailScroll == if focus == ArticleDetail then SatAddU16(old(detailScroll), HalfPage(viewportHeight)) else old(detailScroll)
    {
      var halfPage := Max(viewportHeight / 2, 1);
      match focus {
        case Subscriptions =>
          var jump := Max(|feeds| / 2, 1);
          selectedFeed := Min(selectedFeed + jump, SatSub(|feeds|, 1));
        case ArticleList =>
          var jump := Max(|articles| / 2, 1);
          selectedArticle := Min(selectedArticle + jump, SatSub(|articles|, 1));
        case ArticleDetail =>
          detailScroll := SatAddU16(detailScroll, halfPage);
      }
    }

    /** `scroll_half_page_up`: back by half the list or half the viewport, stopping at 0. */
    method ScrollHalfPageUp()
      requires Valid()
      modifies this`selectedFeed, this`selectedArticle, this`detailScroll
      ensures Valid()
      ensures selectedFeed == if focus == Subscriptions then SatSub(old(selectedFeed), HalfJump(|feeds|)) else old(selectedFeed)
      ensures selectedArticle == if focus == ArticleList then SatSub(old(selectedArticle), HalfJump(|articles|)) else old(selectedArticle)
      ensures detailScroll == if focus == ArticleDetail then SatSub(old(detailScroll), HalfPage(viewportHeight)) else old(detailScroll)
    {
      var halfPage := Max(viewportHeight / 2, 1);
      match focus {
        case Subscriptions => selectedFeed := SatSub(selectedFeed, Max(|feeds| / 2, 1));
        case ArticleList => selectedArticle := SatSub(selectedArticle, Max(|articles| / 2, 1));
        case ArticleDetail => detailScroll := SatSub(detailScroll, halfPage);
      }
    }

    /** `scroll_full_page_down`: the whole list (so, its last entry) or a whole viewport. */
    method ScrollFullPageDown()
      requires Valid()
      modifies this`selectedFeed, this`selectedArticle, this`detailScroll
      ensures Valid()
      ensures selectedFeed == if focus == Subscriptions then JumpDown(old(selectedFeed), Max(|feeds|, 1), |feeds|) else old(selectedFeed)
      ensures selectedArticle == if focus == ArticleList then JumpDown(old(selectedArticle), Max(|articles|, 1), |articles|) else old(selectedArticle)
      ensures detailScroll == if focus == ArticleDetail then SatAddU16(old(detailScroll), Max(viewportHeight, 1)) else old(detailScroll)
    {
      var fullPage := Max(viewportHeight, 1);
      match focus {
        case Subscriptions =>
          selectedFeed := Min(selectedFeed + Max(|feeds|, 1), SatSub(|feeds|, 1));
        case ArticleList =>
          selectedArticle := Min(selectedArticle + Max(|articles|, 1), SatSub(|articles|, 1));
        case ArticleDetail =>
          detailScroll := SatAddU16(detailScroll, fullPage);
      }
    }

    /** `scroll_full_page_up`: back by the whole list (so, to 0) or a whole viewport. */
    method ScrollFullPageUp()
      requires Valid()
      modifies this`selectedFeed, this`selectedArticle, this`detailScroll
      ensures Valid()
      ensures selectedFeed == if focus == Subscriptions then SatSub(old(selectedFeed), Max(|feeds|, 1)) else old(selectedFeed)
      ensures selectedArticle == if focus == ArticleList then SatSub(old(selectedArticle), Max(|articles|, 1)) else old(selectedArticle)
      ensures detailScroll == if focus == ArticleDetail then SatSub(old(detailScroll), Max(viewportHeight, 1)) else old(detailScroll)
      ensures focus == Subscriptions && |feeds| > 0 ==> selectedFeed == 0
      ensures focus == ArticleList && |articles| > 0 ==> selectedArticle == 0
    {
      var fullPage := Max(viewportHeight, 1);
      match focus {
        case Subscriptions => selectedFeed := SatSub(selectedFeed, Max(|feeds|, 1));
        case ArticleList => selectedArticle := SatSub(selectedArticle, Max(|articles|, 1));
        case ArticleDetail => detailScroll := SatSub(detailScroll, fullPage);
      }
    }

    method JumpToTop()
      requires Valid()
      modifies this`selectedFeed, this`selectedArticle, this`detailScroll
      ensures Valid()
      ensures selectedFeed == if focus == Subscriptions then 0 else old(selectedFeed)
      ensures selectedArticle == if focus == ArticleList then 0 else old(selectedArticle)
      ensures detailScroll == if focus == ArticleDetail then 0 else old(detailScroll)
    {
      match focus {
        case Subscriptions => selectedFeed := 0;
        case ArticleList => selectedArticle := 0;
        case ArticleDetail => detailScroll := 0;
      }
    }

    /** `jump_to_bottom`: the last entry, or the largest scroll offset (the renderer clamps it). */
    method JumpToBottom()
      requires Valid()
      modifies this`selectedFeed, this`selectedArticle, this`detailScroll
      ensures Valid()
      ensures selectedFeed == if focus == Subscriptions then SatSub(|feeds|, 1) else old(selectedFeed)
      ensures selectedArticle == if focus == ArticleList then SatSub(|articles|, 1) else old(selectedArticle)
      ensures detailScroll == if focus == ArticleDetail then U16_MAX else old(detailScroll)
    {
      match focus {
        case Subscriptions => selectedFeed := SatSub(|feeds|, 1);
        case ArticleList => selectedArticle := SatSub(|articles|, 1);
        case ArticleDetail => detailScroll := U16_MAX;
      }
    }

    method ToggleViewMode()
      modifies this`viewMode
      ensures viewMode != old(viewMode)
    {
      viewMode := if viewMode == All then UnreadOnly else All;
    }

    method ClearPendingKey()
      modifies this`pendingKey
      ensures pendingKey.None?
    {
      pendingKey := None;
    }

    /** `find_next_unread_article`: the first unread article after the selection. */
    method FindNextUnreadArticle() returns (r: Option<nat>)
      ensures r.Some? ==> selectedArticle < r.value < |articles| && !articles[r.value].isRead
      ensures r.Some? ==> forall j :: selectedArticle < j < r.value ==> articles[j].isRead
      ensures r.None? ==> forall j :: selectedArticle < j < |articles| ==> articles[j].isRead
    {
      var i := selectedArticle + 1;
      while i < |articles|
        invariant selectedArticle < i
        invariant forall j :: selectedArticle < j < i && j < |articles| ==> articles[j].isRead
      {
        if !articles[i].isRead {
          return Some(i);
        }
        i := i + 1;
      }
      return None;
    }

    /** `find_prev_unread_article`: the last unread article before the selection. */
    method FindPrevUnreadArticle() returns (r: Option<nat>)
      requires selectedArticle <= |articles|
      ensures r.Some? ==> r.value < selectedArticle && !articles[r.value].isRead
      ensures r.Some? ==> forall j :: r.value < j < selectedArticle ==> articles[j].isRead
      ensures r.None? ==> forall j :: 0 <= j < selectedArticle ==> articles[j].isRead
    {
      var i: nat := selectedArticle;
      while i > 0
        invariant i <= selectedArticle
        invariant forall j :: i <= j < selectedArticle ==> articles[j].isRead
      {
        i := i - 1;
        if !articles[i].isRead {
          return Some(i);
        }
      }
      return None;
    }

    /** `next_search_match`: advance cyclically and select that article. */
    method NextSearchMatch()
      modifies this`currentMatch, this`selectedArticle
      ensures searchMatches == [] ==> currentMatch == old(currentMatch) && selectedArticle == old(selectedArticle)
      ensures searchMatches != [] ==> currentMatch == NextMatch(old(currentMatch), |searchMatches|)
      ensures searchMatches != [] ==> selectedArticle == searchMatches[currentMatch]
    {
      if searchMatches != [] {
        currentMatch := (currentMatch + 1) % |searchMatches|;
        selectedArticle := searchMatches[currentMatch];
      }
    }

    /** `prev_search_match`: step back cyclically and select that article, if the index is a match. */
    method PrevSearchMatch()
      modifies this`currentMatch, this`selectedArticle
      ensures searchMatches == [] ==> currentMatch == old(currentMatch) && selectedArticle == old(selectedArticle)
      ensures searchMatches != [] ==> currentMatch == PrevMatch(old(currentMatch), |searchMatches|)
      ensures searchMatches != [] && currentMatch < |searchMatches| ==> selectedArticle == searchMatches[currentMatch]
      ensures currentMatch >= |searchMatches| ==> selectedArticle == old(selectedArticle)
    {
      if searchMatches != [] {
        currentMatch := if currentMatch == 0 then |searchMatches| - 1 else currentMatch - 1;
        if currentMatch < |searchMatches| {
          selectedArticle := searchMatches[currentMatch];
        }
      }
    }

    /** `execute_search`: rebuild the matches for the query and select the first one. */
    method ExecuteSearch()
      requires Valid()
      modifies this`searchMatches, this`currentMatch, this`selectedArticle
      ensures Valid()
      ensures searchMatches == SearchMatches(articles, searchQuery)
      ensures currentMatch == 0
      ensures searchMatches != [] ==> selectedArticle == searchMatches[0]
      ensures searchMatches == [] ==> selectedArticle == old(selectedArticle)
    {
      searchMatches := [];
      currentMatch := 0;
      if searchQuery == [] {
        return;
      }
      for idx := 0 to |articles|
        invariant searchMatches == MatchesBelow(articles, searchQuery, idx)
        invariant currentMatch == 0 && selectedArticle == old(selectedArticle)
      {
        var article := articles[idx];
        var query := Text.Lower(searchQuery);
        var titleMatch := Text.Contains(Text.Lower(article.title), query);
        var contentMatch := article.content.Some? && Text.Contains(Text.Lower(article.content.value), query);
        if titleMatch || contentMatch {
          searchMatches := searchMatches + [idx];
        }
      }
      if searchMatches != [] {
        assert searchMatches[0] in searchMatches;
        selectedArticle := searchMatches[0];
      }
    }

    /** `push_history`: record the selected feed and article, when both exist. */
    method PushHistory()
      requires Valid()
      modifies this`readHistory, this`historyPosition
      ensures Valid()
      ensures selectedFeed < |feeds| && selectedArticle < |articles| ==>
        (readHistory, historyPosition) == Recorded(old(readHistory), old(historyPosition), (feeds[selectedFeed].id, articles[selectedArticle].id))
      ensures !(selectedFeed < |feeds| && selectedArticle < |articles|) ==>
        readHistory == old(readHistory) && historyPosition == old(historyPosition)
    {
      if selectedFeed >= |feeds| || selectedArticle >= |articles| {
        return;
      }
      var entry := (feeds[selectedFeed].id, articles[selectedArticle].id);
      if historyPosition < |readHistory| {
        readHistory := readHistory[..historyPosition];
      }
      if readHistory == [] || readHistory[|readHistory| - 1] != entry {
        readHistory := readHistory + [entry];
        historyPosition := |readHistory|;
      }
    }

    /** `history_back`. */
    method HistoryBack() returns (r: Option<HistoryEntry>)
      requires Valid()
      modifies this`historyPosition
      ensures Valid()
      ensures (historyPosition, r) == Back(readHistory, old(historyPosition))
    {
      if historyPosition > 1 {
        historyPosition := historyPosition - 1;
        return Some(readHistory[historyPosition - 1]);
      }
      return None;
    }

    /** `history_forward`. */
    method HistoryForward() returns (r: Option<HistoryEntry>)
      requires Valid()
      modifies this`historyPosition
      ensures Valid()
      ensures (historyPosition, r) == Forward(readHistory, old(historyPosition))
    {
      if historyPosition < |readHistory| {
        historyPosition := historyPosition + 1;
        return Some(readHistory[historyPosition - 1]);
      }
      return None;
    }

    method ToggleArticleSelection(index: nat)
      modifies this`selectedArticles
      ensures selectedArticles == Toggle(old(selectedArticles), index)
    {
      if index in selectedArticles {
        selectedArticles := selectedArticles - {index};
      } else {
        selectedArticles := selectedArticles + {index};
      }
    }

    method ToggleFeedSelection(index: nat)
      modifies this`selectedFeeds
      ensures selectedFeeds == Toggle(old(selectedFeeds), index)
    {
      if index in selectedFeeds {
        selectedFeeds := selectedFeeds - {index};
      } else {
        selectedFeeds := selectedFeeds + {index};
      }
    }

    method ClearArticleSelection()
      modifies this`selectedArticles, this`visualStartArticle
      ensures selectedArticles == {} && visualStartArticle.None?
    {
      selectedArticles := {};
      visualStartArticle := None;
    }

    method ClearFeedSelection()
      modifies this`selectedFeeds, this`visualStartFeed
      ensures selectedFeeds == {} && visualStartFeed.None?
    {
      selectedFeeds := {};
      visualStartFeed := None;
    }

    /** `update_visual_selection_articles`: exactly the range between the anchor and the cursor. */
    method UpdateVisualSelectionArticles()
      modifies this`selectedArticles
      ensures visualStartArticle.Some? ==>
        selectedArticles == Span(Min(visualStartArticle.value, selectedArticle), Max(visualStartArticle.value, selectedArticle))
      ensures visualStartArticle.None? ==> selectedArticles == old(selectedArticles)
    {
      if visualStartArticle.Some? {
        var start := visualStartArticle.value;
        var lo, hi := if start <= selectedArticle then start else selectedArticle, if start <= selectedArticle then selectedArticle else start;
        selectedArticles := FillRange(lo, hi);
      }
    }

    /** `update_visual_selection_feeds`: exactly the range between the anchor and the cursor. */
    method UpdateVisualSelectionFeeds()
      modifies this`selectedFeeds
      ensures visualStartFeed.Some? ==>
        selectedFeeds == Span(Min(visualStartFeed.value, selectedFeed), Max(visualStartFeed.value, selectedFeed))
      ensures visualStartFeed.None? ==> selectedFeeds == old(selectedFeeds)
    {
      if visualStartFeed.Some? {
        var start := visualStartFeed.value;
        var lo, hi := if start <= selectedFeed then start else selectedFeed, if start <= selectedFeed then selectedFeed else start;
        selectedFeeds := FillRange(lo, hi);
      }
    }

    predicate IsVisualMode()
      reads this
    {
      visualStartArticle.Some? || visualStartFeed.Some?
    }
  }

  /** The `for i in from..=to { insert(i) }` loop of the visual selection, starting from a cleared set. */
  method FillRange(lo: nat, hi: nat) returns (s: set<nat>)
    ensures s == Span(lo, hi)
  {
    s := {};
    var i := lo;
    while i <= hi
      invariant lo <= i <= hi + 1 || (i == lo && lo > hi)
      invariant forall j :: j in s <==> lo <= j < i
    {
      s := s + {i};
      i := i + 1;
    }
    assert s == Span(lo, hi);
  }
}
