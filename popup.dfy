/**
 * The delete-confirmation popup: where the popup box goes on the screen and
 * how the feed name is shortened for its message. Coordinates and sizes are
 * terminal cells.
 */
module Popup {
  import opened Numeric
  import Text

  /** A screen rectangle: its top-left corner and its size. */
  datatype Rect = Rect(x: nat, y: nat, width: nat, height: nat)

  /** `inner` lies entirely within `outer`. */
  predicate Within(inner: Rect, outer: Rect)
  {
    && outer.x <= inner.x && inner.x + inner.width <= outer.x + outer.width
    && outer.y <= inner.y && inner.y + inner.height <= outer.y + outer.height
  }

  /**
   * `centered_rect`: a rectangle of the requested size whose offset from the
   * area's corner is half the room left over in each direction, or zero when
   * there is no room.
   */
  function CenteredRect(width: nat, height: nat, area: Rect): (r: Rect)
    ensures r.width == width && r.height == height
  {
    Rect(area.x + SatSub(area.width, width) / 2, area.y + SatSub(area.height, height) / 2, width, height)
  }

  /** A rectangle that fits the area is placed inside it. */
  lemma CenteredInside(width: nat, height: nat, area: Rect)
    requires width <= area.width && height <= area.height
    ensures Within(CenteredRect(width, height, area), area)
  {
  }

  /**
   * A rectangle that fits is centred: the room to its left and to its
   * right differ by at most one cell, the extra cell going to the right;
   * likewise above and below.
   */
  lemma CenteredBalanced(width: nat, height: nat, area: Rect)
    requires width <= area.width && height <= area.height
    ensures var r := CenteredRect(width, height, area);
      var left, right := r.x - area.x, (area.x + area.width) - (r.x + r.width);
      var top, bottom := r.y - area.y, (area.y + area.height) - (r.y + r.height);
      && left <= right <= left + 1
      && top <= bottom <= top + 1
  {
  }

  /** A rectangle wider (or taller) than the area starts at the area's left (or top) edge. */
  lemma OversizedAnchored(width: nat, height: nat, area: Rect)
    ensures width >= area.width ==> CenteredRect(width, height, area).x == area.x
    ensures height >= area.height ==> CenteredRect(width, height, area).y == area.y
  {
  }

  /** The largest confirmation popup. */
  const CONFIRM_WIDTH: nat := 50
  const CONFIRM_HEIGHT: nat := 7

  /**
   * The popup of `render_confirm`: at most 50 by 7 cells, and at least two
   * columns and one row narrower than the screen, centred on it.
   */
  function ConfirmArea(screen: Rect): (r: Rect)
    ensures r.width <= CONFIRM_WIDTH && r.height <= CONFIRM_HEIGHT
  {
    CenteredRect(Min(CONFIRM_WIDTH, SatSub(screen.width, 4)), Min(CONFIRM_HEIGHT, SatSub(screen.height, 2)), screen)
  }

  /**
   * The confirmation popup always lies on the screen, keeps two free
   * columns on each side and a free row above and below, and has its full
   * size once the screen is at least 54 by 9 cells.
   */
  lemma ConfirmAreaFits(screen: Rect)
    ensures var r := ConfirmArea(screen);
      && Within(r, screen)
      && (screen.width >= 4 ==> screen.x + 2 <= r.x && r.x + r.width + 2 <= screen.x + screen.width)
      && (screen.height >= 2 ==> screen.y + 1 <= r.y && r.y + r.height + 1 <= screen.y + screen.height)
      && (screen.width >= CONFIRM_WIDTH + 4 ==> r.width == CONFIRM_WIDTH)
      && (screen.height >= CONFIRM_HEIGHT + 2 ==> r.height == CONFIRM_HEIGHT)
  {
    var w, h := Min(CONFIRM_WIDTH, SatSub(screen.width, 4)), Min(CONFIRM_HEIGHT, SatSub(screen.height, 2));
    CenteredInside(w, h, screen);
    CenteredBalanced(w, h, screen);
  }

  /**
   * `truncate_str`: a string of at most `maxLen` characters is kept;
   * a longer one is cut to `maxLen - 3` characters followed by "...".
   * The subtraction would underflow for `maxLen < 3`, so a string longer
   * than such a limit is not a valid argument.
   */
  function TruncateStr(s: string, maxLen: nat): (r: string)
    requires |s| <= maxLen || maxLen >= 3
    ensures |s| <= maxLen ==> r == s
    ensures |s| > maxLen ==> |r| == maxLen && Text.EndsWith(r, "...") && Text.StartsWith(s, r[..maxLen - 3])
    ensures |r| <= maxLen || r == s
  {
    if |s| <= maxLen then s else s[..maxLen - 3] + "..."
  }

  /** Truncating is idempotent: a truncated string already fits. */
  lemma TruncateIdempotent(s: string, maxLen: nat)
    requires |s| <= maxLen || maxLen >= 3
    ensures TruncateStr(TruncateStr(s, maxLen), maxLen) == TruncateStr(s, maxLen)
  {
  }

  /** Two names with the same first `maxLen - 3` characters that are both too long look the same. */
  lemma TruncateForgetsTail(s: string, t: string, maxLen: nat)
    requires maxLen >= 3 && |s| > maxLen && |t| > maxLen
    requires s[..maxLen - 3] == t[..maxLen - 3]
    ensures TruncateStr(s, maxLen) == TruncateStr(t, maxLen)
  {
  }

  /** How much of a feed's name the delete prompt shows. */
  const NAME_LIMIT: nat := 30

  const DELETE_PREFIX: string := "Delete feed \""
  const DELETE_SUFFIX: string := "\"?"

  /** `render_delete_confirm`'s message: the feed name, shortened to 30 characters, quoted in a question. */
  function DeleteMessage(feedName: string): (r: string)
    ensures Text.StartsWith(r, DELETE_PREFIX) && Text.EndsWith(r, DELETE_SUFFIX)
    ensures |r| <= |DELETE_PREFIX| + NAME_LIMIT + |DELETE_SUFFIX|
  {
    DELETE_PREFIX + TruncateStr(feedName, NAME_LIMIT) + DELETE_SUFFIX
  }

  /** A name of up to 30 characters appears in the message in full, right after the opening quote. */
  lemma DeleteMessageShowsShortName(feedName: string)
    requires |feedName| <= NAME_LIMIT
    ensures Text.OccursAt(DeleteMessage(feedName), feedName, |DELETE_PREFIX|)
    ensures |DeleteMessage(feedName)| == |DELETE_PREFIX| + |feedName| + |DELETE_SUFFIX|
  {
    var m := DeleteMessage(feedName);
    assert m[|DELETE_PREFIX|..|DELETE_PREFIX| + |feedName|] == feedName;
  }
}
