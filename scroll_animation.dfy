/**
 * The scroll animator of the article view. It keeps the visible scroll
 * offset, an optional running animation and a batch of scroll requests not
 * yet applied. Time is a parameter (milliseconds on a monotonic clock), and
 * the eased, interpolated offset of a running animation is supplied by the
 * caller.
 */
module ScrollAnimation {
  import opened Wrappers
  import Numeric
  import opened ScrollSettings

  /** A `u16` scroll offset. */
  type U16 = x: nat | x <= 65535

  /** A running animation from one offset to another. */
  datatype Animation = Animation(start: nat, from: U16, to: U16, durationMs: nat, easing: Easing)

  /** The animator's state: the animation, the visible offset and the pending delta. */
  datatype AnimatorState = AnimatorState(animation: Option<Animation>, current: U16, pending: int)

  const IDLE: AnimatorState := AnimatorState(None, 0, 0)

  /** `target_scroll`: where the running animation ends, or the visible offset when idle. */
  function Target(s: AnimatorState): U16
  {
    if s.animation.Some? then s.animation.value.to else s.current
  }

  /** `x.clamp(0, max)`, for a maximum that is itself an offset. */
  function ClampOffset(x: int, max: U16): (r: U16)
    ensures r <= max
    ensures 0 <= x <= max ==> r == x
    ensures x < 0 ==> r == 0
    ensures x > max ==> r == max
  {
    if x < 0 then 0 else if x > max then max else x
  }

  /** A fresh animation from the visible offset, as `scroll_to` and `update` start one. */
  function StartAnimation(c: ScrollConfig, now: nat, from: U16, to: U16): (a: Animation)
    ensures a.start == now && a.from == from && a.to == to && a.easing == c.easing
    ensures IsSmooth(c) ==> a.durationMs > 0
  {
    Animation(now, from, to, AnimationDuration(c), c.easing)
  }

  /** `scroll_to`: jump when not smooth, do nothing at the target, else animate towards it. */
  function ScrollToSpec(s: AnimatorState, c: ScrollConfig, target: U16, max: U16, now: nat): (r: AnimatorState)
    ensures Target(r) == Numeric.Min(target, max)
    ensures r.pending == s.pending
    ensures !IsSmooth(c) ==> r.current == Numeric.Min(target, max) && r.animation.None?
    ensures IsSmooth(c) ==> r.current == s.current
    ensures r.animation.Some? <==> IsSmooth(c) && s.current != Numeric.Min(target, max)
  {
    var t := Numeric.Min(target, max);
    if !IsSmooth(c) then s.(current := t, animation := None)
    else if s.current == t then s.(animation := None)
    else s.(animation := Some(StartAnimation(c, now, s.current, t)))
  }

  /** `scroll_by`: move at once when not smooth; otherwise only add to the pending delta. */
  function ScrollBySpec(s: AnimatorState, c: ScrollConfig, delta: int, max: U16): (r: AnimatorState)
    ensures !IsSmooth(c) ==> r == AnimatorState(None, ClampOffset(s.current + delta, max), s.pending)
    ensures IsSmooth(c) ==> r == s.(pending := s.pending + delta)
  {
    if !IsSmooth(c) then s.(current := ClampOffset(s.current + delta, max), animation := None)
    else s.(pending := s.pending + delta)
  }

  /**
   * The first half of `update` as written: a pending delta moves the target
   * (clamped) and is cleared; a new animation starts only when the new target
   * differs from the visible offset, and otherwise any running animation is
   * kept.
   */
  function Retarget(s: AnimatorState, c: ScrollConfig, max: U16, now: nat): (r: AnimatorState)
    ensures r.current == s.current && r.pending == 0
    ensures s.pending == 0 ==> r == s
    ensures s.pending != 0 && ClampOffset(Target(s) + s.pending, max) != s.current ==>
      r.animation == Some(StartAnimation(c, now, s.current, ClampOffset(Target(s) + s.pending, max)))
    ensures s.pending != 0 && ClampOffset(Target(s) + s.pending, max) == s.current ==> r.animation == s.animation
  {
    if s.pending == 0 then s
    else
      var t := ClampOffset(Target(s) + s.pending, max);
      if t != s.current then AnimatorState(Some(StartAnimation(c, now, s.current, t)), s.current, 0)
      else s.(pending := 0)
  }

  /**
   * The second half of `update`: a finished animation lands on its end
   * (capped at `max`) and stops; an unfinished one shows the interpolated
   * offset (capped at `max`).
   */
  function Advance(s: AnimatorState, max: U16, now: nat, interpolated: U16): (r: AnimatorState)
    ensures r.pending == s.pending
    ensures s.animation.None? ==> r == s
    ensures s.animation.Some? ==> r.current <= max && (r.animation.None? || r.animation == s.animation)
    ensures s.animation.Some? && r.animation.None? ==> r.current == Numeric.Min(s.animation.value.to, max)
    ensures s.animation.Some? ==> (r.animation.None? <==> Numeric.SatSub(now, s.animation.value.start) >= s.animation.value.durationMs)
  {
    match s.animation
    case None => s
    case Some(a) =>
      if Numeric.SatSub(now, a.start) >= a.durationMs then s.(current := Numeric.Min(a.to, max), animation := None)
      else s.(current := Numeric.Min(interpolated, max))
  }

  /** `update` as written: fold the pending delta into the target, then advance the animation. */
  function UpdateSpec(s: AnimatorState, c: ScrollConfig, max: U16, now: nat, interpolated: U16): (r: AnimatorState)
    ensures r.pending == 0
    ensures s.pending == 0 && s.animation.None? ==> r == s
  {
    Advance(Retarget(s, c, max, now), max, now, interpolated)
  }

  /** After an update nothing is pending, and whenever an animation ran, the offset is within `max`. */
  lemma UpdateClearsPending(s: AnimatorState, c: ScrollConfig, max: U16, now: nat, interpolated: U16)
    ensures UpdateSpec(s, c, max, now, interpolated).pending == 0
    ensures Retarget(s, c, max, now).animation.Some? ==> UpdateSpec(s, c, max, now, interpolated).current <= max
  {
  }

  /**
   * As written, a pending delta moves the target to the old target plus the
   * delta, clamped, unless that lands on the visible offset while an
   * animation runs: then the running animation keeps its own end.
   */
  lemma UpdateFoldsPending(s: AnimatorState, c: ScrollConfig, max: U16, now: nat, interpolated: U16)
    requires s.pending != 0
    ensures ClampOffset(Target(s) + s.pending, max) != s.current || s.animation.None? ==>
      Target(UpdateSpec(s, c, max, now, interpolated)) == ClampOffset(Target(s) + s.pending, max)
    ensures ClampOffset(Target(s) + s.pending, max) == s.current && s.animation.Some? ==>
      Retarget(s, c, max, now) == s.(pending := 0)
  {
  }

  /** Smooth requests batch: two deltas in a row act as their sum. */
  lemma ScrollByBatches(s: AnimatorState, c: ScrollConfig, a: int, b: int, max: U16)
    requires IsSmooth(c)
    ensures ScrollBySpec(ScrollBySpec(s, c, a, max), c, b, max) == ScrollBySpec(s, c, a + b, max)
  {
  }

  /** From rest at 0, three smooth scrolls by 10 then an update aim at offset 30. */
  lemma ThreeScrollsAimAtThirty(c: ScrollConfig, max: U16, now: nat, interpolated: U16)
    requires IsSmooth(c) && max >= 30
    ensures Target(UpdateSpec(ScrollBySpec(ScrollBySpec(ScrollBySpec(IDLE, c, 10, max), c, 10, max), c, 10, max),
                              c, max, now, interpolated)) == 30
  {
    ScrollByBatches(IDLE, c, 10, 10, max);
    ScrollByBatches(IDLE, c, 20, 10, max);
    UpdateFoldsPending(IDLE.(pending := 30), c, max, now, interpolated);
  }

  /**
   * As written, a delta that brings the target back onto the visible offset
   * leaves the running animation in place: halfway through scrolling from 0
   * to 10, at offset 5, a request to go back 5 lines still ends at 10, while
   * the corrected update stops at 5.
   */
  lemma StaleAnimationKept(c: ScrollConfig, max: U16, now: nat, start: nat, interpolated: U16)
    requires max >= 10 && now < start + 100
    ensures var s := AnimatorState(Some(Animation(start, 0, 10, 100, c.easing)), 5, -5);
      var r := UpdateSpec(s, c, max, now, interpolated);
      Target(r) == 10 && r.animation.Some? && ClampOffset(Target(s) + s.pending, max) == 5
      && UpdateCorrected(s, c, max, now, interpolated) == AnimatorState(None, 5, 0)
  {
  }

  /** `update`'s first half as evidently intended: a target equal to the visible offset stops the animation. */
  function RetargetCorrected(s: AnimatorState, c: ScrollConfig, max: U16, now: nat): (r: AnimatorState)
    ensures r.current == s.current
    ensures s.pending == 0 ==> r == s
    ensures r.animation.Some? && s.pending != 0 ==> r.animation.value.from == s.current && r.animation.value.to != s.current
  {
    if s.pending == 0 then s
    else
      var t := ClampOffset(Target(s) + s.pending, max);
      if t != s.current then AnimatorState(Some(StartAnimation(c, now, s.current, t)), s.current, 0)
      else AnimatorState(None, s.current, 0)
  }

  /** With the correction, every pending delta moves the target to the old target plus the delta, clamped. */
  lemma RetargetCorrectedFolds(s: AnimatorState, c: ScrollConfig, max: U16, now: nat)
    requires s.pending != 0
    ensures Target(RetargetCorrected(s, c, max, now)) == ClampOffset(Target(s) + s.pending, max)
    ensures RetargetCorrected(s, c, max, now).pending == 0
  {
  }

  /** `update` as evidently intended: the corrected first half, then the same advance. */
  function UpdateCorrected(s: AnimatorState, c: ScrollConfig, max: U16, now: nat, interpolated: U16): (r: AnimatorState)
    ensures r.pending == 0
    ensures s.pending == 0 && s.animation.None? ==> r == s
  {
    Advance(RetargetCorrected(s, c, max, now), max, now, interpolated)
  }

  /**
   * With the correction, every pending delta lands in the target, whether or
   * not the new animation has already finished, and nothing stays pending.
   */
  lemma UpdateCorrectedFolds(s: AnimatorState, c: ScrollConfig, max: U16, now: nat, interpolated: U16)
    requires s.pending != 0
    ensures Target(UpdateCorrected(s, c, max, now, interpolated)) == ClampOffset(Target(s) + s.pending, max)
    ensures UpdateCorrected(s, c, max, now, interpolated).pending == 0
  {
    RetargetCorrectedFolds(s, c, max, now);
  }

  /**
   * The two updates differ only where the as-written one keeps a stale
   * animation; there the corrected one stops at the visible offset.
   */
  lemma CorrectionOnlyDropsStaleAnimation(s: AnimatorState, c: ScrollConfig, max: U16, now: nat, interpolated: U16)
    ensures UpdateSpec(s, c, max, now, interpolated) != UpdateCorrected(s, c, max, now, interpolated) ==>
      s.pending != 0 && s.animation.Some? && ClampOffset(Target(s) + s.pending, max) == s.current
    ensures s.pending != 0 && ClampOffset(Target(s) + s.pending, max) == s.current ==>
      UpdateCorrected(s, c, max, now, interpolated) == AnimatorState(None, s.current, 0)
  {
  }

  /** The number of lines one `scroll_down`/`scroll_up` moves: 1 when smooth, else the configured count. */
  function LineStep(c: ScrollConfig): (n: nat)
    ensures IsSmooth(c) ==> n == 1
    ensures !IsSmooth(c) ==> n == c.scrollLines
  {
    if IsSmooth(c) then 1 else c.scrollLines
  }

  /** `ScrollAnimator`. */
  class ScrollAnimator {
    var animation: Option<Animation>
    var config: ScrollConfig
    var currentScroll: U16
    var pendingDelta: int

    function Snapshot(): AnimatorState
      reads this
    {
      AnimatorState(animation, currentScroll, pendingDelta)
    }

    /** `new`: idle at offset 0. */
    constructor(config: ScrollConfig)
      ensures Snapshot() == IDLE && this.config == config
    {
      animation := None;
      this.config := config;
      currentScroll := 0;
      pendingDelta := 0;
    }

    method SetConfig(config: ScrollConfig)
      modifies this`config
      ensures this.config == config
    {
      this.config := config;
    }

    /** `is_animating`: an animation runs; when none does, the target is the visible offset. */
    function IsAnimating(): (b: bool)
      reads this
      ensures !b ==> TargetScroll() == currentScroll
    {
      animation.Some?
    }

    /** `needs_update`: an animation runs or a delta waits. */
    function NeedsUpdate(): (b: bool)
      reads this
      ensures !b ==> !IsAnimating()
      ensures !b ==> forall max: U16, now: nat, interpolated: U16 :: UpdateSpec(Snapshot(), config, max, now, interpolated) == Snapshot()
    {
      animation.Some? || pendingDelta != 0
    }

    /** `target_scroll`: the end of the running animation, else the visible offset. */
    function TargetScroll(): (t: U16)
      reads this
      ensures animation.None? ==> t == currentScroll
      ensures animation.Some? ==> t == animation.value.to
    {
      Target(Snapshot())
    }

    /** `set_scroll`: jump, dropping the animation and any pending delta. */
    method SetScroll(scroll: U16)
      modifies this`animation, this`currentScroll, this`pendingDelta
      ensures Snapshot() == AnimatorState(None, scroll, 0)
      ensures !NeedsUpdate() && TargetScroll() == scroll
    {
      animation := None;
      currentScroll := scroll;
      pendingDelta := 0;
    }

    method ScrollTo(target: U16, maxScroll: U16, now: nat)
      modifies this`animation, this`currentScroll
      ensures Snapshot() == ScrollToSpec(old(Snapshot()), config, target, maxScroll, now)
      ensures TargetScroll() == Numeric.Min(target, maxScroll)
    {
      var t := Numeric.Min(target, maxScroll);
      if !IsSmooth(config) {
        currentScroll := t;
        animation := None;
        return;
      }
      var from := currentScroll;
      if from == t {
        animation := None;
        return;
      }
      animation := Some(Animation(now, from, t, AnimationDuration(config), config.easing));
    }

    method ScrollBy(delta: int, maxScroll: U16)
      modifies this`animation, this`currentScroll, this`pendingDelta
      ensures Snapshot() == ScrollBySpec(old(Snapshot()), config, delta, maxScroll)
    {
      if !IsSmooth(config) {
        currentScroll := ClampOffset(currentScroll + delta, maxScroll);
        animation := None;
        return;
      }
      pendingDelta := pendingDelta + delta;
    }

    method ScrollDown(maxScroll: U16)
      modifies this`animation, this`currentScroll, this`pendingDelta
      ensures Snapshot() == ScrollBySpec(old(Snapshot()), config, LineStep(config), maxScroll)
    {
      var lines := if IsSmooth(config) then 1 else config.scrollLines;
      ScrollBy(lines, maxScroll);
    }

    method ScrollUp(maxScroll: U16)
      modifies this`animation, this`currentScroll, this`pendingDelta
      ensures Snapshot() == ScrollBySpec(old(Snapshot()), config, -(LineStep(config) as int), maxScroll)
    {
      var lines := if IsSmooth(config) then 1 else config.scrollLines;
      ScrollBy(-(lines as int), maxScroll);
    }

    method ScrollHalfPageDown(viewportHeight: U16, maxScroll: U16)
      modifies this`animation, this`currentScroll, this`pendingDelta
      ensures Snapshot() == ScrollBySpec(old(Snapshot()), config, Numeric.HalfPage(viewportHeight), maxScroll)
    {
      var halfPage := Numeric.Max(viewportHeight / 2, 1);
      ScrollBy(halfPage, maxScroll);
    }

    method ScrollHalfPageUp(viewportHeight: U16, maxScroll: U16)
      modifies this`animation, this`currentScroll, this`pendingDelta
      ensures Snapshot() == ScrollBySpec(old(Snapshot()), config, -(Numeric.HalfPage(viewportHeight) as int), maxScroll)
    {
      var halfPage := Numeric.Max(viewportHeight / 2, 1);
      ScrollBy(-(halfPage as int), maxScroll);
    }

    method ScrollFullPageDown(viewportHeight: U16, maxScroll: U16)
      modifies this`animation, this`currentScroll, this`pendingDelta
      ensures Snapshot() == ScrollBySpec(old(Snapshot()), config, viewportHeight, maxScroll)
    {
      ScrollBy(viewportHeight, maxScroll);
    }

    method ScrollFullPageUp(viewportHeight: U16, maxScroll: U16)
      modifies this`animation, this`currentScroll, this`pendingDelta
      ensures Snapshot() == ScrollBySpec(old(Snapshot()), config, -(viewportHeight as int), maxScroll)
    {
      ScrollBy(-(viewportHeight as int), maxScroll);
    }

    /**
     * `update`: fold the pending delta into the target, then advance the
     * animation; `interpolated` is the eased position the animation shows
     * at `now` if it has not finished.
     */
    method Update(maxScroll: U16, now: nat, interpolated: U16) returns (position: U16)
      modifies this`animation, this`currentScroll, this`pendingDelta
      ensures Snapshot() == UpdateSpec(old(Snapshot()), config, maxScroll, now, interpolated)
      ensures position == currentScroll && pendingDelta == 0
    {
      if pendingDelta != 0 {
        var target := TargetScroll();
        var newTarget := ClampOffset(target + pendingDelta, maxScroll);
        pendingDelta := 0;
        if newTarget != currentScroll {
          animation := Some(Animation(now, currentScroll, newTarget, AnimationDuration(config), config.easing));
        }
      }
      if animation.Some? {
        var anim := animation.value;
        if Numeric.SatSub(now, anim.start) >= anim.durationMs {
          currentScroll := Numeric.Min(anim.to, maxScroll);
          animation := None;
        } else {
          currentScroll := Numeric.Min(interpolated, maxScroll);
        }
      }
      position := currentScroll;
    }

    /** `cancel`: stop where the view is. */
    method Cancel()
      modifies this`animation, this`pendingDelta
      ensures Snapshot() == old(Snapshot()).(animation := None, pending := 0)
      ensures !NeedsUpdate()
    {
      animation := None;
      pendingDelta := 0;
    }

    /** `reset`: back to offset 0, idle. */
    method Reset()
      modifies this`animation, this`currentScroll, this`pendingDelta
      ensures Snapshot() == IDLE
    {
      animation := None;
      currentScroll := 0;
      pendingDelta := 0;
    }
  }
}
