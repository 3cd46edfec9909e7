/**
 * Smooth-scrolling settings: whether scrolling is animated, how long an
 * animation lasts and how often it is redrawn. Durations are whole
 * milliseconds.
 */
module ScrollSettings {
  /** The easing curves an animation can follow. */
  datatype Easing = NoEasing | Linear | Cubic | Quintic | EaseOut

  datatype ScrollConfig = ScrollConfig(
    smoothEnabled: bool,
    animationDurationMs: nat,
    easing: Easing,
    scrollLines: nat,
    animationFps: nat)

  /** The defaults: smooth, 150 ms, cubic easing, one line per step, 60 frames a second. */
  const DEFAULT: ScrollConfig := ScrollConfig(true, 150, Cubic, 1, 60)

  /** The tick used when no frame rate is configured. */
  const FALLBACK_TICK_MS: nat := 16

  /** `is_smooth`: animation is on only when enabled and given a positive duration. */
  predicate IsSmooth(c: ScrollConfig)
  {
    c.smoothEnabled && c.animationDurationMs > 0
  }

  /** `animation_duration`: the configured duration, in milliseconds. */
  function AnimationDuration(c: ScrollConfig): (ms: nat)
    ensures IsSmooth(c) ==> ms > 0
    ensures c.smoothEnabled && ms > 0 ==> IsSmooth(c)
  {
    c.animationDurationMs
  }

  /**
   * `animation_tick_duration`: 16 ms without a frame rate; otherwise the
   * longest whole number of milliseconds of which `fps` fit in a second.
   */
  function AnimationTickDuration(c: ScrollConfig): (ms: nat)
    ensures c.animationFps == 0 ==> ms == FALLBACK_TICK_MS
    ensures c.animationFps > 0 ==> ms * c.animationFps <= 1000 < (ms + 1) * c.animationFps
  {
    if c.animationFps == 0 then FALLBACK_TICK_MS else 1000 / c.animationFps
  }

  /** Smoothness needs both the switch and a positive duration. */
  lemma SmoothNeedsBoth(c: ScrollConfig)
    ensures IsSmooth(DEFAULT)
    ensures !IsSmooth(c.(smoothEnabled := false))
    ensures !IsSmooth(c.(animationDurationMs := 0))
    ensures c.smoothEnabled && AnimationDuration(c) > 0 ==> IsSmooth(c)
  {
  }

  /** At the default 60 frames a second a tick is 16 ms, the same as the fallback. */
  lemma DefaultTickMatchesFallback()
    ensures AnimationTickDuration(DEFAULT) == AnimationTickDuration(DEFAULT.(animationFps := 0)) == 16
  {
  }

  /** Above 1000 frames a second the tick rounds down to zero. */
  lemma TickVanishesAboveThousandFps(c: ScrollConfig)
    requires c.animationFps > 1000
    ensures AnimationTickDuration(c) == 0
  {
  }
}
