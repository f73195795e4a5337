/**
 * The in-memory fixed-window rate limiter: one window per key, holding the
 * window's start (milliseconds) and the number of calls counted in it. The
 * clock reading is a parameter.
 */
module RateLimiter {

  import opened Wrappers

  /** `Window`: its start and its counter. */
  datatype Window = Window(windowStartMs: int, count: int)

  /** `RateLimitResult`. */
  datatype RateLimitResult = RateLimitResult(allowed: bool, remaining: int, resetEpochSeconds: int)

  /** Java's `long` division by a positive constant, which truncates toward zero. */
  function TruncDiv(a: int, d: nat): (q: int)
    requires d > 0
    ensures a >= 0 ==> q == a / d
    ensures a < 0 ==> q == -((-a) / d)
  {
    if a >= 0 then a / d else -((-a) / d)
  }

  /**
   * The window after one call at `nowMs`: a missing window opens at `nowMs`;
   * a window at least `windowMs` old restarts at `nowMs` with count 0; then
   * the count goes up by one.
   */
  function Consumed(w: Option<Window>, nowMs: int, windowMs: int): (w': Window)
    ensures w.None? ==> w' == Window(nowMs, 1)
    ensures w.Some? && nowMs - w.value.windowStartMs >= windowMs ==> w' == Window(nowMs, 1)
    ensures w.Some? && nowMs - w.value.windowStartMs < windowMs ==> w' == Window(w.value.windowStartMs, w.value.count + 1)
  {
    var existing := if w.Some? then w.value else Window(nowMs, 0);
    var current := if nowMs - existing.windowStartMs >= windowMs then Window(nowMs, 0) else existing;
    Window(current.windowStartMs, current.count + 1)
  }

  /** The verdict read off the window after counting the call. */
  function Verdict(w: Window, maxRequests: int, windowMs: int): (r: RateLimitResult)
    ensures r.allowed <==> w.count <= maxRequests
    ensures r.remaining >= 0
    ensures r.remaining == if maxRequests - w.count > 0 then maxRequests - w.count else 0
    ensures r.resetEpochSeconds == TruncDiv(w.windowStartMs + windowMs, 1000)
  {
    RateLimitResult(w.count <= maxRequests, if 0 > maxRequests - w.count then 0 else maxRequests - w.count,
                    TruncDiv(w.windowStartMs + windowMs, 1000))
  }

  /** The number of calls among `times` (in order, starting from window `w`) that are allowed. */
  function AllowedCount(w: Option<Window>, times: seq<int>, maxRequests: int, windowMs: int): nat
    decreases |times|
  {
    if times == [] then 0
    else
      var w' := Consumed(w, times[0], windowMs);
      (if w'.count <= maxRequests then 1 else 0) + AllowedCount(Some(w'), times[1..], maxRequests, windowMs)
  }

  /**
   * Within one window at most `maxRequests` calls are allowed: for calls that
   * all fall inside the window that is open (count `c` ≥ 0 so far), at most
   * max(0, maxRequests − c) more are allowed.
   */
  lemma {:induction false} AllowedWithinWindow(start: int, c: int, times: seq<int>, maxRequests: int, windowMs: int)
    requires c >= 0 && maxRequests >= 0
    requires forall i | 0 <= i < |times| :: times[i] - start < windowMs
    ensures AllowedCount(Some(Window(start, c)), times, maxRequests, windowMs) <= if maxRequests - c > 0 then maxRequests - c else 0
    decreases |times|
  {
    if times != [] {
      AllowedWithinWindow(start, c + 1, times[1..], maxRequests, windowMs);
    }
  }

  /**
   * A key seen for the first time opens its window at its first call; if
   * every call falls within `windowMs` of that first one, at most
   * `maxRequests` of them are allowed.
   */
  lemma FirstWindowBound(times: seq<int>, maxRequests: int, windowMs: int)
    requires maxRequests >= 0 && windowMs > 0
    requires times != [] && forall i | 0 <= i < |times| :: times[i] - times[0] < windowMs
    ensures AllowedCount(None, times, maxRequests, windowMs) <= maxRequests
  {
    AllowedWithinWindow(times[0], 1, times[1..], maxRequests, windowMs);
  }

  class InMemoryRateLimiter {
    /** `properties.getWindowSeconds()` and `properties.getMaxRequests()`. */
    const windowSeconds: int
    const maxRequests: int
    var windows: map<string, Window>

    constructor (windowSeconds: int, maxRequests: int)
      ensures this.windowSeconds == windowSeconds && this.maxRequests == maxRequests
      ensures windows == map[]
    {
      this.windowSeconds := windowSeconds;
      this.maxRequests := maxRequests;
      windows := map[];
    }

    function WindowMs(): int
    {
      windowSeconds * 1000
    }

    function WindowOf(key: string): Option<Window>
      reads this
    {
      if key in windows then Some(windows[key]) else None
    }

    /**
     * `tryConsume`: count one call for the key and report the verdict. Only
     * the key's own window changes.
     */
    method TryConsume(key: string, nowMs: int) returns (r: RateLimitResult)
      modifies this
      ensures windows == old(windows)[key := Consumed(old(WindowOf(key)), nowMs, WindowMs())]
      ensures r == Verdict(windows[key], maxRequests, WindowMs())
      ensures r.allowed <==> windows[key].count <= maxRequests
      ensures r.remaining >= 0
    {
      if key !in windows {
        windows := windows[key := Window(nowMs, 0)];
      }
      var windowMs := windowSeconds * 1000;
      var window := windows[key];
      if nowMs - window.windowStartMs >= windowMs {
        window := Window(nowMs, 0);
      }
      var count := window.count + 1;
      window := Window(window.windowStartMs, count);
      windows := windows[key := window];
      var allowed := count <= maxRequests;
      var remaining := if 0 > maxRequests - count then 0 else maxRequests - count;
      var resetEpochSeconds := TruncDiv(window.windowStartMs + windowMs, 1000);
      r := RateLimitResult(allowed, remaining, resetEpochSeconds);
    }
  }
}
