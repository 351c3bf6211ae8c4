/** The animation-frame guard of setupTileFloat (main.js:94-137): the `raf`
    variable, restart, stop and the self-rescheduling animate callback, together
    with the part of the browser's frame scheduler they talk to. */
module FrameGuard {
  import opened Common

  /** - enabled: setupTileFloat got past its two early returns (the loop exists)
      - raf: the handle stored in `raf` (null is None)
      - pending: handles requested from the browser and neither run nor cancelled
      - nextHandle: the handle requestAnimationFrame hands out next (handles are
        positive and never reused, so `!raf` is exactly `raf == null`)
      - ticks: how many times animate has run */
  datatype Frames = Frames(enabled: bool, raf: Option<nat>, pending: set<nat>, nextHandle: nat, ticks: nat)

  /** What the browser can deliver to the guard. */
  datatype Signal =
    | VisibilityChange(hidden: bool)  // document 'visibilitychange', main.js:129-135
    | FrameFired(handle: nat)         // the browser runs a requested frame callback

  /** setupTileFloat's early returns (main.js:95-97), then `let raf = null` and the
      final restart() (main.js:98, 136). */
  function Setup(reducedMotion: bool, tileCount: nat): (f: Frames)
    ensures f.enabled <==> !reducedMotion && tileCount > 0
    ensures f.ticks == 0
  {
    var f0 := Frames(!reducedMotion && tileCount > 0, None, {}, 1, 0);
    if f0.enabled then Restart(f0) else f0
  }

  /** requestAnimationFrame(animate), its handle stored in `raf`. */
  function Request(f: Frames): (r: Frames) {
    f.(raf := Some(f.nextHandle), pending := f.pending + {f.nextHandle}, nextHandle := f.nextHandle + 1)
  }

  /** restart, main.js:118-122. */
  function Restart(f: Frames): (r: Frames) {
    if f.raf.None? then Request(f) else f
  }

  /** stop, main.js:123-128. */
  function Stop(f: Frames): (r: Frames) {
    if f.raf.Some? then f.(pending := f.pending - {f.raf.value}, raf := None) else f
  }

  /** The browser runs the callback of frame `h`: animate's tile updates (counted,
      not modelled) and its closing requestAnimationFrame (main.js:99-116). A frame
      that is not pending does not run. */
  function Fire(f: Frames, h: nat): (r: Frames) {
    if h in f.pending then Request(f.(pending := f.pending - {h}, ticks := f.ticks + 1)) else f
  }

  /** The visibilitychange listener exists only once setup got past its early returns. */
  function Step(f: Frames, sig: Signal): (r: Frames) {
    match sig
    case VisibilityChange(hidden) =>
      if !f.enabled then f else if hidden then Stop(f) else Restart(f)
    case FrameFired(h) => Fire(f, h)
  }

  function Run(f: Frames, sigs: seq<Signal>): (r: Frames)
    decreases |sigs|
  {
    if sigs == [] then f else Run(Step(f, sigs[0]), sigs[1..])
  }

  /** The guard's invariant: the only outstanding request is the one `raf` holds,
      handles are positive and fresh, and a disabled guard holds none. */
  ghost predicate Inv(f: Frames) {
    f.nextHandle >= 1
    && (f.raf.Some? ==> 0 < f.raf.value < f.nextHandle)
    && f.pending == (if f.raf.Some? then {f.raf.value} else {})
    && (!f.enabled ==> f.raf.None?)
  }

  // ---------------------------------------------------------------------------
  // One operation at a time

  lemma SetupIsValid(reducedMotion: bool, tileCount: nat)
    ensures Inv(Setup(reducedMotion, tileCount))
    ensures |Setup(reducedMotion, tileCount).pending| == if !reducedMotion && tileCount > 0 then 1 else 0
  {
  }

  /** restart requests a frame exactly when none is held, and holds that one. */
  lemma RestartRequestsOnlyWhenIdle(f: Frames)
    requires Inv(f) && f.enabled
    ensures Inv(Restart(f))
    ensures f.raf.Some? ==> Restart(f) == f
    ensures f.raf.None? ==> Restart(f).pending == {f.nextHandle} && Restart(f).raf == Some(f.nextHandle)
  {
  }

  /** stop cancels the held frame and clears the handle. */
  lemma StopCancels(f: Frames)
    requires Inv(f)
    ensures Inv(Stop(f))
    ensures Stop(f).raf.None? && Stop(f).pending == {}
    ensures Stop(f).nextHandle == f.nextHandle && Stop(f).ticks == f.ticks
  {
  }

  /** Each run of animate re-requests exactly one frame, with a fresh handle. */
  lemma FireReRequestsOne(f: Frames, h: nat)
    requires Inv(f) && h in f.pending
    ensures Inv(Fire(f, h))
    ensures Fire(f, h).pending == {f.nextHandle} && Fire(f, h).raf == Some(f.nextHandle)
    ensures h !in Fire(f, h).pending
    ensures Fire(f, h).ticks == f.ticks + 1
  {
  }

  lemma RestartIsIdempotent(f: Frames)
    ensures Restart(Restart(f)) == Restart(f)
  {
  }

  lemma StopIsIdempotent(f: Frames)
    ensures Stop(Stop(f)) == Stop(f)
  {
  }

  lemma StepKeepsInv(f: Frames, sig: Signal)
    requires Inv(f)
    ensures Inv(Step(f, sig))
    ensures Step(f, sig).enabled == f.enabled
  {
    match sig
    case VisibilityChange(hidden) =>
      if f.enabled {
        if hidden { StopCancels(f); } else { RestartRequestsOnlyWhenIdle(f); }
      }
    case FrameFired(h) =>
      if h in f.pending { FireReRequestsOne(f, h); }
  }

  /** Along any sequence of signals, the invariant holds. */
  lemma {:induction false} RunKeepsInv(f: Frames, sigs: seq<Signal>)
    requires Inv(f)
    ensures Inv(Run(f, sigs))
    ensures Run(f, sigs).enabled == f.enabled
    decreases |sigs|
  {
    if sigs != [] {
      StepKeepsInv(f, sigs[0]);
      RunKeepsInv(Step(f, sigs[0]), sigs[1..]);
    }
  }

  /** At most one frame request is outstanding at any time (main.js:116-136). */
  lemma AtMostOneOutstanding(reducedMotion: bool, tileCount: nat, sigs: seq<Signal>)
    ensures |Run(Setup(reducedMotion, tileCount), sigs).pending| <= 1
  {
    SetupIsValid(reducedMotion, tileCount);
    RunKeepsInv(Setup(reducedMotion, tileCount), sigs);
  }

  /** With reduced motion requested or no tiles, animate never runs. */
  lemma {:induction false} DisabledNeverTicks(f: Frames, sigs: seq<Signal>)
    requires Inv(f) && !f.enabled
    ensures Run(f, sigs) == f
    decreases |sigs|
  {
    if sigs != [] {
      assert Step(f, sigs[0]) == f;
      DisabledNeverTicks(f, sigs[1..]);
    }
  }

  /** While the page is hidden, no frame is outstanding. */
  lemma HiddenHoldsNoFrame(f: Frames)
    requires Inv(f) && f.enabled
    ensures Step(f, VisibilityChange(true)).pending == {}
    ensures Step(Step(f, VisibilityChange(true)), VisibilityChange(true)) == Step(f, VisibilityChange(true))
  {
  }

  /** Becoming visible again resumes the loop with exactly one request. */
  lemma VisibleResumes(f: Frames)
    requires Inv(f) && f.enabled
    ensures |Step(f, VisibilityChange(false)).pending| == 1
    ensures Step(f, VisibilityChange(false)).raf.Some?
  {
  }
}
