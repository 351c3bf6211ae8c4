/** The frame guard of setupTileFloat as the script runs it: the captured `raf`
    variable and the browser's frame queue as fields, restart, stop and animate as
    methods, each proved to perform the transition of the same name in FrameGuard. */
module FrameLoop {
  import opened Common
  import opened FrameGuard

  class Loop {
    const enabled: bool
    var raf: Option<nat>
    var pending: set<nat>
    var nextHandle: nat
    var ticks: nat

    function Snapshot(): (r: Frames)
      reads this
    {
      Frames(enabled, raf, pending, nextHandle, ticks)
    }

    ghost predicate Valid()
      reads this
    {
      Inv(Snapshot())
    }

    /** setupTileFloat(). */
    constructor (reducedMotion: bool, tileCount: nat)
      ensures Snapshot() == Setup(reducedMotion, tileCount)
      ensures Valid()
    {
      enabled := !reducedMotion && tileCount > 0;
      raf := None;
      pending := {};
      nextHandle := 1;
      ticks := 0;
      new;
      if enabled {
        Restart();
      }
    }

    /** requestAnimationFrame(animate): the browser queues the callback and returns
        a fresh handle. */
    method RequestAnimationFrame() returns (h: nat)
      modifies this
      ensures h == old(nextHandle)
      ensures Snapshot() == old(Snapshot()).(pending := old(pending) + {h}, nextHandle := old(nextHandle) + 1)
    {
      h := nextHandle;
      pending := pending + {h};
      nextHandle := nextHandle + 1;
    }

    /** cancelAnimationFrame(h). */
    method CancelAnimationFrame(h: nat)
      modifies this
      ensures Snapshot() == old(Snapshot()).(pending := old(pending) - {h})
    {
      pending := pending - {h};
    }

    /** restart, main.js:118-122. */
    method Restart()
      requires Valid() && enabled
      modifies this
      ensures Snapshot() == FrameGuard.Restart(old(Snapshot()))
      ensures Valid()
    {
      RestartRequestsOnlyWhenIdle(Snapshot());
      if raf.None? {
        var h := RequestAnimationFrame();
        raf := Some(h);
      }
    }

    /** stop, main.js:123-128. */
    method Stop()
      requires Valid()
      modifies this
      ensures Snapshot() == FrameGuard.Stop(old(Snapshot()))
      ensures Valid()
    {
      StopCancels(Snapshot());
      if raf.Some? {
        CancelAnimationFrame(raf.value);
        raf := None;
      }
    }

    /** The browser runs frame `h`, which it removes from its queue, and animate
        runs: the tile updates, then `raf = requestAnimationFrame(animate)`. */
    method Animate(h: nat)
      requires Valid() && h in pending
      modifies this
      ensures Snapshot() == Fire(old(Snapshot()), h)
      ensures Valid()
    {
      FireReRequestsOne(Snapshot(), h);
      pending := pending - {h};
      ticks := ticks + 1;
      var next := RequestAnimationFrame();
      raf := Some(next);
    }

    /** The visibilitychange listener, main.js:129-135. */
    method OnVisibilityChange(hidden: bool)
      requires Valid()
      modifies this
      ensures Snapshot() == Step(old(Snapshot()), VisibilityChange(hidden))
      ensures Valid()
    {
      if enabled {
        if hidden {
          Stop();
        } else {
          Restart();
        }
      }
    }
  }
}
