# Overlay manager and frame guard of the pantoeirene site script

This project models the two stateful parts of the site's page script, `site/assets/js/main.js`, and proves their properties.

- **Overlay manager** (`setupOverlays`). It opens and closes the project overlays and the burger menu, and it keeps the following bookkeeping:
  - the `active` class and `aria-hidden` on each overlay;
  - the body's scroll lock;
  - the two WeakMaps: trap cleanups (`focusCleanupMap`) and return-focus targets (`focusReturnMap`);
  - the focused element;
  - the burger toggle's `aria-expanded`.

  It also installs a focus trap that wraps Tab navigation inside an open overlay. Escape closes every open overlay.
- **Frame guard** (`setupTileFloat`). It manages the captured `raf` handle, `restart`, `stop` and the self-rescheduling `animate` callback. It also covers the part of the browser's `requestAnimationFrame` queue that they drive.

Each part has two layers:

- **Functions over values.** `Overlays` and `FrameGuard` write every handler as a function from the old state to the new state. Lemmas about these functions state what the handlers promise, one call at a time and over any sequence of events. Examples:
  - opening and closing are idempotent;
  - each trap is cleaned up exactly once;
  - scroll is locked iff some overlay is open;
  - Escape closes everything;
  - at most one frame request is outstanding.
- **Classes.** `OverlayManager.Manager` and `FrameLoop.Loop` are classes whose fields are the DOM state, the two maps and `raf`. Their methods update those fields the way the script does, one DOM or map operation at a time. The handler methods are `OpenOverlay`, `CloseOverlay`, `SetExpanded`, `ToggleBurgerMenu`, `EscapeCloseOne`, `OnDocumentKeydown`, `TrapKeydown`, the `On…` listeners, `Restart`, `Stop`, `Animate` and `OnVisibilityChange`. Each is proved to leave the object in the state the corresponding `Overlays` or `FrameGuard` function computes, and to keep `Valid()`. The single-write helpers beneath them are `SetActiveClass`, `SetAriaHidden`, `SetScrollLocked`, `RecordReturn`, `TakeReturn`, `RegisterCleanup`, `DeleteCleanup`, `SetTabindexFallback`, `Focus`, `TrapFocus`, `RunCleanup`, `RequestAnimationFrame` and `CancelAnimationFrame`. Each helper states its one write and the unchanged rest in full, but promises no invariant, since one write alone can break it. They are called only inside the handler methods.

The focus trap's key handling is a pure decision, `FocusTrap.OnKeydown`. Both layers call it.

Elements are natural numbers, and element identity (`===`) is equality. The page is a fixed value (`Overlays.Page`), made of:
- the overlays in document order;
- the focusable descendants of each overlay;
- the burger menu and its toggle.

A well-formed page lists each overlay once and counts the burger menu among the overlays.

Pressing Escape resets `aria-expanded` only on the single burger toggle, and only when the burger menu was among the overlays it closed (main.js:279-281).

## Model

| member | source | states |
|---|---|---|
| FocusTrap.OnKeydown | site/assets/js/main.js:157-171 | The handler cancels the default only for Tab, and then moves focus to an element of the captured list. When it does not cancel, focus is where it was. |
| FocusTrap.SingleFocusablePinned | site/assets/js/main.js:159-163 | With one focusable, Tab and Shift+Tab both cancel the default and focus that element. |
| FocusTrap.ShiftTabWrapsToLast | site/assets/js/main.js:164-166 | With more than one focusable, Shift+Tab on the first cancels the default and focuses the last. |
| FocusTrap.TabWrapsToFirst | site/assets/js/main.js:167-169 | With more than one focusable, Tab on the last cancels the default and focuses the first. |
| FocusTrap.PreventedExactlyAtEdges | site/assets/js/main.js:158-170 | The default is cancelled iff the key is Tab and one of these holds: there is a single focusable, Shift is held on the first, or Shift is not held on the last. |
| FocusTrap.OtherKeysIgnored | site/assets/js/main.js:158 | Any key other than Tab leaves focus alone and cancels nothing. |
| FocusTrap.FocusStaysInside | site/assets/js/main.js:158-170 | The handler itself never moves focus out of the captured list. If focus starts inside the list, the outcome's focus is inside it for every key. |
| Overlays.ActiveInOrder | site/assets/js/main.js:277 | The list Escape walks holds an overlay iff that overlay is active. |
| Overlays.ActiveInOrderDistinct | site/assets/js/main.js:277 | That list names no overlay twice. |
| Overlays.ActiveInOrderPairOrdered | site/assets/js/main.js:277 | For any two positions i < j of the matched list, the overlay at i comes before the overlay at j among the page's overlays. |
| Overlays.ActiveInOrderKeepsOrder | site/assets/js/main.js:277 | The matched list is in document order: it keeps the relative order of the page's overlays, which is the order the Escape loop closes them in. |
| Overlays.OpenIsIdempotent | site/assets/js/main.js:177 | Opening an active overlay, or no overlay, changes nothing, so a second open is a no-op. |
| Overlays.OpenEstablishes | site/assets/js/main.js:185-197 | After an inactive overlay is opened: it is active and `aria-hidden` is false; scroll is locked; the return target is the trigger, or else the previously focused element; its cleanup is the trap over its own focusables; its handler is attached iff it has focusables; one trap install is recorded; focus is on the first focusable, or on the overlay itself with `tabindex="-1"` when there is none; and the invariant holds. |
| Overlays.OpenPreservesInv | site/assets/js/main.js:176-198 | openOverlay keeps the invariant on every input. |
| Overlays.CloseIsIdempotent | site/assets/js/main.js:201 | Closing an inactive overlay, or no overlay, changes nothing, so a second close runs no second cleanup. |
| Overlays.CloseEstablishes | site/assets/js/main.js:202-214 | After an active overlay is closed: it is inactive and `aria-hidden` is true; its cleanup has run exactly once more and its handler is gone; both map entries are deleted; scroll stays locked iff another overlay is still open; focus is on the recorded target, if there is one; and the invariant holds. |
| Overlays.ClosePreservesInv | site/assets/js/main.js:200-215 | closeOverlay keeps the invariant on every input. |
| Overlays.CloseLeavesOthers | site/assets/js/main.js:204-208 | Closing overlay B leaves another open overlay A alone: A's active flag, cleanup entry, return entry, handler count and `aria-hidden` are unchanged, and scroll stays locked. |
| Overlays.OpenThenCloseRestores | site/assets/js/main.js:176-215 | Opening and then closing an overlay restores the open set, both maps, the attached handlers and the scroll lock. Exactly one trap install and one cleanup are recorded, and focus ends on the return target. |
| Overlays.EscapeCloseEstablishes | site/assets/js/main.js:278-281 | One turn of the Escape loop closes that overlay and runs its cleanup. It resets `aria-expanded` iff the overlay is the burger menu and the toggle exists. |
| Overlays.CloseEachKeepsInv | site/assets/js/main.js:277-282 | Closing a list of distinct open overlays in turn keeps the invariant and closes exactly those overlays. |
| Overlays.CloseEachShape | site/assets/js/main.js:277-282 | The Escape loop leaves open exactly the overlays that were open and are not in its list. |
| Overlays.CloseEachCleansUp | site/assets/js/main.js:277-282 | The loop runs the cleanups in list order. |
| Overlays.CloseEachResetsExpanded | site/assets/js/main.js:279-281 | The loop sets `aria-expanded` to false if the burger menu is in its list and the toggle exists. Otherwise it leaves `aria-expanded` alone. |
| Overlays.CloseAllOpen | site/assets/js/main.js:277-282 | Closing a list that holds exactly the open overlays leaves nothing open, scroll unlocked and both maps empty. It runs the cleanups in list order and keeps `aria-expanded` in sync. |
| Overlays.EscapeClosesEverything | site/assets/js/main.js:275-284 | Escape closes every open overlay, not just the topmost. Afterwards: nothing is open; scroll is unlocked; both maps are empty; the cleanups ran for the open overlays in document order; `aria-expanded` is false if the burger menu was open and the toggle exists; and the invariant and the sync hold. |
| Overlays.EscapeCleansEachOnce | site/assets/js/main.js:275-284 | Escape runs the cleanup of each overlay that was open exactly once more. |
| Overlays.EscapeKeepsInv | site/assets/js/main.js:275-284 | The Escape handler keeps the invariant. |
| Overlays.EscapeKeepsSynced | site/assets/js/main.js:275-284 | The Escape handler keeps `aria-expanded` in sync with the burger menu. |
| Overlays.SetExpandedKeepsInv | site/assets/js/main.js:222 | Writing `aria-expanded` touches none of the bookkeeping. |
| Overlays.ToggleClosesOpenMenu | site/assets/js/main.js:220-222 | Toggling an open burger menu closes it (and nothing else), keeps the invariant, and sets `aria-expanded` to false when the toggle exists. |
| Overlays.ToggleOpensClosedMenu | site/assets/js/main.js:223-225 | Toggling a closed burger menu opens it, with the toggle as its return target. It keeps the invariant and sets `aria-expanded` to true when the toggle exists. |
| Overlays.ToggleTwiceRestoresBurgerState | site/assets/js/main.js:217-228 | Toggling twice brings back the open set and `aria-expanded`. |
| Overlays.TrapKeyOnlyMovesFocus | site/assets/js/main.js:157-171 | The trap listener changes nothing but focus. |
| Overlays.TrapKeyUsesOwnTrap | site/assets/js/main.js:150-174 | In an open overlay that has focusables, a keydown is decided by that overlay's own trap, over the list captured when it opened. |
| Overlays.NoTrapNoEffect | site/assets/js/main.js:152-154 | An overlay that is closed, or has no focusables, has no listener, so keys inside it change nothing. |
| Overlays.TrapKeyKeepsInv | site/assets/js/main.js:157-171 | The trap listener keeps the invariant. |
| Overlays.TrapKeyKeepsSynced | site/assets/js/main.js:157-171 | The trap listener keeps `aria-expanded` in sync. |
| Overlays.InitialIsValid | site/assets/js/main.js:139-146 | Right after setup, the invariant holds and `aria-expanded` is in sync. |
| Overlays.TriggerClickKeepsInv | site/assets/js/main.js:230-239 | A trigger click keeps the invariant. |
| Overlays.TriggerClickSynced | site/assets/js/main.js:230-239 | A trigger click keeps `aria-expanded` in sync, because triggers open only project overlays. |
| Overlays.CloserClickKeepsInv | site/assets/js/main.js:241-248 | A close-control click keeps the invariant. |
| Overlays.CloserClickSynced | site/assets/js/main.js:241-248 | A close-control click keeps `aria-expanded` in sync. |
| Overlays.PointerDownKeepsInv | site/assets/js/main.js:250-263 | A pointerdown on an overlay keeps the invariant, on the backdrop, the root or the content. |
| Overlays.PointerDownSynced | site/assets/js/main.js:250-263 | A pointerdown on an overlay keeps `aria-expanded` in sync. |
| Overlays.BurgerLinkClickKeepsInv | site/assets/js/main.js:265-273 | A click on a burger-menu link keeps the invariant. |
| Overlays.BurgerLinkClickSynced | site/assets/js/main.js:265-273 | A click on a burger-menu link keeps `aria-expanded` in sync. |
| Overlays.BurgerToggleClickKeepsInv | site/assets/js/main.js:217-228 | A click on the burger toggle keeps the invariant. |
| Overlays.BurgerToggleClickSynced | site/assets/js/main.js:217-228 | A click on the burger toggle keeps `aria-expanded` in sync. |
| Overlays.KeydownKeepsInv | site/assets/js/main.js:275-284 | A keydown keeps the invariant: first the trap listener, then the document's. |
| Overlays.KeydownSynced | site/assets/js/main.js:275-284 | A keydown keeps `aria-expanded` in sync. |
| Overlays.StepKeepsInv | site/assets/js/main.js:230-284 | Every listener, and any focus move by the user, keeps the invariant. |
| Overlays.StepKeepsSynced | site/assets/js/main.js:230-284 | Every listener, and any focus move by the user, keeps `aria-expanded` in sync. |
| Overlays.RunKeepsInv | site/assets/js/main.js:139-285 | Over any sequence of events the invariant holds: only overlays are open; an overlay has a cleanup and a return target iff it is open; scroll is locked iff some overlay is open; `aria-hidden` mirrors the open state; an open overlay with focusables has exactly one listener; and every trap installed has been cleaned up once, except the traps of overlays still open. |
| Overlays.RunKeepsSynced | site/assets/js/main.js:139-285 | Over any sequence of events, `aria-expanded` is true iff the burger menu is open. |
| Overlays.ScrollLockedIffSomeOverlayOpen | site/assets/js/main.js:187-211 | From page load on, the body's scroll is locked exactly while some overlay is open. |
| Overlays.AriaExpandedIffMenuOpen | site/assets/js/main.js:217-228 | From page load on, the toggle's `aria-expanded` is "true" exactly while the burger menu is open. |
| Overlays.Initial | site/assets/js/main.js:139-146 | The state right after setupOverlays: nothing open, both maps empty, no listener, `aria-expanded` false. This function has no contract of its own; see InitialIsValid and the page-load assumption under "## Left out". |
| Overlays.TrapFocus | site/assets/js/main.js:150-154 | trapFocus's captured list and cleanup for a container. This function has no contract of its own; see OpenEstablishes (the cleanup recorded at open) and TrapKeyUsesOwnTrap. |
| Overlays.Attach | site/assets/js/main.js:172 | `addEventListener` for a trap with focusables: one more listener on the container. This function has no contract of its own; see OneHandlerPerOpenTrap in RunKeepsInv. |
| Overlays.Detach | site/assets/js/main.js:173 | The cleanup closure's `removeEventListener`: one listener fewer when the trap had focusables. This function has no contract of its own; see CloseEstablishes. |
| Overlays.TrapKey | site/assets/js/main.js:157-171 | The trap listener of a container, decided by `FocusTrap.OnKeydown` over the list captured at open. This function has no contract of its own; see TrapKeyOnlyMovesFocus, TrapKeyUsesOwnTrap, NoTrapNoEffect and TrapKeyKeepsInv. |
| Overlays.Open | site/assets/js/main.js:176-198 | The openOverlay transition. This function has no contract of its own; see OpenIsIdempotent, OpenEstablishes, OpenPreservesInv and OpenThenCloseRestores. |
| Overlays.Close | site/assets/js/main.js:200-215 | The closeOverlay transition. This function has no contract of its own; see CloseIsIdempotent, CloseEstablishes, ClosePreservesInv and CloseLeavesOthers. |
| Overlays.SetExpanded | site/assets/js/main.js:222 | The `aria-expanded` write, done only when the toggle exists (also main.js:225, 260, 270 and 280). This function has no contract of its own; see SetExpandedKeepsInv and the Synced lemmas. |
| Overlays.ToggleBurgerMenu | site/assets/js/main.js:217-228 | The toggleBurgerMenu transition. This function has no contract of its own; see ToggleClosesOpenMenu, ToggleOpensClosedMenu and ToggleTwiceRestoresBurgerState. |
| Overlays.EscapeClose | site/assets/js/main.js:278-281 | One turn of the Escape loop. This function has no contract of its own; see EscapeCloseEstablishes. |
| Overlays.CloseEach | site/assets/js/main.js:277-282 | The Escape loop over a list, closing each overlay in turn. This function has no contract of its own; see CloseEachShape, CloseEachKeepsInv, CloseEachCleansUp and CloseEachResetsExpanded. |
| Overlays.OnDocumentKeydown | site/assets/js/main.js:275-284 | The document keydown listener. This function has no contract of its own; see EscapeClosesEverything and EscapeCleansEachOnce. |
| Overlays.Step | site/assets/js/main.js:230-284 | One event delivered to the listeners that setupOverlays installs, or a focus move by the user. This function has no contract of its own; see StepKeepsInv and StepKeepsSynced. |
| Overlays.Run | site/assets/js/main.js:139-285 | A sequence of events delivered in turn. This function has no contract of its own; see RunKeepsInv, RunKeepsSynced, ScrollLockedIffSomeOverlayOpen and AriaExpandedIffMenuOpen. |
| OverlayManager.Manager.constructor | site/assets/js/main.js:139-146 | Setup leaves the manager in the initial state: nothing open, `aria-expanded` false. The invariant holds. |
| OverlayManager.Manager.TrapFocus | site/assets/js/main.js:150-174 | trapFocus returns the cleanup over the focusables captured now. It attaches a listener iff there are any, and records one install. |
| OverlayManager.Manager.RunCleanup | site/assets/js/main.js:173 | Running a cleanup removes its listener, if any, and records one cleanup. |
| OverlayManager.Manager.OpenOverlay | site/assets/js/main.js:176-198 | openOverlay performs the `Overlays.Open` transition, one DOM or map write at a time, and keeps the invariant. |
| OverlayManager.Manager.CloseOverlay | site/assets/js/main.js:200-215 | closeOverlay performs the `Overlays.Close` transition and keeps the invariant. |
| OverlayManager.Manager.SetExpanded | site/assets/js/main.js:222 | The `aria-expanded` write changes that field alone, and only when the toggle exists. |
| OverlayManager.Manager.SetActiveClass | site/assets/js/main.js:185 | Adding or removing the `active` class changes the open set by that overlay and nothing else (also main.js:202). |
| OverlayManager.Manager.SetAriaHidden | site/assets/js/main.js:186 | Writing `aria-hidden` sets that overlay's entry and nothing else (also main.js:203). |
| OverlayManager.Manager.SetScrollLocked | site/assets/js/main.js:187 | Writing `overflow` on the body sets the scroll lock and nothing else (also main.js:210). |
| OverlayManager.Manager.RecordReturn | site/assets/js/main.js:188 | `focusReturnMap.set` records the return target for that overlay and nothing else. |
| OverlayManager.Manager.TakeReturn | site/assets/js/main.js:207-208 | It returns the recorded return target, if any, and deletes the entry. Nothing else changes. |
| OverlayManager.Manager.RegisterCleanup | site/assets/js/main.js:190 | `focusCleanupMap.set` records the cleanup for that overlay and nothing else. |
| OverlayManager.Manager.DeleteCleanup | site/assets/js/main.js:206 | `focusCleanupMap.delete` removes that overlay's entry and nothing else. |
| OverlayManager.Manager.SetTabindexFallback | site/assets/js/main.js:195 | Setting `tabindex="-1"` marks the overlay focusable and nothing else. |
| OverlayManager.Manager.Focus | site/assets/js/main.js:193 | `focus()` moves focus to the element and nothing else (also main.js:196 and 213). |
| OverlayManager.Manager.EscapeCloseOne | site/assets/js/main.js:278-281 | One turn of the Escape loop ends in `Overlays.EscapeClose` of the old state and keeps the invariant. |
| OverlayManager.Manager.ToggleBurgerMenu | site/assets/js/main.js:217-228 | toggleBurgerMenu performs the toggle transition and keeps the invariant and the sync. |
| OverlayManager.Manager.OnDocumentKeydown | site/assets/js/main.js:275-284 | The Escape loop closes the matched overlays in document order, with invariant `Snapshot() == CloseEach(…, toClose[..i])`. It ends in the state of `Overlays.OnDocumentKeydown` and keeps the invariant and the sync. |
| OverlayManager.Manager.TrapKeydown | site/assets/js/main.js:157-171 | The trap listener performs `Overlays.TrapKey`. It reports a cancelled default iff the overlay is open, has focusables, and `FocusTrap.OnKeydown` cancels. |
| OverlayManager.Manager.OnTriggerClick | site/assets/js/main.js:230-239 | A trigger click performs its `Step` and keeps the invariant and the sync. |
| OverlayManager.Manager.OnCloserClick | site/assets/js/main.js:241-248 | A close-control click performs its `Step` and keeps the invariant and the sync. |
| OverlayManager.Manager.OnPointerDown | site/assets/js/main.js:250-263 | A pointerdown performs its `Step` and keeps the invariant and the sync. |
| OverlayManager.Manager.OnBurgerLinkClick | site/assets/js/main.js:265-273 | A burger-link click performs its `Step` and keeps the invariant and the sync. |
| OverlayManager.Manager.OnKeydown | site/assets/js/main.js:275-284 | A keydown runs the trap listener and then the document's. It ends in the state of `Step`, reports whether the trap cancelled the default, and keeps the invariant and the sync. |
| OverlayManager.Manager.OnFocusMoved | site/assets/js/main.js:188 | A focus move by the user changes only the element `document.activeElement` reports, which openOverlay reads here and the trap reads at main.js:164-167. It ends in `Step` of the old state and keeps the invariant and the sync. |
| FrameGuard.Setup | site/assets/js/main.js:94-98 | The loop is enabled iff reduced motion is off and there are tiles. Animate has not run yet. |
| FrameGuard.SetupIsValid | site/assets/js/main.js:94-136 | After setup the guard's invariant holds, with exactly one request outstanding when enabled and none otherwise. |
| FrameGuard.RestartRequestsOnlyWhenIdle | site/assets/js/main.js:118-122 | restart requests a frame only when `raf` holds none. The new request is then the only one and `raf` holds it. Otherwise nothing changes. |
| FrameGuard.StopCancels | site/assets/js/main.js:123-128 | stop cancels the held request and clears `raf`, so no request is outstanding. |
| FrameGuard.FireReRequestsOne | site/assets/js/main.js:116 | Each run of animate consumes its frame and requests exactly one new frame, with a fresh handle, which `raf` then holds. |
| FrameGuard.RestartIsIdempotent | site/assets/js/main.js:118-122 | A second restart changes nothing. |
| FrameGuard.StopIsIdempotent | site/assets/js/main.js:123-128 | A second stop changes nothing. |
| FrameGuard.StepKeepsInv | site/assets/js/main.js:129-135 | The visibility listener and the frame callback keep the guard's invariant. |
| FrameGuard.RunKeepsInv | site/assets/js/main.js:116-136 | Over any sequence of visibility changes and frames, the only outstanding request is the one `raf` holds. |
| FrameGuard.AtMostOneOutstanding | site/assets/js/main.js:116-136 | From setup on, at most one frame request is outstanding at any time. |
| FrameGuard.DisabledNeverTicks | site/assets/js/main.js:95-97 | With reduced motion or no tiles, nothing ever changes: no frame is requested and animate never runs. |
| FrameGuard.HiddenHoldsNoFrame | site/assets/js/main.js:129-131 | Once the page is hidden no request is outstanding, and a second hidden signal changes nothing. |
| FrameGuard.VisibleResumes | site/assets/js/main.js:132-133 | Becoming visible leaves exactly one request outstanding. |
| FrameGuard.Request | site/assets/js/main.js:120 | `raf = requestAnimationFrame(animate)` under a fresh handle (also main.js:116). This function has no contract of its own; see RestartRequestsOnlyWhenIdle and FireReRequestsOne. |
| FrameGuard.Restart | site/assets/js/main.js:118-122 | The restart transition. This function has no contract of its own; see RestartRequestsOnlyWhenIdle and RestartIsIdempotent. |
| FrameGuard.Stop | site/assets/js/main.js:123-128 | The stop transition. This function has no contract of its own; see StopCancels and StopIsIdempotent. |
| FrameGuard.Fire | site/assets/js/main.js:99-116 | The browser runs the animate callback of a pending frame. This function has no contract of its own; see FireReRequestsOne. |
| FrameGuard.Step | site/assets/js/main.js:129-135 | A visibility change delivered to the listener, or a frame fired. This function has no contract of its own; see StepKeepsInv, HiddenHoldsNoFrame and VisibleResumes. |
| FrameGuard.Run | site/assets/js/main.js:129-136 | A sequence of signals delivered in turn. This function has no contract of its own; see RunKeepsInv, AtMostOneOutstanding and DisabledNeverTicks. |
| FrameLoop.Loop.constructor | site/assets/js/main.js:94-137 | setupTileFloat leaves the guard in the `Setup` state. |
| FrameLoop.Loop.RequestAnimationFrame | site/assets/js/main.js:120 | The browser queues the callback under a fresh handle. |
| FrameLoop.Loop.CancelAnimationFrame | site/assets/js/main.js:125 | The browser drops that handle from its queue. |
| FrameLoop.Loop.Restart | site/assets/js/main.js:118-122 | restart performs `FrameGuard.Restart` and keeps the invariant. |
| FrameLoop.Loop.Stop | site/assets/js/main.js:123-128 | stop performs `FrameGuard.Stop` and keeps the invariant. |
| FrameLoop.Loop.Animate | site/assets/js/main.js:99-116 | A fired frame runs animate, which performs `FrameGuard.Fire` and keeps the invariant. |
| FrameLoop.Loop.OnVisibilityChange | site/assets/js/main.js:129-135 | The visibility listener performs its `Step` and keeps the invariant. |

## Left out

- Overlays.Initial: the page is assumed to load with no overlay carrying the `active` class and with the body's `overflow` not hidden. setupOverlays (main.js:139-146) resets neither. `Overlays.InitialIsValid`, `Overlays.ScrollLockedIffSomeOverlayOpen`, `Overlays.AriaExpandedIffMenuOpen` and `OverlayManager.Manager.constructor` start from that state.
- FocusTrap.FocusStaysInside: when the handler lets a Tab through, the browser moves focus to the next element in its own tab order. main.js does not keep that move inside the list: a positive `tabindex` elsewhere on the page, or an `input[type=hidden]` that the selector matches, can take focus out. The lemma covers only the focus the handler itself sets.
- Overlays.Page: the markup is assumed to give `#burger-menu` the class `burger-menu-overlay` and not `project-overlay`, to have no other `.burger-menu-overlay`, and to give every other overlay the class `project-overlay`. The source tells the burger menu apart by class at main.js:243 and 252, and by id at main.js:279. The model decides all three by `p.burgerMenu == Some(o)`.
- The decorative effects are not modelled: site/assets/js/holobiontic.js as a whole, the float and tilt arithmetic (main.js:67-79, 101-114) and the transform-origin percentages (main.js:179-183). They are floating-point `sin`/`cos`, divisions and `toFixed` formatting written into style strings. `FrameGuard.Fire` counts the runs of animate in `ticks` in their place, and the `time` argument is not modelled.
- setupTileTilt's per-pointer-move frame coalescing is not modelled. Only the float loop's guard is.
- revealOnScroll, setupScrollReveal, smoothScroll and setupTileBackgrounds (main.js:1-59) are not modelled. They are wiring over IntersectionObserver and scrollIntoView.
- The newsletter and contact forms (main.js:287-384), the site notice and the rhizome toggle (main.js:387-419) are not modelled. They are network requests and DOM plumbing.
- CSS selector matching is not carried out:
  - the focusable selector (main.js:140) is replaced by a given list of focusable descendants per overlay;
  - `.project-overlay` and `.burger-menu-overlay` are replaced by the page's overlay list;
  - the `.active` queries (main.js:209, 277) are replaced by the open set, taken in document order.
- The trigger markup is assumed well formed. `[data-overlay-id]` must resolve to a project overlay (`Overlays.EventOk`); the method `OpenOverlay` requires that its argument is an overlay. An id that resolves to some other element would get the `active` class without the scroll query ever seeing it.
- FocusTrap.OnKeydown: when the handler does not cancel the default, the browser's own Tab navigation moves focus. The handler's outcome leaves focus where it was, because the browser's tab order is not modelled. That move, like any other focus change the user makes (a click, say), is the separate event `Overlays.FocusMoved`, which may name any element or none.
- `Overlays.Close`: every recorded return target is treated as focusable, so the `typeof returnTarget.focus === 'function'` test (main.js:212) always passes. Calling `focus()` is taken to move focus even to an element that cannot take it.
- Keydown events are delivered to the trap of at most one overlay. With overlays nested in the DOM, a keydown would bubble through several trap listeners, and this is not modelled.
- `preventScroll`, `event.preventDefault()` on trigger clicks, and the global `window.toggleBurgerMenu` binding are not modelled. The binding is the method `ToggleBurgerMenu`.
- Frame handles are modelled as positive, increasing numbers, as `requestAnimationFrame` returns. That is what makes `!raf` the same test as "no handle held".
