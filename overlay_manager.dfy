/** The overlay manager of setupOverlays (main.js:139-285) as the script runs it:
    one object whose fields are the DOM state and the two WeakMaps, and whose
    methods update them in place, each proved to perform the transition of the
    same name in module Overlays. */
module OverlayManager {
  import opened Common
  import FocusTrap
  import opened Overlays

  class Manager {
    /** The page as the script found it at setup. */
    const page: Page

    var active: set<Element>
    var ariaHidden: map<Element, bool>
    var cleanups: map<Element, Trap>
    var returnTo: map<Element, Option<Element>>
    var scrollLocked: bool
    var focused: Option<Element>
    var ariaExpanded: bool
    var tabindexFallback: set<Element>
    var handlers: multiset<Element>
    var installed: seq<Element>
    var cleanedUp: seq<Element>

    /** The fields as one value of the transition system. */
    function Snapshot(): (r: State)
      reads this
    {
      Overlays.State(active, ariaHidden, cleanups, returnTo, scrollLocked, focused,
                     ariaExpanded, tabindexFallback, handlers, installed, cleanedUp)
    }

    /** The bookkeeping invariant over a well-formed page. */
    ghost predicate Valid()
      reads this
    {
      WellFormed(page) && Inv(page, Snapshot())
    }

    /** Whether aria-expanded agrees with the burger menu's state. */
    ghost predicate InSync()
      reads this
    {
      Synced(page, Snapshot())
    }

    /** setupOverlays: nothing open, aria-expanded "false" (main.js:143-146). */
    constructor (p: Page, initialFocus: Option<Element>)
      requires WellFormed(p)
      ensures page == p && Snapshot() == Initial(initialFocus)
      ensures Valid() && InSync()
    {
      page := p;
      active := {};
      ariaHidden := map[];
      cleanups := map[];
      returnTo := map[];
      scrollLocked := false;
      focused := initialFocus;
      ariaExpanded := false;
      tabindexFallback := {};
      handlers := multiset{};
      installed := [];
      cleanedUp := [];
      new;
      InitialIsValid(p, initialFocus);
    }

    // The DOM and WeakMap operations the script performs, one field each.

    /** overlay.classList.add('active') or .remove('active'). */
    method SetActiveClass(o: Element, on: bool)
      modifies this
      ensures Snapshot() == old(Snapshot()).(active := if on then old(active) + {o} else old(active) - {o})
    {
      if on {
        active := active + {o};
      } else {
        active := active - {o};
      }
    }

    /** overlay.setAttribute('aria-hidden', …). */
    method SetAriaHidden(o: Element, hidden: bool)
      modifies this
      ensures Snapshot() == old(Snapshot()).(ariaHidden := old(ariaHidden)[o := hidden])
    {
      ariaHidden := ariaHidden[o := hidden];
    }

    /** document.body.style.overflow = 'hidden' or ''. */
    method SetScrollLocked(locked: bool)
      modifies this
      ensures Snapshot() == old(Snapshot()).(scrollLocked := locked)
    {
      scrollLocked := locked;
    }

    /** focusReturnMap.set(overlay, target). */
    method RecordReturn(o: Element, target: Option<Element>)
      modifies this
      ensures Snapshot() == old(Snapshot()).(returnTo := old(returnTo)[o := target])
    {
      returnTo := returnTo[o := target];
    }

    /** focusReturnMap.get(overlay) followed by focusReturnMap.delete(overlay). */
    method TakeReturn(o: Element) returns (target: Option<Element>)
      modifies this
      ensures target == if o in old(returnTo) then old(returnTo)[o] else None
      ensures Snapshot() == old(Snapshot()).(returnTo := old(returnTo) - {o})
    {
      target := if o in returnTo then returnTo[o] else None;
      returnTo := returnTo - {o};
    }

    /** focusCleanupMap.set(overlay, cleanup). */
    method RegisterCleanup(o: Element, cleanup: Trap)
      modifies this
      ensures Snapshot() == old(Snapshot()).(cleanups := old(cleanups)[o := cleanup])
    {
      cleanups := cleanups[o := cleanup];
    }

    /** focusCleanupMap.delete(overlay). */
    method DeleteCleanup(o: Element)
      modifies this
      ensures Snapshot() == old(Snapshot()).(cleanups := old(cleanups) - {o})
    {
      cleanups := cleanups - {o};
    }

    /** overlay.setAttribute('tabindex', '-1'). */
    method SetTabindexFallback(o: Element)
      modifies this
      ensures Snapshot() == old(Snapshot()).(tabindexFallback := old(tabindexFallback) + {o})
    {
      tabindexFallback := tabindexFallback + {o};
    }

    /** element.focus(). */
    method Focus(e: Element)
      modifies this
      ensures Snapshot() == old(Snapshot()).(focused := Some(e))
    {
      focused := Some(e);
    }

    /** trapFocus(container), main.js:150-174: captures the focusables, attaches the
        keydown listener when there are any, and returns the cleanup. */
    method TrapFocus(container: Element) returns (cleanup: Trap)
      modifies this
      ensures cleanup == Overlays.TrapFocus(page, container)
      ensures Snapshot() == old(Snapshot()).(handlers := Attach(old(handlers), cleanup),
                                       installed := old(installed) + [container])
    {
      var fs := Focusables(page, container);
      cleanup := Trap(container, fs);
      if |fs| > 0 {
        handlers := handlers + multiset{container};
      }
      installed := installed + [container];
    }

    /** Invoking a cleanup returned by trapFocus: it removes the listener, if any. */
    method RunCleanup(cleanup: Trap)
      modifies this
      ensures Snapshot() == old(Snapshot()).(handlers := Detach(old(handlers), cleanup),
                                       cleanedUp := old(cleanedUp) + [cleanup.container])
    {
      if |cleanup.focusables| > 0 {
        handlers := handlers - multiset{cleanup.container};
      }
      cleanedUp := cleanedUp + [cleanup.container];
    }

    /** `if (burgerToggle) burgerToggle.setAttribute('aria-expanded', …)`. */
    method SetExpanded(b: bool)
      requires Valid()
      modifies this
      ensures Snapshot() == Overlays.SetExpanded(page, old(Snapshot()), b)
      ensures Valid()
    {
      SetExpandedKeepsInv(page, Snapshot(), b);
      if page.burgerToggle.Some? {
        ariaExpanded := b;
      }
    }

    /** openOverlay(overlay, trigger), main.js:176-198. */
    method OpenOverlay(overlay: Option<Element>, trigger: Option<Element>)
      requires Valid() && (overlay.Some? ==> overlay.value in page.overlays)
      modifies this
      ensures Snapshot() == Open(page, old(Snapshot()), overlay, trigger)
      ensures Valid()
    {
      ghost var s0 := Snapshot();
      OpenPreservesInv(page, s0, overlay, trigger);
      if overlay.None? || overlay.value in active {
        return;
      }
      var o := overlay.value;
      SetActiveClass(o, true);
      SetAriaHidden(o, false);
      SetScrollLocked(true);
      RecordReturn(o, if trigger.Some? then trigger else focused);
      var cleanup := TrapFocus(o);
      RegisterCleanup(o, cleanup);
      assert Snapshot() == s0.(active := s0.active + {o}, ariaHidden := s0.ariaHidden[o := false],
                            scrollLocked := true, returnTo := s0.returnTo[o := if trigger.Some? then trigger else s0.focused],
                            handlers := Attach(s0.handlers, cleanup), installed := s0.installed + [o],
                            cleanups := s0.cleanups[o := cleanup]);
      var fs := Focusables(page, o);
      if |fs| > 0 {
        Focus(fs[0]);
      } else {
        SetTabindexFallback(o);
        Focus(o);
      }
    }

    /** closeOverlay(overlay), main.js:200-215. */
    method CloseOverlay(overlay: Option<Element>)
      requires Valid()
      modifies this
      ensures Snapshot() == Close(page, old(Snapshot()), overlay)
      ensures Valid()
    {
      ghost var s0 := Snapshot();
      ClosePreservesInv(page, s0, overlay);
      if overlay.None? || overlay.value !in active {
        return;
      }
      var o := overlay.value;
      SetActiveClass(o, false);
      SetAriaHidden(o, true);
      if o in cleanups {
        RunCleanup(cleanups[o]);
      }
      DeleteCleanup(o);
      var target := TakeReturn(o);
      if !AnyActive(page, active) {
        SetScrollLocked(false);
      }
      if target.Some? {
        Focus(target.value);
      }
    }

    /** window.toggleBurgerMenu, main.js:217-228. */
    method ToggleBurgerMenu()
      requires Valid() && InSync()
      modifies this
      ensures Snapshot() == Overlays.ToggleBurgerMenu(page, old(Snapshot()))
      ensures Valid() && InSync()
    {
      ghost var s0 := Snapshot();
      if page.burgerMenu.Some? {
        if page.burgerMenu.value in active {
          CloseOverlay(page.burgerMenu);
          SetExpanded(false);
        } else {
          OpenOverlay(page.burgerMenu, page.burgerToggle);
          SetExpanded(true);
        }
      }
      BurgerToggleClickSynced(page, s0);
    }

    /** One turn of the Escape loop, main.js:278-281. */
    method EscapeCloseOne(o: Element)
      requires Valid()
      modifies this
      ensures Snapshot() == EscapeClose(page, old(Snapshot()), o)
      ensures Valid()
    {
      CloseOverlay(Some(o));
      if page.burgerMenu == Some(o) {
        SetExpanded(false);
      }
    }

    /** The document keydown listener, main.js:275-284: on Escape, closes every
        overlay matched at that moment, in document order, and resets aria-expanded
        when the burger menu is among them. */
    method OnDocumentKeydown(key: Key)
      requires Valid() && InSync()
      modifies this
      ensures Snapshot() == Overlays.OnDocumentKeydown(page, old(Snapshot()), key)
      ensures Valid() && InSync()
    {
      ghost var s0 := Snapshot();
      if key == Escape {
        var toClose := ActiveInOrder(page.overlays, active);
        var i := 0;
        while i < |toClose|
          invariant 0 <= i <= |toClose|
          invariant Snapshot() == CloseEach(page, s0, toClose[..i])
          invariant Valid()
        {
          EscapeCloseOne(toClose[i]);
          CloseEachExtend(page, s0, toClose, i);
          i := i + 1;
        }
        assert toClose[..i] == toClose;
        EscapeKeepsSynced(page, s0);
      }
    }

    /** The keydown listener trapFocus attached to `container`, if it is attached;
        returns whether it called preventDefault. */
    method TrapKeydown(container: Element, key: Key, shift: bool) returns (prevented: bool)
      requires Valid()
      modifies this
      ensures Snapshot() == TrapKey(page, old(Snapshot()), container, key, shift)
      ensures prevented <==> container in old(active) && |Focusables(page, container)| > 0
                             && FocusTrap.OnKeydown(Focusables(page, container), old(focused), key, shift).prevented
      ensures Valid()
    {
      ghost var s0 := Snapshot();
      TrapKeyKeepsInv(page, s0, container, key, shift);
      if container in active && |Focusables(page, container)| > 0 {
        TrapKeyUsesOwnTrap(page, s0, container, key, shift);
      } else {
        NoTrapNoEffect(page, s0, container, key, shift);
      }
      prevented := false;
      if handlers[container] > 0 && container in cleanups && |cleanups[container].focusables| > 0 {
        var outcome := FocusTrap.OnKeydown(cleanups[container].focusables, focused, key, shift);
        focused := outcome.focus;
        prevented := outcome.prevented;
      }
    }

    /** A click on a [data-type="overlay"] trigger whose target resolved to
        `overlay` (main.js:230-239). */
    method OnTriggerClick(overlay: Option<Element>, trigger: Element)
      requires Valid() && InSync() && EventOk(page, TriggerClick(overlay, trigger))
      modifies this
      ensures Snapshot() == Step(page, old(Snapshot()), TriggerClick(overlay, trigger))
      ensures Valid() && InSync()
    {
      ghost var s0 := Snapshot();
      if overlay.Some? {
        OpenOverlay(overlay, Some(trigger));
      }
      TriggerClickSynced(page, s0, overlay, trigger);
    }

    /** A click on a [data-close-overlay] element inside `overlay` (main.js:241-248). */
    method OnCloserClick(overlay: Option<Element>)
      requires Valid() && InSync() && EventOk(page, CloserClick(overlay))
      modifies this
      ensures Snapshot() == Step(page, old(Snapshot()), CloserClick(overlay))
      ensures Valid() && InSync()
    {
      ghost var s0 := Snapshot();
      if overlay.Some? {
        CloseOverlay(overlay);
      }
      CloserClickSynced(page, s0, overlay);
    }

    /** A pointerdown on `overlay` (main.js:250-263). */
    method OnPointerDown(overlay: Element, at: PointerTarget)
      requires Valid() && InSync() && EventOk(page, PointerDown(overlay, at))
      modifies this
      ensures Snapshot() == Step(page, old(Snapshot()), PointerDown(overlay, at))
      ensures Valid() && InSync()
    {
      ghost var s0 := Snapshot();
      if page.burgerMenu != Some(overlay) {
        if at == Backdrop || at == OverlayRoot {
          CloseOverlay(Some(overlay));
        }
      } else if at == OverlayRoot {
        CloseOverlay(Some(overlay));
        SetExpanded(false);
      }
      PointerDownSynced(page, s0, overlay, at);
    }

    /** A click on a link inside #burger-menu (main.js:265-273). */
    method OnBurgerLinkClick()
      requires Valid() && InSync()
      modifies this
      ensures Snapshot() == Step(page, old(Snapshot()), BurgerLinkClick)
      ensures Valid() && InSync()
    {
      ghost var s0 := Snapshot();
      if page.burgerMenu.Some? {
        CloseOverlay(page.burgerMenu);
        SetExpanded(false);
      }
      BurgerLinkClickSynced(page, s0);
    }

    /** A keydown inside overlay `inside` (or outside every overlay) bubbles to the
        trap's listener first, then to the document's. */
    method OnKeydown(inside: Option<Element>, key: Key, shift: bool) returns (prevented: bool)
      requires Valid() && InSync()
      modifies this
      ensures Snapshot() == Step(page, old(Snapshot()), Keydown(inside, key, shift))
      ensures prevented <==> inside.Some? && inside.value in old(active) && |Focusables(page, inside.value)| > 0
                             && FocusTrap.OnKeydown(Focusables(page, inside.value), old(focused), key, shift).prevented
      ensures Valid() && InSync()
    {
      ghost var s0 := Snapshot();
      prevented := false;
      if inside.Some? {
        prevented := TrapKeydown(inside.value, key, shift);
        TrapKeyKeepsSynced(page, s0, inside.value, key, shift);
      }
      ghost var s1 := Snapshot();
      assert Step(page, s0, Keydown(inside, key, shift)) == Overlays.OnDocumentKeydown(page, s1, key);
      OnDocumentKeydown(key);
    }

    /** The user moves focus (a click, or a Tab the trap lets through): only
        document.activeElement changes. */
    method OnFocusMoved(to: Option<Element>)
      requires Valid() && InSync()
      modifies this
      ensures Snapshot() == Step(page, old(Snapshot()), FocusMoved(to))
      ensures Valid() && InSync()
    {
      FocusKeepsInv(page, Snapshot(), to);
      focused := to;
    }
  }
}
