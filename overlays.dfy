/** The overlay manager of setupOverlays (main.js:139-285) as a state machine on
    values: every handler is a function from the old state to the new one, and the
    lemmas state what the handlers promise over any sequence of events. */
module Overlays {
  import opened Common
  import FocusTrap

  /** The page as setupOverlays finds it; none of it changes afterwards.
      `overlays` are the elements matching `.project-overlay, .burger-menu-overlay`
      in document order; `focusables` gives what getFocusable(container) returns for
      each of them (an overlay absent from the map has none); `burgerMenu` is
      #burger-menu, the one `.burger-menu-overlay`; `burgerToggle` is `.burger-toggle`. */
  datatype Page = Page(
    overlays: seq<Element>,
    focusables: map<Element, seq<Element>>,
    burgerMenu: Option<Element>,
    burgerToggle: Option<Element>)

  ghost predicate Distinct(xs: seq<Element>) {
    forall i, j :: 0 <= i < j < |xs| ==> xs[i] != xs[j]
  }

  ghost predicate WellFormed(p: Page) {
    Distinct(p.overlays)
    && (p.burgerMenu.Some? ==> p.burgerMenu.value in p.overlays)
  }

  function Focusables(p: Page, o: Element): (r: seq<Element>) {
    if o in p.focusables then p.focusables[o] else []
  }

  /** An overlay that carries `.project-overlay` (every overlay but the burger menu). */
  predicate IsProjectOverlay(p: Page, o: Element) {
    o in p.overlays && p.burgerMenu != Some(o)
  }

  /** The cleanup closure that trapFocus returns: it removes the keydown handler
      from `container`, or does nothing when the captured list was empty. */
  datatype Trap = Trap(container: Element, focusables: seq<Element>)

  /** Everything the overlay manager reads or writes.
      - active: overlays carrying the `active` class
      - ariaHidden: the aria-hidden attributes the script has written
      - cleanups: focusCleanupMap; returnTo: focusReturnMap
      - scrollLocked: document.body.style.overflow is 'hidden'
      - focused: document.activeElement (null is None)
      - ariaExpanded: the burger toggle's aria-expanded is "true"
      - tabindexFallback: overlays the script gave tabindex="-1"
      - handlers: containers with a trap keydown listener attached (with multiplicity)
      - installed, cleanedUp: the overlays for which trapFocus ran, and for which
        a cleanup ran, in call order */
  datatype State = State(
    active: set<Element>,
    ariaHidden: map<Element, bool>,
    cleanups: map<Element, Trap>,
    returnTo: map<Element, Option<Element>>,
    scrollLocked: bool,
    focused: Option<Element>,
    ariaExpanded: bool,
    tabindexFallback: set<Element>,
    handlers: multiset<Element>,
    installed: seq<Element>,
    cleanedUp: seq<Element>)

  /** The state right after setupOverlays: nothing open, aria-expanded "false"
      (only written when the toggle exists, main.js:144-146). */
  function Initial(focused: Option<Element>): (r: State) {
    State({}, map[], map[], map[], false, focused, false, {}, multiset{}, [], [])
  }

  /** The bookkeeping invariant the manager keeps: only overlays are open; an overlay
      has a cleanup and a return-focus entry iff it is open, and its cleanup is the
      trap over its own focusables; scroll is locked iff some overlay is open;
      aria-hidden mirrors the open state; a trap handler is attached (once) iff the
      overlay is open and has focusables; and every trap installed has been
      cleaned up exactly once, except the one of each overlay still open. */
  ghost predicate Inv(p: Page, s: State) {
    OnlyOverlaysOpen(p, s) && EntriesMatchOpen(p, s) && (s.scrollLocked <==> s.active != {})
    && AriaHiddenMirrors(s) && OneHandlerPerOpenTrap(p, s) && CleanupsBalanced(s)
  }

  ghost predicate OnlyOverlaysOpen(p: Page, s: State) {
    forall o :: o in s.active ==> o in p.overlays
  }

  ghost predicate EntriesMatchOpen(p: Page, s: State) {
    s.cleanups.Keys == s.active && s.returnTo.Keys == s.active
    && forall o :: o in s.cleanups ==> s.cleanups[o] == Trap(o, Focusables(p, o))
  }

  ghost predicate AriaHiddenMirrors(s: State) {
    s.active <= s.ariaHidden.Keys
    && forall o :: o in s.ariaHidden ==> (s.ariaHidden[o] <==> o !in s.active)
  }

  /** At most one handler per overlay, only on open ones, and on every open
      overlay that has something to focus. */
  ghost predicate OneHandlerPerOpenTrap(p: Page, s: State) {
    s.handlers <= multiset(s.active)
    && forall o :: o in s.active ==> (o in s.handlers <==> |Focusables(p, o)| > 0)
  }

  /** Every trap installed was cleaned up once, except those of the open overlays. */
  ghost predicate CleanupsBalanced(s: State) {
    multiset(s.installed) == multiset(s.cleanedUp) + multiset(s.active)
  }

  /** The burger toggle's aria-expanded mirrors whether the burger menu is open. */
  ghost predicate Synced(p: Page, s: State) {
    if p.burgerToggle.None? then !s.ariaExpanded
    else s.ariaExpanded <==> (p.burgerMenu.Some? && p.burgerMenu.value in s.active)
  }

  /** Whether `.project-overlay.active, .burger-menu-overlay.active` matches anything. */
  predicate AnyActive(p: Page, active: set<Element>) {
    exists o :: o in p.overlays && o in active
  }

  /** trapFocus(o): the cleanup closure it returns, over the focusables it captured. */
  function TrapFocus(p: Page, o: Element): (r: Trap) {
    Trap(o, Focusables(p, o))
  }

  /** The keydown listener trapFocus attaches, only when there is something to focus. */
  function Attach(handlers: multiset<Element>, t: Trap): (r: multiset<Element>) {
    if |t.focusables| > 0 then handlers + multiset{t.container} else handlers
  }

  /** What invoking the cleanup closure does: it detaches that listener, if any. */
  function Detach(handlers: multiset<Element>, t: Trap): (r: multiset<Element>) {
    if |t.focusables| > 0 then handlers - multiset{t.container} else handlers
  }

  /** openOverlay(overlay, trigger), main.js:176-198: the `active` class and
      aria-hidden="false", overflow hidden, the return target (the trigger, or else
      the focused element), the trap and its cleanup, then focus on the first
      focusable or, lacking one, on the overlay made focusable by tabindex="-1". */
  function Open(p: Page, s: State, overlay: Option<Element>, trigger: Option<Element>): (r: State) {
    if overlay.None? || overlay.value in s.active then s
    else
      var o := overlay.value;
      var t := TrapFocus(p, o);
      s.(active := s.active + {o},
         ariaHidden := s.ariaHidden[o := false],
         scrollLocked := true,
         returnTo := s.returnTo[o := if trigger.Some? then trigger else s.focused],
         handlers := Attach(s.handlers, t),
         installed := s.installed + [o],
         cleanups := s.cleanups[o := t],
         tabindexFallback := if |t.focusables| > 0 then s.tabindexFallback else s.tabindexFallback + {o},
         focused := if |t.focusables| > 0 then Some(t.focusables[0]) else Some(o))
  }

  /** closeOverlay(overlay), main.js:200-215: the `active` class goes and
      aria-hidden="true"; the registered cleanup (if any) runs; both entries are
      deleted; overflow is cleared only if no overlay is still active; focus goes
      to the recorded return target when there is one. */
  function Close(p: Page, s: State, overlay: Option<Element>): (r: State) {
    if overlay.None? || overlay.value !in s.active then s
    else
      var o := overlay.value;
      var active := s.active - {o};
      var target := if o in s.returnTo then s.returnTo[o] else None;
      s.(active := active,
         ariaHidden := s.ariaHidden[o := true],
         handlers := if o in s.cleanups then Detach(s.handlers, s.cleanups[o]) else s.handlers,
         cleanedUp := if o in s.cleanups then s.cleanedUp + [s.cleanups[o].container] else s.cleanedUp,
         cleanups := s.cleanups - {o},
         returnTo := s.returnTo - {o},
         scrollLocked := if AnyActive(p, active) then s.scrollLocked else false,
         focused := if target.Some? then target else s.focused)
  }

  /** `if (burgerToggle) burgerToggle.setAttribute('aria-expanded', …)`. */
  function SetExpanded(p: Page, s: State, b: bool): (r: State) {
    if p.burgerToggle.Some? then s.(ariaExpanded := b) else s
  }

  /** window.toggleBurgerMenu, main.js:217-228. */
  function ToggleBurgerMenu(p: Page, s: State): (r: State) {
    if p.burgerMenu.None? then s
    else if p.burgerMenu.value in s.active then SetExpanded(p, Close(p, s, p.burgerMenu), false)
    else SetExpanded(p, Open(p, s, p.burgerMenu, p.burgerToggle), true)
  }

  /** The active overlays in document order: what
      querySelectorAll('.project-overlay.active, .burger-menu-overlay.active') returns. */
  function ActiveInOrder(overlays: seq<Element>, active: set<Element>): (r: seq<Element>)
    ensures forall o :: o in r <==> o in overlays && o in active
    ensures |r| <= |overlays|
  {
    if overlays == [] then []
    else (if overlays[0] in active then [overlays[0]] else []) + ActiveInOrder(overlays[1..], active)
  }

  /** One iteration of the Escape handler's loop (main.js:278-281). */
  function EscapeClose(p: Page, s: State, o: Element): (r: State) {
    var s1 := Close(p, s, Some(o));
    if p.burgerMenu == Some(o) then SetExpanded(p, s1, false) else s1
  }

  /** The loop over the matched list, closing each in turn. */
  function CloseEach(p: Page, s: State, os: seq<Element>): (r: State)
    decreases |os|
  {
    if os == [] then s
    else EscapeClose(p, CloseEach(p, s, os[..|os| - 1]), os[|os| - 1])
  }

  /** The document-level keydown handler, main.js:275-284. */
  function OnDocumentKeydown(p: Page, s: State, key: Key): (r: State) {
    if key != Escape then s
    else CloseEach(p, s, ActiveInOrder(p.overlays, s.active))
  }

  /** A keydown reaching overlay `container`: its trap handler, if one is attached. */
  function TrapKey(p: Page, s: State, container: Element, key: Key, shift: bool): (r: State) {
    if s.handlers[container] > 0 && container in s.cleanups && |s.cleanups[container].focusables| > 0 then
      s.(focused := FocusTrap.OnKeydown(s.cleanups[container].focusables, s.focused, key, shift).focus)
    else s
  }

  /** Where a pointerdown on an overlay landed. */
  datatype PointerTarget = OverlayRoot | Backdrop | Content

  /** The events setupOverlays listens to, and the user moving focus. */
  datatype Event =
    | TriggerClick(overlay: Option<Element>, trigger: Element)  // [data-type="overlay"], main.js:230-239
    | CloserClick(overlay: Option<Element>)                     // [data-close-overlay], main.js:241-248
    | PointerDown(target: Element, at: PointerTarget)           // main.js:250-263
    | BurgerLinkClick                                           // a link in #burger-menu, main.js:265-273
    | BurgerToggleClick                                         // toggleBurgerMenu
    | Keydown(inside: Option<Element>, key: Key, shift: bool)   // bubbles: trap first, then document
    | FocusMoved(to: Option<Element>)                           // the user moves focus (click, browser Tab)

  /** The markup contract: a trigger names a project overlay, and a closer sits inside one. */
  predicate EventOk(p: Page, e: Event) {
    match e
    case TriggerClick(o, _) => o.Some? ==> IsProjectOverlay(p, o.value)
    case CloserClick(o) => o.Some? ==> IsProjectOverlay(p, o.value)
    case PointerDown(o, _) => o in p.overlays
    case _ => true
  }

  function Step(p: Page, s: State, e: Event): (r: State) {
    match e
    case TriggerClick(o, t) => if o.Some? then Open(p, s, o, Some(t)) else s
    case CloserClick(o) => if o.Some? then Close(p, s, o) else s
    case PointerDown(o, at) =>
      if p.burgerMenu != Some(o) then
        if at == Backdrop || at == OverlayRoot then Close(p, s, Some(o)) else s
      else if at == OverlayRoot then SetExpanded(p, Close(p, s, Some(o)), false)
      else s
    case BurgerLinkClick =>
      if p.burgerMenu.Some? then SetExpanded(p, Close(p, s, p.burgerMenu), false) else s
    case BurgerToggleClick => ToggleBurgerMenu(p, s)
    case Keydown(inside, key, shift) =>
      var s1 := if inside.Some? then TrapKey(p, s, inside.value, key, shift) else s;
      OnDocumentKeydown(p, s1, key)
    case FocusMoved(to) => s.(focused := to)
  }

  function Run(p: Page, s: State, es: seq<Event>): (r: State)
    decreases |es|
  {
    if es == [] then s else Run(p, Step(p, s, es[0]), es[1..])
  }

  // ---------------------------------------------------------------------------
  // openOverlay

  /** Opening an open overlay, or nothing, changes nothing (main.js:177). */
  lemma OpenIsIdempotent(p: Page, s: State, o: Element, t1: Option<Element>, t2: Option<Element>)
    ensures Open(p, Open(p, s, Some(o), t1), Some(o), t2) == Open(p, s, Some(o), t1)
    ensures o in s.active ==> Open(p, s, Some(o), t1) == s
    ensures Open(p, s, None, t1) == s
  {
  }

  /** What opening an inactive overlay establishes (main.js:185-197): it is open
      with aria-hidden false, scroll is locked, its return target is the trigger or
      else the element that had focus, exactly one trap is registered for it, and
      focus is on its first focusable or on the overlay itself. */
  lemma OpenEstablishes(p: Page, s: State, o: Element, trigger: Option<Element>)
    requires Inv(p, s) && o in p.overlays && o !in s.active
    ensures Inv(p, Open(p, s, Some(o), trigger))
    ensures Open(p, s, Some(o), trigger).active == s.active + {o}
    ensures o in Open(p, s, Some(o), trigger).ariaHidden && !Open(p, s, Some(o), trigger).ariaHidden[o]
    ensures Open(p, s, Some(o), trigger).scrollLocked
    ensures Open(p, s, Some(o), trigger).returnTo[o] == if trigger.Some? then trigger else s.focused
    ensures Open(p, s, Some(o), trigger).cleanups[o] == Trap(o, Focusables(p, o))
    ensures o in Open(p, s, Some(o), trigger).handlers <==> |Focusables(p, o)| > 0
    ensures Open(p, s, Some(o), trigger).installed == s.installed + [o]
    ensures Open(p, s, Some(o), trigger).cleanedUp == s.cleanedUp
    ensures Open(p, s, Some(o), trigger).focused
         == if |Focusables(p, o)| > 0 then Some(Focusables(p, o)[0]) else Some(o)
    ensures |Focusables(p, o)| == 0 ==> o in Open(p, s, Some(o), trigger).tabindexFallback
  {
    var r := Open(p, s, Some(o), trigger);
    OpenKeepsHandlers(p, s, o, trigger);
    OpenKeepsBalance(p, s, o, trigger);
    OpenKeepsEntries(p, s, o, trigger);
    OpenKeepsAria(p, s, o, trigger);
  }

  lemma OpenKeepsEntries(p: Page, s: State, o: Element, trigger: Option<Element>)
    requires EntriesMatchOpen(p, s) && OnlyOverlaysOpen(p, s) && o in p.overlays && o !in s.active
    ensures EntriesMatchOpen(p, Open(p, s, Some(o), trigger)) && OnlyOverlaysOpen(p, Open(p, s, Some(o), trigger))
  {
  }

  lemma OpenKeepsAria(p: Page, s: State, o: Element, trigger: Option<Element>)
    requires AriaHiddenMirrors(s) && o !in s.active
    ensures AriaHiddenMirrors(Open(p, s, Some(o), trigger))
  {
  }

  lemma OpenKeepsHandlers(p: Page, s: State, o: Element, trigger: Option<Element>)
    requires OneHandlerPerOpenTrap(p, s) && o !in s.active
    ensures OneHandlerPerOpenTrap(p, Open(p, s, Some(o), trigger))
  {
    assert multiset(s.active + {o}) == multiset(s.active) + multiset{o};
  }

  lemma OpenKeepsBalance(p: Page, s: State, o: Element, trigger: Option<Element>)
    requires CleanupsBalanced(s) && o !in s.active
    ensures CleanupsBalanced(Open(p, s, Some(o), trigger))
  {
    assert multiset(s.active + {o}) == multiset(s.active) + multiset{o};
    assert multiset(s.installed + [o]) == multiset(s.installed) + multiset{o};
  }

  /** Opening keeps the invariant, on every input. */
  lemma OpenPreservesInv(p: Page, s: State, overlay: Option<Element>, trigger: Option<Element>)
    requires Inv(p, s) && (overlay.Some? ==> overlay.value in p.overlays)
    ensures Inv(p, Open(p, s, overlay, trigger))
  {
    if overlay.Some? && overlay.value !in s.active {
      OpenEstablishes(p, s, overlay.value, trigger);
    }
  }

  // ---------------------------------------------------------------------------
  // closeOverlay

  /** Closing a closed overlay, or nothing, changes nothing, so a second close runs
      no second cleanup (main.js:201). */
  lemma CloseIsIdempotent(p: Page, s: State, o: Element)
    ensures Close(p, Close(p, s, Some(o)), Some(o)) == Close(p, s, Some(o))
    ensures o !in s.active ==> Close(p, s, Some(o)) == s
    ensures Close(p, s, None) == s
  {
  }

  /** What closing an open overlay does (main.js:202-214): it is closed with
      aria-hidden true, its cleanup runs exactly once, both of its entries go,
      scroll stays locked iff another overlay is still open, and focus returns to
      the recorded target when there is one. */
  lemma CloseEstablishes(p: Page, s: State, o: Element)
    requires Inv(p, s) && o in s.active
    ensures Inv(p, Close(p, s, Some(o)))
    ensures Close(p, s, Some(o)).active == s.active - {o}
    ensures o in Close(p, s, Some(o)).ariaHidden && Close(p, s, Some(o)).ariaHidden[o]
    ensures Close(p, s, Some(o)).cleanedUp == s.cleanedUp + [o]
    ensures multiset(Close(p, s, Some(o)).cleanedUp)[o] == multiset(s.cleanedUp)[o] + 1
    ensures Close(p, s, Some(o)).installed == s.installed
    ensures Close(p, s, Some(o)).cleanups == s.cleanups - {o}
    ensures Close(p, s, Some(o)).returnTo == s.returnTo - {o}
    ensures o !in Close(p, s, Some(o)).handlers
    ensures Close(p, s, Some(o)).scrollLocked <==> s.active - {o} != {}
    ensures Close(p, s, Some(o)).focused == if s.returnTo[o].Some? then s.returnTo[o] else s.focused
  {
    CloseKeepsHandlers(p, s, o);
    CloseKeepsBalance(p, s, o);
    CloseKeepsEntries(p, s, o);
    CloseKeepsAria(p, s, o);
    CloseKeepsScroll(p, s, o);
  }

  lemma CloseKeepsHandlers(p: Page, s: State, o: Element)
    requires OneHandlerPerOpenTrap(p, s) && EntriesMatchOpen(p, s) && o in s.active
    ensures OneHandlerPerOpenTrap(p, Close(p, s, Some(o)))
    ensures o !in Close(p, s, Some(o)).handlers
  {
    assert multiset(s.active - {o}) == multiset(s.active) - multiset{o};
    assert s.cleanups[o] == Trap(o, Focusables(p, o));
  }

  lemma CloseKeepsBalance(p: Page, s: State, o: Element)
    requires CleanupsBalanced(s) && EntriesMatchOpen(p, s) && o in s.active
    ensures CleanupsBalanced(Close(p, s, Some(o)))
    ensures Close(p, s, Some(o)).cleanedUp == s.cleanedUp + [o]
  {
    assert s.cleanups[o].container == o;
    assert multiset(s.active) == multiset(s.active - {o}) + multiset{o};
    assert multiset(s.cleanedUp + [o]) == multiset(s.cleanedUp) + multiset{o};
  }

  lemma CloseKeepsEntries(p: Page, s: State, o: Element)
    requires EntriesMatchOpen(p, s) && OnlyOverlaysOpen(p, s) && o in s.active
    ensures EntriesMatchOpen(p, Close(p, s, Some(o))) && OnlyOverlaysOpen(p, Close(p, s, Some(o)))
  {
  }

  lemma CloseKeepsAria(p: Page, s: State, o: Element)
    requires AriaHiddenMirrors(s) && o in s.active
    ensures AriaHiddenMirrors(Close(p, s, Some(o)))
  {
  }

  lemma CloseKeepsScroll(p: Page, s: State, o: Element)
    requires OnlyOverlaysOpen(p, s) && (s.scrollLocked <==> s.active != {}) && o in s.active
    ensures Close(p, s, Some(o)).scrollLocked <==> s.active - {o} != {}
  {
    var r := Close(p, s, Some(o));
    if s.active - {o} != {} {
      var x :| x in s.active - {o};
      assert x in p.overlays && x in r.active;
    }
  }

  /** Closing keeps the invariant, on every input. */
  lemma ClosePreservesInv(p: Page, s: State, overlay: Option<Element>)
    requires Inv(p, s)
    ensures Inv(p, Close(p, s, overlay))
  {
    if overlay.Some? && overlay.value in s.active {
      CloseEstablishes(p, s, overlay.value);
    }
  }

  /** Closing one overlay leaves every other open overlay's state alone: the maps
      are keyed per overlay (main.js:204-208). */
  lemma CloseLeavesOthers(p: Page, s: State, a: Element, b: Element)
    requires Inv(p, s) && a in s.active && a != b
    ensures var r := Close(p, s, Some(b));
      && a in r.active
      && a in r.cleanups && r.cleanups[a] == s.cleanups[a]
      && a in r.returnTo && r.returnTo[a] == s.returnTo[a]
      && r.handlers[a] == s.handlers[a]
      && r.ariaHidden[a] == s.ariaHidden[a]
      && r.scrollLocked
  {
    if b in s.active {
      CloseEstablishes(p, s, b);
      var r := Close(p, s, Some(b));
      var fs := Focusables(p, b);
      assert r.handlers[a] == s.handlers[a] - (if a == b && |fs| > 0 then 1 else 0);
    }
  }

  /** Closing right after opening undoes the open's bookkeeping: the overlay set,
      both maps, the attached handlers and the scroll lock are as before, the
      cleanup ran once for the trap installed once, and focus is on the return target. */
  lemma OpenThenCloseRestores(p: Page, s: State, o: Element, trigger: Option<Element>)
    requires EntriesMatchOpen(p, s) && OnlyOverlaysOpen(p, s) && (s.scrollLocked <==> s.active != {})
    requires o in p.overlays && o !in s.active
    ensures var m := Open(p, s, Some(o), trigger);
      var r := Close(p, m, Some(o));
      var target := if trigger.Some? then trigger else s.focused;
      && r.active == s.active
      && r.cleanups == s.cleanups
      && r.returnTo == s.returnTo
      && r.handlers == s.handlers
      && r.scrollLocked == s.scrollLocked
      && r.installed == s.installed + [o]
      && r.cleanedUp == s.cleanedUp + [o]
      && r.focused == (if target.Some? then target else m.focused)
  {
    var t := TrapFocus(p, o);
    var m := Open(p, s, Some(o), trigger);
    assert o in m.active && o in m.cleanups && m.cleanups[o] == t && o in m.returnTo;
    var r := Close(p, m, Some(o));
    assert o !in s.cleanups && o !in s.returnTo;
    assert r.active == s.active;
    assert r.cleanups == s.cleanups;
    assert r.returnTo == s.returnTo;
    assert r.handlers == Detach(Attach(s.handlers, t), t);
    assert AnyActive(p, s.active) <==> s.active != {} by {
      if s.active != {} {
        var x :| x in s.active;
        assert x in p.overlays;
      }
    }
  }

  // ---------------------------------------------------------------------------
  // Escape

  lemma {:induction false} ActiveInOrderDistinct(overlays: seq<Element>, active: set<Element>)
    requires Distinct(overlays)
    ensures Distinct(ActiveInOrder(overlays, active))
  {
    if overlays != [] {
      var tail := ActiveInOrder(overlays[1..], active);
      ActiveInOrderDistinct(overlays[1..], active);
      assert overlays[0] !in overlays[1..];
      assert overlays[0] !in tail;
      if overlays[0] in active {
        var r := [overlays[0]] + tail;
        assert ActiveInOrder(overlays, active) == r;
        forall i, j | 0 <= i < j < |r| ensures r[i] != r[j] {
          assert r[j] == tail[j - 1] && tail[j - 1] in tail;
          if i > 0 { assert r[i] == tail[i - 1]; }
        }
      } else {
        assert ActiveInOrder(overlays, active) == tail;
      }
    }
  }

  /** Position of the first occurrence of `x` in `xs`. */
  function IndexOf(xs: seq<Element>, x: Element): (k: nat)
    requires x in xs
    ensures k < |xs| && xs[k] == x
    ensures forall j :: 0 <= j < k ==> xs[j] != x
  {
    if xs[0] == x then 0 else 1 + IndexOf(xs[1..], x)
  }

  /** The matched list keeps document order, one pair at a time: an overlay
      listed before another comes before it among the page's overlays. */
  lemma {:induction false} ActiveInOrderPairOrdered(overlays: seq<Element>, active: set<Element>, i: nat, j: nat)
    requires Distinct(overlays) && i < j < |ActiveInOrder(overlays, active)|
    ensures IndexOf(overlays, ActiveInOrder(overlays, active)[i]) < IndexOf(overlays, ActiveInOrder(overlays, active)[j])
  {
    var h, rest := overlays[0], overlays[1..];
    var tail := ActiveInOrder(rest, active);
    var r := ActiveInOrder(overlays, active);
    assert Distinct(rest) by {
      forall a, b | 0 <= a < b < |rest| ensures rest[a] != rest[b] {
        assert rest[a] == overlays[a + 1] && rest[b] == overlays[b + 1];
      }
    }
    assert h !in rest;
    if h in active {
      assert r == [h] + tail;
      assert r[j] == tail[j - 1] && tail[j - 1] in rest;
      if i > 0 {
        assert r[i] == tail[i - 1] && tail[i - 1] in rest;
        ActiveInOrderPairOrdered(rest, active, i - 1, j - 1);
      } else {
        assert r[i] == h;
      }
    } else {
      assert r == tail;
      assert tail[i] in rest && tail[j] in rest;
      ActiveInOrderPairOrdered(rest, active, i, j);
    }
  }

  /** The matched list keeps document order (querySelectorAll returns the
      overlays in the order they appear in the page). */
  lemma ActiveInOrderKeepsOrder(overlays: seq<Element>, active: set<Element>)
    requires Distinct(overlays)
    ensures var r := ActiveInOrder(overlays, active);
            forall i, j :: 0 <= i < j < |r| ==> IndexOf(overlays, r[i]) < IndexOf(overlays, r[j])
  {
    var r := ActiveInOrder(overlays, active);
    forall i, j | 0 <= i < j < |r| ensures IndexOf(overlays, r[i]) < IndexOf(overlays, r[j]) {
      ActiveInOrderPairOrdered(overlays, active, i, j);
    }
  }

  /** Setting aria-expanded touches none of the bookkeeping. */
  lemma SetExpandedKeepsInv(p: Page, s: State, b: bool)
    requires Inv(p, s)
    ensures Inv(p, SetExpanded(p, s, b))
  {
    var r := SetExpanded(p, s, b);
    assert OneHandlerPerOpenTrap(p, r) && CleanupsBalanced(r);
  }

  /** One turn of the Escape loop on an open overlay. */
  lemma EscapeCloseEstablishes(p: Page, s: State, o: Element)
    requires Inv(p, s) && o in s.active
    ensures Inv(p, EscapeClose(p, s, o))
    ensures EscapeClose(p, s, o).active == s.active - {o}
    ensures EscapeClose(p, s, o).cleanedUp == s.cleanedUp + [o]
    ensures EscapeClose(p, s, o).installed == s.installed
    ensures EscapeClose(p, s, o).ariaExpanded
         == if p.burgerMenu == Some(o) && p.burgerToggle.Some? then false else s.ariaExpanded
  {
    CloseEstablishes(p, s, o);
    SetExpandedKeepsInv(p, Close(p, s, Some(o)), false);
  }

  /** Closing a list of distinct open overlays one after another keeps the
      invariant and closes exactly those. */
  lemma {:induction false} CloseEachKeepsInv(p: Page, s: State, os: seq<Element>)
    requires Inv(p, s)
    requires Distinct(os)
    requires forall i :: 0 <= i < |os| ==> os[i] in s.active
    ensures Inv(p, CloseEach(p, s, os))
    ensures forall x :: x in CloseEach(p, s, os).active <==> x in s.active && x !in os
  {
    CloseEachShape(p, s, os);
    if os != [] {
      var init := os[..|os| - 1];
      var o := os[|os| - 1];
      assert Distinct(init) by {
        forall i, j | 0 <= i < j < |init| ensures init[i] != init[j] {
          assert init[i] == os[i] && init[j] == os[j];
        }
      }
      assert o !in init by {
        forall i | 0 <= i < |init| ensures init[i] != o {
          assert init[i] == os[i];
        }
      }
      assert forall i :: 0 <= i < |init| ==> init[i] in s.active by {
        forall i | 0 <= i < |init| ensures init[i] in s.active {
          assert init[i] == os[i];
        }
      }
      CloseEachKeepsInv(p, s, init);
      EscapeCloseEstablishes(p, CloseEach(p, s, init), o);
    }
  }

  /** The same loop runs the cleanups in list order. */
  lemma {:induction false} CloseEachCleansUp(p: Page, s: State, os: seq<Element>)
    requires EntriesMatchOpen(p, s) && OnlyOverlaysOpen(p, s)
    requires Distinct(os)
    requires forall i :: 0 <= i < |os| ==> os[i] in s.active
    ensures EntriesMatchOpen(p, CloseEach(p, s, os)) && OnlyOverlaysOpen(p, CloseEach(p, s, os))
    ensures forall x :: x in CloseEach(p, s, os).active <==> x in s.active && x !in os
    ensures CloseEach(p, s, os).cleanedUp == s.cleanedUp + os
  {
    if os != [] {
      var init := os[..|os| - 1];
      var o := os[|os| - 1];
      assert os == init + [o];
      CloseEachCleansUp(p, s, init);
      CloseEachShape(p, s, os);
      var m := CloseEach(p, s, init);
      assert o !in init;
      EscapeCloseCleansOne(p, m, o);
      assert s.cleanedUp + init + [o] == s.cleanedUp + os;
    }
  }

  /** One turn of the Escape loop appends the closed overlay's cleanup. */
  lemma EscapeCloseCleansOne(p: Page, s: State, o: Element)
    requires EntriesMatchOpen(p, s) && OnlyOverlaysOpen(p, s) && o in s.active
    ensures EntriesMatchOpen(p, EscapeClose(p, s, o)) && OnlyOverlaysOpen(p, EscapeClose(p, s, o))
    ensures EscapeClose(p, s, o).cleanedUp == s.cleanedUp + [o]
  {
    assert o in s.cleanups && s.cleanups[o].container == o;
    CloseKeepsEntries(p, s, o);
  }

  /** The loop resets aria-expanded exactly when the burger menu is among the closed. */
  lemma {:induction false} CloseEachResetsExpanded(p: Page, s: State, os: seq<Element>)
    ensures p.burgerMenu.Some? && p.burgerMenu.value in os && p.burgerToggle.Some?
            ==> !CloseEach(p, s, os).ariaExpanded
    ensures !(p.burgerMenu.Some? && p.burgerMenu.value in os) || p.burgerToggle.None?
            ==> CloseEach(p, s, os).ariaExpanded == s.ariaExpanded
  {
    if os != [] {
      var init := os[..|os| - 1];
      var o := os[|os| - 1];
      assert os == init + [o];
      CloseEachResetsExpanded(p, s, init);
    }
  }

  /** Escape closes every open overlay, not just the topmost (main.js:275-284):
      nothing stays open, scroll is unlocked, both maps are empty, the cleanups ran
      for the open overlays in document order, and aria-expanded is reset when the
      burger menu was open. */
  lemma EscapeClosesEverything(p: Page, s: State)
    requires WellFormed(p) && Inv(p, s)
    ensures Inv(p, OnDocumentKeydown(p, s, Escape))
    ensures OnDocumentKeydown(p, s, Escape).active == {}
    ensures !OnDocumentKeydown(p, s, Escape).scrollLocked
    ensures OnDocumentKeydown(p, s, Escape).cleanups == map[]
    ensures OnDocumentKeydown(p, s, Escape).returnTo == map[]
    ensures OnDocumentKeydown(p, s, Escape).cleanedUp == s.cleanedUp + ActiveInOrder(p.overlays, s.active)
    ensures p.burgerMenu.Some? && p.burgerMenu.value in s.active && p.burgerToggle.Some?
            ==> !OnDocumentKeydown(p, s, Escape).ariaExpanded
    ensures Synced(p, s) ==> Synced(p, OnDocumentKeydown(p, s, Escape))
  {
    var os := ActiveInOrder(p.overlays, s.active);
    ActiveInOrderDistinct(p.overlays, s.active);
    CloseAllOpen(p, s, os);
    assert OnDocumentKeydown(p, s, Escape) == CloseEach(p, s, os);
  }

  lemma CloseAllOpen(p: Page, s: State, os: seq<Element>)
    requires Inv(p, s) && Distinct(os) && forall x :: x in os <==> x in s.active
    ensures Inv(p, CloseEach(p, s, os))
    ensures CloseEach(p, s, os).active == {}
    ensures !CloseEach(p, s, os).scrollLocked
    ensures CloseEach(p, s, os).cleanups == map[]
    ensures CloseEach(p, s, os).returnTo == map[]
    ensures CloseEach(p, s, os).cleanedUp == s.cleanedUp + os
    ensures p.burgerMenu.Some? && p.burgerMenu.value in s.active && p.burgerToggle.Some?
            ==> !CloseEach(p, s, os).ariaExpanded
    ensures Synced(p, s) ==> Synced(p, CloseEach(p, s, os))
  {
    forall i | 0 <= i < |os| ensures os[i] in s.active {
      assert os[i] in os;
    }
    CloseEachKeepsInv(p, s, os);
    CloseEachCleansUp(p, s, os);
    CloseEachResetsExpanded(p, s, os);
    var r := CloseEach(p, s, os);
    assert r.active == {};
    if Synced(p, s) && p.burgerToggle.Some? {
      if p.burgerMenu.Some? && p.burgerMenu.value in os {
        assert !r.ariaExpanded;
      } else {
        assert !s.ariaExpanded;
      }
    }
  }

  /** Each overlay open when Escape is pressed has its cleanup run exactly once more. */
  lemma EscapeCleansEachOnce(p: Page, s: State, o: Element)
    requires WellFormed(p) && Inv(p, s) && o in s.active
    ensures multiset(OnDocumentKeydown(p, s, Escape).cleanedUp)[o] == multiset(s.cleanedUp)[o] + 1
  {
    var os := ActiveInOrder(p.overlays, s.active);
    EscapeClosesEverything(p, s);
    ActiveInOrderDistinct(p.overlays, s.active);
    DistinctCountOne(os, o);
    assert multiset(s.cleanedUp + os) == multiset(s.cleanedUp) + multiset(os);
  }

  lemma {:induction false} DistinctCountOne(os: seq<Element>, o: Element)
    requires Distinct(os)
    requires o in os
    ensures multiset(os)[o] == 1
  {
    if os[0] == o {
      assert o !in os[1..];
      assert os == [os[0]] + os[1..];
    } else {
      DistinctCountOne(os[1..], o);
      assert os == [os[0]] + os[1..];
    }
  }
  // ---------------------------------------------------------------------------
  // toggleBurgerMenu

  lemma ToggleClosesOpenMenu(p: Page, s: State, bm: Element)
    requires Inv(p, s) && p.burgerMenu == Some(bm) && bm in s.active
    ensures ToggleBurgerMenu(p, s) == SetExpanded(p, Close(p, s, Some(bm)), false)
    ensures Inv(p, ToggleBurgerMenu(p, s))
    ensures ToggleBurgerMenu(p, s).active == s.active - {bm}
    ensures p.burgerToggle.Some? ==> !ToggleBurgerMenu(p, s).ariaExpanded
    ensures p.burgerToggle.None? ==> ToggleBurgerMenu(p, s).ariaExpanded == s.ariaExpanded
  {
    CloseEstablishes(p, s, bm);
    SetExpandedKeepsInv(p, Close(p, s, Some(bm)), false);
  }

  lemma ToggleOpensClosedMenu(p: Page, s: State, bm: Element)
    requires WellFormed(p) && Inv(p, s) && p.burgerMenu == Some(bm) && bm !in s.active
    ensures ToggleBurgerMenu(p, s) == SetExpanded(p, Open(p, s, Some(bm), p.burgerToggle), true)
    ensures Inv(p, ToggleBurgerMenu(p, s))
    ensures ToggleBurgerMenu(p, s).active == s.active + {bm}
    ensures p.burgerToggle.Some? ==> ToggleBurgerMenu(p, s).ariaExpanded
    ensures p.burgerToggle.None? ==> ToggleBurgerMenu(p, s).ariaExpanded == s.ariaExpanded
  {
    OpenEstablishes(p, s, bm, p.burgerToggle);
    SetExpandedKeepsInv(p, Open(p, s, Some(bm), p.burgerToggle), true);
  }

  /** Toggling twice brings the burger menu's open state and aria-expanded back. */
  lemma ToggleTwiceRestoresBurgerState(p: Page, s: State, bm: Element)
    requires Synced(p, s) && p.burgerMenu == Some(bm)
    ensures ToggleBurgerMenu(p, ToggleBurgerMenu(p, s)).active == s.active
    ensures ToggleBurgerMenu(p, ToggleBurgerMenu(p, s)).ariaExpanded == s.ariaExpanded
  {
    var s1 := ToggleBurgerMenu(p, s);
    CloseShape(p, s, p.burgerMenu);
    OpenShape(p, s, p.burgerMenu, p.burgerToggle);
    CloseShape(p, s1, p.burgerMenu);
    OpenShape(p, s1, p.burgerMenu, p.burgerToggle);
    if bm in s.active {
      assert s.active - {bm} + {bm} == s.active;
    } else {
      assert s.active + {bm} - {bm} == s.active;
    }
  }

  // ---------------------------------------------------------------------------
  // Keydown inside a trapped overlay

  /** The trap handler only moves focus. */
  lemma TrapKeyOnlyMovesFocus(p: Page, s: State, c: Element, key: Key, shift: bool)
    ensures TrapKey(p, s, c, key, shift) == s.(focused := TrapKey(p, s, c, key, shift).focused)
  {
  }

  /** A Tab inside an open overlay with focusables is handled by that overlay's
      trap, over the list captured when it opened. */
  lemma TrapKeyUsesOwnTrap(p: Page, s: State, c: Element, key: Key, shift: bool)
    requires Inv(p, s) && c in s.active && |Focusables(p, c)| > 0
    ensures TrapKey(p, s, c, key, shift).focused
         == FocusTrap.OnKeydown(Focusables(p, c), s.focused, key, shift).focus
  {
    assert c in s.handlers;
    assert multiset(s.active)[c] == 1;
  }

  /** An overlay without focusables, or a closed one, has no trap: keys do nothing. */
  lemma NoTrapNoEffect(p: Page, s: State, c: Element, key: Key, shift: bool)
    requires Inv(p, s) && (c !in s.active || |Focusables(p, c)| == 0)
    ensures TrapKey(p, s, c, key, shift) == s
  {
    if c in s.active {
      assert c !in s.handlers;
    } else {
      assert multiset(s.active)[c] == 0;
      assert c !in s.handlers;
    }
  }

  // ---------------------------------------------------------------------------
  // Any sequence of events

  lemma InitialIsValid(p: Page, focused: Option<Element>)
    ensures Inv(p, Initial(focused)) && Synced(p, Initial(focused))
  {
    var s := Initial(focused);
    assert multiset(s.active) == multiset{};
  }

  // What each handler does to the open set and to aria-expanded, with no
  // invariant needed: enough to keep aria-expanded in sync.

  lemma OpenShape(p: Page, s: State, overlay: Option<Element>, trigger: Option<Element>)
    ensures Open(p, s, overlay, trigger).active == if overlay.Some? then s.active + {overlay.value} else s.active
    ensures Open(p, s, overlay, trigger).ariaExpanded == s.ariaExpanded
  {
  }

  lemma CloseShape(p: Page, s: State, overlay: Option<Element>)
    ensures Close(p, s, overlay).active == if overlay.Some? then s.active - {overlay.value} else s.active
    ensures Close(p, s, overlay).ariaExpanded == s.ariaExpanded
  {
  }

  /** The Escape loop closes exactly the overlays in its list. */
  lemma {:induction false} CloseEachShape(p: Page, s: State, os: seq<Element>)
    ensures forall x :: x in CloseEach(p, s, os).active <==> x in s.active && x !in os
  {
    if os != [] {
      var init := os[..|os| - 1];
      var o := os[|os| - 1];
      assert os == init + [o];
      CloseEachShape(p, s, init);
      CloseShape(p, CloseEach(p, s, init), Some(o));
    }
  }

  lemma TriggerClickSynced(p: Page, s: State, o: Option<Element>, t: Element)
    requires Synced(p, s) && (o.Some? ==> IsProjectOverlay(p, o.value))
    ensures Synced(p, Step(p, s, TriggerClick(o, t)))
  {
    OpenShape(p, s, o, Some(t));
  }

  lemma CloserClickSynced(p: Page, s: State, o: Option<Element>)
    requires Synced(p, s) && (o.Some? ==> IsProjectOverlay(p, o.value))
    ensures Synced(p, Step(p, s, CloserClick(o)))
  {
    CloseShape(p, s, o);
  }

  lemma PointerDownSynced(p: Page, s: State, o: Element, at: PointerTarget)
    requires Synced(p, s)
    ensures Synced(p, Step(p, s, PointerDown(o, at)))
  {
    CloseShape(p, s, Some(o));
  }

  lemma BurgerLinkClickSynced(p: Page, s: State)
    requires Synced(p, s)
    ensures Synced(p, Step(p, s, BurgerLinkClick))
  {
    CloseShape(p, s, p.burgerMenu);
  }

  lemma BurgerToggleClickSynced(p: Page, s: State)
    requires Synced(p, s)
    ensures Synced(p, Step(p, s, BurgerToggleClick))
  {
    CloseShape(p, s, p.burgerMenu);
    OpenShape(p, s, p.burgerMenu, p.burgerToggle);
  }

  /** One more turn of the Escape loop. */
  lemma CloseEachExtend(p: Page, s: State, os: seq<Element>, i: nat)
    requires i < |os|
    ensures CloseEach(p, s, os[..i + 1]) == EscapeClose(p, CloseEach(p, s, os[..i]), os[i])
  {
    assert os[..i + 1][..i] == os[..i];
  }

  /** Escape keeps aria-expanded in sync with the burger menu. */
  lemma EscapeKeepsSynced(p: Page, s: State)
    requires WellFormed(p) && Synced(p, s)
    ensures Synced(p, OnDocumentKeydown(p, s, Escape))
  {
    var os := ActiveInOrder(p.overlays, s.active);
    CloseEachShape(p, s, os);
    CloseEachResetsExpanded(p, s, os);
  }

  /** The trap handler keeps aria-expanded in sync. */
  lemma TrapKeyKeepsSynced(p: Page, s: State, c: Element, key: Key, shift: bool)
    requires Synced(p, s)
    ensures Synced(p, TrapKey(p, s, c, key, shift))
  {
  }

  lemma KeydownSynced(p: Page, s: State, inside: Option<Element>, key: Key, shift: bool)
    requires WellFormed(p) && Synced(p, s)
    ensures Synced(p, Step(p, s, Keydown(inside, key, shift)))
  {
    var s1 := if inside.Some? then TrapKey(p, s, inside.value, key, shift) else s;
    if inside.Some? {
      TrapKeyKeepsSynced(p, s, inside.value, key, shift);
    }
    assert Step(p, s, Keydown(inside, key, shift)) == OnDocumentKeydown(p, s1, key);
    if key == Escape {
      EscapeKeepsSynced(p, s1);
    }
  }

  /** Every handler keeps aria-expanded in sync with the burger menu. */
  lemma StepKeepsSynced(p: Page, s: State, e: Event)
    requires WellFormed(p) && Synced(p, s) && EventOk(p, e)
    ensures Synced(p, Step(p, s, e))
  {
    match e
    case TriggerClick(o, t) => TriggerClickSynced(p, s, o, t);
    case CloserClick(o) => CloserClickSynced(p, s, o);
    case PointerDown(o, at) => PointerDownSynced(p, s, o, at);
    case BurgerLinkClick => BurgerLinkClickSynced(p, s);
    case BurgerToggleClick => BurgerToggleClickSynced(p, s);
    case Keydown(inside, key, shift) => KeydownSynced(p, s, inside, key, shift);
    case FocusMoved(_) =>  // focus plays no part in the sync
  }

  // The invariant, handler by handler.

  /** A click on an overlay trigger (main.js:230-239). */
  lemma TriggerClickKeepsInv(p: Page, s: State, o: Option<Element>, t: Element)
    requires Inv(p, s) && (o.Some? ==> o.value in p.overlays)
    ensures Inv(p, Step(p, s, TriggerClick(o, t)))
  {
    OpenPreservesInv(p, s, o, Some(t));
  }

  /** A click on a [data-close-overlay] element (main.js:241-248). */
  lemma CloserClickKeepsInv(p: Page, s: State, o: Option<Element>)
    requires Inv(p, s)
    ensures Inv(p, Step(p, s, CloserClick(o)))
  {
    ClosePreservesInv(p, s, o);
  }

  /** A pointerdown on an overlay (main.js:250-263). */
  lemma PointerDownKeepsInv(p: Page, s: State, o: Element, at: PointerTarget)
    requires Inv(p, s)
    ensures Inv(p, Step(p, s, PointerDown(o, at)))
  {
    var c := Close(p, s, Some(o));
    ClosePreservesInv(p, s, Some(o));
    if p.burgerMenu != Some(o) {
      assert Step(p, s, PointerDown(o, at)) == if at == Backdrop || at == OverlayRoot then c else s;
    } else {
      SetExpandedKeepsInv(p, c, false);
      assert Step(p, s, PointerDown(o, at)) == if at == OverlayRoot then SetExpanded(p, c, false) else s;
    }
  }

  /** A click on a link inside the burger menu (main.js:265-273). */
  lemma BurgerLinkClickKeepsInv(p: Page, s: State)
    requires Inv(p, s)
    ensures Inv(p, Step(p, s, BurgerLinkClick))
  {
    ClosePreservesInv(p, s, p.burgerMenu);
    SetExpandedKeepsInv(p, Close(p, s, p.burgerMenu), false);
  }

  /** A click on the burger toggle (main.js:217-228). */
  lemma BurgerToggleClickKeepsInv(p: Page, s: State)
    requires WellFormed(p) && Inv(p, s)
    ensures Inv(p, Step(p, s, BurgerToggleClick))
  {
    if p.burgerMenu.Some? {
      if p.burgerMenu.value in s.active {
        ToggleClosesOpenMenu(p, s, p.burgerMenu.value);
      } else {
        ToggleOpensClosedMenu(p, s, p.burgerMenu.value);
      }
    }
  }

  /** Moving focus touches none of the bookkeeping. */
  lemma FocusKeepsInv(p: Page, s: State, f: Option<Element>)
    requires Inv(p, s)
    ensures Inv(p, s.(focused := f))
  {
    var r := s.(focused := f);
    assert OneHandlerPerOpenTrap(p, r) && CleanupsBalanced(r);
  }

  /** The Escape handler keeps the invariant. */
  lemma EscapeKeepsInv(p: Page, s: State)
    requires WellFormed(p) && Inv(p, s)
    ensures Inv(p, OnDocumentKeydown(p, s, Escape))
  {
    var os := ActiveInOrder(p.overlays, s.active);
    ActiveInOrderDistinct(p.overlays, s.active);
    forall i | 0 <= i < |os| ensures os[i] in s.active {
      assert os[i] in os;
    }
    CloseEachKeepsInv(p, s, os);
  }

  /** A keydown: the trap of the overlay it happened in, then the document handler. */
  lemma KeydownKeepsInv(p: Page, s: State, inside: Option<Element>, key: Key, shift: bool)
    requires WellFormed(p) && Inv(p, s)
    ensures Inv(p, Step(p, s, Keydown(inside, key, shift)))
  {
    var s1 := if inside.Some? then TrapKey(p, s, inside.value, key, shift) else s;
    if inside.Some? {
      TrapKeyKeepsInv(p, s, inside.value, key, shift);
    }
    assert Step(p, s, Keydown(inside, key, shift)) == OnDocumentKeydown(p, s1, key);
    if key == Escape {
      EscapeKeepsInv(p, s1);
    }
  }

  /** The trap handler keeps the invariant. */
  lemma TrapKeyKeepsInv(p: Page, s: State, c: Element, key: Key, shift: bool)
    requires Inv(p, s)
    ensures Inv(p, TrapKey(p, s, c, key, shift))
  {
    TrapKeyOnlyMovesFocus(p, s, c, key, shift);
    FocusKeepsInv(p, s, TrapKey(p, s, c, key, shift).focused);
  }

  /** Every handler keeps the invariant. */
  lemma StepKeepsInv(p: Page, s: State, e: Event)
    requires WellFormed(p) && Inv(p, s) && EventOk(p, e)
    ensures Inv(p, Step(p, s, e))
  {
    match e
    case TriggerClick(o, t) => TriggerClickKeepsInv(p, s, o, t);
    case CloserClick(o) => CloserClickKeepsInv(p, s, o);
    case PointerDown(o, at) => PointerDownKeepsInv(p, s, o, at);
    case BurgerLinkClick => BurgerLinkClickKeepsInv(p, s);
    case BurgerToggleClick => BurgerToggleClickKeepsInv(p, s);
    case Keydown(inside, key, shift) => KeydownKeepsInv(p, s, inside, key, shift);
    case FocusMoved(to) => FocusKeepsInv(p, s, to);
  }

  /** Over any sequence of events the invariant holds; in particular scroll is
      locked iff some overlay is open, each overlay has a cleanup and a return
      target iff it is open, and every trap installed is cleaned up exactly once
      unless its overlay is still open. */
  lemma {:induction false} RunKeepsInv(p: Page, s: State, es: seq<Event>)
    requires WellFormed(p) && Inv(p, s)
    requires forall i :: 0 <= i < |es| ==> EventOk(p, es[i])
    ensures Inv(p, Run(p, s, es))
    decreases |es|
  {
    if es != [] {
      StepKeepsInv(p, s, es[0]);
      RunKeepsInv(p, Step(p, s, es[0]), es[1..]);
    }
  }

  /** Over any sequence of events aria-expanded stays in sync with the burger menu. */
  lemma {:induction false} RunKeepsSynced(p: Page, s: State, es: seq<Event>)
    requires WellFormed(p) && Synced(p, s)
    requires forall i :: 0 <= i < |es| ==> EventOk(p, es[i])
    ensures Synced(p, Run(p, s, es))
    decreases |es|
  {
    if es != [] {
      StepKeepsSynced(p, s, es[0]);
      RunKeepsSynced(p, Step(p, s, es[0]), es[1..]);
    }
  }

  /** From page load on, the body's scroll lock is on exactly while some overlay is open. */
  lemma ScrollLockedIffSomeOverlayOpen(p: Page, focused: Option<Element>, es: seq<Event>)
    requires WellFormed(p)
    requires forall i :: 0 <= i < |es| ==> EventOk(p, es[i])
    ensures Run(p, Initial(focused), es).scrollLocked <==> Run(p, Initial(focused), es).active != {}
  {
    InitialIsValid(p, focused);
    RunKeepsInv(p, Initial(focused), es);
  }

  /** From page load on, the toggle's aria-expanded is "true" exactly while the
      burger menu is open. */
  lemma AriaExpandedIffMenuOpen(p: Page, focused: Option<Element>, es: seq<Event>)
    requires WellFormed(p) && p.burgerToggle.Some? && p.burgerMenu.Some?
    requires forall i :: 0 <= i < |es| ==> EventOk(p, es[i])
    ensures Run(p, Initial(focused), es).ariaExpanded <==> p.burgerMenu.value in Run(p, Initial(focused), es).active
  {
    InitialIsValid(p, focused);
    RunKeepsSynced(p, Initial(focused), es);
  }
}
