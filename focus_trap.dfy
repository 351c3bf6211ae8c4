/** The keydown handler that trapFocus installs on an overlay (main.js:150-174). */
module FocusTrap {
  import opened Common

  /** What the handler leaves behind: the focused element, and whether it
      cancelled the browser's own Tab navigation (event.preventDefault()). */
  datatype Outcome = Outcome(focus: Option<Element>, prevented: bool)

  /** The handler's decision. `focusables` is the list captured when the trap was
      installed (it is not recomputed); the handler exists only when that list is
      non-empty. `active` is document.activeElement, `shift` the Shift modifier. */
  function OnKeydown(focusables: seq<Element>, active: Option<Element>, key: Key, shift: bool): (r: Outcome)
    requires |focusables| > 0
    ensures r.prevented ==> r.focus.Some? && r.focus.value in focusables
    ensures !r.prevented ==> r.focus == active
    ensures r.prevented ==> key == Tab
  {
    var first := focusables[0];
    var last := focusables[|focusables| - 1];
    if key != Tab then Outcome(active, false)
    else if |focusables| == 1 then Outcome(Some(first), true)
    else if shift && active == Some(first) then Outcome(Some(last), true)
    else if !shift && active == Some(last) then Outcome(Some(first), true)
    else Outcome(active, false)
  }

  /** With a single focusable element, Tab and Shift+Tab always pin focus to it. */
  lemma SingleFocusablePinned(f: Element, active: Option<Element>, shift: bool)
    ensures OnKeydown([f], active, Tab, shift) == Outcome(Some(f), true)
  {
  }

  /** Shift+Tab on the first of several focusables wraps to the last. */
  lemma ShiftTabWrapsToLast(focusables: seq<Element>)
    requires |focusables| > 1
    ensures OnKeydown(focusables, Some(focusables[0]), Tab, true)
         == Outcome(Some(focusables[|focusables| - 1]), true)
  {
  }

  /** Tab on the last of several focusables wraps to the first. */
  lemma TabWrapsToFirst(focusables: seq<Element>)
    requires |focusables| > 1
    ensures OnKeydown(focusables, Some(focusables[|focusables| - 1]), Tab, false)
         == Outcome(Some(focusables[0]), true)
  {
  }

  /** Exactly when the handler intervenes: a Tab that would leave the list at one
      end, or any Tab when there is a single focusable. Everywhere else focus is
      left to the browser and nothing is cancelled. */
  lemma PreventedExactlyAtEdges(focusables: seq<Element>, active: Option<Element>, key: Key, shift: bool)
    requires |focusables| > 0
    ensures OnKeydown(focusables, active, key, shift).prevented
        <==> key == Tab
             && (|focusables| == 1
                 || (shift && active == Some(focusables[0]))
                 || (!shift && active == Some(focusables[|focusables| - 1])))
  {
  }

  /** Keys other than Tab are ignored by the trap. */
  lemma OtherKeysIgnored(focusables: seq<Element>, active: Option<Element>, key: Key, shift: bool)
    requires |focusables| > 0 && key != Tab
    ensures OnKeydown(focusables, active, key, shift) == Outcome(active, false)
  {
  }

  /** Focus that starts inside the trapped list stays inside it, whatever the key. */
  lemma FocusStaysInside(focusables: seq<Element>, active: Element, key: Key, shift: bool)
    requires |focusables| > 0 && active in focusables
    ensures var r := OnKeydown(focusables, Some(active), key, shift);
            r.focus.Some? && r.focus.value in focusables
  {
  }
}
