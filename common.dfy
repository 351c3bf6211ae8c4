/** Shared vocabulary of the overlay manager and the animation loop. */
module Common {

  datatype Option<T> = None | Some(value: T)

  /** Identity of a DOM element: an overlay root, a trigger, a focusable descendant.
      Element identity (`===` in the page script) is equality of these numbers. */
  type Element = nat

  /** The `key` of a keydown event, as far as the page script distinguishes it. */
  datatype Key = Tab | Escape | OtherKey
}
