/**
 * The focus trap that js/responsive.js installs on the menu panel. The
 * focusable descendants are collected once, so the trap works on a list of
 * fixed length; focus is an index into that list, and an index outside it
 * means focus is somewhere else on the page.
 */
module FocusTrap {
  import opened Wrappers

  /**
   * The keydown listener: Some(target) when it moves focus to target and
   * prevents the browser's default action, None when it does not intercept.
   */
  function Trap(count: nat, current: int, key: string, shift: bool): (r: Option<nat>)
    ensures r.Some? ==> r.value < count
    ensures r.Some? ==> key == "Tab" && 0 <= current < count
    ensures count == 0 ==> r == None
  {
    if key == "Tab" then
      if shift then
        if count > 0 && current == 0 then Some(count - 1) else None
      else
        if count > 0 && current == count - 1 then Some(0) else None
    else None
  }

  /** Tab wraps to the first element exactly when focus is on the last one. */
  lemma TabWrapsOnlyAtLast(count: nat, current: int)
    ensures Trap(count, current, "Tab", false) != None
        <==> count > 0 && current == count - 1
    ensures Trap(count, current, "Tab", false) != None
        ==> Trap(count, current, "Tab", false) == Some(0)
  {
  }

  /** Shift+Tab wraps to the last element exactly when focus is on the first one. */
  lemma ShiftTabWrapsOnlyAtFirst(count: nat, current: int)
    ensures Trap(count, current, "Tab", true) != None
        <==> count > 0 && current == 0
    ensures Trap(count, current, "Tab", true) != None
        ==> Trap(count, current, "Tab", true) == Some(count - 1)
  {
  }

  /** Keys other than Tab are never intercepted. */
  lemma OtherKeysPass(count: nat, current: int, key: string, shift: bool)
    requires key != "Tab"
    ensures Trap(count, current, key, shift) == None
  {
  }

  /**
   * Where focus goes after a keydown when the listener does not intercept:
   * Tab and Shift+Tab move to the next or previous focusable element in
   * document order, other keys leave focus where it is.
   */
  function DefaultFocus(current: int, key: string, shift: bool): int {
    if key != "Tab" then current
    else if shift then current - 1
    else current + 1
  }

  function NextFocus(count: nat, current: int, key: string, shift: bool): int {
    match Trap(count, current, key, shift)
    case Some(target) => target
    case None => DefaultFocus(current, key, shift)
  }

  /** With the trap in place, keyboard focus that is inside the menu never leaves it. */
  lemma FocusStaysInMenu(count: nat, current: int, key: string, shift: bool)
    requires 0 <= current < count
    ensures 0 <= NextFocus(count, current, key, shift) < count
  {
  }

  /**
   * Tab off the last element and then Shift+Tab off the first bring focus
   * back to the last element: the two wraps undo each other.
   */
  lemma WrapRoundTrip(count: nat)
    requires count > 0
    ensures NextFocus(count, NextFocus(count, count - 1, "Tab", false), "Tab", true) == count - 1
    ensures NextFocus(count, NextFocus(count, 0, "Tab", true), "Tab", false) == 0
  {
  }
}
