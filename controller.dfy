/**
 * The live handlers of js/responsive.js over mutable fields: the class holds
 * what the script reads and writes on the page, and each handler is proved
 * to move the page exactly as the corresponding function of Interaction.
 */
module Controller {
  import opened Wrappers
  import opened Interaction
  import opened Throttling
  import FocusTrap

  class PageController {
    var toggleActive: bool
    var panelActive: bool
    var overlayActive: bool
    var bodyLocked: bool
    var footerCount: nat
    const links: array<LinkStyle>
    const hasNavbar: bool
    var navbarScrolled: bool
    var navbarHidden: bool
    var lastScrollTop: int
    var touchStartX: int
    var touchEndX: int
    const scrollThrottle: Throttle
    const resizeThrottle: Throttle
    /** Number of focusable elements in the menu panel, collected once. */
    const focusableCount: nat
    /** Index of the focused element in that list; outside it, focus is elsewhere. */
    var focused: int

    ghost function View(): Interaction.Page
      reads this, links, scrollThrottle, resizeThrottle
    {
      Interaction.Page(toggleActive, panelActive, overlayActive, bodyLocked, footerCount, links[..],
                       if hasNavbar then Present(navbarScrolled, navbarHidden) else Absent,
                       lastScrollTop, touchStartX, touchEndX,
                       scrollThrottle.inThrottle, resizeThrottle.inThrottle)
    }

    ghost predicate Valid()
      reads this, links, scrollThrottle, resizeThrottle
    {
      scrollThrottle != resizeThrottle && Interaction.Valid(View())
    }

    /** The state when the page's DOMContentLoaded listener has run. */
    constructor (linkCount: nat, hasNavbar: bool, focusableCount: nat)
      ensures Valid() && View() == Initial(linkCount, hasNavbar)
      ensures this.focusableCount == focusableCount && focused == -1
      ensures fresh(links) && fresh(scrollThrottle) && fresh(resizeThrottle)
    {
      toggleActive, panelActive, overlayActive, bodyLocked := false, false, false, false;
      footerCount := 0;
      links := new LinkStyle[linkCount](i => Unstyled);
      this.hasNavbar := hasNavbar;
      navbarScrolled, navbarHidden := false, false;
      lastScrollTop, touchStartX, touchEndX := 0, 0, 0;
      scrollThrottle := new Throttle(100);
      resizeThrottle := new Throttle(250);
      this.focusableCount := focusableCount;
      focused := -1;
      new;
      assert links[..] == Cleared(linkCount);
    }

    method Open()
      modifies this, links
      ensures View() == Interaction.OpenMenu(old(View()))
      ensures focused == old(focused)
    {
      toggleActive, panelActive, overlayActive := true, true, true;
      bodyLocked := true;
      if hasNavbar {
        navbarHidden := false;
      }
      if footerCount == 0 {
        footerCount := 1;
      }
      var i := 0;
      while i < links.Length
        invariant 0 <= i <= links.Length
        invariant forall j :: 0 <= j < i ==> links[j] == LinkStyle(Some(j + 1), Some(LinkDurationTenths))
        modifies links
      {
        links[i] := LinkStyle(Some(i + 1), Some(LinkDurationTenths));
        i := i + 1;
      }
      assert links[..] == Staggered(links.Length);
    }

    method Close()
      modifies this, links
      ensures View() == Interaction.CloseMenu(old(View()))
      ensures focused == old(focused)
    {
      toggleActive, panelActive, overlayActive := false, false, false;
      bodyLocked := false;
      var i := 0;
      while i < links.Length
        invariant 0 <= i <= links.Length
        invariant forall j :: 0 <= j < i ==> links[j] == Unstyled
        modifies links
      {
        links[i] := Unstyled;
        i := i + 1;
      }
      assert links[..] == Cleared(links.Length);
    }

    method Toggle()
      modifies this, links
      ensures View() == ToggleMenu(old(View()))
      ensures focused == old(focused)
    {
      if panelActive {
        Close();
      } else {
        Open();
      }
    }

    method TouchStart(x: int)
      modifies this
      ensures View() == old(View()).(touchStartX := x)
      ensures focused == old(focused)
    {
      touchStartX := x;
    }

    /** The touchend listener and handleSwipeGesture, with its two independent tests. */
    method TouchEnd(x: int)
      modifies this, links
      ensures View() == EndTouch(old(View()), x)
      ensures focused == old(focused)
    {
      touchEndX := x;
      var distance := touchEndX - touchStartX;
      if distance > SwipeThreshold && touchStartX < EdgeZone {
        if !panelActive {
          Open();
        }
      }
      if distance < -SwipeThreshold && panelActive {
        Close();
      }
    }

    /** The scroll listener: the throttle gate, then the navbar update. */
    method Scroll(offset: int, width: int)
      requires scrollThrottle != resizeThrottle
      modifies this, scrollThrottle
      ensures View() == Step(old(View()), Interaction.Scroll(offset, width))
      ensures focused == old(focused)
    {
      if hasNavbar {
        var run := scrollThrottle.Invoke();
        if run {
          navbarScrolled := offset > ScrolledOffset;
          if width <= MobileBreakpoint {
            if offset > lastScrollTop && offset > HideOffset {
              navbarHidden := true;
            } else {
              navbarHidden := false;
            }
          } else {
            navbarHidden := false;
          }
          lastScrollTop := offset;
        }
      }
    }

    /** The resize listener: the throttle gate, then close and show the navbar on wide screens. */
    method Resize(width: int)
      requires scrollThrottle != resizeThrottle
      modifies this, links, resizeThrottle
      ensures View() == Step(old(View()), Interaction.Resize(width))
      ensures focused == old(focused)
    {
      var run := resizeThrottle.Invoke();
      if run && width > MobileBreakpoint {
        Close();
        if hasNavbar {
          navbarHidden := false;
        }
      }
    }

    /** One document keydown listener that closes an open menu on Escape. */
    method EscapeListener(key: string)
      modifies this, links
      ensures View() == Interaction.EscapeListener(old(View()), key)
      ensures focused == old(focused)
    {
      if key == "Escape" && panelActive {
        Close();
      }
    }

    /**
     * A keydown reaching the document: the Escape listener registered with
     * the menu, then the keyboard-navigation listener, which repeats the
     * Escape test and toggles on Enter or Space over the toggle control.
     */
    method KeyDown(key: string, onToggle: bool) returns (prevented: bool)
      modifies this, links
      ensures View() == OnKeyDown(old(View()), key, onToggle)
      ensures prevented == ((key == "Enter" || key == " ") && onToggle)
      ensures focused == old(focused)
    {
      EscapeListener(key);
      EscapeListener(key);
      prevented := false;
      if (key == "Enter" || key == " ") && onToggle {
        prevented := true;
        Toggle();
      }
    }

    /** The keydown listener on the menu panel; prevented says whether the default action is cancelled. */
    method MenuKeyDown(key: string, shift: bool) returns (prevented: bool)
      modifies this`focused
      ensures prevented == FocusTrap.Trap(focusableCount, old(focused), key, shift).Some?
      ensures focused == if prevented then FocusTrap.Trap(focusableCount, old(focused), key, shift).value
                         else old(focused)
      ensures prevented ==> 0 <= focused < focusableCount
    {
      prevented := false;
      if key == "Tab" {
        if shift {
          if focusableCount > 0 && focused == 0 {
            focused := focusableCount - 1;
            prevented := true;
          }
        } else {
          if focusableCount > 0 && focused == focusableCount - 1 {
            focused := 0;
            prevented := true;
          }
        }
      }
    }

    /** Runs the listeners for one event; the page stays consistent. */
    method Dispatch(e: Event)
      requires Valid()
      modifies this, links, scrollThrottle, resizeThrottle
      ensures Valid()
      ensures View() == Step(old(View()), e)
      ensures focused == old(focused)
    {
      ghost var before := View();
      match e
      case ToggleActivated => Toggle();
      case OverlayClicked => Close();
      case LinkClicked => Close();
      case KeyDown(key, onToggle) => { var _ := KeyDown(key, onToggle); }
      case TouchStart(x) => TouchStart(x);
      case TouchEnd(x) => TouchEnd(x);
      case Scroll(offset, width) => Scroll(offset, width);
      case ScrollTimerFired => scrollThrottle.Expire();
      case Resize(width) => Resize(width);
      case ResizeTimerFired => resizeThrottle.Expire();
      StepPreservesValid(before, e);
    }
  }
}
