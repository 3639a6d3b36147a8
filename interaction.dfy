/**
 * The menu and navbar controller of js/responsive.js, stated as a pure state
 * machine. The DOM is replaced by plain values: the three "active" class
 * markers, the body's overflow lock, the number of menu footers, the inline
 * animation styles of the menu links, the navbar's two presentational
 * markers and the script's own variables (last scroll offset, touch
 * coordinates and the two throttle flags).
 */
module Interaction {
  import opened Wrappers

  /** Minimum horizontal travel, in pixels, for a touch to count as a swipe. */
  const SwipeThreshold: int := 100
  /** An opening swipe must start this close to the left edge. */
  const EdgeZone: int := 50
  /** Past this vertical offset the navbar gets its "scrolled" marker. */
  const ScrolledOffset: int := 50
  /** On narrow screens the navbar hides only when scrolled down past this. */
  const HideOffset: int := 150
  /** Widths up to and including this are the mobile layout. */
  const MobileBreakpoint: int := 768
  /** Animation duration given to every menu link on open: 0.7s. */
  const LinkDurationTenths: nat := 7

  /**
   * Inline animation style of one menu link, in tenths of a second;
   * None is the empty string (no inline override).
   */
  datatype LinkStyle = LinkStyle(delayTenths: Option<nat>, durationTenths: Option<nat>)

  const Unstyled: LinkStyle := LinkStyle(None, None)

  /** The navigation bar, if the page has one: "scrolled" marker and hide transform. */
  datatype Navbar = Absent | Present(scrolled: bool, hidden: bool)

  datatype Page = Page(
    toggleActive: bool,       // "active" on the menu toggle control
    panelActive: bool,        // "active" on the menu panel: the open state
    overlayActive: bool,      // "active" on the overlay
    bodyLocked: bool,         // body overflow is "hidden"
    footerCount: nat,         // number of menu-footer elements in the panel
    links: seq<LinkStyle>,    // inline styles of the menu links, in document order
    navbar: Navbar,
    lastScrollTop: int,
    touchStartX: int,
    touchEndX: int,
    scrollThrottled: bool,    // the scroll handler's throttle window is open
    resizeThrottled: bool)    // the resize handler's throttle window is open

  /** The menu is open exactly when its panel carries the "active" marker. */
  predicate IsOpen(p: Page) {
    p.panelActive
  }

  /** Link i is delayed by (i + 1) tenths and runs for 0.7s. */
  function Staggered(n: nat): seq<LinkStyle> {
    seq(n, i requires 0 <= i => LinkStyle(Some(i + 1), Some(LinkDurationTenths)))
  }

  function Cleared(n: nat): seq<LinkStyle> {
    seq(n, i => Unstyled)
  }

  /**
   * The consistency every reachable page keeps: the three markers and the
   * scroll lock agree, there is at most one footer and one whenever the menu
   * is open, and the link styles are those of the last open or close.
   */
  predicate Valid(p: Page) {
    && p.toggleActive == p.panelActive
    && p.overlayActive == p.panelActive
    && p.bodyLocked == p.panelActive
    && p.footerCount <= 1
    && (p.panelActive ==> p.footerCount == 1)
    && p.links == (if p.panelActive then Staggered(|p.links|) else Cleared(|p.links|))
  }

  /** The page as the script finds it: menu closed, no footer, no inline styles. */
  function Initial(linkCount: nat, hasNavbar: bool): (p: Page)
    ensures Valid(p) && !IsOpen(p) && |p.links| == linkCount
    ensures p.navbar.Present? == hasNavbar
  {
    Page(false, false, false, false, 0, Cleared(linkCount),
         if hasNavbar then Present(false, false) else Absent,
         0, 0, 0, false, false)
  }

  function ShowNavbar(nb: Navbar): Navbar {
    if nb.Present? then nb.(hidden := false) else Absent
  }

  /** openMobileMenu: markers on, scroll locked, navbar shown, footer added if missing, links staggered. */
  function OpenMenu(p: Page): (r: Page)
    ensures IsOpen(r) && r.bodyLocked
    ensures p.footerCount <= 1 ==> Valid(r)
  {
    p.(toggleActive := true, panelActive := true, overlayActive := true, bodyLocked := true,
       navbar := ShowNavbar(p.navbar),
       footerCount := if p.footerCount == 0 then 1 else p.footerCount,
       links := Staggered(|p.links|))
  }

  /** closeMobileMenu: markers off, scroll unlocked, link animation overrides cleared. */
  function CloseMenu(p: Page): (r: Page)
    ensures !IsOpen(r) && !r.bodyLocked
    ensures p.footerCount <= 1 ==> Valid(r)
  {
    p.(toggleActive := false, panelActive := false, overlayActive := false, bodyLocked := false,
       links := Cleared(|p.links|))
  }

  /** toggleMobileMenu: decides on the panel's marker alone. */
  function ToggleMenu(p: Page): (r: Page)
    ensures IsOpen(r) == !IsOpen(p)
    ensures r.footerCount >= p.footerCount
  {
    if p.panelActive then CloseMenu(p) else OpenMenu(p)
  }

  datatype SwipeAction = OpenGesture | CloseGesture | Ignored

  /** handleSwipeGesture's decision for a touch from start to end with the menu open or not. */
  function SwipeDecision(start: int, end: int, open: bool): (a: SwipeAction)
    ensures a != Ignored ==> end - start > SwipeThreshold || end - start < -SwipeThreshold
    ensures a == OpenGesture ==> !open && start < EdgeZone
    ensures a == CloseGesture ==> open
  {
    if end - start > SwipeThreshold && start < EdgeZone && !open then OpenGesture
    else if end - start < -SwipeThreshold && open then CloseGesture
    else Ignored
  }

  /** The touchend listener: record the end coordinate, then act on the swipe. */
  function EndTouch(p: Page, x: int): (r: Page)
    ensures r.touchEndX == x && r.touchStartX == p.touchStartX
    ensures IsOpen(r) != IsOpen(p) ==> x - p.touchStartX > SwipeThreshold || x - p.touchStartX < -SwipeThreshold
  {
    var q := p.(touchEndX := x);
    match SwipeDecision(q.touchStartX, q.touchEndX, q.panelActive)
    case OpenGesture => OpenMenu(q)
    case CloseGesture => CloseMenu(q)
    case Ignored => q
  }

  /** Whether the navbar is hidden after a scroll to offset from last at the given width. */
  function NavbarHides(width: int, offset: int, last: int): bool {
    width <= MobileBreakpoint && offset > last && offset > HideOffset
  }

  /** The throttled scroll callback; it is only registered when the navbar exists. */
  function ScrollTick(p: Page, offset: int, width: int): (r: Page)
    requires p.navbar.Present?
    ensures r.navbar.Present? && r.lastScrollTop == offset
    ensures r.navbar.hidden ==> width <= MobileBreakpoint && offset > p.lastScrollTop
    ensures IsOpen(r) == IsOpen(p) && r.links == p.links
  {
    p.(navbar := Present(offset > ScrolledOffset, NavbarHides(width, offset, p.lastScrollTop)),
       lastScrollTop := offset)
  }

  /** The throttled resize callback, menu and navbar part. */
  function ResizeTick(p: Page, width: int): (r: Page)
    ensures width > MobileBreakpoint ==> !IsOpen(r) && !r.bodyLocked && (r.navbar.Present? ==> !r.navbar.hidden)
    ensures width <= MobileBreakpoint ==> r == p
  {
    if width > MobileBreakpoint then CloseMenu(p).(navbar := ShowNavbar(p.navbar)) else p
  }

  /** One of the two document keydown listeners that close the menu on Escape. */
  function EscapeListener(p: Page, key: string): (r: Page)
    ensures key == "Escape" ==> !IsOpen(r)
    ensures key != "Escape" || !IsOpen(p) ==> r == p
  {
    if key == "Escape" && p.panelActive then CloseMenu(p) else p
  }

  /**
   * A keydown reaching the document: the Escape listener registered with the
   * menu, then the keyboard-navigation listener (Escape again, and Enter or
   * Space on the toggle control toggles the menu).
   */
  function OnKeyDown(p: Page, key: string, onToggle: bool): (r: Page)
    ensures key == "Escape" ==> !IsOpen(r)
    ensures key != "Escape" && key != "Enter" && key != " " ==> r == p
    ensures !onToggle && !IsOpen(p) ==> r == p
  {
    var q := EscapeListener(EscapeListener(p, key), key);
    if (key == "Enter" || key == " ") && onToggle then ToggleMenu(q) else q
  }

  datatype Event =
    | ToggleActivated
    | OverlayClicked
    | LinkClicked
    | KeyDown(key: string, onToggle: bool)
    | TouchStart(x: int)
    | TouchEnd(x: int)
    | Scroll(offset: int, width: int)
    | ScrollTimerFired
    | Resize(width: int)
    | ResizeTimerFired

  /** The page after the listeners for one event have run. */
  function Step(p: Page, e: Event): (r: Page)
    ensures |r.links| == |p.links|
    ensures IsOpen(r) != IsOpen(p) ==>
      e.ToggleActivated? || e.OverlayClicked? || e.LinkClicked? || e.KeyDown? || e.TouchEnd? || e.Resize?
  {
    match e
    case ToggleActivated => ToggleMenu(p)
    case OverlayClicked => CloseMenu(p)
    case LinkClicked => CloseMenu(p)
    case KeyDown(key, onToggle) => OnKeyDown(p, key, onToggle)
    case TouchStart(x) => p.(touchStartX := x)
    case TouchEnd(x) => EndTouch(p, x)
    case Scroll(offset, width) =>
      if p.navbar.Absent? || p.scrollThrottled then p
      else ScrollTick(p, offset, width).(scrollThrottled := true)
    case ScrollTimerFired => p.(scrollThrottled := false)
    case Resize(width) =>
      if p.resizeThrottled then p
      else ResizeTick(p, width).(resizeThrottled := true)
    case ResizeTimerFired => p.(resizeThrottled := false)
  }

  function Run(p: Page, es: seq<Event>): Page
    decreases |es|
  {
    if es == [] then p else Run(Step(p, es[0]), es[1..])
  }

  function Toggles(k: nat): seq<Event> {
    seq(k, i => ToggleActivated)
  }

  // ---------------------------------------------------------------------
  // Open, close and toggle

  /** Toggle flips the open state and, from a consistent page, keeps it consistent. */
  lemma ToggleFlips(p: Page)
    requires Valid(p)
    ensures IsOpen(ToggleMenu(p)) == !IsOpen(p)
    ensures Valid(ToggleMenu(p))
  {
  }

  /** What open promises: markers and lock on, link i at (i + 1) tenths for 0.7s, navbar visible. */
  lemma OpenEffects(p: Page)
    ensures var q := OpenMenu(p);
      && q.toggleActive && q.panelActive && q.overlayActive && q.bodyLocked
      && |q.links| == |p.links|
      && (forall i :: 0 <= i < |q.links| ==>
            q.links[i].delayTenths == Some(i + 1) && q.links[i].durationTenths == Some(LinkDurationTenths))
      && (q.navbar.Present? <==> p.navbar.Present?)
      && (q.navbar.Present? ==> !q.navbar.hidden && q.navbar.scrolled == p.navbar.scrolled)
      && q.footerCount == (if p.footerCount == 0 then 1 else p.footerCount)
      && q == p.(toggleActive := true, panelActive := true, overlayActive := true, bodyLocked := true,
                 footerCount := q.footerCount, navbar := q.navbar, links := q.links)
  {
  }

  /** What close promises: markers and lock off, every link's delay and duration cleared. */
  lemma CloseEffects(p: Page)
    ensures var q := CloseMenu(p);
      && !q.toggleActive && !q.panelActive && !q.overlayActive && !q.bodyLocked
      && |q.links| == |p.links|
      && (forall i :: 0 <= i < |q.links| ==> q.links[i] == Unstyled)
      && q == p.(toggleActive := false, panelActive := false, overlayActive := false, bodyLocked := false,
                 links := q.links)
  {
  }

  lemma CloseIdempotent(p: Page)
    ensures CloseMenu(CloseMenu(p)) == CloseMenu(p)
  {
  }

  lemma OpenIdempotent(p: Page)
    ensures OpenMenu(OpenMenu(p)) == OpenMenu(p)
  {
  }

  /**
   * Escape is heard by two document listeners; because close is idempotent
   * the second one changes nothing, and Escape means exactly "close if open".
   */
  lemma DuplicateEscapeListeners(p: Page, onToggle: bool)
    ensures OnKeyDown(p, "Escape", onToggle) == (if IsOpen(p) then CloseMenu(p) else p)
  {
    CloseIdempotent(p);
  }

  /** Enter or Space on the toggle control toggles; elsewhere it does nothing. */
  lemma ActivationKeys(p: Page, key: string, onToggle: bool)
    requires key == "Enter" || key == " "
    ensures OnKeyDown(p, key, onToggle) == (if onToggle then ToggleMenu(p) else p)
  {
  }

  // ---------------------------------------------------------------------
  // Swipes

  /** A swipe opens the menu exactly when it starts near the left edge, travels right past the threshold and the menu is closed. */
  lemma SwipeOpens(p: Page, x: int)
    ensures (!IsOpen(p) && IsOpen(EndTouch(p, x)))
        <==> (x - p.touchStartX > SwipeThreshold && p.touchStartX < EdgeZone && !IsOpen(p))
  {
  }

  /** A swipe closes the menu exactly when it travels left past the threshold and the menu is open. */
  lemma SwipeCloses(p: Page, x: int)
    ensures (IsOpen(p) && !IsOpen(EndTouch(p, x)))
        <==> (x - p.touchStartX < -SwipeThreshold && IsOpen(p))
  {
  }

  /** Every other gesture only records where the touch ended. */
  lemma SwipeOtherwiseIgnored(p: Page, x: int)
    requires !(x - p.touchStartX > SwipeThreshold && p.touchStartX < EdgeZone && !IsOpen(p))
    requires !(x - p.touchStartX < -SwipeThreshold && IsOpen(p))
    ensures EndTouch(p, x) == p.(touchEndX := x)
  {
  }

  // ---------------------------------------------------------------------
  // Scrolling and resizing

  /** A scroll tick: "scrolled" iff past 50px, hidden only on narrow screens when scrolling down past 150px. */
  lemma ScrollTickEffects(p: Page, offset: int, width: int)
    requires p.navbar.Present?
    ensures var q := ScrollTick(p, offset, width);
      && q.navbar.Present?
      && (q.navbar.scrolled <==> offset > ScrolledOffset)
      && (width <= MobileBreakpoint ==>
            (q.navbar.hidden <==> offset > p.lastScrollTop && offset > HideOffset))
      && (width > MobileBreakpoint ==> !q.navbar.hidden)
      && q.lastScrollTop == offset
      && q == p.(navbar := q.navbar, lastScrollTop := offset)
  {
  }

  /** Scrolling up, or not moving, always shows the navbar. */
  lemma ScrollingUpShowsNavbar(p: Page, offset: int, width: int)
    requires p.navbar.Present? && offset <= p.lastScrollTop
    ensures !ScrollTick(p, offset, width).navbar.hidden
  {
  }

  /** A wide resize closes the menu and shows the navbar; a narrow one leaves the page alone. */
  lemma ResizeEffects(p: Page, width: int)
    requires Valid(p)
    ensures var q := ResizeTick(p, width);
      && Valid(q)
      && (width > MobileBreakpoint ==> !IsOpen(q) && (q.navbar.Present? ==> !q.navbar.hidden))
      && (width <= MobileBreakpoint ==> q == p)
  {
  }

  /** Scroll and resize events inside their throttle window are dropped. */
  lemma ThrottledEventsDropped(p: Page, offset: int, width: int)
    ensures p.scrollThrottled ==> Step(p, Scroll(offset, width)) == p
    ensures p.resizeThrottled ==> Step(p, Resize(width)) == p
  {
  }

  // ---------------------------------------------------------------------
  // Whole runs

  lemma StepPreservesValid(p: Page, e: Event)
    requires Valid(p)
    ensures Valid(Step(p, e))
    ensures |Step(p, e).links| == |p.links|
  {
  }

  /** The three markers agree, and the lock follows them, after any sequence of events. */
  lemma {:induction false} RunPreservesValid(p: Page, es: seq<Event>)
    requires Valid(p)
    ensures Valid(Run(p, es))
    ensures |Run(p, es).links| == |p.links|
    decreases |es|
  {
    if es != [] {
      StepPreservesValid(p, es[0]);
      RunPreservesValid(Step(p, es[0]), es[1..]);
    }
  }

  /** Repeated toggling alternates strictly between closed and open. */
  lemma {:induction false} ToggleAlternates(p: Page, k: nat)
    ensures IsOpen(Run(p, Toggles(k))) == (IsOpen(p) != (k % 2 == 1))
    decreases k
  {
    if k > 0 {
      assert Toggles(k)[0] == ToggleActivated;
      assert Toggles(k)[1..] == Toggles(k - 1);
      ToggleAlternates(ToggleMenu(p), k - 1);
    }
  }

  /** A footer is added at most once and never removed. */
  lemma StepFooter(p: Page, e: Event)
    ensures p.footerCount <= Step(p, e).footerCount
    ensures p.footerCount >= 1 ==> Step(p, e).footerCount == p.footerCount
    ensures Step(p, e).footerCount <= 1 || Step(p, e).footerCount == p.footerCount
  {
  }

  lemma {:induction false} RunFooter(p: Page, es: seq<Event>)
    requires p.footerCount >= 1
    ensures Run(p, es).footerCount == p.footerCount
    decreases |es|
  {
    if es != [] {
      StepFooter(p, es[0]);
      RunFooter(Step(p, es[0]), es[1..]);
    }
  }

  /** After an open, however many events follow, the panel holds exactly one footer. */
  lemma ExactlyOneFooterAfterOpen(p: Page, es: seq<Event>)
    requires p.footerCount <= 1
    ensures Run(OpenMenu(p), es).footerCount == 1
  {
    RunFooter(OpenMenu(p), es);
  }

  /** Clicking the toggle on a closed menu opens and locks it; clicking the overlay then closes and unlocks it. */
  lemma ToggleThenOverlay(p: Page)
    requires Valid(p) && !IsOpen(p)
    ensures var q := Step(p, ToggleActivated);
      IsOpen(q) && q.bodyLocked && q.overlayActive && q.toggleActive
    ensures var r := Run(p, [ToggleActivated, OverlayClicked]);
      !IsOpen(r) && !r.bodyLocked && !r.overlayActive && Valid(r)
  {
    RunPreservesValid(p, [ToggleActivated, OverlayClicked]);
  }
}
