# Responsive page controller of the motorcycle website, in Dafny

`js/responsive.js` wires the site's mobile behaviour to the browser. Under
the DOM calls sits a small controller:

- a mobile menu that opens and closes (toggle control, panel, overlay, body scroll lock, staggered link animations, a footer added on first open);
- a swipe detector;
- a navbar that gets a "scrolled" marker and hides on narrow screens when the page scrolls down;
- a resize handler that closes the menu on desktop widths;
- a throttle that drops handler calls for a while after one has run;
- a focus trap on the menu panel;
- a lazy-image loader.

This project models that controller with the DOM replaced by plain values and
proves what each handler promises.

Modules:

- `Interaction` (interaction.dfy) is the controller as a pure state machine. The
  `Page` datatype holds the three "active" markers, the scroll lock, the footer
  count, the links' inline animation styles, the navbar, `lastScrollTop`, the
  touch coordinates and the two throttle flags. `Step` gives the page after the
  listeners for one `Event` have run, and `Run` gives it after a sequence of events.
  The lemmas state the consistency invariant `Valid`, toggle alternation,
  idempotence of close and open, the single footer, and the swipe, scroll and
  resize rules.
- `Controller` (controller.dfy) is the same controller as a class,
  `PageController`, whose fields the handlers update in place. The menu links are
  an array that open and close loop over. Each handler method is proved to move
  `View()` exactly as the matching function of `Interaction` does, and
  `Dispatch` keeps `Valid()`.
- `Throttling` (throttle.dfy) holds the `Throttle` class (the captured
  `inThrottle` flag) and `Runs`, which counts the runs in a sequence of calls and
  timer expiries. Its lemmas say that calls are dropped, not queued, and that only
  an expiry re-arms the gate.
- `FocusTrap` (focus_trap.dfy) is the Tab / Shift+Tab wrap test over a focusable
  list of fixed length.
- `LazyImages` (lazy_images.dfy) is the intersection callback over
  `(src, dataSrc, opacity, observed)` images, with the batch function `Deliver`
  and the `LazyLoader` class over the array of images.

The file declares `toggleMobileMenu`, `openMobileMenu` and `closeMobileMenu`
twice. JavaScript hoists function declarations, so the second definitions
(js/responsive.js:175-226) are the ones every listener calls. Only they are
modelled.

Link animation delays are integer tenths of a second: link `i` gets `i + 1`,
which is what `0.1 + i * 0.1` seconds means. The duration `0.7s` is 7 tenths,
and the empty string is `None`.

## Model

| member | source | states |
|---|---|---|
| Interaction.Initial | js/responsive.js:6-49 | the page as the script finds it is consistent: menu closed, no footer, no link overrides |
| Interaction.SwipeDecision | js/responsive.js:60-75 | a swipe acts only past the 100px threshold; it opens only a closed menu from a start within 50px of the left edge, and closes only an open menu |
| Interaction.SwipeOpens | js/responsive.js:60-69 | the menu goes from closed to open on touchend exactly when start < 50, end − start > 100 and the menu was closed |
| Interaction.SwipeCloses | js/responsive.js:71-74 | the menu goes from open to closed on touchend exactly when end − start < −100 and the menu was open |
| Interaction.SwipeOtherwiseIgnored | js/responsive.js:55-75 | every other gesture only records the end coordinate |
| Interaction.OpenMenu | js/responsive.js:190-213 | open leaves the menu open and the body locked, and a page with at most one footer consistent |
| Interaction.CloseMenu | js/responsive.js:215-226 | close leaves the menu closed and the body unlocked, and a page with at most one footer consistent |
| Interaction.ToggleMenu | js/responsive.js:175-188 | toggle flips the open state and never removes a footer |
| Interaction.EndTouch | js/responsive.js:55-75 | touchend records the end coordinate, keeps the start, and changes the open state only for travel beyond ±100px |
| Interaction.ScrollTick | js/responsive.js:146-171 | a scroll tick records the offset, hides the navbar only on narrow screens when scrolling down, and leaves the menu alone |
| Interaction.ResizeTick | js/responsive.js:303-311 | a resize wider than 768 closes and unlocks the menu and shows the navbar; a narrower one changes nothing |
| Interaction.EscapeListener | js/responsive.js:40-44 | Escape leaves the menu closed; any other key, or a closed menu, leaves the page unchanged |
| Interaction.OnKeyDown | js/responsive.js:319-331 | after both document listeners, Escape leaves the menu closed; keys other than Escape, Enter and Space change nothing, nor does anything with a closed menu and the toggle not targeted |
| Interaction.Step | js/responsive.js:20-331 | an event keeps the number of links, and only activation, overlay and link clicks, keys, touchend and resize can change the open state |
| Interaction.ToggleFlips | js/responsive.js:175-182 | toggle flips the open state and keeps the markers, the lock, the footer and the link styles consistent |
| Interaction.ToggleAlternates | js/responsive.js:175-182 | after k activations of the toggle the menu is open exactly when it started open xor k is odd |
| Interaction.OpenEffects | js/responsive.js:190-213 | open sets all three markers and the lock, gives link i delay i+1 tenths and duration 0.7s, shows the navbar, adds a footer exactly when there was none, and changes nothing else |
| Interaction.CloseEffects | js/responsive.js:215-226 | close clears the three markers and the lock and every link's delay and duration, and changes nothing else |
| Interaction.CloseIdempotent | js/responsive.js:215-226 | closing twice is closing once |
| Interaction.OpenIdempotent | js/responsive.js:190-213 | opening twice is opening once (no second footer, same link styles) |
| Interaction.DuplicateEscapeListeners | js/responsive.js:40-44 | with both document Escape listeners, Escape closes an open menu and leaves a closed one alone |
| Interaction.ActivationKeys | js/responsive.js:326-330 | Enter or Space toggles the menu when the toggle control is the target, and does nothing otherwise |
| Interaction.ScrollTickEffects | js/responsive.js:146-171 | a scroll tick sets "scrolled" iff offset > 50; at width ≤ 768 the navbar hides iff offset > lastScrollTop and offset > 150; at width > 768 it is visible; lastScrollTop becomes the offset; nothing else changes |
| Interaction.ScrollingUpShowsNavbar | js/responsive.js:157-164 | scrolling up or staying put always shows the navbar |
| Interaction.ResizeEffects | js/responsive.js:303-311 | a resize to width > 768 leaves the menu closed and the navbar visible; at width ≤ 768 the page is unchanged |
| Interaction.ThrottledEventsDropped | js/responsive.js:369-373 | scroll and resize events inside their throttle window change nothing |
| Interaction.StepPreservesValid | js/responsive.js:175-226 | every event keeps the markers equal, the lock equal to them, at most one footer (one when open) and link styles matching the open state |
| Interaction.RunPreservesValid | js/responsive.js:175-226 | the same holds after any sequence of events |
| Interaction.StepFooter | js/responsive.js:201-206 | an event never removes a footer and adds one only when there is none |
| Interaction.RunFooter | js/responsive.js:201-206 | once a footer exists, no sequence of events changes the footer count |
| Interaction.ExactlyOneFooterAfterOpen | js/responsive.js:201-206 | after an open, whatever follows, the panel has exactly one footer |
| Interaction.ToggleThenOverlay | js/responsive.js:31-32 | toggle on a closed menu opens it, locks scrolling and activates the overlay; an overlay click then closes it and unlocks scrolling |
| Throttling.Runs | js/responsive.js:364-375 | runs never outnumber calls, and a call reaching an open gate always runs |
| Throttling.AtMostOncePerWindow | js/responsive.js:364-375 | within one window any number of calls runs the wrapped handler once if the gate was open and never if it was closed |
| Throttling.RunsBoundedByExpiries | js/responsive.js:369-372 | runs never exceed one per timer expiry, plus one if the gate starts open |
| Throttling.ExpiryRunsNothing | js/responsive.js:372 | calls dropped in the window are not replayed when the timer fires |
| Throttling.Throttle.constructor | js/responsive.js:365 | a new throttle starts outside the window |
| Throttling.Throttle.Invoke | js/responsive.js:369-373 | a call runs the handler exactly when outside the window, and the window is then open |
| Throttling.Throttle.Expire | js/responsive.js:372 | the timer closes the window |
| Throttling.BurstThenExpiry | js/responsive.js:364-375 | k ≥ 1 calls in one window, the timer, then one call: the handler runs exactly twice |
| FocusTrap.Trap | js/responsive.js:334-356 | the listener moves focus only on Tab with focus inside the list, always to an element of the list, and never with an empty list |
| FocusTrap.TabWrapsOnlyAtLast | js/responsive.js:348-352 | Tab is intercepted exactly on the last element and moves focus to the first |
| FocusTrap.ShiftTabWrapsOnlyAtFirst | js/responsive.js:343-347 | Shift+Tab is intercepted exactly on the first element and moves focus to the last |
| FocusTrap.OtherKeysPass | js/responsive.js:341-342 | keys other than Tab are never intercepted |
| FocusTrap.WrapRoundTrip | js/responsive.js:338-353 | Tab off the last element followed by Shift+Tab returns focus to the last element, and Shift+Tab off the first followed by Tab returns it to the first |
| FocusTrap.FocusStaysInMenu | js/responsive.js:334-356 | with the trap, focus inside the menu stays inside it after any key |
| LazyImages.Reveal | js/responsive.js:254-262 | an intersecting image takes a non-empty data-src as src and drops the attribute (otherwise keeps both), and ends with opacity 1 and no longer observed |
| LazyImages.EmptyDeferredSourceKept | js/responsive.js:256-260 | an empty data-src is falsy: src and the attribute are kept, and the image is only faded in and unobserved |
| LazyImages.OnEntry | js/responsive.js:253-262 | one entry changes at most its own target, loads it when intersecting and leaves it alone otherwise |
| LazyImages.Deliver | js/responsive.js:252-264 | a batch keeps the number of images and never unloads a loaded one |
| LazyImages.RevealOnce | js/responsive.js:254-262 | revealing is idempotent: a loaded image is unchanged by the handler |
| LazyImages.DeliverEffect | js/responsive.js:252-264 | after a batch, each image some entry reports intersecting is revealed once, and every other image is unchanged |
| LazyImages.LoadedStaysLoaded | js/responsive.js:252-264 | a loaded image is unchanged by any later batch: loading happens once per image |
| LazyImages.LazyLoader.constructor | js/responsive.js:251 | the loader holds the page's images |
| LazyImages.LazyLoader.ObserveAll | js/responsive.js:266-274 | every image becomes observed, with opacity 1 if already complete and 0 otherwise |
| LazyImages.LazyLoader.OnEntries | js/responsive.js:252-264 | the callback updates the images in place exactly as Deliver says |
| Controller.PageController.constructor | js/responsive.js:6-49 | the controller starts in the initial page state, with nothing focused in the menu |
| Controller.PageController.Open | js/responsive.js:190-213 | the in-place open, link loop included, is OpenMenu |
| Controller.PageController.Close | js/responsive.js:215-226 | the in-place close, link loop included, is CloseMenu |
| Controller.PageController.Toggle | js/responsive.js:175-188 | the in-place toggle is ToggleMenu |
| Controller.PageController.TouchStart | js/responsive.js:51-53 | touchstart records the start coordinate and nothing else |
| Controller.PageController.TouchEnd | js/responsive.js:55-75 | the two sequential swipe tests behave as EndTouch |
| Controller.PageController.Scroll | js/responsive.js:145-171 | the throttled scroll listener behaves as Step on a Scroll event |
| Controller.PageController.Resize | js/responsive.js:302-317 | the throttled resize listener behaves as Step on a Resize event |
| Controller.PageController.EscapeListener | js/responsive.js:40-44 | one Escape listener closes the menu only if it is open |
| Controller.PageController.KeyDown | js/responsive.js:319-331 | the two document keydown listeners in order behave as OnKeyDown, and the default action is prevented exactly for Enter or Space on the toggle control |
| Controller.PageController.MenuKeyDown | js/responsive.js:341-355 | the panel's keydown listener moves focus and prevents the default exactly as Trap decides |
| Controller.PageController.Dispatch | js/responsive.js:20-37 | any event moves the page as Step and keeps it consistent |

## Left out

- Element lookup and creation are not modelled: `createOverlay`, iframe wrapping and its re-application on narrow resizes, the touch-active hover effects, the load-class removal and the injected stylesheet. They are DOM tree surgery with no state the controller reads.
- The first, shadowed definitions of toggle, open and close (js/responsive.js:77-125) are not modelled. They are never called, including their preventDefault and logging.
- Smooth anchor scrolling, the entrance-animation observer and all IntersectionObserver options are browser facilities and are not modelled.
- Time is not modelled: `setTimeout` expiry is an explicit event, and the 100ms and 250ms limits are only recorded in `Throttle.limitMs`.
- `navigator.vibrate` and `console.log` are not modelled.
- Event dispatch order is not modelled. That includes the touchstart and click that both reach the toggle control on a tap, and a keydown reaching the panel's listener before the document's.
- The click listener on the toggle control's icon (js/responsive.js:26-29) is not modelled. The live toggle does not stop propagation, so a click on the icon also bubbles to the control's own click listener. The menu is toggled twice and ends where it started. This is a consequence of dispatch order, which is left out.
- The menu toggle control and panel are assumed to exist. Without them the swipe and resize listeners would throw. Whether the navbar exists is modelled.
- Touch coordinates are integers. `screenX` can be fractional, and the model does not cover that.
- The scroll offset is one integer parameter. The `pageYOffset || scrollTop` fallback and fractional offsets are not modelled.
- Animation delays are integer tenths, not the float-formatted strings the script produces.
- Opacity is the number 0 or 1, and the opacity transition style is not modelled.
- The footer count starts at 0. A footer already present in the markup is covered by `OpenEffects` and `RunFooter` but not by `Initial`.
- FocusStaysInMenu: assumes that the browser's own Tab and Shift+Tab move focus to the next or previous element of the focusable list. The script does not control that, and the browser's tab order may differ.
