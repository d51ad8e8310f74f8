# Interactive state machines of a portfolio page's `script.js`

The page script wires DOM events to a handful of small state machines, each living in
the closure of one setup function. This project models those state machines as owned
objects, with the DOM reduced to what they read and write: an element's class list is a
`set<string>`, a NodeList of elements is a sequence of class lists in document order,
and an image is its `src` string. Timers are explicit pending steps that the host runs
when it chooses; no real time is modelled.

- `JsArith` (`js_arith.dfy`): the index variables as JavaScript numbers. `%` truncates
  toward zero and gives NaN for a zero divisor, and NaN then absorbs every later `+` and
  `%`. `Next` / `Prev` are the two wraparound formulas the script uses everywhere.
- `ClassList` (`class_list.dfy`): holders of a class, `classList.toggle`, and removing a
  class from every element of a NodeList.
- `Slidy` (`slidy.dfy`): the carousel. It holds `current` and the `active` / `prev` /
  `next` labels that `updateSlides` rewrites.
- `EduSlider` (`edu_slider.dfy`): the image slider of each education item, with its
  `index` and the single `active` image.
- `Lightbox` (`lightbox.dfy`): the project image viewer. It holds `images`,
  `currentIndex`, the image `src`, `display`, the `show` / `hide` classes, the
  `slide-out-*` / `slide-in` classes, the armed transition timers and the
  `animationend` listeners that `closeScreen` registers.
- `ItemClick` (`item_click.dfy`): one active `.list .item` at a time, toggle-off, the
  outside click and the single auto-deactivate timer.
- `NavHighlight` (`nav_highlight.dfy`): which side-navigation links are `active` for a
  scroll position.
- `ScrollButton` (`scroll_button.dfy`): the `scrolling` flag and the button text that
  must agree with it.
- `Optional` (`option.dfy`): an option type.

The classes `Slidy.Carousel`, `EduSlider.Slider`, `Lightbox.Viewer`, `ItemClick.Effect`
and `NavHighlight.Highlighter` have a `Valid()` invariant that their event handlers keep.
`ScrollButton.Button` has instead the predicate `Agrees()` (text matches flag), which
holds after any click and is kept by every scroll. `ItemClick.Effect.DeactivateAll` is
the inner loop of the click handlers and may leave `Valid()` broken until the handler
re-arms or clears the timer. Each handler, and `Lightbox.Dispatch`, states the value of
every field of its object afterwards. The properties the code relies on are proved as
lemmas about the specification functions, and as replay methods. A replay method drives a fresh object
through any sequence of events and states what holds at the end.

Behaviour of the code worth knowing:

- Close is not immediate. `closeScreen` swaps `show` for `hide`. The display becomes
  `none` only on an `animationend`. The listener registered for this outlives a reopen:
  close, reopen, then the next `animationend` on the overlay (for example an opening
  animation, if the stylesheet gives `show` one) hides the overlay while it carries `show` (`Lightbox.ReopenBeforeAnimationEnd`).
- Prev / next with no gallery is not a no-op on the index. `currentIndex` becomes NaN,
  because `x % 0` is NaN. Only the next successful open makes it an integer again.
- Closing resets neither `images` nor `currentIndex`.
- At or above the 900 px threshold, the nav rule does not always produce exactly one
  active link. If no section covers the position, the links keep their classes, and the
  home link may still be active. If several sections cover it, the last one in document
  order decides. Every link whose `href` attribute names that section becomes active.
- Closing an already closed viewer still registers one more `animationend` listener.
- A phase-1 timer reads `images` when it runs, but the index it was armed with. If
  another project is opened meanwhile, it shows that index of the new gallery while
  `currentIndex` is 0: open `[a, b, c]`, next, open `[x, y]`, and the timer shows `y`
  (`Lightbox.StaleTimerAfterReopen`).
- If the new gallery is too short for that index, the timer's callback throws before it
  removes the outgoing class, and `slide-out-prev` / `slide-out-next` stays on the image
  with no timer left to clear it (`Lightbox.ShrunkGalleryKeepsSlideOut`).

## Model

| member | source | states |
|---|---|---|
| `ClassList.Toggle` | script.js:97 | `classList.toggle(name, on)`: the name is present exactly when `on` holds and no other class changes |
| `ClassList.RemovedFromAll` | script.js:342 | removing a class from every element leaves no element holding it and changes nothing else |
| `JsArith.Rem` | script.js:239 | JavaScript `%`: NaN exactly when the dividend is NaN or the divisor 0; otherwise the result is smaller than the divisor in magnitude, has the dividend's sign, and differs from the dividend by a multiple of the divisor |
| `JsArith.Next` | script.js:25 | `(i + 1) % n`: NaN exactly when i is NaN or n is 0, otherwise an index in [0, n) from any i >= -1; `NextWraps` and `NextIteratedCycles` prove it is the successor with wraparound |
| `JsArith.Prev` | script.js:30 | `(i - 1 + n) % n`: NaN exactly when i is NaN or n is 0, otherwise an index in [0, n) from any i >= 1 - n; `PrevWraps` and `PrevNextInverse` prove it is the predecessor with wraparound and undoes `Next` |
| `JsArith.NextWraps` | script.js:24-27 | for 0 <= i < n, `(i + 1) % n` is i + 1, or 0 when i = n - 1 |
| `JsArith.PrevWraps` | script.js:29-32 | for 0 <= i < n, `(i - 1 + n) % n` is i - 1, or n - 1 when i = 0 |
| `JsArith.StepsStayInRange` | script.js:24-31 | both wraparound steps keep an index in [0, n) an integer in [0, n) |
| `JsArith.PrevNextInverse` | script.js:24-31 | prev after next, and next after prev, give back the original index |
| `JsArith.EmptyCycleIsNaN` | script.js:237-247 | with n = 0 both steps give NaN, and from NaN both steps stay NaN |
| `JsArith.NextIteratedCycles` | script.js:159-163 | k forward steps from i land on (i + k) mod n |
| `Slidy.RelabelledActive` | script.js:11-21 | after `updateSlides` exactly the slide at `current` is `active` |
| `Slidy.RelabelledThreeOrMore` | script.js:11-21 | with n >= 3 slides exactly one is `prev`, at (current - 1 + n) % n, and exactly one is `next`, at (current + 1) % n |
| `Slidy.RelabelledTwo` | script.js:16-19 | with 2 slides the other slide is `prev` (the earlier else-if branch) and no slide is `next` |
| `Slidy.RelabelledOne` | script.js:11-21 | with 1 slide only `active` is set, on that slide |
| `Slidy.RelabelledKeepsOtherClasses` | script.js:13 | classes other than the three labels are untouched |
| `Slidy.RelabelledTwice` | script.js:11-21 | a relabelling fully overrides an earlier one: the labels depend only on `current` |
| `Slidy.Label` | script.js:14-20 | each slide gets at most one of the three labels, and `active` exactly when it is `current`; the else-if order is proved by `RelabelledTwo` |
| `Slidy.Relabelled` | script.js:12-21 | `updateSlides` as a function of the class lists and `current`; what it means is proved by `RelabelledActive`, `RelabelledThreeOrMore`, `RelabelledTwo`, `RelabelledOne` and `RelabelledKeepsOtherClasses` |
| `Slidy.Carousel.constructor` | script.js:8-56 | `current` starts at 0 and the slides are labelled for it |
| `Slidy.Carousel.UpdateSlides` | script.js:11-22 | the loop leaves `current` alone and each slide's classes are the relabelled ones |
| `Slidy.Carousel.ShowNext` | script.js:24-27 | `current` steps forward with wraparound, stays in range, and the slides are relabelled |
| `Slidy.Carousel.ShowPrev` | script.js:29-32 | `current` steps back with wraparound, stays in range, and the slides are relabelled |
| `Slidy.NextThenPrev` | script.js:47-50 | a click on next then on prev shows slide 0 again with its original labels |
| `EduSlider.AfterShowNextMovesActive` | script.js:159-163 | if only image i was `active`, afterwards only image (i + 1) % n is, and no other class changed |
| `EduSlider.AfterShowNext` | script.js:159-163 | `showNextImage` as a function of the class lists and the index; `AfterShowNextMovesActive` proves it moves the single `active` forward with wraparound |
| `EduSlider.Ticks` | script.js:159-163 | after k ticks the index is still an index into the images and is the k-fold `Next` step from the start (`JsArith.NextIterated`), so `NextIteratedCycles` gives its cycle |
| `EduSlider.TicksCycle` | script.js:159-167 | starting with only image 0 active, after k ticks the index is k % n and only that image is active |
| `EduSlider.Slider.constructor` | script.js:155-166 | `index` is 0 and the first image, if any, gets `active` |
| `EduSlider.Slider.ShowNextImage` | script.js:159-163 | `index` steps with wraparound and `active` moves with it; "exactly the image at `index` is active" is preserved |
| `EduSlider.RunTicks` | script.js:159-166 | a slider object set up on non-empty markup and ticked k times has index k % n with exactly that image `active` |
| `Lightbox.OutgoingClass` | script.js:223 | `slide-out-prev` exactly for the backward direction, otherwise `slide-out-next` |
| `Lightbox.OutPhase` | script.js:223 | phase 0 adds the outgoing class and no other class changes |
| `Lightbox.InPhase` | script.js:227-228 | phase 1 leaves `slide-in` as the only slide class and no other class changes |
| `Lightbox.SettlePhase` | script.js:230-231 | phase 2 removes `slide-in` and no other class changes; `TransitionLeavesNoSlideClass` composes the three phases |
| `Lightbox.TransitionLeavesNoSlideClass` | script.js:219-235 | after phase 0, phase 1 and phase 2 no slide class remains and every other image class is as before |
| `Lightbox.Viewer.constructor` | script.js:188-189 | before any open, `images` is empty and `currentIndex` is 0 |
| `Lightbox.Viewer.Open` | script.js:195-204 | an empty project changes nothing; otherwise `images` is replaced, the index is 0, `images[0]` is shown, display is `flex` and `show` replaces `hide` |
| `Lightbox.Viewer.Close` | script.js:207-214 | `show` gives way to `hide` and one listener is registered; display, gallery and index are unchanged |
| `Lightbox.Viewer.ScreenClick` | script.js:217 | a click closes only when its target is the overlay itself |
| `Lightbox.Viewer.KeyDown` | script.js:249-251 | Escape closes only while display is `flex`; any other key or display changes nothing |
| `Lightbox.Viewer.AnimationEnd` | script.js:210-213 | with listeners registered, display becomes `none` and all listeners are gone; without, nothing changes |
| `Lightbox.Viewer.ChangeImage` | script.js:219-224 | a no-op without a gallery; otherwise the outgoing class is added and phase 1 is armed with the index given |
| `Lightbox.Viewer.PrevClick` | script.js:237-241 | the index steps back with wraparound (NaN without a gallery) and a backward transition starts |
| `Lightbox.Viewer.NextClick` | script.js:243-247 | the index steps forward with wraparound (NaN without a gallery) and a forward transition starts |
| `Lightbox.Viewer.Fire` | script.js:225-234 | phase 1 shows `images[index]` with the captured index, swaps the slide-out classes for `slide-in` and arms phase 2; an index outside the gallery changes nothing; phase 2 removes `slide-in` |
| `Lightbox.LastGallery` | script.js:195-198 | the gallery in force is the gallery of some project that was opened, and it is empty exactly when no project with images was opened |
| `Lightbox.Dispatch` | script.js:195-251 | each event has its handler's whole effect: an open with images replaces the gallery, resets the index, shows the first image and displays the overlay; prev / next step the index with wraparound and start a transition; the close button, a backdrop click and Escape while displayed swap `show` for `hide` and register a listener; `animationend` runs the listeners; a timer run is `Fire`; every other event changes nothing |
| `Lightbox.Replay` | script.js:188-251 | after any events, `images` is the last non-empty gallery opened; once there is one, `currentIndex` indexes into it; before that it is NaN exactly when prev or next was clicked |
| `Lightbox.ReopenBeforeAnimationEnd` | script.js:195-214 | close, reopen, then `animationend`: display is `none` while the overlay carries `show` |
| `Lightbox.EscapeClose` | script.js:207-251 | Escape leaves display `flex` until `animationend` makes it `none`; a second Escape does nothing; gallery and index survive the close |
| `Lightbox.OneTransition` | script.js:219-247 | one transition run to its end shows the neighbour in its direction, leaves no slide class and no armed timer |
| `Lightbox.StaleTimerAfterReopen` | script.js:195-199 | open a gallery, next, open a second gallery, then run the phase-1 timer: the image is the second gallery's image 1 while the index is 0 |
| `Lightbox.ShrunkGalleryKeepsSlideOut` | script.js:219-227 | prev, then open a shorter gallery, then run the phase-1 timer: `slide-out-prev` stays on the image and no timer is left |
| `ItemClick.ActivatedIsExclusive` | script.js:325-330 | clicking an inactive item leaves it the only active item, with no other class touched |
| `ItemClick.CollapsedLeavesNoneActive` | script.js:319-323 | collapsing the only active item leaves none active |
| `ItemClick.Effect.constructor` | script.js:310-312 | the items as marked up, no timer |
| `ItemClick.Effect.DeactivateAll` | script.js:326 | `active` is removed from every item and nothing else changes |
| `ItemClick.Effect.ItemClicked` | script.js:315-336 | an active item collapses and the timer is cleared; an inactive item becomes the only active one with a fresh timer armed for it |
| `ItemClick.Effect.DocumentClicked` | script.js:340-345 | a click outside the container clears every item and the timer; inside, nothing changes |
| `ItemClick.Effect.TimerFires` | script.js:333-335 | the timer deactivates only the item it was armed for, after which none is active |
| `ItemClick.Replay` | script.js:314-345 | from markup with no active item, at most one item is ever active, and a timer is live exactly while an item is active and is armed for it |
| `NavHighlight.LastCovering` | script.js:101-107 | the last section whose range [offsetTop + 800, offsetTop + 800 + offsetHeight) holds the position, or none if no section's does |
| `NavHighlight.HomeMarked` | script.js:97 | the home rule keeps the number of links; `ActiveNavSelects` proves `active` is set exactly on links whose URL ends with `#main` |
| `NavHighlight.SectionMarked` | script.js:105 | one covering section's rewrite keeps the number of links; `SectionMarkedOverrides` and `ActiveNavSelects` prove it marks exactly the links naming the section |
| `NavHighlight.Swept` | script.js:101-107 | the walk over the sections in document order; `SweptIsLastCovering` proves it equals the last covering section's rewrite, or no change |
| `NavHighlight.ActiveNav` | script.js:94-107 | `updateActiveNav` as a function of the scroll position, the geometry and the links' classes; `ActiveNavSelects` proves the selection rule |
| `NavHighlight.SectionMarkedOverrides` | script.js:105 | a later section's rewrite of the links overrides an earlier one |
| `NavHighlight.SweptIsLastCovering` | script.js:101-107 | the walk over the sections equals the last covering section's rewrite, or no change when none covers |
| `NavHighlight.ActiveNavSelects` | script.js:94-108 | below 900 a link is active exactly when its URL ends with `#main`; otherwise the last covering section decides which links are active, or nothing changes; no other class is touched |
| `NavHighlight.Highlighter.constructor` | script.js:111 | the links start under the home rule |
| `NavHighlight.Highlighter.MarkHome` | script.js:97 | the loop applies the home rule to every link |
| `NavHighlight.Highlighter.MarkSection` | script.js:105 | the loop marks exactly the links naming the section |
| `NavHighlight.Highlighter.UpdateActiveNav` | script.js:94-108 | the scroll handler's effect on the links is the selection rule, for the sections' geometry as it is at that scroll |
| `ScrollButton.Caption` | script.js:132 | the text is "Stop" exactly while scrolling and "Start" otherwise |
| `ScrollButton.Button.constructor` | script.js:117 | not scrolling at the start |
| `ScrollButton.Button.Clicked` | script.js:130-132 | the flag flips and the text agrees with it |
| `ScrollButton.Button.Scrolled` | script.js:140-147 | near the bottom the button hides, scrolling stops and the text is "Start"; elsewhere it shows and nothing else changes; agreement of text and flag is kept |
| `ScrollButton.Replay` | script.js:130-148 | the flag after any events flips per click and clears per scroll near the bottom; after the first click or such scroll the text always agrees with it |

## Left out

- News ticker (script.js:61-72): a network fetch, a JSON parse and an `innerHTML` write.
- Clock (script.js:75-87): locale-dependent date and time formatting.
- Skill-bar count-up (script.js:256-306): it uses floating-point increments, rounding
  and an `IntersectionObserver`.
- Smooth scroll step (script.js:120-126): `requestAnimationFrame`, `cancelAnimationFrame`
  and window geometry. Only the flag, the text and the display of the button are modelled.
- Theme toggle (script.js:359-361): a single class toggle.
- Auto-advance intervals of the carousel and the education sliders (script.js:34-45,
  53-54, 57, 167-175): an interval tick is `ShowNext` / `ShowNextImage`. Which intervals
  are live is not modelled. This includes the extra interval each `mouseleave` starts
  without clearing the last one.
- Real time and timer order: timer durations are not modelled. `Lightbox.Viewer.Fire`
  lets the host run any armed step at any time, which includes orders the browser's
  300 ms timers cannot produce. No particular interleaving is verified.
- Event dispatch is reduced to which handler runs. This covers `stopPropagation`, the
  `e.target === screen` test (the `onBackdrop` argument) and `container.contains` (the
  `insideContainer` argument).
- Missing elements (`#screen`, `.slidy`, buttons): a missing element makes a lookup
  crash, which is not modelled.
- The thrown `TypeError` when phase 1 reads `images[index]` past a shorter gallery
  opened in the meantime: modelled as the callback changing nothing. The exception
  itself is not modelled.
- Scroll positions and section geometry are integers. Fractional `scrollY` values are
  not modelled, and neither is the `window.scrollY || window.pageYOffset` fallback.
- Link URLs: `href` (resolved) and the raw `href` attribute are given per link. URL
  resolution is not modelled.
- `EduSlider.Slider.ShowNextImage` requires at least one image, because the script arms
  the interval only when there is one.
