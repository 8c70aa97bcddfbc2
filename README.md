# Page behaviour of the nakort marketing site, modelled in Dafny

The site's script (`dist/js/main.js`) reacts to browser events by adding and
removing CSS classes. This project models the parts of it that hold state
logic, with the DOM reduced to per-element class lists or flags:

- **Carousel** (`Carousels`): the custom slide carousel. It has the current
  slide index, a pause flag and an autoplay-timer flag. `showSlide` rewrites
  the state class of every slide (active, prev or next) and toggles every
  dot. Next and previous navigation wrap around, `goToSlide` ignores indices
  out of range, and the autoplay tick does nothing while paused.
- **Modal registry** (`Modals`): `openModal`, `closeModal` and the Escape
  key handler. They work on the page's elements and the body scroll lock.
- **Tab groups** (`Tabs`): the click handler installed by `initTabs`.
- **Scroll reference line** (`ScrollPosition`): `checkPosition` of
  `initScrollToCenterAnimation`. It is a pure comparison of an element's
  rectangle with the viewport height, under either the centre rule or the
  bottom-third rule, followed by adding or removing one class.
- **Scroll reveal** (`ScrollReveal`): the IntersectionObserver callback of
  `ScrollAnimations`, for observers with and without `once`.
- `Dom` holds what these share. `FirstWhere` is `querySelector`'s first
  match in document order. `Toggle` is `classList.toggle(c, force)` and also
  stands for `add` and `remove`.

Conventions. A class list is a `set<string>`. A missing attribute is the
empty string. Every lookup the script makes uses a non-empty key, so the
empty string never matches. Element lists are arrays in document order.
Object state is held in Dafny classes:

- `Carousel` holds `currentSlide`, `isPaused` and `timerRunning`, plus
  arrays of slide and dot class lists.
- `ModalRegistry` holds an array of elements and `scrollLocked`.
- `TabGroup` holds arrays of tabs and panels.
- `ScrollTracker` holds one element's class list.
- `ScrollAnimations` holds an array of watched elements.

Each method is specified by a function of the old state. The functions'
contracts and the lemmas about them state what the page promises.

Behaviour of the code that is easy to misread:

- `closeModal` releases the scroll lock only when it selects an element.
  When nothing is selected, the lock is left as it was.
- `openModal` deactivates every element with the `modal` class, whether or
  not it carries `data-popup`. It activates the first element whose
  `data-popup` matches, even if that element lacks the `modal` class. The
  "at most one open" invariant therefore holds on well-formed markup
  (`Modals.WellFormed`), not in general.
- The tab handler clears only the panels matched by `panelSelector`. It
  activates the first element of the container whose `data-panel` equals
  the key, and that element need not be one of those panels.
- "Exactly one active slide" needs the three state classes to be distinct.
  `activeClass` comes from the options; the prev and next classes are fixed.

## Model

| member | source | states |
|---|---|---|
| `Dom.FirstWhere` | dist/js/main.js:421 | the result is the first index whose element satisfies the selector, and None exactly when no element does |
| `Dom.FirstWhereAgrees` | dist/js/main.js:790 | the first match depends only on which elements satisfy the selector, so a lookup after a class change that leaves the keys alone returns the same element |
| `Dom.Toggle` | dist/js/main.js:213 | after `toggle(c, force)` the class `c` is present iff `force` holds, and every other class is as before |
| `Dom.ToggleIdempotent` | dist/js/main.js:703-707 | applying the same add or remove twice equals applying it once |
| `Carousels.PrevClassFor` | dist/js/main.js:191-193 | the prev class ends in `--prev`, starts with `hero__` on a hero carousel and `carousel__` otherwise, and differs from the next class |
| `Carousels.NextClassFor` | dist/js/main.js:191-193 | the next class ends in `--next` and starts with `hero__` on a hero carousel and `carousel__` otherwise |
| `Carousels.NextIndex` | dist/js/main.js:220-223 | the next index is in `[0, n)`: `i + 1` below the last slide, `0` after the last |
| `Carousels.PrevIndex` | dist/js/main.js:225-228 | the previous index is in `[0, n)`: `i - 1` above the first slide, `n - 1` before the first |
| `Carousels.PrevUndoesNext` | dist/js/main.js:220-228 | `prevSlide` after `nextSlide` restores the index, and so does the reverse order |
| `Carousels.NextTimes` | dist/js/main.js:220-223 | any number of `nextSlide` steps keeps the index in `[0, n)` |
| `Carousels.NextTimesAdd` | dist/js/main.js:220-223 | `a + b` steps equal `a` steps followed by `b` steps |
| `Carousels.NextTimesBelow` | dist/js/main.js:220-223 | fewer than `n` steps from `i` land on `i + k`, minus `n` if that passes the end |
| `Carousels.NextTimesCycle` | dist/js/main.js:220-223 | `n` calls of `nextSlide` return a carousel of `n` slides to its starting slide |
| `Carousels.ShownSlides` | dist/js/main.js:196-208 | after the slide loop, each slide holds exactly one of the three state classes: active at the index, prev before it, next after it; no other class changes |
| `Carousels.ShownDots` | dist/js/main.js:211-215 | after the dot loop, dot `j` holds the active dot class iff `j` is the index; no other class changes |
| `Carousels.RenderedMeans` | dist/js/main.js:196-208 | with distinct state classes, a rendered slide is active iff it is the current one, prev iff it comes before it, next iff it comes after it |
| `Carousels.ExactlyOneActiveSlide` | dist/js/main.js:196-208 | the set of slides that carry the active class is exactly `{currentSlide}` |
| `Carousels.AtMostOneActiveDot` | dist/js/main.js:211-215 | two dots that both carry the active class are the same dot |
| `Carousels.Carousel.constructor` | dist/js/main.js:139-186 | with no slides the carousel stays at index 0 with its class lists untouched and no timer; otherwise slide 0 is shown and the timer runs iff the interval is positive |
| `Carousels.Carousel.ShowSlide` | dist/js/main.js:188-218 | an index outside `[0, n)` changes nothing; otherwise slides and dots are re-rendered for the index, it becomes `currentSlide`, and the carousel invariant holds |
| `Carousels.Carousel.NextSlide` | dist/js/main.js:220-223 | the carousel moves to `NextIndex(currentSlide)`, stays in range and is rendered for it |
| `Carousels.Carousel.PrevSlide` | dist/js/main.js:225-228 | the carousel moves to `PrevIndex(currentSlide)`, stays in range and is rendered for it |
| `Carousels.Carousel.GoToSlide` | dist/js/main.js:230-234 | out-of-range indices are ignored; in-range ones behave as `showSlide` |
| `Carousels.Carousel.AutoplayTick` | dist/js/main.js:241-245 | while paused a tick changes nothing; otherwise it advances as `nextSlide` |
| `Carousels.Carousel.StartAutoplay` | dist/js/main.js:236-246 | afterwards a timer is installed |
| `Carousels.Carousel.StopAutoplay` | dist/js/main.js:248-253 | afterwards no timer is installed |
| `Carousels.Carousel.RestartAutoplay` | dist/js/main.js:300-305 | with a positive interval the timer is running afterwards; otherwise its state is unchanged |
| `Carousels.Carousel.PauseAutoplay` | dist/js/main.js:255-257 | sets `isPaused` and changes nothing else |
| `Carousels.Carousel.ResumeAutoplay` | dist/js/main.js:259-261 | clears `isPaused` and changes nothing else |
| `Carousels.Carousel.Destroy` | dist/js/main.js:307-310 | afterwards no timer is installed |
| `Carousels.Carousel.OnNextClick` | dist/js/main.js:265-270 | advances as `nextSlide`, then restarts the timer |
| `Carousels.Carousel.OnPrevClick` | dist/js/main.js:273-278 | steps back as `prevSlide`, then restarts the timer |
| `Carousels.Carousel.OnDotClick` | dist/js/main.js:281-286 | goes to the dot's slide if it exists, then restarts the timer |
| `Modals.FindModal` | dist/js/main.js:421 | the result is the first element whose `data-popup` equals the id, and None exactly when no element carries it |
| `Modals.FindActive` | dist/js/main.js:444 | the result is the first element carrying `modal--active`, and None exactly when none does |
| `Modals.CloseTarget` | dist/js/main.js:439-445 | with an id, the selected element is the first that carries that `data-popup` and None means no element does; without one, it is the first active element and None means none is active |
| `Modals.EscapeId` | dist/js/main.js:490-492 | there is an id to close exactly when some element is active, and it is the `data-popup` of the first active element |
| `Modals.Opened` | dist/js/main.js:417-432 | an empty id or an unmatched id changes nothing; otherwise the first dialog with that id is active and every other `.modal` is inactive |
| `Modals.Deactivated` | dist/js/main.js:425-427 | every `.modal` element loses `modal--active`; other elements keep their state |
| `Modals.Closed` | dist/js/main.js:436-456 | only the selected element changes, and it becomes inactive; with nothing selected, nothing changes |
| `Modals.OpenedActivatesOnlyTarget` | dist/js/main.js:417-432 | on well-formed markup, after opening, the opened dialog is the only active element, whatever was active before |
| `Modals.ClosedKeepsInvariant` | dist/js/main.js:436-456 | closing preserves well-formedness and "at most one active" |
| `Modals.OpenedIdempotent` | dist/js/main.js:417-432 | opening the same dialog twice equals opening it once |
| `Modals.OpenThenCloseLeavesNoneActive` | dist/js/main.js:417-456 | opening a dialog and then closing it by the same id leaves nothing active |
| `Modals.EscapeClosesActive` | dist/js/main.js:488-496 | with at most one active element and unique ids, Escape selects the active element and leaves nothing active |
| `Modals.ModalRegistry.OpenModal` | dist/js/main.js:417-432 | the elements become `Opened(old, id)`; the scroll lock gets set iff a dialog matched, otherwise it is unchanged |
| `Modals.ModalRegistry.CloseModal` | dist/js/main.js:436-456 | the elements become `Closed(old, id)`; the lock is released iff an element was selected, otherwise it is unchanged |
| `Modals.ModalRegistry.OnEscape` | dist/js/main.js:488-496 | with no active element nothing changes; otherwise it acts as `closeModal` with the active element's `data-popup` |
| `Tabs.FindPanel` | dist/js/main.js:790 | the result is the first element whose `data-panel` equals the key, and None exactly when no element carries it |
| `Tabs.ClickedTabs` | dist/js/main.js:776-784 | a click on a tab with a key leaves exactly that tab active; a tab without a key changes nothing |
| `Tabs.ShownPanels` | dist/js/main.js:786-793 | with a key, an element is active afterwards iff it is the first with that `data-panel`, or it was active and is not a listed panel; with no key, nothing changes |
| `Tabs.ClickShowsMatchingPanel` | dist/js/main.js:776-794 | on well-formed markup, the active panels after a click are exactly the first panel with the tab's key; at most one is active, and its key is the clicked tab's |
| `Tabs.ClickIdempotent` | dist/js/main.js:776-794 | clicking the same tab twice equals clicking it once |
| `Tabs.TabGroup.Click` | dist/js/main.js:776-794 | tabs become `ClickedTabs(old, t)` and panels `ShownPanels(old, key of t)` |
| `Tabs.TabGroup.ShowPanelsFor` | dist/js/main.js:786-793 | panels become `ShownPanels(old, key)` |
| `ScrollPosition.PositionOf` | dist/js/main.js:674 | the bottom-third rule is chosen iff the attribute is "bottom", or the attribute is absent and the option is "bottom" |
| `ScrollPosition.ShouldBeVisible` | dist/js/main.js:684-701 | under the bottom rule the element counts as visible iff `3·top <= 2·H` and `bottom > 0`; under the centre rule iff `2·top + height <= H`, which holds when the centres coincide |
| `ScrollPosition.BottomWindow` | dist/js/main.js:686-696 | for a consistent rectangle the bottom rule holds iff `-height < top <= 2H/3`; it is off once the element is fully scrolled past the top and while its top is still below the two-thirds line |
| `ScrollPosition.CenterMonotone` | dist/js/main.js:697-701 | moving an element up the viewport never switches the centre rule off |
| `ScrollPosition.ScrollTracker.constructor` | dist/js/main.js:670-722 | the reference line comes from the attribute or option, and the initial evaluation leaves the class present iff the rule holds |
| `ScrollPosition.ScrollTracker.CheckPosition` | dist/js/main.js:678-708 | the visible class is present iff the rule holds for the current geometry; no other class changes |
| `ScrollPosition.CheckTwice` | dist/js/main.js:710-721 | a second evaluation with unchanged geometry leaves the state of the first |
| `ScrollReveal.AnimationClass` | dist/js/main.js:29 | the class is the element's `data-scroll-animation` value when present, `scroll-animation--visible` when absent, and never empty |
| `ScrollReveal.ApplyEntry` | dist/js/main.js:26-41 | intersecting adds the class and, with `once`, unobserves the element; not intersecting removes the class without `once` and with `once` changes nothing; no other class changes |
| `ScrollReveal.Reveal` | dist/js/main.js:25-42 | handling a batch keeps the number of watched elements |
| `ScrollReveal.OnceOnlyAdds` | dist/js/main.js:27-41 | with `once`, no class is ever removed and no element starts to be observed again |
| `ScrollReveal.OnceRevealsIntersecting` | dist/js/main.js:27-35 | with `once`, every element reported as intersecting ends the batch with its class and unobserved |
| `ScrollReveal.RevealFrame` | dist/js/main.js:25-42 | only an element's animation class and observed flag can change, and an element no entry names is unchanged |
| `ScrollReveal.ToggleFollowsLastEntry` | dist/js/main.js:36-41 | without `once`, an element ends the batch with its class iff the last entry naming it reports an intersection |
| `ScrollReveal.ScrollAnimations.OnIntersection` | dist/js/main.js:25-42 | the elements become `Reveal(old, entries, once)` |

## Left out

- IntersectionObserver construction, thresholds and `rootMargin`, per-call custom observers, `observe`/`observeAll`/`unobserve` and the fallback without IntersectionObserver (dist/js/main.js:18-24, 43-111): these are browser services. Only the callback body is modelled, and entries are its input.
- `ScrollReveal.ScrollAnimations.OnIntersection`: the model does not stop the browser from delivering entries for unobserved elements. Which entries arrive is up to the browser.
- The Swiper carousels `initReviewsCarousel` and `initCertificatesCarousel` (dist/js/main.js:328-403): they configure a third-party library that is not part of this model.
- Timer scheduling: `setInterval`/`clearInterval` are reduced to the `timerRunning` flag, and elapsed time is not modelled. Also left out: the `requestAnimationFrame` throttle behind `ticking` (dist/js/main.js:710-718) and the `setTimeout` retries of the modal set-up (dist/js/main.js:560-561, 571, 583-588).
- Event listener registration, capture-phase precedence and `preventDefault`/`stopPropagation` (dist/js/main.js:510-557, 626-657): this is event plumbing. Separately, the trigger handlers skip whitespace-only `data-modal` values before calling `openModal`. `OpenModal` models `openModal` itself, which only rejects the empty id.
- The overlay and close-button wiring of `initModal` (dist/js/main.js:459-485): each handler calls `closeModal(modalType)`, which is modelled.
- `form.reset()` in `closeModal` and the prevented form submission: form fields are not modelled.
- Smooth anchor scrolling, lazy image loading, the mobile navigation toggle and `updateCertificatesNav` (dist/js/main.js:599-667, 813-844): these are DOM side effects without state logic of their own.
- Floating-point rounding in `viewportHeight * (2 / 3)` and `rect.height / 2`: the model uses exact reals.
- The `{ once: true }` option passed to `initScrollToCenterAnimation` at dist/js/main.js:874 has no effect, because only `options.position` is read. Nothing is modelled for it.
- The active-class inference of `initTabs` (dist/js/main.js:757-771): class names are parameters. Only whether an element carries the class is kept.
- The early return of `initTabs` when there are no tabs or no panels: in that case no handler exists to model.
- The carousel whose container is missing (dist/js/main.js:144-147): it returns before any state exists. A carousel with no slides is modelled, and its navigation methods are never wired, so they require slides.
- `pauseOnHover`: it only decides whether the pause and resume handlers are attached.
- `Carousels.Carousel.ShowSlide`: the `hero__carousel` test that picks the prev and next classes is made once, at construction. The container's class list is not modelled as changing.
- The CSS selectors are built by string interpolation. An id containing `"` or `\` makes them invalid or changes what they match. The model compares ids as plain strings.
- Elements are assumed not to alias across roles: slides and dots, and tabs and panels, are separate elements.
- `Modals.ModalElement` keeps only the `data-popup` value, the `modal` class and the `modal--active` class, not the whole class list.
- `ScrollReveal.ApplyEntry`, `ScrollReveal.Reveal`, `Carousels.Carousel.ShowSlide` and `ScrollPosition.ScrollTracker.CheckPosition`: class names are assumed non-empty and free of whitespace. `classList.add`, `remove` and `toggle` throw on an empty token or one containing whitespace. So `data-scroll-animation="fade up"` makes the callback throw and abandon the rest of its batch, where the model adds `fade up` as one class and goes on. The same holds for an empty configured `activeClass`, `dotActiveClass` or `visibleClass` (dist/js/main.js:31, 197, 213, 704). The model does not capture these exceptions.
- The `console.warn` messages for a missing carousel container and for a carousel without slides (dist/js/main.js:145, 172): console output is not modelled. Only the early return that follows each one is.
- The carousel option defaults (dist/js/main.js:150-160): `Carousels.Carousel.constructor` takes `activeClass`, `dotActiveClass` and `autoplayInterval` as parameters, so the merge of caller options over the defaults is not modelled.
