# Portfolio page behaviour, modelled in Dafny

This project models the state machines behind the portfolio site's page scripts. Each browser event is a method call, and the DOM is reduced to the attributes, classes and listener registrations these scripts read and write. Modules:

- `MobileMenu` (`menu.dfy`) covers the burger button and the mobile menu. It tracks `aria-expanded`, `hidden`, the document-level Escape and outside-click listeners, and the menu-closing branch of the navigation click handler. It also holds the burger's cosmetic `is-active` class, which the glow sync copies from `aria-expanded` on a deferred tick.
- `Reveal` (`reveal.dfy`) covers the one-shot reveal of `.fade-up`/`.scale-in` elements, including the fallback used when the intersection-observer API is missing.
- `ProgressBars` (`progress.dfy`) covers the skill bars: the `[0, 100]` clamp of `data-value`, and the one-shot animation of each `.skill` container's fills.
- `Typewriter` (`typewriter.dfy`) covers the self-rescheduling tick that writes ever longer prefixes of the text every 40 ms.
- `Toast` (`toast.dfy`) covers the shared toast. It holds the pending hide timers, the stored handle `showToast._t` and the 2600 ms dismissal delay.
- `ContactForm` (`contact_form.dfy`) covers the three-way outcome of a form submission: the toast text it shows and whether the form is reset.
- `EasterEgg` (`easter_egg.dfy`) covers the two-character key buffer that flashes the page on "ai".
- `HoverSound` (`hover_sound.dfy`) covers the 220 ms throttle on the hover sound.
- `CursorTrail` (`cursor_trail.dfy`) covers the trail's bounded FIFO of at most 18 points. Its set-up call is commented out on the live page (phase1-core.js:22), so the queue is modelled as written but never runs there.
- `Page` (`page.dfy`) holds what the others share: `Option`, element identities, and the entries an intersection observer delivers.

Most components have two parts. A pure state datatype has step functions and lemmas that state the properties. A class performs the same updates in place, field by field as the scripts do, and most methods' postconditions equate the new state with the step function applied to the old state. `Typewriter.Writer.Tick`, `HoverSound.Player.Play`, `HoverSound.Player.OnMouseEnter` and `ProgressBars.Bars.Trigger` state their new fields directly instead, and `Typewriter` has no step function.

Three behaviours of the code are easy to misread:

- **Nav-click close keeps the listeners.** A click on an in-page navigation link closes an open menu by writing `aria-expanded="false"` and `hidden` directly (main.js:27-30). It does not detach the Escape and outside-click listeners. The same click then reaches the document. For a link outside both menu and burger (`.back-to-top`, `.btn-ghost`), the outside-click handler closes the menu properly and detaches both listeners. For a navigation link inside the menu, nothing detaches them (`MobileMenu.NavClickThenDocument`). So "listeners registered exactly while open" is not an invariant of the page (`MobileMenu.NavClickLeavesListeners`). The model proves the weaker invariant that does hold, `Coherent`: the attributes agree, and both listeners are registered while open. It also proves that stale listeners on a closed menu change nothing visible (`MobileMenu.StaleListenersHarmless`). Without navigation clicks, the strict invariant holds (`MobileMenu.RunKeepsConsistent`).
- **Hover sound ignores reduced motion.** The sound is set up whatever the reduced-motion preference (phase1-core.js:20). Only hover capability and a successful `Audio` construction enable it (the `enabled` flag). `last` starts at 0, so a hover within the first 220 ms after the page's time origin plays nothing.
- **`form.reset()` restores defaults.** A successful submission calls `form.reset()` (main.js:190), which restores the fields' default values rather than emptying them.

## Model

| member | source | states |
|---|---|---|
| `MobileMenu.Toggle` | main.js:53-64 | after `toggleMobileMenu(open)`, `aria-expanded` is `String(open)`, `hidden` is present exactly when `open` is false, and both dismissal listeners are registered exactly when open, whatever was registered before |
| `MobileMenu.BurgerClick` | main.js:40-43 | a burger click leaves a consistent state whose `aria-expanded` is the opposite of the one it read, and leaves `is-active` alone |
| `MobileMenu.BurgerClickTwice` | main.js:40-64 | two burger clicks restore attributes and listeners exactly when the state was consistent beforehand |
| `MobileMenu.ToggleIdempotent` | main.js:55-62 | repeated opens register nothing twice; closing a closed consistent menu changes nothing |
| `MobileMenu.EscapeDismisses` | main.js:45-47 | on a coherent menu, Escape leaves it hidden with `aria-expanded="false"` and detaches the listeners; any other key changes nothing |
| `MobileMenu.OutsideClickDismisses` | main.js:49-51 | on a coherent menu, a click outside both menu and burger closes it; a click inside either changes nothing |
| `MobileMenu.NavClickCloses` | main.js:17-30 | a nav click changes the menu only when `href` starts with `#`, the target exists and the menu is open; it then hides it and sets `aria-expanded="false"`, and it never changes the listeners |
| `MobileMenu.NavClickLeavesListeners` | main.js:24-30 | closing through a nav link leaves both listeners on a hidden menu: coherent but not consistent |
| `MobileMenu.NavClickThenDocument` | main.js:15-62 | from a consistent state, after the nav handler and the document's outside-click handler the state is consistent again exactly when the nav handler changed nothing or the link lies outside both menu and burger |
| `MobileMenu.StaleListenersHarmless` | main.js:45-62 | on a closed coherent menu, keys and clicks leave it hidden and keep `aria-expanded` |
| `MobileMenu.StepKeepsCoherent` | main.js:17-64 | every event keeps a coherent state coherent |
| `MobileMenu.RunKeepsCoherent` | main.js:17-64 | every sequence of events keeps a coherent state coherent |
| `MobileMenu.StepKeepsConsistent` | main.js:40-64 | every event except a nav click keeps listeners registered exactly while open |
| `MobileMenu.RunKeepsConsistent` | main.js:40-64 | every sequence of events without nav clicks keeps listeners registered exactly while open |
| `MobileMenu.GlowTick` | phase1-core.js:163-166 | after the deferred tick `is-active` is present exactly when `aria-expanded` is `"true"`; nothing else changes |
| `MobileMenu.GlowFollowsBurger` | phase1-core.js:160-166 | after a burger click and its deferred tick, `is-active` shows whether the menu is now open |
| `MobileMenu.Menu.constructor` | main.js:35-38 | the page starts with the markup's attributes and no document listeners |
| `MobileMenu.Menu.ToggleMenu` | main.js:53-64 | updates the attributes and listener registrations in place as `Toggle` says |
| `MobileMenu.Menu.OnBurgerClick` | main.js:40-43 | reads `aria-expanded` and toggles to the opposite |
| `MobileMenu.Menu.OnKeyDown` | main.js:45-47 | a registered Escape handler closes on `Escape` only |
| `MobileMenu.Menu.OnDocumentClick` | main.js:49-51 | a registered outside-click handler closes only for targets outside menu and burger |
| `MobileMenu.Menu.OnNavClick` | main.js:17-30 | the nav handler's early returns and attribute writes, as `NavClick` says |
| `MobileMenu.Menu.OnGlowTick` | phase1-core.js:163-166 | copies `aria-expanded === 'true'` into `is-active` |
| `Page.IntersectingTargetsExactly` | main.js:75-79 | an element is picked from a batch exactly when some entry names it and is intersecting |
| `Page.IntersectingTargetsAreTargets` | main.js:75-79 | picked elements are among the batch's targets |
| `Reveal.Setup` | main.js:67-82 | candidates are split between revealed and observed; without the observer API all are revealed at once; with it none are revealed yet |
| `Reveal.DeliverRevealsOnce` | main.js:74-80 | a batch never removes `revealed`, reveals exactly its intersecting targets, and stops observing each element it reveals |
| `Reveal.DeliverKeepsPartition` | main.js:74-82 | every candidate stays either revealed or still observed, never both and never neither |
| `Reveal.DeliverAllMonotone` | main.js:74-80 | over any sequence of batches, `revealed` only grows and the observed set only shrinks |
| `Reveal.Revealer.constructor` | main.js:67-83 | set-up builds the state `Setup` describes |
| `Reveal.Revealer.OnIntersect` | main.js:74-80 | the callback loop adds `revealed` to and unobserves each intersecting target, keeping the partition |
| `ProgressBars.Percent` | main.js:90-91 | the width lies in [0, 100]; it is the value when in range, 0 below, 100 above, and 0 when `data-value` is absent or empty |
| `ProgressBars.PercentIsNearest` | main.js:91 | the clamped value is the point of [0, 100] nearest the input |
| `ProgressBars.TriggerAllSets` | main.js:89-98 | triggering a list of fills sets each to its clamped value and leaves other widths as they were |
| `ProgressBars.TriggerAllInRange` | main.js:89-98 | triggering keeps every width in [0, 100] |
| `ProgressBars.DeliverWidthsSets` | main.js:101-107 | after a batch, every fill of every intersecting skill shows its clamped value; every width is unchanged or its own clamped value; an element below no intersecting skill of the batch keeps exactly its old width, or stays without one |
| `ProgressBars.FallbackAnimatesAll` | main.js:97-99 | without the observer API, every fill gets its clamped width at set-up |
| `ProgressBars.Bars.constructor` | main.js:85-110 | does nothing when there are no fills; otherwise animates all fills (no observer API) or observes every skill |
| `ProgressBars.Bars.Trigger` | main.js:89-93 | sets one fill's width to its clamped value |
| `ProgressBars.Bars.TriggerEach` | main.js:98 | the `forEach(trigger)` loop gives the widths `TriggerAll` describes |
| `ProgressBars.Bars.OnIntersect` | main.js:101-107 | the callback animates each intersecting skill's fills and unobserves that skill |
| `Typewriter.Prefixes` | main.js:163-169 | the writes are the `|text|+1` prefixes `text[..0]`, ..., `text[..|text|]`, in that order |
| `Typewriter.TwoLetters` | main.js:163-169 | "AI" is written as "", "A", "AI" |
| `Typewriter.Writer.constructor` | main.js:155-162 | set-up picks the text, clears the element and has the first tick due at once |
| `Typewriter.Writer.Tick` | main.js:163-169 | a tick at time `now`, no earlier than it was due, writes the next prefix, records `now` and makes the next tick due 40 ms later; once past the end it writes nothing and stops |
| `Typewriter.Writer.RunToEnd` | main.js:163-170 | whatever the timers' lateness, the tick chain stops after exactly the writes `Prefixes(text)`, each at least 40 ms after the one before and the last at least 40 ms times the text's length after set-up; the element then shows the whole text |
| `Toast.Initial` | main.js:205 | a fresh page has no pending hide timer and a hidden toast |
| `Toast.AtMostOnePending` | main.js:205-206 | a valid state has at most one pending hide timer |
| `Toast.ShowReplacesTimer` | main.js:200-208 | a call shows the message, cancels the previous timer and leaves exactly one pending, due 2600 ms after the call |
| `Toast.FireHidesOnlyPending` | main.js:206-208 | only the pending timer hides the toast; a cancelled timer changes nothing |
| `Toast.TwoCallsOneDismissal` | main.js:200-208 | after two calls the latest text shows, one dismissal is due 2600 ms after the second call, and the first call's timer no longer hides |
| `Toast.RunKeepsValid` | main.js:200-208 | every sequence of calls and timer firings keeps at most one pending hide timer |
| `Toast.Notifier.constructor` | main.js:200-202 | the page starts with a hidden toast and no timers |
| `Toast.Notifier.ShowToast` | main.js:200-208 | `showToast` updates text, `show`, the timer set and the handle as `Show` says; nothing happens without a toast element |
| `Toast.Notifier.TimerFired` | main.js:206-208 | the hide callback removes `show` |
| `ContactForm.React` | main.js:188-196 | a 2xx response gives the success text and a reset; any other status gives the failure text without a reset; a thrown error gives the network text without a reset |
| `ContactForm.OutcomesExclusive` | main.js:188-196 | two outcomes give the same text exactly when they are in the same one of the three classes |
| `ContactForm.Form.constructor` | main.js:174-180 | the form holds the values the user typed |
| `ContactForm.Form.Settle` | main.js:188-196 | the handler shows the outcome's toast and resets the fields to their defaults only on success |
| `EasterEgg.LowerChar` | phase1-core.js:201 | the result is never an upper-case ASCII letter; a character changes only if it is one, and then into the matching lower-case letter; the result is a lower-case ASCII letter exactly when the input is an ASCII letter |
| `EasterEgg.LowerIdempotent` | phase1-core.js:201 | lower-casing twice is the same as lower-casing once |
| `EasterEgg.Lower` | phase1-core.js:201 | lower-casing keeps the length and maps each character |
| `EasterEgg.LastTwo` | phase1-core.js:202 | the trimmed buffer is the last `min(2, length)` characters |
| `EasterEgg.KeyStep` | phase1-core.js:200-205 | the new buffer has at most two characters and is never "ai"; the flash fires exactly when the last two characters of `old + lower(key)` are "ai", and then the buffer is empty; otherwise the buffer is the last `min(2, length)` characters of `old + lower(key)` |
| `EasterEgg.EmptyKeyNoFlash` | phase1-core.js:201 | a keydown without a key leaves the buffer and does not flash |
| `EasterEgg.FlashEndsWithI` | phase1-core.js:201-205 | a flash needs a key whose lower-cased last character is 'i' |
| `EasterEgg.SingleKeyFlash` | phase1-core.js:201-205 | a one-character key flashes exactly when it lowers to 'i' and the buffer ends in 'a' |
| `EasterEgg.TypingAiFlashes` | phase1-core.js:201-205 | `a` then `i`, in either case, flashes from any buffer |
| `EasterEgg.NamedKeyOverwrites` | phase1-core.js:201-202 | a named key such as "Shift" leaves "ft" in the buffer and does not flash |
| `EasterEgg.KeyBuffer.constructor` | phase1-core.js:198 | the buffer starts empty |
| `EasterEgg.KeyBuffer.OnKeyDown` | phase1-core.js:200-210 | the handler updates the buffer and reports the flash as `KeyStep` says |
| `HoverSound.PlaysSpaced` | phase1-core.js:178-183 | any two attempted plays are at least 220 ms apart, each lies at least 220 ms after the initial `last`, and each is a call time |
| `HoverSound.Player.constructor` | phase1-core.js:171-178 | `last` starts at 0 with no plays |
| `HoverSound.Player.Play` | phase1-core.js:180-186 | a call within 220 ms of `last` is rejected and leaves `last`; otherwise it plays and sets `last := now`; plays stay 220 ms apart |
| `HoverSound.Player.OnMouseEnter` | phase1-core.js:187-192 | a `mouseenter` plays only on an enabled device, over an interactive target, past the cooldown |
| `CursorTrail.Push` | phase1-core.js:111-114 | after a push the trail holds at most 18 points and is the newest suffix of `old + [p]` |
| `CursorTrail.PushAll` | phase1-core.js:111-114 | any sequence of pushes keeps the trail at 18 points or fewer |
| `CursorTrail.PushKeepsOrder` | phase1-core.js:111-114 | the pushed point is last, and the older points keep their order, with the oldest dropped first |
| `CursorTrail.NewestStep` | phase1-core.js:111-114 | one push onto the newest 18 points gives the newest 18 of the longer list |
| `CursorTrail.PushAllKeepsNewest` | phase1-core.js:105-114 | from an empty trail, the trail is exactly the newest 18 points pushed, oldest first |
| `CursorTrail.Trail.constructor` | phase1-core.js:105 | the trail starts empty |
| `CursorTrail.Trail.PushPoint` | phase1-core.js:111-114 | `pushPoint` appends the point, then shifts once when over 18 |

## Left out

- Network I/O: the `fetch` POST, its `FormData` body and `Accept` header, and the endpoint from `action` (main.js:179-187). The request's result is an input to `ContactForm.Form.Settle`, and other events that interleave while the request is in flight are not modelled.
- Script loading, GSAP, ScrollTrigger and particles.js (phase1-core.js:29-95). These are third-party code loaded over the network.
- Intersection-observer geometry (root margin, thresholds): whether an entry is intersecting is an input. The `requestAnimationFrame` deferral of width writes is also left out; a width is modelled as set when `trigger` runs.
- Smooth scrolling and `preventDefault` in the navigation handler. `document.querySelector(href)` is an input (`targetFound`). An `href` that is not a valid selector, such as `#`, makes it throw, which leaves the menu unchanged, the same as a missing target.
- The tilt effect (main.js:112-153), including its pointer math, `toFixed` formatting and animation-frame coalescing. It is floating-point pixel math.
- The button ripple (phase1-core.js:140-154), pixel offsets for a transient element.
- Canvas drawing and window resizing in the cursor trail, `Audio` construction and playback, `body.animate`, and the box-shadow flash with its 720 ms reset.
- phase2-content.js: it only adds and removes a `focus` class on focus events.
- Missing elements: `MobileMenu.Menu` models the page where both the burger and the menu exist, because otherwise the controller wires nothing. A missing typewriter element or form likewise wires nothing. A missing toast element is modelled (`present`).
- MobileMenu.Menu: `href` absent and `href` empty both fail `!href`. Both are modelled as the empty string.
- ProgressBars.Percent: covers integers only. Numeric strings with fractions and NaN (`Number` of a non-numeric string) are not modelled.
- EasterEgg.Lower: maps only ASCII `A`–`Z`; full Unicode case mapping, which can change a string's length, is not modelled.
- EasterEgg.LastTwo: takes the last two Unicode characters, while JavaScript's `slice` counts UTF-16 code units. This only differs for keys outside the Basic Multilingual Plane.
- Typewriter.Prefixes: prefixes are taken over Unicode characters, while JavaScript's `slice` counts UTF-16 code units. The model therefore never splits a surrogate pair as the page may.
- Toast.Notifier.TimerFired: a timer fires as an input event. The model does not check that the browser runs it at its deadline; the deadline is recorded in the pending map.
- HoverSound.Player.Play: times are whole milliseconds, while `performance.now()` (phase1-core.js:181) returns fractional ones. Fractional times, and plays whose gap differs from 220 ms by less than a millisecond, are not modelled.
- CursorTrail.Push: a point's timestamp `t` is a whole number of milliseconds, while `performance.now()` (phase1-core.js:112) returns fractional ones. The queue never reads `t`.
- HoverSound.Player.OnMouseEnter: the target test `closest('.btn, .project-card, .nav-link, .burger')` is an input (`interactive`), and the playback itself, whose failures are swallowed, is not modelled.
