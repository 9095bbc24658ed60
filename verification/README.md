# Slide presentation navigator, modelled in Dafny

This project models `PresentationApp`, the browser-side controller of a 19-slide
presentation. The controller keeps one number, the current slide, and
derives everything on screen from it:

- the `active`/`prev` classes of the slides;
- the navigation dots;
- the "N / 19" counter and the progress bar;
- the dimmed state of the previous and next buttons, and the next button's
  `Finish` label;
- the `#slide-N` fragment in the address bar;
- the screen-reader announcement.

Every navigation input reaches the same guarded entry point, `goToSlide`:

- the previous and next buttons and the dots;
- the arrow, Space, Home and End keys;
- swipes;
- the back/forward buttons;
- the auto-advance timer's forward steps.

The fullscreen button, F11 and Escape only ask the platform for a
fullscreen change; only the platform's change event updates the
controller's own flag. A timer firing on the last slide stops the timer
instead of navigating.

Modules, following the program's structure:

- `Wrappers`: `Option`.
- `Decimal`: JavaScript's rendering of integers as text, and the global
  `parseInt` without a radix argument, as defined in section 19.2.5 of
  ECMA-262. Covers white space, sign, `0x` prefix and the longest digit run.
- `Fragment`: the `#slide-N` fragment, written by `updateURL` and read by
  `loadFromURL`.
- `Timers`: the host's `setInterval`/`clearInterval` table.
- `Navigator`: the `App` state and `goToSlide`, `previousSlide`,
  `nextSlide`, `updateUI`, `updateURL`, `announceSlideChange` and
  `loadFromURL`. Its predicate `Consistent` says that every view agrees
  with the current slide.
- `Fullscreen`, `Keyboard`, `Gesture`, `Preload`, `AutoAdvance`: the
  toggle, the key dispatch, the swipe classifier, the preload hints and
  the auto-advance timer.
- `Presentation`: start-up (`DOMContentLoaded` plus the constructor) and
  one `Step` per event the page listens to. Nothing in the page calls
  `startAutoAdvance` or `stopAutoAdvance`. The `StartTimer` and `StopTimer`
  events stand for calls made from outside the page, such as through
  `window.presentationApp`. `StartTimer` carries the optional argument of
  `startAutoAdvance`; without it the period is 30 seconds. `Step`'s contract
  and the lemma about `Run` show that any sequence of events keeps the views
  consistent and runs at most one auto-advance timer.

Two details of the code are easy to miss:

- Only Space, the four arrows (`app.js:49-54`) and F11 (`app.js:101-103`)
  suppress the browser's default action. Home and End keep theirs.
- The fragment number is read by `parseInt` with no radix (`app.js:198`).
  It is therefore not a plain decimal read:
  - trailing text is ignored (`#slide-12abc` shows slide 12);
  - leading white space and a sign are accepted by `parseInt`. White space
    never reaches it through `location.hash`, because the URL parser strips
    tabs and newlines and percent-encodes spaces. A sign does reach it:
    `#slide-+5` shows slide 5;
  - `#slide-0x10` is read in hexadecimal and shows slide 16.

## Model

| member | source | states |
|---|---|---|
| Decimal.Show | app.js:152-153 | the text of a slide number is a non-empty run of decimal digits with no leading zero unless the number is zero |
| Decimal.ValueOfShow | app.js:152-153 | the digits shown for `n` denote `n` |
| Decimal.ShowInjective | app.js:152-153 | different numbers are shown as different texts |
| Decimal.ShowInt | app.js:152-153 | the text of an integer is non-empty and starts with a minus sign exactly when the integer is negative; the rest is decimal digits |
| Decimal.TrimStart | app.js:198 | `parseInt` drops exactly the leading white-space characters: the rest is a suffix that starts with a non-space |
| Decimal.DigitPrefix | app.js:198 | `parseInt` reads the longest prefix of digits of the radix: a prefix, all digits, followed by a non-digit or the end |
| Decimal.ParseShowInt | app.js:152-198 | `parseInt` reads back the text of every integer, negative ones included |
| Decimal.ParseIntShape | app.js:198 | `parseInt` yields a number only when a digit follows the leading white space and sign, and always does when those digits do not start with `0x`; only a minus sign yields a negative number |
| Decimal.ParseShowThen | app.js:198 | `parseInt` ignores non-digit text after a number |
| Decimal.ParseSkipsSpace | app.js:198 | leading white space never changes what `parseInt` reads |
| Decimal.ParseRejectsNonNumeric | app.js:198 | text starting with anything but white space, a sign or a digit is `NaN` |
| Decimal.ParseHexExample | app.js:198 | without a radix argument `"0x10"` is read in hexadecimal as 16 |
| Fragment.Format | app.js:189-193 | the fragment written for a slide starts with `#slide-` |
| Fragment.Requested | app.js:196-198 | a fragment without the `#slide-` prefix requests no slide |
| Fragment.FormatRoundTrip | app.js:189-198 | the fragment written for slide `k` is read back as `k` |
| Fragment.RequestedAfterPrefix | app.js:197-198 | a fragment made of `#slide-` and a text requests exactly what `parseInt` reads from that text |
| Fragment.TrailingTextIgnored | app.js:197-198 | `#slide-` followed by a number and non-digit text requests that number |
| Fragment.NoDigitsNoRequest | app.js:197-198 | `#slide-` followed by no number requests no slide |
| Timers.SetInterval | app.js:321-327 | a new interval gets a fresh positive id and is added to the live intervals, the others unchanged |
| Timers.ClearInterval | app.js:332 | a cleared interval stops firing, and every other interval stays live or not as before, with its period unchanged |
| Navigator.ControlsFor | app.js:150-187 | the progress bar is filled to `k/19`; the previous button is dimmed exactly on slide 1; the next button is dimmed and reads `Finish` exactly on slide 19, and reads `Next →` otherwise |
| Navigator.CounterReadsBack | app.js:152-153 | the counter shows the current slide and the total 19, as numbers that read back exactly |
| Navigator.UpdateUI | app.js:150-187 | only the `k`-th dot is active for slide `k`; the controls are those of slide `k`; slide classes, fragment, announcement, fullscreen and timers are untouched |
| Navigator.Classified | app.js:132-141 | every heading is kept, only slide `n` is `active`, and exactly the slides before `n` are `prev` |
| Navigator.DotsFor | app.js:160-167 | one flag per dot, set exactly for the `n`-th dot |
| Navigator.UpdateURL | app.js:189-193 | the fragment becomes a `#slide-` fragment that reads back as the current slide, and nothing else changes |
| Navigator.AnnounceSlideChange | app.js:261-278 | only the announcement changes; it is the current slide's heading, or `Slide k` when the slide has none, followed by `. Slide k of 19`, for the current slide `k` |
| Navigator.RenderNavigates | app.js:125-148 | drawing slide `n` makes `n` current, marks earlier slides `prev` and only slide `n` `active`, writes a fragment that reads back as `n`, and leaves fullscreen, timers and headings alone |
| Navigator.RenderConsistent | app.js:125-148 | after drawing slide `n` every view agrees with `n` |
| Navigator.GoToSlide | app.js:125-148 | an out-of-range target changes nothing; an in-range target becomes current with the matching slide classes and fragment, and every view agrees with it; fullscreen, timers and headings are never touched |
| Navigator.PreviousSlide | app.js:113-117 | steps back one slide except on the first slide, where nothing changes; fullscreen, timers and headings are untouched; consistency is kept |
| Navigator.NextSlide | app.js:119-123 | steps forward one slide except on the last slide, where nothing changes; fullscreen, timers and headings are untouched; consistency is kept |
| Navigator.LoadTarget | app.js:195-206 | the slide shown for a fragment is in 1..19; it is the requested slide when that is in range, and slide 1 when the fragment requests nothing or an out-of-range slide |
| Navigator.LoadFromURL | app.js:195-206 | shows the slide the fragment names, or slide 1, with every view consistent |
| Navigator.ExactlyOneActive | app.js:132-167 | in a consistent state exactly one slide and exactly one dot are active |
| Navigator.GoToCurrentIsIdentity | app.js:125-148 | going to the slide already shown changes nothing |
| Navigator.GoToSlideOverwrites | app.js:125-148 | going to `m` and then to `n` is the same as going to `n`, so `goToSlide` is idempotent |
| Navigator.PreviousUndoesNext | app.js:113-123 | below the last slide, previous after next restores the state exactly |
| Navigator.NextUndoesPrevious | app.js:113-123 | above the first slide, next after previous restores the state exactly |
| Navigator.LoadFromURLRestores | app.js:189-206 | reloading the fragment of a consistent state changes nothing |
| Navigator.FragmentRoundTrip | app.js:189-206 | after going to slide `k`, the back/forward handler reading the fragment shows slide `k` again |
| Navigator.AnnouncementNamesPosition | app.js:277 | two announcements are equal only when they name the same slide position, whatever the headings |
| Navigator.FallbackWithoutPrefix | app.js:195-206 | an empty fragment or a non-slide fragment shows slide 1 |
| Navigator.AnnouncementText | app.js:273-277 | the announcement for slide `k` is the slide's heading, or `Slide k` when it has none, followed by `. Slide k of 19`, and no other position can be read from it |
| Navigator.FallbackNotANumber | app.js:198-205 | `#slide-abc` shows slide 1 |
| Navigator.FallbackZero | app.js:199-205 | `#slide-0` shows slide 1 |
| Navigator.FallbackTooLarge | app.js:199-205 | `#slide-9999` shows slide 1 |
| Navigator.TrailingTextExample | app.js:198-200 | `#slide-12abc` shows slide 12 |
| Navigator.HexadecimalExample | app.js:198-200 | `#slide-0x10` shows slide 16 |
| Fullscreen.Toggle | app.js:208-214 | asks to exit exactly when in fullscreen, and to enter otherwise |
| Fullscreen.OnEscape | app.js:105-109 | Escape asks to exit, and only while in fullscreen; it never asks to enter |
| Fullscreen.HandleFullscreenChange | app.js:242-259 | the flag and the container class follow the platform's state, and the button label is `⛶ Exit Full Screen` in fullscreen and `⛶ Full Screen` otherwise; nothing else changes, so consistency is kept |
| Fullscreen.ToggleAsksForChange | app.js:208-259 | after the platform reports a fullscreen state, the toggle asks to exit when that state is fullscreen and to enter when it is not |
| Keyboard.Decode | app.js:85-110 | decoding keeps the code string: the key's code is the event's code, and a listed code always becomes its own key rather than an unrecognised one |
| Keyboard.DecodeCode | app.js:85-110 | each listed key is recognised from its code |
| Keyboard.PreventsDefault | app.js:49-54 | the default action is suppressed exactly for Space, the arrows and F11; Home and End keep it |
| Keyboard.HandleKeyboard | app.js:84-111 | the left and up arrows act as `previousSlide`, the right and down arrows and Space as `nextSlide`, Home as going to slide 1 and End as going to slide 19; other keys leave the state unchanged; a fullscreen request is made exactly for F11, or for Escape in fullscreen; F11 requests the toggle; Escape never asks to enter |
| Keyboard.KeyboardKeepsConsistent | app.js:84-123 | every key keeps the views consistent; back keys move to `max(1, k-1)` and forward keys to `min(19, k+1)` |
| Keyboard.BoundaryKeysIdempotent | app.js:95-100 | pressing Home or End twice is pressing it once |
| Gesture.Classify | app.js:300-311 | a gesture counts exactly when its horizontal travel exceeds its vertical travel and 50; a counted rightward swipe goes back and a counted leftward one goes forward |
| Gesture.ClassifyMirror | app.js:305-310 | mirroring a gesture left to right reverses its effect |
| Gesture.ClassifyIgnoresVerticalSense | app.js:305 | upward and downward drift are treated alike |
| Gesture.ClassifyTransposed | app.js:305 | swapping the axes of a recognised swipe gives an ignored gesture |
| Gesture.SwipeExamples | app.js:305-310 | an 80-pixel leftward swipe with 5 pixels of drift goes forward; a 30 by 60 gesture is ignored |
| Gesture.TouchStart | app.js:289-292 | touch start records only the start point |
| Gesture.HandleSwipe | app.js:300-312 | a swipe classed Back is `previousSlide`, Forward is `nextSlide`, anything else changes nothing; fullscreen, timers and headings are untouched; consistency is kept |
| Gesture.TouchEnd | app.js:294-298 | touch end records the end point and then handles the swipe from the recorded points |
| Preload.Neighbours | app.js:354-366 | the hinted slides are exactly the existing slides within one of the current slide |
| Preload.NeighboursCount | app.js:354-366 | the current slide is always hinted; two slides are hinted at either end and three in between |
| AutoAdvance.StopAutoAdvance | app.js:330-335 | only the timer handle and the host's table change; under the one-timer discipline no interval is left running and the handle is cleared; with no handle nothing changes |
| AutoAdvance.StopIdempotent | app.js:330-335 | stopping twice is stopping once |
| AutoAdvance.StartAutoAdvance | app.js:318-328 | only the timers change; the handle names a live interval with period `seconds * 1000` ms, and the one-timer discipline is kept with exactly one interval running |
| AutoAdvance.StartTwiceOneTimer | app.js:318-319 | starting twice leaves exactly one interval, the second one |
| AutoAdvance.Tick | app.js:321-327 | a firing steps forward below the last slide and stops the timer on it; a cleared interval never fires; consistency and the one-timer discipline are kept |
| AutoAdvance.TicksRunToEnd | app.js:318-328 | after `k` firings the current slide is `min(start + k, 19)`; the timer keeps running until the firing after the last slide is reached, then stops |
| AutoAdvance.TickAdvances | app.js:321-324 | a firing below the last slide moves one slide forward, keeps the timer and keeps consistency and the one-timer discipline |
| AutoAdvance.TickStops | app.js:321-335 | a firing on the last slide stops the timer and stays on the last slide |
| AutoAdvance.TickIdle | app.js:330-335 | once the timer is stopped, nothing fires |
| Presentation.CreateNavigationDots | app.js:66-82 | one dot per slide, only the current slide's dot active |
| Presentation.Construct | app.js:1-12 | the constructed controller is consistent, not fullscreen, runs no timer, and shows the slide the fragment names, or slide 1 |
| Presentation.Startup | app.js:338-343 | start-up satisfies the invariant and shows the slide the fragment names, or slide 1 |
| Presentation.Step | app.js:26-63 | every event keeps the views consistent and at most one timer running; only the fullscreen button and keys request fullscreen changes, and only keys produce preload hints |
| Presentation.KeyKeepsInvariant | app.js:47-54 | a key press keeps the views consistent and leaves fullscreen and the timers as they were |
| Presentation.LoadKeepsInvariant | app.js:57 | reading a new fragment on back/forward keeps the views consistent and leaves fullscreen and the timers as they were |
| Presentation.DefaultPeriod | app.js:318 | a start request without an argument runs the timer with a period of 30000 ms |
| Presentation.TouchStartRecords | app.js:289-292 | a touch start only records where the touch began |
| Presentation.TouchEndSwipes | app.js:294-298 | a touch end handles the swipe from the recorded start to the new end point |
| Presentation.RunPreservesInvariant | app.js:26-63 | any sequence of events keeps the views consistent and at most one timer running |
| Presentation.StartAtSlideFive | app.js:195-206 | loading at `#slide-5` shows slide 5 with both buttons enabled, only the fifth dot active and the bar at 5/19 |
| Presentation.NextOnLastSlide | app.js:119-123 | on the last slide the next button reads `Finish` and clicking it changes nothing |
| Presentation.StartTwiceThroughEvents | app.js:318-319 | two start events in a row leave one running timer |

## Left out

- DOM access and listener wiring (`initializeElements`, `addEventListener`, `stopPropagation`) are abstracted. A document becomes the slide flags and headings plus the dot flags, and an event becomes an `Event` value.
- Styles and markup strings are not modelled. The opacity values and `aria-disabled` become a single `prevDisabled`/`nextDisabled` flag, and `innerHTML`/`textContent` become strings.
- The progress bar's CSS width string is not modelled. The fill is the exact fraction `k/19` as a `real`, so floating-point rounding of the percentage is left out.
- Vendor-prefixed fullscreen probing (`app.js:216-240`) is not modelled, only the enter/exit request. Whether the document holds a fullscreen element under any vendor name (`app.js:243-248`) is the parameter `platformFullscreen`.
- `history.replaceState` and `window.location` are not modelled. The fragment is the `hash` field, and the popstate event carries the new fragment.
- Timing of `setInterval` is not modelled. A firing is the event `IntervalFired(id)`, and the host's clamping of non-finite or tiny periods is left out.
- The `will-change` style values that each key press sets, and the `cleanupSlides` reset one second later (`app.js:360-381`), are left out. Preloading is modelled as the set of slide numbers hinted on each key press.
- The video-link logging (`app.js:346-351`) and the global `window.presentationApp` (`app.js:384`) are left out, except that the calls of `startAutoAdvance` and `stopAutoAdvance` it makes possible are the `StartTimer` and `StopTimer` events.
- `Navigator.GoToSlide`: requires the document to hold exactly 19 slides. With fewer, `announceSlideChange` reads a missing slide and throws.
- `Decimal.ParseShowInt`: integers are exact. A JavaScript `Number` loses precision above 2^53, and `String` writes an exponent from 10^21 on. Both are far beyond any slide index.
- `Decimal.ParseInt`: characters are Unicode scalar values, not UTF-16 code units. This only matters for white space outside the Basic Multilingual Plane, and there is none.
- `Gesture.Classify`: screen coordinates are exact reals rather than doubles.
- `Presentation.Construct`: the counter, progress and button fields start with placeholder values. In the markup they hold whatever the HTML gives them, and the constructor's `updateUI` overwrites them before anything reads them.
- `AutoAdvance.Tick`: the host fires only live intervals, so the firing of a cleared interval is a no-op.
- `Keyboard.HandleKeyboard`: takes keys as `Decode` builds them, so an unrecognised key never carries a listed code. The page builds every key that way.
- ToggleAsksForChange: speaks only of states after a change event. Between a request and the platform's change event the flag is stale, so a second toggle in that window repeats the first request; the timing of the platform's response is not modelled.
