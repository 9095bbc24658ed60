/** The whole page: start-up of the presentation object and every event the
    page reacts to, funnelled through the navigator's entry points. */
module Presentation {
  import opened Wrappers
  import opened Navigator
  import Timers
  import Fullscreen
  import Keyboard
  import Gesture
  import AutoAdvance
  import Preload
  import Decimal

  /** What the document supplies at load time: the slides (their classes in
      the markup and their headings), `location.hash`, and the markup's
      fullscreen class and button label. */
  datatype Page = Page(slides: seq<Slide>, hash: string, containerFullscreen: bool, fullscreenLabel: string)

  /** The presentation object together with the touch points the swipe
      listeners record. */
  datatype Model = Model(app: App, touch: Gesture.Touch)

  ghost predicate Invariant(m: Model) {
    Consistent(m.app) && AutoAdvance.OneTimer(m.app)
  }

  /** `createNavigationDots`: one dot per slide, the current one active. */
  function CreateNavigationDots(current: int): (dots: seq<bool>)
    ensures |dots| == TotalSlides
    ensures forall i :: 0 <= i < |dots| ==> (dots[i] <==> i + 1 == current)
  {
    DotsFor(TotalSlides, current)
  }

  /** The constructor: slide 1, not fullscreen, no timer; dots are built,
      the views drawn, then the fragment decides the slide. The counter,
      progress and button fields start with placeholders that `updateUI`
      overwrites before anything reads them; `markup` stands for them.
      The page holds `TotalSlides` slides. */
  function Construct(page: Page): (a: App)
    requires |page.slides| == TotalSlides
    ensures Consistent(a) && AutoAdvance.OneTimer(a)
    ensures a.current == LoadTarget(page.hash)
    ensures !a.screen.isFullscreen && a.interval == None
  {
    var markup := Controls("", "", 0.0, false, false, "");
    var screen := Screen(false, page.containerFullscreen, page.fullscreenLabel);
    var initial := App(1, page.slides, CreateNavigationDots(1), markup, page.hash, "", screen,
                       None, Timers.Host(map[], 1));
    var drawn := UpdateUI(initial);
    assert |drawn.dots| == TotalSlides && drawn.slides == page.slides && drawn.hash == page.hash;
    assert drawn.interval == None && drawn.host == Timers.Host(map[], 1) && !drawn.screen.isFullscreen;
    LoadFromURL(drawn)
  }

  /** `DOMContentLoaded`: construct the presentation, then attach the
      touch listeners. */
  function Startup(page: Page): (m: Model)
    requires |page.slides| == TotalSlides
    ensures Invariant(m)
    ensures m.app.current == LoadTarget(page.hash)
  {
    Model(Construct(page), Gesture.NoTouch)
  }

  /** What the page reacts to. Nothing in the page calls `startAutoAdvance`
      or `stopAutoAdvance`: `StartTimer` and `StopTimer` stand for calls made
      from outside it, and `StartTimer(None)` is a call without an argument. */
  datatype Event =
    | PrevClick
    | NextClick
    | DotClick(slide: int)
    | FullscreenClick
    | KeyDown(code: string)
    | PopState(hash: string)
    | FullscreenChange(platformFullscreen: bool)
    | TouchStart(x: real, y: real)
    | TouchEnd(x: real, y: real)
    | StartTimer(seconds: Option<real>)
    | StopTimer
    | IntervalFired(id: nat)

  /** The new model and what the listeners ask of the browser: a fullscreen
      request, whether the default action is suppressed, and the slides
      hinted for preloading. */
  datatype Outcome = Outcome(model: Model, request: Option<Fullscreen.Request>, preventDefault: bool, preload: set<int>)

  function Quiet(m: Model): Outcome {
    Outcome(m, None, false, {})
  }

  /** One event, as the listeners registered by the constructor, by the
      touch support and by the start-up code handle it, in registration
      order, or one of the two timer calls from outside the page. Every
      event keeps every view consistent with the current slide and keeps at
      most one auto-advance timer running; each branch brings the fact its
      handler needs. */
  function Step(m: Model, e: Event): (o: Outcome)
    requires |m.app.slides| == TotalSlides
    ensures |o.model.app.slides| == TotalSlides
    ensures o.request.Some? ==> e.FullscreenClick? || e.KeyDown?
    ensures o.preload != {} ==> e.KeyDown?
    ensures Invariant(m) ==> Invariant(o.model)
  {
    var a := m.app;
    match e
    case PrevClick => Outcome(m.(app := PreviousSlide(a)), None, true, {})
    case NextClick => Outcome(m.(app := NextSlide(a)), None, true, {})
    case DotClick(n) => Outcome(m.(app := GoToSlide(a, n)), None, true, {})
    case FullscreenClick => Outcome(m, Some(Fullscreen.Toggle(a.screen.isFullscreen)), true, {})
    case KeyDown(code) =>
      var key := Keyboard.Decode(code);
      var reaction := Keyboard.HandleKeyboard(a, key);
      KeyKeepsInvariant(m, key);
      Outcome(m.(app := reaction.app), reaction.request, Keyboard.PreventsDefault(key),
              Preload.Neighbours(reaction.app.current, TotalSlides))
    case PopState(hash) =>
      LoadKeepsInvariant(m, hash);
      Quiet(m.(app := LoadFromURL(a.(hash := hash))))
    case FullscreenChange(p) => Quiet(m.(app := Fullscreen.HandleFullscreenChange(a, p)))
    case TouchStart(x, y) => Quiet(m.(touch := Gesture.TouchStart(m.touch, x, y)))
    case TouchEnd(x, y) =>
      var (app, touch) := Gesture.TouchEnd(a, m.touch, x, y);
      Quiet(Model(app, touch))
    case StartTimer(seconds) =>
      Quiet(m.(app := AutoAdvance.StartAutoAdvance(a, seconds.GetOr(AutoAdvance.DefaultIntervalSeconds))))
    case StopTimer => Quiet(m.(app := AutoAdvance.StopAutoAdvance(a)))
    case IntervalFired(id) => Quiet(m.(app := AutoAdvance.Tick(a, id)))
  }

  /** A key press keeps the invariant: the keyboard handler keeps the views
      consistent and leaves the timers alone. */
  lemma KeyKeepsInvariant(m: Model, key: Keyboard.Key)
    requires |m.app.slides| == TotalSlides && Keyboard.Canonical(key)
    ensures Invariant(m) ==> Invariant(m.(app := Keyboard.HandleKeyboard(m.app, key).app))
    ensures SameSurroundings(m.app, Keyboard.HandleKeyboard(m.app, key).app)
  {
    if Invariant(m) {
      Keyboard.KeyboardKeepsConsistent(m.app, key);
    }
  }

  /** Reading a new fragment keeps the invariant and leaves fullscreen and
      the timers alone. */
  lemma LoadKeepsInvariant(m: Model, hash: string)
    requires |m.app.slides| == TotalSlides
    ensures Invariant(m) ==> Invariant(m.(app := LoadFromURL(m.app.(hash := hash))))
    ensures SameSurroundings(m.app, LoadFromURL(m.app.(hash := hash)))
  {
    var a := m.app.(hash := hash);
    if Invariant(m) {
      assert |a.dots| == TotalSlides;
      assert SameSurroundings(a, LoadFromURL(a));
    }
  }

  /** A start request without an argument runs the timer every 30 seconds. */
  lemma DefaultPeriod(m: Model)
    requires |m.app.slides| == TotalSlides
    ensures var a := Step(m, StartTimer(None)).model.app;
            a.interval.Some? && a.host.live[a.interval.value] == 30000.0
  {
  }

  /** A touch start only records where the touch began. */
  lemma TouchStartRecords(m: Model, x: real, y: real)
    requires |m.app.slides| == TotalSlides
    ensures Step(m, TouchStart(x, y)).model == m.(touch := Gesture.TouchStart(m.touch, x, y))
  {
  }

  /** A touch end records where the touch ended and handles the swipe. */
  lemma TouchEndSwipes(m: Model, x: real, y: real)
    requires |m.app.slides| == TotalSlides
    ensures Step(m, TouchEnd(x, y)).model.app == Gesture.HandleSwipe(m.app, m.touch.(endX := x, endY := y))
  {
  }

  /** Any sequence of events from start-up keeps the invariant. */
  function Run(m: Model, events: seq<Event>): (r: Model)
    requires |m.app.slides| == TotalSlides
    ensures |r.app.slides| == TotalSlides
    decreases |events|
  {
    if events == [] then m else Run(Step(m, events[0]).model, events[1..])
  }

  lemma {:induction false} RunPreservesInvariant(m: Model, events: seq<Event>)
    requires Invariant(m)
    ensures Invariant(Run(m, events))
    decreases |events|
  {
    if events != [] {
      RunPreservesInvariant(Step(m, events[0]).model, events[1..]);
    }
  }

  /** Loading the page at `#slide-5` shows slide 5 with both buttons
      enabled, the fifth dot active and the bar filled to 5/19. */
  lemma StartAtSlideFive(page: Page)
    requires |page.slides| == TotalSlides && page.hash == "#slide-5"
    ensures var a := Startup(page).app;
            && a.current == 5
            && !a.controls.prevDisabled && !a.controls.nextDisabled
            && a.dots[4] && Occurrences(a.dots) == 1
            && a.controls.progress == 5.0 / 19.0
  {
    assert Decimal.Show(5) == "5";
    assert page.hash == Fragment.Format(5);
    Fragment.FormatRoundTrip(5);
    ExactlyOneActive(Startup(page).app);
  }

  /** On the last slide the next button reads `Finish`, and pressing it
      changes nothing. */
  lemma NextOnLastSlide(m: Model)
    requires Invariant(m) && m.app.current == TotalSlides
    ensures m.app.controls.nextLabel == FinishLabel
    ensures Step(m, NextClick).model == m
  {
  }

  /** Starting auto-advance twice leaves one running timer. */
  lemma StartTwiceThroughEvents(m: Model, s1: Option<real>, s2: Option<real>)
    requires Invariant(m)
    ensures var r := Step(Step(m, StartTimer(s1)).model, StartTimer(s2)).model;
            |r.app.host.live| == 1 && r.app.interval.Some?
  {
  }
}
