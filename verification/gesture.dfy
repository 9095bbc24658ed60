/** Touch navigation: a horizontal swipe longer than the threshold steps
    one slide, against the direction of the finger. */
module Gesture {
  import opened Navigator

  /** Minimum horizontal travel, in screen pixels, of a swipe. */
  const SwipeThreshold: real := 50.0

  datatype Swipe = Back | Forward | Ignored

  function Abs(x: real): real {
    if x < 0.0 then -x else x
  }

  /** Classification of a gesture by its horizontal and vertical travel:
      it counts only when mostly horizontal and long enough; rightward
      travel goes back, leftward goes forward. */
  function Classify(dx: real, dy: real): (s: Swipe)
    ensures s != Ignored <==> Abs(dx) > Abs(dy) && Abs(dx) > SwipeThreshold
    ensures s == Back ==> dx > 0.0
    ensures s == Forward ==> dx < 0.0
  {
    if Abs(dx) > Abs(dy) && Abs(dx) > SwipeThreshold then
      (if dx > 0.0 then Back else Forward)
    else Ignored
  }

  function Reverse(s: Swipe): Swipe {
    match s
    case Back => Forward
    case Forward => Back
    case Ignored => Ignored
  }

  /** Mirroring a gesture left-to-right reverses its effect. */
  lemma ClassifyMirror(dx: real, dy: real)
    ensures Classify(-dx, dy) == Reverse(Classify(dx, dy))
  {
  }

  /** Whether the finger drifts up or down does not matter. */
  lemma ClassifyIgnoresVerticalSense(dx: real, dy: real)
    ensures Classify(dx, -dy) == Classify(dx, dy)
  {
  }

  /** Swapping the axes of a recognised swipe gives a mostly vertical
      gesture, which is ignored. */
  lemma ClassifyTransposed(dx: real, dy: real)
    ensures Classify(dx, dy) != Ignored ==> Classify(dy, dx) == Ignored
  {
  }

  /** The start and end points of the last touch, recorded by the
      `touchstart` and `touchend` listeners; all zero at first. */
  datatype Touch = Touch(startX: real, startY: real, endX: real, endY: real)

  const NoTouch: Touch := Touch(0.0, 0.0, 0.0, 0.0)

  function TouchStart(t: Touch, x: real, y: real): (r: Touch)
    ensures r.startX == x && r.startY == y && r.endX == t.endX && r.endY == t.endY
  {
    t.(startX := x, startY := y)
  }

  function SwipeOf(t: Touch): Swipe {
    Classify(t.endX - t.startX, t.endY - t.startY)
  }

  /** `handleSwipe`: `previousSlide` for a rightward swipe, `nextSlide`
      for a leftward one, nothing otherwise. */
  function HandleSwipe(a: App, t: Touch): (r: App)
    requires |a.slides| == TotalSlides
    ensures SameSurroundings(a, r) && SamePage(a, r)
    ensures SwipeOf(t) == Ignored ==> r == a
    ensures SwipeOf(t) == Back ==> r == PreviousSlide(a)
    ensures SwipeOf(t) == Forward ==> r == NextSlide(a)
    ensures Consistent(a) ==> Consistent(r)
  {
    match SwipeOf(t)
    case Back => PreviousSlide(a)
    case Forward => NextSlide(a)
    case Ignored => a
  }

  /** The `touchend` listener: record the end point, then handle the swipe. */
  function TouchEnd(a: App, t: Touch, x: real, y: real): (r: (App, Touch))
    requires |a.slides| == TotalSlides
    ensures r.1 == t.(endX := x, endY := y)
    ensures r.0 == HandleSwipe(a, r.1)
  {
    var t' := t.(endX := x, endY := y);
    (HandleSwipe(a, t'), t')
  }

  /** A leftward swipe of 80 pixels with 5 pixels of drift goes forward;
      a gesture of 30 by 60 pixels is ignored. */
  lemma SwipeExamples()
    ensures Classify(-80.0, 5.0) == Forward
    ensures Classify(30.0, 60.0) == Ignored
  {
  }
}
