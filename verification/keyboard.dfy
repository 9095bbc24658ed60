/** The keyboard dispatch table of the presentation. */
module Keyboard {
  import opened Wrappers
  import opened Navigator
  import Fullscreen

  /** The `KeyboardEvent.code` values the presentation reacts to. */
  datatype Key = ArrowLeft | ArrowUp | ArrowRight | ArrowDown | Space | Home | End | F11 | Escape | Other(code: string)

  /** The `code` string of a key. */
  function Code(k: Key): string {
    match k
    case ArrowLeft => "ArrowLeft"
    case ArrowUp => "ArrowUp"
    case ArrowRight => "ArrowRight"
    case ArrowDown => "ArrowDown"
    case Space => "Space"
    case Home => "Home"
    case End => "End"
    case F11 => "F11"
    case Escape => "Escape"
    case Other(c) => c
  }

  /** The codes the dispatch lists. */
  const ListedCodes: set<string> :=
    {"ArrowLeft", "ArrowUp", "ArrowRight", "ArrowDown", "Space", "Home", "End", "F11", "Escape"}

  /** A key as the dispatch sees it: `Other` never carries a listed code. */
  predicate Canonical(k: Key) {
    k.Other? ==> k.code !in ListedCodes
  }

  /** The `switch (e.code)` of the dispatch: exact string comparison. */
  function Decode(code: string): (k: Key)
    ensures Code(k) == code
    ensures Canonical(k)
  {
    if code == "ArrowLeft" then ArrowLeft
    else if code == "ArrowUp" then ArrowUp
    else if code == "ArrowRight" then ArrowRight
    else if code == "ArrowDown" then ArrowDown
    else if code == "Space" then Space
    else if code == "Home" then Home
    else if code == "End" then End
    else if code == "F11" then F11
    else if code == "Escape" then Escape
    else Other(code)
  }

  /** Decoding the code of a key gives the key back, unless an unlisted
      key carries a listed code. */
  lemma DecodeCode(k: Key)
    requires Canonical(k)
    ensures Decode(Code(k)) == k
  {
  }

  predicate GoesBack(k: Key) {
    k == ArrowLeft || k == ArrowUp
  }

  predicate GoesForward(k: Key) {
    k == ArrowRight || k == ArrowDown || k == Space
  }

  /** The second `keydown` listener suppresses the browser's default for
      Space and the arrows, and the dispatch does so for F11. Home and End
      keep their default. */
  function PreventsDefault(k: Key): (b: bool)
    ensures b <==> GoesBack(k) || GoesForward(k) || k == F11
    ensures k == Home || k == End ==> !b
  {
    match k
    case ArrowLeft => true
    case ArrowUp => true
    case ArrowRight => true
    case ArrowDown => true
    case Space => true
    case F11 => true
    case _ => false
  }

  /** The new state and, for F11 and Escape, the fullscreen request sent to
      the platform. */
  datatype Reaction = Reaction(app: App, request: Option<Fullscreen.Request>)

  /** The slide change a key causes: arrows and Space step, Home and End
      jump to the ends, every other key leaves the slides alone. */
  function Navigate(a: App, k: Key): (r: App)
    requires |a.slides| == TotalSlides
    ensures GoesBack(k) ==> r == PreviousSlide(a)
    ensures GoesForward(k) ==> r == NextSlide(a)
    ensures k == Home ==> r == GoToSlide(a, 1)
    ensures k == End ==> r == GoToSlide(a, TotalSlides)
    ensures !(GoesBack(k) || GoesForward(k) || k == Home || k == End) ==> r == a
  {
    if GoesBack(k) then PreviousSlide(a)
    else if GoesForward(k) then NextSlide(a)
    else if k == Home then GoToSlide(a, 1)
    else if k == End then GoToSlide(a, TotalSlides)
    else a
  }

  /** The fullscreen request a key causes: F11 toggles, Escape leaves
      fullscreen while in it. */
  function KeyRequest(k: Key, isFullscreen: bool): (r: Option<Fullscreen.Request>)
    ensures r.Some? <==> k == F11 || (k == Escape && isFullscreen)
    ensures k == F11 ==> r == Some(Fullscreen.Toggle(isFullscreen))
    ensures k == Escape ==> r != Some(Fullscreen.Enter)
  {
    if k == F11 then Some(Fullscreen.Toggle(isFullscreen))
    else if k == Escape then Fullscreen.OnEscape(isFullscreen)
    else None
  }

  /** `handleKeyboard`: arrows and Space step, Home and End jump to the
      ends, F11 toggles fullscreen, Escape leaves it; other keys do
      nothing. */
  function HandleKeyboard(a: App, k: Key): (r: Reaction)
    requires |a.slides| == TotalSlides && Canonical(k)
    ensures GoesBack(k) ==> r.app == PreviousSlide(a)
    ensures GoesForward(k) ==> r.app == NextSlide(a)
    ensures k == Home ==> r.app == GoToSlide(a, 1)
    ensures k == End ==> r.app == GoToSlide(a, TotalSlides)
    ensures k == Home ==> r.app.current == 1
    ensures k == End ==> r.app.current == TotalSlides
    ensures !(GoesBack(k) || GoesForward(k) || k == Home || k == End) ==> r.app == a
    ensures r.request.Some? <==> k == F11 || (k == Escape && a.screen.isFullscreen)
    ensures k == F11 ==> r.request == Some(Fullscreen.Toggle(a.screen.isFullscreen))
    ensures k == Escape ==> r.request != Some(Fullscreen.Enter)
  {
    Reaction(Navigate(a, k), KeyRequest(k, a.screen.isFullscreen))
  }

  lemma BackKeyStep(a: App, k: Key)
    requires Consistent(a) && GoesBack(k)
    ensures Consistent(HandleKeyboard(a, k).app)
    ensures HandleKeyboard(a, k).app.current == Max(1, a.current - 1)
  {
  }

  lemma ForwardKeyStep(a: App, k: Key)
    requires Consistent(a) && GoesForward(k)
    ensures Consistent(HandleKeyboard(a, k).app)
    ensures HandleKeyboard(a, k).app.current == Min(TotalSlides, a.current + 1)
  {
  }

  lemma OtherKeyStep(a: App, k: Key)
    requires Consistent(a) && Canonical(k) && !GoesBack(k) && !GoesForward(k)
    ensures Consistent(HandleKeyboard(a, k).app)
  {
  }

  /** Every key keeps the state consistent, so `1 <= current <=
      TotalSlides` holds after any sequence of keys; the arrows and Space
      move by one slide and stop at either end. */
  lemma KeyboardKeepsConsistent(a: App, k: Key)
    requires Consistent(a) && Canonical(k)
    ensures Consistent(HandleKeyboard(a, k).app)
    ensures GoesBack(k) ==> HandleKeyboard(a, k).app.current == Max(1, a.current - 1)
    ensures GoesForward(k) ==> HandleKeyboard(a, k).app.current == Min(TotalSlides, a.current + 1)
  {
    if GoesBack(k) {
      BackKeyStep(a, k);
    } else if GoesForward(k) {
      ForwardKeyStep(a, k);
    } else {
      OtherKeyStep(a, k);
    }
  }

  /** From any consistent state, Home twice is Home once, and End likewise. */
  lemma BoundaryKeysIdempotent(a: App, k: Key)
    requires Consistent(a) && (k == Home || k == End)
    ensures HandleKeyboard(HandleKeyboard(a, k).app, k) == HandleKeyboard(a, k)
  {
    var n := if k == Home then 1 else TotalSlides;
    var b := HandleKeyboard(a, k);
    assert b.app == GoToSlide(a, n);
    GoToSlideOverwrites(a, n, n);
    assert HandleKeyboard(b.app, k).app == GoToSlide(b.app, n);
  }
}
