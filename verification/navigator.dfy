/** The presentation's slide-navigation state and its one guarded entry
    point, `GoToSlide`, together with every view derived from the current
    slide: slide classes, navigation dots, counter, progress bar, button
    states, address-bar fragment and screen-reader announcement. The
    document is abstracted into the flag sequences and strings of `App`. */
module Navigator {
  import opened Wrappers
  import opened Decimal
  import Fragment
  import Timers

  /** `totalSlides`, fixed by the constructor. */
  const TotalSlides: int := 19

  function Max(x: int, y: int): int {
    if x >= y then x else y
  }

  function Min(x: int, y: int): int {
    if x <= y then x else y
  }

  const FinishLabel: string := "Finish"
  const NextLabel: string := "Next →"

  /** One `.slide` element: its `active` and `prev` classes and the text of
      its first `h1`/`h2` heading, if it has one. */
  datatype Slide = Slide(active: bool, prev: bool, heading: Option<string>)

  /** What `updateUI` draws besides the dots: the slide counter and total,
      the filled fraction of the progress bar, the two buttons' disabled
      state (`aria-disabled` together with the dimmed opacity) and the
      next button's label. */
  datatype Controls = Controls(
    counterText: string,
    totalText: string,
    progress: real,
    prevDisabled: bool,
    nextDisabled: bool,
    nextLabel: string)

  /** The fullscreen flag, the container's `fullscreen` class and the
      fullscreen button's label. */
  datatype Screen = Screen(isFullscreen: bool, containerFullscreen: bool, fullscreenLabel: string)

  /** The application object and the parts of the document it writes.
      `dots` holds the `active` class of each navigation dot; `hash` is
      `location.hash`; `announcement` is the live region's text;
      `interval` is the auto-advance handle and `host` the host's timer
      table. */
  datatype App = App(
    current: int,
    slides: seq<Slide>,
    dots: seq<bool>,
    controls: Controls,
    hash: string,
    announcement: string,
    screen: Screen,
    interval: Option<nat>,
    host: Timers.Host)

  /** The state navigation never touches: fullscreen and timers. */
  predicate SameSurroundings(a: App, b: App) {
    a.screen == b.screen && a.interval == b.interval && a.host == b.host
  }

  /** Same number of slides with the same headings, same number of dots. */
  predicate SamePage(a: App, b: App) {
    && |a.slides| == |b.slides|
    && (forall i :: 0 <= i < |a.slides| ==> a.slides[i].heading == b.slides[i].heading)
    && |a.dots| == |b.dots|
  }

  /** The controls for slide `k`. */
  function ControlsFor(k: int): (c: Controls)
    ensures c.progress * TotalSlides as real == k as real
    ensures c.prevDisabled <==> k == 1
    ensures c.nextDisabled <==> k == TotalSlides
    ensures c.nextLabel == FinishLabel <==> k == TotalSlides
    ensures c.nextLabel == NextLabel <==> k != TotalSlides
  {
    Controls(ShowInt(k), ShowInt(TotalSlides), k as real / TotalSlides as real,
             k == 1, k == TotalSlides, if k == TotalSlides then FinishLabel else NextLabel)
  }

  /** The counter shows the slide number and the total, as numbers a
      reader (or `parseInt`) reads back exactly. */
  lemma CounterReadsBack(k: int)
    ensures ParseInt(ControlsFor(k).counterText) == Some(k)
    ensures ParseInt(ControlsFor(k).totalText) == Some(TotalSlides)
  {
    ParseShowInt(k);
    ParseShowInt(TotalSlides);
  }

  /** What the live region calls slide `k`: its heading, else `Slide k`. */
  function Title(s: Slide, k: int): string {
    s.heading.GetOr("Slide " + ShowInt(k))
  }

  /** The live region's text: the title, then the position in the deck. */
  function Announcement(title: string, k: int): string {
    title + ". Slide " + ShowInt(k) + " of " + ShowInt(TotalSlides)
  }

  /** The announcement for slide `k` of `slides`. */
  function AnnouncementFor(slides: seq<Slide>, k: int): string
    requires 1 <= k <= |slides|
  {
    Announcement(Title(slides[k - 1], k), k)
  }

  /** Every derived view agrees with `current`, which is in range. */
  ghost predicate Consistent(a: App) {
    && 1 <= a.current <= TotalSlides
    && |a.slides| == TotalSlides
    && |a.dots| == TotalSlides
    && (forall i :: 0 <= i < |a.slides| ==>
          a.slides[i].active == (i + 1 == a.current) && a.slides[i].prev == (i + 1 < a.current))
    && (forall i :: 0 <= i < |a.dots| ==> a.dots[i] == (i + 1 == a.current))
    && a.controls == ControlsFor(a.current)
    && a.hash == Fragment.Format(a.current)
    && a.announcement == AnnouncementFor(a.slides, a.current)
  }

  /** The slide classes for slide `n`: earlier slides `prev`, slide `n`
      `active`, later slides neither; headings are kept. */
  function Classified(slides: seq<Slide>, n: int): (r: seq<Slide>)
    ensures |r| == |slides|
    ensures forall i :: 0 <= i < |r| ==>
              (r[i].active <==> i + 1 == n) && (r[i].prev <==> i + 1 < n) && r[i].heading == slides[i].heading
  {
    seq(|slides|, i requires 0 <= i < |slides| => Slide(i + 1 == n, i + 1 < n, slides[i].heading))
  }

  /** The dot flags for slide `n`: only the `n`-th dot is active. */
  function DotsFor(count: int, n: int): (r: seq<bool>)
    requires count >= 0
    ensures |r| == count
    ensures forall i :: 0 <= i < |r| ==> (r[i] <==> i + 1 == n)
  {
    seq(count, i requires 0 <= i < count => i + 1 == n)
  }

  /** `updateUI`: counter, progress bar, dots and buttons from `current`. */
  function UpdateUI(a: App): (r: App)
    ensures r.current == a.current && r.slides == a.slides
    ensures r.hash == a.hash && r.announcement == a.announcement && SameSurroundings(a, r)
    ensures |r.dots| == |a.dots|
    ensures forall i :: 0 <= i < |r.dots| ==> (r.dots[i] <==> i + 1 == a.current)
    ensures r.controls == ControlsFor(a.current)
  {
    a.(dots := DotsFor(|a.dots|, a.current), controls := ControlsFor(a.current))
  }

  /** `updateURL`: the fragment now names the current slide (replacing the
      history entry, so no other state changes). */
  function UpdateURL(a: App): (r: App)
    ensures r.current == a.current && r.slides == a.slides && r.dots == a.dots && r.controls == a.controls
    ensures r.announcement == a.announcement && SameSurroundings(a, r)
    ensures Fragment.Prefix <= r.hash
    ensures Fragment.Requested(r.hash) == Some(a.current)
  {
    Fragment.FormatRoundTrip(a.current);
    a.(hash := Fragment.Format(a.current))
  }

  /** `announceSlideChange`: the live region names the current slide and
      its position. It reads the `current`-th slide, so that slide must
      exist. */
  function AnnounceSlideChange(a: App): (r: App)
    requires 1 <= a.current <= |a.slides|
    ensures r.current == a.current && r.slides == a.slides && r.dots == a.dots && r.controls == a.controls
    ensures r.hash == a.hash && SameSurroundings(a, r)
    ensures forall t: string, k: nat :: r.announcement == Announcement(t, k) ==> k == a.current
    ensures a.slides[a.current - 1].heading.Some? ==> a.slides[a.current - 1].heading.value <= r.announcement
    ensures var tail := ". Slide " + ShowInt(a.current) + " of 19";
            |tail| <= |r.announcement| && r.announcement[|r.announcement| - |tail|..] == tail
    ensures var heading := a.slides[a.current - 1].heading;
            var tail := ". Slide " + ShowInt(a.current) + " of 19";
            && (heading.Some? ==> r.announcement == heading.value + tail)
            && (heading.None? ==> r.announcement == "Slide " + ShowInt(a.current) + tail)
  {
    AnnouncementText(a.slides, a.current);
    a.(announcement := AnnouncementFor(a.slides, a.current))
  }

  /** The state `goToSlide(n)` leaves for a target `n` in range: `n` is
      current and every view has been recomputed from it. */
  function Render(a: App, n: int): App
    requires |a.slides| == TotalSlides && 1 <= n <= TotalSlides
  {
    AnnounceSlideChange(UpdateURL(UpdateUI(a.(current := n, slides := Classified(a.slides, n)))))
  }

  /** `Render` field by field. */
  lemma RenderFields(a: App, n: int)
    requires |a.slides| == TotalSlides && 1 <= n <= TotalSlides
    ensures Render(a, n) ==
      a.(current := n,
         slides := Classified(a.slides, n),
         dots := DotsFor(|a.dots|, n),
         controls := ControlsFor(n),
         hash := Fragment.Format(n),
         announcement := AnnouncementFor(Classified(a.slides, n), n))
  {
  }

  lemma RenderConsistent(a: App, n: int)
    requires |a.slides| == TotalSlides && 1 <= n <= TotalSlides
    ensures |a.dots| == TotalSlides ==> Consistent(Render(a, n))
  {
    var r := Render(a, n);
    assert r.current == n;
    assert r.slides == Classified(a.slides, n);
    assert r.hash == Fragment.Format(n);
    assert r.announcement == AnnouncementFor(r.slides, n);
  }

  lemma RenderNavigates(a: App, n: int)
    requires |a.slides| == TotalSlides && 1 <= n <= TotalSlides
    ensures SameSurroundings(a, Render(a, n)) && SamePage(a, Render(a, n))
    ensures Render(a, n).current == n
    ensures forall i :: 0 <= i < |a.slides| ==>
              (Render(a, n).slides[i].active <==> i + 1 == n) && (Render(a, n).slides[i].prev <==> i + 1 < n)
    ensures Fragment.Requested(Render(a, n).hash) == Some(n)
  {
    var r := Render(a, n);
    assert r.slides == Classified(a.slides, n);
    Fragment.FormatRoundTrip(n);
  }

  /** `goToSlide(n)`: ignored unless `1 <= n <= TotalSlides`; otherwise `n`
      becomes current and every view is recomputed from it. The document
      holds `TotalSlides` slides. */
  function GoToSlide(a: App, n: int): (r: App)
    requires |a.slides| == TotalSlides
    ensures SameSurroundings(a, r) && SamePage(a, r)
    ensures n < 1 || n > TotalSlides ==> r == a
    ensures 1 <= n <= TotalSlides ==> r.current == n
    ensures 1 <= n <= TotalSlides ==>
              forall i :: 0 <= i < |r.slides| ==>
                (r.slides[i].active <==> i + 1 == n) && (r.slides[i].prev <==> i + 1 < n)
    ensures 1 <= n <= TotalSlides ==> Fragment.Requested(r.hash) == Some(n)
    ensures 1 <= n <= TotalSlides && |a.dots| == TotalSlides ==> Consistent(r)
  {
    if n < 1 || n > TotalSlides then a
    else
      RenderConsistent(a, n);
      RenderNavigates(a, n);
      Render(a, n)
  }

  /** `previousSlide`: one slide back, except on the first slide. */
  function PreviousSlide(a: App): (r: App)
    requires |a.slides| == TotalSlides
    ensures SameSurroundings(a, r) && SamePage(a, r)
    ensures a.current <= 1 ==> r == a
    ensures 1 < a.current <= TotalSlides + 1 ==> r.current == a.current - 1
    ensures Consistent(a) ==> Consistent(r)
  {
    if a.current > 1 then GoToSlide(a, a.current - 1) else a
  }

  /** `nextSlide`: one slide forward, except on the last slide. */
  function NextSlide(a: App): (r: App)
    requires |a.slides| == TotalSlides
    ensures SameSurroundings(a, r) && SamePage(a, r)
    ensures a.current >= TotalSlides ==> r == a
    ensures 0 <= a.current < TotalSlides ==> r.current == a.current + 1
    ensures Consistent(a) ==> Consistent(r)
  {
    if a.current < TotalSlides then GoToSlide(a, a.current + 1) else a
  }

  /** The slide `loadFromURL` shows for a fragment: the requested one when
      it is in range, slide 1 otherwise. */
  function LoadTarget(hash: string): (k: int)
    ensures 1 <= k <= TotalSlides
    ensures k != 1 ==> Fragment.Requested(hash) == Some(k)
    ensures (Fragment.Requested(hash).Some? && 1 <= Fragment.Requested(hash).value <= TotalSlides)
            ==> k == Fragment.Requested(hash).value
    ensures (Fragment.Requested(hash).None?
             || Fragment.Requested(hash).value < 1
             || Fragment.Requested(hash).value > TotalSlides) ==> k == 1
  {
    match Fragment.Requested(hash)
    case Some(n) => if 1 <= n <= TotalSlides then n else 1
    case None => 1
  }

  /** `loadFromURL`: go to the slide the fragment names, or to slide 1. */
  function LoadFromURL(a: App): (r: App)
    requires |a.slides| == TotalSlides
    ensures r.current == LoadTarget(a.hash)
    ensures SameSurroundings(a, r) && SamePage(a, r)
    ensures |a.dots| == TotalSlides ==> Consistent(r)
  {
    GoToSlide(a, LoadTarget(a.hash))
  }

  /** Number of set flags. */
  function Occurrences(flags: seq<bool>): nat {
    if flags == [] then 0 else (if flags[0] then 1 else 0) + Occurrences(flags[1..])
  }

  function ActiveFlags(slides: seq<Slide>): seq<bool> {
    seq(|slides|, i requires 0 <= i < |slides| => slides[i].active)
  }

  lemma {:induction false} OccurrencesNone(flags: seq<bool>)
    requires forall i :: 0 <= i < |flags| ==> !flags[i]
    ensures Occurrences(flags) == 0
    decreases |flags|
  {
    if flags != [] {
      OccurrencesNone(flags[1..]);
    }
  }

  lemma {:induction false} OccurrencesSingle(flags: seq<bool>, k: int)
    requires 0 <= k < |flags|
    requires forall i :: 0 <= i < |flags| ==> (flags[i] <==> i == k)
    ensures Occurrences(flags) == 1
    decreases |flags|
  {
    if k == 0 {
      OccurrencesNone(flags[1..]);
    } else {
      OccurrencesSingle(flags[1..], k - 1);
    }
  }

  /** In a consistent state exactly one slide and exactly one dot are active. */
  lemma ExactlyOneActive(a: App)
    requires Consistent(a)
    ensures Occurrences(ActiveFlags(a.slides)) == 1
    ensures Occurrences(a.dots) == 1
  {
    OccurrencesSingle(ActiveFlags(a.slides), a.current - 1);
    OccurrencesSingle(a.dots, a.current - 1);
  }

  lemma ViewsAlreadyShown(a: App)
    requires Consistent(a)
    ensures Classified(a.slides, a.current) == a.slides
    ensures DotsFor(|a.dots|, a.current) == a.dots
  {
    assert forall i :: 0 <= i < |a.slides| ==> Classified(a.slides, a.current)[i] == a.slides[i];
  }

  /** Re-entering the current slide of a consistent state changes nothing. */
  lemma GoToCurrentIsIdentity(a: App)
    requires Consistent(a)
    ensures GoToSlide(a, a.current) == a
  {
    RenderFields(a, a.current);
    ViewsAlreadyShown(a);
  }

  /** Only the last valid target matters: going to `m` and then to `n` is
      going to `n`; in particular `GoToSlide` is idempotent. */
  lemma GoToSlideOverwrites(a: App, m: int, n: int)
    requires |a.slides| == TotalSlides
    requires 1 <= m <= TotalSlides && 1 <= n <= TotalSlides
    ensures GoToSlide(GoToSlide(a, m), n) == GoToSlide(a, n)
  {
    var b := Render(a, m);
    RenderFields(a, m);
    RenderFields(b, n);
    RenderFields(a, n);
    assert Classified(b.slides, n) == Classified(a.slides, n);
  }

  /** `previousSlide` undoes `nextSlide` below the last slide. */
  lemma PreviousUndoesNext(a: App)
    requires Consistent(a) && a.current < TotalSlides
    ensures PreviousSlide(NextSlide(a)) == a
  {
    var b := NextSlide(a);
    assert b == GoToSlide(a, a.current + 1) && b.current == a.current + 1;
    assert PreviousSlide(b) == GoToSlide(b, a.current);
    GoToSlideOverwrites(a, a.current + 1, a.current);
    GoToCurrentIsIdentity(a);
  }

  /** `nextSlide` undoes `previousSlide` above the first slide. */
  lemma NextUndoesPrevious(a: App)
    requires Consistent(a) && a.current > 1
    ensures NextSlide(PreviousSlide(a)) == a
  {
    var b := PreviousSlide(a);
    assert b == GoToSlide(a, a.current - 1) && b.current == a.current - 1;
    assert NextSlide(b) == GoToSlide(b, a.current);
    GoToSlideOverwrites(a, a.current - 1, a.current);
    GoToCurrentIsIdentity(a);
  }

  /** Reloading the fragment a consistent state wrote changes nothing. */
  lemma LoadFromURLRestores(a: App)
    requires Consistent(a)
    ensures LoadFromURL(a) == a
  {
    Fragment.FormatRoundTrip(a.current);
    GoToCurrentIsIdentity(a);
  }

  /** After `goToSlide(k)`, reading the fragment back shows slide `k` again. */
  lemma FragmentRoundTrip(a: App, k: int)
    requires |a.slides| == TotalSlides && |a.dots| == TotalSlides
    requires 1 <= k <= TotalSlides
    ensures LoadFromURL(GoToSlide(a, k)) == GoToSlide(a, k)
  {
    LoadFromURLRestores(GoToSlide(a, k));
  }

  /** A numeral preceded by a non-digit is at least as long as any other
      such numeral that ends the same text. */
  lemma DigitRunNotShorter(p1: string, d1: string, p2: string, d2: string)
    requires p1 != [] && !IsDecimalDigit(p1[|p1| - 1])
    requires AllDigits(d2)
    requires p1 + d1 == p2 + d2
    ensures |d1| >= |d2|
  {
    var x := p1 + d1;
    assert !IsDecimalDigit(x[|p1| - 1]);
  }

  /** Two numerals each preceded by a non-digit cannot end the same text
      unless they are equal. */
  lemma DigitRunDetermined(p1: string, d1: string, p2: string, d2: string)
    requires p1 != [] && !IsDecimalDigit(p1[|p1| - 1]) && AllDigits(d1)
    requires p2 != [] && !IsDecimalDigit(p2[|p2| - 1]) && AllDigits(d2)
    requires p1 + d1 == p2 + d2
    ensures d1 == d2
  {
    DigitRunNotShorter(p1, d1, p2, d2);
    DigitRunNotShorter(p2, d2, p1, d1);
    var x := p1 + d1;
    assert d1 == x[|p1|..] == d2;
  }

  /** The announcement tells the listener which slide they are on: two
      announcements, whatever the headings, are equal only for the same
      slide. */
  lemma AnnouncementNamesPosition(t1: string, k1: nat, t2: string, k2: nat)
    requires Announcement(t1, k1) == Announcement(t2, k2)
    ensures k1 == k2
  {
    var tail := " of " + ShowInt(TotalSlides);
    var p1 := t1 + ". Slide ";
    var p2 := t2 + ". Slide ";
    assert Announcement(t1, k1) == (p1 + Show(k1)) + tail;
    assert Announcement(t2, k2) == (p2 + Show(k2)) + tail;
    var x := Announcement(t1, k1);
    assert p1 + Show(k1) == x[..|x| - |tail|] == p2 + Show(k2);
    assert p1[|p1| - 1] == ' ' && p2[|p2| - 1] == ' ';
    DigitRunDetermined(p1, Show(k1), p2, Show(k2));
    ShowInjective(k1, k2);
  }

  /** The announcement of slide `k` starts with the slide's heading, or with
      `Slide ` when it has none, ends with `. Slide k of 19`, and names
      position `k` whatever text another announcement starts with. */
  lemma AnnouncementText(slides: seq<Slide>, k: int)
    requires 1 <= k <= |slides|
    ensures slides[k - 1].heading.Some? ==> slides[k - 1].heading.value <= AnnouncementFor(slides, k)
    ensures slides[k - 1].heading.None? ==> "Slide " <= AnnouncementFor(slides, k)
    ensures var r := AnnouncementFor(slides, k);
            var tail := ". Slide " + ShowInt(k) + " of 19";
            |tail| <= |r| && r[|r| - |tail|..] == tail
    ensures var heading := slides[k - 1].heading;
            var tail := ". Slide " + ShowInt(k) + " of 19";
            && (heading.Some? ==> AnnouncementFor(slides, k) == heading.value + tail)
            && (heading.None? ==> AnnouncementFor(slides, k) == "Slide " + ShowInt(k) + tail)
    ensures forall t: string, j: nat :: AnnouncementFor(slides, k) == Announcement(t, j) ==> j == k
  {
    var title := Title(slides[k - 1], k);
    assert ShowInt(TotalSlides) == "19";
    assert AnnouncementFor(slides, k) == title + (". Slide " + ShowInt(k) + " of 19");
    forall t: string, j: nat | AnnouncementFor(slides, k) == Announcement(t, j)
      ensures j == k
    {
      AnnouncementNamesPosition(title, k, t, j);
    }
  }

  /** No fragment, or a fragment that is not a slide fragment, shows slide 1. */
  lemma FallbackWithoutPrefix()
    ensures LoadTarget("") == 1
    ensures LoadTarget("#intro") == 1
  {
  }

  /** `#slide-abc` has no number and shows slide 1. */
  lemma FallbackNotANumber()
    ensures LoadTarget("#slide-abc") == 1
  {
    Fragment.NoDigitsNoRequest("abc");
    assert "#slide-abc" == Fragment.Prefix + "abc";
  }

  /** `#slide-0` is below the first slide and shows slide 1. */
  lemma FallbackZero()
    ensures LoadTarget("#slide-0") == 1
  {
    assert "#slide-0" == Fragment.Prefix + Show(0) + [];
    Fragment.TrailingTextIgnored(0, []);
  }

  /** `#slide-9999` is beyond the last slide and shows slide 1. */
  lemma FallbackTooLarge()
    ensures LoadTarget("#slide-9999") == 1
  {
    assert Show(9999) == "9999";
    assert "#slide-9999" == Fragment.Prefix + Show(9999) + [];
    Fragment.TrailingTextIgnored(9999, []);
  }

  /** `parseInt` semantics carry over to the fragment: text after the
      number is ignored. */
  lemma TrailingTextExample()
    ensures LoadTarget("#slide-12abc") == 12
  {
    assert Show(12) == "12";
    assert "#slide-12abc" == Fragment.Prefix + Show(12) + "abc";
    Fragment.TrailingTextIgnored(12, "abc");
  }

  /** `parseInt` semantics carry over to the fragment: a `0x` prefix is
      read in hexadecimal, so `#slide-0x10` shows slide 16. */
  lemma HexadecimalExample()
    ensures LoadTarget("#slide-0x10") == 16
  {
    assert "#slide-0x10"[|Fragment.Prefix|..] == "0x10";
    ParseHexExample();
  }
}
