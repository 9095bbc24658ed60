/** The optional auto-advance: a repeating timer that steps to the next
    slide on every tick and cancels itself on the last slide. At most one
    such timer runs: starting always stops the previous one first. */
module AutoAdvance {
  import opened Wrappers
  import opened Navigator
  import Timers

  /** The default interval between ticks, in seconds. */
  const DefaultIntervalSeconds: real := 30.0

  /** The host runs exactly the interval the handle names, or none. */
  ghost predicate OneTimer(a: App) {
    Timers.AtMostOne(a.interval, a.host)
  }

  /** Only the handle and the host's timer table differ. */
  predicate OnlyTimersChanged(a: App, r: App) {
    r == a.(interval := r.interval, host := r.host)
  }

  /** `stopAutoAdvance`: clear the handle's interval when the handle is set
      (a timer id is truthy exactly when it is not zero). */
  function StopAutoAdvance(a: App): (r: App)
    ensures OnlyTimersChanged(a, r)
    ensures OneTimer(a) ==> r.interval == None && r.host.live == map[] && OneTimer(r)
    ensures a.interval == None ==> r == a
  {
    match a.interval
    case Some(id) =>
      if id != 0 then a.(host := Timers.ClearInterval(a.host, id), interval := None) else a
    case None => a
  }

  /** Stopping twice is stopping once. */
  lemma StopIdempotent(a: App)
    ensures StopAutoAdvance(StopAutoAdvance(a)) == StopAutoAdvance(a)
  {
  }

  /** `startAutoAdvance(seconds)`: stop any running timer, then start one
      firing every `seconds * 1000` milliseconds and keep its handle. */
  function StartAutoAdvance(a: App, seconds: real): (r: App)
    ensures OnlyTimersChanged(a, r)
    ensures r.interval.Some? && r.interval.value in r.host.live
    ensures r.host.live[r.interval.value] == seconds * 1000.0
    ensures OneTimer(a) ==> OneTimer(r) && |r.host.live| == 1
  {
    var stopped := StopAutoAdvance(a);
    var (host, id) := Timers.SetInterval(stopped.host, seconds * 1000.0);
    stopped.(host := host, interval := Some(id))
  }

  /** Starting twice in a row leaves one timer: the second one. */
  lemma StartTwiceOneTimer(a: App, s1: real, s2: real)
    requires OneTimer(a)
    ensures var r := StartAutoAdvance(StartAutoAdvance(a, s1), s2);
            |r.host.live| == 1 && r.host.live[r.interval.value] == s2 * 1000.0
  {
  }

  /** One firing of interval `id`. A cleared interval never fires; a live
      one steps forward below the last slide and stops itself on it. */
  function Tick(a: App, id: nat): (r: App)
    requires |a.slides| == TotalSlides
    ensures |r.slides| == TotalSlides
    ensures id !in a.host.live ==> r == a
    ensures id in a.host.live && a.current < TotalSlides ==> r == NextSlide(a)
    ensures id in a.host.live && a.current >= TotalSlides ==> r == StopAutoAdvance(a)
    ensures Consistent(a) ==> Consistent(r)
    ensures OneTimer(a) ==> OneTimer(r)
  {
    if id !in a.host.live then a
    else if a.current < TotalSlides then NextSlide(a)
    else StopAutoAdvance(a)
  }

  /** `k` successive firings of interval `id`. */
  function Ticks(a: App, id: nat, k: nat): (r: App)
    requires |a.slides| == TotalSlides
    ensures |r.slides| == TotalSlides
    decreases k
  {
    if k == 0 then a else Tick(Ticks(a, id, k - 1), id)
  }

  /** A tick of the running timer below the last slide steps forward and
      keeps the timer. */
  lemma TickAdvances(b: App, id: nat)
    requires Consistent(b) && OneTimer(b) && b.interval == Some(id) && b.current < TotalSlides
    ensures var r := Tick(b, id);
            Consistent(r) && OneTimer(r) && r.current == b.current + 1 && r.interval == Some(id)
  {
    assert id in b.host.live;
    var r := NextSlide(b);
    assert SameSurroundings(b, r);
    assert Tick(b, id) == r;
  }

  /** A tick of the running timer on the last slide stops it. */
  lemma TickStops(b: App, id: nat)
    requires Consistent(b) && OneTimer(b) && b.interval == Some(id) && b.current == TotalSlides
    ensures var r := Tick(b, id);
            Consistent(r) && OneTimer(r) && r.current == TotalSlides && r.interval == None
  {
    assert id in b.host.live;
    assert Tick(b, id) == StopAutoAdvance(b);
  }

  /** Once stopped, the timer no longer fires. */
  lemma TickIdle(b: App, id: nat)
    requires |b.slides| == TotalSlides && OneTimer(b) && b.interval == None
    ensures Tick(b, id) == b
  {
    assert b.host.live.Keys == {};
    assert id !in b.host.live;
  }

  /** Left running, auto-advance walks forward one slide per tick up to
      the last slide, and the tick after that cancels it. */
  lemma {:induction false} TicksRunToEnd(a: App, id: nat, k: nat)
    requires Consistent(a) && OneTimer(a) && a.interval == Some(id)
    ensures Consistent(Ticks(a, id, k)) && OneTimer(Ticks(a, id, k))
    ensures Ticks(a, id, k).current == Min(a.current + k, TotalSlides)
    ensures Ticks(a, id, k).interval == (if k <= TotalSlides - a.current then Some(id) else None)
    decreases k
  {
    if k > 0 {
      TicksRunToEnd(a, id, k - 1);
      var b := Ticks(a, id, k - 1);
      if k <= TotalSlides - a.current {
        TickAdvances(b, id);
      } else if k == TotalSlides - a.current + 1 {
        TickStops(b, id);
      } else {
        TickIdle(b, id);
      }
    }
  }
}
