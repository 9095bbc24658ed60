/** The slides hinted for preloading after each key press: the current
    slide and its neighbours that exist. */
module Preload {

  /** `{k}` when slide `k` exists, nothing otherwise. */
  function IfExists(k: int, total: int): set<int> {
    if 1 <= k <= total then {k} else {}
  }

  /** `preloadSlides`: the candidates `current - 1`, `current` and
      `current + 1`, each kept only when it is a slide number. */
  function Neighbours(current: int, total: int): (r: set<int>)
    ensures forall k :: k in r <==> 1 <= k <= total && current - 1 <= k <= current + 1
  {
    IfExists(current - 1, total) + IfExists(current, total) + IfExists(current + 1, total)
  }

  /** On a deck of at least three slides, two slides are hinted at either
      end and three in between; the current slide is always one of them. */
  lemma NeighboursCount(current: int, total: int)
    requires total >= 3 && 1 <= current <= total
    ensures current in Neighbours(current, total)
    ensures |Neighbours(current, total)| == if current == 1 || current == total then 2 else 3
  {
    var r := Neighbours(current, total);
    if current == 1 {
      assert r == {1, 2};
    } else if current == total {
      assert r == {total - 1, total};
    } else {
      assert r == {current - 1, current, current + 1};
    }
  }
}
