/** The host's table of repeating timers (`setInterval`/`clearInterval`)
    and the rule the presentation keeps for its one auto-advance handle. */
module Timers {
  import opened Wrappers

  /** Intervals the host keeps firing, by id, with their period in
      milliseconds; `nextId` is the id the next `setInterval` returns. The
      host hands out ids greater than zero. */
  datatype Host = Host(live: map<nat, real>, nextId: nat)

  /** Every id the host handed out is positive and below `nextId`. */
  ghost predicate WellFormed(h: Host) {
    h.nextId > 0 && forall id :: id in h.live ==> 0 < id < h.nextId
  }

  /** `setInterval`: a fresh id, live from now on. */
  function SetInterval(h: Host, periodMs: real): (r: (Host, nat))
    ensures r.0.live == h.live[r.1 := periodMs]
    ensures WellFormed(h) ==> r.1 > 0 && r.1 !in h.live && WellFormed(r.0)
  {
    (Host(h.live[h.nextId := periodMs], h.nextId + 1), h.nextId)
  }

  /** `clearInterval`: the id stops firing; unknown ids are ignored. */
  function ClearInterval(h: Host, id: nat): (r: Host)
    ensures id !in r.live
    ensures forall other :: other != id ==> (other in r.live <==> other in h.live)
    ensures forall other :: other in r.live ==> r.live[other] == h.live[other]
    ensures r.nextId == h.nextId
  {
    h.(live := h.live - {id})
  }

  function HandleSet(handle: Option<nat>): set<nat> {
    if handle.Some? then {handle.value} else {}
  }

  /** The at-most-one-timer discipline: the host runs exactly the interval
      the handle names, or none when the handle is empty, and every id the
      host issued is below `nextId`. */
  ghost predicate AtMostOne(handle: Option<nat>, h: Host) {
    && h.live.Keys == HandleSet(handle)
    && WellFormed(h)
  }
}
