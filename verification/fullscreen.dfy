/** Fullscreen decisions. The presentation only asks the platform to enter
    or leave fullscreen; its own flag follows the platform's change event. */
module Fullscreen {
  import opened Wrappers
  import opened Navigator

  datatype Request = Enter | Exit

  const EnterLabel: string := "⛶ Full Screen"
  const ExitLabel: string := "⛶ Exit Full Screen"

  /** `toggleFullscreen`: leave fullscreen when in it, enter it otherwise. */
  function Toggle(isFullscreen: bool): (r: Request)
    ensures r == Exit <==> isFullscreen
  {
    if isFullscreen then Exit else Enter
  }

  /** The Escape key: a request to leave fullscreen, and only while in it. */
  function OnEscape(isFullscreen: bool): (r: Option<Request>)
    ensures r.Some? <==> isFullscreen
    ensures r != Some(Enter)
  {
    if isFullscreen then Some(Exit) else None
  }

  /** `handleFullscreenChange`: `platformFullscreen` is whether the document
      reports a fullscreen element under any vendor name; the flag, the
      container's `fullscreen` class and the button label follow it, and
      navigation is untouched. */
  function HandleFullscreenChange(a: App, platformFullscreen: bool): (r: App)
    ensures r.screen.isFullscreen == platformFullscreen
    ensures r.screen.containerFullscreen == platformFullscreen
    ensures r.screen.fullscreenLabel == ExitLabel <==> platformFullscreen
    ensures !platformFullscreen ==> r.screen.fullscreenLabel == EnterLabel
    ensures r == a.(screen := r.screen)
    ensures Consistent(a) ==> Consistent(r)
  {
    a.(screen := Screen(platformFullscreen, platformFullscreen,
                        if platformFullscreen then ExitLabel else EnterLabel))
  }

  /** Once the platform has reported its state, toggling always asks for
      the other state. */
  lemma ToggleAsksForChange(a: App, platformFullscreen: bool)
    ensures Toggle(HandleFullscreenChange(a, platformFullscreen).screen.isFullscreen)
            == (if platformFullscreen then Exit else Enter)
  {
  }
}
