/** The fullscreen guard (src/components/Exam/FullscreenHandler.tsx): the blocked
    shortcuts, the fullscreen flag kept in the session and the prompt overlay. */
module FullscreenHandler {
  import opened ExamContext

  /** The parts of a key event the handler reads. */
  datatype KeyEvent = KeyEvent(key: string, altKey: bool, ctrlKey: bool, shiftKey: bool)

  /** The shortcuts `handleKeyDown` cancels: F11, F12, Alt+Tab, Ctrl+Shift+I and
      Ctrl+Shift+C. */
  predicate IsBlocked(e: KeyEvent) {
    || e.key == "F11"
    || (e.altKey && e.key == "Tab")
    || (e.ctrlKey && e.shiftKey && e.key == "I")
    || (e.ctrlKey && e.shiftKey && e.key == "C")
    || e.key == "F12"
  }

  /** Only five keys are ever blocked, and without modifiers only the two function
      keys: typing (including Tab, 'I' and 'C') passes through. */
  lemma BlockedKeys(e: KeyEvent)
    ensures IsBlocked(e) ==> e.key in {"F11", "F12", "Tab", "I", "C"}
    ensures !e.altKey && !e.ctrlKey ==> (IsBlocked(e) <==> e.key == "F11" || e.key == "F12")
  {
  }

  class FullscreenGuard {
    /** The session whose `isFullscreen` the guard keeps. */
    const session: ExamSession
    var showPrompt: bool

    /** `useState(true)`: the prompt shows at first. */
    constructor (session: ExamSession)
      ensures this.session == session && showPrompt
    {
      this.session := session;
      showPrompt := true;
    }

    /** The overlay is hidden exactly when the prompt was dismissed and the page is
        fullscreen. */
    predicate OverlayVisible()
      reads this, session
    {
      !(!showPrompt && session.isFullscreen)
    }

    /** `handleFullscreenChange`: the flag follows whether an element is fullscreen. */
    method HandleFullscreenChange(fullscreenElement: bool)
      modifies session`isFullscreen
      ensures session.isFullscreen == fullscreenElement
      ensures !fullscreenElement ==> OverlayVisible()
    {
      session.SetIsFullscreen(fullscreenElement);
    }

    /** `handleKeyDown`: whether the default action is prevented. */
    method HandleKeyDown(e: KeyEvent) returns (prevented: bool)
      ensures prevented <==> IsBlocked(e)
    {
      prevented := false;
      if IsBlocked(e) {
        prevented := true;
      }
    }

    /** `handleVisibilityChange`: a hidden page is only warned about on the console;
        no state changes. */
    method HandleVisibilityChange(hidden: bool) returns (warned: bool)
      ensures warned == hidden
    {
      warned := hidden;
    }

    /** `enterFullscreen`: the prompt is dismissed only when the request succeeds. */
    method EnterFullscreen(succeeded: bool)
      modifies this`showPrompt
      ensures showPrompt == (old(showPrompt) && !succeeded)
    {
      if succeeded {
        showPrompt := false;
      }
    }
  }

  /** A successful request followed by the fullscreen change it causes hides the
      overlay (leaving fullscreen brings it back, by `HandleFullscreenChange`). */
  method EnterSuccessfully(guard: FullscreenGuard)
    modifies guard, guard.session
    ensures !guard.showPrompt && guard.session.isFullscreen
    ensures !guard.OverlayVisible()
  {
    guard.EnterFullscreen(true);
    guard.HandleFullscreenChange(true);
  }
}
