/** The control bar of the timer: one primary button chosen from the run
    flags, and a Reset button that is always there. */
module Controls {

  /** The callback a button is wired to. */
  datatype Handler = OnStart | OnResume | OnPause | OnReset

  datatype Button = Button(caption: string, onClick: Handler)

  const ResetButton := Button("Reset", OnReset)

  /** The primary button: Start while the timer is not running, Resume while
      it runs but is paused, Pause while it runs unpaused. */
  function PrimaryButton(isRunning: bool, isPaused: bool): (b: Button)
    ensures b.onClick != OnReset
    ensures b.onClick == OnStart <==> !isRunning
    ensures b.onClick == OnResume <==> isRunning && isPaused
    ensures b.onClick == OnPause <==> isRunning && !isPaused
    ensures b.caption == match b.onClick
                         case OnStart => "Start"
                         case OnResume => "Resume"
                         case OnPause => "Pause"
                         case OnReset => "Reset"
  {
    if !isRunning then Button("Start", OnStart)
    else if isPaused then Button("Resume", OnResume)
    else Button("Pause", OnPause)
  }

  /** The buttons the bar shows, left to right. */
  function ControlButtons(isRunning: bool, isPaused: bool): (bs: seq<Button>)
    ensures |bs| == 2 && bs[1] == ResetButton
    ensures bs[0] == PrimaryButton(isRunning, isPaused)
    ensures bs[0].onClick != OnReset
  {
    [PrimaryButton(isRunning, isPaused), ResetButton]
  }

  /** Whether a handler can be reached by clicking a button of the bar. */
  predicate Offered(isRunning: bool, isPaused: bool, h: Handler) {
    var bs := ControlButtons(isRunning, isPaused);
    bs[0].onClick == h || bs[1].onClick == h
  }

  /** Reset is always offered, and exactly one other handler besides it: the
      one the primary button is wired to. */
  lemma OfferedHandlers(isRunning: bool, isPaused: bool, h: Handler)
    ensures Offered(isRunning, isPaused, OnReset)
    ensures h != OnReset ==>
              (Offered(isRunning, isPaused, h) <==> h == PrimaryButton(isRunning, isPaused).onClick)
  {
  }
}
