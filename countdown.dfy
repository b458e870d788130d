/** The countdown timer widget: the configured duration and the three run
    flags of the timer component, the remaining duration the display keeps for
    itself, the handlers that update them, and the tick the display's interval
    delivers. */
module Countdown {
  import opened Clock
  import opened Controls

  /** The run state the flags encode. */
  datatype RunState = Idle | Running | Paused | Completed

  /** The flag combinations the handlers can produce when they are reached
      through the controls: a completed timer is not running, and only a
      running timer is paused. */
  predicate Consistent(isRunning: bool, isPaused: bool, isCompleted: bool) {
    (isCompleted ==> !isRunning) && (isPaused ==> isRunning)
  }

  function RunStateOf(isRunning: bool, isPaused: bool, isCompleted: bool): (s: RunState)
    requires Consistent(isRunning, isPaused, isCompleted)
    ensures s == Completed <==> isCompleted
    ensures s == Running <==> isRunning && !isPaused
    ensures s == Paused <==> isPaused
  {
    if isCompleted then Completed
    else if !isRunning then Idle
    else if isPaused then Paused
    else Running
  }

  /** The primary button offers the transition the run state allows: Start
      from Idle or Completed, Resume from Paused, Pause from Running. */
  lemma PrimaryButtonFollowsState(isRunning: bool, isPaused: bool, isCompleted: bool)
    requires Consistent(isRunning, isPaused, isCompleted)
    ensures var s := RunStateOf(isRunning, isPaused, isCompleted);
            var h := PrimaryButton(isRunning, isPaused).onClick;
            (h == OnStart <==> s == Idle || s == Completed) &&
            (h == OnResume <==> s == Paused) &&
            (h == OnPause <==> s == Running)
  {
  }

  class CountdownTimer {
    /** The configured duration, set by the setup form. */
    var timerValues: Duration
    var isRunning: bool
    var isPaused: bool
    var isCompleted: bool
    /** The display's own remaining duration, counted down by the ticks. */
    var remainingTime: Duration
    /** How often the alarm sound was started. */
    var alarmsPlayed: nat

    predicate Valid()
      reads this
    {
      Consistent(isRunning, isPaused, isCompleted)
    }

    function State(): RunState
      reads this
      requires Valid()
    {
      RunStateOf(isRunning, isPaused, isCompleted)
    }

    /** The display's interval exists, and so ticks arrive, only under this
        condition. */
    predicate TicksDelivered()
      reads this
    {
      isRunning && !isPaused && !isCompleted
    }

    /** The setup form is shown only while the timer is not running. */
    predicate SetupShown()
      reads this
    {
      !isRunning
    }

    constructor ()
      ensures Valid() && State() == Idle
      ensures timerValues == Zero && remainingTime == Zero && alarmsPlayed == 0
    {
      timerValues := Zero;
      isRunning, isPaused, isCompleted := false, false, false;
      remainingTime := Zero;
      alarmsPlayed := 0;
    }

    /** The display's effect that reloads the remaining duration. It runs
        after a render and acts only when the configured values differ from
        those of the previous render. */
    method SyncRemaining(previous: Duration)
      modifies this`remainingTime
      ensures remainingTime == if timerValues != previous then timerValues else old(remainingTime)
    {
      if timerValues != previous {
        remainingTime := timerValues;
      }
    }

    /** Store a new configured duration and clear the completion flag; the
        display reloads its remaining time only if the duration changed. */
    method SetTimer(hours: int, minutes: int, seconds: int)
      modifies this`timerValues, this`isCompleted, this`remainingTime
      ensures timerValues == Duration(hours, minutes, seconds)
      ensures !isCompleted && isRunning == old(isRunning) && isPaused == old(isPaused)
      ensures remainingTime == if timerValues == old(timerValues) then old(remainingTime) else timerValues
      ensures old(Valid()) ==> Valid()
    {
      var previous := timerValues;
      timerValues := Duration(hours, minutes, seconds);
      isCompleted := false;
      SyncRemaining(previous);
    }

    /** Start counting down, unless the configured duration is zero, in which
        case nothing changes. */
    method Start()
      modifies this`isRunning, this`isPaused, this`isCompleted
      ensures old(timerValues).IsZero() ==>
                isRunning == old(isRunning) && isPaused == old(isPaused) && isCompleted == old(isCompleted)
      ensures !old(timerValues).IsZero() ==> isRunning && !isPaused && !isCompleted
      ensures old(Valid()) ==> Valid()
    {
      if timerValues.IsZero() {
        return;
      }
      isRunning := true;
      isPaused := false;
      isCompleted := false;
    }

    method Pause()
      modifies this`isPaused
      ensures isPaused
      ensures old(Valid()) && isRunning ==> Valid()
    {
      isPaused := true;
    }

    method Resume()
      modifies this`isPaused
      ensures !isPaused
      ensures old(Valid()) ==> Valid()
    {
      isPaused := false;
    }

    /** Clear the three flags; neither duration is touched. */
    method Reset()
      modifies this`isRunning, this`isPaused, this`isCompleted
      ensures !isRunning && !isPaused && !isCompleted
      ensures Valid() && State() == Idle
    {
      isRunning := false;
      isPaused := false;
      isCompleted := false;
    }

    /** Stop the timer, mark it completed and start the alarm sound. */
    method Complete()
      modifies this`isRunning, this`isCompleted, this`alarmsPlayed
      ensures !isRunning && isCompleted
      ensures alarmsPlayed == old(alarmsPlayed) + 1
      ensures !isPaused ==> Valid() && State() == Completed
    {
      isRunning := false;
      isCompleted := true;
      alarmsPlayed := alarmsPlayed + 1;
    }

    /** One firing of the display's interval. While ticks are delivered it
        decrements the remaining time and, when the result is zero, calls the
        completion handler; otherwise nothing happens. */
    method Tick() returns (fired: bool)
      modifies this`remainingTime, this`isRunning, this`isCompleted, this`alarmsPlayed
      ensures remainingTime ==
                if old(TicksDelivered()) then Decrement(old(remainingTime)) else old(remainingTime)
      ensures fired == (old(TicksDelivered()) && remainingTime.IsZero())
      ensures isRunning == (old(isRunning) && !fired)
      ensures isCompleted == (old(isCompleted) || fired)
      ensures alarmsPlayed == if fired then old(alarmsPlayed) + 1 else old(alarmsPlayed)
      ensures old(Valid()) ==> Valid()
      ensures old(Valid()) && fired ==> State() == Completed
    {
      fired := false;
      if TicksDelivered() {
        remainingTime := Decrement(remainingTime);
        if remainingTime.IsZero() {
          fired := true;
          Complete();
        }
      }
    }

    /** A click on a button of the control bar runs the handler it is wired
        to; the run state moves as the transition table of the widget says,
        and the durations are untouched. */
    method Press(h: Handler)
      requires Valid()
      requires Offered(isRunning, isPaused, h)
      modifies this`isRunning, this`isPaused, this`isCompleted
      ensures Valid()
      ensures h == OnStart ==>
                old(State()) in {Idle, Completed} &&
                State() == if timerValues.IsZero() then old(State()) else Running
      ensures h == OnPause ==> old(State()) == Running && State() == Paused
      ensures h == OnResume ==> old(State()) == Paused && State() == Running
      ensures h == OnReset ==> State() == Idle
    {
      OfferedHandlers(isRunning, isPaused, h);
      match h
      case OnStart => Start();
      case OnPause => Pause();
      case OnResume => Resume();
      case OnReset => Reset();
    }

    /** A submission of the setup form, which is rendered only while the timer
        is not running: the timer is left Idle with the new duration. */
    method SubmitSetup(hours: int, minutes: int, seconds: int)
      requires Valid() && SetupShown()
      modifies this`timerValues, this`isCompleted, this`remainingTime
      ensures Valid() && State() == Idle
      ensures timerValues == Duration(hours, minutes, seconds)
      ensures remainingTime == if timerValues == old(timerValues) then old(remainingTime) else timerValues
    {
      SetTimer(hours, minutes, seconds);
    }

    /** The interval firing until the completion handler runs: from a positive
        remaining duration it takes exactly as many ticks as the duration holds
        seconds, ends with zero remaining and sounds the alarm once. */
    method RunToCompletion() returns (ticks: nat)
      requires Valid() && TicksDelivered()
      requires remainingTime.NonNegative() && !remainingTime.IsZero()
      modifies this`remainingTime, this`isRunning, this`isCompleted, this`alarmsPlayed
      ensures ticks == old(remainingTime).TotalSeconds()
      ensures remainingTime.IsZero()
      ensures Valid() && State() == Completed
      ensures alarmsPlayed == old(alarmsPlayed) + 1
    {
      ghost var start := remainingTime;
      ghost var total := start.TotalSeconds();
      ZeroIffNoSeconds(start);
      ticks := 0;
      var fired := false;
      while !fired
        invariant Valid() && isPaused == old(isPaused)
        invariant remainingTime == AfterTicks(start, ticks)
        invariant ticks <= total
        invariant !fired ==> TicksDelivered() && ticks < total && alarmsPlayed == old(alarmsPlayed)
        invariant fired ==> ticks == total && State() == Completed &&
                            alarmsPlayed == old(alarmsPlayed) + 1
        decreases total - ticks
      {
        AfterTicksStep(start, ticks);
        ZeroExactlyFromTick(start, ticks + 1);
        fired := Tick();
        ticks := ticks + 1;
      }
      ZeroExactlyFromTick(start, ticks);
    }
  }

  /** Three seconds configured and started: completion fires on the third
      tick and not before, the alarm sounds once, and a tick after completion
      is not delivered. */
  method ThreeSecondRun() returns (fired: seq<bool>, alarms: nat, remaining: Duration)
    ensures fired == [false, false, true, false]
    ensures alarms == 1 && remaining == Zero
  {
    var t := new CountdownTimer();
    t.SubmitSetup(0, 0, 3);
    t.Press(OnStart);
    var f1 := t.Tick();
    var f2 := t.Tick();
    var f3 := t.Tick();
    assert t.isCompleted && t.remainingTime == Zero && t.alarmsPlayed == 1;
    var f4 := t.Tick();
    fired := [f1, f2, f3, f4];
    alarms, remaining := t.alarmsPlayed, t.remainingTime;
  }

  /** A minute and a half, paused after one tick: ticks while paused change
      nothing, and after resuming the remaining 89 ticks complete it. */
  method PauseResumeRun() returns (tickWhilePaused: bool, whilePaused: Duration, rest: nat, state: RunState)
    ensures !tickWhilePaused && whilePaused == Duration(0, 1, 29)
    ensures rest == 89 && state == Completed
  {
    var t := new CountdownTimer();
    t.SubmitSetup(0, 1, 30);
    t.Press(OnStart);
    var _ := t.Tick();
    t.Press(OnPause);
    tickWhilePaused := t.Tick();
    whilePaused := t.remainingTime;
    t.Press(OnResume);
    rest := t.RunToCompletion();
    state := t.State();
  }

  /** Reset clears the flags only: the remaining time stays where the ticks
      left it, and starting again continues from there rather than from the
      configured duration. */
  method ResetKeepsRemaining() returns (configured: Duration, remaining: Duration, state: RunState)
    ensures configured == Duration(0, 1, 30)
    ensures remaining == Duration(0, 1, 28)
    ensures state == Running
  {
    var t := new CountdownTimer();
    t.SubmitSetup(0, 1, 30);
    t.Press(OnStart);
    var _ := t.Tick();
    t.Press(OnReset);
    t.Press(OnStart);
    var _ := t.Tick();
    configured, remaining, state := t.timerValues, t.remainingTime, t.State();
  }

  /** After completion the configured duration is still the old one, so
      setting the same values again does not reload the remaining time; a
      restart then completes on its very first tick. */
  method RestartAfterCompletion() returns (remainingAtRestart: Duration, firstTickFires: bool)
    ensures remainingAtRestart == Zero
    ensures firstTickFires
  {
    var t := new CountdownTimer();
    t.SubmitSetup(0, 0, 2);
    t.Press(OnStart);
    var _ := t.RunToCompletion();
    t.SubmitSetup(0, 0, 2);
    t.Press(OnStart);
    remainingAtRestart := t.remainingTime;
    firstTickFires := t.Tick();
  }
}
