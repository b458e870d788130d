# Countdown timer: a verified model of the timer widget's logic

This project models the logic of a browser countdown timer written as three
React components.

- The **timer component** (`CountdownTimer`) owns the configured duration
  (`timerValues`: hours, minutes, seconds) and three run flags: `isRunning`,
  `isPaused` and `isCompleted`. Its handlers change these fields: set timer,
  start, pause, resume, reset and complete. The setup form is rendered only
  while the timer is not running.
- The **display** (`TimerDisplay`) keeps its own remaining duration. An
  effect reloads it from the configured values when those values change. An
  interval is active only while the timer is running, not paused and not
  completed. Each firing of the interval applies a seconds→minutes→hours
  borrow-chain decrement. When the result is 0:00:00, it calls the completion
  handler. Each component is written as at least two characters
  (`formatDigit`).
- The **control bar** (`TimerControls`) shows one primary button, chosen from
  the two flags (Start, Resume or Pause), and a Reset button that is always
  there.

The Dafny modules follow that split:

- `Clock` (clock.dfy) holds the `Duration` value, the pure decrement `Decrement`, `n` ticks
  (`AfterTicks`), and a reference decomposition of a number of seconds
  (`FromSeconds`) that the decrement is proved against.
- `Display` (display.dfy) holds decimal text, left padding and `FormatDigit`, with the
  round trip back to the number.
- `Controls` (controls.dfy) holds the button choice.
- `Countdown` (countdown.dfy) holds the class `CountdownTimer`. Its fields are the
  component's state plus the display's remaining time and an alarm counter.
  Its methods are the handlers, the resync effect `SyncRemaining` and one
  interval firing `Tick`. `Press` and `SubmitSetup` are clicks that reach
  the handlers only through the buttons and the form that are rendered.
  `RunToCompletion` lets the interval fire until the completion handler runs.
  A few scenario methods drive the class from a fresh timer.

Components are unbounded integers. The handlers store whatever numbers they are
given, so range facts (`NonNegative`, `InRange`) are hypotheses of the lemmas
and not preconditions of the operations. The state invariant `Valid()` holds
whenever the handlers are reached through the rendered controls: a completed
timer is not running, and only a running timer is paused. `Press`, `SubmitSetup` and
`Tick` preserve it, and `State()` maps the flags to one of Idle, Running,
Paused and Completed.

Three behaviours of the code that a reader might not expect are modelled as written:

- Reset clears the three flags only. It does not restore the remaining time,
  and a later start continues from where the ticks stopped
  (`ResetKeepsRemaining`).
- Start checks the configured duration, not the remaining one. The remaining
  time is reloaded only when the configured values change. So after a
  completion, setting the same values again and starting gives a run whose
  first tick completes at once (`RestartAfterCompletion`).
- The set-timer handler itself does not refuse to run while the timer runs.
  Only the rendering of the form prevents it (`SubmitSetup` requires
  `SetupShown()`; `SetTimer` has no such precondition).

## Model

| member | source | states |
|---|---|---|
| `Clock.Decrement` | src/components/TimerDisplay.tsx:40-53 | on 0:00:00 no branch applies and the value is unchanged; non-negative components stay non-negative; minutes and seconds at most 59 stay at most 59 |
| `Clock.DecrementLowersTotal` | src/components/TimerDisplay.tsx:40-53 | for non-negative components and a total T > 0, one decrement leaves exactly T − 1 seconds |
| `Clock.DecrementMatchesReference` | src/components/TimerDisplay.tsx:40-53 | on a duration in clock form the borrow chain equals the independent decomposition of T − 1 seconds into hours, minutes and seconds |
| `Clock.BorrowExamples` | src/components/TimerDisplay.tsx:44-53 | 0:01:00 becomes 0:00:59, 1:00:00 becomes 0:59:59, 2:00:30 becomes 2:00:29 |
| `Clock.CompletesOnLastSecond` | src/components/TimerDisplay.tsx:56-59 | completion is signalled on a tick exactly when the decremented value is 0:00:00, that is when at most one second was left |
| `Clock.AfterTicksTotal` | src/components/TimerDisplay.tsx:37-67 | after n ticks a non-negative duration of T seconds holds max(T − n, 0) seconds and stays non-negative |
| `Clock.AfterTicksInRange` | src/components/TimerDisplay.tsx:40-53 | ticks keep a duration in clock form (minutes and seconds below 60) |
| `Clock.ZeroExactlyFromTick` | src/components/TimerDisplay.tsx:56-59 | the remaining time is 0:00:00 after n ticks exactly when n ≥ T: from T > 0 completion fires first on the T-th tick |
| `Display.PadStart` | src/components/TimerDisplay.tsx:79 | padding gives max(width, length) characters, keeps the original text at the end and fills the front with the pad character |
| `Display.NaturalDigitsRoundTrip` | src/components/TimerDisplay.tsx:79 | the decimal text of a number reads back as that number |
| `Display.FormatDigitTwoDigits` | src/components/TimerDisplay.tsx:78-80 | for 0 ≤ d ≤ 99 the text is two decimal digits, starts with '0' exactly when d < 10, and denotes d |
| `Display.FormatDigitWide` | src/components/TimerDisplay.tsx:78-80 | for d ≥ 100 the text is not padded and keeps all of d's digits |
| `Controls.PrimaryButton` | src/components/TimerControls.tsx:46-72 | Start with onStart exactly when not running, Resume with onResume exactly when running and paused, Pause with onPause exactly when running and not paused; never Reset |
| `Controls.ControlButtons` | src/components/TimerControls.tsx:46-82 | exactly two buttons: first the primary button as `PrimaryButton` chooses it (never Reset), then Reset |
| `Controls.OfferedHandlers` | src/components/TimerControls.tsx:46-82 | Reset is offered for every flag combination, and exactly one other handler, the primary button's |
| `Countdown.RunStateOf` | src/components/CountdownTimer.tsx:20-22 | for consistent flags, Completed exactly when isCompleted, Paused exactly when isPaused, Running exactly when running and not paused |
| `Countdown.PrimaryButtonFollowsState` | src/components/TimerControls.tsx:46-72 | the primary button offers Start in Idle and Completed, Resume in Paused, Pause in Running |
| `Countdown.CountdownTimer.constructor` | src/components/CountdownTimer.tsx:15-22 | a new timer is Idle with configured and remaining duration 0:00:00 |
| `Countdown.CountdownTimer.SyncRemaining` | src/components/TimerDisplay.tsx:29-31 | the remaining time becomes the configured duration when that differs from the previous render's, and is unchanged otherwise |
| `Countdown.CountdownTimer.SetTimer` | src/components/CountdownTimer.tsx:25-28 | the configured duration becomes exactly (h, m, s) and isCompleted is cleared; isRunning and isPaused are unchanged; the remaining time is reloaded only if the configured duration changed |
| `Countdown.CountdownTimer.Start` | src/components/CountdownTimer.tsx:30-37 | with configured 0:00:00 no field changes; otherwise running, not paused, not completed; the durations are untouched |
| `Countdown.CountdownTimer.Pause` | src/components/CountdownTimer.tsx:39-41 | sets isPaused and changes nothing else |
| `Countdown.CountdownTimer.Resume` | src/components/CountdownTimer.tsx:43-45 | clears isPaused and changes nothing else |
| `Countdown.CountdownTimer.Reset` | src/components/CountdownTimer.tsx:47-51 | all three flags false (Idle); the configured and the remaining duration are untouched |
| `Countdown.CountdownTimer.Complete` | src/components/CountdownTimer.tsx:53-57 | not running, completed, the alarm started once more; the durations and isPaused are untouched |
| `Countdown.CountdownTimer.Tick` | src/components/TimerDisplay.tsx:36-67 | while running, unpaused and not completed: the remaining time is decremented and the completion handler runs exactly when the result is 0:00:00; otherwise nothing changes |
| `Countdown.CountdownTimer.Press` | src/components/CountdownTimer.tsx:96-103 | a click on a rendered button keeps the flags consistent and moves Idle/Completed to Running (or nowhere on a zero duration), Running to Paused, Paused to Running, anything to Idle on Reset |
| `Countdown.CountdownTimer.SubmitSetup` | src/components/CountdownTimer.tsx:105-107 | the form is reachable only while not running, and leaves the timer Idle with the new configured duration |
| `Countdown.CountdownTimer.RunToCompletion` | src/components/TimerDisplay.tsx:33-75 | from a positive remaining duration of T seconds the interval completes the timer after exactly T ticks, with 0:00:00 left and one alarm |
| `Countdown.ThreeSecondRun` | src/components/CountdownTimer.tsx:25-57 | three seconds set and started: completion on the third tick only, one alarm, 0:00:00 left, and a fourth tick is not delivered |
| `Countdown.PauseResumeRun` | src/components/CountdownTimer.tsx:39-45 | 0:01:30 paused after one tick: a tick while paused neither fires nor changes the remaining 0:01:29, and completes after 89 more ticks once resumed |
| `Countdown.ResetKeepsRemaining` | src/components/CountdownTimer.tsx:47-51 | after reset the configured duration is still 0:01:30 while a restart continues from the remaining time |
| `Countdown.RestartAfterCompletion` | src/components/TimerDisplay.tsx:29-31 | after completion, setting the same duration does not reload the remaining time, and the first tick of a restart completes |

## Left out

- Interval scheduling (`setInterval`/`clearInterval`, the 1000 ms period) and the order in which React runs effects and their cleanups are not modelled. A firing of the interval is an explicit `Tick`. The interval exists exactly while `TicksDelivered()` holds.
- React re-creating the interval whenever the completion callback's identity changes is not modelled. It affects only timing.
- The alarm sound (`new Audio(...).play()` and its swallowed failure) is a foreign browser call. It is modelled as the counter `alarmsPlayed`.
- The theme context, icons, CSS classes and markup, including the "Time's up!" message, are presentation only.
- The setup form's input parsing (`parseInt(...) || 0`) and its preset table are not part of this model. The model takes whatever numbers reach the set-timer handler.
- The split of each formatted component into the two digit cards is not modelled. Only the first two characters are shown, which drops digits of a component of 100 or more. The digit card and the application shell are markup only.
- Components are modelled as unbounded integers, not as JavaScript double-precision numbers. Fractions, rounding and the exponent notation of `toString` from 1e21 are not modelled; the setup form's bounds and the presets keep values far below that range.
