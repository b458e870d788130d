/** The clock arithmetic of the timer display: a duration as hours, minutes and
    seconds, the one-second borrow-chain decrement applied on every tick, and
    the facts that make the countdown end after exactly as many ticks as the
    duration holds seconds. */
module Clock {

  /** A duration as the display keeps it. The components are plain integers:
      the handlers store whatever numbers the setup form hands them, so range
      facts are stated as hypotheses (NonNegative, InRange) of the lemmas. */
  datatype Duration = Duration(hours: int, minutes: int, seconds: int) {

    /** The completion test of the tick callback: all three components are 0. */
    predicate IsZero() {
      hours == 0 && minutes == 0 && seconds == 0
    }

    predicate NonNegative() {
      hours >= 0 && minutes >= 0 && seconds >= 0
    }

    /** A duration in canonical clock form: minutes and seconds below 60. */
    predicate InRange() {
      NonNegative() && minutes <= 59 && seconds <= 59
    }

    function TotalSeconds(): int {
      hours * 3600 + minutes * 60 + seconds
    }
  }

  /** The initial configured and remaining duration. */
  const Zero := Duration(0, 0, 0)

  /** One tick of the countdown: take a second off, borrowing a minute when the
      seconds are exhausted and an hour when the minutes are too. When no
      component is positive, no branch applies and the duration is returned
      unchanged. */
  function Decrement(d: Duration): (r: Duration)
    ensures d.IsZero() ==> r == d
    ensures d.NonNegative() ==> r.NonNegative()
    ensures d.minutes <= 59 ==> r.minutes <= 59
    ensures d.seconds <= 59 ==> r.seconds <= 59
  {
    if d.seconds > 0 then
      d.(seconds := d.seconds - 1)
    else if d.minutes > 0 then
      d.(minutes := d.minutes - 1, seconds := 59)
    else if d.hours > 0 then
      Duration(d.hours - 1, 59, 59)
    else
      d
  }

  /** A tick on a non-negative, non-zero duration takes exactly one second
      off its total. */
  lemma DecrementLowersTotal(d: Duration)
    requires d.NonNegative() && !d.IsZero()
    ensures Decrement(d).TotalSeconds() == d.TotalSeconds() - 1
  {
  }

  /** The remaining duration after n ticks have each applied Decrement. */
  function AfterTicks(d: Duration, n: nat): Duration
    decreases n
  {
    if n == 0 then d else AfterTicks(Decrement(d), n - 1)
  }

  /** A reference decomposition of a number of seconds into clock form. */
  function FromSeconds(t: nat): (r: Duration)
    ensures r.InRange()
    ensures r.TotalSeconds() == t
  {
    Duration(t / 3600, (t % 3600) / 60, t % 60)
  }

  /** A non-negative duration is zero exactly when it holds no seconds. */
  lemma ZeroIffNoSeconds(d: Duration)
    requires d.NonNegative()
    ensures d.IsZero() <==> d.TotalSeconds() == 0
  {
  }

  /** Division by 3600 and by 60 with remainder have only one answer. */
  lemma SplitHours(q: int, r: int)
    requires 0 <= r < 3600
    ensures (q * 3600 + r) / 3600 == q && (q * 3600 + r) % 3600 == r
  {
  }

  lemma SplitMinutes(q: int, r: int)
    requires 0 <= r < 60
    ensures (q * 60 + r) / 60 == q && (q * 60 + r) % 60 == r
  {
  }

  /** A duration in clock form is determined by its number of seconds. */
  lemma FromSecondsInverse(d: Duration)
    requires d.InRange()
    ensures FromSeconds(d.TotalSeconds()) == d
  {
    var t := d.TotalSeconds();
    var below := d.minutes * 60 + d.seconds;
    assert 0 <= below < 3600;
    SplitHours(d.hours, below);
    SplitMinutes(d.minutes, d.seconds);
  }

  /** On a duration in clock form the borrow chain agrees with the reference:
      it gives the clock form of one second less. */
  lemma DecrementMatchesReference(d: Duration)
    requires d.InRange() && !d.IsZero()
    ensures Decrement(d) == FromSeconds(d.TotalSeconds() - 1)
  {
    var r := Decrement(d);
    DecrementLowersTotal(d);
    FromSecondsInverse(r);
  }

  /** The tick callback signals completion exactly when the duration it
      decremented held at most one second. */
  lemma CompletesOnLastSecond(d: Duration)
    requires d.NonNegative()
    ensures Decrement(d).IsZero() <==> d.TotalSeconds() <= 1
  {
    ZeroIffNoSeconds(d);
    ZeroIffNoSeconds(Decrement(d));
    if !d.IsZero() {
      DecrementLowersTotal(d);
    }
  }

  /** After n ticks a non-negative duration holds n seconds less, down to zero,
      and never leaves the non-negative quadrant. */
  lemma {:induction false} AfterTicksTotal(d: Duration, n: nat)
    requires d.NonNegative()
    decreases n
    ensures AfterTicks(d, n).NonNegative()
    ensures AfterTicks(d, n).TotalSeconds() ==
            if n <= d.TotalSeconds() then d.TotalSeconds() - n else 0
  {
    ZeroIffNoSeconds(d);
    if n > 0 {
      if !d.IsZero() {
        DecrementLowersTotal(d);
      }
      AfterTicksTotal(Decrement(d), n - 1);
    }
  }

  /** Ticks keep a duration in clock form. */
  lemma {:induction false} AfterTicksInRange(d: Duration, n: nat)
    requires d.InRange()
    decreases n
    ensures AfterTicks(d, n).InRange()
  {
    if n > 0 {
      AfterTicksInRange(Decrement(d), n - 1);
    }
  }

  /** From a duration of T seconds the remaining time is zero after n ticks
      exactly when n >= T: for T > 0 completion is signalled first on the
      T-th tick, never earlier. */
  lemma ZeroExactlyFromTick(d: Duration, n: nat)
    requires d.NonNegative()
    ensures AfterTicks(d, n).IsZero() <==> n >= d.TotalSeconds()
  {
    AfterTicksTotal(d, n);
    ZeroIffNoSeconds(d);
    ZeroIffNoSeconds(AfterTicks(d, n));
  }

  /** Borrow examples: a minute becomes 59 seconds, an hour becomes 59
      minutes and 59 seconds, and a positive seconds field borrows nothing. */
  lemma BorrowExamples()
    ensures Decrement(Duration(0, 1, 0)) == Duration(0, 0, 59)
    ensures Decrement(Duration(1, 0, 0)) == Duration(0, 59, 59)
    ensures Decrement(Duration(2, 0, 30)) == Duration(2, 0, 29)
  {
  }

  /** The (n+1)-th tick decrements what the first n ticks left. */
  lemma {:induction false} AfterTicksStep(d: Duration, n: nat)
    decreases n
    ensures AfterTicks(d, n + 1) == Decrement(AfterTicks(d, n))
  {
    if n > 0 {
      AfterTicksStep(Decrement(d), n - 1);
    }
  }
}
