/** The timer/stopwatch component: a 25-minute countdown or a count-up clock in
    whole seconds, driven by a one-second interval, with an `mm:ss` display. The
    interval handle is the flag `running`, and each firing of the interval is an
    explicit `Tick`. */
module TimerView {
  import opened JsValues

  datatype Mode = Timer | Stopwatch

  /** The countdown length, `25 * 60` seconds. */
  const TimerSeconds := 25 * 60

  /** `String(n).padStart(2, '0')`: one field of the display. */
  function Field(n: nat): string
  {
    PadStart(DecimalString(n), 2, '0')
  }

  /** The `updateDisplay` text for a number of seconds: the whole minutes, a colon and
      the seconds past the minute, each field padded to two digits. */
  function Clock(seconds: nat): string
  {
    Field(seconds / 60) + ":" + Field(seconds % 60)
  }

  /** A field is a numeral for its number, two characters long below 100 and longer above. */
  lemma FieldValue(n: nat)
    ensures |Field(n)| >= 2 && IsDigits(Field(n)) && DigitsValue(Field(n)) == n
    ensures |Field(n)| == 2 <==> n < 100
  {
    DecimalStringValue(n);
    DecimalStringShort(n);
    PadZerosValue(DecimalString(n), 2);
  }

  /** Reading a display back: a numeral for the minutes, a colon, then exactly two
      digits for the seconds past the minute. */
  function ParseClock(r: string): (n: Option<nat>)
    ensures n.Some? ==> |r| >= 5 && r[|r| - 3] == ':'
  {
    if |r| >= 5 && r[|r| - 3] == ':' then ParseFields(r[..|r| - 3], r[|r| - 2..]) else None
  }

  /** The seconds denoted by a minutes field and a seconds field. */
  function ParseFields(m: string, s: string): (n: Option<nat>)
    ensures n.Some? ==> IsDigits(m) && IsDigits(s)
  {
    if IsDigits(m) && IsDigits(s) && DigitsValue(s) < 60 then Some(60 * DigitsValue(m) + DigitsValue(s)) else None
  }

  /** How the colon splits a display, from the shape of its two fields alone. */
  lemma ParseJoined(m: string, s: string)
    requires |m| >= 2 && IsDigits(m) && |s| == 2 && IsDigits(s) && DigitsValue(s) < 60
    ensures ParseClock(m + ":" + s) == Some(60 * DigitsValue(m) + DigitsValue(s))
  {
    ColonSplit(m, s);
    FieldsValue(m, s);
  }

  lemma ColonSplit(m: string, s: string)
    requires |m| >= 2 && |s| == 2
    ensures ParseClock(m + ":" + s) == ParseFields(m, s)
  {
    var r := m + ":" + s;
    assert r[..|r| - 3] == m;
    assert r[|r| - 2..] == s;
  }

  /** A proof step of `ParseJoined`, kept apart so that the colon split and the field
      values are not unfolded together. */
  lemma FieldsValue(m: string, s: string)
    requires IsDigits(m) && IsDigits(s) && DigitsValue(s) < 60
    ensures ParseFields(m, s) == Some(60 * DigitsValue(m) + DigitsValue(s))
  {
  }

  /** The display reads back as the number of seconds it was drawn from. */
  lemma ClockRoundTrip(seconds: nat)
    ensures ParseClock(Clock(seconds)) == Some(seconds)
  {
    FieldValue(seconds / 60);
    FieldValue(seconds % 60);
    ParseDrawnFields(seconds, Field(seconds / 60), Field(seconds % 60));
  }

  lemma ParseDrawnFields(seconds: nat, m: string, s: string)
    requires |m| >= 2 && IsDigits(m) && DigitsValue(m) == seconds / 60
    requires |s| == 2 && IsDigits(s) && DigitsValue(s) == seconds % 60
    ensures ParseClock(m + ":" + s) == Some(seconds)
  {
    DivMod60(seconds, DigitsValue(m), DigitsValue(s));
    ParseJoined(m, s);
  }

  /** A proof step of `ParseDrawnFields`: whole minutes and the seconds past the minute
      recombine into the count. */
  lemma DivMod60(seconds: nat, q: nat, r: nat)
    requires q == seconds / 60 && r == seconds % 60
    ensures 60 * q + r == seconds && r < 60
  {
  }

  /** The display is the five characters `mm:ss` exactly while the minutes stay below 100. */
  lemma ClockWidth(seconds: nat)
    ensures |Clock(seconds)| >= 5
    ensures |Clock(seconds)| == 5 <==> seconds < 6000
  {
    FieldValue(seconds / 60);
    FieldValue(seconds % 60);
  }

  lemma ClockInjective(a: nat, b: nat)
    requires Clock(a) == Clock(b)
    ensures a == b
  {
    ClockRoundTrip(a);
    ClockRoundTrip(b);
  }

  /** The countdown's starting display is the `25:00` of the initial markup. */
  lemma InitialClock()
    ensures Clock(TimerSeconds) == "25:00"
  {
    ClockOfDigits(TimerSeconds, '2', '5', '0', '0');
  }

  /** Below 100 minutes the display is exactly two minute digits, a colon and two second digits. */
  lemma ClockOfDigits(seconds: nat, a: char, b: char, c: char, d: char)
    requires seconds < 6000
    requires a == Digit(seconds / 60 / 10) && b == Digit(seconds / 60 % 10)
    requires c == Digit(seconds % 60 / 10) && d == Digit(seconds % 60 % 10)
    ensures Clock(seconds) == [a, b, ':', c, d]
  {
    FieldDigits(seconds / 60, a, b);
    FieldDigits(seconds % 60, c, d);
    ClockJoin(seconds, [a, b], [c, d]);
    JoinFive(a, b, c, d);
  }

  /** The display is the two fields joined by a colon. */
  lemma ClockJoin(seconds: nat, m: string, s: string)
    requires Field(seconds / 60) == m && Field(seconds % 60) == s
    ensures Clock(seconds) == m + ":" + s
  {
  }

  lemma JoinFive(a: char, b: char, c: char, d: char)
    ensures [a, b] + ":" + [c, d] == [a, b, ':', c, d]
  {
  }

  /** A number below 100 is drawn as its tens digit and its ones digit. */
  lemma FieldDigits(n: nat, tens: char, ones: char)
    requires n < 100 && tens == Digit(n / 10) && ones == Digit(n % 10)
    ensures Field(n) == [tens, ones]
  {
    if n < 10 {
      assert n / 10 == 0 && n % 10 == n;
      OneDigitField(n, ones);
    } else {
      TwoDigitField(n, tens, ones);
    }
  }

  /** A number below ten is drawn with one leading zero. */
  lemma OneDigitField(n: nat, ones: char)
    requires n < 10 && ones == Digit(n)
    ensures Field(n) == ['0', ones]
  {
    assert DecimalString(n) == [Digit(n)];
    assert seq(1, _ => '0') == ['0'];
  }

  /** A number from ten to 99 is drawn as its two digits. */
  lemma TwoDigitField(n: nat, tens: char, ones: char)
    requires 10 <= n < 100 && tens == Digit(n / 10) && ones == Digit(n % 10)
    ensures Field(n) == [tens, ones]
  {
    assert DecimalString(n) == DecimalString(n / 10) + [Digit(n % 10)];
    assert DecimalString(n / 10) == [Digit(n / 10)];
  }

  class TimerStopwatch {
    var mode: Mode
    /** Whether an interval is scheduled (`this.interval` is set). */
    var running: bool
    /** Seconds left on the countdown. */
    var remaining: int
    /** Seconds counted by the stopwatch. */
    var elapsed: int
    /** The count the display element was last drawn from; its text is `Display()`. */
    var drawn: nat

    /** The text of the display element. */
    function Display(): string
      reads this`drawn
    {
      Clock(drawn)
    }

    /** The counters never go negative, the countdown never exceeds its length, and the
        display always shows the current mode's counter. */
    ghost predicate Valid()
      reads this
    {
      CountersInRange() && drawn == Shown()
    }

    ghost predicate CountersInRange()
      reads this
    {
      0 <= remaining <= TimerSeconds && 0 <= elapsed
    }

    /** The counter the display shows in the current mode. */
    function Shown(): nat
      reads this
      requires 0 <= remaining && 0 <= elapsed
    {
      if mode == Timer then remaining else elapsed
    }

    /** Between handlers the display reads back as the current mode's counter. */
    lemma DisplayShowsCounter()
      requires Valid()
      ensures ParseClock(Display()) == Some(Shown())
    {
      ClockRoundTrip(drawn);
    }

    /** The component opens in timer mode, stopped, showing 25:00. */
    constructor ()
      ensures Valid()
      ensures mode == Timer && !running && remaining == TimerSeconds && elapsed == 0
      ensures drawn == TimerSeconds
    {
      mode := Timer;
      running := false;
      remaining := TimerSeconds;
      elapsed := 0;
      drawn := 0;
      new;
      UpdateDisplay();
    }

    /** `updateDisplay`: draws the current mode's counter. */
    method UpdateDisplay()
      requires 0 <= remaining && 0 <= elapsed
      modifies this`drawn
      ensures drawn == Shown()
    {
      var seconds := if mode == Timer then remaining else elapsed;
      drawn := seconds;
    }

    /** `start`: schedules the interval unless one is already scheduled. */
    method Start()
      requires Valid()
      modifies this`running
      ensures Valid()
      ensures running
    {
      if running {
        return;
      }
      running := true;
    }

    /** `stop`: cancels the interval if there is one. */
    method Stop()
      modifies this`running
      ensures !running
    {
      if running {
        running := false;
      }
    }

    /** One second of wall-clock time: the interval body runs if the interval is scheduled. */
    method Tick()
      requires Valid()
      modifies this
      ensures Valid()
      ensures mode == old(mode)
      ensures !old(running) ==> running == old(running) && remaining == old(remaining) && elapsed == old(elapsed)
      ensures old(running) && mode == Timer ==>
        && remaining == (if old(remaining) > 0 then old(remaining) - 1 else 0)
        && elapsed == old(elapsed)
        && (running <==> remaining != 0)
      ensures old(running) && mode == Stopwatch ==>
        elapsed == old(elapsed) + 1 && remaining == old(remaining) && running
    {
      if !running {
        return;
      }
      if mode == Timer {
        remaining := if remaining - 1 > 0 then remaining - 1 else 0;
        if remaining == 0 {
          Stop();
        }
      } else {
        elapsed := elapsed + 1;
      }
      UpdateDisplay();
    }

    /** `reset`: stops, and restarts only the current mode's counter. */
    method Reset()
      requires CountersInRange()
      modifies this
      ensures Valid()
      ensures !running && mode == old(mode)
      ensures mode == Timer ==> remaining == TimerSeconds && elapsed == old(elapsed)
      ensures mode == Stopwatch ==> elapsed == 0 && remaining == old(remaining)
    {
      Stop();
      if mode == Timer {
        remaining := TimerSeconds;
      } else {
        elapsed := 0;
      }
      UpdateDisplay();
    }

    /** The mode selector's change handler: switch mode, then reset. */
    method ChangeMode(m: Mode)
      requires Valid()
      modifies this
      ensures Valid()
      ensures mode == m && !running
      ensures m == Timer ==> remaining == TimerSeconds && elapsed == old(elapsed)
      ensures m == Stopwatch ==> elapsed == 0 && remaining == old(remaining)
    {
      mode := m;
      Reset();
    }
  }
}
