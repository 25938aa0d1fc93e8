/** The remaining duration of the countdown (`data class Time`), its
    one-second decrement (`Time.dec`) and the screen state that the tick
    loop of `ClockScreen` mutates. */
module CountdownTime {
  import opened KotlinInt

  datatype Time = Time(hours: int, minutes: int, seconds: int)

  /** The value `ClockScreen` starts from. */
  const Start: Time := Time(15, 28, 58)

  /** The duration in seconds, as `dec` computes it before subtracting one. */
  function TotalSeconds(t: Time): int
  {
    (t.hours * 60 + t.minutes) * 60 + t.seconds
  }

  /** A time in normal form: no negative part, minutes and seconds below 60. */
  predicate Valid(t: Time)
  {
    t.hours >= 0 && 0 <= t.minutes < 60 && 0 <= t.seconds < 60
  }

  /** `Time.dec`: one second less, split again into hours, minutes and seconds
      with Kotlin's truncating division. Nothing clamps at zero: past zero every
      part is zero or negative, and minutes and seconds stay within 59 in size. */
  function Dec(t: Time): (r: Time)
    ensures TotalSeconds(r) == TotalSeconds(t) - 1
    ensures Abs(r.minutes) < 60 && Abs(r.seconds) < 60
    ensures TotalSeconds(t) >= 1 ==> r.hours >= 0 && r.minutes >= 0 && r.seconds >= 0
    ensures TotalSeconds(t) <= 1 ==> r.hours <= 0 && r.minutes <= 0 && r.seconds <= 0
  {
    var newTotalSeconds := (t.hours * 60 + t.minutes) * 60 + t.seconds - 1;
    var hours := TDiv(newTotalSeconds, 3600);
    var minutes := TDiv(newTotalSeconds - hours * 3600, 60);
    var seconds := newTotalSeconds - hours * 3600 - minutes * 60;
    Time(hours, minutes, seconds)
  }

  /** A number of seconds has exactly one normal form. */
  lemma NormalFormUnique(a: Time, b: Time)
    requires Valid(a) && Valid(b) && TotalSeconds(a) == TotalSeconds(b)
    ensures a == b
  {
  }

  /** A valid time stays valid under `dec` exactly while it is above zero. */
  lemma DecKeepsValid(t: Time)
    requires Valid(t)
    ensures TotalSeconds(t) >= 0
    ensures Valid(Dec(t)) <==> TotalSeconds(t) > 0
  {
    if TotalSeconds(t) == 0 {
      assert Dec(t).seconds < 0 || Dec(t).minutes < 0 || Dec(t).hours < 0;
    }
  }

  /** With seconds to spare, `dec` takes one of them and touches nothing else. */
  lemma DecTicksSeconds(t: Time)
    requires Valid(t) && t.seconds > 0
    ensures Dec(t) == Time(t.hours, t.minutes, t.seconds - 1)
  {
    NormalFormUnique(Dec(t), Time(t.hours, t.minutes, t.seconds - 1));
  }

  /** At a whole minute, `dec` borrows one minute: `h:m:00` becomes `h:(m-1):59`. */
  lemma DecBorrowsMinute(t: Time)
    requires Valid(t) && t.seconds == 0 && t.minutes > 0
    ensures Dec(t) == Time(t.hours, t.minutes - 1, 59)
  {
    NormalFormUnique(Dec(t), Time(t.hours, t.minutes - 1, 59));
  }

  /** At a whole hour, `dec` borrows one hour: `h:00:00` becomes `(h-1):59:59`. */
  lemma DecBorrowsHour(t: Time)
    requires Valid(t) && t.seconds == 0 && t.minutes == 0 && t.hours > 0
    ensures Dec(t) == Time(t.hours - 1, 59, 59)
  {
    NormalFormUnique(Dec(t), Time(t.hours - 1, 59, 59));
  }

  /** Nothing clamps at zero: `00:00:00` goes on to `00:00:-1`. */
  lemma DecPastZero()
    ensures Dec(Time(0, 0, 0)) == Time(0, 0, -1)
  {
  }

  /** Past zero, `dec` counts the negated time up: negating every part of the
      result gives the normal form of one second more than the negated input. */
  lemma DecPastZeroCountsUp(t: Time)
    requires TotalSeconds(t) <= 0
    ensures Valid(Time(-Dec(t).hours, -Dec(t).minutes, -Dec(t).seconds))
    ensures TotalSeconds(Time(-Dec(t).hours, -Dec(t).minutes, -Dec(t).seconds)) == 1 - TotalSeconds(t)
  {
  }

  /** The largest hour count for which every intermediate of `dec` fits a Kotlin `Int`. */
  const MaxHours: int := 596522

  /** Up to `MaxHours`, no intermediate value of `dec` on a valid time leaves the
      32-bit range, so the unbounded arithmetic here is Kotlin's. */
  lemma DecFitsInInt(t: Time)
    requires Valid(t) && t.hours <= MaxHours
    ensures IsInt(t.hours * 60) && IsInt(t.hours * 60 + t.minutes)
    ensures IsInt((t.hours * 60 + t.minutes) * 60) && IsInt(TotalSeconds(t)) && IsInt(TotalSeconds(t) - 1)
    ensures IsInt(Dec(t).hours * 3600) && IsInt(Dec(t).minutes * 60)
    ensures IsInt(TotalSeconds(t) - 1 - Dec(t).hours * 3600)
  {
  }

  /** One hour more and the total of `(MaxHours+1):59:59` overflows. */
  lemma MaxHoursIsTight()
    ensures !IsInt(TotalSeconds(Time(MaxHours + 1, 59, 59)))
  {
  }

  /** The time after `n` ticks of the loop in `ClockScreen`. */
  function Iterate(t: Time, n: nat): Time
  {
    if n == 0 then t else Dec(Iterate(t, n - 1))
  }

  /** Every tick removes exactly one second. */
  lemma {:induction false} IterateTotal(t: Time, n: nat)
    ensures TotalSeconds(Iterate(t, n)) == TotalSeconds(t) - n
  {
    if n > 0 {
      IterateTotal(t, n - 1);
    }
  }

  /** The countdown never shows the same time twice: it does not stop at zero. */
  lemma IterateNeverRepeats(t: Time, n: nat, m: nat)
    requires n != m
    ensures Iterate(t, n) != Iterate(t, m)
  {
    IterateTotal(t, n);
    IterateTotal(t, m);
  }

  /** A valid time stays valid for as many ticks as it has seconds. */
  lemma {:induction false} IterateKeepsValid(t: Time, n: nat)
    requires Valid(t) && n <= TotalSeconds(t)
    ensures Valid(Iterate(t, n))
  {
    if n > 0 {
      IterateTotal(t, n - 1);
      DecAboveZeroValid(Iterate(t, n - 1));
    }
  }

  /** Whatever the time, `dec` of a total of at least one second is valid. */
  lemma DecAboveZeroValid(u: Time)
    requires TotalSeconds(u) >= 1
    ensures Valid(Dec(u))
  {
  }

  /** From any valid time the countdown reaches `00:00:00` after exactly its
      number of seconds, and the tick after that shows `00:00:-1`. */
  lemma CountdownReachesZero(t: Time)
    requires Valid(t)
    ensures Iterate(t, TotalSeconds(t)) == Time(0, 0, 0)
    ensures Iterate(t, TotalSeconds(t) + 1) == Time(0, 0, -1)
  {
    var n := TotalSeconds(t);
    IterateKeepsValid(t, n);
    IterateTotal(t, n);
    NormalFormUnique(Iterate(t, n), Time(0, 0, 0));
    DecPastZero();
  }

  /** The state of `ClockScreen`: the `time` it remembers and decrements once a
      second. The one-second delay itself is not modelled; `Run(n)` stands for
      the first `n` rounds of its endless loop. */
  class ClockScreen {
    var time: Time

    constructor ()
      ensures time == Start && Valid(time)
    {
      time := Start;
    }

    /** `time--` */
    method Tick()
      modifies this
      ensures time == Dec(old(time))
      ensures TotalSeconds(time) == TotalSeconds(old(time)) - 1
    {
      time := Dec(time);
    }

    /** `n` rounds of `while (true) { delay(1000); time-- }`. */
    method Run(n: nat)
      modifies this
      ensures time == Iterate(old(time), n)
      ensures TotalSeconds(time) == TotalSeconds(old(time)) - n
    {
      var i := 0;
      while i < n
        invariant 0 <= i <= n
        invariant time == Iterate(old(time), i)
      {
        Tick();
        i := i + 1;
      }
      IterateTotal(old(time), n);
    }
  }
}
