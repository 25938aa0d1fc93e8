/** `Clock`: the time split into six digit wheels, tens and units of hours,
    minutes and seconds, left to right. The digits come from Kotlin's
    truncating `/ 10` and `% 10`. */
module ClockFace {
  import opened KotlinInt
  import opened CountdownTime
  import opened NumberColumn

  /** One `NumberColumn(current, range, modifier)` call; `shiftX` is the
      modifier's horizontal offset in dp (the units wheels move 16 dp left). */
  datatype ColumnCall = ColumnCall(current: int, range: IntRange, shiftX: real)

  /** The ranges of the six wheels: `0..12`, `0..9`, `0..5`, `0..9`, `0..5`, `0..9`. */
  const Ranges: seq<IntRange> :=
    [IntRange(0, 12), IntRange(0, 9), IntRange(0, 5), IntRange(0, 9), IntRange(0, 5), IntRange(0, 9)]

  /** The tens and units digits of `part` as truncating division gives them:
      they rebuild `part`, the units digit is below 10 in size, and both carry
      the sign of `part`. Only one pair of digits meets all three. */
  predicate TruncatedDigits(tens: int, units: int, part: int)
  {
    && 10 * tens + units == part
    && Abs(units) < 10
    && (part >= 0 ==> tens >= 0 && units >= 0)
    && (part <= 0 ==> tens <= 0 && units <= 0)
  }

  /** A number has only one pair of truncated digits. */
  lemma TruncatedDigitsUnique(tens: int, units: int, tens': int, units': int, part: int)
    requires TruncatedDigits(tens, units, part) && TruncatedDigits(tens', units', part)
    ensures tens == tens' && units == units'
  {
  }

  /** On a non-negative number the truncated digits are Dafny's `/ 10` and `% 10`. */
  lemma TruncatedDigitsNonNegative(tens: int, units: int, part: int)
    requires TruncatedDigits(tens, units, part) && part >= 0
    ensures tens == part / 10 && units == part % 10
  {
    TruncatedDigitsUnique(tens, units, part / 10, part % 10, part);
  }

  /** The six wheels for `time`. Whatever the time, tens and units put back
      together give hours, minutes and seconds again, and past zero the digits
      turn negative instead of wrapping (`-1` seconds shows units `-1`, not `9`). */
  function Columns(time: Time): (cols: seq<ColumnCall>)
    ensures |cols| == 6
    ensures forall i :: 0 <= i < 6 ==> cols[i].range == Ranges[i]
    ensures forall i :: 0 <= i < 6 ==> cols[i].shiftX == if i % 2 == 1 then -16.0 else 0.0
    ensures TruncatedDigits(cols[0].current, cols[1].current, time.hours)
    ensures TruncatedDigits(cols[2].current, cols[3].current, time.minutes)
    ensures TruncatedDigits(cols[4].current, cols[5].current, time.seconds)
  {
    [ ColumnCall(TDiv(time.hours, 10), IntRange(0, 12), 0.0),
      ColumnCall(TRem(time.hours, 10), IntRange(0, 9), -16.0),
      ColumnCall(TDiv(time.minutes, 10), IntRange(0, 5), 0.0),
      ColumnCall(TRem(time.minutes, 10), IntRange(0, 9), -16.0),
      ColumnCall(TDiv(time.seconds, 10), IntRange(0, 5), 0.0),
      ColumnCall(TRem(time.seconds, 10), IntRange(0, 9), -16.0) ]
  }

  function Currents(cols: seq<ColumnCall>): seq<int>
  {
    seq(|cols|, i requires 0 <= i < |cols| => cols[i].current)
  }

  /** Counting one down turns a units digit 0 into 9 and lowers any other by one. */
  lemma UnitsOfPredecessor(s: int)
    requires s > 0
    ensures (s - 1) % 10 == if s % 10 == 0 then 9 else s % 10 - 1
  {
    var q := s / 10;
    assert s == 10 * q + s % 10;
    if s % 10 == 0 {
      assert s - 1 == 10 * (q - 1) + 9;
    } else {
      assert s - 1 == 10 * q + (s % 10 - 1);
    }
  }

  /** For a valid time every digit lies in its wheel's range exactly when the
      hours fit the `0..12` tens wheel, i.e. up to 129 hours. */
  lemma DigitsInRange(time: Time)
    requires Valid(time)
    ensures (forall i :: 0 <= i < 6 ==> Contains(Columns(time)[i].range, Columns(time)[i].current))
            <==> time.hours <= 129
  {
    var cols := Columns(time);
    assert Contains(cols[0].range, cols[0].current) <==> time.hours <= 129;
  }

  /** The starting time `15:28:58` shows the digits 1 5 2 8 5 8. */
  lemma StartDigits()
    ensures Currents(Columns(Start)) == [1, 5, 2, 8, 5, 8]
  {
  }

  /** In the first nine seconds past zero (`00:00:-1`, see `DecPastZero`, to
      `00:00:-9`) the tens-of-seconds wheel shows 0 and the units wheel the
      negative count of seconds, outside its range, so by `OneActiveTile` none
      of its tiles is active. */
  lemma DigitsPastZero(t: Time)
    requires -10 < t.seconds < 0
    ensures Columns(t)[4].current == 0 && Columns(t)[5].current == t.seconds
    ensures !Contains(Columns(t)[5].range, Columns(t)[5].current)
  {
    var cols := Columns(t);
    TruncatedDigitsUnique(cols[4].current, cols[5].current, 0, t.seconds, t.seconds);
  }

  /** While counting down, the units-of-seconds wheel springs exactly when it
      arrives at 0 from 1; its actual wrap, from 0 round to 9, gets the tween. */
  lemma UnitsOfSecondsSpring(time: Time)
    requires Valid(time) && TotalSeconds(time) > 0
    ensures var c := Columns(Dec(time))[5];
      ChooseAnimation(c.current, c.range).Spring? <==> time.seconds % 10 == 1
    ensures time.seconds % 10 == 0 ==> Columns(Dec(time))[5].current == 9
  {
    var cols := Columns(Dec(time));
    SecondsAfterDec(time);
    UnitsAfterTick(time.seconds, Dec(time).seconds, cols[4].current, cols[5].current);
    assert cols[5].range == Ranges[5];
  }

  /** The seconds `dec` leaves on a valid time above zero. */
  lemma SecondsAfterDec(time: Time)
    requires Valid(time) && TotalSeconds(time) > 0
    ensures Dec(time).seconds == if time.seconds > 0 then time.seconds - 1 else 59
  {
    if time.seconds > 0 {
      DecTicksSeconds(time);
    } else if time.minutes > 0 {
      DecBorrowsMinute(time);
    } else {
      DecBorrowsHour(time);
    }
  }

  /** The units digit after one step down from `s` seconds is 0 exactly when
      that of `s` was 1, and 9 when that of `s` was 0. */
  lemma UnitsAfterTick(s: int, next: int, tens: int, units: int)
    requires 0 <= s < 60 && next == (if s > 0 then s - 1 else 59)
    requires TruncatedDigits(tens, units, next)
    ensures units == 0 <==> s % 10 == 1
    ensures s % 10 == 0 ==> units == 9
  {
    TruncatedDigitsNonNegative(tens, units, next);
    if s > 0 {
      UnitsOfPredecessor(s);
    }
  }
}
