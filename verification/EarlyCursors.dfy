/**
 Instants before the year 0000 as cursors. An acknowledgement may carry one
 (`offer` in crates/fanout-worker/src/replay.rs refuses only the future), it is then
 written with a signed year, as chrono does outside the years 0000 to 9999, and such
 texts no longer compare like instants. Exactly when they do is proved here, for the
 years -9999 to 9999.
 */
module EarlyCursors {
  import opened Options
  import opened Times
  import opened Texts
  import opened CursorText

  /** 10 000 years, a whole number of the calendar's 400-year cycles. */
  const ERA := 3_652_425 * DAY_MICROS

  lemma LeapIsPeriodic(year: int)
    ensures LeapYear(year + 10_000) == LeapYear(year)
  {
    assert (year + 10_000) % 4 == year % 4;
    assert (year + 10_000) % 100 == year % 100;
    assert (year + 10_000) % 400 == year % 400;
  }

  lemma LeapIsSymmetric(year: int)
    ensures LeapYear(-year) == LeapYear(year)
  {
    MinusFours(year);
    MinusHundreds(year);
    MinusFourHundreds(year);
  }

  lemma MinusFours(n: int)
    ensures (-n) % 4 == 0 <==> n % 4 == 0
  {
  }

  lemma MinusHundreds(n: int)
    ensures (-n) % 100 == 0 <==> n % 100 == 0
  {
  }

  lemma MinusFourHundreds(n: int)
    ensures (-n) % 400 == 0 <==> n % 400 == 0
  {
  }

  /** The instant lies in one of the years -9999 to -1. */
  predicate Early(nanos: int) {
    MicrosInRange(Micros(nanos) + ERA) && FromMicros(Micros(nanos) + ERA).year >= 1
  }

  /** Its calendar date, ten thousand years later: year -1 appears as 9999. */
  function Later(nanos: int): (c: Civil)
    requires Early(nanos)
    ensures c.Valid() && c.year >= 1 && c.ToMicros() == Micros(nanos) + ERA
  {
    FromMicros(Micros(nanos) + ERA)
  }

  function YearOf(nanos: int): int
    requires Early(nanos)
  {
    Later(nanos).year - 10_000
  }

  /** The same date in the year without its sign. */
  function Unsigned(c: Civil): (u: Civil)
    requires c.Valid() && c.year >= 1
    ensures u.Valid()
  {
    LeapIsPeriodic(-c.year);
    LeapIsSymmetric(c.year);
    c.(year := 10_000 - c.year)
  }

  /** `{:+05}` for the year, and the rest as always. */
  function FormatEarly(nanos: int): string
    requires Early(nanos)
  {
    "-" + Write(Fields(Unsigned(Later(nanos))))
  }

  predicate Writable(nanos: int) {
    InRange(nanos) || Early(nanos)
  }

  /** `format_cursor` for the years -9999 to 9999. */
  function FormatSigned(nanos: int): string
    requires Writable(nanos)
  {
    if InRange(nanos) then FormatCursor(nanos) else FormatEarly(nanos)
  }

  /** No instant is in both halves, and the early one is before the other. */
  lemma EarlyIsEarlier(a: int, b: int)
    requires Early(a) && InRange(b)
    ensures Micros(a) < Micros(b)
  {
    DayBeforeTheEra(Later(a));
    assert EARLIER_DAYS + Micros(a) / DAY_MICROS + EPOCH_DAY < EARLIER_DAYS by {
      DaysShift(Micros(a));
    }
    assert Micros(a) / DAY_MICROS < Micros(b) / DAY_MICROS;
  }

  const EARLIER_DAYS := 3_652_425

  lemma DaysShift(micros: int)
    ensures (micros + ERA) / DAY_MICROS == micros / DAY_MICROS + EARLIER_DAYS
  {
  }

  lemma DayBeforeTheEra(c: Civil)
    requires c.Valid()
    ensures c.ToMicros() / DAY_MICROS + EPOCH_DAY < EARLIER_DAYS
  {
    DayLiesInYear(c);
    LaterYearsStartLater(c.year + 1, 10_000);
    assert DaysBeforeYear(10_000) == EARLIER_DAYS;
    DayOfMicros(c);
  }

  /** Two dates of one year compare alike with and without the sign; of two years, the other way round. */
  lemma UnsignedOrder(a: Civil, b: Civil)
    requires a.Valid() && b.Valid() && a.year >= 1 && b.year >= 1
    ensures Unsigned(a).ToMicros() < Unsigned(b).ToMicros() <==>
              if a.year == b.year then a.ToMicros() < b.ToMicros() else b.year < a.year
  {
    TimeOrderIsCivilOrder(Unsigned(a), Unsigned(b));
    TimeOrderIsCivilOrder(a, b);
  }

  /** Early texts compare by the size of the year first, which is backwards. */
  lemma EarlyTextOrder(a: int, b: int)
    requires Early(a) && Early(b)
    ensures TextLess(FormatEarly(a), FormatEarly(b)) <==>
              if YearOf(a) == YearOf(b) then Micros(a) < Micros(b) else YearOf(b) < YearOf(a)
  {
    var ua, ub := Unsigned(Later(a)), Unsigned(Later(b));
    TextLessByParts("-", "-", Write(Fields(ua)), Write(Fields(ub)));
    TextNotLessThanItself("-");
    TextOrderOfDates(ua, ub);
    UnsignedOrder(Later(a), Later(b));
  }

  lemma EarlierYearIsEarlier(a: int, b: int)
    requires Early(a) && Early(b) && YearOf(a) < YearOf(b)
    ensures Micros(a) < Micros(b)
  {
    TimeOrderIsCivilOrder(Later(a), Later(b));
  }

  lemma WrittenDateStartsWithDigit(c: Civil)
    requires c.Valid()
    ensures var s := Write(Fields(c));
            |s| > 4 && forall k :: 0 <= k < 4 ==> '0' <= s[k] <= '9'
  {
    PadIsDigits(c.year, 4);
    var s := Write(Fields(c));
    assert s[..4] == Pad(c.year, 4);
    assert forall k :: 0 <= k < 4 ==> s[k] == s[..4][k];
  }

  lemma {:induction false} PadIsDigits(n: nat, width: nat)
    ensures forall k :: 0 <= k < width ==> '0' <= Pad(n, width)[k] <= '9'
  {
    if width > 0 {
      PadIsDigits(n / 10, width - 1);
    }
  }

  lemma EarlyTextIsLess(a: int, b: int)
    requires Early(a) && InRange(b)
    ensures TextLess(FormatEarly(a), FormatCursor(b)) && !TextLess(FormatCursor(b), FormatEarly(a))
  {
    WrittenDateStartsWithDigit(FromMicros(Micros(b)));
    assert FormatEarly(a)[0] == '-';
  }

  /** Two early instants of different years: the only pairs whose texts compare wrongly. */
  predicate Reversed(a: int, b: int) {
    Early(a) && Early(b) && YearOf(a) != YearOf(b)
  }

  lemma EarlyIsNotInRange(a: int)
    requires Early(a)
    ensures !InRange(a)
  {
    if InRange(a) {
      EarlyIsEarlier(a, a);
    }
  }

  /**
   For the years -9999 to 9999: the texts of two instants compare as the instants do if
   and only if they are not two early instants of different years.
   */
  lemma TextOrderIsTimeOrderIff(a: int, b: int)
    requires Writable(a) && Writable(b)
    ensures (TextLess(FormatSigned(a), FormatSigned(b)) <==> Micros(a) < Micros(b)) <==> !Reversed(a, b)
  {
    if InRange(a) && InRange(b) {
      StringOrderIsTimeOrder(a, b);
      if Early(a) {
        EarlyIsNotInRange(a);
      }
    } else if InRange(a) {
      EarlyIsEarlier(b, a);
      EarlyTextIsLess(b, a);
      EarlyIsNotInRange(b);
      if Early(a) {
        EarlyIsNotInRange(a);
      }
    } else if InRange(b) {
      EarlyIsEarlier(a, b);
      EarlyTextIsLess(a, b);
      if Early(b) {
        EarlyIsNotInRange(b);
      }
    } else {
      EarlyTextOrder(a, b);
      if YearOf(a) < YearOf(b) {
        EarlierYearIsEarlier(a, b);
      } else if YearOf(b) < YearOf(a) {
        EarlierYearIsEarlier(b, a);
      }
    }
  }

  /** An early cursor cannot be read back: the strict parser wants four digits first. */
  lemma EarlyIsUnreadable(nanos: int)
    requires Early(nanos)
    ensures ParseCursor(FormatEarly(nanos)) == None
  {
    var date := Write(Fields(Unsigned(Later(nanos))));
    WrittenDateStartsWithDigit(Unsigned(Later(nanos)));
    assert FormatEarly(nanos)[4] == date[3];
  }

  /** The instant of an early date, which is given ten thousand years later. */
  function FromLater(c: Civil): (nanos: int)
    requires c.Valid() && c.year >= 1
  {
    Back(c.ToMicros())
  }

  function Back(micros: int): (nanos: int)
    ensures Micros(nanos) + ERA == micros
  {
    (micros - ERA) * 1000
  }

  lemma DateOfEarly(nanos: int, micros: int, c: Civil)
    requires MicrosInRange(micros) && FromMicros(micros) == c && c.year >= 1 && Micros(nanos) + ERA == micros
    ensures Early(nanos) && Later(nanos) == c
  {
  }

  lemma FromLaterIsEarly(c: Civil)
    requires c.Valid() && c.year >= 1
    ensures Early(FromLater(c)) && Later(FromLater(c)) == c
  {
    DateOfItsMicros(c);
    DateOfEarly(FromLater(c), c.ToMicros(), c);
  }

  /** The first moment of year `year`. */
  function NewYear(year: int): (nanos: int)
    requires -9999 <= year <= -1
    ensures Early(nanos) && YearOf(nanos) == year
  {
    var c := Civil(year + 10_000, 1, 1, 0, 0, 0, 0);
    FromLaterIsEarly(c);
    FromLater(c)
  }

  /** Such pairs: the New Years of any two successive early years, such as -2 and -1. */
  lemma EarlyYearsCompareBackwards(year: int)
    requires -9999 <= year < -1
    ensures Micros(NewYear(year)) < Micros(NewYear(year + 1))
    ensures TextLess(FormatEarly(NewYear(year + 1)), FormatEarly(NewYear(year)))
  {
    LaterYearIsLessText(NewYear(year), NewYear(year + 1));
  }

  lemma LaterYearIsLessText(a: int, b: int)
    requires Early(a) && Early(b) && YearOf(a) < YearOf(b)
    ensures Micros(a) < Micros(b) && TextLess(FormatEarly(b), FormatEarly(a))
  {
    EarlierYearIsEarlier(a, b);
    EarlyTextOrder(b, a);
  }
}
