/**
 The text form of the replay cursor (crates/infra/src/redis.rs): RFC 3339 in UTC with
 microseconds, always 27 characters for the years 0000 to 9999, and why comparing two
 such strings byte by byte compares the instants.
 */
module CursorText {
  import opened Options
  import opened Times
  import opened Texts

  // ------------------------------------------------------------------
  // The proleptic Gregorian calendar (section 5.7 of RFC 3339)
  // ------------------------------------------------------------------

  predicate LeapYear(year: int) {
    year % 4 == 0 && (year % 100 != 0 || year % 400 == 0)
  }

  function YearLength(year: int): int {
    if LeapYear(year) then 366 else 365
  }

  /** Days from 0000-01-01 to the first of January of `year`. */
  function DaysBeforeYear(year: int): int {
    365 * year + (year + 3) / 4 - (year + 99) / 100 + (year + 399) / 400
  }

  function MonthLength(leap: bool, month: int): int {
    if month == 2 then (if leap then 29 else 28)
    else if month in {4, 6, 9, 11} then 30
    else 31
  }

  /** Days of the year before the first of `month`. */
  function DaysBeforeMonth(leap: bool, month: nat): nat
  {
    if month <= 1 then 0 else DaysBeforeMonth(leap, month - 1) + MonthLength(leap, month - 1)
  }

  datatype Civil = Civil(year: int, month: int, day: int, hour: int, minute: int, second: int, micro: int) {
    predicate Valid() {
      && 0 <= year <= 9999 && 1 <= month <= 12
      && 1 <= day <= MonthLength(LeapYear(year), month)
      && 0 <= hour < 24 && 0 <= minute < 60 && 0 <= second < 60 && 0 <= micro < 1_000_000
    }

    function DayNumber(): int
      requires Valid()
    {
      DaysBeforeYear(year) + DaysBeforeMonth(LeapYear(year), month) + day - 1
    }

    /** Microseconds since 1970-01-01T00:00:00Z. */
    function ToMicros(): int
      requires Valid()
    {
      (((DayNumber() - EPOCH_DAY) * 24 + hour) * 60 + minute) * 60_000_000 + second * 1_000_000 + micro
    }
  }

  const EPOCH_DAY := 719_528
  const DAY_MICROS := 86_400_000_000

  lemma EpochIsNewYear1970()
    ensures EPOCH_DAY == DaysBeforeYear(1970)
  {
  }

  /** A multiple of 4, 100 or 400 is passed exactly when the year itself is one. */
  lemma LeapDaysPassed(year: int)
    ensures (year + 4) / 4 - (year + 3) / 4 == if year % 4 == 0 then 1 else 0
    ensures (year + 100) / 100 - (year + 99) / 100 == if year % 100 == 0 then 1 else 0
    ensures (year + 400) / 400 - (year + 399) / 400 == if year % 400 == 0 then 1 else 0
    ensures year % 400 == 0 ==> year % 100 == 0
    ensures year % 100 == 0 ==> year % 4 == 0
  {
    FoursPassed(year);
    HundredsPassed(year);
    FourHundredsPassed(year);
    HundredsAmongFourHundreds(year);
    FoursAmongHundreds(year);
  }

  lemma HundredsAmongFourHundreds(year: int)
    ensures year % 400 == 0 ==> year % 100 == 0
  {
  }

  lemma FoursAmongHundreds(year: int)
    ensures year % 100 == 0 ==> year % 4 == 0
  {
  }

  lemma FoursPassed(year: int)
    ensures (year + 4) / 4 - (year + 3) / 4 == if year % 4 == 0 then 1 else 0
  {
  }

  lemma HundredsPassed(year: int)
    ensures (year + 100) / 100 - (year + 99) / 100 == if year % 100 == 0 then 1 else 0
  {
  }

  lemma FourHundredsPassed(year: int)
    ensures (year + 400) / 400 - (year + 399) / 400 == if year % 400 == 0 then 1 else 0
  {
  }

  lemma YearsFollowEachOther(year: int)
    ensures DaysBeforeYear(year + 1) == DaysBeforeYear(year) + YearLength(year)
  {
    LeapDaysPassed(year);
  }

  lemma {:induction false} LaterYearsStartLater(a: int, b: int)
    requires a <= b
    ensures DaysBeforeYear(a) + 365 * (b - a) <= DaysBeforeYear(b)
    decreases b - a
  {
    if a < b {
      YearsFollowEachOther(b - 1);
      LaterYearsStartLater(a, b - 1);
    }
  }

  lemma TwelveMonthsMakeAYear(year: int)
    ensures DaysBeforeMonth(LeapYear(year), 13) == YearLength(year)
  {
    var leap := LeapYear(year);
    var february := MonthLength(leap, 2);
    assert DaysBeforeMonth(leap, 2) == 31;
    assert DaysBeforeMonth(leap, 3) == 31 + february;
    assert DaysBeforeMonth(leap, 5) == 92 + february;
    assert DaysBeforeMonth(leap, 7) == 153 + february;
    assert DaysBeforeMonth(leap, 9) == 215 + february;
    assert DaysBeforeMonth(leap, 11) == 276 + february;
  }

  lemma {:induction false} LaterMonthsStartLater(leap: bool, a: nat, b: nat)
    requires 1 <= a < b
    ensures DaysBeforeMonth(leap, a) + MonthLength(leap, a) <= DaysBeforeMonth(leap, b)
  {
    if a + 1 < b {
      LaterMonthsStartLater(leap, a, b - 1);
    }
  }

  /** A valid date lies inside its year. */
  lemma DayLiesInYear(c: Civil)
    requires c.Valid()
    ensures DaysBeforeYear(c.year) <= c.DayNumber() < DaysBeforeYear(c.year + 1)
  {
    YearsFollowEachOther(c.year);
    TwelveMonthsMakeAYear(c.year);
    LaterMonthsStartLater(LeapYear(c.year), c.month, 13);
  }

  // ------------------------------------------------------------------
  // From an instant to its calendar fields
  // ------------------------------------------------------------------

  predicate MicrosInRange(micros: int) {
    0 <= micros / DAY_MICROS + EPOCH_DAY < DaysBeforeYear(10_000)
  }

  /** The instant lies in one of the years 0000 to 9999. */
  predicate InRange(nanos: int) {
    MicrosInRange(Micros(nanos))
  }

  function YearFrom(day: int, year: int): (r: int)
    requires DaysBeforeYear(year) <= day
    ensures year <= r && DaysBeforeYear(r) <= day < DaysBeforeYear(r + 1)
    decreases day - DaysBeforeYear(year)
  {
    YearsFollowEachOther(year);
    if day < DaysBeforeYear(year + 1) then year else YearFrom(day, year + 1)
  }

  function MonthFrom(leap: bool, dayOfYear: int, month: nat): (r: int)
    requires 1 <= month <= 12
    requires DaysBeforeMonth(leap, month) <= dayOfYear < DaysBeforeMonth(leap, 13)
    ensures 1 <= r <= 12
    ensures DaysBeforeMonth(leap, r) <= dayOfYear < DaysBeforeMonth(leap, r) + MonthLength(leap, r)
    decreases 13 - month
  {
    if dayOfYear < DaysBeforeMonth(leap, month + 1) then month else MonthFrom(leap, dayOfYear, month + 1)
  }

  function FromMicros(micros: int): (c: Civil)
    requires MicrosInRange(micros)
    ensures c.Valid() && c.ToMicros() == micros
  {
    var day := micros / DAY_MICROS + EPOCH_DAY;
    var year := YearFrom(day, 0);
    assert year <= 9999 by {
      if year > 9999 {
        LaterYearsStartLater(10_000, year);
        assert false;
      }
    }
    YearsFollowEachOther(year);
    TwelveMonthsMakeAYear(year);
    var leap := LeapYear(year);
    var dayOfYear := day - DaysBeforeYear(year);
    var month := MonthFrom(leap, dayOfYear, 1);
    var rest := micros % DAY_MICROS;
    var minutes := rest / 60_000_000;
    var within := rest % 60_000_000;
    assert minutes == minutes / 60 * 60 + minutes % 60;
    Civil(year, month, dayOfYear - DaysBeforeMonth(leap, month) + 1,
          minutes / 60, minutes % 60, within / 1_000_000, within % 1_000_000)
  }

  // ------------------------------------------------------------------
  // Fixed-width text
  // ------------------------------------------------------------------

  function Pow10(n: nat): (r: nat)
    ensures r >= 1
  {
    if n == 0 then 1 else 10 * Pow10(n - 1)
  }

  function Digit(n: int): char
    requires 0 <= n < 10
  {
    '0' + n as char
  }

  /** `n` in decimal, padded with zeros on the left to `width` characters. */
  function Pad(n: nat, width: nat): (s: string)
    ensures |s| == width
  {
    if width == 0 then "" else Pad(n / 10, width - 1) + [Digit(n % 10)]
  }

  /** One number of a fixed-width layout, with the character that ends it. */
  datatype Field = Field(value: nat, width: nat, end: char) {
    predicate Fits() { value < Pow10(width) }
    predicate SameLayout(other: Field) { width == other.width && end == other.end }
  }

  predicate AllFit(fs: seq<Field>) {
    forall i :: 0 <= i < |fs| ==> fs[i].Fits()
  }

  predicate SameLayout(fs: seq<Field>, gs: seq<Field>) {
    |fs| == |gs| && forall i :: 0 <= i < |fs| ==> fs[i].SameLayout(gs[i])
  }

  function Write(fs: seq<Field>): string {
    if fs == [] then "" else Pad(fs[0].value, fs[0].width) + [fs[0].end] + Write(fs[1..])
  }

  function Fields(c: Civil): (fs: seq<Field>)
    requires c.Valid()
    ensures |fs| == 7
  {
    [Field(c.year, 4, '-'), Field(c.month, 2, '-'), Field(c.day, 2, 'T'),
     Field(c.hour, 2, ':'), Field(c.minute, 2, ':'), Field(c.second, 2, '.'), Field(c.micro, 6, 'Z')]
  }

  /** `format_cursor`: the instant cut to microseconds, as text. */
  function FormatCursor(nanos: int): string
    requires InRange(nanos)
  {
    Write(Fields(FromMicros(Micros(nanos))))
  }

  // ------------------------------------------------------------------
  // Byte order is field order is time order
  // ------------------------------------------------------------------

  /** Padded numbers compare like the numbers. */
  lemma {:induction false} PadOrder(m: nat, n: nat, width: nat)
    requires m < Pow10(width) && n < Pow10(width)
    ensures TextLess(Pad(m, width), Pad(n, width)) <==> m < n
    ensures Pad(m, width) == Pad(n, width) <==> m == n
  {
    if width > 0 {
      PadOrder(m / 10, n / 10, width - 1);
      var a, b := Pad(m / 10, width - 1), Pad(n / 10, width - 1);
      var x, y := [Digit(m % 10)], [Digit(n % 10)];
      TextLessByParts(a, b, x, y);
      assert TextLess(x, y) <==> m % 10 < n % 10;
      assert Pad(m, width)[..width - 1] == a && Pad(n, width)[..width - 1] == b;
      assert Pad(m, width)[width - 1] == x[0] && Pad(n, width)[width - 1] == y[0];
    }
  }

  /** The fields compare like numbers of a mixed-radix system. */
  predicate FieldsLess(fs: seq<Field>, gs: seq<Field>)
    requires |fs| == |gs|
  {
    fs != [] && (fs[0].value < gs[0].value || (fs[0].value == gs[0].value && FieldsLess(fs[1..], gs[1..])))
  }

  lemma {:induction false} TextOrderIsFieldOrder(fs: seq<Field>, gs: seq<Field>)
    requires SameLayout(fs, gs) && AllFit(fs) && AllFit(gs)
    ensures TextLess(Write(fs), Write(gs)) <==> FieldsLess(fs, gs)
  {
    if fs != [] {
      assert fs[0].Fits() && gs[0].Fits() && fs[0].SameLayout(gs[0]);
      TextOrderIsFieldOrder(fs[1..], gs[1..]);
      var p, q := Pad(fs[0].value, fs[0].width), Pad(gs[0].value, gs[0].width);
      PadOrder(fs[0].value, gs[0].value, fs[0].width);
      var end := [fs[0].end];
      assert Write(fs) == p + (end + Write(fs[1..])) && Write(gs) == q + (end + Write(gs[1..]));
      TextLessByParts(p, q, end + Write(fs[1..]), end + Write(gs[1..]));
      TextLessByParts(end, end, Write(fs[1..]), Write(gs[1..]));
    }
  }

  lemma FieldsFit(c: Civil)
    requires c.Valid()
    ensures AllFit(Fields(c))
  {
    assert Pow10(2) == 100;
    assert Pow10(4) == 10_000;
    assert Pow10(6) == 1_000_000;
  }

  /** Which of two dates is earlier is decided by the first field in which they differ. */
  ghost predicate CivilLess(a: Civil, b: Civil) {
    a.year < b.year || (a.year == b.year && (
    a.month < b.month || (a.month == b.month && (
    a.day < b.day || (a.day == b.day && (
    a.hour < b.hour || (a.hour == b.hour && (
    a.minute < b.minute || (a.minute == b.minute && (
    a.second < b.second || (a.second == b.second && a.micro < b.micro)))))))))))
  }

  lemma FieldsLessIsCivilLess(a: Civil, b: Civil)
    requires a.Valid() && b.Valid()
    ensures FieldsLess(Fields(a), Fields(b)) <==> CivilLess(a, b)
  {
    var fs, gs := Fields(a), Fields(b);
    assert FieldsLess(fs[6..], gs[6..]) <==> a.micro < b.micro;
    forall k | 0 <= k < 6
      ensures FieldsLess(fs[k..], gs[k..]) <==>
        fs[k].value < gs[k].value || (fs[k].value == gs[k].value && FieldsLess(fs[k + 1..], gs[k + 1..]))
    {
      assert fs[k..][1..] == fs[k + 1..] && gs[k..][1..] == gs[k + 1..];
    }
    assert fs[0..] == fs && gs[0..] == gs;
    assert FieldsLess(fs[5..], gs[5..]) <==> a.second < b.second || (a.second == b.second && a.micro < b.micro);
    assert fs[4].value == a.minute && fs[3].value == a.hour && fs[2].value == a.day;
  }

  lemma DayOrder(a: Civil, b: Civil)
    requires a.Valid() && b.Valid()
    requires (a.year, a.month, a.day) != (b.year, b.month, b.day) && CivilLess(a, b)
    ensures a.DayNumber() < b.DayNumber()
  {
    if a.year < b.year {
      DayLiesInYear(a);
      DayLiesInYear(b);
      LaterYearsStartLater(a.year + 1, b.year);
    } else if a.month < b.month {
      LaterMonthsStartLater(LeapYear(a.year), a.month, b.month);
    }
  }

  lemma CivilLessIsEarlier(a: Civil, b: Civil)
    requires a.Valid() && b.Valid() && CivilLess(a, b)
    ensures a.ToMicros() < b.ToMicros()
  {
    if (a.year, a.month, a.day) != (b.year, b.month, b.day) {
      DayOrder(a, b);
    }
  }

  lemma TimeOrderIsCivilOrder(a: Civil, b: Civil)
    requires a.Valid() && b.Valid()
    ensures CivilLess(a, b) <==> a.ToMicros() < b.ToMicros()
  {
    if CivilLess(a, b) {
      CivilLessIsEarlier(a, b);
    } else if CivilLess(b, a) {
      CivilLessIsEarlier(b, a);
    } else {
      assert a == b;
    }
  }

  /**
   String order is time order: for any two instants of the years 0000 to 9999, the
   texts compare byte by byte exactly as the instants cut to microseconds do.
   */
  lemma StringOrderIsTimeOrder(a: int, b: int)
    requires InRange(a) && InRange(b)
    ensures TextLess(FormatCursor(a), FormatCursor(b)) <==> Micros(a) < Micros(b)
    ensures FormatCursor(a) == FormatCursor(b) <==> Micros(a) == Micros(b)
  {
    var ca, cb := FromMicros(Micros(a)), FromMicros(Micros(b));
    TextOrderOfDates(ca, cb);
    TextOrderOfDates(cb, ca);
    TextNotLessThanItself(FormatCursor(a));
  }

  lemma TextOrderOfDates(a: Civil, b: Civil)
    requires a.Valid() && b.Valid()
    ensures TextLess(Write(Fields(a)), Write(Fields(b))) <==> a.ToMicros() < b.ToMicros()
  {
    FieldsFit(a);
    FieldsFit(b);
    TextOrderIsFieldOrder(Fields(a), Fields(b));
    FieldsLessIsCivilLess(a, b);
    TimeOrderIsCivilOrder(a, b);
  }

  // ------------------------------------------------------------------
  // Reading a cursor back
  // ------------------------------------------------------------------

  function Unpad(s: string): Option<nat> {
    if s == "" then Some(0)
    else
      var init, last := Unpad(s[..|s| - 1]), s[|s| - 1];
      if init.None? || !('0' <= last <= '9') then None
      else Some(10 * init.value + (last - '0') as nat)
  }

  lemma {:induction false} UnpadPad(n: nat, width: nat)
    requires n < Pow10(width)
    ensures Unpad(Pad(n, width)) == Some(n)
  {
    if width > 0 {
      UnpadPad(n / 10, width - 1);
      var s := Pad(n, width);
      assert s[..|s| - 1] == Pad(n / 10, width - 1);
    }
  }

  /** Splits text laid out like `shape` into its numbers. */
  function Read(s: string, shape: seq<Field>): Option<seq<nat>> {
    if shape == [] then (if s == "" then Some([]) else None)
    else
      var w := shape[0].width;
      if |s| <= w || s[w] != shape[0].end then None
      else
        var head, tail := Unpad(s[..w]), Read(s[w + 1..], shape[1..]);
        if head.None? || tail.None? then None else Some([head.value] + tail.value)
  }

  function Values(fs: seq<Field>): seq<nat> {
    if fs == [] then [] else [fs[0].value] + Values(fs[1..])
  }

  lemma {:induction false} ReadWrite(fs: seq<Field>, shape: seq<Field>)
    requires AllFit(fs) && SameLayout(fs, shape)
    ensures Read(Write(fs), shape) == Some(Values(fs))
  {
    if fs != [] {
      assert fs[0].Fits() && fs[0].SameLayout(shape[0]);
      var w := fs[0].width;
      var s := Write(fs);
      assert s[..w] == Pad(fs[0].value, w) && s[w + 1..] == Write(fs[1..]);
      UnpadPad(fs[0].value, w);
      ReadWrite(fs[1..], shape[1..]);
    }
  }

  const SHAPE := [Field(0, 4, '-'), Field(0, 2, '-'), Field(0, 2, 'T'),
                  Field(0, 2, ':'), Field(0, 2, ':'), Field(0, 2, '.'), Field(0, 6, 'Z')]

  /** Parses a stored cursor; anything not in the fixed-width form is an error. */
  function ParseCursor(s: string): Option<int> {
    var v := Read(s, SHAPE);
    if v.None? || |v.value| != 7 then None
    else
      var c := Civil(v.value[0], v.value[1], v.value[2], v.value[3], v.value[4], v.value[5], v.value[6]);
      if c.Valid() then Some(c.ToMicros() * 1000) else None
  }

  /** Reading back a written cursor gives the instant cut to microseconds. */
  lemma CursorRoundTrip(nanos: int)
    requires InRange(nanos)
    ensures ParseCursor(FormatCursor(nanos)) == Some(Micros(nanos) * 1000)
  {
    var c := FromMicros(Micros(nanos));
    var fs := Fields(c);
    FieldsFit(c);
    ReadWrite(fs, SHAPE);
    ValuesOfFields(c);
  }

  lemma ValuesOfFields(c: Civil)
    requires c.Valid()
    ensures Values(Fields(c)) == [c.year, c.month, c.day, c.hour, c.minute, c.second, c.micro]
  {
    var fs := Fields(c);
    assert Values(fs[6..]) == [c.micro];
    forall k | 0 <= k < 6 ensures Values(fs[k..]) == [fs[k].value] + Values(fs[k + 1..]) {
      assert fs[k..][1..] == fs[k + 1..];
    }
    assert Values(fs[3..]) == [c.hour, c.minute, c.second, c.micro];
    assert fs[0..] == fs;
  }

  // ------------------------------------------------------------------
  // From a date to its text
  // ------------------------------------------------------------------

  lemma DayOfMicros(c: Civil)
    requires c.Valid()
    ensures c.ToMicros() / DAY_MICROS + EPOCH_DAY == c.DayNumber()
  {
    var rest := (c.hour * 60 + c.minute) * 60_000_000 + c.second * 1_000_000 + c.micro;
    assert 0 <= rest < DAY_MICROS;
    assert c.ToMicros() == (c.DayNumber() - EPOCH_DAY) * DAY_MICROS + rest;
  }

  lemma MicrosOfDate(c: Civil)
    requires c.Valid()
    ensures MicrosInRange(c.ToMicros())
  {
    DayOfMicros(c);
    DayLiesInYear(c);
    LaterYearsStartLater(0, c.year);
    LaterYearsStartLater(c.year + 1, 10_000);
  }

  lemma SameInstantSameDate(a: Civil, b: Civil)
    requires a.Valid() && b.Valid() && a.ToMicros() == b.ToMicros()
    ensures a == b
  {
    TimeOrderIsCivilOrder(a, b);
    TimeOrderIsCivilOrder(b, a);
  }

  /** Every date is the date of its instant: the calendar goes both ways. */
  lemma DateOfItsMicros(c: Civil)
    requires c.Valid()
    ensures MicrosInRange(c.ToMicros()) && FromMicros(c.ToMicros()) == c
  {
    MicrosOfDate(c);
    SameInstantSameDate(FromMicros(c.ToMicros()), c);
  }

  /** The cursor of a date's instant is the date, written out. */
  lemma TextOfDate(c: Civil)
    requires c.Valid()
    ensures InRange(c.ToMicros() * 1000) && FormatCursor(c.ToMicros() * 1000) == Write(Fields(c))
  {
    DateOfItsMicros(c);
    WholeMicros(c.ToMicros());
  }

  lemma WholeMicros(micros: int)
    ensures Micros(micros * 1000) == micros
  {
  }

  /**
   The layout of a cursor: four digits of the year, two each of month, day, hour, minute
   and second, six of the microseconds, and the separators of RFC 3339.
   */
  lemma CursorLayout(c: Civil)
    requires c.Valid()
    ensures Write(Fields(c)) ==
              (Pad(c.year, 4) + "-") + ((Pad(c.month, 2) + "-") + ((Pad(c.day, 2) + "T") + ((Pad(c.hour, 2) + ":")
                + ((Pad(c.minute, 2) + ":") + ((Pad(c.second, 2) + ".") + (Pad(c.micro, 6) + "Z"))))))
  {
    var fs := Fields(c);
    assert fs[6..] == [fs[6]];
    LastField(fs[6]);
    NextField(fs, 5);
    NextField(fs, 4);
    NextField(fs, 3);
    NextField(fs, 2);
    NextField(fs, 1);
    NextField(fs, 0);
    assert fs[0..] == fs;
  }

  lemma NextField(fs: seq<Field>, k: nat)
    requires k < |fs|
    ensures Write(fs[k..]) == (Pad(fs[k].value, fs[k].width) + [fs[k].end]) + Write(fs[k + 1..])
  {
    assert fs[k..][1..] == fs[k + 1..];
  }

  lemma LastField(f: Field)
    ensures Write([f]) == Pad(f.value, f.width) + [f.end]
  {
    assert [f][1..] == [];
    assert Write([]) == "";
  }

  /** The date of the midnight before each New Year's day; with `EPOCH_DAY` as 1970's, instants count from 1970. */
  lemma NewYearDate(year: int, micros: int)
    requires 0 <= year <= 9999 && micros == (DaysBeforeYear(year) - DaysBeforeYear(1970)) * 86_400_000_000
    ensures MicrosInRange(micros) && FromMicros(micros) == Civil(year, 1, 1, 0, 0, 0, 0)
  {
    EpochIsNewYear1970();
    MidnightOfNewYear(year);
    DateOfItsMicros(Civil(year, 1, 1, 0, 0, 0, 0));
  }

  lemma MidnightOfNewYear(year: int)
    requires 0 <= year <= 9999
    ensures var c := Civil(year, 1, 1, 0, 0, 0, 0);
            c.Valid() && c.ToMicros() == (DaysBeforeYear(year) - EPOCH_DAY) * DAY_MICROS
  {
  }

  /** Where the months start, written out. */
  lemma MonthsStart(leap: bool)
    ensures DaysBeforeMonth(leap, 2) == 31
    ensures var l := if leap then 1 else 0;
            && DaysBeforeMonth(leap, 3) == 59 + l && DaysBeforeMonth(leap, 4) == 90 + l && DaysBeforeMonth(leap, 5) == 120 + l
            && DaysBeforeMonth(leap, 6) == 151 + l && DaysBeforeMonth(leap, 7) == 181 + l && DaysBeforeMonth(leap, 8) == 212 + l
            && DaysBeforeMonth(leap, 9) == 243 + l && DaysBeforeMonth(leap, 10) == 273 + l && DaysBeforeMonth(leap, 11) == 304 + l
            && DaysBeforeMonth(leap, 12) == 334 + l && DaysBeforeMonth(leap, 13) == 365 + l
  {
  }
}
