/** Time-stamp properties derived from a flow's submit time.

    Time is a count of milliseconds since 1970-01-01T00:00Z, read in one
    fixed-offset zone without daylight saving. Dates are proleptic Gregorian.
    A date is formatted as a pattern of zero-padded decimal fields, as the
    `yyyyMMdd`, `yyyyMMddHH` and `yyyyMMddHHmm` patterns do. */
module CustomDate {
  import opened Common

  // =====================================================================
  // Clock arithmetic

  /** Minutes east of UTC of the zone the scheduler runs in (UTC+8). */
  const ZoneOffsetMinutes: int := 480

  const MillisPerMinute: int := 60000
  const MillisPerHour: int := 3600000
  const MillisPerDay: int := 86400000
  const MinutesPerDay: int := 1440

  /** The local wall-clock minute of an instant, counted from local
      1970-01-01 00:00. Division floors, so instants before 1970 fall in the
      minute that contains them. */
  function LocalMinutes(millis: int): int {
    millis / MillisPerMinute + ZoneOffsetMinutes
  }

  /** The calendar fields `add` is used with here. */
  datatype CalendarField = HourOfDay | Date

  /** `Calendar.add(field, amount)` in a zone without daylight saving: move
      the instant by `amount` hours or days. */
  function CalendarAdd(millis: int, field: CalendarField, amount: int): int {
    millis + amount * (if field == HourOfDay then MillisPerHour else MillisPerDay)
  }

  /** Stepping a calendar back by whole hours steps the local minute back by
      as many hours' worth of minutes. */
  lemma LocalMinutesStep(millis: int, hours: int)
    ensures LocalMinutes(millis - hours * MillisPerHour) == LocalMinutes(millis) - hours * 60
  {
    assert millis - hours * MillisPerHour == millis + (-hours * 60) * MillisPerMinute;
  }

  // =====================================================================
  // The proleptic Gregorian calendar

  predicate IsLeapYear(y: int) {
    y % 4 == 0 && (y % 100 != 0 || y % 400 == 0)
  }

  function DaysInYear(y: int): int {
    if IsLeapYear(y) then 366 else 365
  }

  function DaysInMonth(y: int, m: int): int
    requires 1 <= m <= 12
  {
    if m == 2 then (if IsLeapYear(y) then 29 else 28)
    else if m == 4 || m == 6 || m == 9 || m == 11 then 30
    else 31
  }

  /** Days in the months of year `y` before month `m`. */
  function DaysBeforeMonth(y: int, m: int): int
    requires 1 <= m <= 13
  {
    var common :=
      if m == 1 then 0 else if m == 2 then 31 else if m == 3 then 59 else if m == 4 then 90
      else if m == 5 then 120 else if m == 6 then 151 else if m == 7 then 181 else if m == 8 then 212
      else if m == 9 then 243 else if m == 10 then 273 else if m == 11 then 304 else if m == 12 then 334
      else 365;
    common + (if m > 2 && IsLeapYear(y) then 1 else 0)
  }

  lemma DaysBeforeNextMonth(y: int, m: int)
    requires 1 <= m <= 12
    ensures DaysBeforeMonth(y, m + 1) == DaysBeforeMonth(y, m) + DaysInMonth(y, m)
    ensures DaysBeforeMonth(y, 13) == DaysInYear(y)
  {
  }

  /** Days from 0001-01-01 to January 1 of year `y`. */
  function DaysBeforeYear(y: int): int {
    var p := y - 1;
    365 * p + p / 4 - p / 100 + p / 400
  }

  /** The day count of a date: days since 1970-01-01. */
  function DaysFromCivil(y: int, m: int, d: int): int
    requires 1 <= m <= 12
  {
    DaysBeforeYear(y) + DaysBeforeMonth(y, m) + d - 1 - EpochDays
  }

  /** Days from 0001-01-01 to 1970-01-01. */
  const EpochDays: int := 719162

  lemma NextYear(y: int)
    ensures DaysBeforeYear(y + 1) == DaysBeforeYear(y) + DaysInYear(y)
  {
    var p := y - 1;
    assert y / 4 == p / 4 + (if y % 4 == 0 then 1 else 0) by { Step4(p); }
    assert y / 100 == p / 100 + (if y % 100 == 0 then 1 else 0) by { Step100(p); }
    assert y / 400 == p / 400 + (if y % 400 == 0 then 1 else 0) by { Step400(p); }
  }

  lemma Step4(p: int)
    ensures (p + 1) / 4 == p / 4 + (if (p + 1) % 4 == 0 then 1 else 0)
  {
  }

  lemma Step100(p: int)
    ensures (p + 1) / 100 == p / 100 + (if (p + 1) % 100 == 0 then 1 else 0)
  {
  }

  lemma Step400(p: int)
    ensures (p + 1) / 400 == p / 400 + (if (p + 1) % 400 == 0 then 1 else 0)
  {
  }

  /** Years `1 + 400k` open the 400-year cycles of 146097 days. */
  lemma CycleStart(k: int)
    ensures DaysBeforeYear(1 + 400 * k) == 146097 * k
  {
  }

  /** A year holds every day count from its own first day up to the first
      day of any later year. */
  lemma {:induction false} YearsAscend(y: int, z: int)
    requires y < z
    ensures DaysBeforeYear(y) + DaysInYear(y) <= DaysBeforeYear(z)
    decreases z - y
  {
    NextYear(y);
    if y + 1 < z {
      YearsAscend(y + 1, z);
    }
  }

  /** Walk from January 1 of year `y` forward `r` days: the year reached and
      the day of that year. */
  function YearWalk(y: int, r: nat): (res: (int, nat))
    ensures res.1 < DaysInYear(res.0)
    ensures DaysBeforeYear(res.0) + res.1 == DaysBeforeYear(y) + r
    decreases r
  {
    if r < DaysInYear(y) then (y, r)
    else
      NextYear(y);
      YearWalk(y + 1, r - DaysInYear(y))
  }

  /** Walk from day 1 of month `m` forward `r` days, within the year. */
  function MonthWalk(y: int, m: int, r: nat): (res: (int, int))
    requires 1 <= m <= 12
    requires r < DaysInYear(y) - DaysBeforeMonth(y, m)
    ensures 1 <= res.0 <= 12 && 1 <= res.1 <= DaysInMonth(y, res.0)
    ensures DaysBeforeMonth(y, res.0) + res.1 - 1 == DaysBeforeMonth(y, m) + r
    decreases 12 - m
  {
    DaysBeforeNextMonth(y, m);
    if r < DaysInMonth(y, m) then (m, r + 1)
    else MonthWalk(y, m + 1, r - DaysInMonth(y, m))
  }

  datatype CivilDate = CivilDate(year: int, month: int, day: int)

  predicate ValidDate(c: CivilDate) {
    1 <= c.month <= 12 && 1 <= c.day <= DaysInMonth(c.year, c.month)
  }

  /** The date of day count `n` (days since 1970-01-01). */
  function CivilFromDays(n: int): (c: CivilDate)
    ensures ValidDate(c)
  {
    var a := n + EpochDays;
    var cycle := a / 146097;
    var (y, r) := YearWalk(1 + 400 * cycle, a % 146097);
    DaysBeforeNextMonth(y, 12);
    var (m, d) := MonthWalk(y, 1, r);
    CivilDate(y, m, d)
  }

  /** Counting days and reading dates are inverse: every day count names a
      valid date that counts back to it ... */
  lemma CivilRoundTrip(n: int)
    ensures var c := CivilFromDays(n); DaysFromCivil(c.year, c.month, c.day) == n
  {
    var a := n + EpochDays;
    CycleStart(a / 146097);
  }

  /** ... and every valid date is the date of its own day count. */
  lemma DaysRoundTrip(c: CivilDate)
    requires ValidDate(c)
    ensures CivilFromDays(DaysFromCivil(c.year, c.month, c.day)) == c
  {
    var n := DaysFromCivil(c.year, c.month, c.day);
    var c' := CivilFromDays(n);
    CivilRoundTrip(n);
    DaysBeforeNextMonth(c.year, c.month);
    DaysBeforeNextMonth(c'.year, c'.month);
    MonthDaysWithinYear(c.year, c.month);
    MonthDaysWithinYear(c'.year, c'.month);
    if c'.year < c.year {
      YearsAscend(c'.year, c.year);
    } else if c.year < c'.year {
      YearsAscend(c.year, c'.year);
    }
    assert c'.year == c.year;
    SameYearSameMonth(c.year, c.month, c.day, c'.month, c'.day);
  }

  lemma MonthDaysWithinYear(y: int, m: int)
    requires 1 <= m <= 12
    ensures DaysBeforeMonth(y, m) + DaysInMonth(y, m) <= DaysInYear(y)
  {
  }

  lemma SameYearSameMonth(y: int, m: int, d: int, m': int, d': int)
    requires 1 <= m <= 12 && 1 <= d <= DaysInMonth(y, m)
    requires 1 <= m' <= 12 && 1 <= d' <= DaysInMonth(y, m')
    requires DaysBeforeMonth(y, m) + d == DaysBeforeMonth(y, m') + d'
    ensures m == m' && d == d'
  {
  }

  // =====================================================================
  // Wall-clock fields of an instant

  datatype DateTime = DateTime(year: int, month: int, day: int, hour: int, minute: int)

  /** The local day count of an instant. */
  function DayNumber(millis: int): int {
    LocalMinutes(millis) / MinutesPerDay
  }

  /** The calendar fields of an instant in the zone. */
  function FieldsOf(millis: int): (dt: DateTime)
    ensures ValidDate(CivilDate(dt.year, dt.month, dt.day))
    ensures 0 <= dt.hour < 24 && 0 <= dt.minute < 60
  {
    var lm := LocalMinutes(millis);
    var c := CivilFromDays(lm / MinutesPerDay);
    var inDay := lm % MinutesPerDay;
    DateTime(c.year, c.month, c.day, inDay / 60, inDay % 60)
  }

  /** The fields are the instant's local minute, and nothing else. */
  lemma FieldsCountMinutes(millis: int)
    ensures var dt := FieldsOf(millis);
      DaysFromCivil(dt.year, dt.month, dt.day) * MinutesPerDay + dt.hour * 60 + dt.minute == LocalMinutes(millis)
  {
    CivilRoundTrip(LocalMinutes(millis) / MinutesPerDay);
  }

  /** One hour back is the same day unless the instant lies in the first
      hour of its day, and then it is the day before; the local hour goes
      back by one, round the clock. */
  lemma HourBack(millis: int)
    ensures DayNumber(CalendarAdd(millis, HourOfDay, -1))
         == DayNumber(millis) - (if FieldsOf(millis).hour == 0 then 1 else 0)
    ensures FieldsOf(CalendarAdd(millis, HourOfDay, -1)).hour == (FieldsOf(millis).hour + 23) % 24
  {
    LocalMinutesStep(millis, 1);
    MinuteBack(LocalMinutes(millis));
    assert CalendarAdd(millis, HourOfDay, -1) == millis - 1 * MillisPerHour;
  }

  lemma MinuteBack(lm: int)
    ensures (lm - 60) / 1440 == lm / 1440 - (if (lm % 1440) / 60 == 0 then 1 else 0)
    ensures ((lm - 60) % 1440) / 60 == ((lm % 1440) / 60 + 23) % 24
    ensures (lm - 1440) / 1440 == lm / 1440 - 1 && (lm - 1440) % 1440 == lm % 1440
  {
    var q, r := lm / 1440, lm % 1440;
    DayDivision(lm - 1440, q - 1, r);
    if r >= 60 {
      DayDivision(lm - 60, q, r - 60);
      HourDivision(r - 60, r / 60 - 1, r % 60);
    } else {
      DayDivision(lm - 60, q - 1, r + 1380);
      HourDivision(r + 1380, 23, r);
    }
  }

  lemma DayDivision(x: int, q: int, r: int)
    requires 0 <= r < 1440 && x == 1440 * q + r
    ensures x / 1440 == q && x % 1440 == r
  {
  }

  lemma HourDivision(x: int, q: int, r: int)
    requires 0 <= r < 60 && x == 60 * q + r
    ensures x / 60 == q && x % 60 == r
  {
  }

  /** One day back is the day before, at the same wall-clock time. */
  lemma DayBack(millis: int)
    ensures DayNumber(CalendarAdd(millis, Date, -1)) == DayNumber(millis) - 1
    ensures FieldsOf(CalendarAdd(millis, Date, -1)).hour == FieldsOf(millis).hour
    ensures FieldsOf(CalendarAdd(millis, Date, -1)).minute == FieldsOf(millis).minute
  {
    LocalMinutesStep(millis, 24);
    MinuteBack(LocalMinutes(millis));
    assert CalendarAdd(millis, Date, -1) == millis - 24 * MillisPerHour;
  }

  /** The date a day count names is the day before the next one's. */
  lemma DayBeforeIsPreviousDate(millis: int)
    ensures var c := CivilFromDays(DayNumber(millis) - 1);
      DaysFromCivil(c.year, c.month, c.day) + 1 == DaysFromCivil(FieldsOf(millis).year, FieldsOf(millis).month, FieldsOf(millis).day)
  {
    CivilRoundTrip(DayNumber(millis) - 1);
    CivilRoundTrip(DayNumber(millis));
  }

  // =====================================================================
  // Formatting

  /** The pattern letters used: `yyyy`, `MM`, `dd`, `HH`, `mm`. */
  datatype Letter = Year | Month | Day | Hour | Minute

  const DayFormat: seq<Letter> := [Year, Month, Day]
  const HourFormat: seq<Letter> := [Year, Month, Day, Hour]
  const MinuteFormat: seq<Letter> := [Year, Month, Day, Hour, Minute]

  function DigitChar(d: int): char
    requires 0 <= d < 10
  {
    (48 + d) as char
  }

  predicate IsDigit(c: char) {
    '0' <= c <= '9'
  }

  /** The decimal digits of `n`, most significant first, without leading
      zeros. */
  function Digits(n: nat): (s: string)
    ensures |s| >= 1
    decreases n
  {
    if n < 10 then [DigitChar(n)] else Digits(n / 10) + [DigitChar(n % 10)]
  }

  function Zeros(k: nat): (s: string)
    ensures |s| == k
  {
    seq(k, i => '0')
  }

  /** A field printed in at least `width` digits, zero-padded on the left. */
  function Pad(n: nat, width: nat): string {
    var ds := Digits(n);
    (if |ds| < width then Zeros(width - |ds|) else []) + ds
  }

  function DigitValue(c: char): nat {
    if IsDigit(c) then c as int - 48 else 0
  }

  /** The number a string of digits spells. */
  function ParseDigits(s: string): nat
    decreases |s|
  {
    if |s| == 0 then 0 else ParseDigits(s[..|s| - 1]) * 10 + DigitValue(s[|s| - 1])
  }

  function Pow10(w: nat): (p: nat)
    ensures p >= 1
  {
    if w == 0 then 1 else 10 * Pow10(w - 1)
  }

  lemma {:induction false} DigitsRoundTrip(n: nat)
    ensures ParseDigits(Digits(n)) == n
    decreases n
  {
    var s := Digits(n);
    if n >= 10 {
      DigitsRoundTrip(n / 10);
      assert s[..|s| - 1] == Digits(n / 10);
    }
  }

  lemma {:induction false} DigitsLength(n: nat, w: nat)
    requires w >= 1 && n < Pow10(w)
    ensures |Digits(n)| <= w
    decreases n
  {
    if n >= 10 {
      DigitsLength(n / 10, w - 1);
    }
  }

  lemma {:induction false} LeadingZeros(k: nat, s: string)
    ensures ParseDigits(Zeros(k) + s) == ParseDigits(s)
    decreases |s|
  {
    var z := Zeros(k) + s;
    if |s| == 0 {
      assert z == Zeros(k);
      ZerosParse(k);
    } else {
      assert z[..|z| - 1] == Zeros(k) + s[..|s| - 1];
      LeadingZeros(k, s[..|s| - 1]);
    }
  }

  lemma {:induction false} ZerosParse(k: nat)
    ensures ParseDigits(Zeros(k)) == 0
    decreases k
  {
    if k > 0 {
      assert Zeros(k)[..k - 1] == Zeros(k - 1);
      ZerosParse(k - 1);
    }
  }

  /** A padded field reads back as its value, and fills exactly its width
      whenever the value fits in it. */
  lemma PadRoundTrip(n: nat, width: nat)
    ensures ParseDigits(Pad(n, width)) == n
    ensures width >= 1 && n < Pow10(width) ==> |Pad(n, width)| == width
  {
    var ds := Digits(n);
    DigitsRoundTrip(n);
    if |ds| < width {
      LeadingZeros(width - |ds|, ds);
    } else {
      assert Pad(n, width) == ds;
    }
    if width >= 1 && n < Pow10(width) {
      DigitsLength(n, width);
    }
  }

  /** `yyyy` prints the year of the era: year 0 is 1 BC, year -1 is 2 BC. */
  function YearOfEra(y: int): nat {
    if y >= 1 then y else 1 - y
  }

  /** The printed text of every field of a date and time. */
  datatype FieldTexts = FieldTexts(year: string, month: string, day: string, hour: string, minute: string)

  function TextsOf(dt: DateTime): FieldTexts {
    FieldTexts(Pad(YearOfEra(dt.year), 4), Pad(if dt.month < 0 then 0 else dt.month, 2),
               Pad(if dt.day < 0 then 0 else dt.day, 2), Pad(if dt.hour < 0 then 0 else dt.hour, 2),
               Pad(if dt.minute < 0 then 0 else dt.minute, 2))
  }

  function FieldText(f: Letter, t: FieldTexts): string {
    match f
    case Year => t.year
    case Month => t.month
    case Day => t.day
    case Hour => t.hour
    case Minute => t.minute
  }

  /** The fields of a pattern, printed one after the other. */
  function Render(pattern: seq<Letter>, t: FieldTexts): string
    decreases |pattern|
  {
    if |pattern| == 0 then [] else Render(pattern[..|pattern| - 1], t) + FieldText(pattern[|pattern| - 1], t)
  }

  lemma {:induction false} RenderAppend(p: seq<Letter>, q: seq<Letter>, t: FieldTexts)
    ensures Render(p + q, t) == Render(p, t) + Render(q, t)
    decreases |q|
  {
    if |q| == 0 {
      assert p + q == p;
    } else {
      var init := q[..|q| - 1];
      assert (p + q)[..|p + q| - 1] == p + init;
      RenderAppend(p, init, t);
    }
  }

  /** `SimpleDateFormat.format` of an instant in the zone. */
  function Format(pattern: seq<Letter>, millis: int): string {
    Render(pattern, TextsOf(FieldsOf(millis)))
  }

  /** The three patterns nest: the day text starts the hour text, which
      starts the minute text. For years 1 to 9999 they are 8, 10 and 12
      digits long, and their digit groups read back as the local year,
      month, day, hour and minute. */
  lemma FormatsNest(millis: int)
    ensures var day, hour, minute := Format(DayFormat, millis), Format(HourFormat, millis), Format(MinuteFormat, millis);
      && day <= hour && hour <= minute
      && (1 <= FieldsOf(millis).year <= 9999 ==>
            |day| == 8 && |hour| == 10 && |minute| == 12
            && ParseDigits(minute[..4]) == FieldsOf(millis).year
            && ParseDigits(minute[4..6]) == FieldsOf(millis).month
            && ParseDigits(minute[6..8]) == FieldsOf(millis).day
            && ParseDigits(minute[8..10]) == FieldsOf(millis).hour
            && ParseDigits(minute[10..12]) == FieldsOf(millis).minute)
  {
    var dt := FieldsOf(millis);
    var t := TextsOf(dt);
    assert Format(DayFormat, millis) == Render(DayFormat, t);
    assert Format(HourFormat, millis) == Render(HourFormat, t);
    assert Format(MinuteFormat, millis) == Render(MinuteFormat, t);
    PatternsNest(t);
    if 1 <= dt.year <= 9999 {
      TextsReadBack(dt);
      SliceFive(t.year, t.month, t.day, t.hour, t.minute);
    }
  }

  lemma PatternsNest(t: FieldTexts)
    ensures Render(DayFormat, t) == t.year + t.month + t.day
    ensures Render(HourFormat, t) == Render(DayFormat, t) + t.hour
    ensures Render(MinuteFormat, t) == Render(HourFormat, t) + t.minute
  {
    assert Render([Year], t) == t.year by { assert [Year][..0] == []; }
    assert Render([Year, Month], t) == t.year + t.month by { assert [Year, Month][..1] == [Year]; }
    assert DayFormat[..2] == [Year, Month];
    assert HourFormat[..3] == DayFormat;
    assert MinuteFormat[..4] == HourFormat;
  }

  lemma TextsReadBack(dt: DateTime)
    requires 1 <= dt.year <= 9999 && 1 <= dt.month <= 12 && 1 <= dt.day <= 31
    requires 0 <= dt.hour < 24 && 0 <= dt.minute < 60
    ensures var t := TextsOf(dt);
      && |t.year| == 4 && |t.month| == 2 && |t.day| == 2 && |t.hour| == 2 && |t.minute| == 2
      && ParseDigits(t.year) == dt.year && ParseDigits(t.month) == dt.month && ParseDigits(t.day) == dt.day
      && ParseDigits(t.hour) == dt.hour && ParseDigits(t.minute) == dt.minute
  {
    assert Pow10(2) == 100 && Pow10(4) == 10000 by {
      assert Pow10(1) == 10;
      assert Pow10(3) == 1000;
    }
    PadRoundTrip(dt.year, 4);
    PadRoundTrip(dt.month, 2);
    PadRoundTrip(dt.day, 2);
    PadRoundTrip(dt.hour, 2);
    PadRoundTrip(dt.minute, 2);
  }

  lemma SliceFive(y: string, mo: string, d: string, h: string, mi: string)
    requires |y| == 4 && |mo| == 2 && |d| == 2 && |h| == 2 && |mi| == 2
    ensures var s := y + mo + d + h + mi;
      s[..4] == y && s[4..6] == mo && s[6..8] == d && s[8..10] == h && s[10..12] == mi
  {
  }

  // =====================================================================
  // Property keys and flags

  const CustomDayKey: string := "custom.day"
  const CustomLastDayKey: string := "custom.last.day"
  const CustomHourKey: string := "custom.hour"
  const CustomLastHourKey: string := "custom.last.hour"
  const CustomMinuteKey: string := "custom.minute"
  const CustomTimeKey: string := "custom.time"

  /** The spellings of the four flags a flow may carry (the `CUSTOM_*`
      constants of `ExecutableNode`, in the order they are tested). */
  datatype FlagNames = FlagNames(lastHour: string, lastDay: string, hour: string, day: string)

  /** `String.trim`: drop every leading and trailing character at or below
      the space character. */
  function Trim(s: string): (t: string)
    ensures |t| <= |s|
    decreases |s|
  {
    if |s| == 0 then s
    else if s[0] <= ' ' then Trim(s[1..])
    else if s[|s| - 1] <= ' ' then Trim(s[..|s| - 1])
    else s
  }

  /** A flag is blank when trimming leaves nothing. */
  predicate IsBlank(s: string) {
    |Trim(s)| == 0
  }

  /** Trimming leaves nothing exactly when every character is at or below
      the space character. */
  lemma {:induction false} BlankMeansSpaces(s: string)
    ensures IsBlank(s) <==> forall i :: 0 <= i < |s| ==> s[i] <= ' '
    decreases |s|
  {
    if |s| > 0 {
      if s[0] <= ' ' {
        BlankMeansSpaces(s[1..]);
        assert forall i :: 1 <= i < |s| ==> s[i] == s[1..][i - 1];
      } else if s[|s| - 1] <= ' ' {
        BlankMeansSpaces(s[..|s| - 1]);
        assert s[0] == s[..|s| - 1][0];
      }
    }
  }

  /** `getCustomTime`: nothing for a missing or blank flag; otherwise the
      time text the flag names, or an error for a flag that names none. */
  function GetCustomTime(submitTime: int, customTimeFlag: Option<string>, names: FlagNames): Result<Option<string>> {
    if customTimeFlag.None? || IsBlank(customTimeFlag.value) then Success(None)
    else
      var flag := customTimeFlag.value;
      if flag == names.lastHour then Success(Some(Format(HourFormat, CalendarAdd(submitTime, HourOfDay, -1))))
      else if flag == names.lastDay then Success(Some(Format(DayFormat, CalendarAdd(submitTime, Date, -1))))
      else if flag == names.hour then Success(Some(Format(HourFormat, submitTime)))
      else if flag == names.day then Success(Some(Format(DayFormat, submitTime)))
      else Failure(UnknownFlag(flag))
  }

  predicate IsKnownFlag(flag: string, names: FlagNames) {
    flag == names.lastHour || flag == names.lastDay || flag == names.hour || flag == names.day
  }

  /** `getCustomTime` answers null exactly for a missing or blank flag, and
      fails exactly for a non-blank flag that is none of the four. */
  lemma GetCustomTimeOutcomes(submitTime: int, customTimeFlag: Option<string>, names: FlagNames)
    ensures var r := GetCustomTime(submitTime, customTimeFlag, names);
      && (r == Success(None) <==> customTimeFlag.None? || forall i :: 0 <= i < |customTimeFlag.value| ==> customTimeFlag.value[i] <= ' ')
      && (r.Failure? <==> customTimeFlag.Some? && !IsBlank(customTimeFlag.value) && !IsKnownFlag(customTimeFlag.value, names))
      && (r.Failure? ==> r.error == UnknownFlag(customTimeFlag.value))
  {
    if customTimeFlag.Some? {
      BlankMeansSpaces(customTimeFlag.value);
    }
  }

  /** What each flag selects, read on the calendar: the hour flags give the
      local hour of the submit time or of the hour before it, the day flags
      the local date of the submit time or of the day before it. */
  lemma GetCustomTimeMeaning(submitTime: int, names: FlagNames)
    requires !IsBlank(names.lastHour) && !IsBlank(names.lastDay) && !IsBlank(names.hour) && !IsBlank(names.day)
    requires names.lastHour != names.lastDay && names.lastHour != names.hour && names.lastHour != names.day
    requires names.lastDay != names.hour && names.lastDay != names.day && names.hour != names.day
    ensures GetCustomTime(submitTime, Some(names.hour), names) == Success(Some(Format(HourFormat, submitTime)))
    ensures GetCustomTime(submitTime, Some(names.day), names) == Success(Some(Format(DayFormat, submitTime)))
    ensures var before := CalendarAdd(submitTime, HourOfDay, -1);
      && GetCustomTime(submitTime, Some(names.lastHour), names) == Success(Some(Format(HourFormat, before)))
      && FieldsOf(before).hour == (FieldsOf(submitTime).hour + 23) % 24
      && DayNumber(before) == DayNumber(submitTime) - (if FieldsOf(submitTime).hour == 0 then 1 else 0)
    ensures var yesterday := CalendarAdd(submitTime, Date, -1);
      && GetCustomTime(submitTime, Some(names.lastDay), names) == Success(Some(Format(DayFormat, yesterday)))
      && DayNumber(yesterday) == DayNumber(submitTime) - 1
  {
    LastHourFlagSelects(submitTime, names);
    LastDayFlagSelects(submitTime, names);
    HourFlagSelects(submitTime, names);
    DayFlagSelects(submitTime, names);
    DayBack(submitTime);
    HourBack(submitTime);
  }

  /** The dispatch of `getCustomTime`, flag by flag: the four flags are
      tested in order, so a non-blank flag selects its own time text as
      long as it differs from the flags tested before it. */
  lemma LastHourFlagSelects(submitTime: int, names: FlagNames)
    requires !IsBlank(names.lastHour)
    ensures GetCustomTime(submitTime, Some(names.lastHour), names) == Success(Some(Format(HourFormat, CalendarAdd(submitTime, HourOfDay, -1))))
  {
  }

  lemma LastDayFlagSelects(submitTime: int, names: FlagNames)
    requires !IsBlank(names.lastDay) && names.lastDay != names.lastHour
    ensures GetCustomTime(submitTime, Some(names.lastDay), names) == Success(Some(Format(DayFormat, CalendarAdd(submitTime, Date, -1))))
  {
  }

  lemma HourFlagSelects(submitTime: int, names: FlagNames)
    requires !IsBlank(names.hour) && names.hour != names.lastHour && names.hour != names.lastDay
    ensures GetCustomTime(submitTime, Some(names.hour), names) == Success(Some(Format(HourFormat, submitTime)))
  {
  }

  lemma DayFlagSelects(submitTime: int, names: FlagNames)
    requires !IsBlank(names.day) && names.day != names.lastHour && names.day != names.lastDay && names.day != names.hour
    ensures GetCustomTime(submitTime, Some(names.day), names) == Success(Some(Format(DayFormat, submitTime)))
  {
  }

  // =====================================================================
  // Property bags and the two writers

  /** The job properties the writers fill in. */
  class Props {
    var entries: map<string, string>

    constructor ()
      ensures entries == map[]
    {
      entries := map[];
    }

    /** `Props.put`: set one key, replacing any earlier value. */
    method Put(key: string, value: string)
      modifies this
      ensures entries == old(entries)[key := value]
    {
      entries := entries[key := value];
    }
  }

  /** The five date keys written from instant `t` and from instants stepped
      back from it: one hour back for the last hour, then one day further
      back for the last day, because both steps move the same calendar. */
  function DateProps(entries: map<string, string>, t: int): map<string, string> {
    PutDates(entries, DateTextsOf(t))
  }

  /** The five date texts, in the order they are written. */
  datatype DateTexts = DateTexts(day: string, hour: string, minute: string, lastHour: string, lastDay: string)

  function DateTextsOf(t: int): DateTexts {
    DateTexts(Format(DayFormat, t), Format(HourFormat, t), Format(MinuteFormat, t),
              Format(HourFormat, CalendarAdd(t, HourOfDay, -1)),
              Format(DayFormat, CalendarAdd(CalendarAdd(t, HourOfDay, -1), Date, -1)))
  }

  function PutDates(entries: map<string, string>, d: DateTexts): map<string, string> {
    entries[CustomDayKey := d.day][CustomHourKey := d.hour][CustomMinuteKey := d.minute]
           [CustomLastHourKey := d.lastHour][CustomLastDayKey := d.lastDay]
  }

  /** What the date keys mean: day, hour and minute of `t` nest; the last
      hour is the hour before `t`, and is what the last-hour flag selects;
      the last day is the day before the last hour's, so it is yesterday's
      date except during the first hour of the day, when it is the day
      before yesterday. Other keys keep their values. */
  lemma DatePropsMeaning(entries: map<string, string>, t: int, names: FlagNames)
    ensures var p := DateProps(entries, t);
      && p[CustomDayKey] <= p[CustomHourKey] <= p[CustomMinuteKey]
      && (!IsBlank(names.lastHour) ==> GetCustomTime(t, Some(names.lastHour), names) == Success(Some(p[CustomLastHourKey])))
      && (var lastDay := CalendarAdd(CalendarAdd(t, HourOfDay, -1), Date, -1);
          && p[CustomLastDayKey] == Format(DayFormat, lastDay)
          && DayNumber(lastDay) == DayNumber(t) - 1 - (if FieldsOf(t).hour == 0 then 1 else 0))
      && (forall k :: k in entries && k !in {CustomDayKey, CustomHourKey, CustomMinuteKey, CustomLastHourKey, CustomLastDayKey}
            ==> k in p && p[k] == entries[k])
  {
    PutDatesLookup(entries, DateTextsOf(t));
    FormatsNest(t);
    HourBack(t);
    DayBack(CalendarAdd(t, HourOfDay, -1));
  }

  /** The six keys are distinct, so each put lands on its own key. */
  lemma PutDatesLookup(entries: map<string, string>, d: DateTexts)
    ensures var p := PutDates(entries, d);
      && p[CustomDayKey] == d.day && p[CustomHourKey] == d.hour && p[CustomMinuteKey] == d.minute
      && p[CustomLastHourKey] == d.lastHour && p[CustomLastDayKey] == d.lastDay
      && (forall k :: k in entries && k !in {CustomDayKey, CustomHourKey, CustomMinuteKey, CustomLastHourKey, CustomLastDayKey}
            ==> k in p && p[k] == entries[k])
  {
    assert |CustomDayKey| == 10 && |CustomLastDayKey| == 15 && |CustomHourKey| == 11;
    assert |CustomLastHourKey| == 16 && |CustomMinuteKey| == 13;
  }

  /** `customDate`: for a known, non-zero submit time, write the five date
      keys from it; for a missing or zero submit time write nothing (the
      error is swallowed). */
  method CustomDate(props: Props, submitTime: Option<int>)
    modifies props
    ensures submitTime.None? || submitTime.value == 0 ==> props.entries == old(props.entries)
    ensures submitTime.Some? && submitTime.value != 0 ==> props.entries == DateProps(old(props.entries), submitTime.value)
  {
    if submitTime.None? || submitTime.value == 0 {
      return;
    }
    PutDateKeys(props, submitTime.value);
  }

  /** The five puts both writers end with: day, hour and minute of the
      calendar's instant, then the hour after stepping it back one hour, then
      the day after stepping it back one more day. */
  method PutDateKeys(props: Props, t: int)
    modifies props
    ensures props.entries == DateProps(old(props.entries), t)
  {
    var cal := t;
    PutCurrentKeys(props, cal);
    cal := CalendarAdd(cal, HourOfDay, -1);
    props.Put(CustomLastHourKey, Format(HourFormat, cal));
    cal := CalendarAdd(cal, Date, -1);
    props.Put(CustomLastDayKey, Format(DayFormat, cal));
  }

  method PutCurrentKeys(props: Props, cal: int)
    modifies props
    ensures props.entries == old(props.entries)[CustomDayKey := Format(DayFormat, cal)]
      [CustomHourKey := Format(HourFormat, cal)][CustomMinuteKey := Format(MinuteFormat, cal)]
  {
    props.Put(CustomDayKey, Format(DayFormat, cal));
    props.Put(CustomHourKey, Format(HourFormat, cal));
    props.Put(CustomMinuteKey, Format(MinuteFormat, cal));
  }

  /** The `custom.time` key `customTime` writes for a flag: the text
      `getCustomTime` gives, or no change for a missing or blank flag. */
  function TimeProps(entries: map<string, string>, chosen: Result<Option<string>>): map<string, string> {
    if chosen.Success? && chosen.value.Some? then entries[CustomTimeKey := chosen.value.value] else entries
  }

  /** `customTime`: the flag's time text from the submit time (the current
      time when there is none) goes to `custom.time`; then the five date
      keys are written from the current time `now`, whatever the submit
      time. An unknown flag fails before any key is written. */
  method CustomTime(props: Props, submitTime: Option<int>, customTimeFlag: Option<string>, now: int, names: FlagNames)
    returns (r: Outcome)
    modifies props
    ensures var chosen := GetCustomTime(if submitTime.Some? then submitTime.value else now, customTimeFlag, names);
      && (r.Fail? <==> chosen.Failure?)
      && (r.Fail? ==> r.error == chosen.error && props.entries == old(props.entries))
      && (r.Pass? ==> props.entries == DateProps(TimeProps(old(props.entries), chosen), now))
  {
    var cal := if submitTime.Some? then submitTime.value else now;
    var anotherCal := now;
    r := PutCustomTime(props, cal, customTimeFlag, names);
    if r.Fail? {
      return;
    }
    PutDateKeys(props, anotherCal);
  }

  /** The flag dispatch of `customTime`: step the calendar back as the flag
      says and write its text to `custom.time`; write nothing for a missing
      or blank flag; fail, writing nothing, for an unknown one. */
  method PutCustomTime(props: Props, cal: int, customTimeFlag: Option<string>, names: FlagNames) returns (r: Outcome)
    modifies props
    ensures var chosen := GetCustomTime(cal, customTimeFlag, names);
      && (r.Fail? <==> chosen.Failure?)
      && (r.Fail? ==> r.error == chosen.error && props.entries == old(props.entries))
      && (r.Pass? ==> props.entries == TimeProps(old(props.entries), chosen))
  {
    r := Pass;
    if customTimeFlag.Some? && |Trim(customTimeFlag.value)| != 0 {
      var flag := customTimeFlag.value;
      var cal := cal;
      if flag == names.lastHour {
        cal := CalendarAdd(cal, HourOfDay, -1);
        props.Put(CustomTimeKey, Format(HourFormat, cal));
      } else if flag == names.lastDay {
        cal := CalendarAdd(cal, Date, -1);
        props.Put(CustomTimeKey, Format(DayFormat, cal));
      } else if flag == names.hour {
        props.Put(CustomTimeKey, Format(HourFormat, cal));
      } else if flag == names.day {
        props.Put(CustomTimeKey, Format(DayFormat, cal));
      } else {
        r := Fail(UnknownFlag(flag));
      }
    }
  }

  /** In what `customTime` writes, only `custom.time` depends on the submit
      time: two runs that differ only in the submit time agree on every
      other key. */
  lemma OnlyCustomTimeFollowsSubmitTime(entries: map<string, string>, a: Result<Option<string>>, b: Result<Option<string>>, now: int)
    ensures var p, q := DateProps(TimeProps(entries, a), now), DateProps(TimeProps(entries, b), now);
      forall k :: k != CustomTimeKey ==> (k in p <==> k in q) && (k in p ==> p[k] == q[k])
  {
    var d := DateTextsOf(now);
    var ma, mb := TimeProps(entries, a), TimeProps(entries, b);
    assert forall k :: k != CustomTimeKey ==> (k in ma <==> k in mb) && (k in ma ==> ma[k] == mb[k]);
    PutDatesAgree(ma, mb, d);
  }

  lemma PutDatesAgree(ma: map<string, string>, mb: map<string, string>, d: DateTexts)
    requires forall k :: k != CustomTimeKey ==> (k in ma <==> k in mb) && (k in ma ==> ma[k] == mb[k])
    ensures var p, q := PutDates(ma, d), PutDates(mb, d);
      forall k :: k != CustomTimeKey ==> (k in p <==> k in q) && (k in p ==> p[k] == q[k])
  {
  }
}
