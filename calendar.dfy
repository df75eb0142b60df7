/** Proleptic Gregorian calendar arithmetic and the two date forms the reservation
    checks hand to JavaScript's `Date`: a bare `YYYY-MM-DD` (read as UTC midnight) and
    `YYYY-MM-DDTHH:MM[:SS]` (read as local wall-clock time). */
module Calendar {
  import opened Js

  const MsPerDay := 86400000

  /** The largest magnitude of a valid time value, in milliseconds (TimeClip). */
  const MaxTime: real := 8640000000000000.0

  datatype Date = Date(year: int, month: int, day: int)

  predicate IsLeapYear(y: int)
  {
    y % 4 == 0 && (y % 100 != 0 || y % 400 == 0)
  }

  function DaysInMonth(y: int, m: int): (n: int)
    requires 1 <= m <= 12
    ensures 28 <= n <= 31
    ensures m == 2 ==> (n == 29 <==> IsLeapYear(y))
  {
    if m == 2 then (if IsLeapYear(y) then 29 else 28)
    else if m == 4 || m == 6 || m == 9 || m == 11 then 30
    else 31
  }

  predicate IsCalendarDate(d: Date)
  {
    1 <= d.month <= 12 && 1 <= d.day <= DaysInMonth(d.year, d.month)
  }

  /** Days from 1970-01-01 to the given day (negative before it). The year is counted
      from March so that the leap day is the last day of a counted year; a day past the
      end of its month simply runs on into the next month. */
  function DaysFromCivil(d: Date): int
    requires 1 <= d.month <= 12
  {
    var y := if d.month <= 2 then d.year - 1 else d.year;
    var era := y / 400;
    var yearOfEra := y % 400;
    var shiftedMonth := if d.month > 2 then d.month - 3 else d.month + 9;
    var dayOfYear := (153 * shiftedMonth + 2) / 5 + d.day - 1;
    var dayOfEra := yearOfEra * 365 + yearOfEra / 4 - yearOfEra / 100 + dayOfYear;
    era * 146097 + dayOfEra - 719468
  }

  /** The calendar day after `d`. */
  function NextDay(d: Date): (n: Date)
    requires IsCalendarDate(d)
    ensures IsCalendarDate(n)
  {
    if d.day < DaysInMonth(d.year, d.month) then Date(d.year, d.month, d.day + 1)
    else if d.month < 12 then Date(d.year, d.month + 1, 1)
    else Date(d.year + 1, 1, 1)
  }

  /** 0 = Sunday ... 6 = Saturday; 1970-01-01 was a Thursday. */
  function WeekDay(days: int): (w: int)
    ensures 0 <= w < 7
  {
    (days + 4) % 7
  }

  /** `getUTCDay()` of a time value. */
  function UtcWeekDay(t: int): (w: int)
    ensures 0 <= w < 7
  {
    WeekDay(t / MsPerDay)
  }

  /** `(n + 1) / 4` exceeds `n / 4` exactly when `n + 1` is a multiple of 4. */
  lemma QuarterStep(n: int)
    ensures (n + 1) / 4 - n / 4 == if (n + 1) % 4 == 0 then 1 else 0
  {
    var q := n / 4;
    assert n == 4 * q + n % 4;
  }

  /** `(n + 1) / 100` exceeds `n / 100` exactly when `n + 1` is a multiple of 100. */
  lemma CenturyStep(n: int)
    ensures (n + 1) / 100 - n / 100 == if (n + 1) % 100 == 0 then 1 else 0
  {
    var q := n / 100;
    assert n == 100 * q + n % 100;
  }

  /** Days before the counted year `y` (March 1st of `y`), from the era and year of era. */
  function CountedYearStart(y: int): int
  {
    (y / 400) * 146097 + (y % 400) * 365 + (y % 400) / 4 - (y % 400) / 100 - 719468
  }

  /** Shifting by whole eras leaves the remainder modulo 4 unchanged. */
  lemma EraShift4(era: int, x: int)
    ensures (400 * era + x) % 4 == x % 4
  {
    var q := 100 * era + x / 4;
    assert 400 * era + x == 4 * q + x % 4;
  }

  /** ... and the remainder modulo 100. */
  lemma EraShift100(era: int, x: int)
    ensures (400 * era + x) % 100 == x % 100
  {
    var q := 4 * era + x / 100;
    assert 400 * era + x == 100 * q + x % 100;
  }

  /** ... and the remainder modulo 400. */
  lemma EraShift400(era: int, x: int)
    ensures (400 * era + x) % 400 == x % 400
  {
    var q := era + x / 400;
    assert 400 * era + x == 400 * q + x % 400;
  }

  /** Leap years seen from the year of era of the preceding counted year. */
  lemma LeapFromYearOfEra(p: int)
    ensures var yoe := p % 400;
      IsLeapYear(p + 1) <==> (yoe + 1) % 4 == 0 && ((yoe + 1) % 100 != 0 || yoe == 399)
  {
    var era, yoe := p / 400, p % 400;
    assert p + 1 == 400 * era + (yoe + 1);
    EraShift4(era, yoe + 1);
    EraShift100(era, yoe + 1);
    EraShift400(era, yoe + 1);
    assert (yoe + 1) % 400 == 0 <==> yoe == 399;
  }

  /** A counted year has 366 days when its February is a leap February, else 365. */
  lemma CountedYearLength(p: int)
    ensures CountedYearStart(p + 1) == CountedYearStart(p) + (if IsLeapYear(p + 1) then 366 else 365)
  {
    var era, yoe := p / 400, p % 400;
    LeapFromYearOfEra(p);
    if yoe == 399 {
      assert p + 1 == 400 * (era + 1);
      assert (p + 1) / 400 == era + 1 && (p + 1) % 400 == 0;
    } else {
      assert p + 1 == 400 * era + (yoe + 1);
      assert (p + 1) / 400 == era && (p + 1) % 400 == yoe + 1;
      QuarterStep(yoe);
      CenturyStep(yoe);
    }
  }

  /** March 1st follows the last day of February, across leap and century years. */
  lemma MarchFirst(y: int)
    ensures DaysFromCivil(Date(y, 3, 1)) == DaysFromCivil(Date(y, 2, DaysInMonth(y, 2))) + 1
  {
    var last := DaysInMonth(y, 2);
    assert DaysFromCivil(Date(y, 2, last)) == CountedYearStart(y - 1) + 336 + last;
    assert DaysFromCivil(Date(y, 3, 1)) == CountedYearStart(y);
    CountedYearLength(y - 1);
  }

  /** The first of the next month follows the last day of a month other than February
      and December, whose months share a counted year. */
  lemma MonthEnd(y: int, m: int)
    requires 1 <= m < 12 && m != 2
    ensures DaysFromCivil(Date(y, m + 1, 1)) == DaysFromCivil(Date(y, m, DaysInMonth(y, m))) + 1
  {
    var start := CountedYearStart(if m <= 2 then y - 1 else y);
    assert DaysFromCivil(Date(y, m + 1, 1)) == start + (153 * (if m + 1 > 2 then m - 2 else m + 10) + 2) / 5;
    assert DaysFromCivil(Date(y, m, DaysInMonth(y, m))) ==
      start + (153 * (if m > 2 then m - 3 else m + 9) + 2) / 5 + DaysInMonth(y, m) - 1;
  }

  /** January 1st follows December 31st: both lie in the same counted year. */
  lemma YearEnd(y: int)
    ensures DaysFromCivil(Date(y + 1, 1, 1)) == DaysFromCivil(Date(y, 12, 31)) + 1
  {
    assert DaysFromCivil(Date(y + 1, 1, 1)) == CountedYearStart(y) + 306;
    assert DaysFromCivil(Date(y, 12, 31)) == CountedYearStart(y) + 275 + 30;
  }

  /** Within a month, the next day is the next day number. */
  lemma WithinMonth(y: int, m: int, day: int)
    requires 1 <= m <= 12
    ensures DaysFromCivil(Date(y, m, day + 1)) == DaysFromCivil(Date(y, m, day)) + 1
  {
  }

  /** Successive calendar days are successive day numbers. */
  lemma NextDayIsOneMore(d: Date)
    requires IsCalendarDate(d)
    ensures DaysFromCivil(NextDay(d)) == DaysFromCivil(d) + 1
  {
    var last := DaysInMonth(d.year, d.month);
    if d.day < last {
      assert NextDay(d) == Date(d.year, d.month, d.day + 1);
      WithinMonth(d.year, d.month, d.day);
    } else if d.month == 2 {
      assert d == Date(d.year, 2, last) && NextDay(d) == Date(d.year, 3, 1);
      MarchFirst(d.year);
    } else if d.month < 12 {
      assert d == Date(d.year, d.month, last) && NextDay(d) == Date(d.year, d.month + 1, 1);
      MonthEnd(d.year, d.month);
    } else {
      assert d == Date(d.year, 12, 31) && NextDay(d) == Date(d.year + 1, 1, 1);
      YearEnd(d.year);
    }
  }

  /** The weekday after day `n` is the next weekday. */
  lemma WeekDaySucc(n: int)
    ensures WeekDay(n + 1) == (WeekDay(n) + 1) % 7
  {
    assert n + 4 == 7 * ((n + 4) / 7) + WeekDay(n);
  }

  /** The day after a given weekday is the next weekday. */
  lemma WeekDayOfNextDay(d: Date)
    requires IsCalendarDate(d)
    ensures WeekDay(DaysFromCivil(NextDay(d))) == (WeekDay(DaysFromCivil(d)) + 1) % 7
  {
    NextDayIsOneMore(d);
    WeekDaySucc(DaysFromCivil(d));
  }

  // ---------------------------------------------------------------------------
  // Parsing the two string forms
  // ---------------------------------------------------------------------------

  /** `YYYY-MM-DD` with a month 1..12 and a day 1..31. */
  function ParseIsoDate(s: string): (r: Option<Date>)
    ensures r.Some? ==> 1 <= r.value.month <= 12 && 1 <= r.value.day <= 31
  {
    if |s| == 10 && s[4] == '-' && s[7] == '-' &&
       AllDigits(s[..4]) && AllDigits(s[5..7]) && AllDigits(s[8..]) then
      var m := DecimalValue(s[5..7]);
      var d := DecimalValue(s[8..]);
      if 1 <= m <= 12 && 1 <= d <= 31 then Some(Date(DecimalValue(s[..4]), m, d)) else None
    else None
  }

  /** `HH:MM` or `HH:MM:SS` as milliseconds into the day; `24:00` is the next midnight. */
  function ParseClock(c: string): (r: Option<int>)
    ensures r.Some? ==> 0 <= r.value <= MsPerDay
  {
    var long := |c| == 8 && c[5] == ':' && AllDigits(c[6..]);
    if (|c| == 5 || long) && c[2] == ':' && AllDigits(c[..2]) && AllDigits(c[3..5]) then
      var h := DecimalValue(c[..2]);
      var m := DecimalValue(c[3..5]);
      var sec := if long then DecimalValue(c[6..]) else 0;
      if (h <= 23 && m <= 59 && sec <= 59) || (h == 24 && m == 0 && sec == 0) then
        Some(((h * 60 + m) * 60 + sec) * 1000)
      else None
    else None
  }

  /** `YYYY-MM-DDTHH:MM[:SS]` as local wall-clock milliseconds since 1970-01-01T00:00. */
  function ParseLocalDateTime(s: string): Option<int>
  {
    if |s| > 10 && s[10] == 'T' then
      match ParseIsoDate(s[..10])
      case None => None
      case Some(d) =>
        match ParseClock(s[11..])
        case None => None
        case Some(ms) => Some(DaysFromCivil(d) * MsPerDay + ms)
    else None
  }

  /** TimeClip: out of range is an Invalid Date, otherwise truncate toward zero. */
  function TimeClip(r: real): (t: Option<int>)
    ensures t.Some? <==> -MaxTime <= r <= MaxTime
  {
    if r > MaxTime || r < -MaxTime then None
    else if r >= 0.0 then Some(r.Floor)
    else Some(-((-r).Floor))
  }

  /** `new Date(v)` for a primitive: the UTC time value, or `None` for an Invalid Date.
      A string is parsed (only the `YYYY-MM-DD` form is modelled); anything else is
      converted to a number of milliseconds. */
  function NewDate(v: Value): Option<int>
  {
    match v
    case Str(s) =>
      (match ParseIsoDate(s)
       case Some(d) => Some(DaysFromCivil(d) * MsPerDay)
       case None => None)
    case Num(n) => TimeClip(n)
    case Bool(b) => TimeClip(if b then 1.0 else 0.0)
    case Null => TimeClip(0.0)
    case Undefined => None
  }

  lemma ParseIsoDateDigits(s: string, y: int, m: int, d: int)
    requires |s| == 10 && s[4] == '-' && s[7] == '-'
    requires AllDigits(s[..4]) && AllDigits(s[5..7]) && AllDigits(s[8..])
    requires y == DecimalValue(s[..4]) && m == DecimalValue(s[5..7]) && d == DecimalValue(s[8..])
    requires 1 <= m <= 12 && 1 <= d <= 31
    ensures ParseIsoDate(s) == Some(Date(y, m, d))
  {
  }

  /** The date the reservation checks use as their Tuesday example falls on a Tuesday. */
  lemma JanuarySecond2024IsTuesday()
    ensures NewDate(Str("2024-01-02")) == Some(19724 * MsPerDay)
    ensures UtcWeekDay(19724 * MsPerDay) == 2
  {
    var s := "2024-01-02";
    assert s[..4] == ['2', '0', '2', '4'];
    assert s[5..7] == ['0', '1'];
    assert s[8..] == ['0', '2'];
    DecimalValue4('2', '0', '2', '4');
    DecimalValue2('0', '1');
    DecimalValue2('0', '2');
    ParseIsoDateDigits(s, 2024, 1, 2);
    assert DaysFromCivil(Date(2024, 1, 2)) == 19724;
  }
}
