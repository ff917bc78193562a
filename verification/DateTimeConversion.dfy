/** datetime.c: validation and the two conversions. */
module DateTimeConversion {
  import opened Calendar

  // ---------------------------------------------------------------- to a timestamp

  /** Unsigned arithmetic on 32 bits. */
  function U32(x: int): u32 {
    x % 0x1_0000_0000
  }

  lemma AddWraps(x: int, y: int)
    ensures U32(U32(x) + y) == U32(x + y)
  {
  }

  /** The years from the epoch up to a year that are leap years, or not. */
  function CountYears(year: nat, leap: bool): nat {
    if year <= EPOCH_START_YEAR then 0
    else CountYears(year - 1, leap) + if IsLeapYear(year - 1) == leap then 1 else 0
  }

  /** What datetime_datetime_to_timestamp adds up, with year counters of 8 bits. */
  function Stamp(d: DateTime): u32
    requires d.month <= 13
  {
    var days := 365 * (CountYears(d.year, false) % 0x100) + 366 * (CountYears(d.year, true) % 0x100)
                + DaysBeforeMonth(IsLeapYear(d.year), d.month) + d.day - 1;
    U32(SECONDS_PER_DAY * days + TimeOfDay(d))
  }

  lemma OneMore(n: nat)
    ensures (n % 0x100 + 1) % 0x100 == (n + 1) % 0x100
  {
  }

  // the first loop of datetime_datetime_to_timestamp
  method YearCounters(year: u16) returns (years: u8, leapYears: u8)
    ensures years == CountYears(year, false) % 0x100 && leapYears == CountYears(year, true) % 0x100
  {
    years, leapYears := 0, 0;
    var y: nat := EPOCH_START_YEAR;
    while y < year
      invariant y <= year || y == EPOCH_START_YEAR
      invariant years == CountYears(y, false) % 0x100 && leapYears == CountYears(y, true) % 0x100
    {
      OneMore(CountYears(y, true));
      OneMore(CountYears(y, false));
      if IsLeapYear(y) {
        leapYears := (leapYears + 1) % 0x100;
      } else {
        years := (years + 1) % 0x100;
      }
      y := y + 1;
    }
  }

  // the second loop of datetime_datetime_to_timestamp
  method AddMonths(start: u32, leap: bool, month: nat, ghost before: int) returns (timestamp: u32)
    requires month <= 13 && start == U32(before)
    ensures timestamp == U32(before + SECONDS_PER_DAY * DaysBeforeMonth(leap, month))
  {
    timestamp := start;
    var m := 1;
    while m < month
      invariant 1 <= m && (m <= month || m == 1)
      invariant timestamp == U32(before + SECONDS_PER_DAY * DaysBeforeMonth(leap, m))
    {
      AddWraps(before + SECONDS_PER_DAY * DaysBeforeMonth(leap, m), SECONDS_PER_DAY * DaysPerMonth(leap, m));
      timestamp := U32(timestamp + SECONDS_PER_DAY * DaysPerMonth(leap, m));
      m := m + 1;
    }
  }

  // the rest of datetime_datetime_to_timestamp
  method AddDayAndTime(start: u32, d: DateTime, ghost before: int) returns (timestamp: u32)
    requires start == U32(before)
    ensures timestamp == U32(before + SECONDS_PER_DAY * (d.day - 1) + TimeOfDay(d))
  {
    AddFour(before, SECONDS_PER_DAY * (d.day - 1), 3600 * d.hour, 60 * d.minute, d.second);
    timestamp := U32(start + (d.day - 1) * SECONDS_PER_DAY);
    timestamp := U32(timestamp + d.hour * 3600);
    timestamp := U32(timestamp + d.minute * 60);
    timestamp := U32(timestamp + d.second);
  }

  /** The month indexes a table of twelve, up to the month before. */
  method ToTimestamp(d: DateTime) returns (timestamp: u32)
    requires d.month <= 13
    ensures timestamp == Stamp(d)
    ensures Real(d) && Seconds(d) < 0x1_0000_0000 ==> timestamp == Seconds(d)
  {
    var years, leapYears := YearCounters(d.year);
    var leap := IsLeapYear(d.year);
    ghost var a := SECONDS_PER_DAY * (365 * years + 366 * leapYears);
    timestamp := U32((years * 365 + leapYears * 366) * SECONDS_PER_DAY);
    timestamp := AddMonths(timestamp, leap, d.month, a);
    timestamp := AddDayAndTime(timestamp, d, a + SECONDS_PER_DAY * DaysBeforeMonth(leap, d.month));
    if Real(d) && Seconds(d) < 0x1_0000_0000 { StampIsSeconds(d); }
  }

  lemma AddFour(x: int, a: int, b: int, c: int, e: int)
    ensures U32(U32(U32(U32(U32(x) + a) + b) + c) + e) == U32(x + a + b + c + e)
  {
    AddWraps(x, a);
    AddWraps(x + a, b);
    AddWraps(x + a + b, c);
    AddWraps(x + a + b + c, e);
  }

  lemma {:induction false} YearsCounted(year: nat)
    ensures DaysBeforeYear(year) == 365 * CountYears(year, false) + 366 * CountYears(year, true)
    ensures year >= EPOCH_START_YEAR ==> CountYears(year, false) + CountYears(year, true) == year - EPOCH_START_YEAR
  {
    if year > EPOCH_START_YEAR { YearsCounted(year - 1); }
  }

  /** For a date that exists, before 7 February 2106, 06:28:16, the sum is the number of seconds. */
  lemma StampIsSeconds(d: DateTime)
    requires Real(d) && Seconds(d) < 0x1_0000_0000
    ensures Stamp(d) == Seconds(d)
  {
    YearsCounted(d.year);
    YearInRange(d);
    CountersFit(CountYears(d.year, false), CountYears(d.year, true));
    Fits(Seconds(d));
  }

  lemma CountersFit(a: nat, b: nat)
    requires a + b < 0x100
    ensures a % 0x100 == a && b % 0x100 == b
  {
  }

  lemma Fits(x: int)
    requires 0 <= x < 0x1_0000_0000
    ensures U32(x) == x
  {
  }

  lemma YearInRange(d: DateTime)
    requires Real(d) && Seconds(d) < 0x1_0000_0000
    ensures d.year < EPOCH_START_YEAR + 0x100 && Seconds(d) >= 0
  {
    DayInYear(d);
  }

  // ---------------------------------------------------------------- from a timestamp

  // the first loop of datetime_timestamp_to_datetime
  method FindYear(total: nat) returns (year: u16, days: nat)
    requires total < 50000
    ensures year >= EPOCH_START_YEAR && DaysBeforeYear(year) + days == total && days < DaysPerYear(year)
  {
    year, days := EPOCH_START_YEAR, total;
    while days >= DaysPerYear(year)
      invariant year >= EPOCH_START_YEAR && DaysBeforeYear(year) + days == total
      decreases days
    {
      days := days - DaysPerYear(year);
      year := year + 1;
    }
  }

  // the second loop of datetime_timestamp_to_datetime; the month never goes beyond the table
  method FindMonth(leap: bool, ofYear: nat) returns (month: u8, days: nat)
    requires ofYear < DaysBeforeMonth(leap, 13)
    ensures 1 <= month <= 12 && DaysBeforeMonth(leap, month) + days == ofYear && days < DaysPerMonth(leap, month)
  {
    month, days := 1, ofYear;
    while days >= DaysPerMonth(leap, month)
      invariant 1 <= month <= 12 && DaysBeforeMonth(leap, month) + days == ofYear
      decreases days
    {
      days := days - DaysPerMonth(leap, month);
      month := month + 1;
    }
  }

  function Weekday(days: nat): u8 {
    (days + 3) % 7 + 1
  }

  /** datetime_timestamp_to_datetime finds the one date with these seconds. */
  method FromTimestamp(timestamp: u32) returns (d: DateTime)
    ensures Real(d) && Seconds(d) == timestamp && d.weekday == Weekday(DayNumber(d))
  {
    var days, inDay := timestamp / SECONDS_PER_DAY, timestamp % SECONDS_PER_DAY;
    var year, ofYear := FindYear(days);
    DaysOfYear(year);
    var month, ofMonth := FindMonth(IsLeapYear(year), ofYear);
    d := DateTime(inDay / 3600, (inDay % 3600) / 60, inDay % 60, ofMonth + 1, month, year, Weekday(days));
    Split(inDay);
  }

  lemma Split(s: nat)
    ensures 3600 * (s / 3600) + 60 * ((s % 3600) / 60) + s % 60 == s
  {
    assert (s % 3600) % 60 == s % 60 by { assert s == 60 * (60 * (s / 3600)) + s % 3600; }
  }

  // ---------------------------------------------------------------- round trips

  /** d is what datetime_timestamp_to_datetime makes of a timestamp. */
  predicate DateOf(d: DateTime, timestamp: u32) {
    Real(d) && Seconds(d) == timestamp && d.weekday == Weekday(DayNumber(d))
  }

  /** A timestamp determines its date, and the date gives the timestamp back. */
  lemma TimestampRoundTrip(timestamp: u32, d: DateTime)
    requires DateOf(d, timestamp)
    ensures Stamp(d) == timestamp
    ensures forall e :: DateOf(e, timestamp) ==> e == d
  {
    StampIsSeconds(d);
    forall e | DateOf(e, timestamp) ensures e == d { OneDate(d, e, timestamp); }
  }

  lemma OneDate(d: DateTime, e: DateTime, timestamp: u32)
    requires DateOf(d, timestamp) && DateOf(e, timestamp)
    ensures e == d
  {
    assert SameFields(d, e) by { OrderPreserved(d, e); }
    SameDay(d, e);
  }

  /** Converting to a timestamp and back gives the same fields, for exactly the dates that exist
      and are in range. */
  lemma DateRoundTripIff(d: DateTime, back: DateTime)
    requires d.month <= 13 && DateOf(back, Stamp(d))
    ensures SameFields(d, back) <==> Real(d) && Seconds(d) < 0x1_0000_0000
  {
    if Real(d) && Seconds(d) < 0x1_0000_0000 {
      StampIsSeconds(d);
      OrderPreserved(d, back);
    }
  }

  /** datetime_validate_datetime. */
  method Validate(d: DateTime) returns (valid: bool)
    ensures valid <==> Valid(d)
    ensures valid <==>
              && d.hour <= 23 && d.minute <= 59 && d.second <= 59
              && 2000 <= d.year <= 2099 && 1 <= d.month <= 12 && 1 <= d.day <= 31 && 1 <= d.weekday <= 7
  {
    var invalid := false;
    invalid := invalid || d.second > 59;
    invalid := invalid || d.minute > 59;
    invalid := invalid || d.hour > 23;
    invalid := invalid || d.year < 2000;
    invalid := invalid || d.year > 2099;
    invalid := invalid || d.month == 0;
    invalid := invalid || d.month > 12;
    invalid := invalid || d.day == 0;
    invalid := invalid || d.day > 31;
    invalid := invalid || d.weekday == 0;
    invalid := invalid || d.weekday > 7;
    valid := !invalid;
  }

  predicate Valid(d: DateTime) {
    && d.second < 60 && d.minute < 60 && d.hour < 24 && 2000 <= d.year <= 2099
    && 1 <= d.month <= 12 && 1 <= d.day <= 31 && 1 <= d.weekday <= 7
  }

  /** A validated date survives the way to a timestamp and back if and only if its day exists in
      its month, and with its weekday if that was right. */
  lemma ValidatedRoundTrip(d: DateTime, back: DateTime)
    requires Valid(d) && DateOf(back, Stamp(d))
    ensures SameFields(d, back) <==> d.day <= DaysPerMonth(IsLeapYear(d.year), d.month)
    ensures d == back <==> d.day <= DaysPerMonth(IsLeapYear(d.year), d.month) && d.weekday == Weekday(DayNumber(d))
  {
    DateRoundTripIff(d, back);
    if d.day <= DaysPerMonth(IsLeapYear(d.year), d.month) { ValidInRange(d); }
    if SameFields(d, back) { SameDay(d, back); }
  }

  lemma SameDay(d: DateTime, back: DateTime)
    requires d.month <= 13 && SameFields(d, back)
    ensures DayNumber(back) == DayNumber(d) && (d == back <==> d.weekday == back.weekday)
  {
  }

  lemma ValidInRange(d: DateTime)
    requires Valid(d) && Real(d)
    ensures Seconds(d) < 0x1_0000_0000
  {
    DayInYear(d);
    ClosedForm(2100);
    YearsGrow(d.year, 2100);
  }

  /** A validated date whose day does not exist is taken for a day of the next month. */
  lemma MissingDay(d: DateTime)
    requires Valid(d) && d.day > DaysPerMonth(IsLeapYear(d.year), d.month)
    ensures d.month < 12
    ensures Stamp(d) == Stamp(d.(month := d.month + 1, day := d.day - DaysPerMonth(IsLeapYear(d.year), d.month)))
  {
    var leap := IsLeapYear(d.year);
    assert DaysBeforeMonth(leap, d.month + 1) == DaysBeforeMonth(leap, d.month) + DaysPerMonth(leap, d.month);
  }

  // ---------------------------------------------------------------- weekdays

  /** Leap days in the years up to y. */
  function LeapDays(y: nat): int {
    y / 4 - y / 100 + y / 400
  }

  function MonthKey(month: nat): (k: nat)
    requires 1 <= month <= 12
  {
    [0, 3, 2, 5, 0, 3, 5, 1, 4, 6, 2, 4][month - 1]
  }

  /** The weekday by Sakamoto's method: 0 is Sunday. */
  function SakamotoDay(d: DateTime): nat
    requires Real(d)
  {
    var y := if d.month < 3 then d.year - 1 else d.year;
    (y + LeapDays(y) + MonthKey(d.month) + d.day) % 7
  }

  lemma DaysByLeapDays(year: nat)
    requires year >= EPOCH_START_YEAR
    ensures DaysBeforeYear(year) == 365 * (year - 1970) + LeapDays(year - 1) - 477
    ensures LeapDays(year) == LeapDays(year - 1) + if IsLeapYear(year) then 1 else 0
  {
    ClosedForm(year);
    QuotientShift(year - 1, 4, 492);
    QuotientShift(year - 1, 100, 19);
    QuotientShift(year - 1, 400, 4);
    LeapStep(year);
    QuotientShift(year, 4, 492);
    QuotientShift(year, 100, 19);
    QuotientShift(year, 400, 4);
  }

  lemma QuotientShift(y: nat, d: nat, k: nat)
    requires (d == 4 && k == 492) || (d == 100 && k == 19) || (d == 400 && k == 4)
    ensures (y - d * k) / d == y / d - k
  {
  }

  /** Sevens between the days before a month and its key. */
  lemma MonthSevens(leap: bool, month: nat) returns (k: nat)
    requires 1 <= month <= 12
    ensures DaysBeforeMonth(leap, month) == MonthKey(month) + 7 * k + if month < 3 then 0 else if leap then 2 else 1
  {
    MonthTable(leap, month);
    k := [0, 4, 8, 12, 17, 21, 25, 30, 34, 38, 43, 47][month - 1];
  }

  /** The weekday is the right one, from Monday as 1 to Sunday as 7. */
  lemma WeekdayIsRight(d: DateTime)
    requires Real(d)
    ensures 1 <= Weekday(DayNumber(d)) <= 7 && Weekday(DayNumber(d)) % 7 == SakamotoDay(d)
  {
    DaysByLeapDays(d.year);
    var k := MonthSevens(IsLeapYear(d.year), d.month);
    var y := if d.month < 3 then d.year - 1 else d.year;
    ModSeven(DayNumber(d) + 4, y + LeapDays(y) + MonthKey(d.month) + d.day, 52 * d.year - 102789 + k);
    ModSeven(Weekday(DayNumber(d)), DayNumber(d) + 4, -((DayNumber(d) + 3) / 7));
  }

  lemma ModSeven(a: int, b: int, k: int)
    requires a == b + 7 * k
    ensures a % 7 == b % 7
  {
  }
}
