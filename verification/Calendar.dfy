/** datetime: the calendar, and the two conversions between dates and timestamps. */
module Calendar {

  type u8 = x: nat | x < 0x100
  type u16 = x: nat | x < 0x1_0000
  type u32 = x: nat | x < 0x1_0000_0000

  const SECONDS_PER_DAY := 86400
  const EPOCH_START_YEAR := 1970

  datatype DateTime = DateTime(hour: u8, minute: u8, second: u8, day: u8, month: u8, year: u16, weekday: u8)

  // ---------------------------------------------------------------- the calendar

  predicate IsLeapYear(year: nat) {
    (year % 4 == 0 && year % 100 != 0) || year % 400 == 0
  }

  function DaysPerYear(year: nat): nat {
    if IsLeapYear(year) then 366 else 365
  }

  function DaysPerMonth(leap: bool, month: nat): (d: nat)
    requires 1 <= month <= 12
    ensures 28 <= d <= 31
  {
    if month == 2 then (if leap then 29 else 28)
    else if month == 4 || month == 6 || month == 9 || month == 11 then 30
    else 31
  }

  /** Days between the epoch and the first of January. */
  function DaysBeforeYear(year: nat): (d: nat)
    ensures year > EPOCH_START_YEAR ==> d >= 365 * (year - EPOCH_START_YEAR)
  {
    if year <= EPOCH_START_YEAR then 0 else DaysBeforeYear(year - 1) + DaysPerYear(year - 1)
  }

  /** Days between the first of January and the first of a month. */
  function DaysBeforeMonth(leap: bool, month: nat): nat
    requires month <= 13
  {
    if month <= 1 then 0 else DaysBeforeMonth(leap, month - 1) + DaysPerMonth(leap, month - 1)
  }

  lemma MonthTable(leap: bool, month: nat)
    requires 1 <= month <= 13
    ensures DaysBeforeMonth(leap, month)
            == [0, 31, 59, 90, 120, 151, 181, 212, 243, 273, 304, 334, 365][month - 1] + if leap && month > 2 then 1 else 0
  {
    if month > 1 { MonthTable(leap, month - 1); }
  }

  lemma DaysOfYear(year: nat)
    ensures DaysBeforeMonth(IsLeapYear(year), 13) == DaysPerYear(year)
  {
    MonthTable(IsLeapYear(year), 13);
  }

  // ---------------------------------------------------------------- dates and their seconds

  /** The day exists, the time of day too; the weekday is not looked at. */
  predicate Real(d: DateTime) {
    && d.year >= EPOCH_START_YEAR && 1 <= d.month <= 12 && 1 <= d.day <= DaysPerMonth(IsLeapYear(d.year), d.month)
    && d.hour < 24 && d.minute < 60 && d.second < 60
  }

  function DayNumber(d: DateTime): int
    requires d.month <= 13
  {
    DaysBeforeYear(d.year) + DaysBeforeMonth(IsLeapYear(d.year), d.month) + d.day - 1
  }

  function TimeOfDay(d: DateTime): nat {
    3600 * d.hour + 60 * d.minute + d.second
  }

  function Seconds(d: DateTime): int
    requires d.month <= 13
  {
    SECONDS_PER_DAY * DayNumber(d) + TimeOfDay(d)
  }

  predicate SameFields(a: DateTime, b: DateTime) {
    a == b.(weekday := a.weekday)
  }

  /** Earlier by year, month, day, hour, minute and second, in this order. */
  predicate Earlier(a: DateTime, b: DateTime) {
    a.year < b.year || (a.year == b.year &&
      (a.month < b.month || (a.month == b.month &&
        (a.day < b.day || (a.day == b.day &&
          (a.hour < b.hour || (a.hour == b.hour &&
            (a.minute < b.minute || (a.minute == b.minute && a.second < b.second)))))))))
  }

  lemma {:induction false} YearsGrow(x: nat, y: nat)
    requires EPOCH_START_YEAR <= x < y
    ensures DaysBeforeYear(x) + DaysPerYear(x) <= DaysBeforeYear(y)
  {
    if x + 1 < y { YearsGrow(x, y - 1); }
  }

  lemma {:induction false} MonthsGrow(leap: bool, m: nat, n: nat)
    requires 1 <= m < n <= 13
    ensures DaysBeforeMonth(leap, m) + DaysPerMonth(leap, m) <= DaysBeforeMonth(leap, n)
  {
    if m + 1 < n { MonthsGrow(leap, m, n - 1); }
  }

  /** The day lies within its year. */
  lemma DayInYear(d: DateTime)
    requires Real(d)
    ensures DaysBeforeYear(d.year) <= DayNumber(d) < DaysBeforeYear(d.year) + DaysPerYear(d.year)
  {
    MonthsGrow(IsLeapYear(d.year), d.month, 13);
    DaysOfYear(d.year);
  }

  lemma EarlierDay(a: DateTime, b: DateTime)
    requires Real(a) && Real(b)
    requires a.year < b.year || (a.year == b.year && (a.month < b.month || (a.month == b.month && a.day < b.day)))
    ensures DayNumber(a) < DayNumber(b)
  {
    if a.year < b.year {
      DayInYear(a);
      DayInYear(b);
      YearsGrow(a.year, b.year);
    } else if a.month < b.month {
      MonthsGrow(IsLeapYear(a.year), a.month, b.month);
    }
  }

  /** Order is preserved both ways, so that no two dates have the same seconds. */
  lemma OrderPreserved(a: DateTime, b: DateTime)
    requires Real(a) && Real(b)
    ensures Earlier(a, b) <==> Seconds(a) < Seconds(b)
    ensures SameFields(a, b) <==> Seconds(a) == Seconds(b)
  {
    OrderOneWay(a, b);
    OrderOneWay(b, a);
    if !Earlier(a, b) && !Earlier(b, a) { SameTime(a, b); }
  }

  lemma OrderOneWay(a: DateTime, b: DateTime)
    requires Real(a) && Real(b)
    ensures Earlier(a, b) ==> Seconds(a) < Seconds(b)
  {
    if Earlier(a, b) && (a.year != b.year || a.month != b.month || a.day != b.day) {
      EarlierDay(a, b);
    }
  }

  lemma SameTime(a: DateTime, b: DateTime)
    requires a.minute < 60 && b.minute < 60 && a.second < 60 && b.second < 60 && TimeOfDay(a) == TimeOfDay(b)
    ensures a.hour == b.hour && a.minute == b.minute && a.second == b.second
  {
  }

  /** Section 4.16 (Seconds Since the Epoch) of IEEE Std 1003.1-2017: the closed form for the days
      before a year, where t counts years from 1900. */
  lemma {:induction false} ClosedForm(year: nat)
    requires year >= EPOCH_START_YEAR
    ensures DaysBeforeYear(year) == PosixDays(year - 1900)
  {
    if year > EPOCH_START_YEAR {
      ClosedForm(year - 1);
      PosixStep(year - 1);
    }
  }

  /** The whole formula, with the days of the year from the table of the months. */
  lemma PosixSeconds(d: DateTime)
    requires Real(d)
    ensures var t := d.year - 1900;
            var leap := d.year % 4 == 0 && (d.year % 100 != 0 || d.year % 400 == 0);
            var ofYear := [0, 31, 59, 90, 120, 151, 181, 212, 243, 273, 304, 334][d.month - 1]
                          + (if leap && d.month > 2 then 1 else 0) + d.day - 1;
            Seconds(d) == d.second + d.minute * 60 + d.hour * 3600 + ofYear * 86400 + (t - 70) * 31536000
                          + (t - 69) / 4 * 86400 - (t - 1) / 100 * 86400 + (t + 299) / 400 * 86400
  {
    ClosedForm(d.year);
    MonthTable(IsLeapYear(d.year), d.month);
    LeapByMultiples(d.year);
  }

  function PosixDays(t: int): int {
    (t - 70) * 365 + (t - 69) / 4 - (t - 1) / 100 + (t + 299) / 400
  }

  lemma PosixStep(y: nat)
    requires y >= EPOCH_START_YEAR
    ensures PosixDays(y + 1 - 1900) == PosixDays(y - 1900) + DaysPerYear(y)
  {
    LeapStep(y);
  }

  /** Each of the three quotients grows by one exactly when a multiple is passed. */
  lemma LeapStep(y: nat)
    requires y >= EPOCH_START_YEAR
    ensures var t := y - 1900;
            (t - 68) / 4 - t / 100 + (t + 300) / 400
            == (t - 69) / 4 - (t - 1) / 100 + (t + 299) / 400 + if IsLeapYear(y) then 1 else 0
  {
    QuotientStep(y - 1968, y, 4, 492);
    QuotientStep(y - 1900, y, 100, 19);
    QuotientStep(y - 1600, y, 400, 4);
    LeapByMultiples(y);
  }

  lemma LeapByMultiples(y: nat)
    ensures (if y % 4 == 0 then 1 else 0) - (if y % 100 == 0 then 1 else 0) + (if y % 400 == 0 then 1 else 0)
            == if IsLeapYear(y) then 1 else 0
  {
    if y % 400 == 0 { assert y == 100 * (4 * (y / 400)); }
    if y % 100 == 0 { assert y == 4 * (25 * (y / 100)); }
  }

  lemma QuotientStep(n: int, y: nat, d: nat, k: nat)
    requires (d == 4 && k == 492) || (d == 100 && k == 19) || (d == 400 && k == 4)
    requires n == y - d * k > 0
    ensures n / d == (n - 1) / d + if y % d == 0 then 1 else 0
  {
  }
}
