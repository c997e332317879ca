/** apps/api/src/utils/time.ts: venue-local dates and times, and the instant a slot starts at. */
module SlotTime {
  import opened Common

  /** A string of the shape YYYY-MM-DD, read as its three numbers. Not necessarily a calendar date. */
  datatype LocalDate = LocalDate(year: nat, month: nat, day: nat)

  /** A string of the shape HH:MM, read as its two numbers. Not necessarily a time of day. */
  datatype LocalTime = LocalTime(hour: nat, minute: nat)

  /** Days from 1970-01-01 to 1 January of a year of the proleptic Gregorian calendar. */
  function DayFromYear(y: int): int {
    365 * (y - 1970) + (y - 1969) / 4 - (y - 1901) / 100 + (y - 1601) / 400
  }

  predicate LeapYear(y: int) {
    y % 4 == 0 && (y % 100 != 0 || y % 400 == 0)
  }

  /** Days from 1 January to the first of month `m`, where 0 is January. */
  function DaysBefore(m: int, leap: bool): int {
    var l := if leap then 1 else 0;
    if m <= 0 then 0
    else if m == 1 then 31
    else if m == 2 then 59 + l
    else if m == 3 then 90 + l
    else if m == 4 then 120 + l
    else if m == 5 then 151 + l
    else if m == 6 then 181 + l
    else if m == 7 then 212 + l
    else if m == 8 then 243 + l
    else if m == 9 then 273 + l
    else if m == 10 then 304 + l
    else 334 + l
  }

  /**
   * JavaScript's Date.UTC in milliseconds: months and days that are out of range carry over,
   * and the two-digit years 0 to 99 are read as 1900 to 1999.
   */
  function DateUtc(year: int, month: int, day: int, hour: int, minute: int): int {
    var fullYear := if 0 <= year <= 99 then 1900 + year else year;
    var y := fullYear + month / 12;
    var dayNumber := DayFromYear(y) + DaysBefore(month % 12, LeapYear(y)) + day - 1;
    ((dayNumber * 24 + hour) * 60 + minute) * 60_000
  }

  /** The slot's wall-clock reading taken as if it were UTC. */
  function NaiveUtc(d: LocalDate, t: LocalTime): int {
    DateUtc(d.year, d.month - 1, d.day, t.hour, t.minute)
  }

  /**
   * The instant the service stores for a slot. `shift` stands for rendering an instant in the
   * venue's time zone and parsing the result back. The offset that this takes away is added
   * again, so whatever the zone, the stored instant is the naive one.
   */
  function ToUtcInstant(shift: int -> int, d: LocalDate, t: LocalTime): (instant: int)
    ensures instant == NaiveUtc(d, t)
  {
    var naiveUtc := NaiveUtc(d, t);
    var tzShifted := shift(naiveUtc);
    var offsetMs := naiveUtc - tzShifted;
    tzShifted + offsetMs
  }

  // ---------- different slots start at different times ----------

  function DaysIn(y: int, month: int): int {
    if month == 2 then (if LeapYear(y) then 29 else 28)
    else if month in {4, 6, 9, 11} then 30
    else 31
  }

  /** A date of the calendar, not in the years 0 to 99, which are read as others. */
  predicate Calendar(d: LocalDate) {
    d.year >= 100 && 1 <= d.month <= 12 && 1 <= d.day <= DaysIn(d.year, d.month)
  }

  predicate Clock(t: LocalTime) {
    t.hour < 24 && t.minute < 60
  }

  function DayNumber(d: LocalDate): int {
    DayFromYear(d.year) + DaysBefore(d.month - 1, LeapYear(d.year)) + d.day - 1
  }

  predicate DateBefore(c: LocalDate, d: LocalDate) {
    c.year < d.year || (c.year == d.year && (c.month < d.month || (c.month == d.month && c.day < d.day)))
  }

  predicate TimeBefore(t: LocalTime, u: LocalTime) {
    t.hour < u.hour || (t.hour == u.hour && t.minute < u.minute)
  }

  /** A quotient grows when a multiple is reached; the offset `k * m` makes no difference. */
  lemma QuotientSteps(y: int, m: int, k: int)
    requires m > 1
    ensures (y - k * m) / m == (y - k * m - 1) / m + if y % m == 0 then 1 else 0
  {
    var q, r := y / m, y % m;
    DivMod(y - k * m, m, q - k, r);
    if r == 0 {
      assert y - k * m - 1 == (q - k - 1) * m + (m - 1);
      DivMod(y - k * m - 1, m, q - k - 1, m - 1);
    } else {
      DivMod(y - k * m - 1, m, q - k, r - 1);
    }
  }

  lemma YearLength(y: int)
    ensures DayFromYear(y + 1) == DayFromYear(y) + if LeapYear(y) then 366 else 365
  {
    QuotientSteps(y, 4, 492);
    QuotientSteps(y, 100, 19);
    QuotientSteps(y, 400, 4);
    CenturiesAreMultiples(y);
    assert DayFromYear(y + 1) == 365 * (y - 1969) + (y - 1968) / 4 - (y - 1900) / 100 + (y - 1600) / 400;
  }

  lemma CenturiesAreMultiples(y: int)
    ensures y % 400 == 0 ==> y % 100 == 0
    ensures y % 100 == 0 ==> y % 4 == 0
  {
  }

  lemma {:induction false} YearsAdvance(y: int, z: int)
    requires y < z
    ensures DayFromYear(y) + (if LeapYear(y) then 366 else 365) <= DayFromYear(z)
    decreases z - y
  {
    YearLength(z - 1);
    if y < z - 1 {
      YearsAdvance(y, z - 1);
    } else {
      YearLength(y);
    }
  }

  lemma WithinYear(d: LocalDate)
    requires Calendar(d)
    ensures 0 <= DayNumber(d) - DayFromYear(d.year) < if LeapYear(d.year) then 366 else 365
  {
  }

  lemma DatesAdvance(c: LocalDate, d: LocalDate)
    requires Calendar(c) && Calendar(d) && DateBefore(c, d)
    ensures DayNumber(c) < DayNumber(d)
  {
    if c.year < d.year {
      YearsAdvance(c.year, d.year);
      WithinYear(c);
      WithinYear(d);
    }
  }

  lemma NaiveUtcOfCalendar(d: LocalDate, t: LocalTime)
    requires Calendar(d)
    ensures NaiveUtc(d, t) == ((DayNumber(d) * 24 + t.hour) * 60 + t.minute) * 60_000
  {
  }

  /** Slots of the calendar start in the order of their dates and times; no two start together. */
  lemma SlotsAreOrdered(shift: int -> int, c: LocalDate, t: LocalTime, d: LocalDate, u: LocalTime)
    requires Calendar(c) && Calendar(d) && Clock(t) && Clock(u)
    ensures ToUtcInstant(shift, c, t) < ToUtcInstant(shift, d, u) <==> DateBefore(c, d) || (c == d && TimeBefore(t, u))
  {
    NaiveUtcOfCalendar(c, t);
    NaiveUtcOfCalendar(d, u);
    if DateBefore(c, d) {
      DatesAdvance(c, d);
    } else if DateBefore(d, c) {
      DatesAdvance(d, c);
    } else {
      assert c == d;
    }
  }

  // ---------- days are a day long ----------

  function NextDate(d: LocalDate): LocalDate {
    if d.day < DaysIn(d.year, d.month) then d.(day := d.day + 1)
    else if d.month < 12 then LocalDate(d.year, d.month + 1, 1)
    else LocalDate(d.year + 1, 1, 1)
  }

  /** The first of January 1970 starts at zero, and every date starts a day after the one before it. */
  lemma DaysFollow(d: LocalDate, t: LocalTime)
    requires Calendar(d)
    ensures Calendar(NextDate(d)) && NaiveUtc(NextDate(d), t) == NaiveUtc(d, t) + 86_400_000
    ensures NaiveUtc(LocalDate(1970, 1, 1), LocalTime(0, 0)) == 0
    ensures NaiveUtc(d, t) == NaiveUtc(d, LocalTime(0, 0)) + (t.hour * 60 + t.minute) * 60_000
  {
    NaiveUtcOfCalendar(d, t);
    NaiveUtcOfCalendar(d, LocalTime(0, 0));
    NaiveUtcOfCalendar(NextDate(d), t);
    YearLength(d.year);
    MonthsFollow(d);
    EpochIsZero();
  }

  lemma EpochIsZero()
    ensures NaiveUtc(LocalDate(1970, 1, 1), LocalTime(0, 0)) == 0
  {
  }

  lemma MonthsFollow(d: LocalDate)
    requires Calendar(d) && DayFromYear(d.year + 1) == DayFromYear(d.year) + if LeapYear(d.year) then 366 else 365
    ensures DayNumber(NextDate(d)) == DayNumber(d) + 1
  {
  }
}
