/**
 * The proleptic Gregorian calendar of a JavaScript `Date`, enough of it to
 * say which calendar day the reader's three date setters leave behind
 * (js/chatapp.js:217-221). A `Date` starts as the current time; each of
 * `setUTCFullYear`, `setUTCMonth` and `setUTCDate` replaces one field and
 * keeps the other two as they are at that moment, and a day of the month
 * past the month's end rolls into the following month.
 */
module UtcCalendar {
  /** A calendar day: `month` is zero-based (0 is January), `day` one-based. */
  datatype CivilDate = CivilDate(year: nat, month: int, day: int)

  predicate IsLeapYear(year: nat) {
    year % 4 == 0 && (year % 100 != 0 || year % 400 == 0)
  }

  /** Days in the months before `month` of a common year; index 12 is the whole year. */
  const CumulativeDays: seq<int> := [0, 31, 59, 90, 120, 151, 181, 212, 243, 273, 304, 334, 365]

  /** Days of `year` before the first of `month`; `month` 12 gives the length of the year. */
  function DaysBeforeMonth(year: nat, month: int): int
    requires 0 <= month <= 12
  {
    CumulativeDays[month] + if month >= 2 && IsLeapYear(year) then 1 else 0
  }

  function DaysInMonth(year: nat, month: int): (n: int)
    requires 0 <= month < 12
    ensures 28 <= n <= 31
    ensures n == 29 <==> month == 1 && IsLeapYear(year)
  {
    DaysBeforeMonth(year, month + 1) - DaysBeforeMonth(year, month)
  }

  predicate ValidDate(c: CivilDate) {
    0 <= c.month < 12 && 1 <= c.day <= DaysInMonth(c.year, c.month)
  }

  /** Days from 1 January of year 0 to the first of `year`. */
  function DaysBeforeYear(year: nat): nat {
    if year == 0 then 0 else DaysBeforeYear(year - 1) + DaysBeforeMonth(year - 1, 12)
  }

  /** The day count ECMAScript's `Day(t)` measures, here counted from year 0. */
  function DayNumber(c: CivilDate): int
    requires 0 <= c.month < 12
  {
    DaysBeforeYear(c.year) + DaysBeforeMonth(c.year, c.month) + c.day - 1
  }

  /**
   * ECMAScript's `MakeDay(year, month, date)` for a month in range and a
   * date of at most 31: the day `date - 1` days after the first of the
   * month, which is a valid calendar day in the same or the next month.
   */
  function MakeDay(year: nat, month: int, date: int): (r: CivilDate)
    requires 0 <= month < 12 && 1 <= date <= 31
    ensures ValidDate(r)
    ensures DayNumber(r) == DayNumber(CivilDate(year, month, 1)) + date - 1
  {
    var length := DaysInMonth(year, month);
    if date <= length then CivilDate(year, month, date)
    else if month == 11 then CivilDate(year + 1, 0, date - length)
    else CivilDate(year, month + 1, date - length)
  }

  /**
   * The calendar day the reader's setters leave, as written: starting from
   * the clock's day `now`, `setUTCFullYear(year)`, then
   * `setUTCMonth(month)`, then `setUTCDate(day)`, each keeping the fields it
   * does not name.
   */
  function SetDateFieldsAsWritten(now: CivilDate, year: nat, month: int, day: int): (r: CivilDate)
    requires ValidDate(now) && 0 <= month < 12 && 1 <= day <= 31
    ensures ValidDate(r)
    ensures now.day <= DaysInMonth(year, month) && day <= DaysInMonth(year, month)
            ==> r == CivilDate(year, month, day)
  {
    var afterYear := MakeDay(year, now.month, now.day);
    var afterMonth := MakeDay(afterYear.year, month, afterYear.day);
    MakeDay(afterMonth.year, afterMonth.month, day)
  }

  /**
   * What the reader evidently intends: one `setUTCFullYear(year, month, day)`
   * call, which replaces all three fields at once and so does not read the
   * clock's day.
   */
  function SetDateFieldsIntended(year: nat, month: int, day: int): (r: CivilDate)
    requires 0 <= month < 12 && 1 <= day <= 31
    ensures ValidDate(r)
    ensures DayNumber(r) == DayNumber(CivilDate(year, month, 1)) + day - 1
    ensures ValidDate(CivilDate(year, month, day)) ==> r == CivilDate(year, month, day)
  {
    MakeDay(year, month, day)
  }

  /**
   * When the year change alone does not move the clock's day, the setters
   * as written yield the named day exactly when the clock's day of the month
   * also exists in the named month.
   */
  lemma AsWrittenDependsOnClock(now: CivilDate, year: nat, month: int, day: int)
    requires ValidDate(now) && ValidDate(CivilDate(year, month, day))
    requires now.day <= DaysInMonth(year, now.month)
    ensures SetDateFieldsAsWritten(now, year, month, day) == CivilDate(year, month, day)
        <==> now.day <= DaysInMonth(year, month)
  {
    var afterYear := MakeDay(year, now.month, now.day);
    assert afterYear == CivilDate(year, now.month, now.day);
    if now.day > DaysInMonth(year, month) {
      var afterMonth := MakeDay(year, month, now.day);
      assert afterMonth.month != month;
      assert SetDateFieldsAsWritten(now, year, month, day).month == afterMonth.month;
    }
  }

  /**
   * The counterexample: on the 31st of any month, "2013-06-01" (month 5,
   * zero-based) is read as 1 July 2013, because June has no 31st.
   */
  lemma JuneFirstReadOnThe31st(now: CivilDate)
    requires ValidDate(now) && now.day == 31
    ensures SetDateFieldsAsWritten(now, 2013, 5, 1) == CivilDate(2013, 6, 1)
    ensures SetDateFieldsIntended(2013, 5, 1) == CivilDate(2013, 5, 1)
  {
    assert now.month != 1;
    assert DaysInMonth(2013, now.month) == 31;
    assert DaysInMonth(2013, 5) == 30;
    assert DaysInMonth(2013, 6) == 31;
  }
}
