/** The proleptic Gregorian calendar: days since 0000-01-01 and civil dates. */
module Calendar {
  const DAYS_PER_400_YEARS := 146097

  predicate IsLeap(y: int) {
    y % 4 == 0 && (y % 100 != 0 || y % 400 == 0)
  }

  function DaysInYear(y: int): int {
    if IsLeap(y) then 366 else 365
  }

  function DaysBeforeYear(y: int): int {
    365 * y + (y + 3) / 4 - (y + 99) / 100 + (y + 399) / 400
  }

  lemma QuotientBy4(q: int, r: int)
    requires 0 <= r < 4
    ensures (4 * q + r) / 4 == q && (4 * q + r) % 4 == r
  {
  }

  lemma MultiplesOf4(y: int)
    ensures (y + 4) / 4 == (y + 3) / 4 + if y % 4 == 0 then 1 else 0
  {
    var q, r := y / 4, y % 4;
    QuotientBy4(q + 1, r);
    if r == 0 {
      QuotientBy4(q, 3);
    } else {
      QuotientBy4(q + 1, r - 1);
    }
  }

  lemma QuotientBy100(q: int, r: int)
    requires 0 <= r < 100
    ensures (100 * q + r) / 100 == q && (100 * q + r) % 100 == r
  {
  }

  lemma MultiplesOf100(y: int)
    ensures (y + 100) / 100 == (y + 99) / 100 + if y % 100 == 0 then 1 else 0
    ensures y % 100 == 0 ==> y % 4 == 0
  {
    var q, r := y / 100, y % 100;
    QuotientBy100(q + 1, r);
    if r == 0 {
      QuotientBy100(q, 99);
    } else {
      QuotientBy100(q + 1, r - 1);
    }
    if r == 0 {
      assert y == 4 * (25 * q) + 0;
      QuotientBy4(25 * q, 0);
    }
  }

  lemma QuotientBy400(q: int, r: int)
    requires 0 <= r < 400
    ensures (400 * q + r) / 400 == q && (400 * q + r) % 400 == r
  {
  }

  lemma MultiplesOf400(y: int)
    ensures (y + 400) / 400 == (y + 399) / 400 + if y % 400 == 0 then 1 else 0
    ensures y % 400 == 0 ==> y % 100 == 0
  {
    var q, r := y / 400, y % 400;
    QuotientBy400(q + 1, r);
    if r == 0 {
      QuotientBy400(q, 399);
    } else {
      QuotientBy400(q + 1, r - 1);
    }
    if r == 0 {
      assert y == 100 * (4 * q) + 0;
      QuotientBy100(4 * q, 0);
    }
  }

  lemma YearLength(y: int)
    ensures DaysBeforeYear(y + 1) == DaysBeforeYear(y) + DaysInYear(y)
  {
    MultiplesOf4(y);
    MultiplesOf100(y);
    MultiplesOf400(y);
  }

  function DaysInMonth(y: int, m: int): int {
    if m == 2 then if IsLeap(y) then 29 else 28
    else if m == 4 || m == 6 || m == 9 || m == 11 then 30
    else 31
  }

  /** Days of year `y` before month `m`, 1 to 13. */
  function DaysBeforeMonth(y: int, m: int): int
    decreases m
  {
    if m <= 1 then 0 else DaysBeforeMonth(y, m - 1) + DaysInMonth(y, m - 1)
  }

  datatype Date = Date(year: int, month: nat, day: nat)

  predicate ValidDate(d: Date) {
    1 <= d.month <= 12 && 1 <= d.day <= DaysInMonth(d.year, d.month)
  }

  function DayNumber(d: Date): int {
    DaysBeforeYear(d.year) + DaysBeforeMonth(d.year, d.month) + d.day - 1
  }

  /** The year `rest` days after the start of year `y`, and the days left in it. */
  function YearFrom(rest: nat, y: int): (int, nat) {
    if rest < DaysInYear(y) then (y, rest) else YearFrom(rest - DaysInYear(y), y + 1)
  }

  /** The year of a day, and its day of the year from 0. */
  function YearOf(day: int): (int, nat)
    decreases if day < 0 then -day else 0
  {
    if day < 0 then
      var (y, left) := YearOf(day + DAYS_PER_400_YEARS);
      (y - 400, left)
    else YearFrom(day, 0)
  }

  /** The month `rest` days after the start of month `m`, and the days left in it. */
  function MonthFrom(y: int, rest: nat, m: nat): (nat, nat)
    decreases 12 - m
  {
    if m >= 12 || rest < DaysInMonth(y, m) then (m, rest) else MonthFrom(y, rest - DaysInMonth(y, m), m + 1)
  }

  function CivilDate(day: int): Date {
    var (y, dayOfYear) := YearOf(day);
    var (m, dayOfMonth) := MonthFrom(y, dayOfYear, 1);
    Date(y, m, dayOfMonth + 1)
  }

  lemma {:induction false} YearFromHolds(rest: nat, y: int)
    ensures var (r, left) := YearFrom(rest, y);
      left < DaysInYear(r) && DaysBeforeYear(r) + left == DaysBeforeYear(y) + rest
    decreases rest
  {
    if rest >= DaysInYear(y) {
      YearLength(y);
      YearFromHolds(rest - DaysInYear(y), y + 1);
    }
  }

  lemma YearPeriod(y: int)
    ensures DaysBeforeYear(y - 400) == DaysBeforeYear(y) - DAYS_PER_400_YEARS
    ensures DaysInYear(y - 400) == DaysInYear(y)
  {
    assert (y - 400 + 3) / 4 == (y + 3) / 4 - 100;
    assert (y - 400 + 99) / 100 == (y + 99) / 100 - 4;
    assert (y - 400 + 399) / 400 == (y + 399) / 400 - 1;
  }

  /** The day lies in its year. */
  lemma {:induction false} YearHolds(day: int)
    ensures var (r, left) := YearOf(day); left < DaysInYear(r) && DaysBeforeYear(r) + left == day
    decreases if day < 0 then -day else 0
  {
    if day < 0 {
      YearHolds(day + DAYS_PER_400_YEARS);
      YearPeriod(YearOf(day + DAYS_PER_400_YEARS).0);
    } else {
      YearFromHolds(day, 0);
    }
  }

  lemma {:induction false} MonthHolds(y: int, rest: nat, m: nat)
    requires 1 <= m <= 12 && DaysBeforeMonth(y, m) + rest < DaysInYear(y)
    ensures var (r, left) := MonthFrom(y, rest, m);
      m <= r <= 12 && left < DaysInMonth(y, r) && DaysBeforeMonth(y, r) + left == DaysBeforeMonth(y, m) + rest
    decreases 12 - m
  {
    if m == 12 {
      YearHasTwelveMonths(y);
    } else if rest >= DaysInMonth(y, m) {
      MonthHolds(y, rest - DaysInMonth(y, m), m + 1);
    }
  }

  lemma YearHasTwelveMonths(y: int)
    ensures DaysBeforeMonth(y, 13) == DaysInYear(y)
  {
    assert DaysBeforeMonth(y, 4) == DaysInMonth(y, 1) + DaysInMonth(y, 2) + DaysInMonth(y, 3);
    assert DaysBeforeMonth(y, 7) == DaysBeforeMonth(y, 4) + 91;
    assert DaysBeforeMonth(y, 10) == DaysBeforeMonth(y, 7) + 92;
  }

  /** Civil dates are valid and number the days they are the dates of. */
  lemma CivilDateOfDay(day: int)
    ensures var d := CivilDate(day); ValidDate(d) && DayNumber(d) == day && d.year == YearOf(day).0
  {
    var (y, dayOfYear) := YearOf(day);
    YearHolds(day);
    MonthHolds(y, dayOfYear, 1);
    var (m, dayOfMonth) := MonthFrom(y, dayOfYear, 1);
    DateHolds(y, dayOfYear, m, dayOfMonth, day);
  }

  lemma DateHolds(y: int, dayOfYear: nat, m: nat, dayOfMonth: nat, day: int)
    requires DaysBeforeYear(y) + dayOfYear == day && 1 <= m <= 12 && dayOfMonth < DaysInMonth(y, m)
    requires DaysBeforeMonth(y, m) + dayOfMonth == dayOfYear
    ensures ValidDate(Date(y, m, dayOfMonth + 1)) && DayNumber(Date(y, m, dayOfMonth + 1)) == day
  {
  }
}
