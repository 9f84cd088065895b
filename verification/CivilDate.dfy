/** Civil-date arithmetic: the day number of a Gregorian date, proved against the
    calendar's own successor rule. */
module CivilDate {

  datatype Date = Date(year: int, month: int, day: int)

  // ---- The calendar ----

  predicate IsLeap(year: int) {
    year % 4 == 0 && (year % 100 != 0 || year % 400 == 0)
  }

  function DaysInMonth(year: int, month: int): int {
    if month == 2 then if IsLeap(year) then 29 else 28
    else if month == 4 || month == 6 || month == 9 || month == 11 then 30
    else 31
  }

  predicate IsDate(d: Date) {
    1 <= d.month <= 12 && 1 <= d.day <= DaysInMonth(d.year, d.month)
  }

  function NextDay(d: Date): Date {
    if d.day < DaysInMonth(d.year, d.month) then d.(day := d.day + 1)
    else if d.month < 12 then Date(d.year, d.month + 1, 1)
    else Date(d.year + 1, 1, 1)
  }

  predicate Before(a: Date, b: Date) {
    || a.year < b.year
    || (a.year == b.year && (a.month < b.month || (a.month == b.month && a.day < b.day)))
  }

  // ---- The program's formula ----

  /** Machine division truncates toward zero. */
  function TruncDiv(a: int, b: int): int
    requires b > 0
  {
    if a >= 0 then a / b else -((-a) / b)
  }

  function DaysFromCivil(year: int, month: int, day: int): int {
    var y := if month <= 2 then year - 1 else year;
    var era := TruncDiv(if y >= 0 then y else y - 399, 400);
    var yearOfEra := y - era * 400;
    var monthPrime := month + if month > 2 then -3 else 9;
    var dayOfYear := TruncDiv(153 * monthPrime + 2, 5) + day - 1;
    var dayOfEra := yearOfEra * 365 + TruncDiv(yearOfEra, 4) - TruncDiv(yearOfEra, 100) + dayOfYear;
    era * 146097 + dayOfEra - 719468
  }

  function Days(d: Date): int {
    DaysFromCivil(d.year, d.month, d.day)
  }

  // ---- The formula in closed form ----

  /** Days from a fixed day to March 1 of the year. */
  function MarchDays(y: int): int {
    365 * y + y / 4 - y / 100 + y / 400
  }

  /** Days from March 1 to the first of the month. */
  function MonthOffset(month: int): int {
    if month == 1 then 306 else if month == 2 then 337 else if month == 3 then 0
    else if month == 4 then 31 else if month == 5 then 61 else if month == 6 then 92
    else if month == 7 then 122 else if month == 8 then 153 else if month == 9 then 184
    else if month == 10 then 214 else if month == 11 then 245 else 275
  }

  lemma ClosedForm(year: int, month: int, day: int)
    requires 1 <= month <= 12
    ensures DaysFromCivil(year, month, day) ==
            MarchDays(if month <= 2 then year - 1 else year) + MonthOffset(month) + day - 719469
  {
    var y := if month <= 2 then year - 1 else year;
    var era := TruncDiv(if y >= 0 then y else y - 399, 400);
    assert era == y / 400;
    var yoe := y - era * 400;
    assert 0 <= yoe < 400;
    assert y / 4 == 100 * era + yoe / 4;
    assert y / 100 == 4 * era + yoe / 100;
  }

  lemma MarchDaysStep(y: int)
    ensures MarchDays(y) - MarchDays(y - 1) == if IsLeap(y) then 366 else 365
  {
    DivStep(y, 4);
    DivStep(y, 100);
    DivStep(y, 400);
    if y % 400 == 0 {
      MultipleOf(y, 100, 4 * (y / 400));
    }
    if y % 100 == 0 {
      MultipleOf(y, 4, 25 * (y / 100));
    }
  }

  lemma MultipleOf(a: int, n: int, q: int)
    requires n > 0 && a == n * q
    ensures a % n == 0
  {
    DivUnique(a, n, q, 0);
    assert a == n * (a / n) + a % n;
  }

  lemma DivStep(y: int, n: int)
    requires n > 1
    ensures y / n - (y - 1) / n == if y % n == 0 then 1 else 0
  {
    var q, r := y / n, y % n;
    assert y == n * q + r;
    if r == 0 {
      assert y - 1 == n * (q - 1) + (n - 1);
      DivUnique(y - 1, n, q - 1, n - 1);
    } else {
      DivUnique(y - 1, n, q, r - 1);
    }
  }

  lemma DivUnique(a: int, n: int, q: int, r: int)
    requires n > 0 && a == n * q + r && 0 <= r < n
    ensures a / n == q
  {
    var d := a / n - q;
    assert n * d == r - a % n;
    assert d >= 1 ==> n * d >= n;
    assert d <= -1 ==> n * d <= -n;
  }

  // ---- The day number is the day count ----

  lemma EpochIsDayZero()
    ensures Days(Date(1970, 1, 1)) == 0
  {
  }

  /** Every date's successor, across month ends, leap days, century years and new
      years, has exactly the next day number. */
  lemma SuccessorIsNextNumber(d: Date)
    requires IsDate(d)
    ensures IsDate(NextDay(d)) && Days(NextDay(d)) == Days(d) + 1
  {
    hide DaysFromCivil, MarchDays;
    var n := NextDay(d);
    ClosedForm(d.year, d.month, d.day);
    ClosedForm(n.year, n.month, n.day);
    MarchDaysStep(d.year);
  }

  // ---- Order and bijection ----

  function YearStart(year: int): int {
    Days(Date(year, 1, 1))
  }

  lemma WithinYear(d: Date)
    requires IsDate(d)
    ensures YearStart(d.year) <= Days(d) < YearStart(d.year + 1)
  {
    hide DaysFromCivil, MarchDays;
    ClosedForm(d.year, d.month, d.day);
    ClosedForm(d.year, 1, 1);
    ClosedForm(d.year + 1, 1, 1);
    MarchDaysStep(d.year);
  }

  lemma {:induction false} YearsRise(a: int, b: int)
    requires a <= b
    ensures YearStart(a) <= YearStart(b)
    decreases b - a
  {
    if a < b {
      WithinYear(Date(b - 1, 1, 1));
      YearsRise(a, b - 1);
    }
  }

  lemma WithinMonth(d: Date, e: Date)
    requires IsDate(d) && IsDate(e) && d.year == e.year && d.month < e.month
    ensures Days(d) < Days(e)
  {
    hide DaysFromCivil, MarchDays;
    ClosedForm(d.year, d.month, d.day);
    ClosedForm(e.year, e.month, e.day);
    MarchDaysStep(d.year);
  }

  /** Later dates have larger numbers, so distinct dates have distinct numbers. */
  lemma DaysAreStrictlyMonotone(a: Date, b: Date)
    requires IsDate(a) && IsDate(b)
    ensures Before(a, b) <==> Days(a) < Days(b)
    ensures Days(a) == Days(b) ==> a == b
  {
    if Before(a, b) {
      StrictlyMonotone(a, b);
    } else if a != b {
      StrictlyMonotone(b, a);
    }
  }

  lemma StrictlyMonotone(a: Date, b: Date)
    requires IsDate(a) && IsDate(b) && Before(a, b)
    ensures Days(a) < Days(b)
  {
    if a.year < b.year {
      WithinYear(a);
      WithinYear(b);
      YearsRise(a.year + 1, b.year);
    } else if a.month < b.month {
      WithinMonth(a, b);
    } else {
      ClosedForm(a.year, a.month, a.day);
      ClosedForm(b.year, b.month, b.day);
    }
  }

  /** The date n days after the epoch, by counting. */
  function DateAfter(n: nat): Date {
    if n == 0 then Date(1970, 1, 1) else NextDay(DateAfter(n - 1))
  }

  /** From 1970 on the formula and counting are inverse to each other. */
  lemma {:induction false} CountingIsInverse(n: nat)
    ensures IsDate(DateAfter(n)) && Days(DateAfter(n)) == n
  {
    if n > 0 {
      CountingIsInverse(n - 1);
      SuccessorIsNextNumber(DateAfter(n - 1));
    }
  }

  lemma NumberedByCounting(d: Date)
    requires IsDate(d) && d.year >= 1970
    ensures Days(d) >= 0 && DateAfter(Days(d)) == d
  {
    YearsRise(1970, d.year);
    WithinYear(d);
    EpochIsDayZero();
    CountingIsInverse(Days(d));
    DaysAreStrictlyMonotone(DateAfter(Days(d)), d);
  }
}
