/** Calendar arithmetic of the `Retry-After` date parser: days since 1970-01-01 of a
    proleptic Gregorian date, proved against counting one day at a time. */
module CivilDate {

  /** Rust's `/` on signed integers: rounds towards zero. */
  function TruncDiv(a: int, b: int): int
    requires b > 0
  {
    if a >= 0 then a / b else -((-a) / b)
  }

  /** Rust's `%` on signed integers: takes the sign of the dividend. */
  function TruncRem(a: int, b: int): int
    requires b > 0
  {
    a - b * TruncDiv(a, b)
  }

  /** Days since 1970-01-01, by shifting the year to start in March. */
  function DaysFromCivil(year: int, m: int, d: int): int {
    var y := if m <= 2 then year - 1 else year;
    var era := TruncDiv(if y >= 0 then y else y - 399, 400);
    var yoe := y - era * 400;
    var mp := TruncRem(m + 9, 12);
    var doy := TruncDiv(153 * mp + 2, 5) + d - 1;
    var doe := yoe * 365 + TruncDiv(yoe, 4) - TruncDiv(yoe, 100) + doy;
    era * 146_097 + doe - 719_468
  }

  // ----- the calendar itself

  datatype Date = Date(year: int, month: int, day: int)

  predicate IsLeap(y: int) {
    y % 4 == 0 && (y % 100 != 0 || y % 400 == 0)
  }

  function DaysInMonth(y: int, m: int): int {
    if m == 2 then (if IsLeap(y) then 29 else 28)
    else if m == 4 || m == 6 || m == 9 || m == 11 then 30
    else 31
  }

  predicate Valid(d: Date) {
    1 <= d.month <= 12 && 1 <= d.day <= DaysInMonth(d.year, d.month)
  }

  function NextDay(d: Date): (n: Date)
    requires Valid(d)
    ensures Valid(n)
  {
    if d.day < DaysInMonth(d.year, d.month) then d.(day := d.day + 1)
    else FirstOfNextMonth(d)
  }

  function FirstOfNextMonth(d: Date): Date {
    if d.month < 12 then Date(d.year, d.month + 1, 1) else Date(d.year + 1, 1, 1)
  }

  function Days(d: Date): int {
    DaysFromCivil(d.year, d.month, d.day)
  }

  predicate Before(a: Date, b: Date) {
    || a.year < b.year
    || (a.year == b.year && a.month < b.month)
    || (a.year == b.year && a.month == b.month && a.day < b.day)
  }

  /** The date `n` days after 1970-01-01, found by walking the calendar. */
  function DateOfDay(n: nat): (d: Date)
    ensures Valid(d)
  {
    if n == 0 then Date(1970, 1, 1) else NextDay(DateOfDay(n - 1))
  }

  // ----- properties

  /** Subtracting 399 from a negative year turns truncation into floor division. */
  lemma EraIsFloorDivision(y: int)
    ensures TruncDiv(if y >= 0 then y else y - 399, 400) == y / 400
  {
  }

  /** Days before 1 March of the year `r` of an era. */
  function YearOfEraStart(r: int): int {
    r * 365 + r / 4 - r / 100
  }

  /** Days before 1 March of year `y`, counted from 1 March of year 0. */
  function MarchYearStart(y: int): int {
    y / 400 * 146_097 + YearOfEraStart(y % 400)
  }

  /** Days of the March year before the first of month `m`. */
  function MonthStart(m: int): int
    requires 1 <= m <= 12
  {
    [306, 337, 0, 31, 61, 92, 122, 153, 184, 214, 245, 275][m - 1]
  }

  function MarchYear(year: int, m: int): int {
    if m <= 2 then year - 1 else year
  }

  lemma DaysByMarchYear(year: int, m: int, d: int)
    requires 1 <= m <= 12
    ensures DaysFromCivil(year, m, d) == MarchYearStart(MarchYear(year, m)) + MonthStart(m) + d - 719_469
  {
    EraIsFloorDivision(MarchYear(year, m));
    var mp := TruncRem(m + 9, 12);
    assert mp == if m <= 2 then m + 9 else m - 3;
    assert TruncDiv(153 * mp + 2, 5) == MonthStart(m);
  }

  lemma YearOfEraLength(r: int)
    requires 1 <= r < 400
    ensures YearOfEraStart(r) - YearOfEraStart(r - 1) == if r % 4 == 0 && r % 100 != 0 then 366 else 365
  {
    assert r / 4 - (r - 1) / 4 == if r % 4 == 0 then 1 else 0;
    assert r / 100 - (r - 1) / 100 == if r % 100 == 0 then 1 else 0;
  }

  lemma RemaindersOfYear(y: int, e: int, r: int)
    requires y == 400 * e + r && 0 <= r < 400
    ensures y / 400 == e && y % 400 == r && y % 100 == r % 100 && y % 4 == r % 4
  {
    RemainderOfSum(4 * e, 100, r);
    RemainderOfSum(100 * e, 4, r);
  }

  lemma RemainderOfSum(k: int, n: int, r: int)
    requires n == 4 || n == 100
    ensures (n * k + r) % n == r % n
  {
  }

  /** The year that starts on 1 March `y - 1` ends with February of year `y`. */
  lemma MarchYearLength(y: int)
    ensures MarchYearStart(y) - MarchYearStart(y - 1) == if IsLeap(y) then 366 else 365
  {
    var e, r := y / 400, y % 400;
    RemaindersOfYear(y, e, r);
    if r == 0 {
      RemaindersOfYear(y - 1, e - 1, 399);
    } else {
      RemaindersOfYear(y - 1, e, r - 1);
      YearOfEraLength(r);
    }
  }

  /** The closed formula grows by exactly one from each date to the next: across month ends,
      leap days, centuries, eras and negative years alike. */
  lemma DaysCountsEveryDay(d: Date)
    requires Valid(d)
    ensures Days(NextDay(d)) == Days(d) + 1
  {
    hide DaysFromCivil;
    var n := NextDay(d);
    DaysByMarchYear(d.year, d.month, d.day);
    DaysByMarchYear(n.year, n.month, n.day);
    if d.month == n.month {
    } else if d.month == 2 {
      MarchYearLength(d.year);
    } else {
      assert MarchYear(n.year, n.month) == MarchYear(d.year, d.month);
      assert MonthStart(n.month) == MonthStart(d.month) + DaysInMonth(d.year, d.month);
    }
  }

  /** A numbering of the days that grows by one from each date to the next. */
  ghost predicate CountsDays(number: Date -> int) {
    forall d :: Valid(d) ==> number(NextDay(d)) == number(d) + 1
  }

  lemma {:induction false} DayCountStrictlyMonotone(number: Date -> int, a: Date, b: Date)
    requires CountsDays(number)
    requires Valid(a) && Valid(b) && Before(a, b)
    ensures number(a) < number(b)
    decreases (b.year - a.year) * 12 + b.month - a.month, DaysInMonth(a.year, a.month) - a.day
  {
    NextDayIsNext(a, b);
    if NextDay(a) != b {
      DayCountStrictlyMonotone(number, NextDay(a), b);
    }
  }

  /** Nothing lies between a date and the next. */
  lemma NextDayIsNext(a: Date, b: Date)
    requires Valid(a) && Valid(b) && Before(a, b)
    ensures NextDay(a) == b || Before(NextDay(a), b)
  {
  }

  /** No two valid dates share a number, and numbers order dates. */
  lemma DayCountOrdersDates(number: Date -> int, a: Date, b: Date)
    requires CountsDays(number)
    requires Valid(a) && Valid(b)
    ensures number(a) < number(b) <==> Before(a, b)
    ensures number(a) == number(b) <==> a == b
  {
    if Before(a, b) {
      DayCountStrictlyMonotone(number, a, b);
    } else if Before(b, a) {
      DayCountStrictlyMonotone(number, b, a);
    }
  }

  lemma DaysIsDayCount()
    ensures CountsDays(Days)
  {
    forall d | Valid(d) ensures Days(NextDay(d)) == Days(d) + 1 {
      DaysCountsEveryDay(d);
    }
  }

  /** The closed formula is strictly monotone and injective on valid dates. */
  lemma DaysOrderEmbedding(a: Date, b: Date)
    requires Valid(a) && Valid(b)
    ensures Days(a) < Days(b) <==> Before(a, b)
    ensures Days(a) == Days(b) <==> a == b
  {
    DaysIsDayCount();
    DayCountOrdersDates(Days, a, b);
  }

  /** Walking `n` days from the epoch and converting back returns `n`. */
  lemma {:induction false} DaysInvertsWalking(n: nat)
    ensures Days(DateOfDay(n)) == n
  {
    if n == 0 {
      DaysByMarchYear(1970, 1, 1);
    } else {
      DaysInvertsWalking(n - 1);
      DaysCountsEveryDay(DateOfDay(n - 1));
    }
  }

  lemma LimitDays()
    ensures Days(Date(1970, 1, 1)) == 0
    ensures Days(Date(10_000, 1, 1)) == 2_932_897
  {
    DaysByMarchYear(1970, 1, 1);
    DaysByMarchYear(10_000, 1, 1);
  }

  lemma DayCountLimits(number: Date -> int, d: Date)
    requires CountsDays(number) && Valid(d)
    requires number(Date(1970, 1, 1)) == 0 && number(Date(10_000, 1, 1)) == 2_932_897
    ensures 0 <= number(d) <==> 1970 <= d.year
    ensures number(d) < 2_932_897 <==> d.year <= 9999
  {
    DayCountOrdersDates(number, d, Date(1970, 1, 1));
    DayCountOrdersDates(number, d, Date(10_000, 1, 1));
  }

  /** The first 2_932_897 days are those of the years 1970 to 9999. */
  lemma FourDigitYears(n: nat)
    ensures 1970 <= DateOfDay(n).year
    ensures n < 2_932_897 <==> DateOfDay(n).year <= 9999
  {
    DaysInvertsWalking(n);
    DaysIsDayCount();
    LimitDays();
    DayCountLimits(Days, DateOfDay(n));
  }
}
