/**
 * Calendar dates as day numbers, the way a timestamp column is read: counted from 1970-01-01 in the
 * Gregorian calendar without end in either direction, with C's truncating division and in unsigned
 * 32-bit arithmetic that wraps.
 */
module Civil {

  /** C's division. */
  function TruncDiv(a: int, b: int): int
    requires b > 0
  {
    if a >= 0 then a / b else -((-a) / b)
  }

  function U32(x: int): (r: nat)
    ensures r < 0x1_0000_0000
  {
    x % 0x1_0000_0000
  }

  function DaysFromCivil(year: int, m: nat, d: nat): int
    requires m < 0x1_0000_0000 && d < 0x1_0000_0000
  {
    var y := year - if m <= 2 then 1 else 0;
    var era := TruncDiv(if y >= 0 then y else y - 399, 400);
    var yoe := U32(y - era * 400);
    var mp := U32(m + U32(if m > 2 then -3 else 9));
    var doy := U32(U32(U32(U32(153 * mp) + 2) / 5 + d) - 1);
    var doe := U32(U32(U32(U32(yoe * 365) + yoe / 4) - yoe / 100) + doy);
    era * 146097 + doe - 719468
  }

  // ----- the calendar -----

  predicate Leap(y: int) {
    y % 4 == 0 && (y % 100 != 0 || y % 400 == 0)
  }

  function YearLength(y: int): int {
    if Leap(y) then 366 else 365
  }

  function MonthLength(y: int, m: int): int {
    if m == 2 then (if Leap(y) then 29 else 28)
    else if m == 4 || m == 6 || m == 9 || m == 11 then 30
    else 31
  }

  datatype Date = Date(y: int, m: nat, d: nat)

  predicate Valid(t: Date) {
    1 <= t.m <= 12 && 1 <= t.d <= MonthLength(t.y, t.m)
  }

  /** Whole years between 1970 and `y`, counted one by one in either direction. */
  function DaysBeforeYear(y: int): int
    decreases if y >= 1970 then y - 1970 else 1970 - y
  {
    if y == 1970 then 0
    else if y > 1970 then DaysBeforeYear(y - 1) + YearLength(y - 1)
    else DaysBeforeYear(y + 1) - YearLength(y)
  }

  /** Whole months before `m` in its year. */
  function DaysBeforeMonth(y: int, m: nat): int {
    if m <= 1 then 0 else DaysBeforeMonth(y, m - 1) + MonthLength(y, m - 1)
  }

  /** Naive day counting. */
  function Counted(t: Date): int {
    DaysBeforeYear(t.y) + DaysBeforeMonth(t.y, t.m) + t.d - 1
  }

  function Days(t: Date): int
    requires Valid(t)
  {
    DaysFromCivil(t.y, t.m, t.d)
  }

  // ----- the computation counts days -----

  /** Days before the first of March of the year `y`, from the year 0. */
  ghost function MarchDays(y: int): int {
    365 * y + y / 4 - y / 100 + y / 400
  }

  lemma MarchStep(y: int)
    ensures MarchDays(y) == MarchDays(y - 1) + YearLength(y)
  {
    Step4(y);
    Step100(y);
    Step400(y);
  }

  lemma Step4(y: int)
    ensures y / 4 == (y - 1) / 4 + if y % 4 == 0 then 1 else 0
  {
  }

  lemma Step100(y: int)
    ensures y / 100 == (y - 1) / 100 + (if y % 100 == 0 then 1 else 0) && (y % 100 == 0 ==> y % 4 == 0)
  {
  }

  lemma Step400(y: int)
    ensures y / 400 == (y - 1) / 400 + (if y % 400 == 0 then 1 else 0) && (y % 400 == 0 ==> y % 100 == 0)
  {
  }

  lemma {:induction false} YearsCounted(y: int)
    ensures DaysBeforeYear(y) == MarchDays(y - 1) + 306 - 719468
    decreases if y >= 1970 then y - 1970 else 1970 - y
  {
    if y > 1970 {
      YearsCounted(y - 1);
      MarchStep(y - 1);
    } else if y < 1970 {
      YearsCounted(y + 1);
      MarchStep(y);
    }
  }

  /** Truncating division of the shifted year is the floor, so the year of the era needs no wrap. */
  lemma Era(y: int)
    ensures TruncDiv(if y >= 0 then y else y - 399, 400) == y / 400
    ensures 0 <= y - (y / 400) * 400 < 400
  {
  }

  lemma EraDays(y: int)
    ensures var yoe := y - (y / 400) * 400;
            (y / 400) * 146097 + yoe * 365 + yoe / 4 - yoe / 100 == MarchDays(y)
  {
    var e := y / 400;
    var yoe := y - e * 400;
    assert y == e * 400 + yoe;
    assert y / 4 == e * 100 + yoe / 4;
    assert y / 100 == e * 4 + yoe / 100;
  }

  /** The day of a year that starts in March. */
  ghost function DayOfYear(m: nat, d: nat): int {
    (153 * (if m > 2 then m - 3 else m + 9) + 2) / 5 + d - 1
  }

  lemma Fits(x: int)
    requires 0 <= x < 0x1_0000_0000
    ensures U32(x) == x
  {
  }

  /** Adding -3 as an unsigned number wraps back to the month's place. */
  lemma MonthPlace(m: nat)
    requires 1 <= m <= 12
    ensures U32(m + U32(if m > 2 then -3 else 9)) == if m > 2 then m - 3 else m + 9
  {
  }

  lemma DayFits(m: nat, d: nat)
    requires 1 <= m <= 12 && 1 <= d <= 31
    ensures var mp := if m > 2 then m - 3 else m + 9;
            U32(U32(U32(U32(153 * mp) + 2) / 5 + d) - 1) == DayOfYear(m, d) && 0 <= DayOfYear(m, d) < 400
  {
    hide U32;
    var mp := if m > 2 then m - 3 else m + 9;
    Fits(153 * mp);
    Fits(153 * mp + 2);
    Fits((153 * mp + 2) / 5 + d);
    Fits((153 * mp + 2) / 5 + d - 1);
  }

  lemma YearFits(yoe: int, doy: int)
    requires 0 <= yoe < 400 && 0 <= doy < 400
    ensures U32(yoe) == yoe
    ensures U32(U32(U32(U32(yoe * 365) + yoe / 4) - yoe / 100) + doy) == yoe * 365 + yoe / 4 - yoe / 100 + doy
  {
    hide U32;
    Fits(yoe);
    Fits(yoe * 365);
    Fits(yoe * 365 + yoe / 4);
    Fits(yoe * 365 + yoe / 4 - yoe / 100);
    Fits(yoe * 365 + yoe / 4 - yoe / 100 + doy);
  }

  lemma Unwrapped(t: Date)
    requires Valid(t)
    ensures var y := t.y - if t.m <= 2 then 1 else 0;
            Days(t) == MarchDays(y) + DayOfYear(t.m, t.d) - 719468
  {
    hide U32, TruncDiv, MarchDays, DayOfYear;
    var y := t.y - if t.m <= 2 then 1 else 0;
    Era(y);
    EraDays(y);
    MonthPlace(t.m);
    DayFits(t.m, t.d);
    YearFits(y - (y / 400) * 400, DayOfYear(t.m, t.d));
  }

  lemma MonthsCounted(y: int, m: nat)
    requires 1 <= m <= 12
    ensures DaysBeforeMonth(y, m) == DayOfYear(m, 1) - 306 + if m <= 2 then 0 else YearLength(y)
  {
    if m > 1 {
      MonthsCounted(y, m - 1);
    }
  }

  /** For every valid date of every year, before and after the epoch and before the year 0. */
  lemma DaysAreCounted(t: Date)
    requires Valid(t)
    ensures Days(t) == Counted(t)
  {
    hide DaysFromCivil;
    Unwrapped(t);
    YearsCounted(t.y);
    MonthsCounted(t.y, t.m);
    MarchStep(t.y);
  }

  // ----- order -----

  function NextDate(t: Date): Date {
    if t.d < MonthLength(t.y, t.m) then t.(d := t.d + 1)
    else if t.m < 12 then Date(t.y, t.m + 1, 1)
    else Date(t.y + 1, 1, 1)
  }

  function PreviousDate(t: Date): Date
    requires Valid(t)
  {
    if t.d > 1 then t.(d := t.d - 1)
    else if t.m > 1 then Date(t.y, t.m - 1, MonthLength(t.y, t.m - 1))
    else Date(t.y - 1, 12, 31)
  }

  lemma YearIsItsMonths(y: int)
    ensures DaysBeforeMonth(y, 12) + 31 == YearLength(y)
    ensures DaysBeforeYear(y + 1) == DaysBeforeYear(y) + YearLength(y)
  {
    MonthsCounted(y, 12);
    YearsCounted(y);
    YearsCounted(y + 1);
    MarchStep(y);
  }

  /** The epoch is day 0, and the next valid date is one day more. */
  lemma OneDayMore(t: Date)
    requires Valid(t)
    ensures Valid(NextDate(t)) && Days(NextDate(t)) == Days(t) + 1
    ensures Days(Date(1970, 1, 1)) == 0
  {
    hide DaysFromCivil;
    DaysAreCounted(t);
    NextCounted(t);
    DaysAreCounted(NextDate(t));
    DaysAreCounted(Date(1970, 1, 1));
  }

  lemma NextCounted(t: Date)
    requires Valid(t)
    ensures Valid(NextDate(t)) && Counted(NextDate(t)) == Counted(t) + 1
  {
    hide Leap, DaysBeforeYear;
    if t.m == 12 {
      YearIsItsMonths(t.y);
    }
  }

  lemma OneDayLess(t: Date)
    requires Valid(t)
    ensures Valid(PreviousDate(t)) && NextDate(PreviousDate(t)) == t
  {
  }

  /** Every day number is the day of a valid date. */
  lemma {:induction false} EveryDayHasADate(n: int) returns (t: Date)
    ensures Valid(t) && Days(t) == n
    decreases if n >= 0 then n else -n
  {
    hide DaysFromCivil;
    if n == 0 {
      t := Date(1970, 1, 1);
      OneDayMore(t);
    } else if n > 0 {
      var u := EveryDayHasADate(n - 1);
      OneDayMore(u);
      t := NextDate(u);
    } else {
      var u := EveryDayHasADate(n + 1);
      OneDayLess(u);
      t := PreviousDate(u);
      OneDayMore(t);
    }
  }

  predicate Earlier(t: Date, u: Date) {
    t.y < u.y || (t.y == u.y && (t.m < u.m || (t.m == u.m && t.d < u.d)))
  }

  lemma {:induction false} YearsApart(y: int, z: int)
    requires y < z
    ensures DaysBeforeYear(y) + YearLength(y) <= DaysBeforeYear(z)
    decreases z - y
  {
    YearIsItsMonths(y);
    if y + 1 < z {
      YearsApart(y + 1, z);
    }
  }

  lemma {:induction false} MonthsApart(y: int, m: nat, n: nat)
    requires 1 <= m < n
    ensures DaysBeforeMonth(y, m) + MonthLength(y, m) <= DaysBeforeMonth(y, n)
    decreases n
  {
    if m + 1 < n {
      MonthsApart(y, m, n - 1);
    }
  }

  lemma WithinYear(t: Date)
    requires Valid(t)
    ensures DaysBeforeYear(t.y) <= Counted(t) < DaysBeforeYear(t.y) + YearLength(t.y)
  {
    YearIsItsMonths(t.y);
    if t.m < 12 {
      MonthsApart(t.y, t.m, 12);
    }
    if t.m > 1 {
      MonthsApart(t.y, 1, t.m);
    }
  }

  /** Day numbers are ordered as dates are; so no two dates share one. */
  lemma DaysInOrder(t: Date, u: Date)
    requires Valid(t) && Valid(u)
    ensures Days(t) < Days(u) <==> Earlier(t, u)
    ensures Days(t) == Days(u) <==> t == u
  {
    hide DaysFromCivil;
    if Earlier(t, u) {
      EarlierCountsLess(t, u);
    } else if Earlier(u, t) {
      EarlierCountsLess(u, t);
    }
  }

  lemma EarlierCountsLess(t: Date, u: Date)
    requires Valid(t) && Valid(u) && Earlier(t, u)
    ensures Days(t) < Days(u)
  {
    hide DaysFromCivil;
    DaysAreCounted(t);
    DaysAreCounted(u);
    WithinYear(t);
    WithinYear(u);
    if t.y < u.y {
      YearsApart(t.y, u.y);
    } else if t.m < u.m {
      MonthsApart(t.y, t.m, u.m);
    }
  }

  lemma DayIs(t: Date, n: int)
    requires Valid(t) && n == MarchDays(t.y - if t.m <= 2 then 1 else 0) + DayOfYear(t.m, t.d) - 719468
    ensures DaysFromCivil(t.y, t.m, t.d) == n
  {
    hide DaysFromCivil, MarchDays, DayOfYear;
    Unwrapped(t);
  }

  /** Some days: around a leap day that is one in four hundred years, and one that is none in a hundred. */
  lemma DaysAre()
    ensures DaysFromCivil(2000, 2, 29) == 11016 && DaysFromCivil(2000, 3, 1) == 11017
    ensures DaysFromCivil(1900, 2, 28) == -25509 && DaysFromCivil(1900, 3, 1) == -25508
    ensures DaysFromCivil(0, 3, 1) == -719468 && DaysFromCivil(-1, 3, 1) == -719468 - 366
  {
    hide DaysFromCivil;
    DayIs(Date(2000, 2, 29), 11016);
    DayIs(Date(2000, 3, 1), 11017);
    DayIs(Date(1900, 2, 28), -25509);
    DayIs(Date(1900, 3, 1), -25508);
    DayIs(Date(0, 3, 1), -719468);
    DayIs(Date(-1, 3, 1), -719468 - 366);
  }
}
