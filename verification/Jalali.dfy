/** The calendar conversion of internal/sub/remark_vars.go: from a Gregorian date by way
    of its Julian day number to a Jalali date, counted from a reference day. */
module Jalali {

  datatype Date = Date(y: int, m: int, d: int)

  // ------------------------------------------------------- Gregorian calendar

  predicate IsGregorianLeap(y: int) {
    y % 4 == 0 && (y % 100 != 0 || y % 400 == 0)
  }

  function GregorianMonthDays(y: int, m: int): int {
    if m == 2 then (if IsGregorianLeap(y) then 29 else 28)
    else if m == 4 || m == 6 || m == 9 || m == 11 then 30
    else 31
  }

  predicate IsGregorian(g: Date) {
    1 <= g.m <= 12 && 1 <= g.d <= GregorianMonthDays(g.y, g.m)
  }

  function NextGregorian(g: Date): Date {
    if g.d < GregorianMonthDays(g.y, g.m) then g.(d := g.d + 1)
    else if g.m < 12 then Date(g.y, g.m + 1, 1)
    else Date(g.y + 1, 1, 1)
  }

  /** Integer division as Go does it. */
  function Quo(a: int, b: int): int
    requires b > 0
  {
    if a >= 0 then a / b else -((-a) / b)
  }

  /** The Julian day number computed at the start of gregorianToJalali. */
  function JulianDay(g: Date): int {
    var a := Quo(14 - g.m, 12);
    var y := g.y + 4800 - a;
    var m := g.m + 12 * a - 3;
    g.d + Quo(153 * m + 2, 5) + 365 * y + Quo(y, 4) - Quo(y, 100) + Quo(y, 400) - 32045
  }

  // --------------------------------------------------------- Jalali calendar

  /** The remainder keeps the sign of y, so no year before 1 is a leap year. */
  predicate IsJalaliLeap(y: int) {
    y >= 0 && y % 33 in {1, 5, 9, 13, 17, 22, 26, 30}
  }

  function JalaliMonthDays(y: int, m: int): (n: int)
    ensures 29 <= n <= 31
  {
    if m <= 6 then 31
    else if m <= 11 then 30
    else if IsJalaliLeap(y) then 30
    else 29
  }

  predicate IsJalali(j: Date) {
    1 <= j.m <= 12 && 1 <= j.d <= JalaliMonthDays(j.y, j.m)
  }

  function NextJalali(j: Date): Date {
    if j.d < JalaliMonthDays(j.y, j.m) then j.(d := j.d + 1)
    else if j.m < 12 then Date(j.y, j.m + 1, 1)
    else Date(j.y + 1, 1, 1)
  }

  function YearDays(y: int): int {
    if IsJalaliLeap(y) then 366 else 365
  }

  const REFERENCE := Date(1402, 10, 11)
  const REFERENCE_JDN := 2460311

  /** Days from the first day of 1402 to the first day of year y. */
  function YearStart(y: int): int
    decreases if y >= 1402 then y - 1402 else 1402 - y
  {
    if y == 1402 then 0
    else if y > 1402 then YearStart(y - 1) + YearDays(y - 1)
    else YearStart(y + 1) - YearDays(y)
  }

  /** Days of a year before its month m. */
  function MonthStart(m: int): int {
    if m <= 7 then 31 * (m - 1) else 186 + 30 * (m - 7)
  }

  /** The position of a Jalali date on the line of days. */
  function DayIndex(j: Date): int {
    YearStart(j.y) + MonthStart(j.m) + j.d
  }

  /** Days from the reference date to j. */
  function DaysSinceReference(j: Date): int {
    DayIndex(j) - DayIndex(REFERENCE)
  }

  // ----------------------------------------------------------------- the code

  method GregorianToJalali(gy: int, gm: int, gd: int) returns (jy: int, jm: int, jd: int)
    ensures IsJalali(Date(jy, jm, jd))
    ensures DaysSinceReference(Date(jy, jm, jd)) == JulianDay(Date(gy, gm, gd)) - REFERENCE_JDN
  {
    var a := Quo(14 - gm, 12);
    var y := gy + 4800 - a;
    var m := gm + 12 * a - 3;
    var jdn := gd + Quo(153 * m + 2, 5) + 365 * y + Quo(y, 4) - Quo(y, 100) + Quo(y, 400) - 32045;
    var days := jdn - REFERENCE_JDN;
    ghost var target := DayIndex(REFERENCE) + days;
    jy, jm, jd := 1402, 10, 11;
    while days > 0
      invariant IsJalali(Date(jy, jm, jd)) && DayIndex(Date(jy, jm, jd)) + days == target
      decreases days
    {
      var remaining := JalaliMonthDays(jy, jm) - jd + 1;
      if days < remaining {
        jd := jd + days;
        return;
      }
      MonthStep(jy, jm);
      days := days - remaining;
      jm := jm + 1;
      if jm > 12 {
        jm := 1;
        jy := jy + 1;
      }
      jd := 1;
    }
    while days < 0
      invariant IsJalali(Date(jy, jm, jd)) && DayIndex(Date(jy, jm, jd)) + days == target
      invariant days <= 0
      decreases -days
    {
      jd := jd + days;
      while jd < 1
        invariant 1 <= jm <= 12 && jd <= JalaliMonthDays(jy, jm)
        invariant DayIndex(Date(jy, jm, jd)) == target
        decreases -jd
      {
        jm := jm - 1;
        if jm < 1 {
          jm := 12;
          jy := jy - 1;
        }
        MonthStep(jy, jm);
        jd := jd + JalaliMonthDays(jy, jm);
      }
      days := 0;
    }
  }

  // ------------------------------------------------------------ Jalali days

  lemma YearStep(y: int)
    ensures YearStart(y + 1) == YearStart(y) + YearDays(y)
  {
  }

  /** The day after the last day of a month is the first day of the next month. */
  lemma MonthStep(y: int, m: int)
    requires 1 <= m <= 12
    ensures DayIndex(if m < 12 then Date(y, m + 1, 1) else Date(y + 1, 1, 1))
         == DayIndex(Date(y, m, 1)) + JalaliMonthDays(y, m)
  {
    YearStep(y);
  }

  lemma NextJalaliIndex(j: Date)
    requires IsJalali(j)
    ensures IsJalali(NextJalali(j)) && DayIndex(NextJalali(j)) == DayIndex(j) + 1
  {
    if j.d == JalaliMonthDays(j.y, j.m) {
      MonthStep(j.y, j.m);
      SameMonth(Date(j.y, j.m, 1), j.d);
    } else {
      SameMonth(j, j.d + 1);
    }
  }

  lemma SameMonth(j: Date, d: int)
    ensures DayIndex(j.(d := d)) == DayIndex(j) - j.d + d
  {
  }

  lemma {:induction false} YearsGrow(y: int, z: int)
    requires y < z
    ensures YearStart(y) + 365 <= YearStart(y) + YearDays(y) <= YearStart(z)
    decreases z - y
  {
    YearStep(y);
    if y + 1 < z {
      YearsGrow(y + 1, z);
    }
  }

  lemma DayInYear(j: Date)
    requires IsJalali(j)
    ensures YearStart(j.y) < DayIndex(j) <= YearStart(j.y) + YearDays(j.y)
  {
  }

  /** Different Jalali dates lie on different days. */
  lemma DayIndexInjective(i: Date, j: Date)
    requires IsJalali(i) && IsJalali(j) && DayIndex(i) == DayIndex(j)
    ensures i == j
  {
    DayInYear(i);
    DayInYear(j);
    if i.y < j.y {
      YearsGrow(i.y, j.y);
    } else if j.y < i.y {
      YearsGrow(j.y, i.y);
    }
  }

  // --------------------------------------------------------- Gregorian days

  /** The year and month of the formula count from March. */
  function MarchYear(g: Date): int {
    if g.m <= 2 then g.y + 4799 else g.y + 4800
  }

  function MarchMonth(m: int): int {
    if m <= 2 then m + 9 else m - 3
  }

  function YearTerm(n: nat): int {
    365 * n + n / 4 - n / 100 + n / 400 - 32045
  }

  function MonthTerm(k: nat): int {
    (153 * k + 2) / 5
  }

  lemma JulianDayParts(g: Date)
    requires 1 <= g.m <= 12 && g.y >= -4799
    ensures JulianDay(g) == g.d + MonthTerm(MarchMonth(g.m)) + YearTerm(MarchYear(g))
  {
    assert Quo(14 - g.m, 12) == if g.m <= 2 then 1 else 0;
  }

  /** From one month to the next the month term grows by the month's length. */
  lemma MonthTermStep(y: int, m: int)
    requires 1 <= m <= 12 && m != 2
    ensures MonthTerm(MarchMonth(if m == 12 then 1 else m + 1)) == MonthTerm(MarchMonth(m)) + GregorianMonthDays(y, m)
  {
  }

  lemma YearTermStep(n: nat)
    ensures YearTerm(n + 1) == YearTerm(n) + 365 + if IsGregorianLeap(n + 1) then 1 else 0
  {
    assert (n + 1) / 4 - n / 4 == if (n + 1) % 4 == 0 then 1 else 0;
    assert (n + 1) / 100 - n / 100 == if (n + 1) % 100 == 0 then 1 else 0;
    assert (n + 1) / 400 - n / 400 == if (n + 1) % 400 == 0 then 1 else 0;
  }

  lemma LeapCycle(y: int)
    ensures IsGregorianLeap(y + 4800) <==> IsGregorianLeap(y)
  {
  }

  /** The formula grows by exactly one from each calendar day to the next. */
  lemma NextJulianDay(g: Date)
    requires IsGregorian(g) && g.y >= -4799
    ensures IsGregorian(NextGregorian(g)) && JulianDay(NextGregorian(g)) == JulianDay(g) + 1
  {
    var h := NextGregorian(g);
    assert IsGregorian(h);
    JulianDayParts(g);
    JulianDayParts(h);
    if g.d < GregorianMonthDays(g.y, g.m) {
      assert MarchYear(h) == MarchYear(g);
    } else if g.m == 2 {
      YearTermStep(g.y + 4799);
      LeapCycle(g.y);
      assert MonthTerm(0) == 0 && MonthTerm(11) == 337;
    } else {
      MonthTermStep(g.y, g.m);
      assert MarchYear(h) == MarchYear(g);
    }
  }

  // ---------------------------------------------------------------- the results

  /** The conversion as a relation: what the method returns for a Gregorian date. */
  predicate Converts(g: Date, j: Date) {
    IsJalali(j) && DaysSinceReference(j) == JulianDay(g) - REFERENCE_JDN
  }

  /** The relation leaves one result, so it determines the method's. */
  lemma ConversionUnique(g: Date, i: Date, j: Date)
    requires Converts(g, i) && Converts(g, j)
    ensures i == j
  {
    DayIndexInjective(i, j);
  }

  /** The day after a Gregorian day converts to the day after its Jalali day. */
  lemma ConsecutiveDays(g: Date, j: Date, k: Date)
    requires IsGregorian(g) && g.y >= -4799 && Converts(g, j) && Converts(NextGregorian(g), k)
    ensures k == NextJalali(j)
  {
    NextJulianDay(g);
    NextJalaliIndex(j);
    DayIndexInjective(k, NextJalali(j));
  }

  predicate Before(g: Date, h: Date) {
    g.y < h.y || (g.y == h.y && (g.m < h.m || (g.m == h.m && g.d < h.d)))
  }

  /** Days from g on to h on the calendar itself. */
  ghost function Later(g: Date, n: nat): Date
    requires IsGregorian(g) && g.y >= -4799
    ensures IsGregorian(Later(g, n)) && Later(g, n).y >= -4799
  {
    if n == 0 then g
    else
      NextJulianDay(Later(g, n - 1));
      NextGregorian(Later(g, n - 1))
  }

  lemma {:induction false} LaterJulianDay(g: Date, n: nat)
    requires IsGregorian(g) && g.y >= -4799
    ensures JulianDay(Later(g, n)) == JulianDay(g) + n
  {
    if n > 0 {
      LaterJulianDay(g, n - 1);
      NextJulianDay(Later(g, n - 1));
    }
  }

  lemma {:induction false} YearTermsGrow(n: nat, k: nat)
    requires n < k
    ensures YearTerm(n) + 365 <= YearTerm(k)
    ensures YearTerm(n) + 365 + (if IsGregorianLeap(n + 1) then 1 else 0) <= YearTerm(k)
  {
    YearTermStep(k - 1);
    if n < k - 1 {
      YearTermsGrow(n, k - 1);
    }
  }

  lemma MonthTermsGrow(i: nat, k: nat)
    requires i < k <= 11
    ensures MonthTerm(i) + 30 <= MonthTerm(k)
  {
  }

  /** Within its March-based year a date lies after the days of its earlier months. */
  lemma DayInMarchYear(g: Date)
    requires IsGregorian(g) && g.y >= -4799
    ensures var k := MarchMonth(g.m);
      && 1 <= g.d + MonthTerm(k) <= 365 + (if IsGregorianLeap(MarchYear(g) + 1) then 1 else 0)
      && (k < 11 ==> g.d + MonthTerm(k) <= MonthTerm(k + 1))
  {
    if g.m == 2 {
      LeapCycle(g.y);
    } else {
      MonthTermStep(g.y, g.m);
    }
  }

  lemma BeforeInMarch(g: Date, h: Date)
    requires 1 <= g.m <= 12 && 1 <= h.m <= 12 && Before(g, h)
    ensures MarchYear(g) < MarchYear(h)
         || (MarchYear(g) == MarchYear(h) && MarchMonth(g.m) < MarchMonth(h.m))
         || (MarchYear(g) == MarchYear(h) && MarchMonth(g.m) == MarchMonth(h.m) && g.d < h.d)
  {
  }

  lemma YearDecides(g: Date, h: Date)
    requires IsGregorian(g) && IsGregorian(h) && g.y >= -4799 && h.y >= -4799 && MarchYear(g) < MarchYear(h)
    ensures JulianDay(g) < JulianDay(h)
  {
    JulianDayParts(g);
    JulianDayParts(h);
    DayInMarchYear(g);
    DayInMarchYear(h);
    YearTermsGrow(MarchYear(g), MarchYear(h));
  }

  lemma MonthDecides(g: Date, h: Date)
    requires IsGregorian(g) && IsGregorian(h) && g.y >= -4799 && h.y >= -4799
    requires MarchYear(g) == MarchYear(h) && MarchMonth(g.m) < MarchMonth(h.m)
    ensures JulianDay(g) < JulianDay(h)
  {
    JulianDayParts(g);
    JulianDayParts(h);
    DayInMarchYear(g);
    if MarchMonth(g.m) + 1 < MarchMonth(h.m) {
      MonthTermsGrow(MarchMonth(g.m) + 1, MarchMonth(h.m));
    }
  }

  /** Later dates have larger Julian day numbers, so no two dates share one. */
  lemma JulianDayOrdered(g: Date, h: Date)
    requires IsGregorian(g) && IsGregorian(h) && g.y >= -4799 && h.y >= -4799 && Before(g, h)
    ensures JulianDay(g) < JulianDay(h)
  {
    BeforeInMarch(g, h);
    if MarchYear(g) < MarchYear(h) {
      YearDecides(g, h);
    } else if MarchMonth(g.m) < MarchMonth(h.m) {
      MonthDecides(g, h);
    } else {
      JulianDayParts(g);
      JulianDayParts(h);
    }
  }

  /** The conversion never sends two dates to one. */
  lemma ConversionInjective(g: Date, h: Date, j: Date)
    requires IsGregorian(g) && IsGregorian(h) && g.y >= -4799 && h.y >= -4799
    requires Converts(g, j) && Converts(h, j)
    ensures g == h
  {
    if Before(g, h) {
      JulianDayOrdered(g, h);
    } else if Before(h, g) {
      JulianDayOrdered(h, g);
    }
  }

  // ------------------------------------------------- the years in closed form

  /** Leap years among the first n years of a cycle. */
  function LeapsInCycle(n: int): int {
    (if n > 1 then 1 else 0) + (if n > 5 then 1 else 0) + (if n > 9 then 1 else 0) + (if n > 13 then 1 else 0)
    + (if n > 17 then 1 else 0) + (if n > 22 then 1 else 0) + (if n > 26 then 1 else 0) + (if n > 30 then 1 else 0)
  }

  /** Leap years from year 0 up to year y. */
  function LeapsBefore(y: nat): int {
    8 * (y / 33) + LeapsInCycle(y % 33)
  }

  lemma LeapsStep(y: nat)
    ensures LeapsBefore(y + 1) == LeapsBefore(y) + if IsJalaliLeap(y) then 1 else 0
  {
    var k, n := y / 33, y % 33;
    if n == 32 {
      assert y + 1 == 33 * (k + 1);
      assert (y + 1) / 33 == k + 1 && (y + 1) % 33 == 0;
    } else {
      assert (y + 1) / 33 == k && (y + 1) % 33 == n + 1;
    }
  }

  lemma {:induction false} YearStartFrom(y: nat, z: nat)
    requires y <= z
    ensures YearStart(z) - YearStart(y) == 365 * (z - y) + LeapsBefore(z) - LeapsBefore(y)
    decreases z - y
  {
    if y < z {
      YearStartFrom(y, z - 1);
      YearStep(z - 1);
      LeapsStep(z - 1);
    }
  }

  /** Counting year by year is the closed form: 365 days a year and eight leap days in
      33 years, so a cycle of 33 years has 12053 days wherever it begins. */
  lemma YearsInClosedForm(y: nat)
    ensures YearStart(y) == 365 * (y - 1402) + LeapsBefore(y) - LeapsBefore(1402)
    ensures YearStart(y + 33) == YearStart(y) + 12053
  {
    if y <= 1402 {
      YearStartFrom(y, 1402);
    } else {
      YearStartFrom(1402, y);
    }
    YearStartFrom(y, y + 33);
    assert (y + 33) / 33 == y / 33 + 1 && (y + 33) % 33 == y % 33;
  }

  /** No year before the first is a leap year. */
  lemma {:induction false} YearsBeforeTheFirst(y: int)
    requires y <= 0
    ensures YearStart(y) == YearStart(0) + 365 * y
    decreases -y
  {
    if y < 0 {
      YearsBeforeTheFirst(y + 1);
      YearStep(y);
    }
  }

  /** When the first day of a Jalali year is, by the closed form. */
  lemma FirstDay(g: Date, y: nat)
    requires JulianDay(g) == 2460024 + 365 * (y - 1402) + LeapsBefore(y) - LeapsBefore(1402) + 1
    ensures Converts(g, Date(y, 1, 1))
  {
    YearsInClosedForm(y);
    assert DayIndex(REFERENCE) == 287;
  }

  /** 2024-01-01 is 1402-10-11, and days of that year at ends of months with 31, 30 and 29
      days. */
  lemma KnownDays(g: Date, m: int, d: int)
    requires
      || (g == Date(2024, 1, 1) && m == 10 && d == 11)
      || (g == Date(2023, 4, 20) && m == 1 && d == 31)
      || (g == Date(2023, 9, 22) && m == 6 && d == 31)
      || (g == Date(2023, 9, 23) && m == 7 && d == 1)
      || (g == Date(2024, 2, 19) && m == 11 && d == 30)
      || (g == Date(2024, 3, 19) && m == 12 && d == 29)
    ensures Converts(g, Date(1402, m, d))
  {
    assert IsJalaliLeap(1402) <==> 1402 % 33 in {1, 5, 9, 13, 17, 22, 26, 30};
  }

  /** First days of years around the leap years 1403 and 1408. */
  lemma KnownFirstDays(g: Date, y: nat)
    requires
      || (g == Date(2023, 3, 21) && y == 1402)
      || (g == Date(2024, 3, 20) && y == 1403)
      || (g == Date(2025, 3, 21) && y == 1404)
      || (g == Date(2029, 3, 20) && y == 1408)
      || (g == Date(2030, 3, 21) && y == 1409)
    ensures Converts(g, Date(y, 1, 1))
  {
    FirstDay(g, y);
  }
}
