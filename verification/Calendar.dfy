/**
 The proleptic Gregorian calendar of section 21.4.1 of ECMA-262, over integer day numbers
 (day 0 is 1970-01-01). Months are addressed by a running index `12 * year + month0`, so the
 month overflow that `setUTCFullYear(y, 12, 1)` relies on needs no special case.
 */
module Calendar {

  predicate Leap(y: int) {
    y % 4 == 0 && (y % 100 != 0 || y % 400 == 0)
  }

  /** Number of days in month `m` (1 to 12) of year `y`. */
  function DaysInMonth(y: int, m: int): int {
    if m == 2 then if Leap(y) then 29 else 28
    else if m == 4 || m == 6 || m == 9 || m == 11 then 30
    else 31
  }

  /** Number of days in the month with running index `k`. */
  function MonthLength(k: int): (n: int)
    ensures 28 <= n <= 31
  {
    DaysInMonth(k / 12, k % 12 + 1)
  }

  const EPOCH_MONTH: int := 12 * 1970

  /** Day number of the first day of the month with running index `k`. */
  function MonthStart(k: int): int
    decreases if k < EPOCH_MONTH then EPOCH_MONTH - k else k - EPOCH_MONTH
  {
    if k == EPOCH_MONTH then 0
    else if k > EPOCH_MONTH then MonthStart(k - 1) + MonthLength(k - 1)
    else MonthStart(k + 1) - MonthLength(k)
  }

  /** Consecutive months are adjacent: the running index has no gap and no overlap. */
  lemma MonthStartStep(k: int)
    ensures MonthStart(k + 1) == MonthStart(k) + MonthLength(k)
  {
  }

  /** Day number of 1 January of year `y`, in the closed form of section 21.4.1.3. */
  function DayFromYear(y: int): int {
    365 * (y - 1970) + (y - 1969) / 4 - (y - 1901) / 100 + (y - 1601) / 400
  }

  lemma FourthYears(y: int)
    ensures (y - 1968) / 4 == (y - 1969) / 4 + if y % 4 == 0 then 1 else 0
  {
  }

  lemma Centuries(y: int)
    ensures (y - 1900) / 100 == (y - 1901) / 100 + if y % 100 == 0 then 1 else 0
  {
  }

  lemma FourthCenturies(y: int)
    ensures (y - 1600) / 400 == (y - 1601) / 400 + if y % 400 == 0 then 1 else 0
  {
  }

  lemma LeapRule(y: int)
    ensures (if Leap(y) then 1 else 0) ==
            (if y % 4 == 0 then 1 else 0) - (if y % 100 == 0 then 1 else 0) + (if y % 400 == 0 then 1 else 0)
  {
    if y % 100 == 0 {
      assert y == 4 * (25 * (y / 100));
    }
    if y % 400 == 0 {
      assert y == 100 * (4 * (y / 400));
    }
  }

  lemma YearLength(y: int)
    ensures DayFromYear(y + 1) == DayFromYear(y) + 365 + if Leap(y) then 1 else 0
  {
    var leap := if Leap(y) then 1 else 0;
    assert (y - 1968) / 4 - (y - 1900) / 100 + (y - 1600) / 400
        == (y - 1969) / 4 - (y - 1901) / 100 + (y - 1601) / 400 + leap by {
      FourthYears(y);
      Centuries(y);
      FourthCenturies(y);
      LeapRule(y);
    }
  }

  lemma MonthLengthIs(y: int, m: int)
    requires 1 <= m <= 12
    ensures MonthLength(12 * y + m - 1) == DaysInMonth(y, m)
  {
    assert (12 * y + m - 1) / 12 == y && (12 * y + m - 1) % 12 == m - 1;
  }

  lemma Quarter(y: int, m: int)
    requires 1 <= m <= 10
    ensures MonthStart(12 * y + m + 2) ==
            MonthStart(12 * y + m - 1) + DaysInMonth(y, m) + DaysInMonth(y, m + 1) + DaysInMonth(y, m + 2)
  {
    var k := 12 * y + m - 1;
    MonthStartStep(k);
    MonthStartStep(k + 1);
    MonthStartStep(k + 2);
    MonthLengthIs(y, m);
    MonthLengthIs(y, m + 1);
    MonthLengthIs(y, m + 2);
  }

  lemma MonthStartYear(y: int)
    ensures MonthStart(12 * y + 12) == MonthStart(12 * y) + 365 + if Leap(y) then 1 else 0
  {
    Quarter(y, 1);
    Quarter(y, 4);
    Quarter(y, 7);
    Quarter(y, 10);
  }

  /** Adding up month lengths gives the standard's closed form for the start of every year. */
  lemma {:induction false} YearStartClosedForm(y: int)
    ensures MonthStart(12 * y) == DayFromYear(y)
    decreases if y < 1970 then 1970 - y else y - 1970
  {
    if y > 1970 {
      YearStartClosedForm(y - 1);
      MonthStartYear(y - 1);
      YearLength(y - 1);
    } else if y < 1970 {
      YearStartClosedForm(y + 1);
      MonthStartYear(y);
      YearLength(y);
    }
  }

  lemma {:induction false} MonthStartGrows(j: int, k: int)
    requires j <= k
    ensures MonthStart(j) + 28 * (k - j) <= MonthStart(k) <= MonthStart(j) + 31 * (k - j)
    decreases k - j
  {
    if j < k {
      MonthStartGrows(j, k - 1);
      MonthStartStep(k - 1);
    }
  }

  lemma MonthStartMonotone(j: int, k: int)
    requires j <= k
    ensures MonthStart(j) <= MonthStart(k)
    ensures j < k ==> MonthStart(j) < MonthStart(k)
  {
    MonthStartGrows(j, k);
  }

  /** A month that certainly does not start after day `day`. */
  function MonthFloor(day: int): (k: int)
    ensures MonthStart(k) <= day
  {
    assert MonthStart(EPOCH_MONTH) == 0;
    if day >= 0 then
      MonthStartGrows(EPOCH_MONTH, EPOCH_MONTH + day / 31);
      EPOCH_MONTH + day / 31
    else
      MonthStartGrows(EPOCH_MONTH + day / 28, EPOCH_MONTH);
      EPOCH_MONTH + day / 28
  }

  function FindMonth(day: int, k: int): (r: int)
    requires MonthStart(k) <= day
    ensures MonthStart(r) <= day < MonthStart(r + 1)
    decreases day - MonthStart(k)
  {
    MonthStartStep(k);
    if day < MonthStart(k + 1) then k else FindMonth(day, k + 1)
  }

  /** The month a day falls in. */
  function MonthIndex(day: int): (k: int)
    ensures MonthStart(k) <= day < MonthStart(k + 1)
  {
    FindMonth(day, MonthFloor(day))
  }

  lemma MonthIndexUnique(day: int, k: int)
    requires MonthStart(k) <= day < MonthStart(k + 1)
    ensures MonthIndex(day) == k
  {
    hide FindMonth, MonthFloor;
    var r := MonthIndex(day);
    if r < k {
      MonthStartMonotone(r + 1, k);
    } else if k < r {
      MonthStartMonotone(k + 1, r);
    }
  }

  lemma MonthIndexMonotone(a: int, b: int)
    requires a <= b
    ensures MonthIndex(a) <= MonthIndex(b)
  {
    if MonthIndex(b) < MonthIndex(a) {
      MonthStartMonotone(MonthIndex(b) + 1, MonthIndex(a));
    }
  }

  lemma MonthBetween(day: int, d: int, k: int)
    requires day <= d < MonthStart(k)
    ensures MonthIndex(day) <= MonthIndex(d) < k
  {
    MonthIndexMonotone(day, d);
    if k <= MonthIndex(d) {
      MonthStartMonotone(k, MonthIndex(d));
    }
  }

  function YearOf(day: int): int { MonthIndex(day) / 12 }

  function MonthOf(day: int): (m: int)
    ensures 1 <= m <= 12
  {
    MonthIndex(day) % 12 + 1
  }

  function DateOf(day: int): (d: int)
    ensures 1 <= d
  {
    day - MonthStart(MonthIndex(day)) + 1
  }

  /** The fields of a day are a date of the calendar, and the day is the one built from them. */
  lemma DateInMonth(day: int)
    ensures 1 <= MonthOf(day) <= 12 && 1 <= DateOf(day) <= DaysInMonth(YearOf(day), MonthOf(day))
    ensures MakeDay(YearOf(day), MonthOf(day) - 1, DateOf(day)) == day
  {
    MonthStartStep(MonthIndex(day));
  }

  /** 0 is Sunday; 1970-01-01 was a Thursday. */
  function WeekDay(day: int): int { (day + 4) % 7 }

  /** MakeDay(year, month0, date): month and date may overflow their ranges. */
  function MakeDay(y: int, month0: int, date: int): int {
    MonthStart(12 * y + month0) + date - 1
  }

  /** Reading back the fields of a date built from in-range fields gives them again, and only then. */
  lemma MakeDayFields(y: int, m: int, d: int)
    requires 1 <= m <= 12
    ensures 1 <= d <= DaysInMonth(y, m) <==>
            YearOf(MakeDay(y, m - 1, d)) == y && MonthOf(MakeDay(y, m - 1, d)) == m && DateOf(MakeDay(y, m - 1, d)) == d
  {
    var k, day := 12 * y + m - 1, MakeDay(y, m - 1, d);
    assert k / 12 == y && k % 12 == m - 1;
    if 1 <= d <= DaysInMonth(y, m) {
      MonthStartStep(k);
      MonthIndexUnique(day, k);
    } else {
      DateInMonth(day);
    }
  }

  /** The day within its year on which each month starts, as section 21.4.1.4 of ECMA-262 lists them. */
  const MONTH_OFFSETS := [0, 31, 59, 90, 120, 151, 181, 212, 243, 273, 304, 334]

  lemma MonthOffsets(y: int, month0: nat)
    requires month0 < 12
    ensures MakeDay(y, month0, 1) == MakeDay(y, 0, 1) + MONTH_OFFSETS[month0] + if month0 >= 2 && Leap(y) then 1 else 0
  {
    if month0 > 0 {
      MonthOffsets(y, month0 - 1);
      MonthStartStep(12 * y + month0 - 1);
      MonthLengthIs(y, month0);
    }
  }

  lemma SameWeekDay(a: int, b: int, weeks: int)
    requires a == b + 7 * weeks
    ensures a % 7 == b % 7
  {
  }

  /** Day 1 of a year against the remainders of the year before. */
  lemma YearRemainders(n: int)
    ensures DayFromYear(n + 1) + 4 ==
            1 + 5 * (n % 4) + 4 * (n % 100) + 6 * (n % 400) + 7 * (50 * n - 102737 + 3 * (n / 4) + 57 * (n / 100) + 343 * (n / 400))
  {
    assert (n - 1968) / 4 == n / 4 - 492 && (n - 1900) / 100 == n / 100 - 19 && (n - 1600) / 400 == n / 400 - 4;
    assert n % 4 == n - 4 * (n / 4) && n % 100 == n - 100 * (n / 100) && n % 400 == n - 400 * (n / 400);
  }

  /** The weekday of 1 January of any year, by the rule of Gauss. */
  lemma NewYearWeekDay(y: int)
    ensures WeekDay(MakeDay(y, 0, 1)) == (1 + 5 * ((y - 1) % 4) + 4 * ((y - 1) % 100) + 6 * ((y - 1) % 400)) % 7
  {
    hide MonthStart, DayFromYear;
    var n := y - 1;
    YearStartClosedForm(y);
    YearRemainders(n);
    SameWeekDay(MakeDay(y, 0, 1) + 4, 1 + 5 * (n % 4) + 4 * (n % 100) + 6 * (n % 400),
                50 * n - 102737 + 3 * (n / 4) + 57 * (n / 100) + 343 * (n / 400));
  }

  /** Weekdays follow each other, so the first of the year fixes the weekday of every date. */
  lemma WeekDayOfDate(y: int, month0: int, date: int)
    ensures WeekDay(MakeDay(y, month0, date)) == (WeekDay(MakeDay(y, 0, 1)) + MakeDay(y, month0, date) - MakeDay(y, 0, 1)) % 7
  {
    var a, b := MakeDay(y, 0, 1) + 4, MakeDay(y, month0, date) - MakeDay(y, 0, 1);
    assert (a + b) % 7 == (a % 7 + b) % 7;
  }
}
