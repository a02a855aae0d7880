/** The next occurrence of a cron expression (modules/shared/src/cron.ts). Times are whole minutes. */
module CronSchedule {
  import opened Options
  import opened Calendar
  import opened CronSyntax

  function DayOf(t: int): int { t / 1440 }
  function HourOf(t: int): int { t / 60 % 24 }
  function MinuteOf(t: int): int { t % 60 }

  /** The source's test of one day; a starred day field is unconstrained. */
  predicate MatchesDay(c: Cron, date: int, weekDay: int) {
    var dayOfMonth := date in c.dayOfMonth.values;
    var dayOfWeek := weekDay in c.dayOfWeek.values;
    if c.dayOfMonth.any && c.dayOfWeek.any then true
    else if c.dayOfMonth.any then dayOfWeek
    else if c.dayOfWeek.any then dayOfMonth
    else dayOfMonth || dayOfWeek
  }

  /** The reference: no day field is constrained, or some constrained one holds the day. */
  ghost predicate DayMatches(c: Cron, day: int) {
    && MonthOf(day) in c.month.values
    && (|| (c.dayOfMonth.any && c.dayOfWeek.any)
        || (!c.dayOfMonth.any && DateOf(day) in c.dayOfMonth.values)
        || (!c.dayOfWeek.any && WeekDay(day) in c.dayOfWeek.values))
  }

  /** The reference: does the expression fire at minute `t`? */
  ghost predicate Fires(c: Cron, t: int) {
    DayMatches(c, DayOf(t)) && HourOf(t) in c.hour.values && MinuteOf(t) in c.minute.values
  }

  ghost predicate Quiet(c: Cron, from: int, to: int) {
    forall u :: from <= u < to ==> !Fires(c, u)
  }

  ghost predicate QuietDays(c: Cron, from: int, to: int) {
    forall day :: from <= day < to ==> !DayMatches(c, day)
  }

  /** A `Date` whose seconds are zero. */
  class UtcDate {
    var t: int

    constructor (t: int)
      ensures this.t == t
    {
      this.t := t;
    }

    function FullYear(): int reads this { YearOf(DayOf(t)) }
    function Month0(): int reads this { MonthOf(DayOf(t)) - 1 }
    function Date(): int reads this { DateOf(DayOf(t)) }
    function Hours(): int reads this { HourOf(t) }
    function Minutes(): int reads this { MinuteOf(t) }

    /** The time of day is kept; month and date may overflow. */
    method SetFullYear(y: int, month0: int, date: int)
      modifies this
      ensures t == MakeDay(y, month0, date) * 1440 + old(t) % 1440
    {
      t := MakeDay(y, month0, date) * 1440 + t % 1440;
    }

    method SetDate(date: int)
      modifies this
      ensures t == (MonthStart(MonthIndex(DayOf(old(t)))) + date - 1) * 1440 + old(t) % 1440
    {
      t := MakeDay(FullYear(), Month0(), date) * 1440 + t % 1440;
    }

    /** Zeroes the minutes too. Hour 24 is the next midnight. */
    method SetHours(h: int)
      modifies this
      ensures t == DayOf(old(t)) * 1440 + h * 60
    {
      t := DayOf(t) * 1440 + h * 60;
    }

    method SetMinutes(m: int)
      modifies this
      ensures t == old(t) - MinuteOf(old(t)) + m
    {
      t := t - t % 60 + m;
    }
  }

  /** `Date.UTC`, which reads the years 0 to 99 as 1900 to 1999; here as a day number. */
  function DateUtc(y: int, month0: int, date: int): int {
    MakeDay(if 0 <= y <= 99 then 1900 + y else y, month0, date)
  }

  method NextValue(values: set<int>, value: int) returns (r: Option<int>)
    ensures r.Some? ==> r.value in values && value <= r.value <= 59 && forall v :: value <= v < r.value ==> v !in values
    ensures r.None? ==> forall v :: value <= v <= 59 ==> v !in values
  {
    var candidate := value;
    while candidate <= 59
      invariant value <= candidate
      invariant forall v :: value <= v < candidate ==> v !in values
    {
      if candidate in values {
        return Some(candidate);
      }
      candidate := candidate + 1;
    }
    return None;
  }

  ghost predicate Least(m: int, s: set<int>) { m in s && forall v :: v in s ==> m <= v }

  lemma {:induction false} LeastExists(s: set<int>, x: int)
    requires x in s
    ensures exists m :: Least(m, s)
    decreases s
  {
    if !Least(x, s) {
      var y :| y in s && y < x;
      LeastExists(s - {x}, y);
      var m :| Least(m, s - {x});
      assert y in s - {x};
      assert Least(m, s) by {
        assert forall v :: v in s ==> v == x || v in s - {x};
      }
    }
  }

  function FirstValue(values: set<int>): (m: int)
    requires values != {}
    ensures Least(m, values)
  {
    assert exists m :: Least(m, values) by {
      assert (forall x :: x !in values) ==> values == {};
      var x :| x in values;
      LeastExists(values, x);
    }
    var m :| m in values && forall v :: v in values ==> m <= v;
    m
  }

  /** First of month `month` (month 13 is January of the next year), at midnight. */
  method ResetToMonth(date: UtcDate, year: int, month: int)
    modifies date
    ensures date.t == MonthStart(12 * year + month - 1) * 1440
  {
    date.SetFullYear(year, month - 1, 1);
    date.SetHours(0);
  }

  lemma LastDate(y: int, m0: int)
    requires 0 <= m0 < 12
    ensures DateOf(MakeDay(y, m0 + 1, 0)) == MonthStart(12 * y + m0 + 1) - MonthStart(12 * y + m0)
  {
    var k := 12 * y + m0;
    MonthStartStep(k);
    MonthIndexUnique(MonthStart(k + 1) - 1, k);
  }

  /** The source's test of a day of month `k` agrees with the reference. */
  lemma DayTest(c: Cron, k: int, day: int)
    requires 1 <= day && MonthStart(k) + day - 1 < MonthStart(k + 1)
    ensures var here := MonthStart(k) + day - 1;
            DayMatches(c, here) <==> k % 12 + 1 in c.month.values && MatchesDay(c, day, WeekDay(here))
  {
    hide MonthStart, MonthIndex;
    MonthIndexUnique(MonthStart(k) + day - 1, k);
  }

  lemma QuietOneMore(c: Cron, from: int, day: int)
    requires QuietDays(c, from, day) && !DayMatches(c, day)
    ensures QuietDays(c, from, day + 1)
  {
    hide DayMatches;
  }

  method NextMatchingDay(c: Cron, date: UtcDate) returns (r: Option<int>)
    requires date.FullYear() >= 100
    ensures var day := DayOf(date.t); var first := MonthStart(MonthIndex(day));
            && (r.Some? ==>
                  && date.Date() <= r.value
                  && first + r.value - 1 < MonthStart(MonthIndex(day) + 1)
                  && (MonthOf(day) in c.month.values ==> DayMatches(c, first + r.value - 1))
                  && QuietDays(c, day, first + r.value - 1))
            && (r.None? ==> QuietDays(c, day, MonthStart(MonthIndex(day) + 1)))
  {
    hide MonthStart, MonthIndex, DayMatches, MatchesDay, WeekDay;
    ghost var today := DayOf(date.t);
    ghost var k := MonthIndex(today);
    ghost var first := MonthStart(k);
    FieldsOfIndex(date.t);
    var lastDay := DateOf(DateUtc(date.FullYear(), date.Month0() + 1, 0));
    LastDate(date.FullYear(), date.Month0());
    var day := date.Date();
    assert QuietDays(c, today, today);
    hide QuietDays;
    while day <= lastDay
      invariant 1 <= date.Date() <= day <= lastDay + 1
      invariant QuietDays(c, today, first + day - 1)
    {
      DayTest(c, k, day);
      if MatchesDay(c, day, WeekDay(DateUtc(date.FullYear(), date.Month0(), day))) {
        return Some(day);
      }
      QuietOneMore(c, today, first + day - 1);
      day := day + 1;
    }
    return None;
  }

  lemma QuietThroughDays(c: Cron, from: int, mid: int, to: int)
    requires Quiet(c, from, mid) && QuietDays(c, DayOf(mid), to)
    ensures Quiet(c, from, to * 1440)
  {
    forall u | from <= u < to * 1440
      ensures !Fires(c, u)
    {
      if mid <= u {
        assert DayOf(mid) <= DayOf(u) < to;
      }
    }
  }

  predicate MonthSelected(c: Cron, k: int) { k % 12 + 1 in c.month.values }

  lemma QuietMonths(c: Cron, day: int, k: int)
    requires MonthIndex(day) <= k
    requires forall j :: MonthIndex(day) <= j < k ==> !MonthSelected(c, j)
    ensures QuietDays(c, day, MonthStart(k))
  {
    hide MonthStart, MonthIndex, WeekDay, DateOf;
    forall d | day <= d < MonthStart(k)
      ensures !DayMatches(c, d)
    {
      MonthBetween(day, d, k);
      assert !MonthSelected(c, MonthIndex(d));
    }
  }

  lemma QuietSameDay(c: Cron, from: int, mid: int, to: int)
    requires Quiet(c, from, mid) && DayOf(mid) * 1440 <= mid <= to <= (DayOf(mid) + 1) * 1440
    requires forall u :: mid <= u < to ==> HourOf(u) !in c.hour.values || MinuteOf(u) !in c.minute.values
    ensures Quiet(c, from, to)
  {
    hide DayMatches;
  }

  lemma Clock(t: int)
    ensures t == DayOf(t) * 1440 + HourOf(t) * 60 + MinuteOf(t) && 0 <= HourOf(t) < 24 && 0 <= MinuteOf(t) < 60
  {
    assert t == 60 * (t / 60) + t % 60;
    assert t / 60 == 24 * (t / 60 / 24) + t / 60 % 24;
    assert t / 60 / 24 == t / 1440;
  }

  lemma SameHour(t: int, u: int)
    requires t <= u < t - MinuteOf(t) + 60
    ensures MinuteOf(u) == MinuteOf(t) + (u - t)
  {
    assert u == 60 * (t / 60) + (MinuteOf(t) + u - t);
  }

  /** Hours `h` up to `to` of the day of `t` are not selected. */
  lemma QuietHours(c: Cron, from: int, t: int, to: int)
    requires Quiet(c, from, t) && HourOf(t) <= to <= 24
    requires forall h :: HourOf(t) <= h < to ==> h !in c.hour.values
    requires HourOf(t) < to || t % 60 == 0
    ensures t <= DayOf(t) * 1440 + to * 60 && Quiet(c, from, DayOf(t) * 1440 + to * 60)
  {
    var day, end := DayOf(t), DayOf(t) * 1440 + to * 60;
    Clock(t);
    forall u | t <= u < end
      ensures HourOf(u) !in c.hour.values
    {
      Clock(u);
      assert HourOf(t) <= HourOf(u) < to;
    }
    QuietSameDay(c, from, t, end);
  }

  lemma QuietMinutes(c: Cron, from: int, t: int, to: int)
    requires Quiet(c, from, t) && MinuteOf(t) <= to <= 60
    requires forall m :: MinuteOf(t) <= m < to ==> m !in c.minute.values
    ensures Quiet(c, from, t - MinuteOf(t) + to)
  {
    var end := t - MinuteOf(t) + to;
    forall u | t <= u < end
      ensures MinuteOf(u) !in c.minute.values
    {
      SameHour(t, u);
    }
    Clock(t);
    QuietSameDay(c, from, t, end);
  }

  /** Whether no selected month can ever hold a selected day: the only unsatisfiable expressions. */
  ghost predicate Impossible(c: Cron) {
    && c.dayOfWeek.any && !c.dayOfMonth.any
    && forall m, d :: m in c.month.values && d in c.dayOfMonth.values ==> d > LongestMonth(m)
  }

  function LongestMonth(m: int): int { if m == 2 then 29 else DaysInMonth(1, m) }

  lemma ImpossibleIsQuiet(c: Cron, t: int)
    requires WellFormed(c) && Impossible(c)
    ensures !Fires(c, t)
  {
    hide MonthStart, MonthIndex;
    var day := DayOf(t);
    DateInMonth(day);
    assert DaysInMonth(YearOf(day), MonthOf(day)) <= LongestMonth(MonthOf(day));
  }

  lemma FiresAt(c: Cron, day: int, h: int, m: int)
    requires DayMatches(c, day) && 0 <= h < 24 && 0 <= m < 60
    requires h in c.hour.values && m in c.minute.values
    ensures Fires(c, day * 1440 + h * 60 + m)
  {
    hide DayMatches;
    var t := day * 1440 + h * 60 + m;
    Clock(t);
    assert DayOf(t) == day;
  }

  lemma WeekDayWithin(start: int, w: int) returns (day: int)
    requires 0 <= w <= 6
    ensures start <= day < start + 7 && WeekDay(day) == w
  {
    day := start + (w - WeekDay(start)) % 7;
    var a, b := (start + 4) % 7, (w - WeekDay(start)) % 7;
    assert (start + 4 + b) % 7 == (a + b) % 7;
  }

  lemma AfterCentury(q: int)
    ensures Leap(100 * q + 4)
  {
    var y := 100 * q + 4;
    SameRemainder(y, 100, q, 4);
    SameRemainder(y, 4, 25 * q + 1, 0);
  }

  lemma LeapYearWithin(y: int) returns (leap: int)
    ensures y < leap <= y + 8 && Leap(leap)
  {
    leap := 4 * (y / 4) + 4;
    if !Leap(leap) {
      AfterCentury(leap / 100);
      leap := leap + 4;
    }
  }

  /** A day that matches in one of the eight years after `y`, unless the expression is impossible. */
  lemma MatchingDayWithin(c: Cron, y: int) returns (day: int)
    requires WellFormed(c) && !Impossible(c)
    ensures DayMatches(c, day) && y < YearOf(day) <= y + 8
  {
    hide MonthStart, MonthIndex;
    if c.dayOfWeek.any && !c.dayOfMonth.any {
      var m, d :| m in c.month.values && d in c.dayOfMonth.values && d <= LongestMonth(m);
      var leap := LeapYearWithin(y);
      var year := if m == 2 then leap else y + 1;
      day := MakeDay(year, m - 1, d);
      assert 1 <= d <= DaysInMonth(year, m);
      MakeDayFields(year, m, d);
    } else {
      assert (forall v :: v !in c.month.values) ==> c.month.values == {};
      assert (forall v :: v !in c.dayOfWeek.values) ==> c.dayOfWeek.values == {};
      var m, w :| m in c.month.values && w in c.dayOfWeek.values;
      var first := MakeDay(y + 1, m - 1, 1);
      day := WeekDayWithin(first, w);
      MakeDayFields(y + 1, m, day - first + 1);
    }
  }

  lemma SkipToMonth(c: Cron, from: int, t: int, k: int)
    requires Quiet(c, from, t) && MonthIndex(DayOf(t)) < k
    requires forall j :: MonthIndex(DayOf(t)) <= j < k ==> !MonthSelected(c, j)
    ensures t < MonthStart(k) * 1440 && Quiet(c, from, MonthStart(k) * 1440)
  {
    hide Fires, MonthIndex, MonthSelected, MonthStart;
    QuietMonths(c, DayOf(t), k);
    QuietThroughDays(c, from, t, MonthStart(k));
    MonthStartMonotone(MonthIndex(DayOf(t)) + 1, k);
    Clock(t);
  }

  /** No month is selected between month `m` of year `y` and the first selected one of the next year. */
  lemma NoMoreMonths(c: Cron, y: int, m: int, first: int)
    requires 1 <= m <= 12 && 1 <= first <= 12 && Least(first, c.month.values)
    requires forall v :: m <= v <= 59 ==> v !in c.month.values
    ensures forall j :: 12 * y + m - 1 <= j < 12 * (y + 1) + first - 1 ==> !MonthSelected(c, j)
  {
    forall j | 12 * y + m - 1 <= j < 12 * (y + 1) + first - 1
      ensures !MonthSelected(c, j)
    {
      if j < 12 * (y + 1) {
        assert j % 12 == j - 12 * y;
      } else {
        assert j % 12 == j - 12 * (y + 1);
      }
    }
  }

  lemma NoMonthBetween(c: Cron, y: int, m: int, next: int)
    requires 1 <= m <= next <= 12
    requires forall v :: m <= v < next ==> v !in c.month.values
    ensures forall j :: 12 * y + m - 1 <= j < 12 * y + next - 1 ==> !MonthSelected(c, j)
  {
    forall j | 12 * y + m - 1 <= j < 12 * y + next - 1
      ensures !MonthSelected(c, j)
    {
      assert j % 12 == j - 12 * y;
    }
  }

  lemma FieldsOfMonthStart(k: int)
    ensures MonthIndex(DayOf(MonthStart(k) * 1440)) == k
  {
    hide MonthStart, MonthIndex;
    MonthStartMonotone(k, k + 1);
    MonthIndexUnique(MonthStart(k), k);
    assert DayOf(MonthStart(k) * 1440) == MonthStart(k);
  }

  lemma YearOrder(a: int, b: int)
    requires YearOf(a) < YearOf(b)
    ensures a < b
  {
    hide MonthIndex;
    if b <= a {
      MonthIndexMonotone(b, a);
    }
  }

  lemma YearNotAfter(a: int, b: int)
    requires a <= b
    ensures YearOf(a) <= YearOf(b)
  {
    hide MonthIndex;
    MonthIndexMonotone(a, b);
  }

  ghost predicate IsNext(c: Cron, from: int, t: int) {
    from <= t && Fires(c, t) && Quiet(c, from, t)
  }

  /** An expression that is not impossible fires inside the eight-year window. */
  lemma WindowFires(c: Cron, start: int, end: int)
    requires WellFormed(c) && YearOf(DayOf(end)) > YearOf(DayOf(start)) + 8 && !Impossible(c)
    ensures !Quiet(c, start, end)
  {
    hide MonthIndex, DayMatches, MonthStart;
    var day := MatchingDayWithin(c, YearOf(DayOf(start)));
    assert (forall v :: v !in c.hour.values) ==> c.hour.values == {};
    assert (forall v :: v !in c.minute.values) ==> c.minute.values == {};
    var h, m :| h in c.hour.values && m in c.minute.values;
    var t := day * 1440 + h * 60 + m;
    FiresAt(c, day, h, m);
    Clock(t);
    assert DayOf(t) == day;
    YearOrder(DayOf(start), day);
    YearOrder(day, DayOf(end));
    Clock(start);
    Clock(end);
    assert start <= t < end;
  }

  lemma YearBound(t: int, y: int)
    requires YearOf(DayOf(t)) <= y
    ensures t < MonthStart(12 * (y + 1)) * 1440
  {
    hide MonthIndex, MonthStart;
    MonthStartMonotone(MonthIndex(DayOf(t)) + 1, 12 * (y + 1));
    Clock(t);
  }

  /** One field of the candidate: keep it, or move to its next value and clear the smaller fields. */
  twostate predicate Advanced(c: Cron, from: int, candidate: UtcDate, found: bool)
    reads candidate
  {
    && old(candidate.t) <= candidate.t
    && (!found ==> old(candidate.t) < candidate.t)
    && Quiet(c, from, candidate.t)
  }

  method AdvanceMonth(c: Cron, candidate: UtcDate, ghost from: int) returns (found: bool)
    requires WellFormed(c) && Quiet(c, from, candidate.t)
    modifies candidate
    ensures Advanced(c, from, candidate, found)
    ensures found ==> candidate.Month0() + 1 in c.month.values
  {
    hide MonthStart, MonthIndex, Fires, MonthSelected;
    var month := NextValue(c.month.values, candidate.Month0() + 1);
    if month.None? {
      var first := FirstValue(c.month.values);
      NoMoreMonths(c, candidate.FullYear(), candidate.Month0() + 1, first);
      SkipToMonth(c, from, candidate.t, 12 * (candidate.FullYear() + 1) + first - 1);
      ResetToMonth(candidate, candidate.FullYear() + 1, first);
      return false;
    }
    if month.value != candidate.Month0() + 1 {
      ghost var k := 12 * candidate.FullYear() + month.value - 1;
      NoMonthBetween(c, candidate.FullYear(), candidate.Month0() + 1, month.value);
      SkipToMonth(c, from, candidate.t, k);
      ResetToMonth(candidate, candidate.FullYear(), month.value);
      FieldsOfMonthStart(k);
    }
    return true;
  }

  method AdvanceDay(c: Cron, candidate: UtcDate, ghost from: int) returns (found: bool)
    requires Quiet(c, from, candidate.t) && candidate.FullYear() >= 100
    requires candidate.Month0() + 1 in c.month.values
    modifies candidate
    ensures Advanced(c, from, candidate, found)
    ensures found ==> DayMatches(c, DayOf(candidate.t))
  {
    hide MonthStart, MonthIndex, Fires, DayMatches;
    ghost var t := candidate.t;
    ghost var k := MonthIndex(DayOf(t));
    Clock(t);
    FieldsOfIndex(t);
    var day := NextMatchingDay(c, candidate);
    hide QuietDays, Quiet;
    if day.None? {
      QuietThroughDays(c, from, t, MonthStart(k + 1));
      ResetToMonth(candidate, candidate.FullYear(), candidate.Month0() + 2);
      return false;
    }
    if day.value != candidate.Date() {
      QuietThroughDays(c, from, t, MonthStart(k) + day.value - 1);
      DayOfSum(MonthStart(k) + day.value - 1, t % 1440);
      candidate.SetDate(day.value);
      candidate.SetHours(0);
      DayOfSum(MonthStart(k) + day.value - 1, 0);
    }
    return true;
  }

  lemma FieldsOfIndex(t: int)
    ensures 12 * YearOf(DayOf(t)) + MonthOf(DayOf(t)) - 1 == MonthIndex(DayOf(t))
    ensures DateOf(DayOf(t)) == DayOf(t) - MonthStart(MonthIndex(DayOf(t))) + 1
  {
    hide MonthStart, MonthIndex;
  }

  lemma DayOfSum(day: int, minutes: int)
    requires 0 <= minutes < 1440
    ensures DayOf(day * 1440 + minutes) == day
  {
  }

  method AdvanceHour(c: Cron, candidate: UtcDate, ghost from: int) returns (found: bool)
    requires WellFormed(c) && Quiet(c, from, candidate.t)
    modifies candidate
    ensures Advanced(c, from, candidate, found)
    ensures found ==> DayOf(candidate.t) == DayOf(old(candidate.t)) && candidate.Hours() in c.hour.values
  {
    hide MonthStart, MonthIndex, Fires, Quiet;
    ghost var t := candidate.t;
    Clock(t);
    var hour := NextValue(c.hour.values, candidate.Hours());
    if hour.None? {
      QuietHours(c, from, t, 24);
      NextDay(t);
      DayOfSum(DayOf(t) + 1, t % 1440);
      candidate.SetDate(candidate.Date() + 1);
      candidate.SetHours(0);
      return false;
    }
    if hour.value != candidate.Hours() {
      QuietHours(c, from, t, hour.value);
      candidate.SetHours(hour.value);
      HourOfSum(DayOf(t), hour.value);
    }
    return true;
  }

  lemma HourOfSum(day: int, hour: int)
    requires 0 <= hour < 24
    ensures DayOf(day * 1440 + hour * 60) == day && HourOf(day * 1440 + hour * 60) == hour
  {
    DayOfSum(day, hour * 60);
    assert (day * 1440 + hour * 60) / 60 == day * 24 + hour;
  }

  method AdvanceMinute(c: Cron, candidate: UtcDate, ghost from: int) returns (found: bool)
    requires WellFormed(c) && Quiet(c, from, candidate.t)
    requires DayMatches(c, DayOf(candidate.t)) && candidate.Hours() in c.hour.values
    modifies candidate
    ensures Advanced(c, from, candidate, found)
    ensures found ==> Fires(c, candidate.t)
  {
    hide MonthStart, MonthIndex, Fires, DayMatches;
    ghost var t := candidate.t;
    Clock(t);
    var minute := NextValue(c.minute.values, candidate.Minutes());
    if minute.None? {
      QuietMinutes(c, from, t, 60);
      candidate.SetHours(candidate.Hours() + 1);
      return false;
    }
    QuietMinutes(c, from, t, minute.value);
    candidate.SetMinutes(minute.value);
    FiresAt(c, DayOf(t), HourOf(t), minute.value);
    return true;
  }

  /** The first firing minute from `from` on, if there is one at all. */
  ghost predicate First(c: Cron, from: int, r: Option<int>) {
    if r.Some? then IsNext(c, from, r.value) else forall t :: from <= t ==> !Fires(c, t)
  }

  method NextOccurrence(c: Cron, after: int) returns (r: Option<int>)
    requires WellFormed(c) && YearOf(DayOf(after)) >= 100
    ensures First(c, after + 1, r)
    ensures r.None? <==> Impossible(c)
  {
    hide MonthStart, MonthIndex, Fires, DayMatches, Impossible;
    var candidate := new UtcDate(after);
    candidate.SetMinutes(candidate.Minutes() + 1);
    ghost var start := candidate.t;
    YearNotAfter(DayOf(after), DayOf(start));
    var finalYear := candidate.FullYear() + 8;
    while candidate.FullYear() <= finalYear
      invariant start <= candidate.t && Quiet(c, start, candidate.t)
      decreases MonthStart(12 * (finalYear + 1)) * 1440 - candidate.t
    {
      YearBound(candidate.t, finalYear);
      var found := AdvanceMonth(c, candidate, start);
      if !found {
        continue;
      }
      YearNotAfter(DayOf(start), DayOf(candidate.t));
      found := AdvanceDay(c, candidate, start);
      if !found {
        continue;
      }
      found := AdvanceHour(c, candidate, start);
      if !found {
        continue;
      }
      found := AdvanceMinute(c, candidate, start);
      if !found {
        continue;
      }
      NotImpossible(c, candidate.t);
      return Some(candidate.t);
    }
    if !Impossible(c) {
      WindowFires(c, start, candidate.t);
    }
    forall t
      ensures !Fires(c, t)
    {
      ImpossibleIsQuiet(c, t);
    }
    return None;
  }

  // The two day fields

  function Starred(min: int, max: int): Field { Field(true, Progression(min, max, 1)) }

  function Earlier(a: Option<int>, b: Option<int>): Option<int> {
    if a.None? then b else if b.None? || a.value <= b.value then a else b
  }

  /**
   * With both day fields constrained, the next occurrence is the earlier of those of the two expressions in which
   * one of them is starred.
   */
  lemma EitherDayField(c: Cron, from: int, r: Option<int>, byDate: Option<int>, byWeekDay: Option<int>)
    requires !c.dayOfMonth.any && !c.dayOfWeek.any && First(c, from, r)
    requires First(c.(dayOfWeek := Starred(0, 6)), from, byDate) && First(c.(dayOfMonth := Starred(1, 31)), from, byWeekDay)
    ensures r == Earlier(byDate, byWeekDay)
  {
    hide MonthIndex, MonthStart, DateOf, WeekDay;
    var a, b := c.(dayOfWeek := Starred(0, 6)), c.(dayOfMonth := Starred(1, 31));
    assert forall t :: Fires(c, t) <==> Fires(a, t) || Fires(b, t);
    hide Fires;
  }

  /** With a starred day field only the other one counts, and with two starred every day of the selected months does. */
  lemma StarredDayField(c: Cron, d: Field, w: Field, day: int)
    requires d.any && w.any
    ensures DayMatches(c.(dayOfMonth := d, dayOfWeek := w), day) <==> MonthOf(day) in c.month.values
    ensures !c.dayOfWeek.any ==>
              (DayMatches(c.(dayOfMonth := d), day) <==> MonthOf(day) in c.month.values && WeekDay(day) in c.dayOfWeek.values)
    ensures !c.dayOfMonth.any ==>
              (DayMatches(c.(dayOfWeek := w), day) <==> MonthOf(day) in c.month.values && DateOf(day) in c.dayOfMonth.values)
  {
  }

  lemma NotImpossible(c: Cron, t: int)
    requires WellFormed(c) && Fires(c, t)
    ensures !Impossible(c)
  {
    hide Fires;
    if Impossible(c) {
      ImpossibleIsQuiet(c, t);
    }
  }

  lemma NextDay(t: int)
    ensures MonthStart(MonthIndex(DayOf(t))) + DateOf(DayOf(t)) == DayOf(t) + 1
  {
    hide MonthStart, MonthIndex;
  }

  /** The captures of the timestamp pattern; the digits bound each of them. */
  datatype Stamp = Stamp(year: int, month: int, day: int, hour: int, minute: int, second: int, millisecond: int)

  function Number(s: string, from: nat, to: nat): (n: Option<int>)
    requires from < to <= |s|
    ensures n.Some? ==> n.value >= 0
  {
    if Digits(s[from..to]) then
      DecimalIsNat(s[from..to]);
      Some(Decimal(s[from..to]))
    else None
  }

  lemma {:induction false} DecimalIsNat(s: string)
    requires forall i :: 0 <= i < |s| ==> '0' <= s[i] <= '9'
    ensures Decimal(s) >= 0
  {
    if s != "" {
      DecimalIsNat(s[..|s| - 1]);
    }
  }

  /** `yyyy-mm-ddThh:mm:ssZ`, optionally with exactly three fraction digits. */
  function ParseStamp(s: string): (st: Option<Stamp>)
    ensures st.Some? ==> Naturals(st.value)
  {
    if |s| != 20 && |s| != 24 then None
    else if s[4] != '-' || s[7] != '-' || s[10] != 'T' || s[13] != ':' || s[16] != ':' || s[|s| - 1] != 'Z' then None
    else if |s| == 24 && s[19] != '.' then None
    else
      var y, mo, d := Number(s, 0, 4), Number(s, 5, 7), Number(s, 8, 10);
      var h, mi, sec := Number(s, 11, 13), Number(s, 14, 16), Number(s, 17, 19);
      var ms := if |s| == 24 then Number(s, 20, 23) else Some(0);
      if y.None? || mo.None? || d.None? || h.None? || mi.None? || sec.None? || ms.None? then None
      else Some(Stamp(y.value, mo.value, d.value, h.value, mi.value, sec.value, ms.value))
  }

  predicate Naturals(st: Stamp) {
    && st.year >= 0 && st.month >= 0 && st.day >= 0 && st.hour >= 0 && st.minute >= 0 && st.second >= 0
    && st.millisecond >= 0
  }

  datatype StampText = StampText(
    year: string, month: string, day: string, hour: string, minute: string, second: string, fraction: Option<string>)

  predicate Spelt(x: StampText) {
    && Digits(x.year) && Digits(x.month) && Digits(x.day) && Digits(x.hour) && Digits(x.minute) && Digits(x.second)
    && |x.year| == 4 && |x.month| == 2 && |x.day| == 2 && |x.hour| == 2 && |x.minute| == 2 && |x.second| == 2
    && (x.fraction.Some? ==> Digits(x.fraction.value) && |x.fraction.value| == 3)
  }

  function SpellDate(x: StampText): string { x.year + "-" + x.month + "-" + x.day }

  function SpellTime(x: StampText): string { x.hour + ":" + x.minute + ":" + x.second }

  function SpellStamp(x: StampText): string {
    SpellDate(x) + "T" + SpellTime(x) + (if x.fraction.Some? then "." + x.fraction.value else "") + "Z"
  }

  function StampMeaning(x: StampText): Stamp
    requires Spelt(x)
  {
    Stamp(Decimal(x.year), Decimal(x.month), Decimal(x.day), Decimal(x.hour), Decimal(x.minute), Decimal(x.second),
          if x.fraction.Some? then Decimal(x.fraction.value) else 0)
  }

  lemma StampParts(x: StampText)
    requires Spelt(x)
    ensures var s := SpellStamp(x);
            && |SpellDate(x)| == 10 && |SpellTime(x)| == 8 && |s| == (if x.fraction.Some? then 24 else 20)
            && s[0..10] == SpellDate(x) && s[10] == 'T' && s[11..19] == SpellTime(x) && s[|s| - 1] == 'Z'
            && (x.fraction.Some? ==> s[19] == '.' && s[20..23] == x.fraction.value)
  {
    hide Digits;
  }

  lemma DateParts(x: StampText, s: string)
    requires Spelt(x) && |s| >= 20 && s[0..10] == SpellDate(x)
    ensures s[0..4] == x.year && s[4] == '-' && s[5..7] == x.month && s[7] == '-' && s[8..10] == x.day
  {
    hide Digits;
    var d := SpellDate(x);
    assert forall k :: 0 <= k < 10 ==> s[k] == d[k] by {
      assert forall k :: 0 <= k < 10 ==> s[0..10][k] == s[k];
    }
    assert d[0..4] == x.year && d[5..7] == x.month && d[8..10] == x.day;
  }

  lemma TimeParts(x: StampText, s: string)
    requires Spelt(x) && |s| >= 20 && s[11..19] == SpellTime(x)
    ensures s[11..13] == x.hour && s[13] == ':' && s[14..16] == x.minute && s[16] == ':' && s[17..19] == x.second
  {
    hide Digits;
    var d := SpellTime(x);
    assert forall k :: 11 <= k < 19 ==> s[k] == d[k - 11] by {
      assert forall k :: 11 <= k < 19 ==> s[11..19][k - 11] == s[k];
    }
    assert d[0..2] == x.hour && d[3..5] == x.minute && d[6..8] == x.second;
  }

  /** A spelled timestamp is read as its own fields. */
  lemma StampRoundTrip(x: StampText)
    requires Spelt(x)
    ensures ParseStamp(SpellStamp(x)) == Some(StampMeaning(x))
  {
    hide Decimal, SpellStamp, SpellDate, SpellTime;
    StampParts(x);
    DateParts(x, SpellStamp(x));
    TimeParts(x, SpellStamp(x));
  }

  lemma SpellsDate(s: string, x: StampText)
    requires |s| >= 20 && x.year == s[0..4] && x.month == s[5..7] && x.day == s[8..10] && s[4] == '-' && s[7] == '-'
    ensures SpellDate(x) == s[0..10]
  {
  }

  lemma SpellsTime(s: string, x: StampText)
    requires |s| >= 20 && x.hour == s[11..13] && x.minute == s[14..16] && x.second == s[17..19] && s[13] == ':' && s[16] == ':'
    ensures SpellTime(x) == s[11..19]
  {
  }

  lemma SpellsStamp(s: string, x: StampText)
    requires (|s| == 20 && x.fraction.None?) || (|s| == 24 && s[19] == '.' && x.fraction == Some(s[20..23]))
    requires SpellDate(x) == s[0..10] && s[10] == 'T' && SpellTime(x) == s[11..19] && s[|s| - 1] == 'Z'
    ensures SpellStamp(x) == s
  {
    hide SpellDate, SpellTime;
  }

  /** A timestamp is read exactly when it is spelled this way. */
  lemma StampAcceptedIff(s: string)
    ensures ParseStamp(s).Some? <==> exists x :: Spelt(x) && SpellStamp(x) == s
  {
    hide Decimal, SpellStamp, SpellDate, SpellTime;
    if ParseStamp(s).Some? {
      var x := StampText(s[0..4], s[5..7], s[8..10], s[11..13], s[14..16], s[17..19], if |s| == 24 then Some(s[20..23]) else None);
      SpellsDate(s, x);
      SpellsTime(s, x);
      SpellsStamp(s, x);
      assert Spelt(x) && SpellStamp(x) == s;
    }
    if x :| Spelt(x) && SpellStamp(x) == s {
      StampRoundTrip(x);
    }
  }

  /** The time value in milliseconds that `Date.UTC` gives these fields. */
  function TimeValue(st: Stamp): int {
    DateUtc(st.year, st.month - 1, st.day) * 86400000
    + ((st.hour * 60 + st.minute) * 60 + st.second) * 1000 + st.millisecond
  }

  /** The source's test: the fields survive a round trip through a time value. */
  predicate SurvivesDate(st: Stamp) {
    var time := TimeValue(st);
    var day := time / 86400000;
    && YearOf(day) == st.year && MonthOf(day) == st.month && DateOf(day) == st.day
    && time / 3600000 % 24 == st.hour && time / 60000 % 60 == st.minute
    && time / 1000 % 60 == st.second && time % 1000 == st.millisecond
  }

  predicate IsValidUtcTimestamp(s: string) {
    var st := ParseStamp(s);
    st.Some? && SurvivesDate(st.value)
  }

  lemma TimeFields(day: int, h: int, mi: int, sec: int, ms: int)
    requires 0 <= h < 24 && 0 <= mi < 60 && 0 <= sec < 60 && 0 <= ms < 1000
    ensures var time := day * 86400000 + ((h * 60 + mi) * 60 + sec) * 1000 + ms;
            && time / 86400000 == day && time / 3600000 % 24 == h && time / 60000 % 60 == mi
            && time / 1000 % 60 == sec && time % 1000 == ms
            && time / 60000 == day * 1440 + h * 60 + mi
  {
    var time := day * 86400000 + ((h * 60 + mi) * 60 + sec) * 1000 + ms;
    assert time / 1000 == day * 86400 + (h * 60 + mi) * 60 + sec;
    assert time / 60000 == day * 1440 + h * 60 + mi;
    assert time / 3600000 == day * 24 + h;
  }

  /** A stamp is accepted exactly when it names a calendar instant of the years 100 and later. */
  lemma ValidStamps(st: Stamp)
    requires Naturals(st) && st.millisecond < 1000
    ensures SurvivesDate(st) <==>
            && st.year >= 100 && 1 <= st.month <= 12 && 1 <= st.day <= DaysInMonth(st.year, st.month)
            && st.hour < 24 && st.minute < 60 && st.second < 60
  {
    hide MonthStart, MonthIndex, DaysInMonth;
    if st.hour < 24 && st.minute < 60 && st.second < 60 {
      TimeFields(DateUtc(st.year, st.month - 1, st.day), st.hour, st.minute, st.second, st.millisecond);
      if 1 <= st.month <= 12 {
        if st.year >= 100 {
          MakeDayFields(st.year, st.month, st.day);
        } else {
          TwoDigitYear(st.year, st.month, st.day);
        }
      }
    }
  }

  lemma TwoDigitYear(y: int, m: int, d: int)
    requires 0 <= y <= 99 && 1 <= m <= 12
    ensures var day := DateUtc(y, m - 1, d); !(YearOf(day) == y && MonthOf(day) == m && DateOf(day) == d)
  {
    hide MonthStart, MonthIndex;
    var day := DateUtc(y, m - 1, d);
    var k := 12 * y + m - 1;
    MonthStartMonotone(k, 12 * (1900 + y) + m - 1);
    assert 12 * (1900 + y) + m - 1 != k;
    assert MonthIndex(day) == 12 * YearOf(day) + MonthOf(day) - 1;
  }

  /** Entry point: the least whole minute strictly after the instant at which the expression fires. */
  method NextCronOccurrence(expression: string, after: string) returns (r: Option<int>)
    ensures r.Some? <==>
            IsValidUtcTimestamp(after) && CronOf(expression).Some? && !Impossible(CronOf(expression).value)
    ensures r.Some? ==> NextAfter(CronOf(expression).value, TimeValue(ParseStamp(after).value), r.value)
  {
    hide MonthStart, MonthIndex, Fires, Impossible, CronOf;
    if !IsValidUtcTimestamp(after) {
      return None;
    }
    var c := ParseCron(expression);
    if c.None? {
      return None;
    }
    ParsedIsWellFormed(expression);
    var st := ParseStamp(after).value;
    FractionDigits(after);
    ValidStamps(st);
    var time := TimeValue(st);
    TimeFields(DateUtc(st.year, st.month - 1, st.day), st.hour, st.minute, st.second, st.millisecond);
    Clock(time / 60000);
    assert DayOf(time / 60000) == time / 86400000;
    r := NextOccurrence(c.value, time / 60000);
  }

  ghost predicate NextAfter(c: Cron, time: int, t: int) {
    time < t * 60000 && Fires(c, t) && forall u :: time < u * 60000 && u < t ==> !Fires(c, u)
  }

  lemma FractionDigits(s: string)
    requires ParseStamp(s).Some?
    ensures ParseStamp(s).value.millisecond < 1000
  {
    if |s| == 24 {
      var f := s[20..23];
      assert f[..2][..1] == [f[0]] && f[..2][1] == f[1];
      assert Decimal(f[..2][..1]) == 10 * Decimal(f[..2][..1][..0]) + (f[0] as int - '0' as int);
      assert Decimal(f[..2]) == 10 * Decimal(f[..2][..1]) + (f[1] as int - '0' as int);
      assert Decimal(f) == 10 * Decimal(f[..2]) + (f[2] as int - '0' as int);
    }
  }
}
