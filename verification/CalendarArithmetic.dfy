/** Month and weekday arithmetic of the date library, and dates named by weekday. */
module CalendarArithmetic {
  import opened Division
  import opened Calendar

  // ---------------------------------------------------------------- weekdays

  lemma WeekdayMinusIsMod(x: int, y: int)
    ensures WeekdayMinus(x, y) == (x - y) % 7
  {
    FloorIdiomIsFloor(x - y, 7);
  }

  lemma WeekdayPlusIsMod(x: int, days: int)
    ensures WeekdayPlus(x, days) == (x + days) % 7
  {
    FloorIdiomIsFloor(x + days, 7);
  }

  /** Days act on weekdays, and the action follows the day count. */
  lemma WeekdayAction(x: int, n: int, a: int, b: int)
    ensures WeekdayPlus(WeekdayPlus(x, a), b) == WeekdayPlus(x, a + b)
    ensures WeekdayPlus(Weekday(n), b) == Weekday(n + b)
  {
    hide WeekdayPlus;
    WeekdayPlusIsMod(x, a);
    WeekdayPlusIsMod(WeekdayPlus(x, a), b);
    WeekdayPlusIsMod(x, a + b);
    WeekdayPlusIsMod(Weekday(n), b);
    ModOfSum(x + a, b, 7);
    ModOfSum(n + 4, b, 7);
    assert (x + a) + b == x + (a + b) && (n + 4) + b == n + b + 4;
  }

  /** The difference of two weekdays is the number of days from one on to the other. */
  lemma WeekdayDifference(x: int, y: int)
    requires 0 <= x < 7 && 0 <= y < 7
    ensures WeekdayPlus(y, WeekdayMinus(x, y)) == x
    ensures 0 <= WeekdayMinus(x, y) <= 6
  {
    hide WeekdayPlus, WeekdayMinus;
    WeekdayMinusIsMod(x, y);
    WeekdayPlusIsMod(y, WeekdayMinus(x, y));
    ModOfSum(x - y, y, 7);
    assert (x - y) + y == x;
  }

  lemma ModOfSum(p: int, q: int, k: int)
    requires k > 0
    ensures (p % k + q) % k == (p + q) % k
  {
    var s := p % k + q;
    assert p + q == p / k * k + s;
    assert p + q == (p / k + s / k) * k + s % k;
    DivUnique(p + q, k, p / k + s / k, s % k);
  }

  // ---------------------------------------------------------------- months

  /** `operator+` of a month and a number of months. */
  function MonthPlus(x: int, months: int): int {
    var mu := x + months - 1;
    mu - FloorIdiom(mu, 12) * 12 + 1
  }

  /** `operator-` on months, with the unsigned 32-bit subtraction spelled out. */
  function MonthMinus(x: int, y: int): int {
    var d := (x - y) % 0x1_0000_0000;
    if d <= 11 then d else (d + 12) % 0x1_0000_0000
  }

  datatype YearMonth = YearMonth(y: int, m: int)

  /** `operator+` of a year-month and a number of months. */
  function YearMonthPlus(t: YearMonth, months: int): YearMonth {
    var dmi := t.m - 1 + months;
    var dy := FloorIdiom(dmi, 12);
    YearMonth(t.y + dy, dmi - dy * 12 + 1)
  }

  /** The conversion of an unsigned 32-bit number to a signed one. */
  function ToSigned(u: int): int {
    if u < 0x8000_0000 then u else u - 0x1_0000_0000
  }

  /** `operator-` on year-months: the months are subtracted unsigned and converted back. */
  function YearMonthMinus(s: YearMonth, t: YearMonth): int {
    (s.y - t.y) * 12 + ToSigned((s.m - t.m) % 0x1_0000_0000)
  }

  lemma YearMonthMinusIsSigned(s: YearMonth, t: YearMonth)
    requires 1 <= s.m <= 12 && 1 <= t.m <= 12
    ensures YearMonthMinus(s, t) == MonthIndex(s) - MonthIndex(t)
  {
    if s.m < t.m {
      assert (s.m - t.m) % 0x1_0000_0000 == s.m - t.m + 0x1_0000_0000;
    }
  }

  /** Months act on months of the year, and the unsigned difference inverts the action. */
  lemma MonthAction(x: int, y: int, a: int, b: int)
    requires 1 <= x <= 12 && 1 <= y <= 12
    ensures 1 <= MonthPlus(x, a) <= 12
    ensures MonthPlus(MonthPlus(x, a), b) == MonthPlus(x, a + b)
    ensures 0 <= MonthMinus(x, y) <= 11 && MonthPlus(y, MonthMinus(x, y)) == x
  {
    hide MonthPlus, MonthMinus;
    MonthPlusIsMod(x, a);
    MonthPlusIsMod(MonthPlus(x, a), b);
    MonthPlusIsMod(x, a + b);
    MonthMinusIsMod(x, y);
    MonthPlusIsMod(y, MonthMinus(x, y));
    ModOfSum(x + a - 1, b, 12);
    ModOfSum(x - y, y - 1, 12);
  }

  lemma MonthPlusIsMod(x: int, months: int)
    ensures MonthPlus(x, months) == (x + months - 1) % 12 + 1
  {
    FloorIdiomIsFloor(x + months - 1, 12);
  }

  /** The difference wraps below zero exactly when x comes before y, and adding 12 wraps it back. */
  lemma MonthMinusIsMod(x: int, y: int)
    requires 1 <= x <= 12 && 1 <= y <= 12
    ensures MonthMinus(x, y) == (x - y) % 12
  {
    if x < y {
      assert (x - y) % 0x1_0000_0000 == x - y + 0x1_0000_0000;
    }
  }

  /** Counting months from year 0: the coordinate on which adding months is plain addition. */
  function MonthIndex(t: YearMonth): int {
    t.y * 12 + t.m - 1
  }

  lemma YearMonthPlusAdds(t: YearMonth, months: int)
    ensures 1 <= YearMonthPlus(t, months).m <= 12
    ensures MonthIndex(YearMonthPlus(t, months)) == MonthIndex(t) + months
  {
    FloorIdiomIsFloor(t.m - 1 + months, 12);
  }

  /** Months act on year-months without losing a month at year ends, for negative counts too. */
  lemma YearMonthAction(s: YearMonth, t: YearMonth, a: int, b: int)
    requires 1 <= s.m <= 12 && 1 <= t.m <= 12
    ensures YearMonthPlus(YearMonthPlus(t, a), b) == YearMonthPlus(t, a + b)
    ensures YearMonthPlus(t, YearMonthMinus(s, t)) == s
    ensures YearMonthMinus(YearMonthPlus(t, a), t) == a
  {
    hide YearMonthPlus, YearMonthMinus;
    YearMonthPlusAdds(t, a);
    YearMonthPlusAdds(YearMonthPlus(t, a), b);
    YearMonthPlusAdds(t, a + b);
    YearMonthPlusAdds(t, YearMonthMinus(s, t));
    YearMonthMinusIsSigned(s, t);
    YearMonthMinusIsSigned(YearMonthPlus(t, a), t);
  }

  // ---------------------------------------------------------------- weekday-indexed dates

  /** The index-th weekday wd of a month. */
  datatype IndexedDate = IndexedDate(y: int, m: int, wd: int, index: int)

  predicate IndexedOk(t: IndexedDate) {
    if !(1 <= t.m <= 12) || !(0 <= t.wd <= 6) || t.index < 1 then false
    else if t.index <= 4 then true
    else WeekdayMinus(t.wd, Weekday(ToDays(Date(t.y, t.m, 1)))) + (t.index - 1) * 7 + 1 <= LastDay(t.y, t.m)
  }

  function IndexedFromDays(n: int): IndexedDate {
    var t := FromDays(n);
    IndexedDate(t.y, t.m, Weekday(n), (t.d - 1) / 7 + 1)
  }

  function IndexedToDays(t: IndexedDate): int {
    var first := ToDays(Date(t.y, t.m, 1));
    first + WeekdayMinus(t.wd, Weekday(first)) + (t.index - 1) * 7
  }

  lemma LastDayBounds(y: int, m: int)
    ensures 28 <= LastDay(y, m) <= 31
  {
  }

  lemma DaysOfMonth(y: int, m: int, d: int)
    requires 1 <= m <= 12
    ensures ToDays(Date(y, m, d)) == ToDays(Date(y, m, 1)) + d - 1
  {
    ToDaysClosed(Date(y, m, d));
    ToDaysClosed(Date(y, m, 1));
  }

  /** `ok` is exactly: the day exists, lies in the named month and has the named weekday. */
  lemma IndexedOkMeaning(t: IndexedDate)
    requires 1 <= t.m <= 12 && 0 <= t.wd <= 6 && t.index >= 1
    ensures IndexedOk(t) <==> FromDays(IndexedToDays(t)).y == t.y && FromDays(IndexedToDays(t)).m == t.m
    ensures Weekday(IndexedToDays(t)) == t.wd
  {
    var first := ToDays(Date(t.y, t.m, 1));
    var k := WeekdayMinus(t.wd, Weekday(first));
    var d := k + (t.index - 1) * 7 + 1;
    WeekdayMinusIsMod(t.wd, Weekday(first));
    hide FromDays, ToDays, LastDay, WeekdayMinus;
    LastDayBounds(t.y, t.m);
    DaysOfMonth(t.y, t.m, d);
    assert IndexedToDays(t) == ToDays(Date(t.y, t.m, d));
    WeekdayReached(first, t.wd, k, t.index - 1);
    if d <= LastDay(t.y, t.m) {
      DateRoundTrip(Date(t.y, t.m, d));
    } else {
      BeyondMonth(t.y, t.m, d);
    }
  }

  lemma WeekdayReached(first: int, wd: int, k: int, weeks: int)
    requires 0 <= wd <= 6 && k == (wd - Weekday(first)) % 7
    ensures Weekday(first + k + weeks * 7) == wd
  {
    ModOfSum(wd - Weekday(first), first + 4 + weeks * 7, 7);
    ModOfSum(first + 4, -Weekday(first), 7);
    var r := (first + 4) / 7;
    assert first + 4 - Weekday(first) == r * 7;
    DivUnique(wd - Weekday(first) + (first + 4 + weeks * 7), 7, r + weeks, wd);
  }

  /** A day number past the end of a month belongs to another month. */
  lemma BeyondMonth(y: int, m: int, d: int)
    requires 1 <= m <= 12 && d > LastDay(y, m)
    ensures !(FromDays(ToDays(Date(y, m, d))).y == y && FromDays(ToDays(Date(y, m, d))).m == m)
  {
    hide FromDays, ToDays;
    var n := ToDays(Date(y, m, d));
    DayRoundTrip(n);
    var t := FromDays(n);
    if t.y == y && t.m == m {
      DaysOfMonth(y, m, d);
      DaysOfMonth(y, m, t.d);
    }
  }

  /** Day number to indexed date and back is the identity, and the index is always accepted. */
  lemma IndexedDayRoundTrip(n: int)
    ensures IndexedOk(IndexedFromDays(n)) && 1 <= IndexedFromDays(n).index <= 5
    ensures IndexedToDays(IndexedFromDays(n)) == n
  {
    hide FromDays, ToDays, LastDay, WeekdayMinus;
    DayRoundTrip(n);
    var t := FromDays(n);
    LastDayBounds(t.y, t.m);
    DaysOfMonth(t.y, t.m, t.d);
    var first := ToDays(Date(t.y, t.m, 1));
    WeekdayMinusIsMod(Weekday(n), Weekday(first));
    assert n == first + t.d - 1;
    DayOfWeekOffset(first, t.d - 1);
  }

  lemma DayOfWeekOffset(first: int, k: int)
    requires k >= 0
    ensures (Weekday(first + k) - Weekday(first)) % 7 + k / 7 * 7 == k
  {
    var a := (first + 4) / 7;
    var b := (first + k + 4) / 7;
    assert Weekday(first + k) - Weekday(first) == k - (b - a) * 7;
    DivUnique(Weekday(first + k) - Weekday(first), 7, k / 7 - (b - a), k % 7);
  }

  /** Every `ok` indexed date round-trips, fifth occurrences included. */
  lemma IndexedDateRoundTrip(t: IndexedDate)
    requires IndexedOk(t)
    ensures IndexedFromDays(IndexedToDays(t)) == t
  {
    IndexedOkMeaning(t);
    hide FromDays, ToDays, LastDay, WeekdayMinus;
    var first := ToDays(Date(t.y, t.m, 1));
    var k := WeekdayMinus(t.wd, Weekday(first));
    WeekdayMinusIsMod(t.wd, Weekday(first));
    var u := FromDays(IndexedToDays(t));
    DayRoundTrip(IndexedToDays(t));
    DaysOfMonth(t.y, t.m, u.d);
    assert u.d - 1 == k + (t.index - 1) * 7;
    DivUnique(u.d - 1, 7, t.index - 1, k);
  }

  /** `year_month_weekday_last::to_days`: back from the last day of the month to weekday wd. */
  function LastWeekdayToDays(y: int, m: int, wd: int): int {
    var d := ToDays(Date(y, m, LastDay(y, m)));
    d - WeekdayMinus(Weekday(d), wd)
  }

  /** It finds the last such weekday: in the month, and a week later is past the month. */
  lemma LastWeekdayIsLast(y: int, m: int, wd: int)
    requires 1 <= m <= 12 && 0 <= wd <= 6
    ensures Weekday(LastWeekdayToDays(y, m, wd)) == wd
    ensures ToDays(Date(y, m, LastDay(y, m))) - 6 <= LastWeekdayToDays(y, m, wd) <= ToDays(Date(y, m, LastDay(y, m)))
    ensures FromDays(LastWeekdayToDays(y, m, wd)).m == m && FromDays(LastWeekdayToDays(y, m, wd)).y == y
  {
    var d := ToDays(Date(y, m, LastDay(y, m)));
    var k := WeekdayMinus(Weekday(d), wd);
    WeekdayMinusIsMod(Weekday(d), wd);
    hide FromDays, ToDays, LastDay, WeekdayMinus;
    LastDayBounds(y, m);
    DaysOfMonth(y, m, LastDay(y, m));
    DaysOfMonth(y, m, LastDay(y, m) - k);
    DateRoundTrip(Date(y, m, LastDay(y, m) - k));
    var a, b := (d + 4) / 7, (Weekday(d) - wd) / 7;
    assert d - k + 4 == (a + b) * 7 + wd;
    DivUnique(d - k + 4, 7, a + b, wd);
  }
}
