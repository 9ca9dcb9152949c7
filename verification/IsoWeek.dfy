/** ISO 8601 week numbering as the date library's `%G` and `%V` compute it. */
module IsoWeek {
  import opened Division
  import opened Calendar
  import opened CalendarArithmetic

  const MONDAY := 1
  const THURSDAY := 4

  /** The day the library starts ISO year y on: the Monday after the last Thursday of December y-1. */
  function YearStart(y: int): int {
    LastWeekdayToDays(y - 1, 12, THURSDAY) + WeekdayMinus(MONDAY, THURSDAY)
  }

  /** `%G`: guess the year three days on, and correct it once. */
  function IsoYear(n: int): int {
    var y := FromDays(n + 3).y;
    if n < YearStart(y) then y - 1 else y
  }

  /** `%V`: full weeks since the start of that year, plus one. */
  function IsoWeekNumber(n: int): int {
    var y := FromDays(n + 3).y;
    var st := YearStart(y);
    if n < st then TruncDiv(n - YearStart(y - 1), 7) + 1 else TruncDiv(n - st, 7) + 1
  }

  // ---------------------------------------------------------------- reference definitions

  /** The Thursday of the Monday-based week that contains day n. */
  function ThursdayOf(n: int): int {
    n - (n + 3) % 7 + 3
  }

  function JanuaryFirst(y: int): int {
    ToDays(Date(y, 1, 1))
  }

  /** How many Thursdays there are among the days from `lo` to `hi` inclusive. */
  function CountThursdays(lo: int, hi: int): nat
    decreases hi - lo
  {
    if hi < lo then 0
    else CountThursdays(lo, hi - 1) + (if Weekday(hi) == THURSDAY then 1 else 0)
  }

  // ---------------------------------------------------------------- proofs

  lemma ThursdayOfIsInWeek(n: int)
    ensures Weekday(ThursdayOf(n)) == THURSDAY
    ensures Weekday(ThursdayOf(n) - 3) == MONDAY
    ensures ThursdayOf(n) - 3 <= n <= ThursdayOf(n) + 3
  {
    var q := (n + 3) / 7;
    assert ThursdayOf(n) + 4 == q * 7 + 4;
    DivUnique(ThursdayOf(n) + 4, 7, q, 4);
    DivUnique(ThursdayOf(n) + 1, 7, q, 1);
  }

  /** A year's days are those from its January 1st up to the next. */
  lemma YearOfDay(n: int, y: int)
    ensures FromDays(n).y == y <==> JanuaryFirst(y) <= n < JanuaryFirst(y + 1)
  {
    hide FromDays, ToDays;
    DayRoundTrip(n);
    var t := FromDays(n);
    OrderPreserved(t, Date(y, 1, 1));
    OrderPreserved(t, Date(y + 1, 1, 1));
  }

  lemma NewYear(y: int)
    ensures ToDays(Date(y, 12, 31)) + 1 == JanuaryFirst(y + 1)
    ensures 365 <= JanuaryFirst(y + 1) - JanuaryFirst(y) <= 366
  {
    hide ToDays;
    NextDateIsNextDay(Date(y, 12, 31));
    ToDaysClosed(Date(y, 1, 1));
    ToDaysClosed(Date(y + 1, 1, 1));
    MarchFirstStep(y - 1);
  }

  /** The start of ISO year y is the Monday of the week with the first Thursday of y. */
  lemma YearStartIsFirstWeek(y: int)
    ensures Weekday(YearStart(y)) == MONDAY
    ensures JanuaryFirst(y) <= YearStart(y) + 3 <= JanuaryFirst(y) + 6
  {
    WeekdayMinusIsMod(MONDAY, THURSDAY);
    hide FromDays, ToDays, LastWeekdayToDays, WeekdayMinus;
    LastWeekdayIsLast(y - 1, 12, THURSDAY);
    NewYear(y - 1);
    var d := LastWeekdayToDays(y - 1, 12, THURSDAY);
    assert LastDay(y - 1, 12) == 31;
    assert YearStart(y) == d + 4;
    DivUnique(d + 8, 7, (d + 4) / 7 + 1, 1);
  }

  /** Day n lies in or after ISO year y exactly when its Thursday does. */
  lemma StartDecides(n: int, y: int)
    ensures YearStart(y) <= n <==> JanuaryFirst(y) <= ThursdayOf(n)
    ensures (ThursdayOf(n) - 3 - YearStart(y)) % 7 == 0
  {
    YearStartIsFirstWeek(y);
    ThursdayOfIsInWeek(n);
    hide FromDays, ToDays, YearStart, ThursdayOf;
    var th, st := ThursdayOf(n), YearStart(y);
    var k := (th + 1) / 7 - (st + 4) / 7;
    assert th - 3 - st == k * 7;
    DivUnique(th - 3 - st, 7, k, 0);
  }

  /** `%G` is the year that contains the Thursday of the week, so one correction suffices. */
  lemma IsoYearIsThursdaysYear(n: int)
    ensures IsoYear(n) == FromDays(ThursdayOf(n)).y
    ensures YearStart(IsoYear(n)) <= n < YearStart(IsoYear(n) + 1)
  {
    var y := FromDays(n + 3).y;
    ThursdayOfIsInWeek(n);
    hide FromDays, ToDays, YearStart, ThursdayOf;
    StartDecides(n, y - 1);
    StartDecides(n, y);
    StartDecides(n, y + 1);
    YearOfDay(n + 3, y);
    NewYear(y - 1);
    YearOfDay(ThursdayOf(n), y - 1);
    YearOfDay(ThursdayOf(n), y);
  }

  /** Counting Thursdays from January 1st: the first is in the starting week, then one a week. */
  lemma {:induction false} ThursdaysCounted(y: int, k: nat)
    ensures CountThursdays(JanuaryFirst(y), YearStart(y) + 3 + 7 * k) == k + 1
    decreases k
  {
    YearStartIsFirstWeek(y);
    hide ToDays, YearStart;
    var lo, th := JanuaryFirst(y), YearStart(y) + 3 + 7 * k;
    assert Weekday(th) == THURSDAY by {
      DivUnique(th + 4, 7, (YearStart(y) + 4) / 7 + k, 4);
    }
    if k == 0 {
      NoThursday(lo, lo - 1, th - 1, th);
    } else {
      ThursdaysCounted(y, k - 1);
      NoThursday(lo, th - 7, th - 1, th);
    }
  }

  /** No Thursday in the days after `a` when less than a week is left to the Thursday `th`. */
  lemma {:induction false} NoThursday(lo: int, a: int, b: int, th: int)
    requires lo - 1 <= a <= b < th && th - a <= 7 && Weekday(th) == THURSDAY
    ensures CountThursdays(lo, b) == CountThursdays(lo, a)
    decreases b - a
  {
    if a < b {
      NoThursday(lo, a, b - 1, th);
    }
  }

  /** `%V` is the ordinal of the week's Thursday among the Thursdays of its year, from 1 to 53. */
  lemma IsoWeekIsThursdaysOrdinal(n: int)
    ensures IsoWeekNumber(n) == CountThursdays(JanuaryFirst(IsoYear(n)), ThursdayOf(n))
    ensures 1 <= IsoWeekNumber(n) <= 53
  {
    hide *;
    var y := IsoYear(n);
    WeekFromStart(n);
    IsoYearIsThursdaysYear(n);
    StartDecides(n, y);
    ThursdayOfIsInWeek(n);
    NewYear(y);
    YearStartIsFirstWeek(y);
    YearStartIsFirstWeek(y + 1);
    WeekOffset(n, YearStart(y), ThursdayOf(n));
    YearHas53Weeks(n, YearStart(y), YearStart(y + 1), JanuaryFirst(y), JanuaryFirst(y + 1));
    ThursdaysCounted(y, (n - YearStart(y)) / 7);
  }

  lemma WeekOffset(n: int, st: int, th: int)
    requires (th - 3 - st) % 7 == 0 && th - 3 <= n <= th + 3
    ensures th == st + 3 + 7 * ((n - st) / 7)
  {
    DivUnique(n - st, 7, (th - 3 - st) / 7, n - th + 3);
  }

  lemma YearHas53Weeks(n: int, st: int, st': int, jan: int, jan': int)
    requires Weekday(st) == MONDAY && Weekday(st') == MONDAY && st <= n < st'
    requires jan <= st + 3 <= jan + 6 && jan' <= st' + 3 <= jan' + 6 && jan' - jan <= 366
    ensures 0 <= (n - st) / 7 <= 52
  {
    assert st' - st == ((st' + 4) / 7 - (st + 4) / 7) * 7;
  }

  lemma WeekFromStart(n: int)
    ensures IsoWeekNumber(n) == (n - YearStart(IsoYear(n))) / 7 + 1
  {
    IsoYearIsThursdaysYear(n);
    hide FromDays, YearStart;
  }

  /** Monday to Sunday share one ISO year and week. */
  lemma WeekIsUniform(n: int, k: int)
    requires Weekday(n) == MONDAY && 0 <= k < 7
    ensures IsoYear(n + k) == IsoYear(n) && IsoWeekNumber(n + k) == IsoWeekNumber(n)
  {
    hide FromDays, ToDays, IsoYear, IsoWeekNumber;
    IsoYearIsThursdaysYear(n);
    IsoYearIsThursdaysYear(n + k);
    IsoWeekIsThursdaysOrdinal(n);
    IsoWeekIsThursdaysOrdinal(n + k);
    SameThursday(n, k);
  }

  lemma SameThursday(n: int, k: int)
    requires Weekday(n) == MONDAY && 0 <= k < 7
    ensures ThursdayOf(n + k) == ThursdayOf(n)
  {
    DivUnique(n + 3, 7, (n + 4) / 7, 0);
    DivUnique(n + k + 3, 7, (n + 4) / 7, k);
  }
}
