/** Civil calendar arithmetic of the vendored date library: day numbers, dates and weekdays.

    A day number counts days from 1970-01-01. Years are unbounded integers here; `InShortRange`
    says which day numbers give a year that fits the library's 16-bit field.
 */
module Calendar {
  import opened Division

  /** C's `/`, which truncates toward zero. */
  function TruncDiv(a: int, b: int): int
    requires b > 0
  {
    if a >= 0 then a / b else -((-a) / b)
  }

  /** The library's idiom for flooring with a truncating division. */
  function FloorIdiom(a: int, b: int): int
    requires b > 0
  {
    TruncDiv(if a >= 0 then a else a - (b - 1), b)
  }

  lemma FloorIdiomIsFloor(a: int, b: int)
    requires b > 0
    ensures FloorIdiom(a, b) == a / b
    ensures 0 <= a - FloorIdiom(a, b) * b < b
  {
    var q, r := a / b, a % b;
    assert a == q * b + r;
    if a < 0 {
      var n := -(a - (b - 1));
      assert n == (-q) * b + (b - 1 - r);
      DivUnique(n, b, -q, b - 1 - r);
    }
  }

  // ---------------------------------------------------------------- dates

  datatype Date = Date(y: int, m: int, d: int)

  predicate IsLeap(y: int) {
    y % 4 == 0 && (y % 100 != 0 || y % 400 == 0)
  }

  const MONTH_LENGTHS: seq<int> := [31, 28, 31, 30, 31, 30, 31, 31, 30, 31, 30, 31]

  /** `year_month_day_last::day`: 29 for February of a leap year and for a month that is not one. */
  function LastDay(y: int, m: int): (d: int)
    ensures !(1 <= m <= 12) ==> d == 29
  {
    if (m != 2 || !IsLeap(y)) && 1 <= m <= 12 then MONTH_LENGTHS[m - 1] else 29
  }

  predicate Ok(t: Date) {
    1 <= t.m <= 12 && 1 <= t.d <= LastDay(t.y, t.m)
  }

  /** `operator<` on dates. */
  predicate Before(s: Date, t: Date) {
    s.y < t.y || (s.y == t.y && (s.m < t.m || (s.m == t.m && s.d < t.d)))
  }

  function ToDays(t: Date): int {
    var y := t.y - (if t.m <= 2 then 1 else 0);
    var era := FloorIdiom(y, 400);
    var yoe := y - era * 400;
    var doy := (153 * (if t.m > 2 then t.m - 3 else t.m + 9) + 2) / 5 + t.d - 1;
    var doe := yoe * 365 + yoe / 4 - yoe / 100 + doy;
    era * 146097 + doe - 719468
  }

  function FromDays(n: int): Date {
    var z := n + 719468;
    var era := FloorIdiom(z, 146097);
    FromEra(era, z - era * 146097)
  }

  /** The next part of `from_days`: the date at day `doe` of a 400-year era. */
  function FromEra(era: int, doe: int): Date {
    var yoe := (doe - doe / 1460 + doe / 36524 - doe / 146096) / 365;
    FromYear(yoe + era * 400, doe - (365 * yoe + yoe / 4 - yoe / 100))
  }

  /** The last part of `from_days`: the date at day `doy` of the year that starts on March 1st of y. */
  function FromYear(y: int, doy: int): Date {
    var mp := (5 * doy + 2) / 153;
    var d := doy - (153 * mp + 2) / 5 + 1;
    var m := if mp < 10 then mp + 3 else mp - 9;
    Date(y + (if m <= 2 then 1 else 0), m, d)
  }

  // ---------------------------------------------------------------- reference definitions

  /** Days from 0000-03-01 to March 1st of year y: 365 a year and one for each leap day passed. */
  function MarchFirst(y: int): int {
    365 * y + y / 4 - y / 100 + y / 400
  }

  /** Days from March 1st to the first of the month that is `mp` months after March. */
  function MonthStart(mp: int): int {
    (153 * mp + 2) / 5
  }

  /** The calendar successor, by month lengths and the leap rule alone. */
  function NextDate(t: Date): Date {
    if t.d < LastDay(t.y, t.m) then t.(d := t.d + 1)
    else if t.m < 12 then Date(t.y, t.m + 1, 1)
    else Date(t.y + 1, 1, 1)
  }

  // ---------------------------------------------------------------- proofs

  lemma MarchFirstStep(y: int)
    ensures MarchFirst(y + 1) == MarchFirst(y) + 365 + (if IsLeap(y + 1) then 1 else 0)
  {
    StepDiv(y, 4);
    StepDiv(y, 100);
    StepDiv(y, 400);
    assert (y + 1) % 400 == 0 ==> (y + 1) % 100 == 0;
    assert (y + 1) % 100 == 0 ==> (y + 1) % 4 == 0;
  }

  lemma StepDiv(y: int, k: int)
    requires k > 1
    ensures (y + 1) / k == y / k + (if (y + 1) % k == 0 then 1 else 0)
  {
    var q, r := y / k, y % k;
    assert y == q * k + r;
    if r == k - 1 {
      assert y + 1 == (q + 1) * k + 0;
      DivUnique(y + 1, k, q + 1, 0);
    } else {
      DivUnique(y + 1, k, q, r + 1);
    }
  }

  /** A 400-year era has 146097 days. */
  lemma MarchFirstOfEra(era: int, yoe: int)
    requires 0 <= yoe < 400
    ensures MarchFirst(era * 400 + yoe) == era * 146097 + 365 * yoe + yoe / 4 - yoe / 100
  {
    var y := era * 400 + yoe;
    DivUnique(y, 4, era * 100 + yoe / 4, yoe % 4);
    DivUnique(y, 100, era * 4 + yoe / 100, yoe % 100);
    DivUnique(y, 400, era, yoe);
  }

  /** Days in the March-based years from 0 up to y, counted one year at a time; the year that starts in
      March of y - 1 ends with February of y. */
  function DaysOfYears(y: int): int
    decreases if y >= 0 then y else -y
  {
    if y == 0 then 0
    else if y > 0 then DaysOfYears(y - 1) + 365 + (if IsLeap(y) then 1 else 0)
    else DaysOfYears(y + 1) - 365 - (if IsLeap(y + 1) then 1 else 0)
  }

  /** Days in the first `mp` months from March on, by the month length table. */
  function DaysOfMonths(mp: nat): int
    requires mp <= 11
  {
    if mp == 0 then 0 else DaysOfMonths(mp - 1) + MONTH_LENGTHS[MonthBefore(mp) - 1]
  }

  /** The month that ends where the one `mp` months after March begins. */
  function MonthBefore(mp: nat): int {
    if mp <= 10 then mp + 2 else 1
  }

  lemma {:induction false} MarchFirstCounts(y: int)
    ensures MarchFirst(y) == DaysOfYears(y)
    decreases if y >= 0 then y else -y
  {
    hide IsLeap, MarchFirst;
    if y == 0 {
      assert MarchFirst(0) == 0 by { YearZero(); }
    } else if y > 0 {
      MarchFirstCounts(y - 1);
      MarchFirstStep(y - 1);
    } else {
      MarchFirstCounts(y + 1);
      MarchFirstStep(y);
    }
  }

  lemma YearZero()
    ensures MarchFirst(0) == 0 && MonthStart(0) == 0
  {
  }

  lemma {:induction false} MonthStartCounts(mp: nat)
    requires mp <= 11
    ensures MonthStart(mp) == DaysOfMonths(mp)
  {
    hide MonthStart;
    if mp == 0 {
      YearZero();
    } else {
      MonthStartCounts(mp - 1);
      MonthStep(mp);
      hide MonthBefore;
    }
  }

  lemma MonthStep(mp: nat)
    requires 1 <= mp <= 11
    ensures MonthStart(mp) == MonthStart(mp - 1) + MONTH_LENGTHS[MonthBefore(mp) - 1]
  {
    MonthLengths(1, MonthBefore(mp));
    hide MonthStart;
    assert LastDay(1, MonthBefore(mp)) == MONTH_LENGTHS[MonthBefore(mp) - 1];
  }

  /** `to_days` counts: the days of all earlier years by the leap rule, the days of the earlier months of
      the March-based year by the table, and the days of the month, from 0000-03-01 (day -719468) on. */
  lemma ToDaysCounts(t: Date)
    requires 1 <= t.m <= 12
    ensures t.m > 2 ==> ToDays(t) == DaysOfYears(t.y) + DaysOfMonths(t.m - 3) + t.d - 1 - 719468
    ensures t.m <= 2 ==> ToDays(t) == DaysOfYears(t.y - 1) + DaysOfMonths(t.m + 9) + t.d - 1 - 719468
  {
    hide ToDays, MarchFirst, MonthStart;
    ToDaysClosed(t);
    MarchFirstCounts(t.y);
    MarchFirstCounts(t.y - 1);
    MonthStartCounts(if t.m > 2 then t.m - 3 else t.m + 9);
  }

  /** The closed form of `to_days` by March-based year and month. */
  lemma ToDaysClosed(t: Date)
    ensures t.m > 2 ==> ToDays(t) == MarchFirst(t.y) + MonthStart(t.m - 3) + t.d - 1 - 719468
    ensures t.m <= 2 ==> ToDays(t) == MarchFirst(t.y - 1) + MonthStart(t.m + 9) + t.d - 1 - 719468
  {
    var y := t.y - (if t.m <= 2 then 1 else 0);
    FloorIdiomIsFloor(y, 400);
    var era := FloorIdiom(y, 400);
    MarchFirstOfEra(era, y - era * 400);
  }

  /** The year-of-era formula: four divisions undo the leap-day count. */
  lemma YearOfEra(yoe: int, doy: int, doe: int)
    requires 0 <= yoe < 400 && 0 <= doy < 365 + (if IsLeap(yoe + 1) then 1 else 0)
    requires doe == 365 * yoe + yoe / 4 - yoe / 100 + doy
    ensures 0 <= doe < 146097
    ensures (doe - doe / 1460 + doe / 36524 - doe / 146096) / 365 == yoe
  {
    var c, q, r := yoe / 100, yoe / 4, yoe % 4;
    Century(yoe, doy, doe);
    var t := 365 * r + q - c + doy;
    assert doe == 1460 * q + t;
    assert 0 <= q - c <= 96;
    if t < 1460 {
      DivUnique(doe, 1460, q, t);
      assert doy == 365 ==> r == 3;
    } else {
      DivUnique(doe, 1460, q + 1, t - 1460);
    }
  }

  lemma Century(yoe: int, doy: int, doe: int)
    requires 0 <= yoe < 400 && 0 <= doy < 365 + (if IsLeap(yoe + 1) then 1 else 0)
    requires doe == 365 * yoe + yoe / 4 - yoe / 100 + doy
    ensures 0 <= doe < 146097
    ensures doe / 36524 - doe / 146096 == yoe / 100
  {
    var c, k := yoe / 100, yoe % 100;
    assert yoe == 100 * c + k;
    assert yoe / 4 == 25 * c + k / 4;
    var t := 365 * k + k / 4 + doy;
    assert doe == 36524 * c + t;
    assert k < 99 ==> t <= 365 * 98 + 24 + 365;
    if k == 99 {
      assert yoe + 1 == 100 * (c + 1);
      assert IsLeap(yoe + 1) <==> c == 3;
    }
    if t < 36524 {
      DivUnique(doe, 36524, c, t);
    } else {
      assert c == 3 && t == 36524;
    }
  }

  /** The month formula inverts the month starts. */
  lemma MonthOfYear(mp: int, doy: int)
    requires 0 <= mp < 12
    requires MonthStart(mp) <= doy < MonthStart(mp + 1)
    ensures (5 * doy + 2) / 153 == mp
  {
  }

  /** Between them the month starts leave exactly the tabulated lengths; February takes the rest. */
  lemma MonthLengths(y: int, m: int)
    requires 1 <= m <= 12
    ensures m > 2 ==> MonthStart(m - 2) - MonthStart(m - 3) == LastDay(y, m)
    ensures m == 1 ==> MonthStart(11) - MonthStart(10) == LastDay(y, 1)
    ensures m == 2 ==> MonthStart(11) + LastDay(y, 2) == 365 + (if IsLeap(y) then 1 else 0)
  {
  }

  /** Where an `ok` date lies in its March-based year. */
  lemma Located(t: Date) returns (y: int, mp: int, doy: int)
    requires Ok(t)
    ensures y == t.y - (if t.m <= 2 then 1 else 0)
    ensures mp == (if t.m > 2 then t.m - 3 else t.m + 9)
    ensures doy == MonthStart(mp) + t.d - 1
    ensures 0 <= mp < 12 && MonthStart(mp) <= doy < MonthStart(mp + 1)
    ensures 0 <= doy < 365 + (if IsLeap(y + 1) then 1 else 0)
    ensures ToDays(t) == MarchFirst(y) + doy - 719468
  {
    y := t.y - (if t.m <= 2 then 1 else 0);
    mp := if t.m > 2 then t.m - 3 else t.m + 9;
    doy := MonthStart(mp) + t.d - 1;
    ToDaysClosed(t);
    MonthLengths(t.y, t.m);
  }

  lemma FromYearAt(y: int, doy: int, mp: int)
    requires 0 <= mp < 12 && MonthStart(mp) <= doy < MonthStart(mp + 1)
    ensures FromYear(y, doy) == Date(y + (if mp < 10 then 0 else 1),
                                     if mp < 10 then mp + 3 else mp - 9, doy - MonthStart(mp) + 1)
  {
    MonthOfYear(mp, doy);
  }

  lemma FromEraAt(era: int, yoe: int, doy: int)
    requires 0 <= yoe < 400 && 0 <= doy < 365 + (if IsLeap(yoe + 1) then 1 else 0)
    ensures FromEra(era, 365 * yoe + yoe / 4 - yoe / 100 + doy) == FromYear(era * 400 + yoe, doy)
  {
    hide IsLeap, FromYear;
    YearOfEra(yoe, doy, 365 * yoe + yoe / 4 - yoe / 100 + doy);
  }

  lemma FromDaysAt(n: int, era: int, doe: int)
    requires n + 719468 == era * 146097 + doe && 0 <= doe < 146097
    ensures FromDays(n) == FromEra(era, doe)
  {
    hide FromEra;
    DivUnique(n + 719468, 146097, era, doe);
    FloorIdiomIsFloor(n + 719468, 146097);
  }

  /** Every `ok` date round-trips through its day number. */
  lemma DateRoundTrip(t: Date)
    requires Ok(t)
    ensures FromDays(ToDays(t)) == t
  {
    hide FromDays, FromEra, FromYear, ToDays, IsLeap;
    var y, mp, doy := Located(t);
    var era, yoe := y / 400, y % 400;
    MarchFirstOfEra(era, yoe);
    LeapInEra(era, yoe);
    var doe := 365 * yoe + yoe / 4 - yoe / 100 + doy;
    YearOfEra(yoe, doy, doe);
    FromDaysAt(ToDays(t), era, doe);
    FromEraAt(era, yoe, doy);
    FromYearAt(y, doy, mp);
  }

  lemma LeapInEra(era: int, yoe: int)
    ensures IsLeap(era * 400 + yoe + 1) <==> IsLeap(yoe + 1)
  {
    var y := yoe + 1;
    DivUnique(era * 400 + y, 400, era + y / 400, y % 400);
    DivUnique(era * 400 + y, 100, era * 4 + y / 100, y % 100);
    DivUnique(era * 400 + y, 4, era * 100 + y / 4, y % 4);
  }

  /** Consecutive dates have consecutive day numbers. */
  lemma NextDateIsNextDay(t: Date)
    requires Ok(t)
    ensures Ok(NextDate(t))
    ensures ToDays(NextDate(t)) == ToDays(t) + 1
  {
    hide ToDays, IsLeap;
    ToDaysClosed(t);
    ToDaysClosed(NextDate(t));
    MonthLengths(t.y, t.m);
    if t.m == 2 {
      MarchFirstStep(t.y - 1);
    }
  }

  /** The day before an `ok` date. */
  function PrevDate(t: Date): Date {
    if t.d > 1 then t.(d := t.d - 1)
    else if t.m > 1 then Date(t.y, t.m - 1, LastDay(t.y, t.m - 1))
    else Date(t.y - 1, 12, 31)
  }

  lemma PrevDateIsPrevDay(t: Date)
    requires Ok(t)
    ensures Ok(PrevDate(t)) && NextDate(PrevDate(t)) == t
    ensures ToDays(PrevDate(t)) == ToDays(t) - 1
  {
    NextDateIsNextDay(PrevDate(t));
  }

  lemma EpochIsDayZero()
    ensures ToDays(Date(1970, 1, 1)) == 0
  {
  }

  /** Every day number names an `ok` date, and `to_days` maps it back. */
  lemma {:induction false} DayRoundTrip(n: int)
    ensures Ok(FromDays(n)) && ToDays(FromDays(n)) == n
    decreases if n >= 0 then n else -n
  {
    hide FromDays, ToDays;
    var epoch := Date(1970, 1, 1);
    if n == 0 {
      EpochIsDayZero();
      DateRoundTrip(epoch);
    } else if n > 0 {
      DayRoundTrip(n - 1);
      var t := FromDays(n - 1);
      NextDateIsNextDay(t);
      DateRoundTrip(NextDate(t));
    } else {
      DayRoundTrip(n + 1);
      var t := FromDays(n + 1);
      PrevDateIsPrevDay(t);
      DateRoundTrip(PrevDate(t));
    }
  }

  /** Day n+1 is the calendar successor of day n; with day 0 this fixes `from_days` everywhere. */
  lemma SuccessorDay(n: int)
    ensures FromDays(0) == Date(1970, 1, 1)
    ensures FromDays(n + 1) == NextDate(FromDays(n))
  {
    hide FromDays, ToDays;
    assert ToDays(Date(1970, 1, 1)) == 0 by { EpochIsDayZero(); }
    DateRoundTrip(Date(1970, 1, 1));
    DayRoundTrip(n);
    NextDateIsNextDay(FromDays(n));
    DateRoundTrip(NextDate(FromDays(n)));
  }

  /** The conversion is an order isomorphism. */
  lemma OrderPreserved(s: Date, t: Date)
    requires Ok(s) && Ok(t)
    ensures Before(s, t) <==> ToDays(s) < ToDays(t)
    ensures ToDays(s) == ToDays(t) <==> s == t
  {
    hide FromDays, ToDays, LastDay;
    DateRoundTrip(s);
    DateRoundTrip(t);
    if Before(s, t) {
      BeforeIsLess(s, t);
    } else if Before(t, s) {
      BeforeIsLess(t, s);
    }
  }

  lemma NextDateApproaches(s: Date, t: Date)
    requires Ok(s) && Ok(t) && Before(s, t)
    ensures NextDate(s) == t || Before(NextDate(s), t)
    ensures 0 <= Distance(NextDate(s), t) < Distance(s, t)
  {
    hide IsLeap;
    assert 28 <= LastDay(s.y, s.m) <= 31 && 28 <= LastDay(t.y, t.m) <= 31;
  }

  /** An upper bound on the number of days between two dates. */
  function Distance(s: Date, t: Date): int {
    ((t.y - s.y) * 12 + t.m - s.m) * 31 + t.d - s.d
  }

  lemma {:induction false} BeforeIsLess(s: Date, t: Date)
    requires Ok(s) && Ok(t) && Before(s, t)
    ensures ToDays(s) < ToDays(t)
    decreases Distance(s, t)
  {
    hide ToDays, NextDate;
    NextDateIsNextDay(s);
    NextDateApproaches(s, t);
    if NextDate(s) != t {
      BeforeIsLess(NextDate(s), t);
    }
  }

  /** Which day numbers give a year that the library's 16-bit `year` can hold and call `ok`. */
  lemma InShortRange(n: int)
    ensures -32767 <= FromDays(n).y <= 32767
       <==> ToDays(Date(-32767, 1, 1)) <= n <= ToDays(Date(32767, 12, 31))
    ensures ToDays(Date(-32767, 1, 1)) == -12687428 && ToDays(Date(32767, 12, 31)) == 11248737
  {
    var lo, hi, t := Date(-32767, 1, 1), Date(32767, 12, 31), FromDays(n);
    DayRoundTrip(n);
    ShortEnds();
    hide ToDays, FromDays;
    OrderPreserved(t, lo);
    OrderPreserved(hi, t);
  }

  lemma ShortEnds()
    ensures ToDays(Date(-32767, 1, 1)) == -12687428 && ToDays(Date(32767, 12, 31)) == 11248737
  {
  }

  // ---------------------------------------------------------------- weekdays

  /** The weekday of a day number, 0 for Sunday: unsigned 32-bit arithmetic on the bits of z. */
  function WeekdayFromDays(z: int): int
    requires -0x8000_0000 <= z < 0x8000_0000
  {
    var u := z % 0x1_0000_0000;
    (if z >= -4 then ((u + 4) % 0x1_0000_0000) % 7 else u % 7) % 256
  }

  /** The mathematical weekday of any day number. */
  function Weekday(z: int): int {
    (z + 4) % 7
  }

  /** The wraparound is harmless, since 2^32 leaves remainder 4 on division by 7. */
  lemma WeekdayIsEuclidean(z: int)
    requires -0x8000_0000 <= z < 0x8000_0000
    ensures WeekdayFromDays(z) == Weekday(z)
  {
    var u := z % 0x1_0000_0000;
    if z < 0 {
      assert u == z + 0x1_0000_0000;
      if z < -4 {
        DivUnique(u, 7, (z + 4) / 7 + 613566756, (z + 4) % 7);
      }
    }
  }

  /** `operator-` on weekdays: how many days after y the weekday x comes, from 0 to 6. */
  function WeekdayMinus(x: int, y: int): int {
    var wdu := x - y;
    wdu - FloorIdiom(wdu, 7) * 7
  }

  /** `operator+` of a weekday and a number of days; the constructor maps 7 to 0. */
  function WeekdayPlus(x: int, days: int): int {
    var wdu := x + days;
    var w := wdu - FloorIdiom(wdu, 7) * 7;
    if w != 7 then w else 0
  }
}
