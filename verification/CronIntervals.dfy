/**
 * Interval and date schedules: which cron text an interval is rounded to, and the minutes that text matches on an
 * unbounded minute line, across hour and day edges.
 */
module CronIntervals {
  import opened Basics
  import opened CronText

  datatype Unit = Seconds | Minutes | Hours | Days

  const MINUTE_DIVISORS: seq<nat> := [1, 2, 3, 4, 5, 6, 10, 12, 15, 20, 30, 60]
  const HOUR_DIVISORS: seq<nat> := [1, 2, 3, 4, 6, 8, 12, 24]

  function Distance(a: int, b: int): nat {
    if a < b then b - a else a - b
  }

  /** The reduce over the divisors: a later one replaces an earlier one only when strictly nearer. */
  function Closest(ds: seq<nat>, x: nat): nat
    requires ds != []
  {
    if |ds| == 1 then ds[0]
    else
      var prev, curr := Closest(ds[..|ds| - 1], x), ds[|ds| - 1];
      if Distance(curr, x) < Distance(prev, x) then curr else prev
  }

  /** The reduce finds a divisor of least distance, and the first of those in a tie. */
  lemma {:induction false} ClosestIsNearest(ds: seq<nat>, x: nat) returns (k: nat)
    requires ds != []
    ensures k < |ds| && Closest(ds, x) == ds[k]
    ensures forall i :: 0 <= i < |ds| ==> Distance(ds[k], x) <= Distance(ds[i], x)
    ensures forall i :: 0 <= i < k ==> Distance(ds[k], x) < Distance(ds[i], x)
  {
    if |ds| == 1 {
      k := 0;
    } else {
      k := ClosestIsNearest(ds[..|ds| - 1], x);
      assert forall i :: 0 <= i < |ds| - 1 ==> ds[..|ds| - 1][i] == ds[i];
      if Distance(ds[|ds| - 1], x) < Distance(ds[k], x) { k := |ds| - 1; }
    }
  }

  // ----- the printed schedules -----------------------------------------------------------------------

  function MinuteCron(mins: int): string {
    if mins <= 0 then "*/1 * * * *"
    else if mins >= 60 then
      var hours := (mins + 30) / 60; // Math.round(mins / 60)
      "0 */" + Decimal(if hours > 1 then hours else 1) + " * * *"
    else if 60 % mins == 0 then "*/" + Decimal(mins) + " * * * *"
    else "*/" + Decimal(Closest(MINUTE_DIVISORS, mins)) + " * * * *"
  }

  function HourCron(hours: nat): string {
    if hours >= 24 then "0 0 * * *"
    else if hours > 0 && 24 % hours == 0 then "0 */" + Decimal(hours) + " * * *"
    else "0 */" + Decimal(Closest(HOUR_DIVISORS, hours)) + " * * *"
  }

  /** parseEvery after its pattern has split the number from the unit. */
  function ParseEvery(value: nat, unit: Unit): Option<string> {
    if value == 0 then None
    else
      match unit
      case Seconds => if value < 60 then Some("*/1 * * * *") else Some(MinuteCron((value + 30) / 60))
      case Minutes => Some(MinuteCron(value))
      case Hours => Some(HourCron(value))
      case Days => if value == 1 then Some("0 0 * * *") else Some("0 0 */" + Decimal(value) + " * *")
  }

  function DateToCron(d: Moment): string {
    Decimal(d.minute) + " " + Decimal(d.hour) + " " + Decimal(d.dom) + " " + Decimal(d.month) + " *"
  }

  // ----- the minute line -------------------------------------------------------------------------------

  datatype Day = Day(dom: nat, month: nat, dow: nat)

  /** Minute number m of a clock without daylight saving, under any calendar of days. */
  function Wall(calendar: nat -> Day, m: nat): Moment {
    var d := calendar(m / 1440);
    Moment(m % 60, m / 60 % 24, d.dom, d.month, d.dow)
  }

  function EveryMinutes(k: nat): Schedule {
    Schedule(Every(Decimal(k)), Any, Any, Any, Any)
  }

  function EveryHours(k: nat): Schedule {
    Schedule(Exact("0"), Every(Decimal(k)), Any, Any, Any)
  }

  lemma MinuteText(k: nat, x: Moment)
    requires k > 0
    ensures ValidCron("*/" + Decimal(k) + " * * * *")
    ensures CronMatches("*/" + Decimal(k) + " * * * *", x) <==> x.minute % k == 0
  {
    hide CronMatches, ValidCron;
    TextMeans(EveryMinutes(k), x);
    assert Text(EveryMinutes(k)) == "*/" + Decimal(k) + " * * * *";
  }

  lemma ZeroText()
    ensures Digits("0") && Value("0") == 0 && Digits("1") && Value("1") == 1
  {
    assert "0"[..0] == "" && "1"[..0] == "";
  }

  lemma HourText(k: nat, x: Moment)
    requires k > 0
    ensures ValidCron("0 */" + Decimal(k) + " * * *")
    ensures CronMatches("0 */" + Decimal(k) + " * * *", x) <==> x.minute == 0 && x.hour % k == 0
  {
    hide CronMatches, ValidCron;
    ZeroText();
    TextMeans(EveryHours(k), x);
    assert Text(EveryHours(k)) == "0 */" + Decimal(k) + " * * *";
  }

  lemma DailyText(x: Moment)
    ensures ValidCron("0 0 * * *")
    ensures CronMatches("0 0 * * *", x) <==> x.minute == 0 && x.hour == 0
  {
    hide CronMatches, ValidCron;
    ZeroText();
    var s := Schedule(Exact("0"), Exact("0"), Any, Any, Any);
    TextMeans(s, x);
    assert Text(s) == "0 0 * * *";
  }

  lemma EveryMinuteText(x: Moment)
    ensures ValidCron("*/1 * * * *") && CronMatches("*/1 * * * *", x)
  {
    hide CronMatches, ValidCron;
    ZeroText();
    var s := Schedule(Every("1"), Any, Any, Any, Any);
    TextMeans(s, x);
    assert Text(s) == "*/1 * * * *";
  }

  // ----- minutes ----------------------------------------------------------------------------------------

  /** The number of minutes a request below one hour is rounded to. */
  function RoundedMinutes(mins: int): nat {
    if mins <= 0 then 1 else if mins < 60 && 60 % mins == 0 then mins else Closest(MINUTE_DIVISORS, mins)
  }

  lemma ModOfSum(k: nat, a: nat, r: nat)
    requires k > 0
    ensures (k * a + r) % k == r % k
  {
    var q := r / k;
    assert k * a + r == k * (a + q) + r % k;
    ModUnique(k, a + q, r % k);
  }

  lemma ModUnique(k: nat, q: nat, r: nat)
    requires r < k
    ensures (k * q + r) % k == r && (k * q + r) / k == q
  {
    var n := k * q + r;
    var d := n / k - q;
    assert n == k * (n / k) + n % k;
    assert k * d == r - n % k;
    assert d >= 1 ==> k * d >= k;
    assert d <= -1 ==> k * d + k <= 0;
  }

  lemma MulMono(a: nat, b: nat, c: nat)
    requires a <= b
    ensures a * c <= b * c
  {
  }

  lemma MulAssoc(a: nat, b: nat, c: nat)
    ensures a * b * c == a * (b * c)
  {
  }

  lemma CoQuotient(n: nat, k: nat) returns (q: nat)
    requires k > 0 && n % k == 0
    ensures n == k * q
  {
    q := n / k;
  }

  /** Counting modulo a divisor is not disturbed by wrapping around at the multiple. */
  lemma ModOfWrap(m: nat, c: nat, k: nat)
    requires c > 0 && k > 0 && c % k == 0
    ensures m % c % k == m % k
  {
    var q := CoQuotient(c, k);
    var turns, rest := m / c, m % c;
    assert m == c * turns + rest;
    MulAssoc(k, q, turns);
    ModOfSum(k, q * turns, rest);
  }

  lemma ModOfMultiple(c: nat, h: nat, k: nat)
    requires c > 0 && k > 0
    ensures c * k > 0 && c * h % (c * k) == c * (h % k)
  {
    assert h == k * (h / k) + h % k;
    assert c * h == c * k * (h / k) + c * (h % k);
    assert c * (h % k) < c * k;
    ModUnique(c * k, h / k, c * (h % k));
  }

  lemma CoFactor(n: nat, k: nat) returns (q: nat)
    requires k > 0 && n > 0 && n % k == 0
    ensures k * q == n && q > 0
  {
    q := n / k;
  }

  lemma DivisorsOf60(k: nat)
    requires k > 0 && 60 % k == 0
    ensures k in MINUTE_DIVISORS
  {
    var q := CoFactor(60, k);
    if k > 7 {
      MulMono(8, k, q);
      assert q == 1 || q == 2 || q == 3 || q == 4 || q == 5 || q == 6 || q == 7;
    }
  }

  lemma DivideSixty(k: nat)
    requires k in MINUTE_DIVISORS
    ensures k > 0 && 60 % k == 0
  {
  }

  /** Rounding gives a divisor of 60, and none is nearer to the request. */
  lemma RoundedIsNearestDivisor(mins: nat, d: nat)
    requires 0 < mins < 60 && d > 0 && 60 % d == 0
    ensures RoundedMinutes(mins) > 0 && 60 % RoundedMinutes(mins) == 0
    ensures Distance(RoundedMinutes(mins), mins) <= Distance(d, mins)
  {
    var k := ClosestIsNearest(MINUTE_DIVISORS, mins);
    DivisorsOf60(d);
    if 60 % mins != 0 { DivideSixty(MINUTE_DIVISORS[k]); }
    var i :| 0 <= i < |MINUTE_DIVISORS| && MINUTE_DIVISORS[i] == d;
  }

  /** Below one hour the printed schedule is valid and matches at exact spacing for ever, across hours and days. */
  lemma MinutesAreExact(mins: int, calendar: nat -> Day, m: nat)
    requires mins < 60
    ensures ValidCron(MinuteCron(mins)) && RoundedMinutes(mins) > 0
    ensures CronMatches(MinuteCron(mins), Wall(calendar, m)) <==> m % RoundedMinutes(mins) == 0
  {
    hide CronMatches, ValidCron, Closest;
    if mins <= 0 {
      EveryMinuteText(Wall(calendar, m));
    } else {
      var k := RoundedMinutes(mins);
      RoundedIsNearestDivisor(mins, 1);
      MinuteText(k, Wall(calendar, m));
      ModOfWrap(m, 60, k);
    }
  }

  // ----- hours --------------------------------------------------------------------------------------------

  lemma MultipleOfHour(m: nat, k: nat)
    requires k > 0 && m % (60 * k) == 0
    ensures m % 60 == 0
  {
    var q := CoQuotient(m, 60 * k);
    MulAssoc(60, k, q);
    ModUnique(60, k * q, 0);
  }

  lemma HourSpacing(m: nat, k: nat)
    requires k > 0 && 24 % k == 0
    ensures m % 60 == 0 && m / 60 % 24 % k == 0 <==> m % (60 * k) == 0
  {
    var h := m / 60;
    ModOfWrap(h, 24, k);
    if m % (60 * k) == 0 { MultipleOfHour(m, k); }
    if m % 60 == 0 {
      assert m == 60 * h;
      ModOfMultiple(60, h, k);
    }
  }

  lemma DivideTwentyFour(k: nat)
    requires k in HOUR_DIVISORS
    ensures k > 0 && 24 % k == 0
  {
  }

  /** The schedule matches one minute in every period, always at the same phase. */
  ghost predicate KeepsPhase(text: string, calendar: nat -> Day, period: nat, phase: nat) {
    phase < period && forall m: nat :: CronMatches(text, Wall(calendar, m)) <==> m % period == phase
  }

  ghost predicate KeepsPeriod(text: string, calendar: nat -> Day, period: nat) {
    exists phase: nat :: KeepsPhase(text, calendar, period, phase)
  }

  ghost predicate KeepsSomePeriod(text: string, calendar: nat -> Day) {
    exists period: nat, phase: nat :: KeepsPhase(text, calendar, period, phase)
  }

  /** Matches with none between them are one period apart. */
  lemma GapIsPeriod(text: string, calendar: nat -> Day, period: nat, phase: nat, m: nat, n: nat)
    requires KeepsPhase(text, calendar, period, phase) && m < n
    requires CronMatches(text, Wall(calendar, m)) && CronMatches(text, Wall(calendar, n))
    requires forall k: nat :: m < k < n ==> !CronMatches(text, Wall(calendar, k))
    ensures period == n - m
  {
    hide CronMatches;
    ModOfSum(period, 1, m);
    assert CronMatches(text, Wall(calendar, m + period));
    SameRemainder(period, m, n - m);
    if n - m < period { ModUnique(period, 0, n - m); }
  }

  /** "0 *" with a step of k hours is exactly spaced when and only when k divides 24: the count restarts at midnight. */
  lemma HourStepIsExactExactly(k: nat, calendar: nat -> Day)
    requires k > 0
    ensures 24 % k == 0 <==> KeepsPeriod("0 */" + Decimal(k) + " * * *", calendar, 60 * k)
  {
    hide CronMatches;
    var text := "0 */" + Decimal(k) + " * * *";
    if 24 % k == 0 {
      forall m: nat ensures CronMatches(text, Wall(calendar, m)) <==> m % (60 * k) == 0 {
        HourText(k, Wall(calendar, m));
        HourSpacing(m, k);
      }
      assert KeepsPhase(text, calendar, 60 * k, 0);
    } else {
      forall phase: nat ensures !KeepsPhase(text, calendar, 60 * k, phase) {
        if KeepsPhase(text, calendar, 60 * k, phase) {
          HourStepKeeping(k, calendar, phase);
          assert false;
        }
      }
    }
  }

  /** Both midnights of a day match, so a kept period divides the day. */
  lemma HourStepKeeping(k: nat, calendar: nat -> Day, phase: nat)
    requires k > 0 && KeepsPhase("0 */" + Decimal(k) + " * * *", calendar, 60 * k, phase)
    ensures 24 % k == 0
  {
    hide CronMatches;
    HourText(k, Wall(calendar, 0));
    HourText(k, Wall(calendar, 1440));
    ModUnique(k, 0, 0);
    ModUnique(60 * k, 0, 0);
    ModOfMultiple(60, 24, k);
    assert 1440 == 60 * 24;
  }

  /** A step of k hours is exactly spaced, at whatever period, when and only when k divides 24 or only midnight matches. */
  lemma HourStepKeepsSomePeriodExactly(k: nat, calendar: nat -> Day)
    requires k > 0
    ensures KeepsSomePeriod("0 */" + Decimal(k) + " * * *", calendar) <==> 24 % k == 0 || k > 24
  {
    hide CronMatches, KeepsPhase;
    var text := "0 */" + Decimal(k) + " * * *";
    if 24 % k == 0 {
      HourStepIsExactExactly(k, calendar);
    } else if k > 24 {
      OnlyMidnightMatches(k, calendar);
    } else {
      forall period: nat, phase: nat ensures !KeepsPhase(text, calendar, period, phase) {
        if KeepsPhase(text, calendar, period, phase) {
          HourGap(k, calendar, period, phase);
          HourStepKeeping(k, calendar, phase);
          assert false;
        }
      }
    }
  }

  lemma OnlyMidnightMatches(k: nat, calendar: nat -> Day)
    requires k > 24
    ensures KeepsPhase("0 */" + Decimal(k) + " * * *", calendar, 1440, 0)
  {
    hide CronMatches;
    forall m: nat ensures CronMatches("0 */" + Decimal(k) + " * * *", Wall(calendar, m)) <==> m % 1440 == 0 {
      HourText(k, Wall(calendar, m));
      ModUnique(k, 0, m / 60 % 24);
      MidnightAgain(m);
    }
  }

  lemma MidnightAgain(m: nat)
    ensures m % 60 == 0 && m / 60 % 24 == 0 <==> m % 1440 == 0
  {
    var h := m / 60;
    ModUnique(1440, h / 24, 60 * (h % 24) + m % 60);
    assert m == 1440 * (h / 24) + (60 * (h % 24) + m % 60);
  }

  lemma NoHourBetween(k: nat, m: nat)
    requires 0 < k < 24 && 0 < m < 60 * k
    ensures m % 60 == 0 ==> m / 60 % 24 % k != 0
  {
    var h := m / 60;
    if m % 60 == 0 {
      ModUnique(24, 0, h);
      ModUnique(k, 0, h);
    }
  }

  lemma HourGap(k: nat, calendar: nat -> Day, period: nat, phase: nat)
    requires 0 < k < 24 && KeepsPhase("0 */" + Decimal(k) + " * * *", calendar, period, phase)
    ensures period == 60 * k
  {
    hide CronMatches, KeepsPhase;
    var text := "0 */" + Decimal(k) + " * * *";
    ModUnique(k, 0, 0);
    ModUnique(k, 1, 0);
    HourText(k, Wall(calendar, 0));
    HourText(k, Wall(calendar, 60 * k));
    forall m: nat | 0 < m < 60 * k ensures !CronMatches(text, Wall(calendar, m)) {
      HourText(k, Wall(calendar, m));
      NoHourBetween(k, m);
    }
    GapIsPeriod(text, calendar, period, phase, 0, 60 * k);
  }

  /** Minutes the schedule of an interval is meant to be apart; whole days are counted on the calendar instead. */
  function Period(value: nat, unit: Unit): nat {
    match unit
    case Seconds => if value < 60 then 1 else MinutePeriod((value + 30) / 60)
    case Minutes => MinutePeriod(value)
    case Hours => if value >= 24 then 1440 else 60 * (if value > 0 && 24 % value == 0 then value else Closest(HOUR_DIVISORS, value))
    case Days => 1440 * value
  }

  function MinutePeriod(mins: nat): nat {
    if mins < 60 then RoundedMinutes(mins) else 60 * ((mins + 30) / 60)
  }

  /** The exact condition on a request for its schedule to keep its period for ever. */
  predicate Regular(value: nat, unit: Unit) {
    match unit
    case Seconds => value < 60 || RegularMinutes((value + 30) / 60)
    case Minutes => RegularMinutes(value)
    case Hours => true
    case Days => value == 1
  }

  predicate RegularMinutes(mins: nat) {
    mins < 60 || 24 % ((mins + 30) / 60) == 0
  }

  lemma MinuteCronPeriod(mins: nat, calendar: nat -> Day)
    ensures ValidCron(MinuteCron(mins))
    ensures KeepsPeriod(MinuteCron(mins), calendar, MinutePeriod(mins)) <==> RegularMinutes(mins)
  {
    hide CronMatches, ValidCron, RoundedMinutes;
    if mins < 60 {
      MinutesAreExact(mins, calendar, 0);
      forall m: nat ensures CronMatches(MinuteCron(mins), Wall(calendar, m)) <==> m % RoundedMinutes(mins) == 0 {
        MinutesAreExact(mins, calendar, m);
      }
      assert KeepsPhase(MinuteCron(mins), calendar, RoundedMinutes(mins), 0);
    } else {
      var h := (mins + 30) / 60;
      HourText(h, Wall(calendar, 0));
      HourStepIsExactExactly(h, calendar);
    }
  }

  lemma HourCronPeriod(hours: nat, calendar: nat -> Day)
    requires hours > 0
    ensures ValidCron(HourCron(hours)) && KeepsPeriod(HourCron(hours), calendar, Period(hours, Hours))
  {
    hide CronMatches, ValidCron, Closest;
    if hours >= 24 {
      DailyPeriod(calendar);
    } else {
      var i := ClosestIsNearest(HOUR_DIVISORS, hours);
      DivideTwentyFour(HOUR_DIVISORS[i]);
      var k := if 24 % hours == 0 then hours else HOUR_DIVISORS[i];
      HourText(k, Wall(calendar, 0));
      HourStepIsExactExactly(k, calendar);
    }
  }

  lemma DailyPeriod(calendar: nat -> Day)
    ensures ValidCron("0 0 * * *") && KeepsPeriod("0 0 * * *", calendar, 1440)
  {
    hide CronMatches, ValidCron;
    DailyText(Wall(calendar, 0));
    forall m: nat ensures CronMatches("0 0 * * *", Wall(calendar, m)) <==> m % 1440 == 0 {
      DailyText(Wall(calendar, m));
    }
    assert KeepsPhase("0 0 * * *", calendar, 1440, 0);
  }

  // ----- days -------------------------------------------------------------------------------------------------

  lemma DayText(n: nat, x: Moment)
    requires n > 0
    ensures ValidCron("0 0 */" + Decimal(n) + " * *")
    ensures CronMatches("0 0 */" + Decimal(n) + " * *", x) <==> x.minute == 0 && x.hour == 0 && x.dom % n == 0
  {
    hide CronMatches, ValidCron;
    ZeroText();
    var s := Schedule(Exact("0"), Exact("0"), Every(Decimal(n)), Any, Any);
    TextMeans(s, x);
    assert Text(s) == "0 0 */" + Decimal(n) + " * *";
  }

  /** An interval of several days is counted on the day of the month: it can match exactly when it is at most 31. */
  lemma DayIntervalCanMatchExactly(days: nat)
    requires days > 1
    ensures ValidCron(ParseEvery(days, Days).value)
    ensures (exists x: Moment :: 1 <= x.dom <= 31 && CronMatches(ParseEvery(days, Days).value, x)) <==> days <= 31
  {
    hide CronMatches, ValidCron;
    var text := ParseEvery(days, Days).value;
    DayText(days, Moment(0, 0, days, 1, 0));
    if days <= 31 {
      ModUnique(days, 1, 0);
      assert CronMatches(text, Moment(0, 0, days, 1, 0));
    } else {
      forall x: Moment | 1 <= x.dom <= 31 ensures !CronMatches(text, x) {
        DayText(days, x);
        ModUnique(days, 0, x.dom);
      }
    }
  }

  // ----- the calendar -------------------------------------------------------------------------------------------

  function Shortest(month: nat): nat {
    if month == 2 then 28 else if month in {4, 6, 9, 11} then 30 else 31
  }

  function Longest(month: nat): nat {
    if month == 2 then 29 else Shortest(month)
  }

  function NextMonth(month: nat): nat {
    if month >= 12 then 1 else month + 1
  }

  predicate Follows(x: Day, y: Day) {
    || (x.dom < Longest(x.month) && y.month == x.month && y.dom == x.dom + 1)
    || (x.dom >= Shortest(x.month) && y.month == NextMonth(x.month) && y.dom == 1)
  }

  /** Days and months as the civil calendar has them; which Februaries are long is left open. */
  ghost predicate Civil(calendar: nat -> Day) {
    forall d: nat :: 1 <= calendar(d).month <= 12 && 1 <= calendar(d).dom <= Longest(calendar(d).month)
                     && Follows(calendar(d), calendar(d + 1))
  }

  lemma {:induction false} WithinMonth(calendar: nat -> Day, d: nat, k: nat)
    requires Civil(calendar) && calendar(d).dom == 1 && k < Shortest(calendar(d).month)
    ensures calendar(d + k).month == calendar(d).month && calendar(d + k).dom == k + 1
  {
    if k > 0 {
      WithinMonth(calendar, d, k - 1);
      assert Follows(calendar(d + k - 1), calendar(d + k - 1 + 1));
    }
  }

  lemma FirstOfNext(calendar: nat -> Day, d: nat)
    requires Civil(calendar) && calendar(d).dom == 1 && calendar(d).month != 2
    ensures var e := d + Shortest(calendar(d).month);
            calendar(e).dom == 1 && calendar(e).month == NextMonth(calendar(d).month)
  {
    var last := d + Shortest(calendar(d).month) - 1;
    WithinMonth(calendar, d, Shortest(calendar(d).month) - 1);
    assert Follows(calendar(last), calendar(last + 1));
  }

  lemma {:induction false} SomeFirst(calendar: nat -> Day, d: nat) returns (e: nat)
    requires Civil(calendar)
    ensures calendar(e).dom == 1 && calendar(e).month == NextMonth(calendar(d).month)
    decreases Longest(calendar(d).month) - calendar(d).dom
  {
    assert Follows(calendar(d), calendar(d + 1));
    if calendar(d + 1).dom == 1 && calendar(d + 1).month == NextMonth(calendar(d).month) {
      e := d + 1;
    } else {
      e := SomeFirst(calendar, d + 1);
    }
  }

  lemma {:induction false} FirstOfJuly(calendar: nat -> Day, d: nat) returns (e: nat)
    requires Civil(calendar)
    ensures calendar(e).dom == 1 && calendar(e).month == 7
    decreases if calendar(d).month < 7 then 7 - calendar(d).month else 19 - calendar(d).month
  {
    e := SomeFirst(calendar, d);
    if calendar(e).month != 7 { e := FirstOfJuly(calendar, e); }
  }

  lemma MonthFrom(calendar: nat -> Day, first: nat)
    requires Civil(calendar) && calendar(first).dom == 1 && calendar(first).month != 2
    ensures forall d: nat :: first <= d < first + Shortest(calendar(first).month) ==> calendar(d).dom == d - first + 1
    ensures var e := first + Shortest(calendar(first).month);
            calendar(e).dom == 1 && calendar(e).month == NextMonth(calendar(first).month)
  {
    FirstOfNext(calendar, first);
    forall d: nat | first <= d < first + Shortest(calendar(first).month) ensures calendar(d).dom == d - first + 1 {
      WithinMonth(calendar, first, d - first);
    }
  }

  /** The days of July, August, September and October, from the first of July. */
  predicate JulyToOctober(calendar: nat -> Day, july: nat) {
    && (forall d | july <= d < july + 31 :: calendar(d).dom == d - july + 1)
    && (forall d | july + 31 <= d < july + 62 :: calendar(d).dom == d - july - 30)
    && (forall d | july + 62 <= d < july + 92 :: calendar(d).dom == d - july - 61)
    && (forall d | july + 92 <= d < july + 123 :: calendar(d).dom == d - july - 91)
  }

  lemma Summer(calendar: nat -> Day) returns (july: nat)
    requires Civil(calendar)
    ensures JulyToOctober(calendar, july)
  {
    hide Civil;
    july := FirstOfJuly(calendar, 0);
    MonthFrom(calendar, july);
    MonthFrom(calendar, july + 31);
    MonthFrom(calendar, july + 62);
    MonthFrom(calendar, july + 92);
  }

  lemma MidnightOf(n: nat, calendar: nat -> Day, d: nat)
    requires n > 0
    ensures CronMatches("0 0 */" + Decimal(n) + " * *", Wall(calendar, 1440 * d)) <==> calendar(d).dom % n == 0
  {
    hide CronMatches;
    DayText(n, Wall(calendar, 1440 * d));
    ModUnique(1440, d, 0);
    assert 1440 * d / 60 == 24 * d && 1440 * d % 60 == 0 && 24 * d % 24 == 0;
  }

  lemma SameRemainder(n: nat, d: nat, gap: nat)
    requires n > 0 && (d + gap) % n == d % n
    ensures gap % n == 0
  {
    var a, r := Euclid(n, d);
    var b, s := Euclid(n, gap);
    NothingAdded(n, a, r, b, s);
  }

  lemma Euclid(n: nat, x: nat) returns (q: nat, r: nat)
    requires n > 0
    ensures x == n * q + r && r < n && r == x % n
  {
    q, r := x / n, x % n;
  }

  lemma NothingAdded(n: nat, a: nat, r: nat, b: nat, s: nat)
    requires r < n && s < n && (n * a + r + (n * b + s)) % n == r
    ensures s == 0
  {
    assert n * a + r + (n * b + s) == n * (a + b) + (r + s);
    if r + s < n {
      ModUnique(n, a + b, r + s);
    } else {
      assert n * (a + b) + (r + s) == n * (a + b + 1) + (r + s - n);
      ModUnique(n, a + b + 1, r + s - n);
    }
  }

  lemma ThirtyOneIsPrime(n: nat)
    requires 2 <= n <= 30
    ensures 31 % n != 0
  {
    if n >= 16 {
      ModUnique(n, 1, 31 - n);
    } else {
      assert n in {2, 3, 4, 5, 6, 7, 8, 9, 10, 11, 12, 13, 14, 15};
    }
  }

  /** Neighbouring days that match are one period apart. */
  lemma DaysApart(n: nat, calendar: nat -> Day, period: nat, phase: nat, d: nat, gap: nat)
    requires n > 0 && gap > 0 && KeepsPhase("0 0 */" + Decimal(n) + " * *", calendar, period, phase)
    requires calendar(d).dom % n == 0 && calendar(d + gap).dom % n == 0
    requires forall e: nat :: d < e < d + gap ==> calendar(e).dom % n != 0
    ensures period == 1440 * gap
  {
    hide CronMatches, KeepsPhase;
    var text := "0 0 */" + Decimal(n) + " * *";
    MidnightOf(n, calendar, d);
    MidnightOf(n, calendar, d + gap);
    forall m: nat | 1440 * d < m < 1440 * (d + gap) ensures !CronMatches(text, Wall(calendar, m)) {
      DayText(n, Wall(calendar, m));
      OnlyMidnight(m, d, d + gap);
    }
    GapIsPeriod(text, calendar, period, phase, 1440 * d, 1440 * (d + gap));
  }

  lemma OnlyMidnight(m: nat, d: nat, e: nat)
    requires 1440 * d < m < 1440 * e
    ensures m % 60 == 0 && m / 60 % 24 == 0 ==> d < m / 1440 < e
  {
  }

  lemma NotAMultiple(n: nat, q: nat, x: nat)
    requires n > 0 && n * q < x < n * (q + 1)
    ensures x % n != 0
  {
    ModUnique(n, q, x - n * q);
  }

  /** Counting on the day of the month keeps no period whatever, at any phase, on any civil calendar. */
  lemma DaysNeverKeepPeriod(n: nat, calendar: nat -> Day)
    requires n > 1 && Civil(calendar)
    ensures !KeepsSomePeriod("0 0 */" + Decimal(n) + " * *", calendar)
  {
    hide CronMatches, Civil, KeepsPhase;
    var text := "0 0 */" + Decimal(n) + " * *";
    forall period: nat, phase: nat ensures !KeepsPhase(text, calendar, period, phase) {
      if KeepsPhase(text, calendar, period, phase) {
        DaysKeeping(n, calendar, period, phase);
        assert false;
      }
    }
  }

  /** Two gaps between neighbouring matching days that differ: between months, and within one or between two others. */
  lemma DaysKeeping(n: nat, calendar: nat -> Day, period: nat, phase: nat)
    requires n > 0 && Civil(calendar) && KeepsPhase("0 0 */" + Decimal(n) + " * *", calendar, period, phase)
    ensures n == 1
  {
    hide CronMatches, Civil, KeepsPhase;
    var july := Summer(calendar);
    if 2 <= n <= 30 {
      FromJulyToAugust(n, calendar, period, phase, july);
      if n <= 15 { WithinJuly(n, calendar, period, phase, july); } else { FromSeptemberToOctober(n, calendar, period, phase, july); }
      ThirtyOneIsPrime(n);
      if n >= 16 { ModUnique(n, 1, 31 - n); }
    } else if n == 31 {
      DaysApart(31, calendar, period, phase, july + 30, 31);
      DaysApart(31, calendar, period, phase, july + 61, 61);
    } else if n > 31 {
      NeverMatches(n, calendar, period, phase);
    }
  }

  lemma NeverMatches(n: nat, calendar: nat -> Day, period: nat, phase: nat)
    requires n > 31 && Civil(calendar)
    ensures !KeepsPhase("0 0 */" + Decimal(n) + " * *", calendar, period, phase)
  {
    hide CronMatches;
    if phase < period {
      DayText(n, Wall(calendar, phase));
      ModUnique(n, 0, calendar(phase / 1440).dom);
      ModUnique(period, 0, phase);
    }
  }

  lemma FromJulyToAugust(n: nat, calendar: nat -> Day, period: nat, phase: nat, july: nat)
    requires 2 <= n <= 30 && KeepsPhase("0 0 */" + Decimal(n) + " * *", calendar, period, phase) && JulyToOctober(calendar, july)
    ensures period == 1440 * (31 % n + n)
  {
    hide KeepsPhase, CronMatches;
    var q, r := Euclid(n, 31);
    var d := july + 30 - r;
    ModUnique(n, q, 0);
    ModUnique(n, 1, 0);
    forall e: nat | d < e < d + (r + n) ensures calendar(e).dom % n != 0 {
      if e < july + 31 {
        NotAMultiple(n, q, e - july + 1);
      } else {
        ModUnique(n, 0, e - july - 30);
      }
    }
    DaysApart(n, calendar, period, phase, d, r + n);
  }

  lemma WithinJuly(n: nat, calendar: nat -> Day, period: nat, phase: nat, july: nat)
    requires 2 <= n <= 15 && KeepsPhase("0 0 */" + Decimal(n) + " * *", calendar, period, phase) && JulyToOctober(calendar, july)
    ensures period == 1440 * n
  {
    hide KeepsPhase, CronMatches;
    var d := july + n - 1;
    ModUnique(n, 1, 0);
    ModUnique(n, 2, 0);
    forall e: nat | d < e < d + n ensures calendar(e).dom % n != 0 { NotAMultiple(n, 1, e - july + 1); }
    DaysApart(n, calendar, period, phase, d, n);
  }

  lemma FromSeptemberToOctober(n: nat, calendar: nat -> Day, period: nat, phase: nat, july: nat)
    requires 16 <= n <= 30 && KeepsPhase("0 0 */" + Decimal(n) + " * *", calendar, period, phase) && JulyToOctober(calendar, july)
    ensures period == 1440 * 30
  {
    hide KeepsPhase, CronMatches;
    var d := july + 61 + n;
    ModUnique(n, 1, 0);
    forall e: nat | d < e < d + 30 ensures calendar(e).dom % n != 0 {
      if e < july + 92 { NotAMultiple(n, 1, e - july - 61); } else { ModUnique(n, 0, e - july - 91); }
    }
    DaysApart(n, calendar, period, phase, d, 30);
  }

  /** Every two days, for one: it matches on the 30th of July and then on the 2nd of August, three days later. */
  lemma TwoDaysSlip(calendar: nat -> Day) returns (d: nat)
    requires Civil(calendar)
    ensures CronMatches(ParseEvery(2, Days).value, Wall(calendar, 1440 * d))
    ensures !CronMatches(ParseEvery(2, Days).value, Wall(calendar, 1440 * (d + 2)))
    ensures CronMatches(ParseEvery(2, Days).value, Wall(calendar, 1440 * (d + 3)))
  {
    hide CronMatches, Civil;
    var july := Summer(calendar);
    d := july + 29;
    MidnightOf(2, calendar, d);
    MidnightOf(2, calendar, d + 2);
    MidnightOf(2, calendar, d + 3);
    assert calendar(d).dom == 30 && calendar(d + 2).dom == 1 && calendar(d + 3).dom == 2;
  }

  /**
   * Every accepted interval prints a valid schedule, and on every civil calendar it keeps its period for ever exactly
   * when the request is regular: 300 minutes, for one, is not, and neither is any number of days from two up.
   */
  lemma IntervalKeepsPeriodExactly(value: nat, unit: Unit, calendar: nat -> Day)
    requires value > 0 && Civil(calendar)
    ensures ParseEvery(value, unit).Some? && ValidCron(ParseEvery(value, unit).value)
    ensures KeepsPeriod(ParseEvery(value, unit).value, calendar, Period(value, unit)) <==> Regular(value, unit)
  {
    hide CronMatches, ValidCron, Closest, HourCron, MinuteCron, MinutePeriod, RegularMinutes, Civil;
    match unit
    case Seconds =>
      if value < 60 {
        EveryMinuteText(Wall(calendar, 0));
        forall m: nat ensures CronMatches("*/1 * * * *", Wall(calendar, m)) { EveryMinuteText(Wall(calendar, m)); }
        assert KeepsPhase("*/1 * * * *", calendar, 1, 0);
      } else {
        MinuteCronPeriod((value + 30) / 60, calendar);
      }
    case Minutes => MinuteCronPeriod(value, calendar);
    case Hours => HourCronPeriod(value, calendar);
    case Days =>
      if value == 1 {
        DailyPeriod(calendar);
      } else {
        DayText(value, Moment(0, 0, 1, 1, 0));
        DaysNeverKeepPeriod(value, calendar);
      }
  }

  /** The condition on a request for its schedule to be exactly spaced for ever, be it at another period than asked for. */
  predicate Even(value: nat, unit: Unit) {
    Regular(value, unit) || MinutesAsked(value, unit) >= 24 * 60 - 30
  }

  /** The minutes of a request in seconds or minutes. */
  function MinutesAsked(value: nat, unit: Unit): nat {
    match unit
    case Seconds => (value + 30) / 60
    case Minutes => value
    case _ => 0
  }

  lemma MinuteCronKeepsSome(mins: nat, calendar: nat -> Day)
    ensures KeepsSomePeriod(MinuteCron(mins), calendar) <==> RegularMinutes(mins) || mins >= 24 * 60 - 30
  {
    hide CronMatches, KeepsPhase;
    if mins < 60 {
      MinuteCronPeriod(mins, calendar);
    } else {
      HourStepKeepsSomePeriodExactly((mins + 30) / 60, calendar);
    }
  }

  /**
   * On every civil calendar an accepted interval is exactly spaced for ever, at whatever period, exactly when it is
   * regular or was asked for as a day or more in minutes or seconds, of which only midnight is left.
   */
  lemma IntervalKeepsSomePeriodExactly(value: nat, unit: Unit, calendar: nat -> Day)
    requires value > 0 && Civil(calendar)
    ensures KeepsSomePeriod(ParseEvery(value, unit).value, calendar) <==> Even(value, unit)
  {
    hide CronMatches, KeepsPhase, ValidCron, MinuteCron, HourCron, MinutePeriod, RegularMinutes, Civil;
    IntervalKeepsPeriodExactly(value, unit, calendar);
    match unit
    case Seconds => if value >= 60 { MinuteCronKeepsSome((value + 30) / 60, calendar); }
    case Minutes => MinuteCronKeepsSome(value, calendar);
    case Hours =>
    case Days => if value > 1 { DaysNeverKeepPeriod(value, calendar); }
  }

  // ----- dates -------------------------------------------------------------------------------------------------

  /** The schedule of a date is valid and matches that date's minute, hour, day and month, and no other. */
  lemma DateMatchesItself(d: Moment, x: Moment)
    ensures ValidCron(DateToCron(d))
    ensures CronMatches(DateToCron(d), x) <==>
            x.minute == d.minute && x.hour == d.hour && x.dom == d.dom && x.month == d.month
  {
    hide CronMatches, ValidCron;
    var s := Schedule(Exact(Decimal(d.minute)), Exact(Decimal(d.hour)), Exact(Decimal(d.dom)), Exact(Decimal(d.month)), Any);
    TextMeans(s, x);
    assert Text(s) == DateToCron(d);
  }
}
