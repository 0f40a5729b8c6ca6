/** When a schedule fires next. */
module CronNext {
  import opened Wrappers
  import opened Text
  import opened Calendar
  import opened Cron

  const MINUTE := 60_000_000_000
  const DAY_MINUTES := 1440

  /** A UTC instant: a date, the minute of the day, and the nanoseconds into that minute. */
  datatype Time = Time(date: Date, minute: int, nanos: int)

  predicate ValidTime(t: Time) {
    ValidDate(t.date) && 0 <= t.minute < DAY_MINUTES && 0 <= t.nanos < MINUTE
  }

  /** Nanoseconds since the start of year 1. */
  function Instant(t: Time): int
    requires ValidTime(t)
  {
    (DayNumber(t.date) * DAY_MINUTES + t.minute) * MINUTE + t.nanos
  }

  /** `t.Truncate(time.Minute).Add(time.Minute)` */
  function NextMinute(t: Time): Time {
    if t.minute == DAY_MINUTES - 1 then Time(NextDay(t.date), 0, 0) else Time(t.date, t.minute + 1, 0)
  }

  /** The first day, by number, that the search no longer looks at. */
  function LimitDay(t: Time): int
    requires ValidTime(t)
  {
    var origin := NextMinute(t);
    NextDayCounts(t.date);
    AddYearsValid(origin.date, 5);
    DayNumber(AddYears(origin.date, 5))
  }

  /** The Vixie rule: with both day fields restricted either will do, otherwise both must. */
  predicate DayMatches(s: Schedule, d: Date)
    requires ValidDate(d)
  {
    && Has(s.month, d.month)
    && (if s.dom.None? || s.dow.None? then Has(s.dom, d.day) && Has(s.dow, Weekday(d))
        else Has(s.dom, d.day) || Has(s.dow, Weekday(d)))
  }

  /** The schedule fires at `c`, a whole minute. */
  predicate Fires(s: Schedule, c: Time) {
    && ValidTime(c) && c.nanos == 0
    && DayMatches(s, c.date)
    && Has(s.hour, c.minute / 60) && Has(s.minute, c.minute % 60)
  }

  predicate FiresAfter(s: Schedule, t: Time, c: Time)
    requires ValidTime(t)
  {
    Fires(s, c) && Instant(c) > Instant(t)
  }

  /** What `Next` promises: the earliest fire after `t`, or nothing when there is none on a day
      before the limit. */
  ghost predicate IsNext(s: Schedule, t: Time, r: Option<Time>)
    requires ValidTime(t)
  {
    && (r.Some? ==>
          && FiresAfter(s, t, r.value) && DayNumber(r.value.date) < LimitDay(t)
          && forall c :: FiresAfter(s, t, c) ==> Instant(r.value) <= Instant(c))
    && (r.None? ==> forall c :: FiresAfter(s, t, c) ==> DayNumber(c.date) >= LimitDay(t))
  }

  /** Instants order times by day, then minute, then nanosecond. */
  lemma InstantOrders(a: Time, b: Time)
    requires ValidTime(a) && ValidTime(b)
    ensures Instant(a) < Instant(b) <==>
            var x, y := DayNumber(a.date), DayNumber(b.date);
            x < y || (x == y && (a.minute < b.minute || (a.minute == b.minute && a.nanos < b.nanos)))
    ensures Instant(a) == Instant(b) <==> a == b
  {
    DayNumberOrders(a.date, b.date);
    var x, y := DayNumber(a.date) * DAY_MINUTES + a.minute, DayNumber(b.date) * DAY_MINUTES + b.minute;
    assert Instant(a) == x * MINUTE + a.nanos && Instant(b) == y * MINUTE + b.nanos;
  }

  /** The origin is the first whole minute after `t`. */
  lemma OriginIsFirst(t: Time, c: Time)
    requires ValidTime(t) && ValidTime(c) && c.nanos == 0 && Instant(c) > Instant(t)
    ensures ValidTime(NextMinute(t)) && Instant(t) < Instant(NextMinute(t)) <= Instant(c)
    ensures DayNumber(NextMinute(t).date) <= DayNumber(c.date)
  {
    NextDayCounts(t.date);
    InstantOrders(t, c);
    InstantOrders(t, NextMinute(t));
    InstantOrders(c, NextMinute(t));
  }

  /** There is at most one answer. */
  lemma NextIsUnique(s: Schedule, t: Time, r: Option<Time>, r': Option<Time>)
    requires ValidTime(t) && IsNext(s, t, r) && IsNext(s, t, r')
    ensures r == r'
  {
    if r.Some? && r'.Some? { InstantOrders(r.value, r'.value); }
  }

  ghost predicate NoFireBefore(s: Schedule, t: Time, day: int)
    requires ValidTime(t)
  {
    forall c :: FiresAfter(s, t, c) ==> DayNumber(c.date) >= day
  }

  method Next(s: Schedule, t: Time) returns (r: Option<Time>)
    requires ValidTime(t)
    ensures IsNext(s, t, r)
  {
    var origin := NextMinute(t);
    NextDayCounts(t.date);
    var limit := AddYears(origin.date, 5);
    AddYearsValid(origin.date, 5);
    var cur := origin.date;
    forall c | FiresAfter(s, t, c) ensures DayNumber(c.date) >= DayNumber(cur) { OriginIsFirst(t, c); }
    while DayNumber(cur) < DayNumber(limit)
      invariant ValidDate(cur) && NoFireBefore(s, t, DayNumber(cur))
      decreases DayNumber(limit) - DayNumber(cur)
    {
      if DayMatches(s, cur) {
        r := ScanDay(s, t, cur);
        if r.Some? {
          forall c | FiresAfter(s, t, c) ensures Instant(r.value) <= Instant(c) {
            InstantOrders(c, r.value);
            DayNumberOrders(c.date, cur);
          }
          return;
        }
      }
      forall c | FiresAfter(s, t, c) ensures DayNumber(c.date) > DayNumber(cur) {
        DayNumberOrders(c.date, cur);
      }
      NextDayCounts(cur);
      cur := NextDay(cur);
    }
    r := None;
  }

  /** The hours and minutes of one matching day. */
  method ScanDay(s: Schedule, t: Time, d: Date) returns (r: Option<Time>)
    requires ValidTime(t) && ValidDate(d) && DayMatches(s, d)
    ensures r.Some? ==>
              && FiresAfter(s, t, r.value) && r.value.date == d
              && forall c :: FiresAfter(s, t, c) && c.date == d ==> r.value.minute <= c.minute
    ensures r.None? ==> forall c :: FiresAfter(s, t, c) ==> c.date != d
  {
    hide Instant, DayMatches;
    for h := 0 to 24
      invariant forall c :: FiresAfter(s, t, c) && c.date == d ==> c.minute >= h * 60
    {
      if Has(s.hour, h) {
        for m := 0 to 60
          invariant forall c :: FiresAfter(s, t, c) && c.date == d ==> c.minute >= h * 60 + m
        {
          if Has(s.minute, m) {
            var cand := Time(d, h * 60 + m, 0);
            if Instant(cand) > Instant(t) {
              return Some(cand);
            }
          }
        }
      }
    }
    r := None;
  }

  // ---------------------------------------------------------------------------
  // Is five years far enough?
  // ---------------------------------------------------------------------------

  lemma Shift(a: int, w: int)
    requires 0 <= w <= 6
    ensures (a + (w - a % 7) % 7) % 7 == w
  {
  }

  /** Every weekday falls on one of the first seven days of a month. */
  lemma SameWeekday(y: int, m: int, w: int) returns (d: Date)
    requires 1 <= m <= 12 && 0 <= w <= 6
    ensures ValidDate(d) && d.year == y && d.month == m && d.day <= 7 && Weekday(d) == w
  {
    var first := Date(y, m, 1);
    var n := DayNumber(first) + 1;
    var k := (w - n % 7) % 7;
    d := Date(y, m, 1 + k);
    Shift(n, w);
    assert DayNumber(d) + 1 == n + k;
  }

  predicate LeapDay(d: Date) {
    d.month == 2 && d.day == 29
  }

  /** A day rule that some date meets is met in every year: by the weekday in the first seven days
      of that month, or else by the same day, which only 29 February can lack. */
  lemma MetEveryYear(s: Schedule, d0: Date, y: int) returns (d: Date)
    requires ValidDate(d0) && DayMatches(s, d0) && (LeapDay(d0) ==> Leap(y))
    ensures ValidDate(d) && d.year == y && DayMatches(s, d) && (LeapDay(d) ==> LeapDay(d0))
  {
    if s.dow.Some? && Has(s.dow, Weekday(d0)) {
      d := SameWeekday(y, d0.month, Weekday(d0));
    } else {
      d := Date(y, d0.month, d0.day);
    }
  }

  /** Five years are enough for every schedule that can fire on some day other than 29 February. */
  lemma FiveYearsSuffice(s: Schedule, t: Time, c0: Time)
    requires ValidTime(t) && Fires(s, c0) && !LeapDay(c0.date)
    ensures !IsNext(s, t, None)
  {
    NextDayCounts(t.date);
    var origin := NextMinute(t).date;
    var d := MetEveryYear(s, c0.date, origin.year + 1);
    var c := Time(d, c0.minute, 0);
    AddYearsValid(origin, 5);
    DayNumberOrders(d, AddYears(origin, 5));
    DayNumberOrders(t.date, d);
    InstantOrders(t, c);
    assert FiresAfter(s, t, c);
  }

  ghost predicate FiresLater(s: Schedule, t: Time)
    requires ValidTime(t)
  {
    exists c :: FiresAfter(s, t, c)
  }

  /** Asked at `t`, `Next` finds nothing although the schedule fires again. */
  ghost predicate Missed(s: Schedule, t: Time) {
    ValidTime(t) && IsNext(s, t, None) && FiresLater(s, t)
  }

  ghost predicate FiresOffLeapDay(s: Schedule) {
    exists c :: Fires(s, c) && !LeapDay(c.date)
  }

  ghost predicate FiresEver(s: Schedule) {
    exists c :: Fires(s, c)
  }

  /** The five-year limit is harmless exactly for the schedules that can fire on a day other than
      29 February, and for those that never fire at all. */
  lemma LimitIsHarmlessExactlyWhen(s: Schedule)
    ensures (forall t :: !Missed(s, t)) <==> FiresOffLeapDay(s) || !FiresEver(s)
  {
    if FiresOffLeapDay(s) {
      var c0 :| Fires(s, c0) && !LeapDay(c0.date);
      forall t | ValidTime(t) ensures !IsNext(s, t, None) { FiveYearsSuffice(s, t, c0); }
    } else if FiresEver(s) {
      var c0 :| Fires(s, c0);
      LeapDayIsMissed(s, c0);
    } else {
      forall t ensures !Missed(s, t) {}
    }
  }

  /** A schedule for 29 February only: asked on 1 March 2096, `Next` finds nothing, because 2100 is
      not a leap year, although the schedule fires in 2104. */
  lemma LeapDayIsMissed(s: Schedule, c0: Time)
    requires Fires(s, c0) && !FiresOffLeapDay(s)
    ensures Missed(s, Time(Date(2096, 3, 1), 0, 0))
  {
    hide Instant, DayMatches;
    var t := Time(Date(2096, 3, 1), 0, 0);
    var limit := Date(2101, 3, 1);
    var d := MetEveryYear(s, c0.date, 2104);
    var later := Time(d, c0.minute, 0);
    DayNumberOrders(t.date, d);
    InstantOrders(t, later);
    assert FiresAfter(s, t, later);
    assert NextMinute(t).date == t.date && AddYears(t.date, 5) == limit;
    forall c | FiresAfter(s, t, c) ensures DayNumber(c.date) >= LimitDay(t) {
      InstantOrders(t, c);
      DayNumberOrders(t.date, c.date);
      DayNumberOrders(c.date, t.date);
      DayNumberOrders(c.date, limit);
    }
  }

  // ---------------------------------------------------------------------------
  // The same, of the masks of a parsed schedule
  // ---------------------------------------------------------------------------

  /** What the parser makes sure of. */
  ghost predicate Parsed(s: Schedule) {
    && Within(s.minute, 0, 59) && Within(s.hour, 0, 23) && Within(s.dom, 1, 31)
    && Within(s.month, 1, 12) && Within(s.dow, 0, 6)
  }

  lemma ParserMakesSure(fields: seq<string>)
    requires |fields| == 5 && ScheduleOf(fields).Ok?
    ensures Parsed(ScheduleOf(fields).value)
  {
    ParsedMasks(fields);
    ParsedWeekdays(fields);
  }

  ghost predicate AllowsDay(s: Schedule, m: int, d: int) {
    1 <= m <= 12 && Has(s.month, m) && 1 <= d <= DaysIn(2001, m) && Has(s.dom, d)
  }

  /** The masks allow a day that every year has. */
  ghost predicate AllowsUsualDay(s: Schedule) {
    s.dom.None? || s.dow.Some? || exists m, d :: AllowsDay(s, m, d)
  }

  /** The masks allow 29 February and nothing else. */
  ghost predicate LeapOnly(s: Schedule) {
    !AllowsUsualDay(s) && Has(s.month, 2) && Has(s.dom, 29)
  }

  lemma Pick(m: Mask, low: int, high: int) returns (v: int)
    requires Within(m, low, high) && 0 <= low <= high
    ensures low <= v <= high && Has(m, v)
  {
    v := low;
    if m.Some? {
      NothingDescribed(m, low, high);
      Described(m, high);
      v := Describe(m, high)[0];
      assert v in Describe(m, high);
    }
  }

  lemma PickMinute(s: Schedule) returns (minute: int)
    requires Parsed(s)
    ensures 0 <= minute < DAY_MINUTES && Has(s.hour, minute / 60) && Has(s.minute, minute % 60)
  {
    var h := Pick(s.hour, 0, 23);
    var m := Pick(s.minute, 0, 59);
    minute := h * 60 + m;
  }

  lemma PickUsualDay(s: Schedule) returns (d: Date)
    requires Parsed(s) && AllowsUsualDay(s)
    ensures ValidDate(d) && DayMatches(s, d) && !LeapDay(d)
  {
    var m := Pick(s.month, 1, 12);
    if s.dow.Some? {
      var w := Pick(s.dow, 0, 6);
      d := SameWeekday(2001, m, w);
    } else if s.dom.None? {
      d := Date(2001, m, 1);
    } else {
      var month, day :| AllowsDay(s, month, day);
      d := Date(2001, month, day);
    }
  }

  lemma FiresOffLeapDayExactlyWhen(s: Schedule)
    requires Parsed(s)
    ensures FiresOffLeapDay(s) <==> AllowsUsualDay(s)
  {
    if AllowsUsualDay(s) {
      var d := PickUsualDay(s);
      var minute := PickMinute(s);
      assert Fires(s, Time(d, minute, 0));
    } else {
      forall c | Fires(s, c) ensures LeapDay(c.date) {
        assert !AllowsDay(s, c.date.month, c.date.day);
      }
    }
  }

  lemma FiresOnLeapDay(s: Schedule, y: int) returns (c: Time)
    requires Parsed(s) && LeapOnly(s) && Leap(y)
    ensures Fires(s, c) && c.date == Date(y, 2, 29)
  {
    var minute := PickMinute(s);
    c := Time(Date(y, 2, 29), minute, 0);
  }

  /** A schedule the parser accepts misses a fire, asked at some time, exactly when its masks allow
      29 February and no other day. */
  lemma MissesExactlyWhen(s: Schedule)
    requires Parsed(s)
    ensures (exists t :: Missed(s, t)) <==> LeapOnly(s)
  {
    hide Missed;
    LimitIsHarmlessExactlyWhen(s);
    FiresOffLeapDayExactlyWhen(s);
    if LeapOnly(s) {
      var c := FiresOnLeapDay(s, 2004);
      assert FiresEver(s);
    }
    forall c | Fires(s, c) && LeapDay(c.date) ensures AllowsUsualDay(s) || LeapOnly(s) {
    }
  }

  /** The leap day of year `y` has a fire after `t` and lies before the limit. */
  ghost predicate LeapFireAhead(s: Schedule, t: Time, y: int)
    requires ValidTime(t)
  {
    && Leap(y) && DayNumber(Date(y, 2, 29)) < LimitDay(t)
    && exists minute :: FiresAfter(s, t, Time(Date(y, 2, 29), minute, 0))
  }

  lemma LimitYear(t: Time, c: Time)
    requires ValidTime(t) && ValidTime(c) && Instant(c) > Instant(t) && DayNumber(c.date) < LimitDay(t)
    ensures t.date.year <= c.date.year <= t.date.year + 5
  {
    hide Instant, DayNumber;
    NextDayCounts(t.date);
    InstantOrders(t, c);
    var origin := NextMinute(t).date;
    AddYearsValid(origin, 5);
    DayNumberOrders(c.date, AddYears(origin, 5));
    DayNumberOrders(t.date, c.date);
  }

  lemma EveryFourHundred(y: int, k: int)
    requires k == y / 400 + 1
    ensures 400 * k % 400 == 0 && 400 * k > y
  {
    Remainder(400 * k, k, 400, 0);
  }

  lemma LeapYearAhead(y: int) returns (z: int)
    ensures Leap(z) && z > y
  {
    var k := y / 400 + 1;
    z := 400 * k;
    assert z % 400 == 0 && z > y by { EveryFourHundred(y, k); }
    LeapDays(z);
  }

  /** Asked at `t`, such a schedule misses a fire exactly when none of the six years from `t`'s on
      has a leap day that fires after `t` and before the limit. */
  lemma MissedExactlyWhen(s: Schedule, t: Time)
    requires Parsed(s) && LeapOnly(s) && ValidTime(t)
    ensures Missed(s, t) <==> forall y :: t.date.year <= y <= t.date.year + 5 ==> !LeapFireAhead(s, t, y)
  {
    hide Instant, DayNumber, DayMatches, LimitDay;
    var z := LeapYearAhead(t.date.year);
    var later := FiresOnLeapDay(s, z);
    DayNumberOrders(t.date, later.date);
    InstantOrders(t, later);
    assert FiresAfter(s, t, later);
    FiresOffLeapDayExactlyWhen(s);
    forall c | FiresAfter(s, t, c) && DayNumber(c.date) < LimitDay(t)
      ensures t.date.year <= c.date.year <= t.date.year + 5 && LeapFireAhead(s, t, c.date.year)
    {
      LimitYear(t, c);
      assert LeapDay(c.date);
      assert c == Time(Date(c.date.year, 2, 29), c.minute, 0);
    }
  }

  /** Such a schedule exists: midnight on 29 February, which 1 March 2096 misses. */
  lemma LeapDayTextIsMissed()
    ensures var o := ScheduleOf(["0", "0", "29", "2", "*"]);
            && Fields(Join(["0", "0", "29", "2", "*"], ' ')) == ["0", "0", "29", "2", "*"]
            && o.Ok? && LeapOnly(o.value) && FiresEver(o.value) && !FiresOffLeapDay(o.value)
            && Missed(o.value, Time(Date(2096, 3, 1), 0, 0))
  {
    hide Missed, Fires, ScheduleOf, LeapOnly, Parsed, FiresOffLeapDay, Fields;
    LeapDayText();
    LeapDayMasks();
    var s := LEAP_DAY;
    var c := FiresOnLeapDay(s, 2004);
    FiresOffLeapDayExactlyWhen(s);
    OnlyLeap(s);
    LeapDayIsMissed(s, c);
  }

  const LEAP_DAY := Schedule(Some({0}), Some({0}), Some({29}), Some({2}), None)

  lemma OnlyLeap(s: Schedule)
    ensures LeapOnly(s) ==> !AllowsUsualDay(s)
  {
  }

  lemma LeapDayMasks()
    ensures Parsed(LEAP_DAY) && LeapOnly(LEAP_DAY)
  {
    forall m, d ensures !AllowsDay(LEAP_DAY, m, d) {
    }
    assert 0 in {0} && 29 in {29} && 2 in {2};
  }

  // ---------------------------------------------------------------------------
  // What a schedule fires on
  // ---------------------------------------------------------------------------

  /** The Vixie rule, case by case: with one day field given it alone decides, with both either
      does. */
  lemma DaysFired(s: Schedule, d: Date)
    requires ValidDate(d)
    ensures !Has(s.month, d.month) ==> !DayMatches(s, d)
    ensures Has(s.month, d.month) ==>
              && (s.dom.None? && s.dow.None? ==> DayMatches(s, d))
              && (s.dom.Some? && s.dow.None? ==> (DayMatches(s, d) <==> d.day in s.dom.value))
              && (s.dom.None? && s.dow.Some? ==> (DayMatches(s, d) <==> Weekday(d) in s.dow.value))
              && (s.dom.Some? && s.dow.Some? ==>
                    (DayMatches(s, d) <==> d.day in s.dom.value || Weekday(d) in s.dow.value))
  {
  }

  /** "0 9 * * 1-5", asked on Saturday, 6 January 2024, at noon: it fires next on Monday at nine. */
  lemma MondayAtNine(s: Schedule)
    requires s == Schedule(Some({0}), Some({9}), None, None, Some({1, 2, 3, 4, 5}))
    ensures IsNext(s, Time(Date(2024, 1, 6), 720, 0), Some(Time(Date(2024, 1, 8), 540, 0)))
  {
    hide Instant;
    var t, r := Time(Date(2024, 1, 6), 720, 0), Time(Date(2024, 1, 8), 540, 0);
    Saturday();
    InstantOrders(t, r);
    NextDayCounts(t.date);
    forall c | FiresAfter(s, t, c) ensures Instant(r) <= Instant(c) {
      InstantOrders(t, c);
      InstantOrders(c, r);
      NotOnTheWeekend(s, t, c);
    }
  }

  lemma Saturday()
    ensures Weekday(Date(2024, 1, 6)) == 6 && Weekday(Date(2024, 1, 7)) == 0 && Weekday(Date(2024, 1, 8)) == 1
    ensures DayNumber(Date(2024, 1, 7)) == DayNumber(Date(2024, 1, 6)) + 1
    ensures DayNumber(Date(2024, 1, 8)) == DayNumber(Date(2024, 1, 6)) + 2
    ensures DayNumber(Date(2029, 1, 6)) > DayNumber(Date(2024, 1, 8))
  {
  }

  lemma NotOnTheWeekend(s: Schedule, t: Time, c: Time)
    requires s == Schedule(Some({0}), Some({9}), None, None, Some({1, 2, 3, 4, 5}))
    requires t == Time(Date(2024, 1, 6), 720, 0) && FiresAfter(s, t, c)
    ensures DayNumber(c.date) >= DayNumber(Date(2024, 1, 8)) && c.minute == 540
  {
    hide Instant, DayNumber;
    Saturday();
    InstantOrders(t, c);
    DaysFired(s, c.date);
    DayNumberOrders(c.date, Date(2024, 1, 6));
    DayNumberOrders(c.date, Date(2024, 1, 7));
  }
}
