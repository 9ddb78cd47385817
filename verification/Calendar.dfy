/**
 The proleptic Gregorian calendar as Python's `date` computes it, and how long a day rule can go
 without a matching date.
 */
module Calendar {
  datatype Date = Date(year: int, month: nat, day: nat)

  predicate IsLeap(y: int) {
    y % 4 == 0 && (y % 100 != 0 || y % 400 == 0)
  }

  function DaysIn(y: int, m: nat): nat
    requires 1 <= m <= 12
  {
    if m == 2 then (if IsLeap(y) then 29 else 28)
    else if m in {4, 6, 9, 11} then 30
    else 31
  }

  predicate IsDate(d: Date) {
    1 <= d.month <= 12 && 1 <= d.day <= DaysIn(d.year, d.month)
  }

  function DaysBeforeYear(y: int): int {
    (y - 1) * 365 + (y - 1) / 4 - (y - 1) / 100 + (y - 1) / 400
  }

  const DAYS_BEFORE_MONTH: seq<nat> := [0, 31, 59, 90, 120, 151, 181, 212, 243, 273, 304, 334]

  function DaysBeforeMonth(y: int, m: nat): nat
    requires 1 <= m <= 12
  {
    DAYS_BEFORE_MONTH[m - 1] + if m > 2 && IsLeap(y) then 1 else 0
  }

  /** `toordinal`: 1 January of year 1 is day 1. */
  function Ordinal(d: Date): int
    requires IsDate(d)
  {
    DaysBeforeYear(d.year) + DaysBeforeMonth(d.year, d.month) + d.day
  }

  /** `weekday` counts from Monday, cron from Sunday. */
  function CronWeekday(d: Date): nat
    requires IsDate(d)
  {
    ((Ordinal(d) + 6) % 7 + 1) % 7
  }

  function NextDay(d: Date): (r: Date)
    requires IsDate(d)
    ensures IsDate(r)
  {
    if d.day < DaysIn(d.year, d.month) then d.(day := d.day + 1)
    else if d.month < 12 then Date(d.year, d.month + 1, 1)
    else Date(d.year + 1, 1, 1)
  }

  function PreviousDay(d: Date): (r: Date)
    requires IsDate(d)
    ensures IsDate(r)
  {
    if d.day > 1 then d.(day := d.day - 1)
    else if d.month > 1 then Date(d.year, d.month - 1, DaysIn(d.year, d.month - 1))
    else Date(d.year - 1, 12, 31)
  }

  /** `d + timedelta(days=n)`. */
  function Plus(d: Date, n: nat): (r: Date)
    requires IsDate(d)
    ensures IsDate(r)
  {
    if n == 0 then d else NextDay(Plus(d, n - 1))
  }

  // ----- ordinals

  lemma FourTimes(k: int)
    ensures (4 * k) % 4 == 0
  {}

  lemma HundredTimes(k: int)
    ensures (100 * k) % 100 == 0
  {}

  lemma Multiples(y: int)
    ensures y % 400 == 0 ==> y % 100 == 0
    ensures y % 100 == 0 ==> y % 4 == 0
  {
    HundredTimes(4 * (y / 400));
    FourTimes(25 * (y / 100));
  }

  lemma QuotientSteps(y: int)
    ensures y / 4 == (y - 1) / 4 + if y % 4 == 0 then 1 else 0
    ensures y / 100 == (y - 1) / 100 + if y % 100 == 0 then 1 else 0
    ensures y / 400 == (y - 1) / 400 + if y % 400 == 0 then 1 else 0
  {}

  lemma YearLength(y: int)
    ensures DaysBeforeYear(y + 1) == DaysBeforeYear(y) + if IsLeap(y) then 366 else 365
  {
    Multiples(y);
    QuotientSteps(y);
  }

  lemma MonthLength(y: int, m: nat)
    requires 1 <= m < 12
    ensures DaysBeforeMonth(y, m + 1) == DaysBeforeMonth(y, m) + DaysIn(y, m)
  {}

  /** The next date has the next number. */
  lemma NextDayIsNext(d: Date)
    requires IsDate(d)
    ensures Ordinal(NextDay(d)) == Ordinal(d) + 1
  {
    hide DaysBeforeYear;
    if d.day == DaysIn(d.year, d.month) {
      if d.month < 12 {
        MonthLength(d.year, d.month);
      } else {
        YearLength(d.year);
      }
    }
  }

  predicate Before(a: Date, b: Date) {
    a.year < b.year || (a.year == b.year && (a.month < b.month || (a.month == b.month && a.day < b.day)))
  }

  lemma {:induction false} YearsAscend(a: int, b: int)
    requires a < b
    ensures DaysBeforeYear(a + 1) <= DaysBeforeYear(b)
    decreases b - a
  {
    hide DaysBeforeYear;
    if a + 1 < b {
      YearsAscend(a + 1, b);
      YearLength(a + 1);
    }
  }

  lemma {:induction false} MonthsAscend(y: int, m: nat, n: nat)
    requires 1 <= m < n <= 12
    ensures DaysBeforeMonth(y, m) + DaysIn(y, m) <= DaysBeforeMonth(y, n)
    decreases n - m
  {
    MonthLength(y, m);
    if m + 1 < n {
      MonthsAscend(y, m + 1, n);
    }
  }

  lemma WithinYear(d: Date)
    requires IsDate(d)
    ensures DaysBeforeYear(d.year) < Ordinal(d) <= DaysBeforeYear(d.year + 1)
  {
    hide DaysBeforeYear;
    YearLength(d.year);
    if d.month < 12 {
      MonthsAscend(d.year, d.month, 12);
    }
  }

  /** Dates are numbered in calendar order. */
  lemma OrdinalIsMonotone(a: Date, b: Date)
    requires IsDate(a) && IsDate(b)
    ensures Ordinal(a) < Ordinal(b) <==> Before(a, b)
    ensures Ordinal(a) == Ordinal(b) <==> a == b
  {
    if Before(a, b) {
      OrdinalAscends(a, b);
    } else if Before(b, a) {
      OrdinalAscends(b, a);
    }
  }

  lemma OrdinalAscends(a: Date, b: Date)
    requires IsDate(a) && IsDate(b) && Before(a, b)
    ensures Ordinal(a) < Ordinal(b)
  {
    hide DaysBeforeYear;
    if a.year < b.year {
      WithinYear(a);
      WithinYear(b);
      YearsAscend(a.year, b.year);
    } else if a.month < b.month {
      MonthsAscend(a.year, a.month, b.month);
    }
  }

  lemma {:induction false} PlusAdds(d: Date, n: nat)
    requires IsDate(d)
    ensures Ordinal(Plus(d, n)) == Ordinal(d) + n
  {
    hide Ordinal, NextDay;
    if n > 0 {
      PlusAdds(d, n - 1);
      NextDayIsNext(Plus(d, n - 1));
    }
  }

  /** Any later date is reached by counting days. */
  lemma PlusReaches(d: Date, t: Date)
    requires IsDate(d) && IsDate(t) && Ordinal(d) <= Ordinal(t)
    ensures Plus(d, Ordinal(t) - Ordinal(d)) == t
  {
    hide Ordinal, Plus;
    var n := Ordinal(t) - Ordinal(d);
    PlusAdds(d, n);
    OrdinalIsMonotone(Plus(d, n), t);
  }

  // ----- day rules

  /** The day part of a cron expression. */
  datatype DayRule = DayRule(
    doms: set<nat>,
    months: set<nat>,
    dows: set<nat>,
    domRestricted: bool,
    dowRestricted: bool)

  /** What parsing leaves: values in range, no field empty. */
  predicate IsRule(r: DayRule) {
    && (forall m :: m in r.months ==> 1 <= m <= 12)
    && (forall w :: w in r.dows ==> w < 7)
    && r.doms != {} && r.months != {} && r.dows != {}
  }

  /** `_date_matches`: restricted days of month and of week are alternatives. */
  predicate DateMatches(r: DayRule, d: Date)
    requires IsDate(d)
  {
    if d.month !in r.months then false
    else
      var domOk, dowOk := d.day in r.doms, CronWeekday(d) in r.dows;
      if r.domRestricted && r.dowRestricted then domOk || dowOk
      else if r.domRestricted then domOk
      else if r.dowRestricted then dowOk
      else true
  }

  const MAX_SCAN_DAYS: nat := 366 * 8

  /** Some date of the calendar matches. */
  ghost predicate Possible(r: DayRule) {
    exists d :: IsDate(d) && DateMatches(r, d)
  }

  /** A day rule is impossible only if it depends on the day of the month and none of its months
      ever has one of its days. */
  lemma WhatIsPossible(r: DayRule)
    requires IsRule(r)
    ensures Possible(r) <==>
              r.domRestricted && !r.dowRestricted ==>
                exists m, k :: m in r.months && k in r.doms && 1 <= k <= DaysIn(2000, m)
  {
    var m :| m in r.months;
    if r.domRestricted && !r.dowRestricted {
      if Possible(r) {
        var d :| IsDate(d) && DateMatches(r, d);
        assert d.month in r.months && d.day in r.doms && 1 <= d.day <= DaysIn(2000, d.month);
      }
      if m, k :| m in r.months && k in r.doms && 1 <= k <= DaysIn(2000, m) {
        assert IsDate(Date(2000, m, k)) && DateMatches(r, Date(2000, m, k));
      }
    } else {
      var w :| w in r.dows;
      var d := SomeWeekday(2000, m, w);
      assert DateMatches(r, d);
    }
  }

  lemma WeekdayOf(d: Date)
    requires IsDate(d)
    ensures CronWeekday(d) == Ordinal(d) % 7
  {
    hide Ordinal;
  }

  /** The weekdays go round in their order. */
  lemma WeekdaysGoRound(d: Date)
    requires IsDate(d)
    ensures CronWeekday(NextDay(d)) == (CronWeekday(d) + 1) % 7
  {
    hide Ordinal, NextDay, CronWeekday;
    NextDayIsNext(d);
    WeekdayOf(d);
    WeekdayOf(NextDay(d));
    assert (Ordinal(d) + 1) % 7 == (Ordinal(d) % 7 + 1) % 7;
  }

  lemma EpochWasAThursday()
    ensures CronWeekday(Date(1970, 1, 1)) == 4
  {
    WeekdayOf(Date(1970, 1, 1));
    assert DaysBeforeYear(1970) == 719162;
  }

  lemma DaysUntil(o: int, w: nat) returns (k: nat)
    requires w < 7
    ensures k < 7 && (o + k) % 7 == w
  {
    var q, r := o / 7, o % 7;
    assert o == 7 * q + r;
    k := if w >= r then w - r else w + 7 - r;
    assert o + k == 7 * q + w || o + k == 7 * (q + 1) + w;
  }

  /** The first week of a month has every weekday. */
  lemma SomeWeekday(y: int, m: nat, w: nat) returns (d: Date)
    requires 1 <= m <= 12 && w < 7
    ensures IsDate(d) && d.year == y && d.month == m && CronWeekday(d) == w
  {
    hide DaysBeforeYear, DaysBeforeMonth, CronWeekday;
    var first := Date(y, m, 1);
    var k := DaysUntil(Ordinal(first), w);
    d := Date(y, m, 1 + k);
    WeekdayOf(d);
  }

  /** The date to look for after `d`, given one that matches. */
  lemma Target(r: DayRule, d: Date, sample: Date) returns (t: Date)
    requires IsRule(r) && IsDate(d) && IsDate(sample) && DateMatches(r, sample)
    ensures IsDate(t) && DateMatches(r, t)
    ensures Ordinal(d) < Ordinal(t) < Ordinal(d) + MAX_SCAN_DAYS
  {
    var m := sample.month;
    if !r.domRestricted || (r.dowRestricted && CronWeekday(sample) in r.dows) {
      t := SomeWeekday(d.year + 1, m, CronWeekday(sample));
      NextYearIsNear(d, t);
    } else if sample.day <= DaysIn(d.year + 1, m) {
      t := Date(d.year + 1, m, sample.day);
      NextYearIsNear(d, t);
    } else {
      t := NextLeapDay(d);
    }
  }

  lemma NextYearIsNear(d: Date, t: Date)
    requires IsDate(d) && IsDate(t) && t.year == d.year + 1
    ensures Ordinal(d) < Ordinal(t) <= Ordinal(d) + 2 * 366
  {
    hide DaysBeforeYear;
    WithinYear(d);
    WithinYear(t);
    YearLength(d.year);
    YearLength(t.year);
  }

  /** 29 February is at most 2921 days off, as from 2096 to 2104. */
  lemma NextLeapDay(d: Date) returns (t: Date)
    requires IsDate(d)
    ensures IsDate(t) && t.month == 2 && t.day == 29
    ensures Ordinal(d) < Ordinal(t) <= Ordinal(d) + 2921
  {
    var leapDay := Date(d.year, 2, 29);
    if IsLeap(d.year) && Before(d, leapDay) {
      t := leapDay;
      OrdinalIsMonotone(d, t);
      WithinYear(d);
      WithinYear(t);
      YearLength(d.year);
    } else {
      var y := NextLeapYear(d.year);
      t := Date(y, 2, 29);
      OrdinalIsMonotone(d, t);
      LeapDayIsNear(d, t);
    }
  }

  lemma NextLeapYear(y: int) returns (l: int)
    ensures y < l <= y + 8 && IsLeap(l)
    ensures l == y + 8 ==> IsLeap(y)
    ensures forall k :: y < k < l ==> !IsLeap(k)
  {
    var k := y / 4;
    var q := 4 * k + 4;
    if IsLeap(q) {
      l := q;
    } else {
      l := q + 4;
      AroundCentury(q);
    }
  }

  lemma AroundCentury(q: int)
    requires q % 100 == 0 && q % 4 == 0
    ensures IsLeap(q + 4) && IsLeap(q - 4)
  {
    var c := q / 100;
    assert q + 4 == 100 * c + 4 && q - 4 == 100 * (c - 1) + 96;
  }

  lemma {:induction false} PlainYears(a: int, b: int)
    requires a <= b && forall k :: a <= k < b ==> !IsLeap(k)
    ensures DaysBeforeYear(b) == DaysBeforeYear(a) + 365 * (b - a)
    decreases b - a
  {
    hide DaysBeforeYear;
    if a < b {
      YearLength(a);
      PlainYears(a + 1, b);
    }
  }

  lemma LeapDayIsNear(d: Date, t: Date)
    requires IsDate(d) && IsDate(t) && t.month == 2 && t.day == 29 && d.year < t.year <= d.year + 8
    requires t.year == d.year + 8 ==> IsLeap(d.year)
    requires IsLeap(d.year) ==> !Before(d, Date(d.year, 2, 29))
    requires forall k :: d.year < k < t.year ==> !IsLeap(k)
    ensures Ordinal(t) <= Ordinal(d) + 2921
  {
    hide DaysBeforeYear;
    PlainYears(d.year + 1, t.year);
    YearLength(d.year);
    WithinYear(d);
    if IsLeap(d.year) {
      OrdinalIsMonotone(Date(d.year, 2, 29), d);
    }
  }

  /** After any day a possible rule matches again within the scanned window, that day not counted. */
  lemma WindowSuffices(r: DayRule, d: Date) returns (n: nat)
    requires IsRule(r) && IsDate(d) && Possible(r)
    ensures 0 < n < MAX_SCAN_DAYS && DateMatches(r, Plus(d, n))
  {
    var w :| IsDate(w) && DateMatches(r, w);
    var t := Target(r, d, w);
    n := Ordinal(t) - Ordinal(d);
    PlusReaches(d, t);
  }

  /** 29 February as a rule. */
  const LEAP_DAYS: DayRule := DayRule({29}, {2}, {0, 1, 2, 3, 4, 5, 6}, true, false)

  lemma NoLeapDayBetween(t: Date)
    requires IsDate(t) && Before(Date(2096, 2, 29), t) && Before(t, Date(2104, 2, 29))
    ensures !DateMatches(LEAP_DAYS, t)
  {
    assert 2096 < t.year < 2104 ==> !IsLeap(t.year);
  }

  /** The window is needed: after 29 February 2096 the next one is 2921 days off. */
  lemma WindowIsNeeded()
    ensures var d := Date(2096, 2, 29);
            && IsRule(LEAP_DAYS) && Possible(LEAP_DAYS) && IsDate(d)
            && forall n: nat :: 0 < n < 2921 ==> !DateMatches(LEAP_DAYS, Plus(d, n))
  {
    var d := Date(2096, 2, 29);
    assert IsDate(d) && DateMatches(LEAP_DAYS, d);
    assert 29 in LEAP_DAYS.doms && 2 in LEAP_DAYS.months && 0 in LEAP_DAYS.dows;
    assert Ordinal(Date(2104, 2, 29)) == Ordinal(d) + 2921;
    hide DateMatches, Ordinal, LEAP_DAYS, Plus;
    forall n: nat | 0 < n < 2921 ensures !DateMatches(LEAP_DAYS, Plus(d, n)) {
      var t := Plus(d, n);
      PlusAdds(d, n);
      OrdinalIsMonotone(d, t);
      OrdinalIsMonotone(t, Date(2104, 2, 29));
      NoLeapDayBetween(t);
    }
  }
}
