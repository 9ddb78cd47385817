/**
 Zones that meet what the crontab proofs ask for: any zone whose offset changes at most once a day,
 inside the day, on as many days as it likes. For these it is settled which schedules the scan is exact
 for, and which zones it is exact in for every schedule. UTC is one that never changes; a zone with
 summer time in every year is another; Greenland's change late in the evening is one that it is not
 exact in.
 */
module Zones {
  import opened Options
  import opened Calendar
  import opened CronFields
  import opened Crontab
  import opened Slots

  const DAY: int := 86400000
  const HOUR: int := 3600000

  /** 1 January 1970. */
  const EPOCH: int := 719163

  function Midnight(d: Date): int
    requires IsDate(d)
  {
    (Ordinal(d) - EPOCH) * DAY
  }

  /** The wall time as a count of milliseconds, offset not taken off. */
  function WallCount(d: Date, h: nat, m: nat): int {
    (if IsDate(d) then Midnight(d) else 0) + (h * 60 + m) * MINUTE
  }

  /** What happens on one date: `base` until the moment `at`, `base + shift` from it on. */
  datatype Shift = Shift(base: int, at: int, shift: int)

  /** How Python resolves a wall time: fold 0 by the old offset unless both agree it is after the
      change, fold 1 by the new offset unless both agree it is before. */
  function Resolve(z: Shift, w: int, fold: nat): int {
    var pre, post := w - z.base, w - z.base - z.shift;
    if fold == 0 then (if pre < z.at || post < z.at then pre else post)
    else if pre < z.at && post < z.at then pre
    else post
  }

  function LocalCount(z: Shift, s: int): int {
    s + z.base + if s < z.at then 0 else z.shift
  }

  // ----- one date

  predicate WholeMinutes(x: int) { x % MINUTE == 0 }

  /** A change on date `d` moves the clock from one time of that day to another, and leaves a day of at
      least half the usual length. */
  predicate ShiftsInside(z: Shift, d: Date) {
    && IsDate(d) && WholeMinutes(z.base) && WholeMinutes(z.shift)
    && (z.shift != 0 ==>
          && WholeMinutes(z.at)
          && Midnight(d) <= z.at + z.base && Midnight(d) <= z.at + z.base + z.shift
          && z.at + z.base <= Midnight(d) + DAY && z.at + z.base + z.shift <= Midnight(d) + DAY
          && 2 * z.shift <= DAY)
  }

  /** The date begins by the offset it starts with and ends by the one it ends with. */
  function Start(z: Shift, d: Date): int
    requires IsDate(d)
  {
    Midnight(d) - z.base
  }

  function End(z: Shift, d: Date): int
    requires IsDate(d)
  {
    Midnight(d) + DAY - z.base - z.shift
  }

  lemma RemainderIs(x: int, q: int, r: int)
    requires x == MINUTE * q + r && 0 <= r < MINUTE
    ensures x % MINUTE == r
  {}

  lemma WholeWallCount(d: Date, h: nat, m: nat)
    ensures WholeMinutes(WallCount(d, h, m))
  {
    hide Ordinal;
    var days := if IsDate(d) then Ordinal(d) - EPOCH else 0;
    assert days * DAY == MINUTE * (days * 1440);
    RemainderIs(WallCount(d, h, m), days * 1440 + h * 60 + m, 0);
  }

  lemma WholeDifference(a: int, b: int)
    requires WholeMinutes(a) && WholeMinutes(b)
    ensures WholeMinutes(a - b)
    ensures a < b ==> a + MINUTE <= b
  {
    var p, q := a / MINUTE, b / MINUTE;
    assert a == MINUTE * p && b == MINUTE * q;
  }

  lemma WallWithinDay(d: Date, h: nat, m: nat)
    requires IsDate(d) && IsMinute(h, m)
    ensures Midnight(d) <= WallCount(d, h, m) && WallCount(d, h, m) + MINUTE <= Midnight(d) + DAY
  {
    hide Midnight;
  }

  /** A wall time of the date, its second occurrence included, is shown from the date's start on, and up
      to its end unless it is skipped too late in the day. */
  lemma ResolvedInside(z: Shift, d: Date, w: int, t: int)
    requires ShiftsInside(z, d) && WholeMinutes(w) && Midnight(d) <= w && w + MINUTE <= Midnight(d) + DAY
    requires t == Resolve(z, w, 0) || (t == Resolve(z, w, 1) && t > Resolve(z, w, 0))
    ensures Start(z, d) <= t && t + MINUTE <= End(z, d) + (if z.shift > 0 then z.shift else 0)
  {
    hide Midnight;
    WholeDifference(w, z.base);
    WholeDifference(w - z.base, z.shift);
    if z.shift != 0 {
      WholeDifference(w - z.base, z.at);
      WholeDifference(w - z.base - z.shift, z.at);
    }
  }

  lemma OffsetAtMidnight(z: Shift, d: Date)
    requires ShiftsInside(z, d)
    ensures Resolve(z, WallCount(d, 0, 0), 0) == Start(z, d)
  {
    hide Midnight;
  }

  // ----- all dates

  type Days = Date -> Shift

  /** At most one change a day, and each date starts with the offset the last one ended with. */
  ghost predicate OneChangeADay(days: Days) {
    forall d :: IsDate(d) ==> ShiftsInside(days(d), d) && days(NextDay(d)).base == days(d).base + days(d).shift
  }

  ghost predicate OnDate(days: Days, s: int, d: Date) {
    IsDate(d) && Start(days(d), d) <= s < End(days(d), d)
  }

  ghost function DateAt(days: Days, s: int): Date {
    if d :| OnDate(days, s, d) then d else Date(1970, 1, 1)
  }

  /** What a clock shows on date `d` at the wall count `w`. */
  function Face(d: Date, w: int): Wall
    requires IsDate(d)
  {
    var since := w - Midnight(d);
    if since < 0 then Wall(d, 0, 0) else Wall(d, since / HOUR, since / MINUTE % 60)
  }

  ghost function ZoneOf(days: Days): Zone {
    Zone(
      (d: Date, h: nat, m: nat, fold: nat) => Resolve(days(d), WallCount(d, h, m), fold),
      s => if IsDate(DateAt(days, s)) then Face(DateAt(days, s), LocalCount(days(DateAt(days, s)), s))
           else Wall(Date(1970, 1, 1), 0, 0),
      d => WallCount(d, 0, 0) - Resolve(days(d), WallCount(d, 0, 0), 0))
  }

  lemma DatesAdjoin(days: Days, d: Date)
    requires OneChangeADay(days) && IsDate(d)
    ensures End(days(d), d) == Start(days(NextDay(d)), NextDay(d))
    ensures Start(days(d), d) + DAY <= End(days(d), d) + DAY / 2
  {
    hide Ordinal, NextDay;
    NextDayIsNext(d);
  }

  lemma {:induction false} DatesInOrder(days: Days, d: Date, d': Date)
    requires OneChangeADay(days) && IsDate(d) && IsDate(d') && Ordinal(d) < Ordinal(d')
    ensures End(days(d), d) <= Start(days(d'), d')
    decreases Ordinal(d') - Ordinal(d)
  {
    hide OneChangeADay, Start, End, NextDay;
    var next := NextDay(d);
    NextDayIsNext(d);
    DatesAdjoin(days, d);
    if Ordinal(next) == Ordinal(d') {
      OrdinalIsMonotone(next, d');
    } else {
      DatesInOrder(days, next, d');
      Grows(days, next);
    }
  }

  lemma Grows(days: Days, d: Date)
    requires OneChangeADay(days) && IsDate(d)
    ensures Start(days(d), d) < End(days(d), d)
  {
    DatesAdjoin(days, d);
  }

  lemma {:induction false} SomeDateFrom(days: Days, s: int, d: Date) returns (r: Date)
    requires OneChangeADay(days) && IsDate(d) && Start(days(d), d) <= s
    ensures OnDate(days, s, r)
    decreases s - Start(days(d), d)
  {
    hide OneChangeADay, Start, End, NextDay;
    if s < End(days(d), d) {
      r := d;
    } else {
      DatesAdjoin(days, d);
      r := SomeDateFrom(days, s, NextDay(d));
    }
  }

  lemma NextOfPrevious(d: Date)
    requires IsDate(d)
    ensures NextDay(PreviousDay(d)) == d
  {}

  lemma {:induction false} SomeDateUpTo(days: Days, s: int, d: Date) returns (r: Date)
    requires OneChangeADay(days) && IsDate(d) && s < End(days(d), d)
    ensures OnDate(days, s, r)
    decreases End(days(d), d) - s
  {
    hide OneChangeADay, Start, End, NextDay, PreviousDay;
    if Start(days(d), d) <= s {
      r := d;
    } else {
      NextOfPrevious(d);
      DatesAdjoin(days, PreviousDay(d));
      DatesAdjoin(days, d);
      r := SomeDateUpTo(days, s, PreviousDay(d));
    }
  }

  lemma EveryMomentHasADate(days: Days, s: int)
    requires OneChangeADay(days)
    ensures OnDate(days, s, DateAt(days, s))
  {
    hide Start, End, OneChangeADay;
    var d := Date(1970, 1, 1);
    var r;
    if Start(days(d), d) <= s {
      r := SomeDateFrom(days, s, d);
    } else {
      Grows(days, d);
      r := SomeDateUpTo(days, s, d);
    }
    assert OnDate(days, s, r);
  }

  // ----- the three assumptions

  lemma ClockDate(days: Days, s: int)
    requires OneChangeADay(days)
    ensures OnDate(days, s, ZoneOf(days).wall(s).date)
  {
    hide Start, End, OneChangeADay, Midnight;
    EveryMomentHasADate(days, s);
  }

  lemma LaterDaysAreAhead(days: Days)
    requires OneChangeADay(days)
    ensures LaterIsAhead(ZoneOf(days))
  {
    hide Resolve, WallCount, Ordinal, ZoneOf, OneChangeADay, Shows, Start, End;
    forall s, d, h, m, t
      | IsDate(d) && IsMinute(h, m) && Shows(ZoneOf(days), d, h, m, t) && Before(ZoneOf(days).wall(s).date, d)
      ensures t > s
    {
      var today := ZoneOf(days).wall(s).date;
      ClockDate(days, s);
      ShownInside(days, d, h, m, t);
      OrdinalIsMonotone(today, d);
      DatesInOrder(days, today, d);
    }
  }

  lemma ShownInside(days: Days, d: Date, h: nat, m: nat, t: int)
    requires OneChangeADay(days) && IsDate(d) && IsMinute(h, m) && Shows(ZoneOf(days), d, h, m, t)
    ensures Start(days(d), d) <= t < End(days(NextDay(d)), NextDay(d))
  {
    hide Resolve, WallCount, Midnight, NextDay;
    WallWithinDay(d, h, m);
    WholeWallCount(d, h, m);
    ResolvedInside(days(d), d, WallCount(d, h, m), t);
    DatesAdjoin(days, d);
  }

  lemma HourOfMinutes(r: int, n: int)
    requires 0 <= r < DAY && n == r / MINUTE
    ensures r / HOUR == n / 60 && 0 <= n < 1440 && n / 60 * 60 + n % 60 == n && n / 60 < 24
  {}

  lemma QuotientOfMinute(r: int)
    ensures r / MINUTE * MINUTE == r - r % MINUTE
  {}

  lemma SameRemainder(s: int, b: int)
    requires WholeMinutes(b)
    ensures (s + b) % MINUTE == s % MINUTE
  {
    RemainderIs(s + b, s / MINUTE + b / MINUTE, s % MINUTE);
  }

  /** Reading the clock drops what is left of the minute. */
  lemma FaceOf(d: Date, w: int)
    requires IsDate(d) && Midnight(d) <= w < Midnight(d) + DAY
    ensures var f := Face(d, w);
            IsMinute(f.hour, f.minute) && f.date == d && WallCount(d, f.hour, f.minute) == w - w % MINUTE
  {
    var since := w - Midnight(d);
    HourOfMinutes(since, since / MINUTE);
    QuotientOfMinute(since);
    WholeWallCount(d, 0, 0);
    assert WallCount(d, 0, 0) == Midnight(d);
    hide Midnight;
    SameRemainder(since, Midnight(d));
  }

  lemma LocalInside(z: Shift, d: Date, s: int)
    requires ShiftsInside(z, d) && Start(z, d) <= s < End(z, d)
    ensures Midnight(d) <= LocalCount(z, s) < Midnight(d) + DAY
  {
    hide Midnight;
  }

  /** A whole minute not after `s` is not after the start of its minute. */
  lemma WholeStart(s: int, at: int)
    requires WholeMinutes(at)
    ensures at <= s <==> at <= s - s % MINUTE
  {
    assert s == MINUTE * (s / MINUTE) + s % MINUTE && at == MINUTE * (at / MINUTE);
  }

  lemma ReadingResolves(z: Shift, d: Date, s: int)
    requires ShiftsInside(z, d)
    ensures var w := LocalCount(z, s);
            var (start, t) := (w - w % MINUTE, s - w % MINUTE);
            w % MINUTE == s % MINUTE
            && (t == Resolve(z, start, 0) || (t == Resolve(z, start, 1) && t > Resolve(z, start, 0)))
  {
    SameRemainder(s, z.base);
    SameRemainder(s + z.base, z.shift);
    if z.shift != 0 {
      WholeStart(s, z.at);
    }
  }

  lemma ClockShowsResolved(days: Days)
    requires OneChangeADay(days)
    ensures ClockReads(ZoneOf(days))
  {
    hide ReadsAt, ZoneOf;
    forall s ensures ReadsAt(ZoneOf(days), s, ZoneOf(days).wall(s)) {
      ReadsResolved(days, s);
    }
  }

  lemma ReadsResolved(days: Days, s: int)
    requires OneChangeADay(days)
    ensures ReadsAt(ZoneOf(days), s, ZoneOf(days).wall(s))
  {
    hide Resolve, LocalCount, WallCount, Face, Start, End, ShiftsInside, Midnight, DateAt;
    EveryMomentHasADate(days, s);
    var d := DateAt(days, s);
    var z := days(d);
    var w := LocalCount(z, s);
    LocalInside(z, d, s);
    FaceOf(d, w);
    ReadingResolves(z, d, s);
    var f := Face(d, w);
    assert Shows(ZoneOf(days), f.date, f.hour, f.minute, s - w % MINUTE);
  }

  lemma OtherDaysAreSteady(days: Days)
    requires OneChangeADay(days)
    ensures SteadyDays(ZoneOf(days))
  {
    hide ShiftsInside, Resolve, WallCount, Midnight, Shifts;
    forall d: Date, h: nat, m: nat | IsDate(d) && !Shifts(ZoneOf(days), d) && IsMinute(h, m)
      ensures ZoneOf(days).instant(d, h, m, 0) == ZoneOf(days).instant(d, 0, 0, 0) + (h * 60 + m) * MINUTE
      ensures ZoneOf(days).instant(d, h, m, 1) == ZoneOf(days).instant(d, h, m, 0)
    {
      SteadyHasNoShift(days, d);
      NoShiftResolves(days(d), d, h, m);
    }
  }

  /** The offsets at two midnights differ iff the day between them has a change. */
  lemma SteadyHasNoShift(days: Days, d: Date)
    requires OneChangeADay(days) && IsDate(d)
    ensures Shifts(ZoneOf(days), d) <==> days(d).shift != 0
  {
    hide Resolve, Midnight, NextDay, ShiftsInside;
    OffsetAtMidnight(days(d), d);
    OffsetAtMidnight(days(NextDay(d)), NextDay(d));
  }

  lemma NoShiftResolves(z: Shift, d: Date, h: nat, m: nat)
    requires z.shift == 0
    ensures Resolve(z, WallCount(d, h, m), 0) == Resolve(z, WallCount(d, 0, 0), 0) + (h * 60 + m) * MINUTE
    ensures Resolve(z, WallCount(d, h, m), 1) == Resolve(z, WallCount(d, h, m), 0)
  {
    hide Midnight;
  }

  /** The crontab theorems apply to every such zone. */
  lemma OneChangeADayIsOk(days: Days)
    requires OneChangeADay(days)
    ensures ZoneOk(ZoneOf(days))
  {
    LaterDaysAreAhead(days);
    ClockShowsResolved(days);
    OtherDaysAreSteady(days);
  }

  // ----- firing by the clock

  lemma SameWallTime(d: Date, h: nat, m: nat, h': nat, m': nat)
    requires IsMinute(h, m) && IsMinute(h', m') && WallCount(d, h, m) == WallCount(d, h', m')
    ensures h == h' && m == m'
  {}

  /** What the clock shows at a whole minute of a day without a change. */
  lemma SteadyReading(days: Days, d: Date, h: nat, m: nat, t: int)
    requires OneChangeADay(days) && OnDate(days, t, d) && days(d).shift == 0 && IsMinute(h, m)
    ensures ZoneOf(days).wall(t).date == d
    ensures t == ZoneOf(days).instant(d, h, m, 0) <==>
              LocalCount(days(d), t) % MINUTE == 0
              && ZoneOf(days).wall(t).hour == h && ZoneOf(days).wall(t).minute == m
  {
    hide OneChangeADay, OnDate, DateAt, Face, LocalCount, Resolve, WallCount, Midnight, Start, End;
    EveryMomentHasADate(days, t);
    DateOf(days, t, d);
    EndedBefore(days, t, d, DateAt(days, t));
    LocalOnDate(days, d, t);
    FaceOf(d, LocalCount(days(d), t));
    SteadyFace(days(d), d, h, m, t);
  }

  lemma LocalOnDate(days: Days, d: Date, t: int)
    requires OneChangeADay(days) && OnDate(days, t, d)
    ensures IsDate(d) && Midnight(d) <= LocalCount(days(d), t) < Midnight(d) + DAY
  {
    hide Start, End, Midnight, LocalCount, ShiftsInside;
    LocalInside(days(d), d, t);
  }

  lemma SteadyFace(z: Shift, d: Date, h: nat, m: nat, t: int)
    requires IsDate(d) && z.shift == 0 && IsMinute(h, m)
    requires Midnight(d) <= LocalCount(z, t) < Midnight(d) + DAY
    ensures var (w, f) := (LocalCount(z, t), Face(d, LocalCount(z, t)));
            t == Resolve(z, WallCount(d, h, m), 0) <==> w % MINUTE == 0 && f.hour == h && f.minute == m
  {
    var w := LocalCount(z, t);
    FaceOf(d, w);
    var f := Face(d, w);
    WholeWallCount(d, h, m);
    hide Midnight, Face;
    if w == WallCount(d, h, m) {
      SameWallTime(d, h, m, f.hour, f.minute);
    }
  }

  /** Away from changes, a schedule fires exactly at the whole minutes at which the clock shows one of its
      hours, one of its minutes, and a date that its day fields match. */
  lemma FiresByTheClock(c: Cron, days: Days, t: int)
    requires IsCron(c) && OneChangeADay(days)
    requires var today := ZoneOf(days).wall(t).date;
             IsDate(today) ==> days(today).shift == 0 && days(PreviousDay(today)).shift <= 0
    ensures var shown := ZoneOf(days).wall(t);
            Fires(c, ZoneOf(days), t) <==>
              && LocalCount(days(shown.date), t) % MINUTE == 0
              && shown.hour in c.hours && shown.minute in c.minutes
              && IsDate(shown.date) && DateMatches(c.days, shown.date)
  {
    ClockDate(days, t);
    var z, shown := ZoneOf(days), ZoneOf(days).wall(t);
    var today := shown.date;
    hide OneChangeADay, ZoneOf, OnDate, DateMatches, LocalCount, PreviousDay, FiresOn, Start, End;
    assert IsDate(today) by { DateOf(days, t, today); }
    if Fires(c, z, t) {
      var e :| IsDate(e) && DateMatches(c.days, e) && FiresOn(c, z, e, t);
      FiredOnItsDate(c, days, e, t, today);
      FiringIsShown(c, days, today, t);
    }
    if LocalCount(days(today), t) % MINUTE == 0 && shown.hour in c.hours && shown.minute in c.minutes
       && DateMatches(c.days, today) {
      ShownIsFiring(c, days, today, t);
    }
  }

  lemma DateOf(days: Days, t: int, d: Date)
    requires OnDate(days, t, d)
    ensures IsDate(d)
  {}

  lemma FiringIsShown(c: Cron, days: Days, d: Date, t: int)
    requires IsCron(c) && OneChangeADay(days) && OnDate(days, t, d) && days(d).shift == 0
    requires FiresOn(c, ZoneOf(days), d, t)
    ensures LocalCount(days(d), t) % MINUTE == 0
    ensures ZoneOf(days).wall(t).hour in c.hours && ZoneOf(days).wall(t).minute in c.minutes
  {
    hide OneChangeADay, ZoneOf, OnDate, LocalCount, FiresAs;
    var h, m :| h in c.hours && m in c.minutes && FiresAs(c, ZoneOf(days), d, h, m, t);
    SteadyFiresOnce(c, days, d, h, m, t);
    SteadyReading(days, d, h, m, t);
  }

  lemma ShownIsFiring(c: Cron, days: Days, d: Date, t: int)
    requires IsCron(c) && OneChangeADay(days) && OnDate(days, t, d) && days(d).shift == 0
    requires LocalCount(days(d), t) % MINUTE == 0
    requires ZoneOf(days).wall(t).hour in c.hours && ZoneOf(days).wall(t).minute in c.minutes
    ensures FiresOn(c, ZoneOf(days), d, t)
  {
    hide OneChangeADay, ZoneOf, OnDate, LocalCount;
    var h, m := ZoneOf(days).wall(t).hour, ZoneOf(days).wall(t).minute;
    SteadyReading(days, d, h, m, t);
    assert FiresAs(c, ZoneOf(days), d, h, m, t);
  }

  lemma SteadyFiresOnce(c: Cron, days: Days, d: Date, h: nat, m: nat, t: int)
    requires days(d).shift == 0 && FiresAs(c, ZoneOf(days), d, h, m, t)
    ensures t == ZoneOf(days).instant(d, h, m, 0)
  {
    NoShiftResolves(days(d), d, h, m);
  }

  /** If neither the day nor the one before it moves the clock on, a firing is of the date it is on. */
  lemma FiredOnItsDate(c: Cron, days: Days, e: Date, t: int, today: Date)
    requires IsCron(c) && OneChangeADay(days) && IsDate(e) && FiresOn(c, ZoneOf(days), e, t) && OnDate(days, t, today)
    requires days(PreviousDay(today)).shift <= 0
    ensures e == today
  {
    hide OneChangeADay, ZoneOf, NextDay, PreviousDay, FiresOn, Ordinal;
    FiredInside(c, days, e, t);
    DatesAdjoin(days, e);
    NextOfPrevious(today);
    hide Start, End, OnDate;
    EndedBefore(days, t, NextDay(e), today);
    EndedBefore(days, t, e, today);
    NextDayIsNext(e);
    NextDayIsNext(PreviousDay(today));
    OrdinalIsMonotone(e, today);
    OrdinalIsMonotone(today, e);
    OrdinalIsMonotone(NextDay(e), today);
    OrdinalIsMonotone(e, PreviousDay(today));
    if Before(today, e) {
      LaterStartsLater(days, t, today, e);
    } else if Before(e, today) {
      assert e == PreviousDay(today);
      FiredByEndOfDay(c, days, e, t);
    }
  }

  lemma LaterStartsLater(days: Days, t: int, today: Date, e: Date)
    requires OneChangeADay(days) && OnDate(days, t, today) && IsDate(e) && Before(today, e)
    ensures t < Start(days(e), e)
  {
    hide OneChangeADay, Start, End, Ordinal;
    OrdinalIsMonotone(today, e);
    DatesInOrder(days, today, e);
  }

  lemma FiredByEndOfDay(c: Cron, days: Days, d: Date, t: int)
    requires IsCron(c) && OneChangeADay(days) && IsDate(d) && FiresOn(c, ZoneOf(days), d, t) && days(d).shift <= 0
    ensures t < End(days(d), d)
  {
    hide Resolve, WallCount, Midnight, NextDay, End;
    var h, m :| h in c.hours && m in c.minutes && FiresAs(c, ZoneOf(days), d, h, m, t);
    WallWithinDay(d, h, m);
    WholeWallCount(d, h, m);
    ResolvedInside(days(d), d, WallCount(d, h, m), t);
  }

  // ----- when the scan is exact

  /** Firings of date `d` that its skipped times push past its end do no harm: one later than that end
      is a firing of the next date too, and at that end or later the first of both dates is one of `d`. */
  ghost predicate SpillIsHarmless(c: Cron, days: Days, d: Date)
    requires IsDate(d)
  {
    var z, next, end := ZoneOf(days), NextDay(d), End(days(d), d);
    && (forall t :: FiresOn(c, z, d, t) && t > end ==> DateMatches(c.days, next) && FiresOn(c, z, next, t))
    && forall t, t' :: FiresOn(c, z, d, t) && t >= end && DateMatches(c.days, next) && FiresOn(c, z, next, t') ==>
         exists u :: FiresOn(c, z, d, u) && end <= u <= t'
  }

  ghost predicate SpillsHarmless(c: Cron, days: Days) {
    forall d :: IsDate(d) && DateMatches(c.days, d) ==> SpillIsHarmless(c, days, d)
  }

  lemma FiredInside(c: Cron, days: Days, d: Date, t: int)
    requires IsCron(c) && OneChangeADay(days) && IsDate(d) && FiresOn(c, ZoneOf(days), d, t)
    ensures Start(days(d), d) <= t < End(days(NextDay(d)), NextDay(d))
  {
    hide OneChangeADay, ZoneOf, Start, End, NextDay;
    var h, m :| h in c.hours && m in c.minutes && FiresAs(c, ZoneOf(days), d, h, m, t);
    ShownInside(days, d, h, m, t);
  }

  /** The date of a moment is the only one, and earlier dates have ended. */
  lemma EndedBefore(days: Days, s: int, d: Date, today: Date)
    requires OneChangeADay(days) && OnDate(days, s, today) && IsDate(d)
    ensures Before(d, today) ==> End(days(d), d) <= s
    ensures OnDate(days, s, d) ==> d == today
  {
    hide OneChangeADay, Start, End, Ordinal;
    OrdinalIsMonotone(d, today);
    OrdinalIsMonotone(today, d);
    if Before(d, today) {
      DatesInOrder(days, d, today);
    } else if Before(today, d) {
      DatesInOrder(days, today, d);
    }
  }

  /** A firing left over from before the clock's day is one of that day as well. */
  lemma LeftOverFiresToday(c: Cron, days: Days, s: int, e: Date, t: int)
    requires IsCron(c) && OneChangeADay(days) && SpillsHarmless(c, days)
    requires IsDate(e) && DateMatches(c.days, e) && FiresOn(c, ZoneOf(days), e, t) && t > s
    ensures var today := ZoneOf(days).wall(s).date;
            IsDate(today) && (Before(e, today) ==> DateMatches(c.days, today) && FiresOn(c, ZoneOf(days), today, t))
  {
    hide OneChangeADay, ZoneOf, Start, End, NextDay, FiresOn, DateMatches, Ordinal;
    var today := ZoneOf(days).wall(s).date;
    ClockDate(days, s);
    if Before(e, today) {
      FiredInside(c, days, e, t);
      EndedBefore(days, s, e, today);
      EndedBefore(days, s, NextDay(e), today);
      OrdinalIsMonotone(e, today);
      NextDayIsNext(e);
      OrdinalIsMonotone(NextDay(e), today);
      assert NextDay(e) == today;
      DatesAdjoin(days, e);
      assert SpillIsHarmless(c, days, e);
    }
  }

  /** Firings of dates after the day of the find are not before it. */
  lemma LaterDateFiresLater(c: Cron, days: Days, s: int, d: Date, r: int, e: Date, t: int)
    requires IsCron(c) && OneChangeADay(days) && SpillsHarmless(c, days)
    requires IsDate(d) && DateMatches(c.days, d) && FirstOn(c, ZoneOf(days), d, s, Some(r)) && s < End(days(d), d)
    requires IsDate(e) && DateMatches(c.days, e) && FiresOn(c, ZoneOf(days), e, t) && Before(d, e)
    ensures r <= t
  {
    hide OneChangeADay, ZoneOf, Start, End, NextDay, FiresOn, DateMatches, Ordinal, SpillsHarmless;
    var next := NextDay(d);
    FiredInside(c, days, d, r);
    FiredInside(c, days, e, t);
    OrdinalIsMonotone(d, e);
    DatesInOrder(days, d, e);
    if r >= End(days(d), d) {
      NextDayIsNext(d);
      OrdinalIsMonotone(next, e);
      if e == next {
        FirstSpillIsFirst(c, days, s, d, r, t);
      } else {
        DatesInOrder(days, next, e);
      }
    }
  }

  lemma FirstSpillIsFirst(c: Cron, days: Days, s: int, d: Date, r: int, t: int)
    requires IsDate(d) && DateMatches(c.days, d) && SpillsHarmless(c, days) && s < End(days(d), d)
    requires FirstOn(c, ZoneOf(days), d, s, Some(r)) && r >= End(days(d), d)
    requires DateMatches(c.days, NextDay(d)) && FiresOn(c, ZoneOf(days), NextDay(d), t)
    ensures r <= t
  {
    hide ZoneOf, End, NextDay, FiresOn, DateMatches;
    assert SpillIsHarmless(c, days, d);
  }

  lemma HarmlessScanFindsNext(c: Cron, days: Days, s: int, r: int, t: int)
    requires IsCron(c) && OneChangeADay(days) && SpillsHarmless(c, days)
    requires IsScanned(c, ZoneOf(days), s, r) && Fires(c, ZoneOf(days), t) && t > s
    ensures r <= t
  {
    hide OneChangeADay, ZoneOf, Start, End, NextDay, FiresOn, DateMatches, Ordinal, SpillsHarmless, Plus, Exhausted;
    var z := ZoneOf(days);
    ClockDate(days, s);
    var today := z.wall(s).date;
    var offset: nat :| FoundAt(c, z, s, offset, r);
    var d := Plus(today, offset);
    var e :| IsDate(e) && DateMatches(c.days, e) && FiresOn(c, z, e, t);
    LeftOverFiresToday(c, days, s, e, t);
    if Before(e, today) {
      e := today;
    }
    assert !Before(e, today);
    NotExhausted(c, z, s, offset, e, t);
    EndNotBefore(days, s, today, offset);
    OrdinalIsMonotone(e, d);
    OrdinalIsMonotone(d, e);
    if e != d {
      LaterDateFiresLater(c, days, s, d, r, e, t);
    }
  }

  lemma EndNotBefore(days: Days, s: int, today: Date, offset: nat)
    requires OneChangeADay(days) && OnDate(days, s, today)
    ensures s < End(days(Plus(today, offset)), Plus(today, offset))
  {
    hide OneChangeADay, Start, End, Ordinal, Plus;
    var d := Plus(today, offset);
    PlusAdds(today, offset);
    if offset == 0 {
      OrdinalIsMonotone(d, today);
    } else {
      DatesInOrder(days, today, d);
      Grows(days, d);
    }
  }

  lemma HarmlessIsExact(c: Cron, days: Days)
    requires IsCron(c) && OneChangeADay(days) && SpillsHarmless(c, days)
    ensures ScanExact(c, ZoneOf(days))
  {
    hide OneChangeADay, ZoneOf, SpillsHarmless, Fires, IsScanned;
    forall s, r, t | IsScanned(c, ZoneOf(days), s, r) && Fires(c, ZoneOf(days), t) && t > s ensures r <= t {
      HarmlessScanFindsNext(c, days, s, r, t);
    }
    forall s, r | IsScanned(c, ZoneOf(days), s, r) ensures IsNext(c, ZoneOf(days), s, r) {
      ScannedIsLater(c, ZoneOf(days), s, r);
    }
  }

  /** What an exact scan finds from just before a firing. */
  lemma FoundJustBefore(c: Cron, days: Days, d: Date, t: int)
    requires IsCron(c) && OneChangeADay(days) && ScanExact(c, ZoneOf(days))
    requires IsDate(d) && DateMatches(c.days, d) && FiresOn(c, ZoneOf(days), d, t)
    ensures IsScanned(c, ZoneOf(days), t - 1, t)
  {
    hide OneChangeADay, ZoneOf, FiresOn, DateMatches, IsScanned, ZoneOk;
    OneChangeADayIsOk(days);
    var r := ScanFinds(c, ZoneOf(days), t - 1);
    assert IsNext(c, ZoneOf(days), t - 1, r);
    assert Fires(c, ZoneOf(days), t);
  }

  /** If the scan is exact, a firing past the end of its date is one of the next date. */
  lemma ExactSpillsFireToday(c: Cron, days: Days, d: Date, t: int)
    requires IsCron(c) && OneChangeADay(days) && ScanExact(c, ZoneOf(days))
    requires IsDate(d) && DateMatches(c.days, d) && FiresOn(c, ZoneOf(days), d, t) && t > End(days(d), d)
    ensures DateMatches(c.days, NextDay(d)) && FiresOn(c, ZoneOf(days), NextDay(d), t)
  {
    hide OneChangeADay, ZoneOf, Start, End, NextDay, FiresOn, DateMatches, Ordinal, Plus, Exhausted, ScanExact;
    var z, next := ZoneOf(days), NextDay(d);
    FiredInside(c, days, d, t);
    DatesAdjoin(days, d);
    ClockDate(days, t - 1);
    EndedBefore(days, t - 1, next, z.wall(t - 1).date);
    FoundJustBefore(c, days, d, t);
    var offset: nat :| FoundAt(c, z, t - 1, offset, t);
    var e := Plus(next, offset);
    PlusAdds(next, offset);
    FiredInside(c, days, e, t);
    if offset > 0 {
      DatesInOrder(days, next, e);
    } else {
      OrdinalIsMonotone(e, next);
    }
  }

  /** If the scan is exact, the first firing of both dates past the end of the first is one of its own. */
  lemma ExactSpillComesFirst(c: Cron, days: Days, d: Date, t: int, t': int) returns (u: int)
    requires IsCron(c) && OneChangeADay(days) && ScanExact(c, ZoneOf(days))
    requires IsDate(d) && DateMatches(c.days, d) && FiresOn(c, ZoneOf(days), d, t) && t >= End(days(d), d)
    requires DateMatches(c.days, NextDay(d)) && FiresOn(c, ZoneOf(days), NextDay(d), t')
    ensures FiresOn(c, ZoneOf(days), d, u) && End(days(d), d) <= u <= t'
  {
    hide OneChangeADay, ZoneOf, Start, End, NextDay, FiresOn, DateMatches, Ordinal, Plus, ZoneOk;
    var z, s := ZoneOf(days), End(days(d), d) - 1;
    Grows(days, d);
    DatesAdjoin(days, d);
    FiredInside(c, days, NextDay(d), t');
    ClockDate(days, s);
    EndedBefore(days, s, d, z.wall(s).date);
    u := LeastOn(c, z, d, s, t);
    NothingScanned(c, z, s);
    assert FoundAt(c, z, s, 0, u);
    assert IsScanned(c, z, s, u);
    assert IsNext(c, z, s, u);
    assert Fires(c, z, t');
  }

  /** The scan finds the next instant from everywhere iff no firing pushed past the end of its date
      does harm. */
  lemma ScanIsExactIff(days: Days, c: Cron)
    requires OneChangeADay(days) && IsCron(c)
    ensures ScanExact(c, ZoneOf(days)) <==> SpillsHarmless(c, days)
  {
    hide OneChangeADay, ZoneOf, FiresOn, DateMatches, ScanExact, End, NextDay, IsCron;
    if SpillsHarmless(c, days) {
      HarmlessIsExact(c, days);
    }
    if ScanExact(c, ZoneOf(days)) {
      forall d | IsDate(d) && DateMatches(c.days, d) ensures SpillIsHarmless(c, days, d) {
        var z, next, end := ZoneOf(days), NextDay(d), End(days(d), d);
        forall t | FiresOn(c, z, d, t) && t > end ensures DateMatches(c.days, next) && FiresOn(c, z, next, t) {
          ExactSpillsFireToday(c, days, d, t);
        }
        forall t, t' | FiresOn(c, z, d, t) && t >= end && DateMatches(c.days, next) && FiresOn(c, z, next, t')
          ensures exists u :: FiresOn(c, z, d, u) && end <= u <= t'
        {
          var u := ExactSpillComesFirst(c, days, d, t, t');
        }
      }
    }
  }

  // ----- when it is exact for every schedule

  /** A change forward leaves none of the day's minutes, its skipped ones moved on, to begin past its end. */
  predicate SpillsNothing(z: Shift, d: Date)
    requires IsDate(d)
  {
    z.shift > 0 ==> z.at + z.base + 2 * z.shift <= Midnight(d) + DAY + MINUTE
  }

  ghost predicate ExactForAll(days: Days) {
    forall c :: IsCron(c) ==> ScanExact(c, ZoneOf(days))
  }

  lemma ResolvedByEnd(z: Shift, d: Date, w: int, t: int)
    requires ShiftsInside(z, d) && WholeMinutes(w) && Midnight(d) <= w && w + MINUTE <= Midnight(d) + DAY
    requires t == Resolve(z, w, 0) || (t == Resolve(z, w, 1) && t > Resolve(z, w, 0))
    requires SpillsNothing(z, d)
    ensures t <= End(z, d)
  {
    hide Midnight;
    WholeDifference(w, z.base);
    WholeDifference(w - z.base, z.shift);
    if z.shift != 0 {
      WholeDifference(w - z.base, z.at);
      WholeDifference(w - z.base - z.shift, z.at);
    }
  }

  lemma FiredByEnd(c: Cron, days: Days, d: Date, t: int)
    requires IsCron(c) && OneChangeADay(days) && IsDate(d) && FiresOn(c, ZoneOf(days), d, t)
    requires SpillsNothing(days(d), d)
    ensures t <= End(days(d), d)
  {
    hide Resolve, WallCount, Midnight, NextDay, SpillsNothing, End;
    var h, m :| h in c.hours && m in c.minutes && FiresAs(c, ZoneOf(days), d, h, m, t);
    WallWithinDay(d, h, m);
    WholeWallCount(d, h, m);
    ResolvedByEnd(days(d), d, WallCount(d, h, m), t);
  }

  lemma NothingSpilledIsHarmless(c: Cron, days: Days)
    requires IsCron(c) && OneChangeADay(days) && forall d :: IsDate(d) ==> SpillsNothing(days(d), d)
    ensures SpillsHarmless(c, days)
  {
    hide OneChangeADay, ZoneOf, Start, End, NextDay, FiresOn, DateMatches, SpillsNothing;
    forall d | IsDate(d) && DateMatches(c.days, d) ensures SpillIsHarmless(c, days, d) {
      forall t | FiresOn(c, ZoneOf(days), d, t) ensures t <= End(days(d), d) {
        FiredByEnd(c, days, d, t);
      }
      forall t | FiresOn(c, ZoneOf(days), NextDay(d), t) ensures End(days(d), d) <= t {
        FiredInside(c, days, NextDay(d), t);
        DatesAdjoin(days, d);
      }
    }
  }

  /** The schedule of one wall time on one day of one month. */
  function YearlyAt(d: Date, h: nat, m: nat): Cron {
    Cron({m}, {h}, DayRule({d.day}, {d.month}, {0}, true, false), false)
  }

  lemma YearlyMatches(d: Date, h: nat, m: nat)
    requires IsDate(d) && IsMinute(h, m)
    ensures IsCron(YearlyAt(d, h, m)) && DateMatches(YearlyAt(d, h, m).days, d)
    ensures !DateMatches(YearlyAt(d, h, m).days, NextDay(d))
  {}

  /** The last minute that the change skips. */
  function LastSkipped(z: Shift): int { z.at + z.base + z.shift - MINUTE }

  lemma LastSkippedIsLate(z: Shift, d: Date)
    requires ShiftsInside(z, d) && !SpillsNothing(z, d)
    ensures Midnight(d) <= LastSkipped(z) < Midnight(d) + DAY && LastSkipped(z) % MINUTE == 0
    ensures Resolve(z, LastSkipped(z), 0) > End(z, d)
  {
    hide Midnight;
    var (a, b, c) := (z.at / MINUTE, z.base / MINUTE, z.shift / MINUTE);
    assert z.at == MINUTE * a && z.base == MINUTE * b && z.shift == MINUTE * c;
    RemainderIs(LastSkipped(z), a + b + c - 1, 0);
  }

  /** Fired once a year, that minute of a late change is missed by the scan. */
  lemma LateChangeLosesAMinute(days: Days, d: Date) returns (c: Cron)
    requires OneChangeADay(days) && IsDate(d) && !SpillsNothing(days(d), d)
    ensures IsCron(c) && !SpillsHarmless(c, days)
  {
    hide Midnight, NextDay, End, Resolve, LastSkipped, SpillsNothing, ShiftsInside, Face, DateMatches, WallCount, IsDate;
    var w := LastSkipped(days(d));
    LastSkippedIsLate(days(d), d);
    FaceOf(d, w);
    var f := Face(d, w);
    c := YearlyAt(d, f.hour, f.minute);
    YearlyMatches(d, f.hour, f.minute);
    var t := Resolve(days(d), w, 0);
    assert FiresAs(c, ZoneOf(days), d, f.hour, f.minute, t);
    assert FiresOn(c, ZoneOf(days), d, t);
    assert !SpillIsHarmless(c, days, d);
  }

  /** The scan is exact for every schedule iff no change comes so late that it pushes minutes it skips
      past the end of their day. */
  lemma EveryScheduleIsExactIff(days: Days)
    requires OneChangeADay(days)
    ensures ExactForAll(days) <==> forall d :: IsDate(d) ==> SpillsNothing(days(d), d)
  {
    hide OneChangeADay, ZoneOf, SpillsNothing, SpillsHarmless, ScanExact, IsCron;
    if forall d :: IsDate(d) ==> SpillsNothing(days(d), d) {
      forall c | IsCron(c) ensures ScanExact(c, ZoneOf(days)) {
        NothingSpilledIsHarmless(c, days);
        ScanIsExactIff(days, c);
      }
    } else {
      var d :| IsDate(d) && !SpillsNothing(days(d), d);
      var c := LateChangeLosesAMinute(days, d);
      ScanIsExactIff(days, c);
    }
  }

  // ----- three zones

  /** UTC: `fromtimestamp` with no offset and no change. */
  lemma UtcIsOk()
    ensures ZoneOk(ZoneOf(d => Shift(0, 0, 0))) && ExactForAll(d => Shift(0, 0, 0))
  {
    hide ZoneOk, ExactForAll;
    OneChangeADayIsOk(d => Shift(0, 0, 0));
    EveryScheduleIsExactIff(d => Shift(0, 0, 0));
  }

  /** Most of a week past the last Sunday of a month of 31 days. */
  predicate AfterLastSunday(d: Date)
    requires IsDate(d)
  {
    CronWeekday(d) > 0 && d.day - CronWeekday(d) >= 25
  }

  predicate IsLastSunday(d: Date)
    requires IsDate(d)
  {
    CronWeekday(d) == 0 && d.day >= 25
  }

  /** Summer time at the date's midnight. */
  predicate StartsInSummer(d: Date)
    requires IsDate(d)
  {
    4 <= d.month <= 9 || (d.month == 3 && AfterLastSunday(d)) || (d.month == 10 && !AfterLastSunday(d))
  }

  /** One hour ahead of UTC, two in summer, changing at 01:00 UTC on the last Sundays of March and
      October, as in most of the European Union. */
  function CentralEurope(d: Date): Shift {
    if !IsDate(d) then Shift(0, 0, 0)
    else
      Shift(if StartsInSummer(d) then 2 * HOUR else HOUR,
            Midnight(d) + HOUR,
            if IsLastSunday(d) && d.month == 3 then HOUR
            else if IsLastSunday(d) && d.month == 10 then -HOUR
            else 0)
  }

  lemma WeekdayInRange(d: Date)
    requires IsDate(d)
    ensures 0 <= CronWeekday(d) < 7
  {
    hide Ordinal;
  }

  lemma SummerComesAndGoes(d: Date)
    requires IsDate(d)
    ensures CentralEurope(NextDay(d)).base == CentralEurope(d).base + CentralEurope(d).shift
  {
    hide CronWeekday, Midnight;
    WeekdaysGoRound(d);
    WeekdayInRange(d);
  }

  lemma ChangesInsideTheDay(d: Date)
    requires IsDate(d)
    ensures ShiftsInside(CentralEurope(d), d) && SpillsNothing(CentralEurope(d), d)
  {
    WholeWallCount(d, 1, 0);
    assert WallCount(d, 1, 0) == Midnight(d) + HOUR;
    hide Midnight;
  }

  /** Two changes in every year. */
  lemma CentralEuropeIsOk()
    ensures ZoneOk(ZoneOf(CentralEurope)) && ExactForAll(CentralEurope)
  {
    hide ZoneOk, CentralEurope, ShiftsInside, ExactForAll, SpillsNothing;
    forall d | IsDate(d)
      ensures ShiftsInside(CentralEurope(d), d) && SpillsNothing(CentralEurope(d), d)
      ensures CentralEurope(NextDay(d)).base == CentralEurope(d).base + CentralEurope(d).shift
    {
      SummerComesAndGoes(d);
      ChangesInsideTheDay(d);
    }
    OneChangeADayIsOk(CentralEurope);
    EveryScheduleIsExactIff(CentralEurope);
  }

  const NUUK_CHANGE: Date := Date(2024, 3, 30)

  /** Nuuk around its change of spring 2024: two hours behind UTC, from 23:00 on that day one hour. */
  function Nuuk(d: Date): Shift {
    Shift(if Before(NUUK_CHANGE, d) then -HOUR else -2 * HOUR,
          1711846800000,
          if d == NUUK_CHANGE then HOUR else 0)
  }

  lemma NuukMidnight()
    ensures Midnight(NUUK_CHANGE) == 1711756800000
    ensures NextDay(NUUK_CHANGE) == Date(2024, 3, 31) && Midnight(Date(2024, 3, 31)) == 1711843200000
  {
    assert DaysBeforeYear(2024) == 738885;
  }

  lemma NuukAdjoins(d: Date)
    requires IsDate(d)
    ensures Nuuk(NextDay(d)).base == Nuuk(d).base + Nuuk(d).shift
  {
    hide Before, Ordinal, NextDay;
    NextDayIsNext(d);
    OrdinalIsMonotone(NUUK_CHANGE, d);
    OrdinalIsMonotone(NUUK_CHANGE, NextDay(d));
  }

  lemma NuukChangesInside(d: Date)
    requires IsDate(d)
    ensures ShiftsInside(Nuuk(d), d)
  {
    NuukMidnight();
    hide Midnight, NextDay;
  }

  lemma NuukChangesOnce()
    ensures OneChangeADay(Nuuk)
  {
    hide ShiftsInside, Nuuk, NextDay;
    forall d | IsDate(d)
      ensures ShiftsInside(Nuuk(d), d) && Nuuk(NextDay(d)).base == Nuuk(d).base + Nuuk(d).shift
    {
      NuukAdjoins(d);
      NuukChangesInside(d);
    }
  }

  /** Every day at 23:30. */
  const LATE_EVERY_DAY: Cron :=
    Cron({30}, {23}, DayRule({1}, {1, 2, 3, 4, 5, 6, 7, 8, 9, 10, 11, 12}, {0}, false, false), false)

  lemma LateEveryDayIsACron()
    ensures IsCron(LATE_EVERY_DAY) && DateMatches(LATE_EVERY_DAY.days, NUUK_CHANGE)
  {
    assert 30 in LATE_EVERY_DAY.minutes && 23 in LATE_EVERY_DAY.hours;
    assert 1 in LATE_EVERY_DAY.days.doms && 1 in LATE_EVERY_DAY.days.months && 0 in LATE_EVERY_DAY.days.dows;
  }

  lemma NuukFiresLate()
    ensures FiresOn(LATE_EVERY_DAY, ZoneOf(Nuuk), NUUK_CHANGE, 1711848600000)
  {
    NuukMidnight();
    hide Midnight;
    assert Resolve(Nuuk(NUUK_CHANGE), WallCount(NUUK_CHANGE, 23, 30), 0) == 1711848600000 by {
      assert WallCount(NUUK_CHANGE, 23, 30) == 1711841400000;
      assert Nuuk(NUUK_CHANGE) == Shift(-2 * HOUR, 1711846800000, HOUR);
    }
    hide Resolve, WallCount, Nuuk;
    assert ZoneOf(Nuuk).instant(NUUK_CHANGE, 23, 30, 0) == 1711848600000;
    assert FiresAs(LATE_EVERY_DAY, ZoneOf(Nuuk), NUUK_CHANGE, 23, 30, 1711848600000);
  }

  lemma NuukFiringAfter(d: Date, r: int)
    requires IsDate(d) && Before(NUUK_CHANGE, d) && FiresOn(LATE_EVERY_DAY, ZoneOf(Nuuk), d, r)
    ensures r == Midnight(d) + 23 * HOUR + 30 * MINUTE + HOUR
  {
    hide Midnight;
    var c := LATE_EVERY_DAY;
    var h, m :| h in c.hours && m in c.minutes && FiresAs(c, ZoneOf(Nuuk), d, h, m, r);
    assert h == 23 && m == 30;
    assert Nuuk(d).base == -HOUR && Nuuk(d).shift == 0;
    assert r == Resolve(Nuuk(d), WallCount(d, 23, 30), 0);
    NoShiftResolves(Nuuk(d), d, 23, 30);
  }

  lemma NuukReadsTheNewDay(s: int)
    requires 1711846800000 <= s < 1711846800000 + DAY
    ensures ZoneOf(Nuuk).wall(s).date == Date(2024, 3, 31)
  {
    NuukMidnight();
    NuukChangesOnce();
    hide Midnight, OneChangeADay, ZoneOf;
    ClockDate(Nuuk, s);
    assert OnDate(Nuuk, s, Date(2024, 3, 31));
    EndedBefore(Nuuk, s, Date(2024, 3, 31), ZoneOf(Nuuk).wall(s).date);
  }

  lemma NuukScansTheNewDay(r: int)
    requires IsScanned(LATE_EVERY_DAY, ZoneOf(Nuuk), 1711847400000, r)
    ensures r > 1711848600000
  {
    hide ZoneOf, Nuuk, FiresOn, DateMatches, Plus, Exhausted, Ordinal, NextDay, LATE_EVERY_DAY;
    NuukReadsTheNewDay(1711847400000);
    NuukMidnight();
    var first := Date(2024, 3, 31);
    var offset: nat :| FoundAt(LATE_EVERY_DAY, ZoneOf(Nuuk), 1711847400000, offset, r);
    var d := Plus(first, offset);
    PlusAdds(first, offset);
    OrdinalIsMonotone(NUUK_CHANGE, first);
    OrdinalIsMonotone(NUUK_CHANGE, d);
    NuukFiringAfter(d, r);
  }

  /** The clock goes from 23:00 to midnight, so 23:30 of that day is resolved to half past midnight. Asked
      at ten past midnight for a daily 23:30 schedule, the scan starts at the new day and passes it over. */
  lemma NuukLosesAFiring()
    ensures OneChangeADay(Nuuk) && IsCron(LATE_EVERY_DAY)
    ensures Fires(LATE_EVERY_DAY, ZoneOf(Nuuk), 1711848600000)
    ensures forall r :: IsScanned(LATE_EVERY_DAY, ZoneOf(Nuuk), 1711847400000, r) ==> r > 1711848600000
    ensures !ScanExact(LATE_EVERY_DAY, ZoneOf(Nuuk))
  {
    NuukChangesOnce();
    NuukFiresLate();
    LateEveryDayIsACron();
    hide OneChangeADay, ZoneOf, ZoneOk, IsScanned, IsCron, Nuuk, FiresOn, LATE_EVERY_DAY, DateMatches;
    OneChangeADayIsOk(Nuuk);
    assert Fires(LATE_EVERY_DAY, ZoneOf(Nuuk), 1711848600000);
    assert Possible(LATE_EVERY_DAY.days);
    forall r | IsScanned(LATE_EVERY_DAY, ZoneOf(Nuuk), 1711847400000, r) ensures r > 1711848600000 {
      NuukScansTheNewDay(r);
    }
    var found := ScanFinds(LATE_EVERY_DAY, ZoneOf(Nuuk), 1711847400000);
    assert !IsNext(LATE_EVERY_DAY, ZoneOf(Nuuk), 1711847400000, found);
  }

  /** 23:30 of a day up to the change, by the offset before it. */
  function NuukEvening(d: Date): int
    requires IsDate(d)
  {
    Midnight(d) + 25 * HOUR + 30 * MINUTE
  }

  lemma NuukFiringUpTo(d: Date, r: int)
    requires IsDate(d) && !Before(NUUK_CHANGE, d)
    ensures FiresOn(LATE_EVERY_DAY, ZoneOf(Nuuk), d, r) <==> r == NuukEvening(d)
  {
    NuukMidnight();
    hide Midnight;
    var c := LATE_EVERY_DAY;
    assert Resolve(Nuuk(d), WallCount(d, 23, 30), 0) == NuukEvening(d) by {
      assert WallCount(d, 23, 30) == Midnight(d) + 1410 * MINUTE;
      assert Nuuk(d).base == -2 * HOUR;
    }
    hide Resolve, WallCount, Nuuk;
    assert ZoneOf(Nuuk).instant(d, 23, 30, 0) == NuukEvening(d);
    assert FiresAs(c, ZoneOf(Nuuk), d, 23, 30, NuukEvening(d)) && 23 in c.hours && 30 in c.minutes;
  }

  lemma EveryDayMatches(d: Date)
    requires IsDate(d)
    ensures DateMatches(LATE_EVERY_DAY.days, d)
  {}

  lemma NuukEveningInside(d: Date)
    requires IsDate(d) && Before(d, NUUK_CHANGE)
    ensures OnDate(Nuuk, NuukEvening(d), d)
  {
    hide Midnight;
    assert Nuuk(d).base == -2 * HOUR && Nuuk(d).shift == 0;
    hide Nuuk;
  }

  lemma NuukEveningIsOf(d: Date)
    requires IsDate(d) && Before(d, NUUK_CHANGE)
    ensures ZoneOf(Nuuk).wall(NuukEvening(d)).date == d
  {
    hide OneChangeADay, ZoneOf, Nuuk, OnDate, Before, NuukEvening;
    NuukChangesOnce();
    NuukEveningInside(d);
    ClockDate(Nuuk, NuukEvening(d));
    EndedBefore(Nuuk, NuukEvening(d), d, ZoneOf(Nuuk).wall(NuukEvening(d)).date);
  }

  lemma NuukEveningsFollow(d: Date)
    requires IsDate(d) && Before(d, NUUK_CHANGE)
    ensures NuukEvening(NextDay(d)) == NuukEvening(d) + DAY && !Before(NUUK_CHANGE, NextDay(d))
  {
    hide Ordinal, NextDay, Before;
    NextDayIsNext(d);
    OrdinalIsMonotone(d, NUUK_CHANGE);
    OrdinalIsMonotone(NUUK_CHANGE, NextDay(d));
  }

  lemma NotAfterItself(d: Date)
    requires Before(d, NUUK_CHANGE)
    ensures !Before(NUUK_CHANGE, d)
  {}

  /** Up to the change the chain goes from evening to evening. */
  lemma NuukEveningByEvening(d: Date)
    requires IsDate(d) && Before(d, NUUK_CHANGE)
    ensures Chain(LATE_EVERY_DAY, ZoneOf(Nuuk))(NuukEvening(d)) == NuukEvening(NextDay(d))
  {
    hide ZoneOf, Nuuk, FiresOn, DateMatches, Ordinal, NextDay, LATE_EVERY_DAY, Before, NuukEvening, Chain;
    var (c, z, s, next) := (LATE_EVERY_DAY, ZoneOf(Nuuk), NuukEvening(d), NextDay(d));
    NuukEveningIsOf(d);
    NuukEveningsFollow(d);
    NotAfterItself(d);
    forall t ensures FiresOn(c, z, d, t) <==> t == s { NuukFiringUpTo(d, t); }
    forall t ensures FiresOn(c, z, next, t) <==> t == s + DAY { NuukFiringUpTo(next, t); }
    EveryDayMatches(next);
    NothingScanned(c, z, s);
    ScannedOneMore(c, z, s, 0);
    assert FoundAt(c, z, s, 1, s + DAY);
    NuukFound(c, z, s, s + DAY);
    hide FoundAt, IsScanned;
    StepIs(c, z, s, s + DAY);
  }

  lemma NuukFound(c: Cron, z: Zone, s: int, r: int)
    requires FoundAt(c, z, s, 1, r)
    ensures IsScanned(c, z, s, r)
  {
    hide FoundAt;
  }

  /** Stepping from any earlier evening, short of the last one. */
  lemma {:induction false} NuukStepsOn(d: Date, now: int)
    requires IsDate(d) && Before(d, NUUK_CHANGE) && Advances(Chain(LATE_EVERY_DAY, ZoneOf(Nuuk)))
    requires NuukEvening(NUUK_CHANGE) - DAY <= now < NuukEvening(NUUK_CHANGE)
    ensures Stepped(Chain(LATE_EVERY_DAY, ZoneOf(Nuuk)), NuukEvening(d), now) == NuukEvening(NUUK_CHANGE)
    ensures Swallowed(Chain(LATE_EVERY_DAY, ZoneOf(Nuuk)), NuukEvening(d), now)
         == Ordinal(NUUK_CHANGE) - Ordinal(d) - 1
    decreases Ordinal(NUUK_CHANGE) - Ordinal(d)
  {
    var next := NextDay(d);
    NuukEveningByEvening(d);
    NuukEveningsFollow(d);
    NextDayIsNext(d);
    OrdinalIsMonotone(d, NUUK_CHANGE);
    OrdinalIsMonotone(next, NUUK_CHANGE);
    OrdinalIsMonotone(NUUK_CHANGE, next);
    hide Ordinal, NextDay, Chain, ZoneOf, LATE_EVERY_DAY;
    if next != NUUK_CHANGE {
      NuukStepsOn(next, now);
    }
  }

  /** After more than 10,000 missed slots the fast forward of the daily schedule jumps, from ten past
      midnight, over the firing that stepping would have reached. */
  lemma NuukJumpSkipsAFiring()
    ensures Ready(LATE_EVERY_DAY, ZoneOf(Nuuk)) && Advances(Chain(LATE_EVERY_DAY, ZoneOf(Nuuk)))
    ensures Stepped(Chain(LATE_EVERY_DAY, ZoneOf(Nuuk)), 820546200000, 1711847400000) == 1711848600000
    ensures Landing(LATE_EVERY_DAY, ZoneOf(Nuuk), 820546200000, 1711847400000) > 1711848600000
  {
    var (c, z) := (LATE_EVERY_DAY, ZoneOf(Nuuk));
    NuukMidnight();
    var d := Date(1996, 1, 1);
    assert DaysBeforeYear(1996) == 728658;
    assert NuukEvening(d) == 820546200000;
    assert NuukEvening(NUUK_CHANGE) == 1711848600000;
    assert Ordinal(NUUK_CHANGE) - Ordinal(d) > 10001 by { assert DaysBeforeYear(2024) == 738885; }
    NuukChangesOnce();
    LateEveryDayIsACron();
    hide OneChangeADay, Ordinal, Midnight, NuukEvening, Nuuk, ZoneOf, ZoneOk, IsScanned, LATE_EVERY_DAY, DateMatches, IsCron;
    OneChangeADayIsOk(Nuuk);
    assert Possible(c.days);
    ChainAdvances(c, z);
    NuukStepsOn(d, 1711847400000);
    var found := ScanFinds(c, z, 1711847400000);
    NuukScansTheNewDay(found);
    StepIs(c, z, 1711847400000, found);
  }

  // ----- the documented behaviour at a change

  /** A wall time skipped by a change forward fires once, read through the old offset, so the clock
      then shows it moved on by the change. */
  lemma SkippedTimeFiresOnceLater(days: Days, c: Cron, d: Date, h: nat, m: nat, t: int)
    requires IsDate(d) && days(d).shift > 0
    requires var z := days(d); z.at + z.base <= WallCount(d, h, m) < z.at + z.base + z.shift
    ensures var (z, w) := (days(d), WallCount(d, h, m));
            && (FiresAs(c, ZoneOf(days), d, h, m, t) <==> t == w - z.base)
            && LocalCount(z, w - z.base) == w + z.shift
  {}

  /** A wall time repeated by a change back fires at its first occurrence, and again at its second
      iff the minute or hour field starts with a star. */
  lemma RepeatedTimeFiresFirst(days: Days, c: Cron, d: Date, h: nat, m: nat, t: int)
    requires IsDate(d) && days(d).shift < 0
    requires var z := days(d); z.at + z.base + z.shift <= WallCount(d, h, m) < z.at + z.base
    ensures var (z, w) := (days(d), WallCount(d, h, m));
            && (FiresAs(c, ZoneOf(days), d, h, m, t)
                <==> t == w - z.base || (c.repeatsInFold && t == w - z.base - z.shift))
            && LocalCount(z, w - z.base) == w == LocalCount(z, w - z.base - z.shift)
  {}
}
