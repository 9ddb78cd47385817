/**
 The crontab schedule: wall clock times in a zone, the instants they fire at, the day by day scan for
 the next one, and when what the scan finds is the next one. The zone is any function from wall times
 to instants whose clock never goes back to an earlier day.
 */
module Crontab {
  import opened Options
  import opened Calendar
  import opened Collections
  import opened CronFields
  import opened Slots

  // ----- zones

  datatype Wall = Wall(date: Date, hour: nat, minute: nat)

  /** `instant(d, h, m, fold)` is the timestamp of a wall time, `wall` the reading of a clock, and
      `offset` the zone's distance from UTC at a date's midnight. Milliseconds throughout. */
  datatype Zone = Zone(instant: (Date, nat, nat, nat) -> int, wall: int -> Wall, offset: Date -> int)

  const MINUTE: int := 60000

  predicate IsMinute(h: nat, m: nat) { h < 24 && m < 60 }

  /** A moment at which the clock starts to show this wall time: its resolution, and the second
      occurrence if it is repeated. For a nonexistent wall time fold 1 is the earlier one. */
  predicate Shows(z: Zone, d: Date, h: nat, m: nat, t: int) {
    t == z.instant(d, h, m, 0) || (t == z.instant(d, h, m, 1) && t > z.instant(d, h, m, 0))
  }

  /** The offset differs from one midnight to the next. */
  predicate Shifts(z: Zone, d: Date)
    requires IsDate(d)
  {
    z.offset(d) != z.offset(NextDay(d))
  }

  ghost predicate ReadsAt(z: Zone, s: int, w: Wall) {
    IsDate(w.date) && IsMinute(w.hour, w.minute)
    && exists t :: Shows(z, w.date, w.hour, w.minute, t) && t <= s < t + MINUTE
  }

  /** A clock reading is a minute the moment falls in. */
  ghost predicate ClockReads(z: Zone) {
    forall s :: ReadsAt(z, s, z.wall(s))
  }

  /** While the clock shows a day, the minutes of later days are to come. */
  ghost predicate LaterIsAhead(z: Zone) {
    forall s, d, h, m, t ::
      IsDate(d) && IsMinute(h, m) && Shows(z, d, h, m, t) && Before(z.wall(s).date, d) ==> t > s
  }

  /** A day's minutes are over before a later day's begin. Not part of what a zone must meet: skipped
      times are resolved past their day if the clock is moved on late in it. */
  ghost predicate DaysApart(z: Zone) {
    forall d, h, m, t, d', h', m', t' ::
      IsDate(d) && IsMinute(h, m) && Shows(z, d, h, m, t) &&
      IsDate(d') && IsMinute(h', m') && Shows(z, d', h', m', t') && Before(d, d') ==>
        t + MINUTE <= t'
  }

  /** A day that does not shift has one offset. */
  ghost predicate SteadyDays(z: Zone) {
    forall d: Date, h: nat, m: nat ::
      IsDate(d) && !Shifts(z, d) && IsMinute(h, m) ==>
                        && z.instant(d, h, m, 0) == z.instant(d, 0, 0, 0) + (h * 60 + m) * MINUTE
                        && z.instant(d, h, m, 1) == z.instant(d, h, m, 0)
  }

  ghost predicate ZoneOk(z: Zone) {
    ClockReads(z) && LaterIsAhead(z) && SteadyDays(z)
  }

  lemma DayOrder(z: Zone, d: Date, h: nat, m: nat, t: int, d': Date, h': nat, m': nat, t': int)
    requires DaysApart(z) && Before(d, d')
    requires IsDate(d) && IsMinute(h, m) && Shows(z, d, h, m, t)
    requires IsDate(d') && IsMinute(h', m') && Shows(z, d', h', m', t')
    ensures t + MINUTE <= t'
  {}

  // ----- what a schedule fires at

  /** The instants of one wall time: the first, and a later repetition if the schedule wants it. */
  predicate FiresAs(c: Cron, z: Zone, d: Date, h: nat, m: nat, t: int) {
    t == z.instant(d, h, m, 0)
    || (c.repeatsInFold && t == z.instant(d, h, m, 1) && t > z.instant(d, h, m, 0))
  }

  predicate FiresOn(c: Cron, z: Zone, d: Date, t: int) {
    exists h, m :: h in c.hours && m in c.minutes && FiresAs(c, z, d, h, m, t)
  }

  /** The instants of the schedule. */
  ghost predicate Fires(c: Cron, z: Zone, t: int) {
    exists d :: IsDate(d) && DateMatches(c.days, d) && FiresOn(c, z, d, t)
  }

  /** `r` is the least instant of the schedule after `s`. */
  ghost predicate IsNext(c: Cron, z: Zone, s: int, r: int) {
    Fires(c, z, r) && r > s && forall t :: Fires(c, z, t) && t > s ==> r <= t
  }

  /** Firings of different days are in the order of the days. */
  lemma FiringOrder(c: Cron, z: Zone, d: Date, t: int, d': Date, t': int)
    requires IsCron(c) && DaysApart(z)
    requires IsDate(d) && IsDate(d') && Before(d, d') && FiresOn(c, z, d, t) && FiresOn(c, z, d', t')
    ensures t < t'
  {
    var h, m :| h in c.hours && m in c.minutes && FiresAs(c, z, d, h, m, t);
    var h', m' :| h' in c.hours && m' in c.minutes && FiresAs(c, z, d', h', m', t');
    DayOrder(z, d, h, m, t, d', h', m', t');
  }

  /** Firings of days after the one the clock reads are to come, and those of earlier days are past
      if days are apart. */
  lemma FiringsAround(c: Cron, z: Zone, s: int, d: Date, t: int)
    requires IsCron(c) && ZoneOk(z) && IsDate(d) && FiresOn(c, z, d, t)
    ensures Before(z.wall(s).date, d) ==> t > s
    ensures DaysApart(z) && Before(d, z.wall(s).date) ==> t <= s
  {
    var w := z.wall(s);
    assert ReadsAt(z, s, w);
    var now :| Shows(z, w.date, w.hour, w.minute, now) && now <= s < now + MINUTE;
    var h, m :| h in c.hours && m in c.minutes && FiresAs(c, z, d, h, m, t);
    hide ClockReads;
    assert Shows(z, d, h, m, t);
    if DaysApart(z) && Before(d, w.date) {
      DayOrder(z, d, h, m, t, w.date, w.hour, w.minute, now);
    }
  }

  lemma SomeFiring(c: Cron, z: Zone, d: Date) returns (t: int)
    requires IsCron(c)
    ensures FiresOn(c, z, d, t)
  {
    var h, m :| h in c.hours && m in c.minutes;
    t := z.instant(d, h, m, 0);
    assert FiresAs(c, z, d, h, m, t);
  }

  // ----- the dates a schedule fires on

  /** Sunday is 0, and 1 January 1970 was a Thursday. */
  function DayOfWeek(d: Date): nat
    requires IsDate(d)
  {
    (Ordinal(d) - Ordinal(Date(1970, 1, 1)) + 4) % 7
  }

  ghost predicate FiresOnDate(c: Cron, z: Zone, d: Date)
    requires IsDate(d)
  {
    DateMatches(c.days, d) && exists t :: FiresOn(c, z, d, t)
  }

  lemma WeekdayIsDayOfWeek(d: Date)
    requires IsDate(d)
    ensures CronWeekday(d) == DayOfWeek(d)
  {
    hide Ordinal, CronWeekday;
    WeekdayOf(d);
    EpochOrdinal();
    SevenTimes(Ordinal(d), 102737);
    assert Ordinal(d) - 719163 + 4 == Ordinal(d) - 7 * 102737;
  }

  lemma EpochOrdinal()
    ensures Ordinal(Date(1970, 1, 1)) == 719163
  {
    assert DaysBeforeYear(1970) == 719162;
  }

  lemma SevenTimes(o: int, k: int)
    ensures (o - 7 * k) % 7 == o % 7
  {
    var q, r := o / 7, o % 7;
    assert o - 7 * k == 7 * (q - k) + r;
  }

  /** On which dates a schedule has a firing at all, by its fields: on the dates of a listed month, with only
      weekdays restricted on every listed weekday, with only days of the month restricted on every listed
      day, and with both on every date that either schedule with one of the two fields a star fires on. */
  lemma FiringDates(c: Cron, z: Zone, d: Date)
    requires IsCron(c) && IsDate(d)
    ensures var r := c.days;
            && (!r.domRestricted && !r.dowRestricted ==> (FiresOnDate(c, z, d) <==> d.month in r.months))
            && (r.domRestricted && !r.dowRestricted ==>
                  (FiresOnDate(c, z, d) <==> d.month in r.months && d.day in r.doms))
            && (!r.domRestricted && r.dowRestricted ==>
                  (FiresOnDate(c, z, d) <==> d.month in r.months && DayOfWeek(d) in r.dows))
            && (r.domRestricted && r.dowRestricted ==>
                  (FiresOnDate(c, z, d) <==>
                     || FiresOnDate(c.(days := r.(dowRestricted := false)), z, d)
                     || FiresOnDate(c.(days := r.(domRestricted := false)), z, d)))
  {
    WeekdayIsDayOfWeek(d);
    hide DayOfWeek, CronWeekday, FiresOn;
    var t := SomeFiring(c, z, d);
    var u := SomeFiring(c.(days := c.days.(dowRestricted := false)), z, d);
    var v := SomeFiring(c.(days := c.days.(domRestricted := false)), z, d);
  }

  // ----- the wall times of a day

  type HourMinute = (nat, nat)

  function Minutes(hm: HourMinute): nat { hm.0 * 60 + hm.1 }

  /** Sorted, each once, exactly the hours and minutes of the schedule. */
  predicate IsHourMinutes(c: Cron, hm: seq<HourMinute>) {
    && (forall i, j :: 0 <= i < j < |hm| ==> Minutes(hm[i]) < Minutes(hm[j]))
    && (forall i :: 0 <= i < |hm| ==> hm[i].0 in c.hours && hm[i].1 in c.minutes)
    && (forall h, m :: h in c.hours && m in c.minutes ==> (h, m) in hm)
  }

  ghost predicate SortedMinutes(c: Cron, hm: seq<HourMinute>, below: nat) {
    && (forall i, j :: 0 <= i < j < |hm| ==> Minutes(hm[i]) < Minutes(hm[j]))
    && (forall i :: 0 <= i < |hm| ==>
                      hm[i].0 in c.hours && hm[i].1 in c.minutes && hm[i].1 < 60 && Minutes(hm[i]) < below)
  }

  method AppendHour(c: Cron, before: seq<HourMinute>, h: nat) returns (hm: seq<HourMinute>)
    requires IsCron(c) && SortedMinutes(c, before, h * 60) && h in c.hours
    ensures SortedMinutes(c, hm, (h + 1) * 60) && before <= hm
    ensures forall m :: m in c.minutes ==> (h, m) in hm
  {
    hm := before;
    for m := 0 to 60
      invariant SortedMinutes(c, hm, h * 60 + m) && before <= hm
      invariant forall m' :: m' in c.minutes && m' < m ==> (h, m') in hm
    {
      if m in c.minutes {
        hm := hm + [(h, m)];
      }
    }
  }

  method HoursTimesMinutes(c: Cron) returns (hm: seq<HourMinute>)
    requires IsCron(c)
    ensures IsHourMinutes(c, hm)
  {
    hm := [];
    for h := 0 to 24
      invariant SortedMinutes(c, hm, h * 60)
      invariant forall h', m :: h' in c.hours && m in c.minutes && h' < h ==> (h', m) in hm
    {
      if h in c.hours {
        hm := AppendHour(c, hm, h);
      }
    }
  }

  // ----- a day's instants, in order

  /** The day's firings, each once, in order of time. */
  ghost predicate ListsDay(c: Cron, z: Zone, d: Date, l: seq<int>) {
    Ascending(l) && forall t :: t in l <==> FiresOn(c, z, d, t)
  }

  lemma AscendingCons(x: int, l: seq<int>)
    requires Ascending(l) && forall t :: t in l ==> x < t
    ensures Ascending([x] + l)
  {
    assert forall i :: 0 <= i < |l| ==> l[i] in l;
  }

  function Insert(l: seq<int>, x: int): (r: seq<int>)
    requires Ascending(l) && x !in l
    ensures Ascending(r) && forall t :: t in r <==> t == x || t in l
  {
    if l == [] then [x]
    else if x < l[0] then
      AscendingCons(x, l);
      [x] + l
    else
      assert l == [l[0]] + l[1..];
      var rest := Insert(l[1..], x);
      AscendingCons(l[0], rest);
      [l[0]] + rest
  }

  /** `sorted` of a set. */
  method Sorted(found: set<int>) returns (l: seq<int>)
    ensures Ascending(l) && forall t :: t in l <==> t in found
  {
    l := [];
    var left := found;
    while left != {}
      invariant left <= found && Ascending(l)
      invariant forall t :: t in l <==> t in found && t !in left
      decreases left
    {
      ghost var _ := SomeMember(left);
      var x :| x in left;
      l := Insert(l, x);
      left := left - {x};
    }
  }

  /** `bisect_right`: how many elements are at most `x`. */
  method BisectRight(l: seq<int>, x: int) returns (lo: nat)
    requires Ascending(l)
    ensures lo <= |l|
    ensures forall i :: 0 <= i < lo ==> l[i] <= x
    ensures forall i :: lo <= i < |l| ==> x < l[i]
  {
    lo := 0;
    var hi := |l|;
    while lo < hi
      invariant lo <= hi <= |l|
      invariant forall i :: 0 <= i < lo ==> l[i] <= x
      invariant forall i :: hi <= i < |l| ==> x < l[i]
    {
      var mid := (lo + hi) / 2;
      if x < l[mid] {
        hi := mid;
      } else {
        lo := mid + 1;
      }
    }
  }

  /** What has been found on a shifting day after the wall times in `hm[..i]`. */
  ghost predicate FoundSoFar(c: Cron, z: Zone, d: Date, hm: seq<HourMinute>, found: set<int>)
  {
    && (forall i :: 0 <= i < |hm| ==>
                      forall t :: FiresAs(c, z, d, hm[i].0, hm[i].1, t) ==> t in found)
    && (forall t :: t in found ==> exists i :: 0 <= i < |hm| && FiresAs(c, z, d, hm[i].0, hm[i].1, t))
  }

  // ----- the scan

  /** `r` is the day's first firing after `s`, or there is none. */
  ghost predicate FirstOn(c: Cron, z: Zone, d: Date, s: int, r: Option<int>) {
    match r
    case None => forall t :: FiresOn(c, z, d, t) ==> t <= s
    case Some(first) => FiresOn(c, z, d, first) && first > s && forall t :: FiresOn(c, z, d, t) && t > s ==> first <= t
  }

  lemma ListIsAscending(c: Cron, z: Zone, d: Date, l: seq<int>)
    requires ListsDay(c, z, d, l)
    ensures Ascending(l)
  {}

  lemma ListedFirst(c: Cron, z: Zone, d: Date, s: int, l: seq<int>, i: nat)
    requires ListsDay(c, z, d, l) && i <= |l|
    requires forall k :: 0 <= k < i ==> l[k] <= s
    requires forall k :: i <= k < |l| ==> s < l[k]
    ensures FirstOn(c, z, d, s, if i < |l| then Some(l[i]) else None)
  {
    hide FiresOn;
    if i < |l| {
      assert l[i] in l;
    }
  }

  /** On a day with one offset the firings are the wall times, in their order. */
  lemma SteadyFirings(c: Cron, z: Zone, hm: seq<HourMinute>, d: Date)
    requires IsCron(c) && SteadyDays(z) && IsHourMinutes(c, hm) && IsDate(d) && !Shifts(z, d)
    ensures forall i, j :: 0 <= i < j < |hm| ==> z.instant(d, hm[i].0, hm[i].1, 0) < z.instant(d, hm[j].0, hm[j].1, 0)
    ensures forall t :: FiresOn(c, z, d, t) ==> exists i :: 0 <= i < |hm| && t == z.instant(d, hm[i].0, hm[i].1, 0)
    ensures forall i :: 0 <= i < |hm| ==> FiresOn(c, z, d, z.instant(d, hm[i].0, hm[i].1, 0))
  {
    forall i, j | 0 <= i < j < |hm|
      ensures z.instant(d, hm[i].0, hm[i].1, 0) < z.instant(d, hm[j].0, hm[j].1, 0)
    {
      assert Minutes(hm[i]) < Minutes(hm[j]);
    }
    forall t | FiresOn(c, z, d, t) ensures exists i :: 0 <= i < |hm| && t == z.instant(d, hm[i].0, hm[i].1, 0) {
      var h, m :| h in c.hours && m in c.minutes && FiresAs(c, z, d, h, m, t);
      assert (h, m) in hm && IsMinute(h, m);
    }
    forall i | 0 <= i < |hm| ensures FiresOn(c, z, d, z.instant(d, hm[i].0, hm[i].1, 0)) {
      assert FiresAs(c, z, d, hm[i].0, hm[i].1, z.instant(d, hm[i].0, hm[i].1, 0));
    }
  }

  predicate Earlier(hm: HourMinute, from: HourMinute) {
    hm.0 < from.0 || (hm.0 == from.0 && hm.1 < from.1)
  }

  /** What the clock reading prunes is past anyway. */
  lemma PrunedIsPast(z: Zone, s: int, hm: HourMinute)
    requires ZoneOk(z) && IsDate(z.wall(s).date) && !Shifts(z, z.wall(s).date) && IsMinute(hm.0, hm.1)
    requires Earlier(hm, (z.wall(s).hour, z.wall(s).minute))
    ensures z.instant(z.wall(s).date, hm.0, hm.1, 0) <= s
  {
    hide LaterIsAhead;
    var w := z.wall(s);
    assert ReadsAt(z, s, w);
    assert Minutes(hm) < w.hour * 60 + w.minute;
  }

  /** The loop over the wall times of a day with one offset. */
  method FirstOnSteadyDay(c: Cron, z: Zone, hm: seq<HourMinute>, d: Date, s: int, today: bool) returns (r: Option<int>)
    requires IsCron(c) && ZoneOk(z) && IsHourMinutes(c, hm) && IsDate(d) && !Shifts(z, d)
    requires today ==> d == z.wall(s).date
    ensures FirstOn(c, z, d, s, r)
  {
    hide *;
    NonePast(z, hm, d, s);
    for i := 0 to |hm|
      invariant AllPast(z, hm[..i], d, s)
    {
      AllPastGrows(z, hm, i, d, s);
      if today && Earlier(hm[i], (z.wall(s).hour, z.wall(s).minute)) {
        HourMinuteInRange(c, hm, i);
        PrunedIsPast(z, s, hm[i]);
        continue;
      }
      var ms := z.instant(d, hm[i].0, hm[i].1, 0);
      if ms > s {
        FirstPast(c, z, hm, i, d, s);
        return Some(ms);
      }
    }
    AllPastIsNone(c, z, hm, d, s);
    r := None;
  }

  ghost predicate AllPast(z: Zone, hm: seq<HourMinute>, d: Date, s: int) {
    forall k :: 0 <= k < |hm| ==> z.instant(d, hm[k].0, hm[k].1, 0) <= s
  }

  lemma HourMinuteInRange(c: Cron, hm: seq<HourMinute>, i: nat)
    requires IsCron(c) && IsHourMinutes(c, hm) && i < |hm|
    ensures IsMinute(hm[i].0, hm[i].1)
  {}

  lemma NonePast(z: Zone, hm: seq<HourMinute>, d: Date, s: int)
    ensures AllPast(z, hm[..0], d, s)
  {}

  lemma AllPastGrows(z: Zone, hm: seq<HourMinute>, i: nat, d: Date, s: int)
    requires i < |hm|
    ensures AllPast(z, hm[..i], d, s) && z.instant(d, hm[i].0, hm[i].1, 0) <= s ==> AllPast(z, hm[..i + 1], d, s)
  {}

  lemma FirstPast(c: Cron, z: Zone, hm: seq<HourMinute>, i: nat, d: Date, s: int)
    requires IsCron(c) && ZoneOk(z) && IsHourMinutes(c, hm) && IsDate(d) && !Shifts(z, d)
    requires i < |hm| && AllPast(z, hm[..i], d, s) && z.instant(d, hm[i].0, hm[i].1, 0) > s
    ensures FirstOn(c, z, d, s, Some(z.instant(d, hm[i].0, hm[i].1, 0)))
  {
    hide ZoneOk, FiresOn, Shifts, IsHourMinutes;
    SteadyOf(c, z, hm, d);
    var first := z.instant(d, hm[i].0, hm[i].1, 0);
    forall t | FiresOn(c, z, d, t) && t > s ensures first <= t {
      var k :| 0 <= k < |hm| && t == z.instant(d, hm[k].0, hm[k].1, 0);
    }
  }

  lemma AllPastIsNone(c: Cron, z: Zone, hm: seq<HourMinute>, d: Date, s: int)
    requires IsCron(c) && ZoneOk(z) && IsHourMinutes(c, hm) && IsDate(d) && !Shifts(z, d)
    requires AllPast(z, hm[..|hm|], d, s)
    ensures FirstOn(c, z, d, s, None)
  {
    hide ZoneOk, FiresOn, Shifts, IsHourMinutes;
    SteadyOf(c, z, hm, d);
    assert hm[..|hm|] == hm;
  }

  lemma SteadyOf(c: Cron, z: Zone, hm: seq<HourMinute>, d: Date)
    requires IsCron(c) && ZoneOk(z) && IsHourMinutes(c, hm) && IsDate(d) && !Shifts(z, d)
    ensures forall i, j :: 0 <= i < j < |hm| ==> z.instant(d, hm[i].0, hm[i].1, 0) < z.instant(d, hm[j].0, hm[j].1, 0)
    ensures forall t :: FiresOn(c, z, d, t) ==> exists i :: 0 <= i < |hm| && t == z.instant(d, hm[i].0, hm[i].1, 0)
    ensures forall i :: 0 <= i < |hm| ==> FiresOn(c, z, d, z.instant(d, hm[i].0, hm[i].1, 0))
  {
    SteadyFirings(c, z, hm, d);
  }

  ghost predicate NothingLeft(c: Cron, z: Zone, d: Date, s: int) {
    IsDate(d) && DateMatches(c.days, d) ==> forall t :: FiresOn(c, z, d, t) ==> t <= s
  }

  /** The first `offset` days from the clock's on have nothing left. */
  ghost predicate Exhausted(c: Cron, z: Zone, s: int, offset: nat) {
    IsDate(z.wall(s).date) && forall k: nat :: k < offset ==> NothingLeft(c, z, Plus(z.wall(s).date, k), s)
  }

  lemma WallIsADate(z: Zone, s: int)
    requires ZoneOk(z)
    ensures IsDate(z.wall(s).date)
  {
    assert ReadsAt(z, s, z.wall(s));
  }

  lemma NothingScanned(c: Cron, z: Zone, s: int)
    requires IsDate(z.wall(s).date)
    ensures Plus(z.wall(s).date, 0) == z.wall(s).date && Exhausted(c, z, s, 0)
  {}

  lemma ScannedOneMore(c: Cron, z: Zone, s: int, offset: nat)
    requires Exhausted(c, z, s, offset)
    requires var d := Plus(z.wall(s).date, offset); DateMatches(c.days, d) ==> FirstOn(c, z, d, s, None)
    ensures Exhausted(c, z, s, offset + 1)
    ensures Plus(z.wall(s).date, offset + 1) == NextDay(Plus(z.wall(s).date, offset))
  {}

  /** The scan ends on day `offset` from the clock's with `r`. */
  ghost predicate FoundAt(c: Cron, z: Zone, s: int, offset: nat, r: int) {
    Exhausted(c, z, s, offset)
    && var d := Plus(z.wall(s).date, offset); DateMatches(c.days, d) && FirstOn(c, z, d, s, Some(r))
  }

  /** What the scan finds: from the clock's day on, the first matching day with a firing after `s`,
      and the first such firing of that day. */
  ghost predicate IsScanned(c: Cron, z: Zone, s: int, r: int) {
    exists offset: nat :: FoundAt(c, z, s, offset, r)
  }

  lemma ScannedIsLater(c: Cron, z: Zone, s: int, r: int)
    requires IsScanned(c, z, s, r)
    ensures Fires(c, z, r) && r > s && Possible(c.days)
  {
    hide FiresOn, DateMatches, Plus;
    var offset: nat :| FoundAt(c, z, s, offset, r);
    assert IsDate(Plus(z.wall(s).date, offset));
  }

  lemma FoundEarlier(c: Cron, z: Zone, s: int, j: nat, r: int, k: nat)
    requires FoundAt(c, z, s, j, r) && Exhausted(c, z, s, k)
    ensures k <= j
  {
    hide FiresOn, DateMatches, Plus;
  }

  lemma ScannedOnce(c: Cron, z: Zone, s: int, r: int, r': int)
    requires IsScanned(c, z, s, r) && IsScanned(c, z, s, r')
    ensures r == r'
  {
    hide FiresOn, DateMatches, Plus, Exhausted;
    var j: nat :| FoundAt(c, z, s, j, r);
    var k: nat :| FoundAt(c, z, s, k, r');
    FoundEarlier(c, z, s, j, r, k);
    FoundEarlier(c, z, s, k, r', j);
  }

  lemma {:induction false} LeastOn(c: Cron, z: Zone, d: Date, s: int, t: int) returns (r: int)
    requires FiresOn(c, z, d, t) && t > s
    ensures FirstOn(c, z, d, s, Some(r))
    decreases t - s
  {
    hide FiresOn;
    r := t;
    if u :| FiresOn(c, z, d, u) && s < u < t {
      r := LeastOn(c, z, d, s, u);
    }
  }

  /** Some day up to the `last` one has a firing left, so the scan ends. */
  lemma {:induction false} ScanEnds(c: Cron, z: Zone, s: int, offset: nat, last: nat) returns (r: int)
    requires Exhausted(c, z, s, offset) && !Exhausted(c, z, s, last)
    ensures IsScanned(c, z, s, r)
    decreases last - offset
  {
    hide FiresOn, DateMatches, Plus;
    var d := Plus(z.wall(s).date, offset);
    if offset < last && NothingLeft(c, z, d, s) {
      r := ScanEnds(c, z, s, offset + 1, last);
    } else {
      var t :| DateMatches(c.days, d) && FiresOn(c, z, d, t) && t > s;
      r := LeastOn(c, z, d, s, t);
      assert FoundAt(c, z, s, offset, r);
    }
  }

  /** On a schedule that is not impossible the scan finds something from any moment. */
  lemma ScanFinds(c: Cron, z: Zone, s: int) returns (r: int)
    requires Ready(c, z)
    ensures IsScanned(c, z, s, r)
  {
    hide ZoneOk, FiresOn, DateMatches, IsRule, Plus, IsScanned;
    WallIsADate(z, s);
    NothingScanned(c, z, s);
    if Exhausted(c, z, s, MAX_SCAN_DAYS) {
      WindowExhausted(c, z, s);
    }
    r := ScanEnds(c, z, s, 0, MAX_SCAN_DAYS);
  }

  // ----- when the scan is exact

  /** What the scan finds is always the next instant of the schedule. */
  ghost predicate ScanExact(c: Cron, z: Zone) {
    forall s, r :: IsScanned(c, z, s, r) ==> IsNext(c, z, s, r)
  }

  /** A day that is not exhausted and not before the clock's is not before the day of the find. */
  lemma NotExhausted(c: Cron, z: Zone, s: int, offset: nat, d: Date, t: int)
    requires Exhausted(c, z, s, offset)
    requires IsDate(d) && DateMatches(c.days, d) && FiresOn(c, z, d, t) && t > s
    requires !Before(d, z.wall(s).date)
    ensures !Before(d, Plus(z.wall(s).date, offset))
  {
    hide FiresOn, DateMatches;
    var first := z.wall(s).date;
    OrdinalIsMonotone(d, first);
    var k := Ordinal(d) - Ordinal(first);
    PlusReaches(first, d);
    assert NothingLeft(c, z, d, s) <== k < offset;
    PlusAdds(first, offset);
    OrdinalIsMonotone(d, Plus(first, offset));
  }

  /** Where days are apart every scan is exact. */
  lemma ApartIsExact(c: Cron, z: Zone)
    requires IsCron(c) && ZoneOk(z) && DaysApart(z)
    ensures ScanExact(c, z)
  {
    hide FiresOn, DateMatches, ZoneOk, DaysApart, Fires, IsScanned;
    forall s, r, t | IsScanned(c, z, s, r) && Fires(c, z, t) && t > s ensures r <= t {
      FoundIsNext(c, z, s, r, t);
    }
    forall s, r | IsScanned(c, z, s, r) ensures IsNext(c, z, s, r) {
      ScannedIsLater(c, z, s, r);
    }
  }

  lemma FoundIsNext(c: Cron, z: Zone, s: int, r: int, t: int)
    requires IsCron(c) && ZoneOk(z) && DaysApart(z) && IsScanned(c, z, s, r) && Fires(c, z, t) && t > s
    ensures r <= t
  {
    hide FiresOn, DateMatches, ZoneOk, DaysApart, Plus, Exhausted;
    var offset: nat :| FoundAt(c, z, s, offset, r);
    WallIsADate(z, s);
    var d := Plus(z.wall(s).date, offset);
    var e :| IsDate(e) && DateMatches(c.days, e) && FiresOn(c, z, e, t);
    FiringsAround(c, z, s, e, t);
    NotExhausted(c, z, s, offset, e, t);
    if e != d {
      OrdinalIsMonotone(e, d);
      OrdinalIsMonotone(d, e);
      FiringOrder(c, z, d, r, e, t);
    }
  }

  /** Scanning the whole window without a find means that no date matches at all. */
  lemma WindowExhausted(c: Cron, z: Zone, s: int)
    requires IsCron(c) && ZoneOk(z) && Exhausted(c, z, s, MAX_SCAN_DAYS)
    ensures !Possible(c.days)
  {
    hide ZoneOk, FiresOn, DateMatches, Possible, IsRule, Plus;
    if Possible(c.days) {
      var first := z.wall(s).date;
      var n := WindowSuffices(c.days, first);
      var d := Plus(first, n);
      var t := SomeFiring(c, z, d);
      PlusAdds(first, n);
      OrdinalIsMonotone(first, d);
      FiringsAround(c, z, s, d, t);
    }
  }

  // ----- the schedule as a chain of slots

  const MAX_ADVANCE_STEPS: nat := 10000

  ghost predicate Ready(c: Cron, z: Zone) {
    IsCron(c) && ZoneOk(z) && Possible(c.days)
  }

  /** A schedule whose scan is exact. */
  ghost predicate Exact(c: Cron, z: Zone) {
    Ready(c, z) && ScanExact(c, z)
  }

  /** What the scan finds from `s`, if anything. */
  ghost function Scanned(c: Cron, z: Zone, s: int): (r: int)
    ensures r > s
  {
    if r :| IsScanned(c, z, s, r) then ScannedIsLater(c, z, s, r); r else s + 1
  }

  ghost function Chain(c: Cron, z: Zone): int -> int {
    s => Scanned(c, z, s)
  }

  lemma ChainAdvances(c: Cron, z: Zone)
    ensures Advances(Chain(c, z))
  {}

  lemma StepIs(c: Cron, z: Zone, s: int, r: int)
    requires IsScanned(c, z, s, r)
    ensures Chain(c, z)(s) == r
  {
    hide IsScanned;
    ScannedOnce(c, z, s, r, Scanned(c, z, s));
  }

  /** Where the scan is exact, each slot of the chain is followed by the next instant. */
  lemma NextExists(c: Cron, z: Zone, s: int)
    requires Exact(c, z)
    ensures IsNext(c, z, s, Chain(c, z)(s))
  {
    hide Ready, Fires, IsScanned;
    var r := ScanFinds(c, z, s);
    StepIs(c, z, s, r);
  }

  /** The chain is that of a set of instants, so from anywhere in a gap it leads to the gap's end. */
  lemma ChainSteps(c: Cron, z: Zone)
    requires Exact(c, z)
    ensures Advances(Chain(c, z)) && Consistent(Chain(c, z))
  {
    hide Exact, Fires;
    ChainAdvances(c, z);
    forall s, t | s <= t < Chain(c, z)(s) ensures Chain(c, z)(t) == Chain(c, z)(s) {
      NextExists(c, z, s);
      NextExists(c, z, t);
    }
  }

  /** Where the fast forward lands: step by step within the bound, past it by one scan from now. */
  ghost function Landing(c: Cron, z: Zone, slot: int, now: int): int
    requires Advances(Chain(c, z))
  {
    if Swallowed(Chain(c, z), slot, now) <= MAX_ADVANCE_STEPS then Stepped(Chain(c, z), slot, now)
    else Chain(c, z)(now)
  }

  lemma Unroll(next: int -> int, slot: int, now: int)
    requires Advances(next)
    ensures next(slot) > now ==> Stepped(next, slot, now) == next(slot) && Swallowed(next, slot, now) == 0
    ensures next(slot) <= now ==>
              && Stepped(next, slot, now) == Stepped(next, next(slot), now)
              && Swallowed(next, slot, now) == 1 + Swallowed(next, next(slot), now)
  {}

  /** Where the scan is exact, the jump past the bound lands where stepping on would have. */
  lemma JumpIsStepping(c: Cron, z: Zone, slot: int, now: int)
    requires Exact(c, z) && Advances(Chain(c, z))
    ensures Landing(c, z, slot, now) == Stepped(Chain(c, z), slot, now)
    ensures Landing(c, z, slot, now) == Chain(c, z)(if slot > now then slot else now)
  {
    hide Exact, Chain;
    ChainSteps(c, z);
    SteppingIsOneJump(Chain(c, z), slot, now);
  }

  /** The missed count is the number of instants of the schedule in `(slot, now]`. */
  lemma {:induction false} MissedAreFirings(c: Cron, z: Zone, slot: int, now: int)
    requires Exact(c, z) && Advances(Chain(c, z))
    ensures Swallowed(Chain(c, z), slot, now) == |set t | slot < t <= now && Fires(c, z, t)|
    decreases now - slot
  {
    hide Exact, Fires;
    NextExists(c, z, slot);
    var r := Chain(c, z)(slot);
    hide Chain;
    var missed := set t | slot < t <= now && Fires(c, z, t);
    if r <= now {
      MissedAreFirings(c, z, r, now);
      var later := set t | r < t <= now && Fires(c, z, t);
      assert missed == later + {r};
    } else {
      assert missed == {};
    }
  }

  // ----- the schedule object

  class CrontabSchedule {
    const cron: Cron
    const zone: Zone
    const hm: seq<HourMinute>
    var shiftingDays: map<Date, seq<int>>

    ghost predicate Valid()
      reads this
    {
      && IsCron(cron) && ZoneOk(zone) && IsHourMinutes(cron, hm)
      && forall d :: d in shiftingDays ==> ListsDay(cron, zone, d, shiftingDays[d])
    }

    constructor (cron: Cron, zone: Zone)
      requires IsCron(cron) && ZoneOk(zone)
      ensures Valid() && this.cron == cron && this.zone == zone
    {
      var hm := HoursTimesMinutes(cron);
      this.cron, this.zone, this.hm := cron, zone, hm;
      shiftingDays := map[];
    }

    /** The memoized instants of a day. */
    method ShiftingDayInstants(d: Date) returns (l: seq<int>)
      requires Valid() && IsDate(d)
      modifies this`shiftingDays
      ensures Valid() && ListsDay(cron, zone, d, l)
    {
      hide ZoneOk, IsHourMinutes, ListsDay, IsCron;
      if d in shiftingDays {
        return shiftingDays[d];
      }
      l := ResolveDay(cron, zone, hm, d);
      shiftingDays := shiftingDays[d := l];
    }

    /** `next_after`: None stands for the impossible expression error. */
    method NextAfter(s: int) returns (r: Option<int>)
      requires Valid()
      modifies this`shiftingDays
      ensures Valid()
      ensures r.None? <==> !Possible(cron.days)
      ensures r.Some? ==> IsScanned(cron, zone, s, r.value)
      ensures r.Some? && ScanExact(cron, zone) ==> IsNext(cron, zone, s, r.value)
    {
      hide ZoneOk, IsCron, IsHourMinutes, ListsDay, FirstOn, IsNext, Exhausted, Plus, Possible, DateMatches,
        Shifts, IsDate, NextDay, FiresOn, Fires;
      var wall := zone.wall(s);
      WallIsADate(zone, s);
      var day := wall.date;
      NothingScanned(cron, zone, s);
      for offset := 0 to MAX_SCAN_DAYS
        invariant Valid()
        invariant IsDate(day) && day == Plus(wall.date, offset)
        invariant Exhausted(cron, zone, s, offset)
      {
        if DateMatches(cron.days, day) && Shifts(zone, day) {
          var instants := ShiftingDayInstants(day);
          ListIsAscending(cron, zone, day, instants);
          var i := BisectRight(instants, s);
          ListedFirst(cron, zone, day, s, instants, i);
          if i < |instants| {
            assert FoundAt(cron, zone, s, offset, instants[i]);
            ScannedIsLater(cron, zone, s, instants[i]);
            return Some(instants[i]);
          }
        } else if DateMatches(cron.days, day) {
          var found := FirstOnSteadyDay(cron, zone, hm, day, s, offset == 0);
          if found.Some? {
            assert FoundAt(cron, zone, s, offset, found.value);
            ScannedIsLater(cron, zone, s, found.value);
            return found;
          }
        }
        ScannedOneMore(cron, zone, s, offset);
        day := NextDay(day);
      }
      WindowExhausted(cron, zone, s);
      r := None;
    }

    /** The base class's step loop with its bound and jump. A missing count means that the bound was
        hit; a missing result is the impossible expression error. */
    method AdvancePastWithMissed(slot: int, now: int) returns (r: Option<(int, Option<nat>)>)
      requires Valid()
      modifies this`shiftingDays
      ensures Valid() && Advances(Chain(cron, zone))
      ensures r.None? <==> !Possible(cron.days)
      ensures r.Some? ==> r.value.0 == Landing(cron, zone, slot, now)
      ensures r.Some? ==>
                var missed := Swallowed(Chain(cron, zone), slot, now);
                r.value.1 == if missed <= 10000 then Some(missed) else None
      ensures r.Some? && ScanExact(cron, zone) ==> r.value.0 == Stepped(Chain(cron, zone), slot, now)
    {
      hide ZoneOk, IsCron, IsHourMinutes, ListsDay, IsNext, Possible, Chain, Stepped, Swallowed, Advances, IsScanned,
        ScanExact;
      ChainAdvances(cron, zone);
      if Exact(cron, zone) {
        JumpIsStepping(cron, zone, slot, now);
      }
      var next := NextAfter(slot);
      if next.None? {
        return None;
      }
      StepIs(cron, zone, slot, next.value);
      var nxt, missed := next.value, 0;
      ghost var from := slot;
      ghost var chain := Chain(cron, zone);
      while nxt <= now
        invariant Valid() && nxt == chain(from) && missed <= MAX_ADVANCE_STEPS
        invariant Stepped(chain, slot, now) == Stepped(chain, from, now)
        invariant Swallowed(chain, slot, now) == missed + Swallowed(chain, from, now)
        decreases MAX_ADVANCE_STEPS - missed, now - nxt
      {
        Unroll(chain, from, now);
        var after;
        if missed >= MAX_ADVANCE_STEPS {
          after := NextAfter(now);
          StepIs(cron, zone, now, after.value);
          return Some((after.value, None));
        }
        after := NextAfter(nxt);
        StepIs(cron, zone, nxt, after.value);
        from := nxt;
        nxt := after.value;
        missed := missed + 1;
      }
      Unroll(chain, from, now);
      r := Some((nxt, Some(missed)));
    }
  }

  /** Adds the instants of one wall time. */
  method AddWallTime(c: Cron, z: Zone, d: Date, hm: HourMinute, before: set<int>) returns (found: set<int>)
    ensures forall t :: t in found <==> t in before || FiresAs(c, z, d, hm.0, hm.1, t)
  {
    var first := z.instant(d, hm.0, hm.1, 0);
    found := before + {first};
    if c.repeatsInFold {
      var again := z.instant(d, hm.0, hm.1, 1);
      if again > first {
        found := found + {again};
      }
    }
  }

  /** Every instant the schedule fires at on a day whose offset changes. */
  method ResolveDay(c: Cron, z: Zone, hm: seq<HourMinute>, d: Date) returns (l: seq<int>)
    requires IsHourMinutes(c, hm)
    ensures ListsDay(c, z, d, l)
  {
    hide FoundSoFar, FiresAs, IsHourMinutes, FiresOn;
    var found: set<int> := {};
    NothingFound(c, z, d, hm);
    for i := 0 to |hm|
      invariant FoundSoFar(c, z, d, hm[..i], found)
    {
      ghost var before := found;
      found := AddWallTime(c, z, d, hm[i], found);
      FoundOneMore(c, z, d, hm[..i], hm[i], before, found);
      assert hm[..i + 1] == hm[..i] + [hm[i]];
    }
    assert hm[..|hm|] == hm;
    FoundAll(c, z, d, hm, found);
    l := Sorted(found);
  }

  lemma NothingFound(c: Cron, z: Zone, d: Date, hm: seq<HourMinute>)
    ensures FoundSoFar(c, z, d, hm[..0], {})
  {}

  lemma FoundOneMore(c: Cron, z: Zone, d: Date, hm: seq<HourMinute>, next: HourMinute, before: set<int>, found: set<int>)
    requires FoundSoFar(c, z, d, hm, before)
    requires forall t :: t in found <==> t in before || FiresAs(c, z, d, next.0, next.1, t)
    ensures FoundSoFar(c, z, d, hm + [next], found)
  {
    var all := hm + [next];
    forall t | t in found ensures exists i :: 0 <= i < |all| && FiresAs(c, z, d, all[i].0, all[i].1, t) {
      if t in before {
        var i :| 0 <= i < |hm| && FiresAs(c, z, d, hm[i].0, hm[i].1, t);
        assert all[i] == hm[i];
      } else {
        assert all[|hm|] == next;
      }
    }
  }

  lemma FoundAll(c: Cron, z: Zone, d: Date, hm: seq<HourMinute>, found: set<int>)
    requires IsHourMinutes(c, hm) && FoundSoFar(c, z, d, hm, found)
    ensures forall t :: t in found <==> FiresOn(c, z, d, t)
  {
    forall t | FiresOn(c, z, d, t) ensures t in found {
      var h, m :| h in c.hours && m in c.minutes && FiresAs(c, z, d, h, m, t);
      assert (h, m) in hm;
    }
  }
}
