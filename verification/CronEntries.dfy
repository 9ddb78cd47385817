/**
 Crontab entries under beat: their fast forward always ends on a later slot, so its theorems say of them
 how often and when they fire; where the scan is exact it is stepping, and in any case it is settled when
 the skip policy goes by the newest missed slot.
 */
module CronEntries {
  import opened Options
  import opened Slots
  import opened CronFields
  import opened Crontab
  import opened Beat
  import Zones

  /** An enabled entry whose slots are what the crontab scan finds one from the other. Its fast forward
      is the step loop with its bound and jump. */
  ghost function CrontabEntry(rev: nat, c: Cron, z: Zone, skip: bool, maxLateness: Option<nat>): Entry {
    ChainAdvances(c, z);
    Entry(rev, true, true, Chain(c, z), (slot, now) => Some(Landing(c, z, slot, now)), skip, maxLateness)
  }

  /** The fast forward of every crontab entry ends on a slot past both, so the jump past the bound can
      skip slots but never repeat one. */
  lemma CrontabMovesOn(rev: nat, c: Cron, z: Zone, skip: bool, maxLateness: Option<nat>)
    requires Ready(c, z)
    ensures MovesOn(CrontabEntry(rev, c, z, skip, maxLateness))
  {
    hide Ready, Chain, Stepped, Swallowed;
    ChainAdvances(c, z);
    var e := CrontabEntry(rev, c, z, skip, maxLateness);
    forall slot, now ensures EndsPast(e, slot, now, Some(Landing(c, z, slot, now))) {
      SteppedIsPast(Chain(c, z), slot, now);
      SteppedIsASlot(e, slot, now);
      PastTheBound(c, z, slot, now);
      assert IsSlot(e, Chain(c, z)(now));
    }
  }

  /** Where the jump is taken, now is past the slot. */
  lemma PastTheBound(c: Cron, z: Zone, slot: int, now: int)
    requires Advances(Chain(c, z))
    ensures Swallowed(Chain(c, z), slot, now) > MAX_ADVANCE_STEPS ==> slot < now && Chain(c, z)(now) > now
  {
    hide Chain;
  }

  /** A crontab entry whose scan is exact is a schedule: it advances, and fast forwarding it is stepping it. */
  lemma CrontabIsASchedule(rev: nat, c: Cron, z: Zone, skip: bool, maxLateness: Option<nat>)
    requires Exact(c, z)
    ensures IsSchedule(CrontabEntry(rev, c, z, skip, maxLateness))
  {
    hide Exact, Chain, Landing;
    ChainAdvances(c, z);
    forall slot, now ensures Landing(c, z, slot, now) == Stepped(Chain(c, z), slot, now) {
      JumpIsStepping(c, z, slot, now);
    }
  }

  /** Whatever replicas do and however scripts fail, a crontab entry is published only for instants of
      its schedule. */
  lemma PublishedAtItsInstants(
    entries: Entries, run: seq<Event>, name: Name, rev: nat, c: Cron, z: Zone, skip: bool, maxLateness: Option<nat>)
    requires Fixed(entries) && forall e :: e in run ==> Known(entries, e)
    requires Ready(c, z) && name in entries && entries[name] == CrontabEntry(rev, c, z, skip, maxLateness)
    ensures forall slot :: slot in Of(Run(entries, EMPTY, run).published, name) ==> Fires(c, z, slot)
  {
    hide Ready, Chain, Fires, Run, IsScanned;
    OnlySlotsOfTheScheduleFire(entries, run, name);
    forall slot | slot in Of(Run(entries, EMPTY, run).published, name) ensures Fires(c, z, slot) {
      assert IsSlot(entries[name], slot);
      var t :| Chain(c, z)(t) == slot;
      var next := ScanFinds(c, z, t);
      StepIs(c, z, t, next);
      ScannedIsLater(c, z, t, next);
    }
  }

  /** Whether a due crontab firing is skipped goes by its newest missed slot, unless more than 10,000
      slots lie before the tolerated span: then iff one scan from there and stepping on both find a slot
      in the span, or neither does. */
  lemma SkipGoesByTheNewestSlot(
    rev: nat, c: Cron, z: Zone, skip: bool, maxLateness: Option<nat>, slot: int, now: int)
    requires Ready(c, z) && Advances(Chain(c, z)) && slot <= now
    ensures var e := CrontabEntry(rev, c, z, skip, maxLateness);
            (Suppresses(e, slot, now) <==> TooLate(e, slot, now)) <==>
            (skip && maxLateness.Some? && now - slot > maxLateness.value ==>
               var x := now - maxLateness.value - 1;
               || Swallowed(Chain(c, z), slot, x) <= MAX_ADVANCE_STEPS
               || (Chain(c, z)(x) > now <==> Stepped(Chain(c, z), slot, x) > now))
  {
    hide Ready, Chain, Stepped, Swallowed;
    SuppressesIffTooLate(CrontabEntry(rev, c, z, skip, maxLateness), slot, now);
  }

  /** A due crontab firing is skipped iff it is too late and so is every instant since: none lies
      within the tolerated lateness before now. */
  lemma SkippedIffNoInstantIsRecent(
    rev: nat, c: Cron, z: Zone, skip: bool, maxLateness: Option<nat>, slot: int, now: int)
    requires Exact(c, z) && slot <= now
    ensures Suppresses(CrontabEntry(rev, c, z, skip, maxLateness), slot, now)
       <==> && skip && maxLateness.Some? && now - slot > maxLateness.value
            && forall t :: now - maxLateness.value <= t <= now ==> !Fires(c, z, t)
  {
    hide Exact, Fires, Landing, Chain;
    if skip && maxLateness.Some? && now - slot > maxLateness.value {
      var x := now - maxLateness.value - 1;
      ChainAdvances(c, z);
      NextExists(c, z, x);
      JumpIsStepping(c, z, slot, x);
      assert CrontabEntry(rev, c, z, skip, maxLateness).advance(slot, x) == Some(Chain(c, z)(x));
    }
  }

  /** If the jump from before the tolerated span passes over the very firing that is due now, that
      firing is skipped although it is not late. */
  lemma FreshFiringIsSkipped(rev: nat, c: Cron, z: Zone, slot: int, x: int, now: int)
    requires Advances(Chain(c, z)) && slot <= x < now
    requires Stepped(Chain(c, z), slot, x) == now < Landing(c, z, slot, x)
    ensures var e := CrontabEntry(rev, c, z, true, Some(now - x - 1));
            Suppresses(e, slot, now) && !TooLate(e, slot, now) && !IsSchedule(e)
  {
    hide Chain, Landing, Stepped;
    var e := CrontabEntry(rev, c, z, true, Some(now - x - 1));
    assert e.advance(slot, x) == Some(Landing(c, z, slot, x));
    SuppressesIffTooLate(e, slot, now);
  }

  /** Tolerating just under twenty minutes, beat skips the firing of the daily 23:30 schedule in Nuuk that
      is due this very moment. */
  lemma NuukSkipsAFreshFiring(rev: nat)
    ensures var (c, z) := (Zones.LATE_EVERY_DAY, Zones.ZoneOf(Zones.Nuuk));
            var e := CrontabEntry(rev, c, z, true, Some(1199999));
            && Ready(c, z) && Advances(e.next) && !IsSchedule(e)
            && Fires(c, z, 1711848600000)
            && Suppresses(e, 820546200000, 1711848600000) && !TooLate(e, 820546200000, 1711848600000)
  {
    hide Zones.ZoneOf, Zones.Nuuk, Zones.LATE_EVERY_DAY, Ready, Chain, Landing, Stepped, Fires, ScanExact, Suppresses,
      TooLate, IsSchedule;
    Zones.NuukLosesAFiring();
    Zones.NuukJumpSkipsAFiring();
    FreshFiringIsSkipped(rev, Zones.LATE_EVERY_DAY, Zones.ZoneOf(Zones.Nuuk), 820546200000, 1711847400000, 1711848600000);
  }
}
