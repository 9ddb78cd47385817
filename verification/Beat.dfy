/**
 The periodic scheduler: the two scripts that guard a slot, what one firing and one tick do, and what
 holds whatever any number of replicas do with however stale a clock.
 */
module Beat {
  import opened Collections
  import opened Options
  import opened Slots

  type Name = nat

  datatype Target = ToStream | ToDelayed(fireAt: int)

  /** What was handed to a queue, and for which slot. */
  datatype Publication = Publication(name: Name, slot: int, target: Target)

  datatype State = State(lastSlot: int, firedAt: int, skipped: bool, nextSlot: int)

  /** The shared store: next slot, schedule fingerprint, run count and last state by entry, and all
      that was ever published. */
  datatype Db = Db(
    due: map<Name, int>,
    revs: map<Name, nat>,
    runs: map<Name, nat>,
    states: map<Name, State>,
    published: seq<Publication>)

  function RunsOf(db: Db, name: Name): nat {
    if name in db.runs then db.runs[name] else 0
  }

  // ----- the scripts

  /** Where a script is cut short by a failing command. What ran before stays. */
  datatype Abort = Completes | AtPublish | AtCount | AtAdvance | AtState

  datatype Reply = Won | Lost | Failed

  function Publish(db: Db, name: Name, slot: int, target: Target): Db {
    db.(published := db.published + [Publication(name, slot, target)])
  }

  function Count(db: Db, name: Name): Db {
    db.(runs := db.runs[name := RunsOf(db, name) + 1])
  }

  function Advance(db: Db, name: Name, next: int): Db {
    db.(due := db.due[name := next])
  }

  /** The claim script up to its slot advance: None if a command failed, with what it left. */
  function PublishAndCount(db: Db, name: Name, slot: int, target: Option<Target>, abort: Abort): (Db, bool) {
    match target
    case None => (db, true)
    case Some(t) =>
      if abort == AtPublish then (db, false)
      else if abort == AtCount then (Publish(db, name, slot, t), false)
      else (Count(Publish(db, name, slot, t), name), true)
  }

  /** The claim script. A missing target is mode `none`. */
  function Claim(db: Db, name: Name, slot: int, next: int, target: Option<Target>, state: State, abort: Abort)
    : (Db, Reply)
  {
    if name !in db.due || db.due[name] != slot then (db, Lost)
    else
      var (after, ok) := PublishAndCount(db, name, slot, target, abort);
      if !ok || abort == AtAdvance then (after, Failed)
      else
        var advanced := Advance(after, name, next);
        if abort == AtState then (advanced, Failed)
        else (advanced.(states := advanced.states[name := state]), Won)
  }

  /** The seed script: a slot seeded under the same fingerprint is left alone. One `cut` fails after it
      has written the slot and before it writes the fingerprint. */
  function Seed(db: Db, name: Name, slot: int, rev: nat, cut: bool): (Db, bool) {
    if name in db.revs && db.revs[name] == rev && name in db.due then (db, false)
    else
      var seeded := db.(due := db.due[name := slot]);
      if cut then (seeded, false) else (seeded.(revs := seeded.revs[name := rev]), true)
  }

  // ----- entries

  /** `next` is the schedule's `next_after` unless its expression is impossible, `advance` what its
      `advance_past_with_missed` answers. */
  datatype Entry = Entry(
    rev: nat,
    enabled: bool,
    possible: bool,
    next: int -> int,
    advance: (int, int) -> Option<int>,
    skip: bool,
    maxLateness: Option<nat>)

  ghost predicate IsSlot(e: Entry, slot: int) {
    exists t :: e.next(t) == slot
  }

  /** Slots are followed by later ones, and fast forwarding ends on a slot past both. */
  ghost predicate MovesOn(e: Entry) {
    && e.possible && Advances(e.next)
    && forall slot, now :: EndsPast(e, slot, now, e.advance(slot, now))
  }

  ghost predicate EndsPast(e: Entry, slot: int, now: int, end: Option<int>) {
    end.Some? && end.value > slot && end.value > now && IsSlot(e, end.value)
  }

  /** The schedule's fast forward is its step loop run to the end. */
  ghost predicate IsSchedule(e: Entry) {
    e.possible && Advances(e.next) && forall slot, now :: e.advance(slot, now) == Some(Stepped(e.next, slot, now))
  }

  ghost predicate IsImpossible(e: Entry) {
    !e.possible && forall slot, now :: e.advance(slot, now) == None
  }

  /** The decision as the code takes it. */
  predicate Suppresses(e: Entry, slot: int, now: int) {
    e.skip && e.maxLateness.Some? && now - slot > e.maxLateness.value
    && var advanced := e.advance(slot, now - e.maxLateness.value - 1);
       advanced.Some? && advanced.value > now
  }

  lemma {:induction false} SteppedIsASlot(e: Entry, slot: int, now: int)
    requires Advances(e.next)
    ensures IsSlot(e, Stepped(e.next, slot, now))
    decreases now - slot
  {
    if e.next(slot) <= now {
      SteppedIsASlot(e, e.next(slot), now);
    } else {
      assert e.next(slot) == Stepped(e.next, slot, now);
    }
  }

  /** Stepping moves on. */
  lemma ScheduleMovesOn(e: Entry)
    requires IsSchedule(e)
    ensures MovesOn(e)
  {
    forall slot, now ensures EndsPast(e, slot, now, e.advance(slot, now)) {
      SteppedIsPast(e.next, slot, now);
      SteppedIsASlot(e, slot, now);
    }
  }

  /** The newest missed slot is later than the entry tolerates. */
  ghost predicate TooLate(e: Entry, slot: int, now: int)
    requires Advances(e.next) && slot <= now
  {
    e.skip && e.maxLateness.Some? && now - Newest(e.next, slot, now) > e.maxLateness.value
  }

  /** Where the test is reached, the fast forward it makes and stepping end on the same side of now. */
  ghost predicate JudgesAsStepping(e: Entry, slot: int, now: int)
    requires Advances(e.next)
  {
    e.skip && e.maxLateness.Some? && now - slot > e.maxLateness.value ==>
      var x := now - e.maxLateness.value - 1;
      e.advance(slot, x).Some? && e.advance(slot, x).value > now <==> Stepped(e.next, slot, x) > now
  }

  /** The decision goes by the newest missed slot iff fast forwarding judges as stepping does, and so it
      does for an entry whose fast forward is stepping. */
  lemma SuppressesIffTooLate(e: Entry, slot: int, now: int)
    requires Advances(e.next) && slot <= now
    ensures (Suppresses(e, slot, now) <==> TooLate(e, slot, now)) <==> JudgesAsStepping(e, slot, now)
    ensures IsSchedule(e) ==> (Suppresses(e, slot, now) <==> TooLate(e, slot, now))
  {
    NewestSlotDecides(e.next, slot, now, e.skip, e.maxLateness);
  }

  // ----- runs of many replicas

  /** One script call by some replica. `slot` and `now` are whatever it once read. */
  datatype Event =
    | SeedCall(name: Name, now: int, cut: bool)
    | ClaimCall(name: Name, slot: int, now: int, target: Option<Target>, abort: Abort)

  type Entries = map<Name, Entry>

  ghost predicate Fixed(entries: Entries) {
    forall name :: name in entries ==> MovesOn(entries[name]) || IsImpossible(entries[name])
  }

  /** Only entries whose schedule has slots get as far as a script. */
  predicate Known(entries: Entries, e: Event) { e.name in entries && entries[e.name].possible }

  ghost function Step(entries: Entries, db: Db, e: Event): Db
    requires Fixed(entries) && Known(entries, e)
  {
    var entry := entries[e.name];
    match e
    case SeedCall(name, now, cut) => Seed(db, name, entry.next(now), entry.rev, cut).0
    case ClaimCall(name, slot, now, target, abort) =>
      var next := entry.advance(slot, now).value;
      Claim(db, name, slot, next, target, State(slot, now, target.None?, next), abort).0
  }

  ghost function Run(entries: Entries, db: Db, run: seq<Event>): Db
    requires Fixed(entries) && forall e :: e in run ==> Known(entries, e)
  {
    if run == [] then db
    else Step(entries, Run(entries, db, run[..|run| - 1]), run[|run| - 1])
  }

  /** A claim that fails between its publish and its slot advance. */
  predicate CutShort(e: Event) {
    e.ClaimCall? && e.target.Some? && e.abort in {AtCount, AtAdvance}
  }

  predicate SeedCut(e: Event) {
    e.SeedCall? && e.cut
  }

  predicate NoneCutShort(run: seq<Event>) {
    forall e :: e in run ==> !CutShort(e) && !SeedCut(e)
  }

  const EMPTY: Db := Db(map[], map[], map[], map[], [])

  function Of(published: seq<Publication>, name: Name): seq<int> {
    if published == [] then []
    else
      var rest := Of(published[..|published| - 1], name);
      var last := published[|published| - 1];
      if last.name == name then rest + [last.slot] else rest
  }

  /** For one entry: what was published lies before the next slot, in order, and was counted. */
  ghost predicate InOrder(db: Db, name: Name) {
    var slots := Of(db.published, name);
    && Ascending(slots)
    && (slots != [] ==> name in db.due && slots[|slots| - 1] < db.due[name])
    && RunsOf(db, name) == |slots|
  }

  /** A seeded entry keeps its fingerprint. */
  predicate Seeded(entries: Entries, db: Db, name: Name) {
    name in db.due ==> name in entries && name in db.revs && db.revs[name] == entries[name].rev
  }

  ghost predicate Inv(entries: Entries, db: Db) {
    forall name :: InOrder(db, name) && Seeded(entries, db, name)
  }

  lemma OfAppend(published: seq<Publication>, p: Publication, name: Name)
    ensures Of(published + [p], name) == Of(published, name) + if p.name == name then [p.slot] else []
  {
    assert (published + [p])[..|published|] == published;
  }

  lemma AscendingAppend(s: seq<int>, x: int)
    requires Ascending(s) && (s != [] ==> s[|s| - 1] < x)
    ensures Ascending(s + [x])
  {}

  predicate Wins(db: Db, e: Event) {
    e.ClaimCall? && e.name in db.due && db.due[e.name] == e.slot
  }

  /** What a claim does that completes, or fails before it has done anything, or only at recording its
      state: a lost one nothing, a won one publishes and counts at most once and moves the slot on. */
  lemma UncutClaim(entries: Entries, db: Db, e: Event)
    requires Fixed(entries) && Known(entries, e) && e.ClaimCall? && !CutShort(e)
    ensures var after := Step(entries, db, e);
            var next := entries[e.name].advance(e.slot, e.now).value;
            if !Wins(db, e) || (e.abort == AtPublish && e.target.Some?) || e.abort == AtAdvance then after == db
            else
              && after.due == db.due[e.name := next] && next > e.slot && after.revs == db.revs
              && (e.target.None? ==> after.published == db.published && after.runs == db.runs)
              && (e.target.Some? ==>
                    && after.published == db.published + [Publication(e.name, e.slot, e.target.value)]
                    && after.runs == db.runs[e.name := RunsOf(db, e.name) + 1])
              && after.states == if e.abort == AtState then db.states
                                 else db.states[e.name := State(e.slot, e.now, e.target.None?, next)]
  {
    assert EndsPast(entries[e.name], e.slot, e.now, entries[e.name].advance(e.slot, e.now));
  }

  lemma ClaimKeepsOrder(entries: Entries, db: Db, e: Event, name: Name)
    requires Fixed(entries) && Known(entries, e) && e.ClaimCall? && !CutShort(e)
    requires InOrder(db, name) && Seeded(entries, db, name)
    ensures InOrder(Step(entries, db, e), name) && Seeded(entries, Step(entries, db, e), name)
  {
    hide Step, Of, Fixed, Ascending;
    UncutClaim(entries, db, e);
    if Wins(db, e) && e.target.Some? && e.abort != AtPublish {
      OfAppend(db.published, Publication(e.name, e.slot, e.target.value), name);
      var slots := Of(db.published, name);
      if e.name == name {
        AscendingAppend(slots, e.slot);
      } else {
        assert slots + [] == slots;
      }
    }
  }

  lemma SeedKeepsOrder(entries: Entries, db: Db, e: Event, name: Name)
    requires Fixed(entries) && Known(entries, e) && e.SeedCall? && !e.cut
    requires InOrder(db, name) && Seeded(entries, db, name)
    ensures InOrder(Step(entries, db, e), name) && Seeded(entries, Step(entries, db, e), name)
  {}

  lemma {:induction false} InvAlways(entries: Entries, run: seq<Event>)
    requires Fixed(entries) && (forall e :: e in run ==> Known(entries, e)) && NoneCutShort(run)
    ensures Inv(entries, Run(entries, EMPTY, run))
  {
    hide InOrder, Seeded;
    if run == [] {
      forall name ensures InOrder(EMPTY, name) && Seeded(entries, EMPTY, name) {
        NothingPublished(entries, name);
      }
    } else {
      var before, e := run[..|run| - 1], run[|run| - 1];
      InvAlways(entries, before);
      var db := Run(entries, EMPTY, before);
      assert e in run;
      forall name ensures InOrder(Step(entries, db, e), name) && Seeded(entries, Step(entries, db, e), name) {
        if e.ClaimCall? {
          ClaimKeepsOrder(entries, db, e, name);
        } else {
          SeedKeepsOrder(entries, db, e, name);
        }
      }
    }
  }

  lemma NothingPublished(entries: Entries, name: Name)
    ensures InOrder(EMPTY, name) && Seeded(entries, EMPTY, name)
  {}

  /** Published slots of one entry strictly increase, so none is published twice, and its run count is
      their number. */
  ghost predicate Once(db: Db, name: Name) {
    && Ascending(Of(db.published, name))
    && RunsOf(db, name) == |Of(db.published, name)|
    && forall i, j ::
         0 <= i < j < |db.published| && db.published[i].name == name == db.published[j].name ==>
           db.published[i].slot < db.published[j].slot
  }

  /** However many replicas tick, with or without the lease and by whatever clock, each slot fires at
      most once, as long as no claim is cut short between its publish and its advance, and no seed
      between its slot and its fingerprint. */
  lemma EachSlotFiresAtMostOnce(entries: Entries, run: seq<Event>, name: Name)
    requires Fixed(entries) && (forall e :: e in run ==> Known(entries, e)) && NoneCutShort(run)
    ensures Once(Run(entries, EMPTY, run), name)
  {
    InvAlways(entries, run);
    var db := Run(entries, EMPTY, run);
    assert InOrder(db, name);
    forall i, j | 0 <= i < j < |db.published| && db.published[i].name == name == db.published[j].name
      ensures db.published[i].slot < db.published[j].slot
    {
      PublishedInOrder(db.published, i, j);
    }
  }

  lemma {:induction false} OfHas(published: seq<Publication>, i: nat)
    requires i < |published|
    ensures published[i].slot in Of(published, published[i].name)
    decreases |published|
  {
    var rest := published[..|published| - 1];
    if i < |rest| {
      OfHas(rest, i);
      assert rest[i] == published[i];
    }
  }

  lemma {:induction false} PublishedInOrder(published: seq<Publication>, i: nat, j: nat)
    requires i < j < |published| && published[i].name == published[j].name
    requires Ascending(Of(published, published[i].name))
    ensures published[i].slot < published[j].slot
    decreases |published|
  {
    var name := published[i].name;
    var rest := published[..|published| - 1];
    if j < |rest| {
      assert rest[i] == published[i] && rest[j] == published[j];
      assert Of(rest, name) <= Of(published, name);
      PublishedInOrder(rest, i, j);
    } else {
      assert rest[i] == published[i];
      OfHas(rest, i);
      var slots := Of(rest, name);
      assert Of(published, name) == slots + [published[j].slot];
      var k :| 0 <= k < |slots| && slots[k] == published[i].slot;
      assert Of(published, name)[k] < Of(published, name)[|slots|];
    }
  }

  // ----- seeding

  predicate TakesEffect(entries: Entries, db: Db, e: Event, name: Name) {
    e.SeedCall? && e.name == name && name in entries
    && Seed(db, name, entries[name].next(e.now), entries[name].rev, e.cut).1
  }

  /** The seed calls of a run that set an entry's slot. */
  ghost function EffectiveSeeds(entries: Entries, run: seq<Event>, name: Name): nat
    requires Fixed(entries) && forall e :: e in run ==> Known(entries, e)
  {
    if run == [] then 0
    else
      var before, e := run[..|run| - 1], run[|run| - 1];
      EffectiveSeeds(entries, before, name)
      + if TakesEffect(entries, Run(entries, EMPTY, before), e, name) then 1 else 0
  }

  /** Unless a seed is cut short, seeding takes effect once per entry, whatever claims fail: a slow
      replica cannot reseed a slot that a fast one has already fired. */
  lemma {:induction false} SeedingTakesEffectOnce(entries: Entries, run: seq<Event>, name: Name)
    requires Fixed(entries) && forall e :: e in run ==> Known(entries, e) && !SeedCut(e)
    ensures var db := Run(entries, EMPTY, run);
            && EffectiveSeeds(entries, run, name) == (if name in db.due then 1 else 0)
            && Seeded(entries, db, name)
  {
    if run != [] {
      var before, e := run[..|run| - 1], run[|run| - 1];
      SeedingTakesEffectOnce(entries, before, name);
      assert e in run;
      var db := Run(entries, EMPTY, before);
      hide Run;
      if e.ClaimCall? {
        ClaimKeepsSeeds(entries, db, e);
      } else {
        SeedSeeds(entries, db, e, name);
      }
    }
  }

  /** Of slots and fingerprints, a claim moves at most its own entry's slot. */
  lemma ClaimTouches(db: Db, name: Name, slot: int, next: int, target: Option<Target>, state: State, abort: Abort)
    ensures var after := Claim(db, name, slot, next, target, state, abort).0;
            after.revs == db.revs && (after.due == db.due || (name in db.due && after.due == db.due[name := next]))
  {}

  lemma ClaimKeepsSeeds(entries: Entries, db: Db, e: Event)
    requires Fixed(entries) && Known(entries, e) && e.ClaimCall?
    ensures var after := Step(entries, db, e);
            after.revs == db.revs && forall name :: name in after.due <==> name in db.due
  {
    hide Claim, IsSlot;
    assert EndsPast(entries[e.name], e.slot, e.now, entries[e.name].advance(e.slot, e.now));
    var next := entries[e.name].advance(e.slot, e.now).value;
    ClaimTouches(db, e.name, e.slot, next, e.target, State(e.slot, e.now, e.target.None?, next), e.abort);
  }

  lemma SeedSeeds(entries: Entries, db: Db, e: Event, name: Name)
    requires Fixed(entries) && Known(entries, e) && e.SeedCall? && !e.cut && Seeded(entries, db, name)
    ensures var after := Step(entries, db, e);
            && Seeded(entries, after, name)
            && (name in after.due <==> name in db.due || e.name == name)
            && (TakesEffect(entries, db, e, name) <==> e.name == name && name !in db.due)
            && (name in after.due ==>
                  after.due[name] == if name in db.due then db.due[name] else entries[name].next(e.now))
            && after.published == db.published && after.runs == db.runs && after.states == db.states
  {}

  // ----- failing scripts

  /** The slots a run consumed without being told to skip them, in order. */
  ghost function Consumed(entries: Entries, run: seq<Event>, name: Name): seq<int>
    requires Fixed(entries) && forall e :: e in run ==> Known(entries, e)
  {
    if run == [] then []
    else
      var before, e := run[..|run| - 1], run[|run| - 1];
      var db := Run(entries, EMPTY, before);
      var consumed := Consumed(entries, before, name);
      if Wins(db, e) && e.name == name && e.target.Some? && Step(entries, db, e).due != db.due
      then consumed + [e.slot] else consumed
  }

  lemma StepPublishes(entries: Entries, db: Db, e: Event)
    requires Fixed(entries) && Known(entries, e)
    ensures var after := Step(entries, db, e);
            && (after.published == db.published
                || (Wins(db, e) && e.target.Some?
                    && after.published == db.published + [Publication(e.name, e.slot, e.target.value)]))
            && (Wins(db, e) && e.target.Some? && after.due != db.due ==>
                  after.published == db.published + [Publication(e.name, e.slot, e.target.value)])
  {
    hide MovesOn, IsImpossible;
  }

  /** Wherever scripts fail, no slot moves on unpublished: publishing comes first, so a failed script
      can only leave a slot to be published again. */
  lemma {:induction false} NoSlotIsLostToAFailedScript(entries: Entries, run: seq<Event>, name: Name)
    requires Fixed(entries) && forall e :: e in run ==> Known(entries, e)
    ensures forall slot :: slot in Consumed(entries, run, name) ==>
                             slot in Of(Run(entries, EMPTY, run).published, name)
  {
    if run != [] {
      var before, e := run[..|run| - 1], run[|run| - 1];
      var db := Run(entries, EMPTY, before);
      NoSlotIsLostToAFailedScript(entries, before, name);
      assert e in run;
      StepPublishes(entries, db, e);
      hide Step;
      if Wins(db, e) && e.target.Some? {
        OfAppend(db.published, Publication(e.name, e.slot, e.target.value), name);
      }
    }
  }

  /** In whatever state: a claim cut short after its publish leaves the slot where it was, so that
      the next claim of it, cut short or not, publishes it again. */
  lemma CutShortPublishesAgain(entries: Entries, db: Db, e: Event, again: Event)
    requires Fixed(entries) && Known(entries, e) && Known(entries, again)
    requires Wins(db, e) && CutShort(e) && again.ClaimCall? && again.target.Some? && again.abort != AtPublish
    requires again.name == e.name && again.slot == e.slot
    ensures var once := Step(entries, db, e);
            && Wins(once, again)
            && Step(entries, once, again).published
               == db.published + [Publication(e.name, e.slot, e.target.value),
                                  Publication(e.name, e.slot, again.target.value)]
  {
    hide MovesOn, IsImpossible;
    var once := Step(entries, db, e);
    assert once.due == db.due && once.published == db.published + [Publication(e.name, e.slot, e.target.value)];
    StepPublishes(entries, once, again);
  }

  /** Every publishing claim of the run ends in one of these ways, and seeds are cut short only if
      that is allowed. */
  predicate EndsOnly(run: seq<Event>, kinds: set<Abort>, seedsCut: bool) {
    && (forall e :: e in run && e.ClaimCall? && e.target.Some? ==> e.abort in kinds)
    && (forall e :: e in run && SeedCut(e) ==> seedsCut)
  }

  ghost predicate AlwaysOnce(entries: Entries, kinds: set<Abort>, seedsCut: bool)
    requires Fixed(entries)
  {
    forall run, name ::
      (forall e :: e in run ==> Known(entries, e)) && EndsOnly(run, kinds, seedsCut) ==>
        Once(Run(entries, EMPTY, run), name)
  }

  /** Where claims can complete and some schedule has slots at all, beat fires each slot at most once in
      every run iff no claim fails between its publish and its advance and no seed between its two
      writes. Failures before the publish and after the advance do no harm. */
  lemma AtMostOnceUnlessCutShort(entries: Entries, kinds: set<Abort>, seedsCut: bool)
    requires Fixed(entries) && Completes in kinds
    ensures AlwaysOnce(entries, kinds, seedsCut) <==>
              || (AtCount !in kinds && AtAdvance !in kinds && !seedsCut)
              || forall name :: name in entries ==> !entries[name].possible
  {
    if forall name :: name in entries ==> !entries[name].possible {
      forall run: seq<Event>, name | forall e :: e in run ==> Known(entries, e)
        ensures Once(Run(entries, EMPTY, run), name)
      {
        assert run != [] ==> Known(entries, run[0]);
        EachSlotFiresAtMostOnce(entries, run, name);
      }
    } else if AtCount in kinds || AtAdvance in kinds || seedsCut {
      var name :| name in entries && entries[name].possible;
      var run;
      if seedsCut {
        run := ReseededRun(entries, name);
      } else {
        run := TwiceRun(entries, name, if AtCount in kinds then AtCount else AtAdvance);
      }
      assert EndsOnly(run, kinds, seedsCut);
    } else {
      forall run: seq<Event>, name | (forall e :: e in run ==> Known(entries, e)) && EndsOnly(run, kinds, seedsCut)
        ensures Once(Run(entries, EMPTY, run), name)
      {
        EachSlotFiresAtMostOnce(entries, run, name);
      }
    }
  }

  /** A seed cut short is repeated by a slower replica after the slot was fired, and it fires again. */
  lemma ReseededRun(entries: Entries, name: Name) returns (run: seq<Event>)
    requires Fixed(entries) && name in entries && entries[name].possible
    ensures forall e :: e in run ==> Known(entries, e)
    ensures forall e :: e in run && e.ClaimCall? ==> e.abort == Completes
    ensures var slot := entries[name].next(0);
            Run(entries, EMPTY, run).published == [Publication(name, slot, ToStream), Publication(name, slot, ToStream)]
    ensures !Once(Run(entries, EMPTY, run), name)
  {
    var slot := entries[name].next(0);
    var cut, seed := SeedCall(name, 0, true), SeedCall(name, 0, false);
    var claim := ClaimCall(name, slot, slot, Some(ToStream), Completes);
    run := [cut, claim, seed, claim];
    hide MovesOn, IsImpossible, Claim;
    var one := Step(entries, EMPTY, cut);
    assert one.due == map[name := slot] && one.published == [] && one.revs == map[];
    var two := Step(entries, one, claim);
    UncutClaim(entries, one, claim);
    var three := Step(entries, two, seed);
    assert three.due[name] == slot && three.published == [Publication(name, slot, ToStream)];
    var four := Step(entries, three, claim);
    UncutClaim(entries, three, claim);
    hide Step;
    RunOfFour(entries, cut, claim, seed, claim);
    assert four.published[0].slot == four.published[1].slot;
  }

  lemma RunOfFour(entries: Entries, a: Event, b: Event, c: Event, d: Event)
    requires Fixed(entries) && forall e :: e in [a, b, c, d] ==> Known(entries, e)
    ensures Run(entries, EMPTY, [a, b, c, d])
         == Step(entries, Step(entries, Step(entries, Step(entries, EMPTY, a), b), c), d)
  {
    hide Step, Fixed, Known;
    assert [a, b, c, d][..3] == [a, b, c] && [a, b, c][..2] == [a, b];
    assert [a, b][..1] == [a] && [a][..0] == [];
    assert Run(entries, EMPTY, [a]) == Step(entries, Run(entries, EMPTY, []), a);
    assert Run(entries, EMPTY, [a, b]) == Step(entries, Run(entries, EMPTY, [a]), b);
    assert Run(entries, EMPTY, [a, b, c]) == Step(entries, Run(entries, EMPTY, [a, b]), c);
  }

  /** Seeded, then claimed twice by scripts cut short in the same way: its slot is published twice. */
  lemma TwiceRun(entries: Entries, name: Name, abort: Abort) returns (run: seq<Event>)
    requires Fixed(entries) && name in entries && entries[name].possible && abort in {AtCount, AtAdvance}
    ensures forall e :: e in run ==> Known(entries, e)
    ensures forall e :: e in run ==> !SeedCut(e) && (e.ClaimCall? ==> e.abort == abort)
    ensures var slot := entries[name].next(0);
            Run(entries, EMPTY, run).published == [Publication(name, slot, ToStream), Publication(name, slot, ToStream)]
    ensures !Once(Run(entries, EMPTY, run), name)
  {
    var slot := entries[name].next(0);
    var seed, claim := SeedCall(name, 0, false), ClaimCall(name, slot, slot, Some(ToStream), abort);
    run := [seed, claim, claim];
    assert run[..2] == [seed, claim] && [seed, claim][..1] == [seed] && [seed][..0] == [];
    assert Run(entries, EMPTY, []) == EMPTY;
    var one := Run(entries, EMPTY, [seed]);
    assert one == Step(entries, EMPTY, seed);
    assert one.due == map[name := slot] && one.published == [];
    var two := Run(entries, EMPTY, [seed, claim]);
    assert two == Step(entries, one, claim);
    var three := Run(entries, EMPTY, run);
    assert three == Step(entries, two, claim);
    CutShortPublishesAgain(entries, one, claim, claim);
    assert three.published[0].slot == three.published[1].slot;
  }

  // ----- only slots of the schedule

  ghost predicate OnlySlots(entries: Entries, db: Db, name: Name)
    requires name in entries
  {
    && (name in db.due ==> IsSlot(entries[name], db.due[name]))
    && forall slot :: slot in Of(db.published, name) ==> IsSlot(entries[name], slot)
  }

  lemma NextIsASlot(e: Entry, now: int)
    ensures IsSlot(e, e.next(now))
  {}

  /** What an event leaves in an entry's slot. */
  lemma StepDue(entries: Entries, db: Db, e: Event, name: Name)
    requires Fixed(entries) && Known(entries, e) && name in Step(entries, db, e).due
    ensures var slot := Step(entries, db, e).due[name];
            || (name in db.due && slot == db.due[name])
            || (name == e.name && IsSlot(entries[name], slot))
  {
    hide Claim, IsSlot;
    if e.ClaimCall? {
      assert EndsPast(entries[e.name], e.slot, e.now, entries[e.name].advance(e.slot, e.now));
      var next := entries[e.name].advance(e.slot, e.now).value;
      ClaimTouches(db, e.name, e.slot, next, e.target, State(e.slot, e.now, e.target.None?, next), e.abort);
    } else {
      NextIsASlot(entries[e.name], e.now);
    }
  }

  /** Every stored and every published slot is one the schedule names, scripts failing or not. */
  lemma {:induction false} OnlySlotsOfTheScheduleFire(entries: Entries, run: seq<Event>, name: Name)
    requires Fixed(entries) && (forall e :: e in run ==> Known(entries, e)) && name in entries
    ensures OnlySlots(entries, Run(entries, EMPTY, run), name)
  {
    if run != [] {
      var before, e := run[..|run| - 1], run[|run| - 1];
      var db := Run(entries, EMPTY, before);
      OnlySlotsOfTheScheduleFire(entries, before, name);
      assert e in run;
      var after := Step(entries, db, e);
      StepPublishes(entries, db, e);
      if name in after.due { StepDue(entries, db, e, name); }
      hide Step, IsSlot;
      if Wins(db, e) && e.target.Some? {
        OfAppend(db.published, Publication(e.name, e.slot, e.target.value), name);
      }
    }
  }

  /** An interval entry is a schedule in this sense, whatever its policy. */
  lemma IntervalIsASchedule(rev: nat, every: int, skip: bool, maxLateness: Option<nat>)
    requires every > 0
    ensures IsSchedule(Entry(rev, true, true, IntervalNext(every),
                             (slot, now) => Some(AdvanceInterval(every, slot, now).0), skip, maxLateness))
  {
    forall slot, now ensures Some(AdvanceInterval(every, slot, now).0) == Some(Stepped(IntervalNext(every), slot, now)) {
      ClosedFormIsStepping(every, slot, now);
    }
  }
}
