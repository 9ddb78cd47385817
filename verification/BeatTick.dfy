/**
 One replica's tick over the store, when nobody else writes to it: seed, drop, then claim whatever is
 due.
 */
module BeatTick {
  import opened Collections
  import opened Options
  import opened Slots
  import opened Beat

  /** Most due entries claimed per tick. */
  const DUE_BATCH: nat := 500

  class Store {
    var db: Db

    constructor ()
      ensures db == EMPTY
    {
      db := EMPTY;
    }

    method SeedSlot(name: Name, slot: int, rev: nat) returns (took: bool)
      modifies this
      ensures (db, took) == Seed(old(db), name, slot, rev, false)
    {
      if name in db.revs && db.revs[name] == rev && name in db.due {
        return false;
      }
      db := db.(due := db.due[name := slot]);
      db := db.(revs := db.revs[name := rev]);
      took := true;
    }

    method ClaimAndPublish(name: Name, slot: int, next: int, target: Option<Target>, state: State, abort: Abort)
      returns (reply: Reply)
      modifies this
      ensures (db, reply) == Claim(old(db), name, slot, next, target, state, abort)
    {
      if name !in db.due || db.due[name] != slot {
        return Lost;
      }
      if target.Some? {
        if abort == AtPublish {
          return Failed;
        }
        db := Publish(db, name, slot, target.value);
        if abort == AtCount {
          return Failed;
        }
        db := Count(db, name);
      }
      if abort == AtAdvance {
        return Failed;
      }
      db := Advance(db, name, next);
      if abort == AtState {
        return Failed;
      }
      db := db.(states := db.states[name := state]);
      reply := Won;
    }

    method DropSlot(name: Name)
      modifies this
      ensures db == Dropped(old(db), name)
    {
      db := db.(due := db.due - {name});
      db := db.(revs := db.revs - {name});
    }

    /** The earliest due entries, at most `limit` of them. */
    method Due(now: int, limit: nat) returns (r: seq<(Name, int)>)
      ensures IsDueList(db.due, now, limit, r)
    {
      r := [];
      var left := set name | name in db.due && db.due[name] <= now;
      while left != {} && |r| < limit
        invariant left <= db.due.Keys && |r| <= limit && DistinctNames(r)
        invariant forall name :: name in db.due && db.due[name] <= now <==> name in left || Lists(r, name)
        invariant forall i :: 0 <= i < |r| ==> IsDue(db.due, now, r[i]) && r[i].0 !in left
        invariant forall i, name :: 0 <= i < |r| && name in left ==> r[i].1 <= db.due[name]
        invariant forall i, j :: 0 <= i < j < |r| ==> r[i].1 <= r[j].1
        decreases left
      {
        var name := Earliest(db.due, left);
        ghost var before := r;
        r := r + [(name, db.due[name])];
        assert forall i :: 0 <= i < |before| ==> r[i] == before[i];
        assert r[|before|].0 == name;
        assert forall n :: Lists(r, n) <==> n == name || Lists(before, n);
        left := left - {name};
      }
    }
  }

  function Dropped(db: Db, name: Name): Db {
    db.(due := db.due - {name}, revs := db.revs - {name})
  }

  predicate IsDue(slots: map<Name, int>, now: int, d: (Name, int)) {
    d.0 in slots && slots[d.0] == d.1 <= now
  }

  predicate DistinctNames(r: seq<(Name, int)>) {
    forall i, j :: 0 <= i < j < |r| ==> r[i].0 != r[j].0
  }

  predicate Lists(r: seq<(Name, int)>, name: Name) {
    exists i :: 0 <= i < |r| && r[i].0 == name
  }

  /** `r` is what is due, earliest first: all of it, or `limit` entries none of which is later than one
      left out. */
  ghost predicate IsDueList(slots: map<Name, int>, now: int, limit: nat, r: seq<(Name, int)>) {
    && DistinctNames(r) && |r| <= limit
    && (forall i :: 0 <= i < |r| ==> IsDue(slots, now, r[i]))
    && (forall i, j :: 0 <= i < j < |r| ==> r[i].1 <= r[j].1)
    && (forall name :: name in slots && slots[name] <= now && !Lists(r, name) ==>
          |r| == limit && forall i :: 0 <= i < |r| ==> r[i].1 <= slots[name])
  }

  method Earliest(due: map<Name, int>, names: set<Name>) returns (name: Name)
    requires names != {} && names <= due.Keys
    ensures name in names && forall n :: n in names ==> due[name] <= due[n]
  {
    ghost var _ := SomeMember(names);
    name :| name in names;
    var left := names - {name};
    while left != {}
      invariant left <= names && name in names
      invariant forall n :: n in names && n !in left ==> due[name] <= due[n]
      decreases left
    {
      ghost var _ := SomeMember(left);
      var n :| n in left;
      if due[n] < due[name] {
        name := n;
      }
      left := left - {n};
    }
  }

  // ----- firing

  class Replica {
    const store: Store
    var fired: nat
    var skipped: nat
    var lostRaces: nat

    constructor (store: Store)
      ensures this.store == store && fired == 0 && skipped == 0 && lostRaces == 0
    {
      this.store, fired, skipped, lostRaces := store, 0, 0, 0;
    }

    /** Decides about one due slot and claims it; a false answer has the tick come back to it.
        `built` is the envelope's destination, None if it could not be built. */
    method Fire(name: Name, e: Entry, slot: int, now: int, built: Option<Target>, abort: Abort) returns (ok: bool)
      modifies this, store
      ensures !CanFire(e, slot, now, built) ==> !ok && store.db == old(store.db)
      ensures CanFire(e, slot, now, built) ==>
                var target := if Suppresses(e, slot, now) then None else built;
                var next := e.advance(slot, now).value;
                var (db, reply) := Claim(old(store.db), name, slot, next, target, State(slot, now, target.None?, next), abort);
                && store.db == db && (ok <==> reply != Failed)
                && fired == old(fired) + (if reply == Won && target.Some? then 1 else 0)
                && skipped == old(skipped) + (if reply == Won && target.None? then 1 else 0)
                && lostRaces == old(lostRaces) + (if reply == Lost then 1 else 0)
      ensures !ok ==> fired == old(fired) && skipped == old(skipped) && lostRaces == old(lostRaces)
    {
      var advanced := e.advance(slot, now);
      if advanced.None? {
        return false;
      }
      var suppress := Suppresses(e, slot, now);
      var target: Option<Target> := None;
      if !suppress {
        if built.None? {
          return false;
        }
        target := built;
      }
      var next := advanced.value;
      var reply := store.ClaimAndPublish(name, slot, next, target, State(slot, now, suppress, next), abort);
      if reply == Failed {
        return false;
      }
      if reply == Lost {
        lostRaces := lostRaces + 1;
        return true;
      }
      if suppress {
        skipped := skipped + 1;
      } else {
        fired := fired + 1;
      }
      ok := true;
    }

    /** One turn of the seeding loop, by the slots and fingerprints read when the tick began. */
    method SeedOne(name: Name, e: Entry, slots: map<Name, int>, revs: map<Name, nat>, now: int)
      modifies store
      ensures store.db == SeededOne(name, e, slots, revs, now, old(store.db))
    {
      if !e.enabled {
        if name in slots {
          store.DropSlot(name);
        }
        return;
      }
      if name in slots && name in revs && revs[name] == e.rev {
        return;
      }
      if e.possible {
        var took := store.SeedSlot(name, e.next(now), e.rev);
      }
    }

    /** An entry without a slot under its fingerprint gets its next one after now, a disabled one loses
        the slot it has, and every other keeps its own. */
    method SeedAll(entries: Entries, now: int)
      modifies store
      ensures Settled(entries, entries.Keys, now, old(store.db), store.db)
    {
      hide Settled, SeededOne, OwnSlot;
      var slots, revs := store.db.due, store.db.revs;
      var left := entries.Keys;
      NothingSettled(entries, now, store.db);
      while left != {}
        invariant left <= entries.Keys
        invariant Settled(entries, entries.Keys - left, now, old(store.db), store.db)
        decreases left
      {
        ghost var _ := SomeMember(left);
        var name :| name in left;
        SettledOneMore(entries, entries.Keys - left, name, now, old(store.db), store.db);
        assert entries.Keys - left + {name} == entries.Keys - (left - {name});
        left := left - {name};
        SeedOne(name, entries[name], slots, revs, now);
      }
      assert entries.Keys - left == entries.Keys;
    }

    /** Drops slots that no definition is left for. */
    method DropOrphans(entries: Entries, slots: map<Name, int>)
      requires forall n :: n in store.db.due ==> n in entries || n in slots
      modifies store
      ensures SameButDue(old(store.db), store.db)
      ensures forall n :: n in store.db.due <==> n in old(store.db.due) && n in entries
      ensures forall n :: n in store.db.due ==> store.db.due[n] == old(store.db.due)[n]
    {
      var left := slots.Keys;
      while left != {}
        invariant left <= slots.Keys && SameButDue(old(store.db), store.db)
        invariant forall n :: n in store.db.due <==> n in old(store.db.due) && (n in entries || n in left)
        invariant forall n :: n in store.db.due ==> store.db.due[n] == old(store.db.due)[n]
        decreases left
      {
        ghost var _ := SomeMember(left);
        var name :| name in left;
        left := left - {name};
        if name !in entries {
          store.DropSlot(name);
        }
      }
    }

    /** Fires an entry whose slot is the stored one, so that the claim cannot be lost. */
    method FireDue(e: Entry, d: (Name, int), now: int, built: Option<Target>) returns (ok: bool)
      requires (MovesOn(e) || IsImpossible(e)) && IsDue(store.db.due, now, d)
      modifies this, store
      ensures ok <==> CanFire(e, d.1, now, built)
      ensures FiredOne(e, d, now, built, old(store.db), store.db)
    {
      ok := Fire(d.0, e, d.1, now, built, Completes);
      assert MovesOn(e) ==> EndsPast(e, d.1, now, e.advance(d.1, now));
    }

    /** Fires each due entry; those that could not be claimed are returned and stay due. */
    method FireAll(entries: Entries, due: seq<(Name, int)>, now: int, built: Name -> Option<Target>)
      returns (failed: set<Name>)
      requires forall n :: n in entries ==> MovesOn(entries[n]) || IsImpossible(entries[n])
      requires DistinctNames(due) && forall i :: 0 <= i < |due| ==> IsDue(store.db.due, now, due[i]) && due[i].0 in entries
      modifies this, store
      ensures FiredDue(entries, due, now, built, failed, old(store.db), store.db)
    {
      hide FiredDue, FiredOne, MovesOn, IsImpossible, CanFire, IsDue, DistinctNames;
      failed := {};
      NoneFired(entries, due, now, built, store.db);
      for i := 0 to |due|
        invariant FiredDue(entries, due[..i], now, built, failed, old(store.db), store.db)
        invariant forall k :: i <= k < |due| ==> IsDue(store.db.due, now, due[k])
      {
        ghost var before, failedBefore := store.db, failed;
        var ok := FireDue(entries[due[i].0], due[i], now, built(due[i].0));
        if !ok {
          failed := failed + {due[i].0};
        }
        StillDue(entries[due[i].0], due, i, now, built(due[i].0), before, store.db);
        FiredOneMore(entries, due, i, now, built, failedBefore, failed, old(store.db), before, store.db);
      }
      assert due[..|due|] == due;
    }

    /** `tick`: what is due by the seeded slots is fired, at most once each and for the slot that was
        due; afterwards only live entries have slots, and every entry that could be fired has been
        fast forwarded past now, the others keeping their slots. */
    method Tick(entries: Entries, now: int, built: Name -> Option<Target>)
      returns (due: seq<(Name, int)>, failed: set<Name>)
      requires forall n :: n in entries ==> MovesOn(entries[n]) || IsImpossible(entries[n])
      modifies this, store
      ensures IsDueList(SeededSlots(entries, old(store.db), now), now, DUE_BATCH, due)
      ensures store.db.published == old(store.db.published) + Publications(entries, due, now, built)
      ensures forall n :: n in failed <==> exists i :: 0 <= i < |due| && due[i].0 == n && !CanFire(entries[n], due[i].1, now, built(n))
      ensures store.db.due.Keys == SeededSlots(entries, old(store.db), now).Keys
      ensures forall n :: n in store.db.due ==>
                var slot := SeededSlots(entries, old(store.db), now)[n];
                if Lists(due, n) && n !in failed then MovedOn(entries[n], slot, now, store.db.due[n])
                else store.db.due[n] == slot
      ensures |due| < DUE_BATCH ==>
                forall n :: n in entries && entries[n].enabled && entries[n].possible && n !in failed ==>
                              n in store.db.due && store.db.due[n] > now
    {
      hide Settled, IsDueList, FiredDue, MovesOn, IsImpossible, CanFire, SeededSlots, Publications;
      var slots := store.db.due;
      ghost var start := store.db;
      SeedAll(entries, now);
      ghost var seeded := store.db;
      SettledNames(entries, now, start, seeded);
      DropOrphans(entries, slots);
      SweptSlots(entries, now, start, seeded, store.db);
      ghost var swept := store.db;
      due := store.Due(now, DUE_BATCH);
      ListedAreDue(entries, start, now, swept, due);
      failed := FireAll(entries, due, now, built);
      AfterFiring(entries, start, now, built, due, failed, swept, store.db);
    }
  }

  lemma SettledNames(entries: Entries, now: int, start: Db, seeded: Db)
    requires Settled(entries, entries.Keys, now, start, seeded)
    ensures SameButDue(start, seeded) && forall n :: n in seeded.due ==> n in entries || n in start.due
  {
    forall n | n in seeded.due && n !in entries ensures n in start.due {
      assert SameSlot(n, start, seeded);
    }
  }

  lemma ListedAreDue(entries: Entries, start: Db, now: int, swept: Db, due: seq<(Name, int)>)
    requires swept.due == SeededSlots(entries, start, now) && IsDueList(swept.due, now, DUE_BATCH, due)
    ensures DistinctNames(due)
    ensures forall i :: 0 <= i < |due| ==> IsDue(swept.due, now, due[i]) && due[i].0 in entries
  {}

  lemma AfterFiring(entries: Entries, start: Db, now: int, built: Name -> Option<Target>, due: seq<(Name, int)>,
                    failed: set<Name>, swept: Db, db: Db)
    requires swept.due == SeededSlots(entries, start, now) && IsDueList(swept.due, now, DUE_BATCH, due)
    requires FiredDue(entries, due, now, built, failed, swept, db)
    ensures db.published == swept.published + Publications(entries, due, now, built)
    ensures forall i :: 0 <= i < |due| ==> due[i].0 in entries
    ensures forall n :: n in failed <==>
              exists i :: 0 <= i < |due| && due[i].0 == n && !CanFire(entries[n], due[i].1, now, built(n))
    ensures db.due.Keys == SeededSlots(entries, start, now).Keys
    ensures forall n :: n in db.due ==>
              var slot := SeededSlots(entries, start, now)[n];
              if Lists(due, n) && n !in failed then MovedOn(entries[n], slot, now, db.due[n]) else db.due[n] == slot
    ensures |due| < DUE_BATCH ==>
              forall n :: n in entries && entries[n].enabled && entries[n].possible && n !in failed ==>
                            n in db.due && db.due[n] > now
  {
    hide CanFire, Publications, SeededSlots, IsDueList, AreAdvanced;
    SlotsAfterFiring(entries, now, due, failed, swept, db);
    if |due| < DUE_BATCH {
      forall n | n in entries && entries[n].enabled && entries[n].possible ensures n in db.due {
        AlwaysSeeded(entries, start, now, n);
      }
    }
  }

  lemma AlwaysSeeded(entries: Entries, start: Db, now: int, n: Name)
    requires n in entries && entries[n].enabled && entries[n].possible
    ensures n in SeededSlots(entries, start, now)
  {}

  lemma SlotsAfterFiring(entries: Entries, now: int, due: seq<(Name, int)>, failed: set<Name>, swept: Db, db: Db)
    requires IsDueList(swept.due, now, DUE_BATCH, due) && AreAdvanced(entries, due, now, failed, swept, db)
    ensures db.due.Keys == swept.due.Keys
    ensures forall n :: n in db.due && Lists(due, n) && n !in failed ==>
              n in entries && MovedOn(entries[n], swept.due[n], now, db.due[n])
    ensures forall n :: n in db.due && !(Lists(due, n) && n !in failed) ==> db.due[n] == swept.due[n]
    ensures |due| < DUE_BATCH ==> forall n :: n in db.due && n !in failed ==> db.due[n] > now
  {
    forall n | n in db.due && Lists(due, n) && n !in failed
      ensures n in entries && MovedOn(entries[n], swept.due[n], now, db.due[n])
    {
      var i :| 0 <= i < |due| && due[i].0 == n;
    }
  }

  /** The slots a tick goes by: a stored one if its fingerprint is the entry's, else the next after now;
      of an impossible entry whatever is stored; none of disabled and undefined entries. */
  ghost function SeededSlots(entries: Entries, db: Db, now: int): map<Name, int> {
    map n | n in entries && OwnSlot(n, entries[n], db.due, db.revs, now).Some? ::
      OwnSlot(n, entries[n], db.due, db.revs, now).value
  }

  function OwnSlot(name: Name, e: Entry, slots: map<Name, int>, revs: map<Name, nat>, now: int): Option<int> {
    if !e.enabled then None
    else if name in slots && name in revs && revs[name] == e.rev then Some(slots[name])
    else if e.possible then Some(e.next(now))
    else if name in slots then Some(slots[name])
    else None
  }

  /** Which slots a tick goes by: an enabled entry keeps a slot stored under its fingerprint, gets the next
      one after now otherwise, and if its schedule is impossible keeps whatever is stored; a disabled or
      undefined one has none. */
  lemma WhatIsSeeded(entries: Entries, db: Db, now: int, n: Name)
    ensures var seeded := SeededSlots(entries, db, now);
            var stored := n in db.due && n in db.revs && n in entries && db.revs[n] == entries[n].rev;
            && (n in seeded <==> n in entries && entries[n].enabled && (entries[n].possible || n in db.due))
            && (n in seeded && (stored || !entries[n].possible) ==> seeded[n] == db.due[n])
            && (n in seeded && !stored && entries[n].possible ==> seeded[n] == entries[n].next(now))
  {}

  /** The schedule names no slot between now and a newly seeded one, if from later moments it does not
      lead to earlier slots. */
  lemma NothingBeforeTheSeed(entries: Entries, db: Db, now: int, n: Name, t: int)
    requires n in entries && entries[n].enabled && entries[n].possible
    requires !(n in db.due && n in db.revs && db.revs[n] == entries[n].rev)
    requires now <= t && forall a, b :: a <= b ==> entries[n].next(a) <= entries[n].next(b)
    ensures n in SeededSlots(entries, db, now) && SeededSlots(entries, db, now)[n] <= entries[n].next(t)
  {
    WhatIsSeeded(entries, db, now, n);
  }

  /** A newly seeded slot lies ahead, so whatever is due was stored, under the entry's fingerprint if
      its schedule is possible. */
  lemma DueWasStored(entries: Entries, db: Db, now: int, n: Name)
    requires n in entries && (MovesOn(entries[n]) || IsImpossible(entries[n]))
    requires n in SeededSlots(entries, db, now) && SeededSlots(entries, db, now)[n] <= now
    ensures n in db.due && SeededSlots(entries, db, now)[n] == db.due[n]
    ensures entries[n].possible ==> n in db.revs && db.revs[n] == entries[n].rev
  {}

  ghost predicate HasSlot(db: Db, n: Name, slot: Option<int>) {
    (n in db.due <==> slot.Some?) && (n in db.due ==> db.due[n] == slot.value)
  }

  /** The slot of an entry that can be seeded carries its fingerprint. */
  predicate Fingerprinted(db: Db, n: Name, e: Entry) {
    e.enabled && e.possible ==> n in db.revs && db.revs[n] == e.rev
  }

  lemma SweptSlots(entries: Entries, now: int, start: Db, seeded: Db, swept: Db)
    requires Settled(entries, entries.Keys, now, start, seeded)
    requires forall n :: n in swept.due <==> n in seeded.due && n in entries
    requires forall n :: n in swept.due ==> swept.due[n] == seeded.due[n]
    ensures swept.due == SeededSlots(entries, start, now)
  {
    hide OwnSlot;
    forall n ensures n in swept.due <==> n in SeededSlots(entries, start, now) {
      if n in entries {
        assert HasSlot(seeded, n, OwnSlot(n, entries[n], start.due, start.revs, now));
      }
    }
    forall n | n in swept.due ensures swept.due[n] == SeededSlots(entries, start, now)[n] {
      assert HasSlot(seeded, n, OwnSlot(n, entries[n], start.due, start.revs, now));
    }
  }

  predicate SameButDue(before: Db, db: Db) {
    db.published == before.published && db.runs == before.runs && db.states == before.states
  }

  /** The entries in `done` have been seeded or dropped, nothing else has changed. */
  ghost predicate Settled(entries: Entries, done: set<Name>, now: int, before: Db, db: Db) {
    && done <= entries.Keys && SameButDue(before, db)
    && (forall n :: n in done ==> HasSlot(db, n, OwnSlot(n, entries[n], before.due, before.revs, now)))
    && (forall n :: n in done ==> Fingerprinted(db, n, entries[n]))
    && (forall n :: n !in done ==> SameSlot(n, before, db))
  }

  ghost predicate SameSlot(n: Name, before: Db, db: Db) {
    && (n in db.due <==> n in before.due) && (n in db.revs <==> n in before.revs)
    && (n in db.due ==> db.due[n] == before.due[n])
    && (n in db.revs ==> db.revs[n] == before.revs[n])
  }

  function SeededOne(name: Name, e: Entry, slots: map<Name, int>, revs: map<Name, nat>, now: int, db: Db): Db {
    if !e.enabled then (if name in slots then Dropped(db, name) else db)
    else if name in slots && name in revs && revs[name] == e.rev then db
    else if e.possible then Seed(db, name, e.next(now), e.rev, false).0
    else db
  }

  lemma NothingSettled(entries: Entries, now: int, db: Db)
    ensures Settled(entries, entries.Keys - entries.Keys, now, db, db)
  {}

  lemma SettledOneMore(entries: Entries, done: set<Name>, name: Name, now: int, start: Db, before: Db)
    requires Settled(entries, done, now, start, before) && name in entries && name !in done
    ensures Settled(entries, done + {name}, now, start,
                    SeededOne(name, entries[name], start.due, start.revs, now, before))
  {
    hide SeededOne, OwnSlot;
    var db := SeededOne(name, entries[name], start.due, start.revs, now, before);
    OnlyOneSeeded(name, entries[name], now, start, before);
    forall n | n in done + {name} ensures HasSlot(db, n, OwnSlot(n, entries[n], start.due, start.revs, now)) {
      assert n != name ==> SameSlot(n, before, db) && HasSlot(before, n, OwnSlot(n, entries[n], start.due, start.revs, now));
    }
    forall n | n in done + {name} ensures Fingerprinted(db, n, entries[n]) {
      assert n != name ==> SameSlot(n, before, db) && Fingerprinted(before, n, entries[n]);
    }
    forall n | n !in done + {name} ensures SameSlot(n, start, db) {
      assert SameSlot(n, start, before) && SameSlot(n, before, db);
    }
  }

  /** One turn gives the entry its slot and touches nothing else. */
  lemma OnlyOneSeeded(name: Name, e: Entry, now: int, start: Db, before: Db)
    requires SameSlot(name, start, before)
    ensures var db := SeededOne(name, e, start.due, start.revs, now, before);
            && SameButDue(before, db) && HasSlot(db, name, OwnSlot(name, e, start.due, start.revs, now))
            && Fingerprinted(db, name, e)
            && forall n :: n != name ==> SameSlot(n, before, db)
  {}

  /** Whether `_fire` gets as far as a claim. */
  ghost predicate CanFire(e: Entry, slot: int, now: int, built: Option<Target>) {
    e.advance(slot, now).Some? && (Suppresses(e, slot, now) || built.Some?)
  }

  /** Whoever moves on can be fired unless its firing is to be published and has no envelope; an impossible
      schedule cannot. */
  lemma WhoCanFire(e: Entry, slot: int, now: int, built: Option<Target>)
    ensures MovesOn(e) ==> (CanFire(e, slot, now, built) <==> Suppresses(e, slot, now) || built.Some?)
    ensures IsImpossible(e) ==> !CanFire(e, slot, now, built)
  {
    assert MovesOn(e) ==> EndsPast(e, slot, now, e.advance(slot, now));
  }

  /** What a due list publishes: for each of its entries that can be fired and is not suppressed, and for
      nothing else, its slot, to where its envelope goes. */
  lemma {:induction false} PublishedOf(
    entries: Entries, due: seq<(Name, int)>, now: int, built: Name -> Option<Target>, p: Publication)
    ensures p in Publications(entries, due, now, built) <==>
              exists i :: 0 <= i < |due| && due[i] == (p.name, p.slot) && p.name in entries
                          && CanFire(entries[p.name], p.slot, now, built(p.name))
                          && !Suppresses(entries[p.name], p.slot, now) && built(p.name) == Some(p.target)
    decreases |due|
  {
    hide Suppresses;
    if due != [] {
      var last := |due| - 1;
      PublishedOf(entries, due[..last], now, built, p);
      assert (exists i :: 0 <= i < |due| && due[i] == (p.name, p.slot))
        <==> (exists i :: 0 <= i < last && due[..last][i] == (p.name, p.slot)) || due[last] == (p.name, p.slot) by {
        assert forall i :: 0 <= i < last ==> due[..last][i] == due[i];
      }
    }
  }

  ghost function Publications(entries: Entries, due: seq<(Name, int)>, now: int, built: Name -> Option<Target>)
    : seq<Publication>
  {
    if due == [] then []
    else
      var (name, slot) := due[|due| - 1];
      Publications(entries, due[..|due| - 1], now, built)
      + if name in entries && CanFire(entries[name], slot, now, built(name)) && !Suppresses(entries[name], slot, now)
        then [Publication(name, slot, built(name).value)] else []
  }

  ghost predicate AreFailed(entries: Entries, due: seq<(Name, int)>, now: int, built: Name -> Option<Target>,
                            failed: set<Name>) {
    && (forall i :: 0 <= i < |due| ==> due[i].0 in entries)
    && (forall n :: n in failed <==>
                      exists i :: 0 <= i < |due| && due[i].0 == n && n in entries && !CanFire(entries[n], due[i].1, now, built(n)))
  }

  ghost predicate FiredDue(entries: Entries, due: seq<(Name, int)>, now: int, built: Name -> Option<Target>,
                           failed: set<Name>, before: Db, db: Db) {
    && db.published == before.published + Publications(entries, due, now, built)
    && AreFailed(entries, due, now, built, failed)
    && AreAdvanced(entries, due, now, failed, before, db)
  }

  ghost predicate AreAdvanced(entries: Entries, due: seq<(Name, int)>, now: int, failed: set<Name>, before: Db, db: Db) {
    && (forall n :: n in db.due <==> n in before.due)
    && (forall i :: 0 <= i < |due| && due[i].0 !in failed ==>
          due[i].0 in entries && due[i].0 in db.due && MovedOn(entries[due[i].0], due[i].1, now, db.due[due[i].0]))
    && (forall n :: n in db.due && (!Lists(due, n) || n in failed) ==> db.due[n] == before.due[n])
  }

  /** The slot was fast forwarded past now. */
  ghost predicate MovedOn(e: Entry, slot: int, now: int, to: int) {
    e.advance(slot, now) == Some(to) && to > now
  }

  /** What one firing of a due entry does to the store. */
  ghost predicate FiredOne(e: Entry, d: (Name, int), now: int, built: Option<Target>, before: Db, db: Db) {
    if CanFire(e, d.1, now, built) then
      && (forall n :: n in db.due <==> n in before.due)
      && (forall n :: n in db.due && n != d.0 ==> db.due[n] == before.due[n])
      && d.0 in db.due && MovedOn(e, d.1, now, db.due[d.0])
      && db.published == before.published + (if Suppresses(e, d.1, now) then [] else [Publication(d.0, d.1, built.value)])
    else
      db == before
  }

  lemma NoneFired(entries: Entries, due: seq<(Name, int)>, now: int, built: Name -> Option<Target>, db: Db)
    ensures FiredDue(entries, due[..0], now, built, {}, db, db)
  {
    assert db.published + [] == db.published;
  }

  lemma StillDue(e: Entry, due: seq<(Name, int)>, i: nat, now: int, built: Option<Target>, before: Db, db: Db)
    requires i < |due| && DistinctNames(due) && FiredOne(e, due[i], now, built, before, db)
    requires forall k :: i <= k < |due| ==> IsDue(before.due, now, due[k])
    ensures forall k :: i < k < |due| ==> IsDue(db.due, now, due[k])
  {
    hide CanFire;
  }

  lemma FiredOneMore(entries: Entries, due: seq<(Name, int)>, i: nat, now: int, built: Name -> Option<Target>,
                     failed: set<Name>, failed': set<Name>, start: Db, before: Db, db: Db)
    requires i < |due| && DistinctNames(due) && due[i].0 in entries
    requires FiredDue(entries, due[..i], now, built, failed, start, before)
    requires FiredOne(entries[due[i].0], due[i], now, built(due[i].0), before, db)
    requires failed' == if CanFire(entries[due[i].0], due[i].1, now, built(due[i].0)) then failed else failed + {due[i].0}
    ensures FiredDue(entries, due[..i + 1], now, built, failed', start, db)
  {
    hide CanFire, AreFailed, AreAdvanced, Publications, FiredOne;
    FailedOneMore(entries, due, i, now, built, failed, failed');
    PublishedOneMore(entries, due, i, now, built, before, db);
    NotFailedYet(entries, due, i, now, built, failed);
    AdvancedOneMore(entries, due, i, now, built, failed, failed', start, before, db);
    var more := Publications(entries, due[..i], now, built);
    assert forall x: seq<Publication> :: (start.published + more) + x == start.published + (more + x);
  }

  lemma PublishedOneMore(entries: Entries, due: seq<(Name, int)>, i: nat, now: int, built: Name -> Option<Target>,
                         before: Db, db: Db)
    requires i < |due| && due[i].0 in entries
    requires FiredOne(entries[due[i].0], due[i], now, built(due[i].0), before, db)
    ensures exists x ::
              && db.published == before.published + x
              && Publications(entries, due[..i + 1], now, built) == Publications(entries, due[..i], now, built) + x
  {
    var all := due[..i + 1];
    assert all[..|all| - 1] == due[..i] && all[|all| - 1] == due[i];
    var e, target := entries[due[i].0], built(due[i].0);
    var x := if CanFire(e, due[i].1, now, target) && !Suppresses(e, due[i].1, now)
             then [Publication(due[i].0, due[i].1, target.value)] else [];
    assert db.published == before.published + x;
    assert Publications(entries, all, now, built) == Publications(entries, due[..i], now, built) + x;
  }

  lemma NotFailedYet(entries: Entries, due: seq<(Name, int)>, i: nat, now: int, built: Name -> Option<Target>,
                     failed: set<Name>)
    requires i < |due| && DistinctNames(due) && AreFailed(entries, due[..i], now, built, failed)
    ensures due[i].0 !in failed
  {
    hide CanFire;
  }

  lemma AdvancedOneMore(entries: Entries, due: seq<(Name, int)>, i: nat, now: int, built: Name -> Option<Target>,
                        failed: set<Name>, failed': set<Name>, start: Db, before: Db, db: Db)
    requires i < |due| && DistinctNames(due) && due[i].0 in entries && due[i].0 !in failed
    requires AreAdvanced(entries, due[..i], now, failed, start, before)
    requires FiredOne(entries[due[i].0], due[i], now, built(due[i].0), before, db)
    requires failed' == if CanFire(entries[due[i].0], due[i].1, now, built(due[i].0)) then failed else failed + {due[i].0}
    ensures AreAdvanced(entries, due[..i + 1], now, failed', start, db)
  {
    hide CanFire, MovedOn;
    var all := due[..i + 1];
    forall k | 0 <= k < |all| && all[k].0 !in failed'
      ensures all[k].0 in entries && all[k].0 in db.due && MovedOn(entries[all[k].0], all[k].1, now, db.due[all[k].0])
    {
      if k < i {
        assert all[k] == due[..i][k];
      }
    }
    forall n | n in db.due && (!Lists(all, n) || n in failed') ensures db.due[n] == start.due[n] {
      assert all[i] == due[i] && forall k :: 0 <= k < i ==> due[..i][k] == all[k];
      assert Lists(due[..i], n) ==> Lists(all, n);
      assert Lists(all, due[i].0);
    }
  }

  lemma FailedOneMore(entries: Entries, due: seq<(Name, int)>, i: nat, now: int, built: Name -> Option<Target>,
                      failed: set<Name>, failed': set<Name>)
    requires i < |due| && due[i].0 in entries
    requires AreFailed(entries, due[..i], now, built, failed)
    requires failed' == if CanFire(entries[due[i].0], due[i].1, now, built(due[i].0)) then failed else failed + {due[i].0}
    ensures AreFailed(entries, due[..i + 1], now, built, failed')
  {
    hide CanFire;
    var all := due[..i + 1];
    forall n | n in failed'
      ensures exists k :: 0 <= k < |all| && all[k].0 == n && n in entries && !CanFire(entries[n], all[k].1, now, built(n))
    {
      if n in failed {
        var k :| 0 <= k < i && due[..i][k].0 == n && !CanFire(entries[n], due[..i][k].1, now, built(n));
        assert all[k] == due[..i][k];
      } else {
        assert all[i].0 == n;
      }
    }
    forall k | 0 <= k < |all| && !CanFire(entries[all[k].0], all[k].1, now, built(all[k].0)) ensures all[k].0 in failed' {
      if k < i {
        assert due[..i][k] == all[k];
      }
    }
  }
}
