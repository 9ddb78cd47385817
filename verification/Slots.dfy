/**
 Slots as a chain: a schedule is a function from one slot to the next. What fast forwarding past the
 present means, the interval schedule's closed form for it, and which slot the skip policy judges.
 */
module Slots {
  import opened Options

  /** Every slot is followed by a later one. */
  ghost predicate Advances(next: int -> int) {
    forall t :: next(t) > t
  }

  // ----- the unbounded step loop

  /** The slot the chain from `slot` reaches first past `now`; at least one step is taken. */
  ghost function Stepped(next: int -> int, slot: int, now: int): int
    requires Advances(next)
    decreases now - slot
  {
    if next(slot) > now then next(slot) else Stepped(next, next(slot), now)
  }

  /** How many slots that passes over. */
  ghost function Swallowed(next: int -> int, slot: int, now: int): nat
    requires Advances(next)
    decreases now - slot
  {
    if next(slot) > now then 0 else 1 + Swallowed(next, next(slot), now)
  }

  /** The chain's last slot at or before `now`. */
  ghost function Newest(next: int -> int, slot: int, now: int): int
    requires Advances(next) && slot <= now
    decreases now - slot
  {
    if next(slot) > now then slot else Newest(next, next(slot), now)
  }

  /** The chain after `n` steps. */
  ghost function Iterate(next: int -> int, slot: int, n: nat): int
    decreases n
  {
    if n == 0 then slot else Iterate(next, next(slot), n - 1)
  }

  /** Stepping ends strictly past both, one step after the newest slot, having passed over every
      slot in between. */
  lemma {:induction false} SteppedIsPast(next: int -> int, slot: int, now: int)
    requires Advances(next)
    ensures Stepped(next, slot, now) > slot && Stepped(next, slot, now) > now
    ensures Stepped(next, slot, now) == Iterate(next, slot, Swallowed(next, slot, now) + 1)
    ensures slot <= now ==> Newest(next, slot, now) == Iterate(next, slot, Swallowed(next, slot, now))
    ensures slot <= now ==> Stepped(next, slot, now) == next(Newest(next, slot, now))
    decreases now - slot
  {
    if next(slot) <= now {
      SteppedIsPast(next, next(slot), now);
    } else {
      assert Iterate(next, slot, 1) == Iterate(next, next(slot), 0);
    }
  }

  lemma {:induction false} ChainAscends(next: int -> int, slot: int, n: nat)
    requires Advances(next)
    ensures Iterate(next, slot, n) >= slot + n
    decreases n
  {
    if n > 0 {
      ChainAscends(next, next(slot), n - 1);
    }
  }

  /** Nothing on the chain lies between the newest slot and `now`. */
  lemma {:induction false} NewestIsNewest(next: int -> int, slot: int, now: int, n: nat)
    requires Advances(next) && slot <= now && Iterate(next, slot, n) <= now
    ensures Iterate(next, slot, n) <= Newest(next, slot, now) <= now
    decreases now - slot
  {
    if n > 0 {
      ChainAscends(next, next(slot), n - 1);
      NewestIsNewest(next, next(slot), now, n - 1);
    } else if next(slot) <= now {
      NewestIsNewest(next, next(slot), now, 0);
    }
  }

  // ----- schedules that are the slots of a set

  /** `next` skips to the same slot from anywhere in a gap, so jumping is stepping. */
  ghost predicate Consistent(next: int -> int) {
    forall s, t :: s <= t < next(s) ==> next(t) == next(s)
  }

  lemma {:induction false} SteppingIsOneJump(next: int -> int, slot: int, now: int)
    requires Advances(next) && Consistent(next)
    ensures Stepped(next, slot, now) == next(if slot > now then slot else now)
    decreases now - slot
  {
    if next(slot) <= now {
      SteppingIsOneJump(next, next(slot), now);
    } else if slot <= now {
      assert slot <= now < next(slot);
    }
  }

  // ----- interval schedules

  function IntervalNext(every: int): int -> int {
    (slot: int) => slot + every
  }

  /** `IntervalSchedule.advance_past_with_missed`: the slot and how many were missed. */
  function AdvanceInterval(every: int, slot: int, now: int): (int, int)
    requires every > 0
  {
    if now < slot then (slot + every, 0)
    else
      var steps := (now - slot) / every + 1;
      (slot + steps * every, steps - 1)
  }

  lemma OneStepLess(every: int, d: int)
    requires every > 0 && d >= every
    ensures (d - every) / every == d / every - 1
  {
    var q, r := d / every, d % every;
    assert d == every * q + r;
    assert d - every == every * (q - 1) + r;
    QuotientIs(d - every, every, q - 1, r);
  }

  lemma QuotientIs(d: int, every: int, q: int, r: int)
    requires every > 0 && d == every * q + r && 0 <= r < every
    ensures d / every == q
  {
    OneQuotient(every, q, r, d / every, d % every);
  }

  lemma OneQuotient(every: int, q: int, r: int, q': int, r': int)
    requires every > 0 && every * q + r == every * q' + r' && 0 <= r < every && 0 <= r' < every
    ensures q == q'
  {
    Distributes(every, q, q');
    Grows(every, q - q');
    Grows(every, q' - q);
  }

  lemma Distributes(every: int, q: int, q': int)
    ensures every * (q - q') == every * q - every * q' && every * (q' - q) == every * q' - every * q
  {}

  lemma Grows(every: int, k: int)
    requires every > 0
    ensures k >= 1 ==> every * k >= every
  {}

  /** The closed form is the step loop run to its end: the same slot, the same count. */
  lemma {:induction false} ClosedFormIsStepping(every: int, slot: int, now: int)
    requires every > 0
    ensures Advances(IntervalNext(every))
    ensures AdvanceInterval(every, slot, now)
         == (Stepped(IntervalNext(every), slot, now), Swallowed(IntervalNext(every), slot, now))
    decreases now - slot
  {
    var next := IntervalNext(every);
    if slot + every <= now {
      ClosedFormIsStepping(every, slot + every, now);
      OneStepLess(every, now - slot);
      var q := (now - slot) / every;
      assert (slot + every) + q * every == slot + (q + 1) * every;
    } else if slot <= now {
      QuotientIs(now - slot, every, 0, now - slot);
    }
  }

  /** It keeps the phase of the first slot and goes strictly past now by at most one interval. */
  lemma IntervalKeepsItsPhase(every: int, slot: int, now: int)
    requires every > 0
    ensures var (nxt, missed) := AdvanceInterval(every, slot, now);
            && nxt == slot + (missed + 1) * every
            && now < nxt && slot < nxt
            && (slot <= now ==> nxt <= now + every)
  {
    var d := now - slot;
    if d >= 0 {
      assert d == every * (d / every) + d % every;
      assert (d / every + 1) * every == every * (d / every) + every;
    }
  }

  // ----- the skip policy

  /** What beat decides of a due slot. `advanced` is the slot past `now - maxLateness - 1`. */
  predicate Suppressed(skip: bool, maxLateness: Option<nat>, slot: int, now: int, advanced: int) {
    skip && maxLateness.Some? && now - slot > maxLateness.value && advanced > now
  }

  /** A due firing is suppressed iff the newest missed slot, not the due one, is too late. */
  lemma {:induction false} NewestSlotDecides(next: int -> int, slot: int, now: int, skip: bool, maxLateness: Option<nat>)
    requires Advances(next) && slot <= now
    ensures var limit := if maxLateness.Some? then maxLateness.value else 0;
            Suppressed(skip, maxLateness, slot, now, Stepped(next, slot, now - limit - 1))
            <==> skip && maxLateness.Some? && now - Newest(next, slot, now) > maxLateness.value
    decreases now - slot
  {
    var limit := if maxLateness.Some? then maxLateness.value else 0;
    var x := now - limit - 1;
    NewestIsNewest(next, slot, now, 0);
    if slot <= x && next(slot) <= x {
      NewestSlotDecides(next, next(slot), now, skip, maxLateness);
    } else if slot <= x && next(slot) <= now {
      NewestIsNewest(next, slot, now, 1);
      assert Iterate(next, slot, 1) == Iterate(next, next(slot), 0);
    }
  }
}
