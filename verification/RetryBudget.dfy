/**
 How often one task can run. A task is a stream entry per attempt: each entry is executed on its
 first delivery and again on every recovery claim up to the redelivery limit, and each execution
 may land a retry write whether or not its entry is ever acked. Crashes, torn flushes and lost
 acks are runs in which the remaining steps of an entry never happen. The two things that can give
 an attempt more than its share are counted: a mover script cut short between its publish and its
 remove, and a claim of one of the task's entries made from a recovery page that another recoverer
 has overtaken. One such page can make several: it may list several entries, each with its own count.
 */
module RetryBudget {

  /** PROTOCOL section 4.4, for a readable envelope. */
  function RedeliveryLimit(maxRetries: nat): nat {
    if maxRetries + 1 > 3 then maxRetries + 1 else 3
  }

  /** Executions one entry can get: the first delivery and `limit` redeliveries. */
  function PerEntry(maxRetries: nat): nat {
    RedeliveryLimit(maxRetries) + 1
  }

  /** One stream entry: its retry count, its delivery count in the pending list, the executions
      of it that could still land a retry write, and whether one has. */
  datatype Entry = Entry(level: nat, deliveries: nat, running: nat, landed: bool, acked: bool)

  /** `delayed` holds retry counts: the retry writes of one attempt are the same set member. */
  datatype State = State(entries: seq<Entry>, delayed: set<nat>, executions: nat, aborts: nat, races: nat)

  datatype Step =
    | Deliver(i: nat)
    | Recover(i: nat)
    | RacedRecover(i: nat)
    | RetryLands(i: nat)
    | Ends(i: nat)
    | Ack(i: nat)
    | Move(level: nat)
    | MoverAborts(level: nat)

  function Fresh(level: nat): Entry {
    Entry(level, 0, 0, false, false)
  }

  /** Right after the enqueue: in the stream, or `held` back in the delayed set. */
  function Initial(held: bool): State {
    if held then State([], {0}, 0, 0, 0) else State([Fresh(0)], {}, 0, 0, 0)
  }

  function Executed(s: State, i: nat): State
    requires i < |s.entries|
  {
    var e := s.entries[i];
    s.(entries := s.entries[i := e.(deliveries := e.deliveries + 1, running := e.running + 1)],
       executions := s.executions + 1)
  }

  /** Which commands and worker decisions can happen next; each names the entry it acts on. */
  predicate Enabled(maxRetries: nat, s: State, step: Step) {
    match step
    case Deliver(i) => i < |s.entries| && s.entries[i].deliveries == 0
    case Recover(i) => i < |s.entries| && s.entries[i].deliveries > 0 && !s.entries[i].acked
    case RacedRecover(i) => i < |s.entries| && s.entries[i].deliveries > 0 && !s.entries[i].acked
    case RetryLands(i) => i < |s.entries| && s.entries[i].running > 0 && s.entries[i].level < maxRetries
    case Ends(i) => i < |s.entries| && s.entries[i].running > 0
    case Ack(i) => i < |s.entries|
    case Move(level) => level in s.delayed
    case MoverAborts(level) => level in s.delayed
  }

  function Apply(maxRetries: nat, s: State, step: Step): State
    requires Enabled(maxRetries, s, step)
  {
    match step
    case Deliver(i) => Executed(s, i)
    case Recover(i) =>
      // The page was read just before: its delivery count is the entry's. The XCLAIM raises it.
      var e := s.entries[i];
      if e.deliveries > RedeliveryLimit(maxRetries)
      then s.(entries := s.entries[i := e.(deliveries := e.deliveries + 1)])
      else Executed(s, i)
    case RacedRecover(i) =>
      // One entry of a page: others claimed it since the page was read, so that the count listed for
      // it, once within the limit, is stale.
      Executed(s, i).(races := s.races + 1)
    case RetryLands(i) =>
      var e := s.entries[i];
      s.(entries := s.entries[i := e.(running := e.running - 1, landed := true)],
         delayed := s.delayed + {e.level + 1})
    case Ends(i) =>
      s.(entries := s.entries[i := s.entries[i].(running := s.entries[i].running - 1)])
    case Ack(i) => s.(entries := s.entries[i := s.entries[i].(acked := true)])
    case Move(level) =>
      s.(entries := s.entries + [Fresh(level)], delayed := s.delayed - {level})
    case MoverAborts(level) =>
      s.(entries := s.entries + [Fresh(level)], aborts := s.aborts + 1)
  }

  /** The steps lead from `s` to `s'`. */
  predicate Plays(maxRetries: nat, s: State, steps: seq<Step>, s': State)
    decreases |steps|
  {
    if steps == [] then s == s'
    else Enabled(maxRetries, s, steps[0]) && Plays(maxRetries, Apply(maxRetries, s, steps[0]), steps[1..], s')
  }

  lemma {:induction false} PlaysFurther(
    maxRetries: nat, s: State, steps: seq<Step>, m: State, more: seq<Step>, s': State)
    requires Plays(maxRetries, s, steps, m) && Plays(maxRetries, m, more, s')
    ensures Plays(maxRetries, s, steps + more, s')
    decreases |steps|
  {
    if steps == [] {
      assert steps + more == more;
    } else {
      assert (steps + more)[1..] == steps[1..] + more;
      PlaysFurther(maxRetries, Apply(maxRetries, s, steps[0]), steps[1..], m, more, s');
    }
  }

  // ----- the bound

  /** `each` added up `n` times. */
  function Times(n: nat, each: nat): nat {
    if n == 0 then 0 else each + Times(n - 1, each)
  }

  lemma {:induction false} TimesIsAProduct(n: nat, each: nat)
    ensures Times(n, each) == n * each
  {
    if n > 0 {
      TimesIsAProduct(n - 1, each);
      assert n * each == each + (n - 1) * each;
    }
  }

  /** Executions an undelivered entry at `level` can cause, its retries included. */
  function Budget(maxRetries: nat, level: nat): nat
    decreases maxRetries + 1 - level
  {
    if level > maxRetries then 0 else Times(PerEntry(maxRetries), 1 + Budget(maxRetries, level + 1))
  }

  function Unspent(maxRetries: nat, e: Entry): nat {
    var cap := PerEntry(maxRetries);
    if e.deliveries > cap then 0 else cap - e.deliveries
  }

  function EntryPotential(maxRetries: nat, e: Entry): nat {
    var child := Budget(maxRetries, e.level + 1);
    Times(Unspent(maxRetries, e), 1 + child) + Times(e.running, child)
  }

  function EntriesPotential(maxRetries: nat, entries: seq<Entry>): nat {
    if entries == [] then 0
    else EntryPotential(maxRetries, entries[|entries| - 1])
         + EntriesPotential(maxRetries, entries[..|entries| - 1])
  }

  function DelayedPotential(maxRetries: nat, delayed: set<nat>, from: nat): nat
    decreases maxRetries + 1 - from
  {
    if from > maxRetries then 0
    else (if from in delayed then Budget(maxRetries, from) else 0)
         + DelayedPotential(maxRetries, delayed, from + 1)
  }

  lemma {:induction false} PotentialOfUpdate(maxRetries: nat, entries: seq<Entry>, i: nat, e: Entry)
    requires i < |entries|
    ensures EntriesPotential(maxRetries, entries[i := e]) + EntryPotential(maxRetries, entries[i])
         == EntriesPotential(maxRetries, entries) + EntryPotential(maxRetries, e)
  {
    var last := |entries| - 1;
    if i == last {
      assert entries[i := e][..last] == entries[..last];
    } else {
      assert entries[i := e][..last] == entries[..last][i := e];
      PotentialOfUpdate(maxRetries, entries[..last], i, e);
    }
  }

  lemma {:induction false} DelayedAdd(maxRetries: nat, delayed: set<nat>, from: nat, level: nat)
    requires level <= maxRetries
    ensures level !in delayed || level < from ==>
        DelayedPotential(maxRetries, delayed + {level}, from)
        == DelayedPotential(maxRetries, delayed, from) + (if level < from then 0 else Budget(maxRetries, level))
    ensures level in delayed ==> delayed + {level} == delayed
    decreases maxRetries + 1 - from
  {
    if level in delayed { assert delayed + {level} == delayed; }
    if from <= maxRetries {
      DelayedAdd(maxRetries, delayed, from + 1, level);
    }
  }

  /** The lowest retry count a delayed copy can have. */
  function Lowest(held: bool): nat {
    if held then 0 else 1
  }

  /** The first entry's budget, one more per aborted move, one more execution with its retries per
      raced claim. */
  function Allowance(maxRetries: nat, held: bool, aborts: nat, races: nat): nat {
    Budget(maxRetries, 0) + Times(aborts, Budget(maxRetries, Lowest(held))) + Times(races, 1 + Budget(maxRetries, 1))
  }

  /** What has run and what still can, together never above the allowance. */
  predicate Within(maxRetries: nat, held: bool, s: State) {
    && s.executions + EntriesPotential(maxRetries, s.entries) + DelayedPotential(maxRetries, s.delayed, 0)
       <= Allowance(maxRetries, held, s.aborts, s.races)
    && (forall e :: e in s.entries ==> e.level <= maxRetries)
    && (forall level :: level in s.delayed ==> Lowest(held) <= level <= maxRetries)
  }

  lemma {:induction false} BudgetDescends(maxRetries: nat, low: nat, high: nat)
    requires low <= high
    ensures Budget(maxRetries, high) <= Budget(maxRetries, low)
    decreases high - low
  {
    if low < high {
      BudgetDescends(maxRetries, low + 1, high);
      if low <= maxRetries {
        TimesIsAProduct(PerEntry(maxRetries), 1 + Budget(maxRetries, low + 1));
        AtLeastOnce(PerEntry(maxRetries), 1 + Budget(maxRetries, low + 1));
      }
    }
  }

  lemma AtLeastOnce(n: nat, each: nat)
    requires n >= 1
    ensures n * each >= each
  {}

  lemma ExecutingSpends(maxRetries: nat, e: Entry)
    requires e.deliveries < PerEntry(maxRetries)
    ensures EntryPotential(maxRetries, e.(deliveries := e.deliveries + 1, running := e.running + 1)) + 1
         == EntryPotential(maxRetries, e)
  {
    var child := Budget(maxRetries, e.level + 1);
    assert Times(Unspent(maxRetries, e), 1 + child) == 1 + child + Times(Unspent(maxRetries, e) - 1, 1 + child);
    assert Times(e.running + 1, child) == child + Times(e.running, child);
  }

  lemma EndingSpends(maxRetries: nat, e: Entry, e': Entry)
    requires e.running > 0 && e'.running == e.running - 1
    requires e'.level == e.level && e'.deliveries == e.deliveries
    ensures EntryPotential(maxRetries, e') + Budget(maxRetries, e.level + 1) == EntryPotential(maxRetries, e)
  {
    var child := Budget(maxRetries, e.level + 1);
    assert Times(e.running, child) == child + Times(e.running - 1, child);
  }

  lemma MovingSpends(maxRetries: nat, s: State, s': State, level: nat)
    requires level in s.delayed && level <= maxRetries
    requires s' == s.(entries := s.entries + [Fresh(level)], delayed := s.delayed - {level})
    ensures EntriesPotential(maxRetries, s'.entries) + DelayedPotential(maxRetries, s'.delayed, 0)
         == EntriesPotential(maxRetries, s.entries) + DelayedPotential(maxRetries, s.delayed, 0)
  {
    assert s'.entries[..|s.entries|] == s.entries;
    DelayedAdd(maxRetries, s.delayed - {level}, 0, level);
    assert s.delayed - {level} + {level} == s.delayed;
  }

  lemma UpdateStaysWithin(maxRetries: nat, held: bool, s: State, i: nat, e: Entry, s': State, ran: nat)
    requires Within(maxRetries, held, s) && i < |s.entries| && e.level == s.entries[i].level
    requires s' == s.(entries := s.entries[i := e], executions := s.executions + ran)
    requires EntryPotential(maxRetries, e) + ran <= EntryPotential(maxRetries, s.entries[i])
    ensures Within(maxRetries, held, s')
  {
    PotentialOfUpdate(maxRetries, s.entries, i, e);
    assert s.entries[i] in s.entries;
  }

  lemma LandingStaysWithin(maxRetries: nat, held: bool, s: State, i: nat)
    requires Within(maxRetries, held, s) && Enabled(maxRetries, s, RetryLands(i))
    ensures Within(maxRetries, held, Apply(maxRetries, s, RetryLands(i)))
  {
    hide EntryPotential, EntriesPotential, DelayedPotential, Allowance;
    var e := s.entries[i];
    var e' := e.(running := e.running - 1, landed := true);
    PotentialOfUpdate(maxRetries, s.entries, i, e');
    EndingSpends(maxRetries, e, e');
    DelayedAdd(maxRetries, s.delayed, 0, e.level + 1);
    assert e in s.entries;
  }

  lemma ExecutionStaysWithin(maxRetries: nat, held: bool, s: State, i: nat)
    requires Within(maxRetries, held, s) && i < |s.entries| && s.entries[i].deliveries < PerEntry(maxRetries)
    ensures Within(maxRetries, held, Executed(s, i))
  {
    ExecutingSpends(maxRetries, s.entries[i]);
    UpdateStaysWithin(maxRetries, held, s, i, Executed(s, i).entries[i], Executed(s, i), 1);
  }

  lemma EndStaysWithin(maxRetries: nat, held: bool, s: State, i: nat)
    requires Within(maxRetries, held, s) && i < |s.entries| && s.entries[i].running > 0
    ensures Within(maxRetries, held, Apply(maxRetries, s, Ends(i)))
  {
    var s' := Apply(maxRetries, s, Ends(i));
    EndingSpends(maxRetries, s.entries[i], s'.entries[i]);
    UpdateStaysWithin(maxRetries, held, s, i, s'.entries[i], s', 0);
  }

  lemma MoveStaysWithin(maxRetries: nat, held: bool, s: State, level: nat)
    requires Within(maxRetries, held, s) && level in s.delayed
    ensures Within(maxRetries, held, Apply(maxRetries, s, Move(level)))
  {
    MovingSpends(maxRetries, s, Apply(maxRetries, s, Move(level)), level);
  }

  lemma AbortStaysWithin(maxRetries: nat, held: bool, s: State, level: nat)
    requires Within(maxRetries, held, s) && level in s.delayed
    ensures Within(maxRetries, held, Apply(maxRetries, s, MoverAborts(level)))
  {
    hide EntryPotential, DelayedPotential, Budget;
    var s' := Apply(maxRetries, s, MoverAborts(level));
    assert s'.entries[..|s.entries|] == s.entries;
    FreshPotential(maxRetries, level);
    BudgetDescends(maxRetries, Lowest(held), level);
    OneMore(s.aborts, Budget(maxRetries, Lowest(held)));
  }

  lemma OneMore(n: nat, each: nat)
    ensures Times(n + 1, each) == Times(n, each) + each
  {}

  lemma RaceSpends(maxRetries: nat, e: Entry)
    ensures EntryPotential(maxRetries, e.(deliveries := e.deliveries + 1, running := e.running + 1))
         <= EntryPotential(maxRetries, e) + Budget(maxRetries, e.level + 1)
  {
    if e.deliveries < PerEntry(maxRetries) {
      ExecutingSpends(maxRetries, e);
    }
  }

  lemma RaceStaysWithin(maxRetries: nat, held: bool, s: State, i: nat)
    requires Within(maxRetries, held, s) && i < |s.entries|
    ensures Within(maxRetries, held, Executed(s, i).(races := s.races + 1))
  {
    hide EntryPotential, EntriesPotential, DelayedPotential, Budget;
    RaceSpends(maxRetries, s.entries[i]);
    PotentialOfUpdate(maxRetries, s.entries, i, Executed(s, i).entries[i]);
    BudgetDescends(maxRetries, 1, s.entries[i].level + 1);
    assert s.entries[i] in s.entries;
    OneMore(s.races, 1 + Budget(maxRetries, 1));
  }

  lemma StepStaysWithin(maxRetries: nat, held: bool, s: State, step: Step)
    requires Within(maxRetries, held, s) && Enabled(maxRetries, s, step)
    ensures Within(maxRetries, held, Apply(maxRetries, s, step))
  {
    hide Within, Executed;
    var s' := Apply(maxRetries, s, step);
    match step
    case Deliver(i) => ExecutionStaysWithin(maxRetries, held, s, i);
    case Recover(i) =>
      if s.entries[i].deliveries <= RedeliveryLimit(maxRetries) {
        ExecutionStaysWithin(maxRetries, held, s, i);
      } else {
        UpdateStaysWithin(maxRetries, held, s, i, s'.entries[i], s', 0);
      }
    case RacedRecover(i) => RaceStaysWithin(maxRetries, held, s, i);
    case RetryLands(i) => LandingStaysWithin(maxRetries, held, s, i);
    case Ends(i) => EndStaysWithin(maxRetries, held, s, i);
    case Ack(i) => UpdateStaysWithin(maxRetries, held, s, i, s'.entries[i], s', 0);
    case Move(level) => MoveStaysWithin(maxRetries, held, s, level);
    case MoverAborts(level) => AbortStaysWithin(maxRetries, held, s, level);
  }

  lemma InitialIsWithin(maxRetries: nat, held: bool)
    ensures Within(maxRetries, held, Initial(held))
  {
    NothingDelayed(maxRetries, 0);
    NothingDelayed(maxRetries, 1);
    if held {
      DelayedAdd(maxRetries, {}, 0, 0);
      assert {} + {0} == {0};
    } else {
      assert [Fresh(0)][..0] == [];
      FreshPotential(maxRetries, 0);
      assert EntriesPotential(maxRetries, [Fresh(0)]) == EntryPotential(maxRetries, Fresh(0));
    }
  }

  lemma {:induction false} NothingDelayed(maxRetries: nat, from: nat)
    ensures DelayedPotential(maxRetries, {}, from) == 0
    decreases maxRetries + 1 - from
  {
    if from <= maxRetries { NothingDelayed(maxRetries, from + 1); }
  }

  lemma {:induction false} RunStaysWithin(maxRetries: nat, held: bool, s: State, steps: seq<Step>, s': State)
    requires Within(maxRetries, held, s) && Plays(maxRetries, s, steps, s')
    ensures Within(maxRetries, held, s')
    decreases |steps|
  {
    if steps != [] {
      StepStaysWithin(maxRetries, held, s, steps[0]);
      RunStaysWithin(maxRetries, held, Apply(maxRetries, s, steps[0]), steps[1..], s');
    }
  }

  function Pow(base: nat, exponent: nat): nat {
    if exponent == 0 then 1 else base * Pow(base, exponent - 1)
  }

  /** The sum of `base` to the powers 1 to `n`. */
  function PowerSum(base: nat, n: nat): nat {
    if n == 0 then 0 else PowerSum(base, n - 1) + Pow(base, n)
  }

  lemma {:induction false} PowerSumUnrolls(base: nat, n: nat)
    ensures PowerSum(base, n + 1) == base * (1 + PowerSum(base, n))
  {
    if n == 0 {
      assert Pow(base, 1) == base * Pow(base, 0);
    } else {
      PowerSumUnrolls(base, n - 1);
      calc {
        PowerSum(base, n + 1);
        base * (1 + PowerSum(base, n - 1)) + base * Pow(base, n);
        base * (1 + PowerSum(base, n - 1) + Pow(base, n));
        base * (1 + PowerSum(base, n));
      }
    }
  }

  lemma {:induction false} BudgetIsAPowerSum(maxRetries: nat, level: nat)
    requires level <= maxRetries + 1
    ensures Budget(maxRetries, level) == PowerSum(PerEntry(maxRetries), maxRetries + 1 - level)
    decreases maxRetries + 1 - level
  {
    if level <= maxRetries {
      BudgetIsAPowerSum(maxRetries, level + 1);
      PowerSumUnrolls(PerEntry(maxRetries), maxRetries - level);
      TimesIsAProduct(PerEntry(maxRetries), 1 + Budget(maxRetries, level + 1));
    }
  }

  /** The most executions with this many aborted moves and claims from overtaken pages. */
  function Bound(maxRetries: nat, held: bool, aborts: nat, races: nat): nat {
    var cap := if maxRetries <= 2 then 4 else maxRetries + 2;
    PowerSum(cap, maxRetries + 1)
    + aborts * PowerSum(cap, if held then maxRetries + 1 else maxRetries)
    + races * (1 + PowerSum(cap, maxRetries))
  }

  lemma AllowanceIsTheBound(maxRetries: nat, held: bool, aborts: nat, races: nat)
    ensures Allowance(maxRetries, held, aborts, races) == Bound(maxRetries, held, aborts, races)
  {
    BudgetIsAPowerSum(maxRetries, 0);
    BudgetIsAPowerSum(maxRetries, 1);
    TimesIsAProduct(aborts, Budget(maxRetries, Lowest(held)));
    TimesIsAProduct(races, 1 + Budget(maxRetries, 1));
  }

  /** Work terminates: one task is executed at most the sum over its attempts k of (limit + 1) to the
      power k + 1 times, once more over for each mover script cut short, and one execution with all
      its retries more for each claim of an entry from an overtaken recovery page. */
  lemma ExecutionsAreBounded(maxRetries: nat, held: bool, steps: seq<Step>, s: State)
    requires Plays(maxRetries, Initial(held), steps, s)
    ensures s.executions <= Bound(maxRetries, held, s.aborts, s.races)
  {
    InitialIsWithin(maxRetries, held);
    RunStaysWithin(maxRetries, held, Initial(held), steps, s);
    AllowanceIsTheBound(maxRetries, held, s.aborts, s.races);
  }

  // ----- the bound is reached

  /** The next delivery of entry `i` executes it. */
  lemma CanExecute(maxRetries: nat, s: State, i: nat) returns (steps: seq<Step>)
    requires i < |s.entries| && !s.entries[i].acked
    requires s.entries[i].deliveries < PerEntry(maxRetries)
    ensures Plays(maxRetries, s, steps, Executed(s, i))
    ensures EntryPotential(maxRetries, Executed(s, i).entries[i]) + 1 == EntryPotential(maxRetries, s.entries[i])
  {
    steps := [if s.entries[i].deliveries == 0 then Deliver(i) else Recover(i)];
    assert Plays(maxRetries, Executed(s, i), steps[1..], Executed(s, i));
    ExecutingSpends(maxRetries, s.entries[i]);
  }

  /** What a run that uses up entries leaves as it was. */
  predicate SameElsewhere(s: State, s': State, from: nat, to: nat) {
    && s'.delayed == {} && |s.entries| <= |s'.entries| && s'.aborts == s.aborts && s'.races == s.races
    && forall j :: 0 <= j < |s.entries| && !(from <= j < to) ==> s'.entries[j] == s.entries[j]
  }

  /** The running execution of entry `i` lands its retry write and the mover publishes it. */
  lemma CanRetry(maxRetries: nat, s: State, i: nat) returns (steps: seq<Step>, s': State)
    requires i < |s.entries| && s.delayed == {}
    requires s.entries[i].running == 1 && s.entries[i].level < maxRetries
    ensures Plays(maxRetries, s, steps, s') && SameElsewhere(s, s', i, i + 1) && s'.executions == s.executions
    ensures s'.entries == s.entries[i := s.entries[i].(running := 0, landed := true)] + [Fresh(s.entries[i].level + 1)]
  {
    var level := s.entries[i].level + 1;
    var landed := Apply(maxRetries, s, RetryLands(i));
    s' := Apply(maxRetries, landed, Move(level));
    steps := [RetryLands(i), Move(level)];
    assert steps[1..] == [Move(level)];
    assert Plays(maxRetries, s', steps[1..][1..], s');
    assert Plays(maxRetries, landed, steps[1..], s');
  }

  /** What using an entry up leaves: nothing running, and it could still be claimed. */
  predicate UsedUp(e: Entry, e': Entry) {
    e'.level == e.level && e'.running == 0 && !e'.acked
  }

  /** Entry `i` can use up all its deliveries, each execution landing a retry that is published
      and used up in turn. */
  lemma {:induction false} Exhaust(maxRetries: nat, s: State, i: nat) returns (steps: seq<Step>, s': State)
    requires i < |s.entries| && s.delayed == {}
    requires s.entries[i].level <= maxRetries && s.entries[i].running == 0 && !s.entries[i].acked
    requires s.entries[i].deliveries <= PerEntry(maxRetries)
    ensures Plays(maxRetries, s, steps, s') && SameElsewhere(s, s', i, i + 1)
    ensures UsedUp(s.entries[i], s'.entries[i]) && s'.entries[i].deliveries == PerEntry(maxRetries)
    ensures s'.executions == s.executions + EntryPotential(maxRetries, s.entries[i])
    decreases maxRetries - s.entries[i].level, Unspent(maxRetries, s.entries[i])
  {
    if s.entries[i].deliveries == PerEntry(maxRetries) {
      steps, s' := [], s;
    } else {
      var first := CanExecute(maxRetries, s, i);
      var s1 := Executed(s, i);
      var second, s2 := ExhaustChild(maxRetries, s1, i);
      PlaysFurther(maxRetries, s, first, s1, second, s2);
      EndingSpends(maxRetries, s1.entries[i], s2.entries[i]);
      var third;
      third, s' := Exhaust(maxRetries, s2, i);
      PlaysFurther(maxRetries, s, first + second, s2, third, s');
      steps := first + second + third;
    }
  }

  /** The running execution of entry `i` ends; a retry it lands runs its course. */
  lemma {:induction false} ExhaustChild(maxRetries: nat, s: State, i: nat) returns (steps: seq<Step>, s': State)
    requires i < |s.entries| && s.delayed == {}
    requires s.entries[i].level <= maxRetries && s.entries[i].running == 1 && !s.entries[i].acked
    ensures Plays(maxRetries, s, steps, s') && SameElsewhere(s, s', i, i + 1)
    ensures UsedUp(s.entries[i], s'.entries[i]) && s'.entries[i].deliveries == s.entries[i].deliveries
    ensures s'.executions == s.executions + Budget(maxRetries, s.entries[i].level + 1)
    decreases maxRetries - s.entries[i].level, Unspent(maxRetries, s.entries[i]) + 1, 0
  {
    if s.entries[i].level == maxRetries {
      steps, s' := [Ends(i)], Apply(maxRetries, s, Ends(i));
      assert Plays(maxRetries, s', steps[1..], s');
    } else {
      var first, s1 := CanRetry(maxRetries, s, i);
      var second;
      second, s' := Exhaust(maxRetries, s1, |s.entries|);
      PlaysFurther(maxRetries, s, first, s1, second, s');
      steps := first + second;
      FreshPotential(maxRetries, s.entries[i].level + 1);
    }
  }

  lemma FreshPotential(maxRetries: nat, level: nat)
    requires level <= maxRetries
    ensures EntryPotential(maxRetries, Fresh(level)) == Budget(maxRetries, level)
  {}

  /** A delayed copy is published by `aborts` scripts cut short and then by one that is not. */
  lemma {:induction false} PublishOften(maxRetries: nat, s: State, level: nat, aborts: nat)
    returns (steps: seq<Step>, s': State)
    requires s.delayed == {level}
    ensures Plays(maxRetries, s, steps, s')
    ensures |s'.entries| == |s.entries| + aborts + 1 && s.entries <= s'.entries
    ensures forall j :: |s.entries| <= j < |s'.entries| ==> s'.entries[j] == Fresh(level)
    ensures s' == s.(entries := s'.entries, delayed := {}, aborts := s.aborts + aborts)
    decreases aborts
  {
    var step := if aborts == 0 then Move(level) else MoverAborts(level);
    var m := Apply(maxRetries, s, step);
    if aborts == 0 {
      steps, s' := [step], m;
      assert Plays(maxRetries, m, steps[1..], s');
    } else {
      var more;
      more, s' := PublishOften(maxRetries, m, level, aborts - 1);
      steps := [step] + more;
      assert steps[1..] == more;
    }
  }

  /** Fresh entries can be used up one after the other. */
  lemma {:induction false} ExhaustAll(maxRetries: nat, s: State, i: nat, n: nat, level: nat)
    returns (steps: seq<Step>, s': State)
    requires i + n <= |s.entries| && s.delayed == {} && level <= maxRetries
    requires forall j :: i <= j < i + n ==> s.entries[j] == Fresh(level)
    ensures Plays(maxRetries, s, steps, s') && SameElsewhere(s, s', i, i + n)
    ensures s'.executions == s.executions + Times(n, Budget(maxRetries, level))
    ensures n > 0 ==> UsedUp(Fresh(level), s'.entries[i]) && s'.entries[i].deliveries == PerEntry(maxRetries)
    decreases n
  {
    if n == 0 {
      steps, s' := [], s;
    } else {
      var first, m := Exhaust(maxRetries, s, i);
      FreshPotential(maxRetries, level);
      var second;
      second, s' := ExhaustAll(maxRetries, m, i + 1, n - 1, level);
      PlaysFurther(maxRetries, s, first, m, second, s');
      steps := first + second;
    }
  }

  /** An entry of the first attempt can be claimed past its limit any number of times, each time from
      an overtaken page. */
  lemma {:induction false} RaceOften(maxRetries: nat, s: State, i: nat, races: nat)
    returns (steps: seq<Step>, s': State)
    requires i < |s.entries| && s.delayed == {}
    requires s.entries[i].level == 0 && s.entries[i].running == 0 && !s.entries[i].acked && s.entries[i].deliveries > 0
    ensures Plays(maxRetries, s, steps, s') && s'.aborts == s.aborts && s'.races == s.races + races
    ensures s'.executions == s.executions + Times(races, 1 + Budget(maxRetries, 1))
    decreases races
  {
    if races == 0 {
      steps, s' := [], s;
    } else {
      var s1 := Apply(maxRetries, s, RacedRecover(i));
      var first, s2 := ExhaustChild(maxRetries, s1, i);
      var second;
      second, s' := RaceOften(maxRetries, s2, i, races - 1);
      PlaysFurther(maxRetries, s1, first, s2, second, s');
      steps := [RacedRecover(i)] + (first + second);
      assert steps[1..] == first + second;
    }
  }

  /** The entry of a task enqueued at once, its first retry published over and over. */
  lemma AbortsOfAnImmediateTask(maxRetries: nat, aborts: nat) returns (steps: seq<Step>, s: State)
    requires maxRetries >= 1
    ensures Plays(maxRetries, Initial(false), steps, s) && s.delayed == {} && s.entries != []
    ensures UsedUp(Fresh(0), s.entries[0]) && s.entries[0].deliveries > 0 && s.aborts == aborts && s.races == 0
    ensures s.executions == Budget(maxRetries, 0) + Times(aborts, Budget(maxRetries, 1))
  {
    var s0 := Initial(false);
    var s1 := Executed(s0, 0);
    var s2 := Apply(maxRetries, s1, RetryLands(0));
    var first := [Deliver(0), RetryLands(0)];
    assert Plays(maxRetries, s2, first[1..][1..], s2);
    assert Plays(maxRetries, s1, first[1..], s2);
    assert Plays(maxRetries, s0, first, s2);
    var second, s3 := PublishOften(maxRetries, s2, 1, aborts);
    PlaysFurther(maxRetries, s0, first, s2, second, s3);
    var third, s4 := ExhaustAll(maxRetries, s3, 1, aborts + 1, 1);
    PlaysFurther(maxRetries, s0, first + second, s3, third, s4);
    assert s4.entries[0] == s2.entries[0];
    var fourth;
    fourth, s := Exhaust(maxRetries, s4, 0);
    PlaysFurther(maxRetries, s0, first + second + third, s4, fourth, s);
    steps := first + second + third + fourth;
    AfterOneExecution(maxRetries, s4.entries[0], aborts);
  }

  lemma AfterOneExecution(maxRetries: nat, e: Entry, aborts: nat)
    requires e.level == 0 && e.deliveries == 1 && e.running == 0
    ensures 1 + Times(aborts + 1, Budget(maxRetries, 1)) + EntryPotential(maxRetries, e)
         == Budget(maxRetries, 0) + Times(aborts, Budget(maxRetries, 1))
  {
    var child := Budget(maxRetries, 1);
    assert Times(PerEntry(maxRetries), 1 + child) == 1 + child + Times(PerEntry(maxRetries) - 1, 1 + child);
  }

  /** Every abort used up and the first entry still claimable. A task enqueued at once and never
      retried has nothing to move. */
  lemma AbortsAreReached(maxRetries: nat, held: bool, aborts: nat) returns (steps: seq<Step>, s: State)
    ensures Plays(maxRetries, Initial(held), steps, s) && s.delayed == {} && s.entries != []
    ensures UsedUp(Fresh(0), s.entries[0]) && s.entries[0].deliveries > 0 && s.aborts <= aborts && s.races == 0
    ensures s.executions == Allowance(maxRetries, held, aborts, 0)
  {
    if held {
      var publish, p := PublishOften(maxRetries, Initial(true), 0, aborts);
      var exhaust;
      exhaust, s := ExhaustAll(maxRetries, p, 0, aborts + 1, 0);
      PlaysFurther(maxRetries, Initial(true), publish, p, exhaust, s);
      steps := publish + exhaust;
    } else if maxRetries >= 1 {
      steps, s := AbortsOfAnImmediateTask(maxRetries, aborts);
    } else {
      steps, s := Exhaust(maxRetries, Initial(false), 0);
      FreshPotential(maxRetries, 0);
      TimesIsAProduct(aborts, Budget(maxRetries, 1));
    }
  }

  /** For any number of aborts and races some run with no more of either reaches the bound exactly, so
      it cannot be lowered. */
  lemma TheBoundIsReached(maxRetries: nat, held: bool, aborts: nat, races: nat) returns (steps: seq<Step>, s: State)
    ensures Plays(maxRetries, Initial(held), steps, s) && s.aborts <= aborts && s.races <= races
    ensures s.executions == Bound(maxRetries, held, aborts, races)
  {
    hide Plays, Bound, Budget, Initial;
    var first, m := AbortsAreReached(maxRetries, held, aborts);
    var second;
    second, s := RaceOften(maxRetries, m, 0, races);
    PlaysFurther(maxRetries, Initial(held), first, m, second, s);
    steps := first + second;
    AllowanceIsTheBound(maxRetries, held, aborts, races);
  }

  // ----- the documented product

  /** The worst case PROTOCOL section 4 states. */
  function Documented(maxRetries: nat): nat {
    (maxRetries + 1) * (if maxRetries <= 2 then 4 else maxRetries + 2)
  }

  /** Some run with at most so many aborts and races executes the task `n` times. */
  ghost predicate CanRun(maxRetries: nat, held: bool, aborts: nat, races: nat, n: nat) {
    exists steps, s ::
      Plays(maxRetries, Initial(held), steps, s) && s.aborts <= aborts && s.races <= races && s.executions == n
  }

  /** A task exceeds the documented worst case in some run iff it may be retried at all, or an entry
      may be claimed from an overtaken page, or it was held back and a mover script may be cut short. */
  lemma WhenTheDocumentedBoundFails(maxRetries: nat, held: bool, aborts: nat, races: nat)
    ensures (exists n: nat :: n > Documented(maxRetries) && CanRun(maxRetries, held, aborts, races, n))
       <==> maxRetries >= 1 || races >= 1 || (held && aborts >= 1)
  {
    hide Bound, Documented;
    if maxRetries >= 1 || races >= 1 || (held && aborts >= 1) {
      var steps, s := TheBoundIsReached(maxRetries, held, aborts, races);
      BoundExceedsProduct(maxRetries, held, aborts, races);
      assert CanRun(maxRetries, held, aborts, races, s.executions);
    } else {
      forall n: nat | CanRun(maxRetries, held, aborts, races, n) ensures n <= Documented(maxRetries) {
        var steps, s :|
          Plays(maxRetries, Initial(held), steps, s) && s.aborts <= aborts && s.races <= races && s.executions == n;
        ExecutionsAreBounded(maxRetries, held, steps, s);
        BoundIsTheProduct(held, s.aborts);
      }
    }
  }

  lemma OnePower(base: nat)
    ensures PowerSum(base, 0) == 0 && PowerSum(base, 1) == base
  {
    assert Pow(base, 1) == base * Pow(base, 0);
  }

  lemma BoundIsTheProduct(held: bool, aborts: nat)
    requires held ==> aborts == 0
    ensures Bound(0, held, aborts, 0) == Documented(0)
  {
    OnePower(PerEntry(0));
  }

  lemma BoundExceedsProduct(maxRetries: nat, held: bool, aborts: nat, races: nat)
    requires maxRetries >= 1 || races >= 1 || (held && aborts >= 1)
    ensures Bound(maxRetries, held, aborts, races) > Documented(maxRetries)
  {
    var cap := PerEntry(maxRetries);
    PowerSumUnrolls(cap, maxRetries);
    if maxRetries >= 1 {
      PowerSumIsAtLeast(cap, maxRetries);
      SumExceedsProduct(cap, maxRetries, PowerSum(cap, maxRetries));
    }
    OnePower(cap);
    var extra := aborts * PowerSum(cap, if held then maxRetries + 1 else maxRetries);
    var raced := races * (1 + PowerSum(cap, maxRetries));
    if races >= 1 { AtLeastOnce(races, 1 + PowerSum(cap, maxRetries)); }
    if aborts >= 1 { AtLeastOnce(aborts, PowerSum(cap, if held then maxRetries + 1 else maxRetries)); }
    assert extra >= 0 && raced >= 0;
  }

  /** A countdown task that may not even be retried, moved by a script that is cut short once, runs
      twice as often as documented. */
  lemma OneCutScriptDoublesTheDocumentedBound() returns (steps: seq<Step>, s: State)
    ensures Plays(0, Initial(true), steps, s) && s.aborts <= 1 && s.races == 0
    ensures s.executions == 8 && Documented(0) == 4
  {
    steps, s := TheBoundIsReached(0, true, 1, 0);
    OnePower(4);
  }

  lemma SumExceedsProduct(cap: nat, maxRetries: nat, sum: nat)
    requires cap >= maxRetries + 2 && sum >= cap
    ensures cap * (1 + sum) > (maxRetries + 1) * cap
  {
    assert cap * (1 + sum) == (maxRetries + 1) * cap + cap * (sum - maxRetries);
    assert sum - maxRetries >= 1;
  }

  lemma {:induction false} PowerSumIsAtLeast(base: nat, n: nat)
    requires n >= 1
    ensures PowerSum(base, n) >= base
  {
    if n == 1 {
      assert Pow(base, 1) == base * Pow(base, 0);
    } else {
      PowerSumIsAtLeast(base, n - 1);
    }
  }

  // ----- when the documented product does hold

  /** No entry lands a second retry write, as when no ack is lost after its retry write landed; no
      mover script is cut short; no entry is claimed from an overtaken recovery page. */
  predicate Clean(maxRetries: nat, s: State, steps: seq<Step>)
    decreases |steps|
  {
    steps == [] ||
    (Enabled(maxRetries, s, steps[0]) ==>
       && IsClean(s, steps[0])
       && Clean(maxRetries, Apply(maxRetries, s, steps[0]), steps[1..]))
  }

  predicate IsClean(s: State, step: Step) {
    && !step.MoverAborts? && !step.RacedRecover?
    && (step.RetryLands? ==> step.i < |s.entries| && !s.entries[step.i].landed)
  }

  function CleanPotential(maxRetries: nat, e: Entry): nat {
    Unspent(maxRetries, e)
    + if e.landed || e.level >= maxRetries then 0 else Times(maxRetries - e.level, PerEntry(maxRetries))
  }

  function CleanEntries(maxRetries: nat, entries: seq<Entry>): nat {
    if entries == [] then 0
    else CleanPotential(maxRetries, entries[|entries| - 1])
         + CleanEntries(maxRetries, entries[..|entries| - 1])
  }

  function CleanDelayed(maxRetries: nat, delayed: set<nat>, from: nat): nat
    decreases maxRetries + 1 - from
  {
    if from > maxRetries then 0
    else (if from in delayed then Times(maxRetries + 1 - from, PerEntry(maxRetries)) else 0)
         + CleanDelayed(maxRetries, delayed, from + 1)
  }

  lemma {:induction false} CleanUpdate(maxRetries: nat, entries: seq<Entry>, i: nat, e: Entry)
    requires i < |entries|
    ensures CleanEntries(maxRetries, entries[i := e]) + CleanPotential(maxRetries, entries[i])
         == CleanEntries(maxRetries, entries) + CleanPotential(maxRetries, e)
  {
    var last := |entries| - 1;
    if i == last {
      assert entries[i := e][..last] == entries[..last];
    } else {
      assert entries[i := e][..last] == entries[..last][i := e];
      CleanUpdate(maxRetries, entries[..last], i, e);
    }
  }

  lemma {:induction false} CleanDelayedAdd(maxRetries: nat, delayed: set<nat>, from: nat, level: nat)
    requires level <= maxRetries
    ensures level !in delayed || level < from ==>
        CleanDelayed(maxRetries, delayed + {level}, from)
        == CleanDelayed(maxRetries, delayed, from)
           + (if level < from then 0 else Times(maxRetries + 1 - level, PerEntry(maxRetries)))
    ensures level in delayed ==> delayed + {level} == delayed
    decreases maxRetries + 1 - from
  {
    if level in delayed { assert delayed + {level} == delayed; }
    if from <= maxRetries {
      CleanDelayedAdd(maxRetries, delayed, from + 1, level);
    }
  }

  predicate CleanWithin(maxRetries: nat, s: State) {
    && s.executions + CleanEntries(maxRetries, s.entries) + CleanDelayed(maxRetries, s.delayed, 0)
       <= Documented(maxRetries)
    && (forall level :: level in s.delayed ==> level <= maxRetries)
  }

  lemma CleanMove(maxRetries: nat, s: State, level: nat)
    requires CleanWithin(maxRetries, s) && level in s.delayed
    ensures CleanWithin(maxRetries, Apply(maxRetries, s, Move(level)))
  {
    var s' := Apply(maxRetries, s, Move(level));
    assert s'.entries[..|s.entries|] == s.entries;
    CleanDelayedAdd(maxRetries, s.delayed - {level}, 0, level);
    assert s.delayed - {level} + {level} == s.delayed;
  }

  lemma CleanLanding(maxRetries: nat, s: State, i: nat)
    requires CleanWithin(maxRetries, s) && Enabled(maxRetries, s, RetryLands(i)) && !s.entries[i].landed
    ensures CleanWithin(maxRetries, Apply(maxRetries, s, RetryLands(i)))
  {
    CleanUpdate(maxRetries, s.entries, i, Apply(maxRetries, s, RetryLands(i)).entries[i]);
    CleanDelayedAdd(maxRetries, s.delayed, 0, s.entries[i].level + 1);
  }

  /** A step that leaves the delayed set alone and pays for its execution out of its entry. */
  lemma CleanElsewhere(maxRetries: nat, s: State, i: nat, e: Entry, s': State)
    requires CleanWithin(maxRetries, s) && i < |s.entries| && s.executions <= s'.executions
    requires s'.entries == s.entries[i := e] && s'.delayed == s.delayed
    requires s'.executions + CleanPotential(maxRetries, e) <= s.executions + CleanPotential(maxRetries, s.entries[i])
    ensures CleanWithin(maxRetries, s')
  {
    hide CleanPotential;
    CleanUpdate(maxRetries, s.entries, i, e);
  }

  lemma CleanStep(maxRetries: nat, s: State, step: Step)
    requires CleanWithin(maxRetries, s) && Enabled(maxRetries, s, step)
    requires IsClean(s, step)
    ensures CleanWithin(maxRetries, Apply(maxRetries, s, step))
  {
    hide CleanWithin;
    var s' := Apply(maxRetries, s, step);
    match step
    case Move(level) => CleanMove(maxRetries, s, level);
    case RetryLands(i) => CleanLanding(maxRetries, s, i);
    case Deliver(i) => CleanElsewhere(maxRetries, s, i, s'.entries[i], s');
    case Recover(i) => CleanElsewhere(maxRetries, s, i, s'.entries[i], s');
    case Ends(i) => CleanElsewhere(maxRetries, s, i, s'.entries[i], s');
    case Ack(i) => CleanElsewhere(maxRetries, s, i, s'.entries[i], s');
    case RacedRecover(_) =>
    case MoverAborts(_) =>
  }

  lemma {:induction false} CleanRunStaysWithin(maxRetries: nat, s: State, steps: seq<Step>, s': State)
    requires CleanWithin(maxRetries, s) && Plays(maxRetries, s, steps, s') && Clean(maxRetries, s, steps)
    ensures CleanWithin(maxRetries, s')
    decreases |steps|
  {
    if steps != [] {
      CleanStep(maxRetries, s, steps[0]);
      CleanRunStaysWithin(maxRetries, Apply(maxRetries, s, steps[0]), steps[1..], s');
    }
  }

  /** Clean runs keep to the documented worst case. */
  lemma CleanRunsMeetTheDocumentedBound(maxRetries: nat, held: bool, steps: seq<Step>, s: State)
    requires Plays(maxRetries, Initial(held), steps, s) && Clean(maxRetries, Initial(held), steps)
    ensures s.executions <= Documented(maxRetries)
  {
    InitialIsCleanWithin(maxRetries, held);
    CleanRunStaysWithin(maxRetries, Initial(held), steps, s);
  }

  lemma InitialIsCleanWithin(maxRetries: nat, held: bool)
    ensures CleanWithin(maxRetries, Initial(held))
  {
    NothingCleanDelayed(maxRetries, 0);
    TimesIsAProduct(maxRetries, PerEntry(maxRetries));
    TimesIsAProduct(maxRetries + 1, PerEntry(maxRetries));
    assert maxRetries * PerEntry(maxRetries) + PerEntry(maxRetries) == (maxRetries + 1) * PerEntry(maxRetries);
    if held {
      CleanDelayedAdd(maxRetries, {}, 0, 0);
      assert {} + {0} == {0};
    } else {
      assert [Fresh(0)][..0] == [];
      assert CleanEntries(maxRetries, [Fresh(0)]) == CleanPotential(maxRetries, Fresh(0));
    }
  }

  lemma {:induction false} NothingCleanDelayed(maxRetries: nat, from: nat)
    ensures CleanDelayed(maxRetries, {}, from) == 0
    decreases maxRetries + 1 - from
  {
    if from <= maxRetries { NothingCleanDelayed(maxRetries, from + 1); }
  }
}
