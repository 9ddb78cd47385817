/**
 The async lane's submission queue: a worker thread appends to a loop's pending list and wakes the
 loop only if the list was empty; the loop drains the whole list in one turn.
 */
module AsyncSubmit {
  type Token = nat

  // ----- the list behind its lock

  /** What a submission makes of the list, whether it is accepted, and whether the loop has to be
      woken. */
  function Submitted(queue: seq<Token>, t: Token, cap: nat): (seq<Token>, bool, bool) {
    if |queue| >= cap then (queue, false, false) else (queue + [t], true, queue == [])
  }

  class Pending {
    var queue: seq<Token>
    var warned: bool
    var submitted: nat
    const cap: nat

    constructor (cap: nat)
      ensures queue == [] && !warned && submitted == 0 && this.cap == cap
    {
      queue, warned, submitted, this.cap := [], false, 0, cap;
    }

    /** Appends unless the cap is reached, and says whether the loop has to be woken. */
    method Submit(t: Token) returns (accepted: bool, wake: bool)
      modifies this
      ensures (queue, accepted, wake) == Submitted(old(queue), t, cap)
      ensures accepted <==> |old(queue)| < cap
      ensures queue == if accepted then old(queue) + [t] else old(queue)
      ensures wake <==> accepted && old(queue) == []
      ensures submitted == old(submitted) + if accepted then 1 else 0
      ensures warned == (old(warned) || !accepted)
    {
      if |queue| >= cap {
        if !warned {
          warned := true;
        }
        return false, false;
      }
      queue := queue + [t];
      submitted := submitted + 1;
      return true, |queue| == 1;
    }

    /** Takes everything, oldest first. */
    method Drain() returns (batch: seq<Token>)
      modifies this`queue
      ensures batch == old(queue) && queue == []
    {
      batch := queue;
      queue := [];
    }
  }

  // ----- one loop among any number of submitters

  /** `waking` counts submitters that left the lock and have yet to schedule the drain, `scheduled`
      the drains the loop has yet to run, `batch` what the running drain has yet to start. */
  datatype System = System(
    cap: nat,
    queue: seq<Token>,
    waking: nat,
    scheduled: nat,
    batch: seq<Token>,
    started: seq<Token>,
    accepted: seq<Token>)

  datatype Event = Submit(t: Token) | Wake | Drain | Start

  function Init(cap: nat): System {
    System(cap, [], 0, 0, [], [], [])
  }

  predicate Enabled(s: System, e: Event) {
    match e
    case Submit(_) => true
    case Wake => s.waking > 0
    case Drain => s.scheduled > 0 && s.batch == []
    case Start => s.batch != []
  }

  function Apply(s: System, e: Event): System
    requires Enabled(s, e)
  {
    match e
    case Submit(t) =>
      var (queue, accepted, wake) := Submitted(s.queue, t, s.cap);
      s.(queue := queue, accepted := if accepted then s.accepted + [t] else s.accepted,
         waking := s.waking + if wake then 1 else 0)
    case Wake => s.(waking := s.waking - 1, scheduled := s.scheduled + 1)
    case Drain => s.(scheduled := s.scheduled - 1, batch := s.queue, queue := [])
    case Start => s.(batch := s.batch[1..], started := s.started + [s.batch[0]])
  }

  predicate Plays(s: System, run: seq<Event>)
    decreases |run|
  {
    run == [] || (Enabled(s, run[0]) && Plays(Apply(s, run[0]), run[1..]))
  }

  function After(s: System, run: seq<Event>): System
    requires Plays(s, run)
    decreases |run|
  {
    if run == [] then s else After(Apply(s, run[0]), run[1..])
  }

  /** One wakeup is on its way exactly while something waits, and every accepted task is started,
      about to be, or waiting, in the order of acceptance. */
  predicate Inv(s: System) {
    && s.waking + s.scheduled == (if s.queue == [] then 0 else 1)
    && |s.queue| <= s.cap
    && s.accepted == s.started + s.batch + s.queue
  }

  lemma InvKept(s: System, e: Event)
    requires Inv(s) && Enabled(s, e)
    ensures Inv(Apply(s, e))
  {
    match e
    case Submit(t) =>
      assert s.accepted + [t] == s.started + s.batch + (s.queue + [t]);
    case Wake =>
    case Drain =>
      assert s.started + s.batch + s.queue == s.started + s.queue + [];
    case Start =>
      assert s.batch == [s.batch[0]] + s.batch[1..];
      assert s.started + s.batch == s.started + [s.batch[0]] + s.batch[1..];
  }

  lemma {:induction false} InvAlways(s: System, run: seq<Event>)
    requires Inv(s) && Plays(s, run)
    ensures Inv(After(s, run)) && After(s, run).cap == s.cap
    decreases |run|
  {
    if run != [] {
      InvKept(s, run[0]);
      InvAlways(Apply(s, run[0]), run[1..]);
    }
  }

  /** A list with room accepts, and only a full one refuses; then nothing changes. The loop is woken iff
      the list was empty. */
  lemma RoomAccepts(s: System, t: Token)
    ensures Enabled(s, Submit(t))
    ensures var s' := Apply(s, Submit(t));
            if |s.queue| < s.cap then
              s' == s.(queue := s.queue + [t], accepted := s.accepted + [t],
                       waking := s.waking + if s.queue == [] then 1 else 0)
            else
              s' == s
  {}

  /** In every run: tasks start in the order of acceptance and each once, the list never outgrows
      its cap, and no task waits without a wakeup on its way. There is never a second one, nor one
      for an empty list. */
  lemma NoSubmissionIsStranded(cap: nat, run: seq<Event>)
    requires Plays(Init(cap), run)
    ensures var s := After(Init(cap), run);
            && s.started <= s.accepted
            && |s.queue| <= cap
            && s.waking + s.scheduled <= 1
            && (s.queue != [] <==> s.waking + s.scheduled > 0)
            && (s.waking + s.scheduled == 0 && s.batch == [] <==> s.started == s.accepted)
  {
    InvAlways(Init(cap), run);
    StartedSoFar(After(Init(cap), run));
  }

  lemma StartedSoFar(s: System)
    requires Inv(s)
    ensures s.started <= s.accepted
    ensures s.waking + s.scheduled == 0 && s.batch == [] <==> s.started == s.accepted
  {
    assert s.accepted == s.started + (s.batch + s.queue);
  }

  /** The loop's own steps, with no further submission, that start all of `batch`. */
  function Starts(n: nat): seq<Event> {
    if n == 0 then [] else [Start] + Starts(n - 1)
  }

  lemma {:induction false} StartsPlay(s: System, rest: seq<Event>)
    requires Plays(s.(batch := [], started := s.started + s.batch), rest)
    ensures Plays(s, Starts(|s.batch|) + rest)
    ensures After(s, Starts(|s.batch|) + rest) == After(s.(batch := [], started := s.started + s.batch), rest)
    decreases |s.batch|
  {
    var run := Starts(|s.batch|) + rest;
    if s.batch == [] {
      assert run == rest && s.started + s.batch == s.started;
    } else {
      var s' := Apply(s, Start);
      assert s'.started + s'.batch == s.started + s.batch;
      assert run[0] == Start && run[1..] == Starts(|s'.batch|) + rest;
      StartsPlay(s', rest);
    }
  }

  /** What the waker and the loop still do in `s`: the batch in hand, the wakeup, one drain. */
  function ToCompletion(s: System): seq<Event> {
    Starts(|s.batch|)
    + (if s.queue == [] then [] else (if s.waking > 0 then [Wake] else []) + [Drain] + Starts(|s.queue|))
  }

  /** From any reachable state the steps already under way start every accepted task, with no new
      submission needed to set the loop going. */
  lemma EveryAcceptedTaskStarts(cap: nat, run: seq<Event>)
    requires Plays(Init(cap), run)
    ensures var s := After(Init(cap), run);
            Plays(s, ToCompletion(s)) && After(s, ToCompletion(s)).started == s.accepted
  {
    InvAlways(Init(cap), run);
    var s := After(Init(cap), run);
    var idle := s.(batch := [], started := s.started + s.batch);
    if s.queue == [] {
      StartsPlay(s, []);
    } else {
      WakeDrainStart(idle);
      var wake := if s.waking > 0 then [Wake] else [];
      StartsPlay(s, wake + [Drain] + Starts(|s.queue|));
    }
  }

  lemma WakeDrainStart(s: System)
    requires Inv(s) && s.batch == [] && s.queue != []
    ensures var run := (if s.waking > 0 then [Wake] else []) + [Drain] + Starts(|s.queue|);
            Plays(s, run) && After(s, run).started == s.accepted
  {
    var awake := if s.waking > 0 then Apply(s, Wake) else s;
    var drained := Apply(awake, Drain);
    var starts := Starts(|s.queue|);
    assert starts + [] == starts;
    StartsPlay(drained, []);
    assert s.started + s.batch + s.queue == s.started + s.queue;
    var fromDrain := [Drain] + starts;
    assert fromDrain[1..] == starts;
    assert Plays(awake, fromDrain);
    if s.waking > 0 {
      assert [Wake] + [Drain] + starts == [Wake] + fromDrain;
      assert ([Wake] + fromDrain)[1..] == fromDrain;
    } else {
      assert [] + [Drain] + starts == fromDrain;
    }
  }
}
