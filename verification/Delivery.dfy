/**
 At-least-once delivery over one queue: the ready stream and its consumer group, the delayed
 set, the completion flushes, the delayed mover, the recovery claim and the trim, as one state
 machine. Every Redis command is its own step, so a crash or a lost connection between any two
 commands is a run in which the later one never happens.

 Some fields only record the past: `log` (every entry ever added), `enqueued`, `top` (the highest
 retry count ever written for a task), `settled` (tasks with a terminal write), and of these `dead`
 (dead lettered ones) and `results` (ones with a stored result).
 */
module Delivery {
  import opened Options
  import opened StreamIds

  type TaskId = nat

  datatype Envelope = Envelope(task: TaskId, retries: nat, maxRetries: nat, storeResult: bool)

  /** What the worker decided about one delivered entry. `NeverRan` covers the malformed,
      unregistered, expired and redelivery-limit dead letters. */
  datatype Outcome =
    | Success
    | Duplicate
    | ForceRetry
    | Failure(retryable: bool)
    | NeverRan(writeResult: bool)

  /** One command of a completion's own writes. */
  datatype Write =
    | SetResult
    | ZaddRetry(next: Envelope)
    | DlqAdd
    | DlqExpire

  /** A buffered completion: the writes Redis has not executed yet, and whether it refused one. */
  datatype Req = Req(id: Id, env: Envelope, left: set<Write>, refused: bool)

  /** A flush is first answered write by write, then acks, then deletes what it acked. */
  datatype Flush =
    | Writing(reqs: seq<Req>)
    | Acked(ids: set<Id>)

  /** A trimmer between its reads. `trimmedTo` is the boundary of its last landed XTRIM. */
  datatype Trimmer =
    | Idle(trimmedTo: Option<Id>)
    | SawDelivered(lastDelivered: Id, trimmedTo: Option<Id>)
    | Bounded(boundary: Id, trimmedTo: Option<Id>)

  datatype State = State(
    stream: map<Id, Envelope>,
    lastId: Id,
    lastDelivered: Id,
    pel: set<Id>,
    delayed: set<Envelope>,
    moving: Option<Envelope>,
    settled: set<TaskId>,
    handed: set<(Id, Envelope)>,
    flushes: map<nat, Flush>,
    trimmers: map<nat, Trimmer>,
    log: map<Id, Envelope>,
    enqueued: set<TaskId>,
    top: map<TaskId, nat>,
    dead: set<TaskId>,
    results: set<TaskId>)

  const EMPTY: State := State(map[], ZERO, ZERO, {}, {}, None, {}, {}, map[], map[], map[], {}, map[], {}, {})

  predicate Init(s: State) {
    s == EMPTY
  }

  // ----- the steps

  datatype Step =
    | Enqueue(env: Envelope, id: Id)
    | EnqueueDelayed(env: Envelope)
    | Deliver(id: Id)
    | Claim(id: Id)
    | Finish(id: Id, env: Envelope, outcome: Outcome, flush: nat)
    | WriteLands(flush: nat, req: nat, write: Write)
    | WriteRefused(flush: nat, req: nat, write: Write)
    | Ack(flush: nat)
    | Delete(flush: nat)
    | Torn(flush: nat)
    | MoverAdd(env: Envelope, id: Id)
    | MoverRemove
    | MoverAbort
    | TrimReadDelivered(trimmer: nat)
    | TrimReadPending(trimmer: nat)
    | Trim(trimmer: nat)
    | TrimUnheard(trimmer: nat)
    | TrimGiveUp(trimmer: nat)

  /** The retry or dead-letter decision of `dispatch::finish`, as the writes it submits. */
  function OwnWrites(env: Envelope, outcome: Outcome): set<Write> {
    var result := if env.storeResult then {SetResult} else {};
    var deadLetter := {DlqAdd, DlqExpire} + result;
    var retry := {ZaddRetry(env.(retries := env.retries + 1))};
    match outcome
    case Success => result
    case Duplicate => result
    case ForceRetry => if env.retries < env.maxRetries then retry else deadLetter
    case Failure(retryable) => if retryable && env.retries < env.maxRetries then retry else deadLetter
    case NeverRan(writeResult) => {DlqAdd, DlqExpire} + (if writeResult then {SetResult} else {})
  }

  /** The entries one XACK names: every own write answered, none refused. */
  function Ready(reqs: seq<Req>): set<Id> {
    set r | r in reqs && r.left == {} && !r.refused :: r.id
  }

  predicate Undelivered(s: State, id: Id) {
    id in s.stream && Less(s.lastDelivered, id)
  }

  function Added(s: State, id: Id, env: Envelope): State {
    s.(stream := s.stream[id := env], lastId := id, log := s.log[id := env])
  }

  function Enqueued(s: State, env: Envelope): State {
    s.(enqueued := s.enqueued + {env.task}, top := s.top[env.task := env.retries])
  }

  predicate HasReq(s: State, f: nat, i: nat, w: Write) {
    && f in s.flushes && s.flushes[f].Writing? && i < |s.flushes[f].reqs|
    && w in s.flushes[f].reqs[i].left
  }

  function Answered(s: State, f: nat, i: nat, w: Write, refused: bool): State
    requires HasReq(s, f, i, w)
  {
    var reqs := s.flushes[f].reqs;
    var r := reqs[i];
    s.(flushes := s.flushes[f := Writing(reqs[i := r.(left := r.left - {w}, refused := r.refused || refused)])])
  }

  function Landed(s: State, task: TaskId, w: Write): State {
    match w
    case SetResult => s.(settled := s.settled + {task}, results := s.results + {task})
    case DlqAdd => s.(settled := s.settled + {task}, dead := s.dead + {task})
    case DlqExpire => s
    case ZaddRetry(e) =>
      var seen := if e.task in s.top && s.top[e.task] > e.retries then s.top[e.task] else e.retries;
      s.(delayed := s.delayed + {e}, top := s.top[e.task := seen])
  }

  /** `acked_below` once both reads are in. */
  ghost function Boundary(lastDelivered: Id, pel: set<Id>): Option<Id> {
    if pel != {} then Some(Oldest(pel))
    else if lastDelivered == ZERO then None
    else Some(After(lastDelivered))
  }

  // ----- what each step does, ids and replies chosen by Redis

  /** XADD by a client. */
  predicate Enqueues(s: State, env: Envelope, id: Id, s': State) {
    && env.task !in s.enqueued && env.retries == 0 && Less(s.lastId, id)
    && s' == Enqueued(Added(s, id, env), env)
  }

  /** ZADD by a client, for a countdown or an eta. */
  predicate EnqueuesDelayed(s: State, env: Envelope, s': State) {
    && env.task !in s.enqueued && env.retries == 0
    && s' == Enqueued(s.(delayed := s.delayed + {env}), env)
  }

  /** XREADGROUP `>`: the oldest undelivered entry, into the pending list. */
  ghost predicate Delivers(s: State, id: Id, s': State) {
    && Undelivered(s, id)
    && (forall other :: Undelivered(s, other) ==> AtMost(id, other))
    && s' == s.(lastDelivered := id, pel := s.pel + {id}, handed := s.handed + {(id, s.stream[id])})
  }

  /** XCLAIM of a pending entry. One whose payload is gone leaves the pending list unclaimed. */
  predicate Claims(s: State, id: Id, s': State) {
    && id in s.pel
    && s' == if id in s.stream then s.(handed := s.handed + {(id, s.stream[id])})
             else s.(pel := s.pel - {id})
  }

  /** A worker holding an entry decides its outcome and joins a flush still being written. */
  predicate Finishes(s: State, id: Id, env: Envelope, outcome: Outcome, f: nat, s': State) {
    && (id, env) in s.handed
    && (f in s.flushes ==> s.flushes[f].Writing?)
    && var own := OwnWrites(env, outcome);
       var reqs := (if f in s.flushes then s.flushes[f].reqs else []) + [Req(id, env, own, false)];
       s' == s.(flushes := s.flushes[f := Writing(reqs)],
                settled := if own == {} then s.settled + {env.task} else s.settled)
  }

  predicate WriteLandsOn(s: State, f: nat, i: nat, w: Write, s': State) {
    && HasReq(s, f, i, w)
    && s' == Landed(Answered(s, f, i, w, false), s.flushes[f].reqs[i].env.task, w)
  }

  predicate WriteIsRefused(s: State, f: nat, i: nat, w: Write, s': State) {
    HasReq(s, f, i, w) && s' == Answered(s, f, i, w, true)
  }

  /** XACK of the written entries of a flush. */
  predicate Acks(s: State, f: nat, s': State) {
    && f in s.flushes && s.flushes[f].Writing?
    && var ids := Ready(s.flushes[f].reqs);
       s' == s.(pel := s.pel - ids, flushes := s.flushes[f := Acked(ids)])
  }

  /** XDEL of the entries just acked. */
  predicate Deletes(s: State, f: nat, s': State) {
    && f in s.flushes && s.flushes[f].Acked?
    && s' == s.(stream := s.stream - s.flushes[f].ids, flushes := s.flushes - {f})
  }

  /** The flush stops here: a crash, or a connection lost in either round trip. */
  predicate IsTorn(s: State, f: nat, s': State) {
    f in s.flushes && s' == s.(flushes := s.flushes - {f})
  }

  /** The mover script publishes one due entry. */
  predicate MoverAdds(s: State, env: Envelope, id: Id, s': State) {
    && s.moving.None? && env in s.delayed && Less(s.lastId, id)
    && s' == Added(s, id, env).(moving := Some(env))
  }

  /** It then removes that entry from the delayed set. */
  predicate MoverRemoves(s: State, s': State) {
    s.moving.Some? && s' == s.(delayed := s.delayed - {s.moving.value}, moving := None)
  }

  /** The script fails between its two writes; the first is not rolled back. */
  predicate MoverAborts(s: State, s': State) {
    s.moving.Some? && s' == s.(moving := None)
  }

  /** XINFO GROUPS, the first read of `acked_below`. */
  predicate TrimmerReadsDelivered(s: State, t: nat, s': State) {
    && (t in s.trimmers ==> s.trimmers[t].Idle?)
    && var to := if t in s.trimmers then s.trimmers[t].trimmedTo else None;
       s' == s.(trimmers := s.trimmers[t := SawDelivered(s.lastDelivered, to)])
  }

  /** XPENDING, the second read. An unchanged boundary is skipped. */
  ghost predicate TrimmerReadsPending(s: State, t: nat, s': State) {
    && t in s.trimmers && s.trimmers[t].SawDelivered?
    && var to := s.trimmers[t].trimmedTo;
       var boundary := Boundary(s.trimmers[t].lastDelivered, s.pel);
       var next := if boundary.None? || boundary == to then Idle(to) else Bounded(boundary.value, to);
       s' == s.(trimmers := s.trimmers[t := next])
  }

  predicate Trims(s: State, t: nat, s': State) {
    && t in s.trimmers && s.trimmers[t].Bounded?
    && var b := s.trimmers[t].boundary;
       s' == s.(stream := Trimmed(s.stream, b), trimmers := s.trimmers[t := Idle(Some(b))])
  }

  /** The XTRIM lands but its answer is lost, so the boundary is not remembered. */
  predicate TrimsUnheard(s: State, t: nat, s': State) {
    && t in s.trimmers && s.trimmers[t].Bounded?
    && s' == s.(stream := Trimmed(s.stream, s.trimmers[t].boundary),
                trimmers := s.trimmers[t := Idle(s.trimmers[t].trimmedTo)])
  }

  /** A read or the XTRIM fails: the trimmer waits for its next tick with the boundary it had. */
  predicate TrimmerGivesUp(s: State, t: nat, s': State) {
    && t in s.trimmers && !s.trimmers[t].Idle?
    && s' == s.(trimmers := s.trimmers[t := Idle(s.trimmers[t].trimmedTo)])
  }

  /** XTRIM MINID: every id strictly below the boundary goes. */
  function Trimmed(stream: map<Id, Envelope>, boundary: Id): map<Id, Envelope> {
    map id | id in stream && AtMost(boundary, id) :: stream[id]
  }

  /** The mover script is atomic to every other client, so while it is between its XADD and its
      ZREM only it can move. */
  ghost predicate StepOf(s: State, step: Step, s': State) {
    && (s.moving.Some? ==> step.MoverRemove? || step.MoverAbort?)
    && match step
       case Enqueue(env, id) => Enqueues(s, env, id, s')
       case EnqueueDelayed(env) => EnqueuesDelayed(s, env, s')
       case Deliver(id) => Delivers(s, id, s')
       case Claim(id) => Claims(s, id, s')
       case Finish(id, env, outcome, f) => Finishes(s, id, env, outcome, f, s')
       case WriteLands(f, i, w) => WriteLandsOn(s, f, i, w, s')
       case WriteRefused(f, i, w) => WriteIsRefused(s, f, i, w, s')
       case Ack(f) => Acks(s, f, s')
       case Delete(f) => Deletes(s, f, s')
       case Torn(f) => IsTorn(s, f, s')
       case MoverAdd(env, id) => MoverAdds(s, env, id, s')
       case MoverRemove => MoverRemoves(s, s')
       case MoverAbort => MoverAborts(s, s')
       case TrimReadDelivered(t) => TrimmerReadsDelivered(s, t, s')
       case TrimReadPending(t) => TrimmerReadsPending(s, t, s')
       case Trim(t) => Trims(s, t, s')
       case TrimUnheard(t) => TrimsUnheard(s, t, s')
       case TrimGiveUp(t) => TrimmerGivesUp(s, t, s')
  }

  ghost predicate Next(s: State, s': State) {
    exists step :: StepOf(s, step, s')
  }

  ghost predicate Run(states: seq<State>) {
    && |states| > 0 && Init(states[0])
    && forall i :: 0 <= i < |states| - 1 ==> Next(states[i], states[i + 1])
  }

  // ----- what is kept

  /** A copy of `e` some worker can still get: in the delayed set, undelivered, or pending with
      its payload still in the stream. */
  ghost predicate Reachable(s: State, e: Envelope) {
    e in s.delayed || exists id :: Holds(s, id, e)
  }

  ghost predicate Holds(s: State, id: Id, e: Envelope) {
    id in s.stream && s.stream[id] == e && (id in s.pel || Less(s.lastDelivered, id))
  }

  /** Acking an entry that carries `e` loses nothing: its task is settled, or a later retry of
      it has been written. */
  predicate Covered(s: State, e: Envelope) {
    e.task in s.settled || (e.task in s.top && s.top[e.task] > e.retries)
  }

  predicate ReqSound(s: State, r: Req) {
    && (r.id, r.env) in s.handed
    && (forall w :: w in r.left && w.ZaddRetry? ==>
          w.next == r.env.(retries := r.env.retries + 1) && w.next.retries <= w.next.maxRetries)
    && (r.refused || Covered(s, r.env) || exists w :: w in r.left && !w.DlqExpire?)
  }

  predicate FlushSound(s: State, f: Flush) {
    match f
    case Writing(reqs) => forall r :: r in reqs ==> ReqSound(s, r)
    case Acked(ids) => forall id :: id in ids ==>
      id in s.log && id !in s.pel && AtMost(id, s.lastDelivered) && Covered(s, s.log[id])
  }

  /** No trim to `b`, now or at any later time, can reach a pending or undelivered entry. */
  ghost predicate SafeBoundary(s: State, b: Id) {
    && (forall id :: id in s.pel ==> AtMost(b, id))
    && (forall id :: Less(s.lastDelivered, id) ==> AtMost(b, id))
  }

  ghost predicate TrimmerSound(s: State, t: Trimmer) {
    && (t.trimmedTo.Some? ==>
          && (forall id :: id in s.stream ==> AtMost(t.trimmedTo.value, id))
          && (forall id :: Less(s.lastId, id) ==> AtMost(t.trimmedTo.value, id)))
    && (t.SawDelivered? ==> AtMost(t.lastDelivered, s.lastDelivered))
    && (t.Bounded? ==> SafeBoundary(s, t.boundary))
  }

  predicate IdsSound(s: State) {
    && AtMost(s.lastDelivered, s.lastId)
    && (forall id :: id in s.log ==> AtMost(id, s.lastId) && Less(ZERO, id))
    && (forall id :: id in s.stream ==> id in s.log && s.log[id] == s.stream[id])
    && (forall id :: id in s.pel ==> id in s.stream && AtMost(id, s.lastDelivered))
    && (forall h :: h in s.handed ==> h.0 in s.log && s.log[h.0] == h.1 && AtMost(h.0, s.lastDelivered))
  }

  predicate TopSound(s: State) {
    && s.enqueued == s.top.Keys
    && (forall id :: id in s.log ==> s.log[id].task in s.top && s.log[id].retries <= s.top[s.log[id].task])
    && (forall e :: e in s.delayed ==> e.task in s.top && e.retries <= s.top[e.task])
    && (forall id :: id in s.log ==> s.log[id].retries <= s.log[id].maxRetries)
    && (forall e :: e in s.delayed ==> e.retries <= e.maxRetries)
  }

  ghost predicate MoverSound(s: State) {
    s.moving.Some? ==>
      && s.moving.value in s.delayed
      && exists id :: Undelivered(s, id) && s.stream[id] == s.moving.value
  }

  ghost predicate LatestReachable(s: State, t: TaskId)
    requires t in s.top
  {
    exists e: Envelope :: e.task == t && e.retries == s.top[t] && Reachable(s, e)
  }

  predicate FlushesSound(s: State) {
    forall f :: f in s.flushes ==> FlushSound(s, s.flushes[f])
  }

  ghost predicate TrimmersSound(s: State) {
    forall t :: t in s.trimmers ==> TrimmerSound(s, s.trimmers[t])
  }

  ghost predicate TasksSound(s: State)
    requires s.enqueued <= s.top.Keys
  {
    forall t :: t in s.enqueued && t !in s.settled ==> LatestReachable(s, t)
  }

  ghost predicate Inv(s: State) {
    && IdsSound(s)
    && TopSound(s)
    && MoverSound(s)
    && FlushesSound(s)
    && TrimmersSound(s)
    && TasksSound(s)
  }

  lemma InitInv(s: State)
    requires Init(s)
    ensures Inv(s)
  {}

  // ----- every step keeps the invariant

  /** The directions in which every step moves: what is settled, written, handed out or delivered
      stays so, and new stream and pending ids lie above the old ones. */
  ghost predicate Grows(s: State, s': State) {
    && s.settled <= s'.settled && s.handed <= s'.handed && s.top.Keys <= s'.top.Keys
    && (forall t :: t in s.top ==> s.top[t] <= s'.top[t])
    && s.log.Keys <= s'.log.Keys
    && (forall id :: id in s.log ==> s'.log[id] == s.log[id])
    && AtMost(s.lastId, s'.lastId) && AtMost(s.lastDelivered, s'.lastDelivered)
    && (forall id :: id in s'.stream ==> id in s.stream || Less(s.lastId, id))
    && (forall id :: id in s'.pel ==> id in s.pel || Less(s.lastDelivered, id))
  }

  lemma FlushKept(s: State, s': State, f: Flush)
    requires Grows(s, s') && FlushSound(s, f)
    ensures FlushSound(s', f)
  {
    match f
    case Writing(reqs) =>
      forall r | r in reqs ensures ReqSound(s', r) {
        assert ReqSound(s, r);
      }
    case Acked(ids) =>
  }

  lemma TrimmerKept(s: State, s': State, t: Trimmer)
    requires Grows(s, s') && TrimmerSound(s, t)
    ensures TrimmerSound(s', t)
  {}

  lemma FlushesKept(s: State, s': State, touched: nat)
    requires Grows(s, s') && FlushesSound(s)
    requires s'.flushes.Keys <= s.flushes.Keys + {touched}
    requires forall f :: f in s'.flushes && f != touched ==> s'.flushes[f] == s.flushes[f]
    requires touched in s'.flushes ==> FlushSound(s', s'.flushes[touched])
    ensures FlushesSound(s')
  {
    forall f | f in s'.flushes ensures FlushSound(s', s'.flushes[f]) {
      if f != touched { FlushKept(s, s', s.flushes[f]); }
    }
  }

  lemma SameFlushesKept(s: State, s': State)
    requires Grows(s, s') && FlushesSound(s) && s'.flushes == s.flushes
    ensures FlushesSound(s')
  {
    forall f | f in s'.flushes ensures FlushSound(s', s'.flushes[f]) {
      FlushKept(s, s', s.flushes[f]);
    }
  }

  lemma SameTrimmersKept(s: State, s': State)
    requires Grows(s, s') && TrimmersSound(s) && s'.trimmers == s.trimmers
    ensures TrimmersSound(s')
  {
    forall t | t in s'.trimmers ensures TrimmerSound(s', s'.trimmers[t]) {
      TrimmerKept(s, s', s.trimmers[t]);
    }
  }

  lemma TrimmersKept(s: State, s': State, touched: nat)
    requires Grows(s, s') && TrimmersSound(s)
    requires touched in s'.trimmers && s'.trimmers == s.trimmers[touched := s'.trimmers[touched]]
    requires TrimmerSound(s', s'.trimmers[touched])
    ensures TrimmersSound(s')
  {
    forall t | t in s'.trimmers ensures TrimmerSound(s', s'.trimmers[t]) {
      if t != touched { TrimmerKept(s, s', s.trimmers[t]); }
    }
  }

  /** A step keeps each unsettled task's latest copy reachable if it keeps every copy that could
      be the latest. */
  lemma TaskKept(s: State, s': State, t: TaskId)
    requires t in s.top && t in s'.top && s'.top[t] == s.top[t] && LatestReachable(s, t)
    requires forall id, e: Envelope :: Holds(s, id, e) && e.task == t && e.retries == s.top[t]
               ==> Holds(s', id, e)
    requires forall e :: e in s.delayed && e.task == t && e.retries == s.top[t] ==> Reachable(s', e)
    ensures LatestReachable(s', t)
  {
    var e: Envelope :| e.task == t && e.retries == s.top[t] && Reachable(s, e);
    if e !in s.delayed {
      var id :| Holds(s, id, e);
      assert Holds(s', id, e);
    }
    assert Reachable(s', e);
  }

  lemma EnqueueKeeps(s: State, env: Envelope, id: Id, s': State)
    requires Inv(s) && s.moving.None? && Enqueues(s, env, id, s')
    ensures Inv(s') && Grows(s, s')
  {
    EnqueueKeepsIds(s, env, id, s');
    EnqueueKeepsTasks(s, env, id, s');
    hide IdsSound, TopSound, TasksSound, FlushesSound, TrimmersSound, Grows;
    SameFlushesKept(s, s');
    SameTrimmersKept(s, s');
  }

  lemma EnqueueKeepsIds(s: State, env: Envelope, id: Id, s': State)
    requires IdsSound(s) && s.enqueued == s.top.Keys && Enqueues(s, env, id, s')
    ensures IdsSound(s') && Grows(s, s')
  {}

  lemma EnqueueKeepsTasks(s: State, env: Envelope, id: Id, s': State)
    requires IdsSound(s) && TopSound(s) && TasksSound(s) && Enqueues(s, env, id, s')
    ensures TopSound(s') && TasksSound(s')
  {
    forall t | t in s'.enqueued && t !in s'.settled ensures LatestReachable(s', t) {
      if t == env.task {
        assert Holds(s', id, env) && Reachable(s', env);
      } else {
        TaskKept(s, s', t);
      }
    }
  }

  lemma EnqueueDelayedKeeps(s: State, env: Envelope, s': State)
    requires Inv(s) && s.moving.None? && EnqueuesDelayed(s, env, s')
    ensures Inv(s') && Grows(s, s')
  {
    assert Grows(s, s');
    SameFlushesKept(s, s');
    SameTrimmersKept(s, s');
    forall t | t in s'.enqueued && t !in s'.settled ensures LatestReachable(s', t) {
      if t == env.task {
        assert Reachable(s', env);
      } else {
        TaskKept(s, s', t);
      }
    }
  }

  lemma DeliverKeeps(s: State, id: Id, s': State)
    requires Inv(s) && s.moving.None? && Delivers(s, id, s')
    ensures Inv(s') && Grows(s, s')
  {
    assert Grows(s, s');
    SameFlushesKept(s, s');
    SameTrimmersKept(s, s');
    forall other, e | Holds(s, other, e) ensures Holds(s', other, e) {
      if other !in s.pel { assert Undelivered(s, other); }
    }
    forall t | t in s'.enqueued && t !in s'.settled ensures LatestReachable(s', t) {
      TaskKept(s, s', t);
    }
  }

  lemma ClaimKeeps(s: State, id: Id, s': State)
    requires Inv(s) && s.moving.None? && Claims(s, id, s')
    ensures Inv(s') && Grows(s, s')
  {
    assert Grows(s, s');
    SameFlushesKept(s, s');
    SameTrimmersKept(s, s');
    forall t | t in s'.enqueued && t !in s'.settled ensures LatestReachable(s', t) {
      TaskKept(s, s', t);
    }
  }

  lemma FinishKeeps(s: State, id: Id, env: Envelope, outcome: Outcome, f: nat, s': State)
    requires Inv(s) && s.moving.None? && Finishes(s, id, env, outcome, f, s')
    ensures Inv(s') && Grows(s, s')
  {
    assert Grows(s, s');
    SameTrimmersKept(s, s');
    var r := Req(id, env, OwnWrites(env, outcome), false);
    NewReqIsSound(s', r, outcome);
    forall q | q in s'.flushes[f].reqs ensures ReqSound(s', q) {
      if q != r {
        assert ReqSound(s, q);
      }
    }
    FlushesKept(s, s', f);
    forall t | t in s'.enqueued && t !in s'.settled ensures LatestReachable(s', t) {
      TaskKept(s, s', t);
    }
  }

  lemma NewReqIsSound(s: State, r: Req, outcome: Outcome)
    requires (r.id, r.env) in s.handed && r.left == OwnWrites(r.env, outcome)
    requires r.left == {} ==> r.env.task in s.settled
    ensures ReqSound(s, r)
  {
    if r.left != {} {
      var retry := ZaddRetry(r.env.(retries := r.env.retries + 1));
      assert DlqAdd in r.left || SetResult in r.left || retry in r.left;
    }
  }

  lemma AnswerKeeps(s: State, f: nat, i: nat, w: Write, refused: bool, s': State)
    requires Inv(s) && s.moving.None?
    requires if refused then WriteIsRefused(s, f, i, w, s') else WriteLandsOn(s, f, i, w, s')
    ensures Inv(s') && Grows(s, s')
  {
    AnswerGrows(s, f, i, w, refused, s');
    SameTrimmersKept(s, s');
    AnswerKeepsFlushes(s, f, i, w, refused, s');
    AnswerKeepsTasks(s, f, i, w, refused, s');
  }

  lemma AnswerGrows(s: State, f: nat, i: nat, w: Write, refused: bool, s': State)
    requires if refused then WriteIsRefused(s, f, i, w, s') else WriteLandsOn(s, f, i, w, s')
    ensures Grows(s, s')
  {}

  lemma AnswerKeepsFlushes(s: State, f: nat, i: nat, w: Write, refused: bool, s': State)
    requires FlushesSound(s) && s.moving.None? && Grows(s, s')
    requires if refused then WriteIsRefused(s, f, i, w, s') else WriteLandsOn(s, f, i, w, s')
    ensures FlushesSound(s')
  {
    var reqs, reqs' := s.flushes[f].reqs, s'.flushes[f].reqs;
    assert FlushSound(s, s.flushes[f]) && ReqSound(s, reqs[i]);
    AnsweredReqIsSound(s, s', reqs[i], w, refused, reqs'[i]);
    forall q | q in reqs' ensures ReqSound(s', q) {
      if q != reqs'[i] {
        assert q in reqs;
        ReqKept(s, s', q);
      }
    }
    FlushesKept(s, s', f);
  }

  lemma ReqKept(s: State, s': State, r: Req)
    requires Grows(s, s') && ReqSound(s, r)
    ensures ReqSound(s', r)
  {}

  lemma AnsweredReqIsSound(s: State, s': State, r: Req, w: Write, refused: bool, r': Req)
    requires Grows(s, s') && ReqSound(s, r) && w in r.left
    requires r' == r.(left := r.left - {w}, refused := r.refused || refused)
    requires !refused && (w.SetResult? || w.DlqAdd?) ==> r.env.task in s'.settled
    requires !refused && w.ZaddRetry? ==> r.env.task in s'.top && s'.top[r.env.task] >= w.next.retries
    ensures ReqSound(s', r')
  {
    if !r'.refused && !Covered(s', r.env) {
      var key :| key in r.left && !key.DlqExpire?;
      assert key in r'.left;
    }
  }

  lemma AnswerKeepsTasks(s: State, f: nat, i: nat, w: Write, refused: bool, s': State)
    requires Inv(s) && s.moving.None?
    requires if refused then WriteIsRefused(s, f, i, w, s') else WriteLandsOn(s, f, i, w, s')
    ensures TopSound(s') && TasksSound(s')
  {
    assert ReqSound(s, s.flushes[f].reqs[i]);
    forall t | t in s'.enqueued && t !in s'.settled ensures LatestReachable(s', t) {
      if s'.top[t] == s.top[t] {
        TaskKept(s, s', t);
      } else {
        assert Reachable(s', w.next);
      }
    }
  }

  lemma AckKeeps(s: State, f: nat, s': State)
    requires Inv(s) && s.moving.None? && Acks(s, f, s')
    ensures Inv(s') && Grows(s, s')
  {
    var reqs := s.flushes[f].reqs;
    var ids := Ready(reqs);
    forall id | id in ids
      ensures id in s.log && AtMost(id, s.lastDelivered) && Covered(s, s.log[id])
    {
      var r :| r in reqs && r.left == {} && !r.refused && r.id == id;
      assert ReqSound(s, r);
    }
    assert Grows(s, s');
    SameTrimmersKept(s, s');
    FlushesKept(s, s', f);
    forall t | t in s'.enqueued && t !in s'.settled ensures LatestReachable(s', t) {
      TaskKept(s, s', t);
    }
  }

  lemma DeleteKeeps(s: State, f: nat, s': State)
    requires Inv(s) && s.moving.None? && Deletes(s, f, s')
    ensures Inv(s') && Grows(s, s')
  {
    assert FlushSound(s, s.flushes[f]);
    assert Grows(s, s');
    SameTrimmersKept(s, s');
    FlushesKept(s, s', f);
    forall t | t in s'.enqueued && t !in s'.settled ensures LatestReachable(s', t) {
      TaskKept(s, s', t);
    }
  }

  lemma TornKeeps(s: State, f: nat, s': State)
    requires Inv(s) && s.moving.None? && IsTorn(s, f, s')
    ensures Inv(s') && Grows(s, s')
  {
    assert Grows(s, s');
    SameTrimmersKept(s, s');
    FlushesKept(s, s', f);
    forall t | t in s'.enqueued && t !in s'.settled ensures LatestReachable(s', t) {
      TaskKept(s, s', t);
    }
  }

  lemma MoverAddKeeps(s: State, env: Envelope, id: Id, s': State)
    requires Inv(s) && MoverAdds(s, env, id, s')
    ensures Inv(s') && Grows(s, s')
  {
    MoverAddKeepsIds(s, env, id, s');
    MoverAddKeepsTasks(s, env, id, s');
    hide IdsSound, TopSound, TasksSound, FlushesSound, TrimmersSound, Grows;
    SameFlushesKept(s, s');
    SameTrimmersKept(s, s');
  }

  lemma MoverAddKeepsIds(s: State, env: Envelope, id: Id, s': State)
    requires IdsSound(s) && MoverAdds(s, env, id, s')
    ensures IdsSound(s') && Grows(s, s') && MoverSound(s')
  {
    assert Undelivered(s', id);
  }

  lemma MoverAddKeepsTasks(s: State, env: Envelope, id: Id, s': State)
    requires IdsSound(s) && TopSound(s) && TasksSound(s) && MoverAdds(s, env, id, s')
    ensures TopSound(s') && TasksSound(s')
  {
    forall t | t in s'.enqueued && t !in s'.settled ensures LatestReachable(s', t) {
      TaskKept(s, s', t);
    }
  }

  lemma MoverEndKeeps(s: State, s': State)
    requires Inv(s) && (MoverRemoves(s, s') || MoverAborts(s, s'))
    ensures Inv(s') && Grows(s, s')
  {
    assert Grows(s, s');
    SameFlushesKept(s, s');
    SameTrimmersKept(s, s');
    forall e | e in s.delayed ensures Reachable(s', e) {
      if e !in s'.delayed {
        var id :| Undelivered(s, id) && s.stream[id] == e;
        assert Holds(s', id, e);
      }
    }
    forall t | t in s'.enqueued && t !in s'.settled ensures LatestReachable(s', t) {
      TaskKept(s, s', t);
    }
  }

  lemma TrimReadKeeps(s: State, t: nat, s': State)
    requires Inv(s) && s.moving.None?
    requires TrimmerReadsDelivered(s, t, s') || TrimmerReadsPending(s, t, s') || TrimmerGivesUp(s, t, s')
    ensures Inv(s') && Grows(s, s')
  {
    assert Grows(s, s');
    SameFlushesKept(s, s');
    assert t in s.trimmers ==> TrimmerSound(s, s.trimmers[t]);
    if s'.trimmers[t].Bounded? {
      BoundaryIsSafe(s, s.trimmers[t].lastDelivered);
    }
    TrimmersKept(s, s', t);
    forall task | task in s'.enqueued && task !in s'.settled ensures LatestReachable(s', task) {
      TaskKept(s, s', task);
    }
  }

  lemma TrimKeeps(s: State, t: nat, s': State)
    requires Inv(s) && s.moving.None? && (Trims(s, t, s') || TrimsUnheard(s, t, s'))
    ensures Inv(s') && Grows(s, s')
  {
    assert TrimmerSound(s, s.trimmers[t]);
    assert Grows(s, s');
    SameFlushesKept(s, s');
    TrimmersKept(s, s', t);
    forall id, e | Holds(s, id, e) ensures Holds(s', id, e) {}
    forall task | task in s'.enqueued && task !in s'.settled ensures LatestReachable(s', task) {
      TaskKept(s, s', task);
    }
  }

  /** `XINFO` before `XPENDING`: whatever was delivered since the first read, the boundary the
      two reads give is at or below every pending and every undelivered entry. */
  lemma BoundaryIsSafe(s: State, seen: Id)
    requires IdsSound(s) && AtMost(seen, s.lastDelivered)
    requires Boundary(seen, s.pel).Some?
    ensures SafeBoundary(s, Boundary(seen, s.pel).value)
  {
    if s.pel == {} {
      forall id | Less(s.lastDelivered, id) ensures AtMost(After(seen), id) {
        AfterIsTheTightestBoundary(seen, id);
      }
    }
  }

  lemma InvKept(s: State, s': State)
    requires Inv(s) && Next(s, s')
    ensures Inv(s')
  {
    var step :| StepOf(s, step, s');
    StepKeeps(s, step, s');
  }

  lemma StepKeeps(s: State, step: Step, s': State)
    requires Inv(s) && StepOf(s, step, s')
    ensures Inv(s') && Grows(s, s')
  {
    hide Inv, Grows;
    match step
    case Enqueue(env, id) => EnqueueKeeps(s, env, id, s');
    case EnqueueDelayed(env) => EnqueueDelayedKeeps(s, env, s');
    case Deliver(id) => DeliverKeeps(s, id, s');
    case Claim(id) => ClaimKeeps(s, id, s');
    case Finish(id, env, outcome, f) => FinishKeeps(s, id, env, outcome, f, s');
    case WriteLands(f, i, w) => AnswerKeeps(s, f, i, w, false, s');
    case WriteRefused(f, i, w) => AnswerKeeps(s, f, i, w, true, s');
    case Ack(f) => AckKeeps(s, f, s');
    case Delete(f) => DeleteKeeps(s, f, s');
    case Torn(f) => TornKeeps(s, f, s');
    case MoverAdd(env, id) => MoverAddKeeps(s, env, id, s');
    case MoverRemove => MoverEndKeeps(s, s');
    case MoverAbort => MoverEndKeeps(s, s');
    case TrimReadDelivered(t) => TrimReadKeeps(s, t, s');
    case TrimReadPending(t) => TrimReadKeeps(s, t, s');
    case Trim(t) => TrimKeeps(s, t, s');
    case TrimUnheard(t) => TrimKeeps(s, t, s');
    case TrimGiveUp(t) => TrimReadKeeps(s, t, s');
  }

  lemma {:induction false} RunInv(states: seq<State>, i: nat)
    requires Run(states) && i < |states|
    ensures Inv(states[i])
  {
    if i == 0 {
      InitInv(states[0]);
    } else {
      RunInv(states, i - 1);
      assert Next(states[i - 1], states[i - 1 + 1]);
      InvKept(states[i - 1], states[i]);
    }
  }

  // ----- no task is lost

  /** Where an enqueued task may be: settled, undelivered, pending with its payload, delayed. */
  ghost predicate Kept(s: State, t: TaskId) {
    || t in s.settled
    || (exists id :: Undelivered(s, id) && s.stream[id].task == t)
    || (exists id :: id in s.pel && id in s.stream && s.stream[id].task == t)
    || (exists e :: e in s.delayed && e.task == t)
  }

  lemma InvKeepsTasks(s: State, t: TaskId)
    requires Inv(s) && t in s.enqueued
    ensures Kept(s, t)
  {
    if t !in s.settled {
      var e: Envelope :| e.task == t && e.retries == s.top[t] && Reachable(s, e);
      if e !in s.delayed {
        var id :| Holds(s, id, e);
        assert id in s.pel || Undelivered(s, id);
      }
    }
  }

  lemma NoTaskIsLost(states: seq<State>, i: nat, t: TaskId)
    requires Run(states) && i < |states| && t in states[i].enqueued
    ensures Kept(states[i], t)
  {
    RunInv(states, i);
    InvKeepsTasks(states[i], t);
  }

  /** A pending entry always has its payload: nothing is deleted while it can be redelivered. */
  lemma PendingEntriesHavePayloads(states: seq<State>, i: nat)
    requires Run(states) && i < |states|
    ensures states[i].pel <= states[i].stream.Keys
  {
    RunInv(states, i);
  }

  /** No copy of a task, on its way or already handed to a worker, exceeds its retry budget. */
  lemma RetriesStayInBudget(states: seq<State>, i: nat, e: Envelope)
    requires Run(states) && i < |states|
    requires Reachable(states[i], e) || exists id :: (id, e) in states[i].handed
    ensures e.retries <= e.maxRetries
  {
    RunInv(states, i);
  }

  // ----- what a completion decides

  /** The writes of request `i` of a flush land, in this order, until it has none left. */
  ghost predicate AllLand(s: State, f: nat, i: nat, order: seq<Write>, s': State)
    decreases |order|
  {
    if order == [] then
      s' == s && f in s.flushes && s.flushes[f].Writing? && i < |s.flushes[f].reqs| && s.flushes[f].reqs[i].left == {}
    else
      exists m :: WriteLandsOn(s, f, i, order[0], m) && AllLand(m, f, i, order[1..], s')
  }

  /** What all writes of a request together leave, whatever their order. */
  ghost predicate WritesLeave(s: State, task: TaskId, left: set<Write>, s': State) {
    && s'.delayed == s.delayed + (set w | w in left && w.ZaddRetry? :: w.next)
    && s'.dead == s.dead + (if DlqAdd in left then {task} else {})
    && s'.results == s.results + (if SetResult in left then {task} else {})
    && s'.settled == s.settled + (if DlqAdd in left || SetResult in left then {task} else {})
    && s'.stream == s.stream && s'.pel == s.pel && s'.handed == s.handed
  }

  lemma OneWriteLeaves(s: State, f: nat, i: nat, w: Write, m: State, s': State)
    requires WriteLandsOn(s, f, i, w, m)
    requires WritesLeave(m, s.flushes[f].reqs[i].env.task, s.flushes[f].reqs[i].left - {w}, s')
    ensures WritesLeave(s, s.flushes[f].reqs[i].env.task, s.flushes[f].reqs[i].left, s')
  {}

  lemma NothingToLand(s: State, task: TaskId, left: set<Write>)
    requires left == {}
    ensures WritesLeave(s, task, left, s)
  {
    assert (set w | w in left && w.ZaddRetry? :: w.next) <= {};
  }

  /** A flush with request `i` all answered. */
  ghost predicate AnsweredIn(s: State, f: nat, i: nat, s': State)
    requires f in s.flushes && s.flushes[f].Writing? && i < |s.flushes[f].reqs|
  {
    f in s'.flushes && s'.flushes[f] == Writing(s.flushes[f].reqs[i := s.flushes[f].reqs[i].(left := {})])
  }

  lemma AnsweredInOne(s: State, f: nat, i: nat, w: Write, m: State, s': State)
    requires WriteLandsOn(s, f, i, w, m)
    ensures f in m.flushes && m.flushes[f].Writing? && |m.flushes[f].reqs| == |s.flushes[f].reqs|
    ensures m.flushes[f].reqs[i] == s.flushes[f].reqs[i].(left := s.flushes[f].reqs[i].left - {w})
    ensures AnsweredIn(m, f, i, s') ==> AnsweredIn(s, f, i, s')
  {
    var reqs, r := s.flushes[f].reqs, s.flushes[f].reqs[i];
    assert reqs[i := r.(left := r.left - {w})][i := r.(left := {})] == reqs[i := r.(left := {})];
  }

  lemma {:induction false} AllWritesLeave(s: State, f: nat, i: nat, order: seq<Write>, s': State)
    requires f in s.flushes && s.flushes[f].Writing? && i < |s.flushes[f].reqs|
    requires AllLand(s, f, i, order, s')
    ensures WritesLeave(s, s.flushes[f].reqs[i].env.task, s.flushes[f].reqs[i].left, s') && AnsweredIn(s, f, i, s')
    decreases |order|
  {
    hide WritesLeave, WriteLandsOn;
    if order != [] {
      var m :| WriteLandsOn(s, f, i, order[0], m) && AllLand(m, f, i, order[1..], s');
      AnsweredInOne(s, f, i, order[0], m, s');
      AllWritesLeave(m, f, i, order[1..], s');
      OneWriteLeaves(s, f, i, order[0], m, s');
    } else {
      var reqs := s.flushes[f].reqs;
      assert reqs[i := reqs[i].(left := {})] == reqs;
      NothingToLand(s, reqs[i].env.task, reqs[i].left);
    }
  }

  /** The task asked for another attempt, or failed in a way that may be tried again, and has one left. */
  predicate TriesAgain(env: Envelope, outcome: Outcome) {
    (outcome.ForceRetry? || outcome == Failure(true)) && env.retries < env.maxRetries
  }

  /** What becomes of a task once a worker has decided and its writes have landed in any order: another
      attempt goes to the delayed set with one more retry and settles nothing; a success or a duplicate
      settles it; everything else dead letters it. The result is stored where that is wanted. Then an XACK
      and an XDEL, and nothing else, take the entry off the pending list and the stream. */
  lemma CompletionDecides(
    s: State, id: Id, env: Envelope, outcome: Outcome, f: nat, m: State, order: seq<Write>, s': State, acked: State,
    gone: State)
    requires Finishes(s, id, env, outcome, f, m)
    requires AllLand(m, f, |m.flushes[f].reqs| - 1, order, s')
    requires Acks(s', f, acked) && Deletes(acked, f, gone)
    ensures TriesAgain(env, outcome) ==>
              && s'.delayed == s.delayed + {env.(retries := env.retries + 1)}
              && s'.settled == s.settled && s'.dead == s.dead && s'.results == s.results
    ensures !TriesAgain(env, outcome) ==>
              && s'.delayed == s.delayed && s'.settled == s.settled + {env.task}
              && s'.dead == s.dead + (if outcome.Success? || outcome.Duplicate? then {} else {env.task})
              && s'.results == s.results
                   + (if (if outcome.NeverRan? then outcome.writeResult else env.storeResult) then {env.task} else {})
    ensures s'.stream == s.stream && s'.pel == s.pel
    ensures id !in gone.pel && id !in gone.stream && acked.stream == s.stream
  {
    FinishWrites(s, id, env, outcome, f, m);
    AllWritesLeave(m, f, |m.flushes[f].reqs| - 1, order, s');
    OwnWritesAre(env, outcome);
    hide OwnWrites, AllLand, Finishes;
    var reqs := s'.flushes[f].reqs;
    assert reqs[|reqs| - 1] == Req(id, env, {}, false);
    FlushTakesWritten(s', f, acked, gone, id);
  }

  lemma FinishWrites(s: State, id: Id, env: Envelope, outcome: Outcome, f: nat, m: State)
    requires Finishes(s, id, env, outcome, f, m)
    ensures f in m.flushes && m.flushes[f].Writing? && m.flushes[f].reqs != []
    ensures m.flushes[f].reqs[|m.flushes[f].reqs| - 1] == Req(id, env, OwnWrites(env, outcome), false)
    ensures m == s.(flushes := m.flushes,
                    settled := if OwnWrites(env, outcome) == {} then s.settled + {env.task} else s.settled)
  {}

  lemma OwnWritesAre(env: Envelope, outcome: Outcome)
    ensures var own := OwnWrites(env, outcome);
            var stores := if outcome.NeverRan? then outcome.writeResult else env.storeResult;
            && (set w | w in own && w.ZaddRetry? :: w.next)
               == (if TriesAgain(env, outcome) then {env.(retries := env.retries + 1)} else {})
            && (DlqAdd in own <==> !TriesAgain(env, outcome) && !outcome.Success? && !outcome.Duplicate?)
            && (DlqExpire in own <==> DlqAdd in own)
            && (SetResult in own <==> !TriesAgain(env, outcome) && stores)
            && (own == {} <==> (outcome.Success? || outcome.Duplicate?) && !env.storeResult)
  {
    var retry := ZaddRetry(env.(retries := env.retries + 1));
    assert DlqAdd in OwnWrites(env, outcome) || SetResult in OwnWrites(env, outcome) || retry in OwnWrites(env, outcome)
           || OwnWrites(env, outcome) == {};
  }

  /** A request none of whose writes is open or was refused is acked and deleted by its flush, and no
      other entry is. */
  lemma FlushTakesWritten(s: State, f: nat, acked: State, gone: State, id: Id)
    requires Acks(s, f, acked) && Deletes(acked, f, gone)
    ensures var done := exists r :: r in s.flushes[f].reqs && r.id == id && r.left == {} && !r.refused;
            && (id in gone.pel <==> id in s.pel && !done) && (id in gone.stream <==> id in s.stream && !done)
  {}

  // ----- the trim

  /** The boundary reaches past every entry that is acked and older than all pending ones, but for one
      with the largest sequence number just delivered. */
  lemma BoundaryIsPastTheAcked(lastDelivered: Id, pel: set<Id>, id: Id)
    requires Less(ZERO, id) && AtMost(id, lastDelivered) && forall p :: p in pel ==> Less(id, p)
    ensures Boundary(lastDelivered, pel).Some?
    ensures Less(id, Boundary(lastDelivered, pel).value) || (id == lastDelivered && pel == {} && id.sn == U64_MAX)
  {}

  /** A trimmer's tick, undisturbed, leaves nothing of that on the stream, whether it trims or finds its
      boundary unchanged. */
  lemma TrimTakesAllAcked(s: State, t: nat, m: State, m': State, s': State, id: Id)
    requires Inv(s) && TrimmerReadsDelivered(s, t, m) && TrimmerReadsPending(m, t, m')
    requires if m'.trimmers[t].Bounded? then Trims(m', t, s') else s' == m'
    requires AtMost(id, s.lastDelivered) && forall p :: p in s.pel ==> Less(id, p)
    ensures id !in s'.stream || (id == s.lastDelivered && s.pel == {} && id.sn == U64_MAX)
  {
    if id in s'.stream {
      BoundaryIsPastTheAcked(s.lastDelivered, s.pel, id);
      if t in s.trimmers {
        assert TrimmerSound(s, s.trimmers[t]);
      }
    }
  }

  /** An XTRIM, whatever happened since its trimmer's two reads and whether or not its answer is heard,
      takes only acked entries. */
  lemma TrimTakesOnlyAckedEntries(states: seq<State>, i: nat, t: nat, id: Id)
    requires Run(states) && i + 1 < |states|
    requires Trims(states[i], t, states[i + 1]) || TrimsUnheard(states[i], t, states[i + 1])
    requires id in states[i].stream && id !in states[i + 1].stream
    ensures id !in states[i].pel && !Undelivered(states[i], id)
  {
    RunInv(states, i);
    assert TrimmerSound(states[i], states[i].trimmers[t]);
  }

  /** Once an XTRIM to a boundary has landed, nothing ever reappears below it, so skipping an
      unchanged boundary skips a command that would do nothing. */
  lemma SkippedTrimIsANoOp(states: seq<State>, i: nat, t: nat)
    requires Run(states) && i < |states|
    requires t in states[i].trimmers && states[i].trimmers[t].trimmedTo.Some?
    ensures Trimmed(states[i].stream, states[i].trimmers[t].trimmedTo.value) == states[i].stream
  {
    RunInv(states, i);
    assert TrimmerSound(states[i], states[i].trimmers[t]);
  }

  // ----- kept means recoverable

  /** `s'` is `n` steps after `s`. */
  ghost predicate Leads(s: State, s': State, n: nat)
    decreases n
  {
    if n == 0 then s == s' else exists m :: Next(s, m) && Leads(m, s', n - 1)
  }

  ghost predicate CanSettle(s: State, t: TaskId) {
    exists s', n: nat :: Leads(s, s', n) && t in s'.settled
  }

  lemma SettleAfterStep(s: State, step: Step, m: State, t: TaskId)
    requires StepOf(s, step, m) && CanSettle(m, t)
    ensures CanSettle(s, t)
  {
    var s', n: nat :| Leads(m, s', n) && t in s'.settled;
    assert Next(s, m);
    assert Leads(s, s', n + 1);
  }

  lemma SettledAlready(s: State, t: TaskId)
    requires t in s.settled
    ensures CanSettle(s, t)
  {
    assert Leads(s, s, 0);
  }

  /** A flush id no flush uses. */
  lemma {:induction false} UnusedFlush(used: set<nat>) returns (f: nat)
    ensures forall g :: g in used ==> g < f
  {
    if used == {} {
      f := 0;
    } else {
      var g :| g in used;
      f := UnusedFlush(used - {g});
      f := if g < f then f else g + 1;
      assert forall h :: h in used ==> h == g || h in used - {g};
    }
  }

  /** Whoever was handed an entry can have it dead lettered. */
  lemma HandedCanSettle(s: State, id: Id, env: Envelope)
    requires s.moving.None? && (id, env) in s.handed
    ensures CanSettle(s, env.task)
  {
    var f := UnusedFlush(s.flushes.Keys);
    var r := Req(id, env, OwnWrites(env, NeverRan(false)), false);
    var s2 := s.(flushes := s.flushes[f := Writing([r])]);
    assert [] + [r] == [r];
    assert DlqAdd in OwnWrites(env, NeverRan(false));
    assert StepOf(s, Finish(id, env, NeverRan(false), f), s2);
    assert s2.flushes[f].reqs[0] == r;
    assert HasReq(s2, f, 0, DlqAdd);
    var s3 := Landed(Answered(s2, f, 0, DlqAdd, false), env.task, DlqAdd);
    assert StepOf(s2, WriteLands(f, 0, DlqAdd), s3);
    SettledAlready(s3, env.task);
    SettleAfterStep(s2, WriteLands(f, 0, DlqAdd), s3, env.task);
    SettleAfterStep(s, Finish(id, env, NeverRan(false), f), s2, env.task);
  }

  /** A pending entry can be claimed. */
  lemma PendingCanSettle(s: State, id: Id)
    requires s.moving.None? && id in s.pel && id in s.stream
    ensures CanSettle(s, s.stream[id].task)
  {
    var m := s.(handed := s.handed + {(id, s.stream[id])});
    assert StepOf(s, Claim(id), m);
    HandedCanSettle(m, id, s.stream[id]);
    SettleAfterStep(s, Claim(id), m, s.stream[id].task);
  }

  ghost function UndeliveredIds(s: State): set<Id> {
    set id | id in s.stream && Less(s.lastDelivered, id)
  }

  /** An undelivered entry is reached by delivering what stands before it. */
  lemma {:induction false} UndeliveredCanSettle(s: State, id: Id)
    requires s.moving.None? && Undelivered(s, id)
    ensures CanSettle(s, s.stream[id].task)
    decreases |UndeliveredIds(s)|
  {
    assert id in UndeliveredIds(s);
    var next := Oldest(UndeliveredIds(s));
    var m := s.(lastDelivered := next, pel := s.pel + {next}, handed := s.handed + {(next, s.stream[next])});
    assert StepOf(s, Deliver(next), m) by {
      forall other | Undelivered(s, other) ensures AtMost(next, other) {
        assert other in UndeliveredIds(s);
      }
    }
    if next == id {
      PendingCanSettle(m, id);
    } else {
      assert UndeliveredIds(m) <= UndeliveredIds(s) - {next};
      ProperSubsetIsSmaller(UndeliveredIds(m), UndeliveredIds(s), next);
      UndeliveredCanSettle(m, id);
    }
    SettleAfterStep(s, Deliver(next), m, s.stream[id].task);
  }

  lemma {:induction false} ProperSubsetIsSmaller(a: set<Id>, b: set<Id>, missing: Id)
    requires a <= b && missing in b && missing !in a
    ensures |a| < |b|
  {
    if a == {} {
      assert b != {};
    } else {
      var id :| id in a;
      ProperSubsetIsSmaller(a - {id}, b - {id}, missing);
    }
  }

  /** The last id a stream can give out. */
  const LAST: Id := Id(U64_MAX, U64_MAX)

  /** The task is settled, or some worker was handed a copy, or can still get one off the stream. */
  ghost predicate InReach(s: State, t: TaskId) {
    || t in s.settled
    || (exists id, e: Envelope :: (id, e) in s.handed && e.task == t)
    || (exists id, e: Envelope :: Holds(s, id, e) && e.task == t)
  }

  /** No run is a dead end: some continuation settles any enqueued task, whatever crashed before,
      unless the stream has given out its last id before the task ever left the delayed set. */
  lemma EveryTaskCanStillSettle(states: seq<State>, i: nat, t: TaskId)
    requires Run(states) && i < |states| && t in states[i].enqueued
    ensures CanSettle(states[i], t) <==> states[i].lastId != LAST || InReach(states[i], t)
  {
    RunInv(states, i);
    var s := states[i];
    if s.lastId == LAST && !InReach(s, t) {
      if CanSettle(s, t) {
        var s', n: nat :| Leads(s, s', n) && t in s'.settled;
        StuckForever(s, s', n, t);
      }
    } else if s.moving.Some? {
      var m := s.(moving := None);
      assert StepOf(s, MoverAbort, m);
      MoverEndKeeps(s, m);
      assert forall id, e :: Holds(s, id, e) ==> Holds(m, id, e);
      IdleMoverCanSettle(m, t);
      SettleAfterStep(s, MoverAbort, m, t);
    } else {
      IdleMoverCanSettle(s, t);
    }
  }

  lemma IdleMoverCanSettle(s: State, t: TaskId)
    requires Inv(s) && s.moving.None? && t in s.enqueued && (s.lastId != LAST || InReach(s, t))
    ensures CanSettle(s, t)
  {
    InvKeepsTasks(s, t);
    if t in s.settled {
      SettledAlready(s, t);
    } else if id, e: Envelope :| (id, e) in s.handed && e.task == t {
      HandedCanSettle(s, id, e);
    } else if id, e: Envelope :| Holds(s, id, e) && e.task == t {
      if id in s.pel {
        PendingCanSettle(s, id);
      } else {
        UndeliveredCanSettle(s, id);
      }
    } else {
      DelayedCanSettle(s, t);
    }
  }

  lemma DelayedCanSettle(s: State, t: TaskId)
    requires Inv(s) && s.moving.None? && s.lastId != LAST
    requires exists e :: e in s.delayed && e.task == t
    ensures CanSettle(s, t)
  {
    var e :| e in s.delayed && e.task == t;
    var id := if s.lastId.ms < U64_MAX then Id(s.lastId.ms + 1, 0) else Id(U64_MAX, s.lastId.sn + 1);
    var m := Added(s, id, e).(moving := Some(e));
    assert StepOf(s, MoverAdd(e, id), m);
    var m' := m.(delayed := m.delayed - {e}, moving := None);
    assert StepOf(m, MoverRemove, m');
    assert Undelivered(m', id);
    UndeliveredCanSettle(m', id);
    SettleAfterStep(m, MoverRemove, m', t);
    SettleAfterStep(s, MoverAdd(e, id), m, t);
  }

  /** Nothing can be added to the stream, and nobody ever saw the task. */
  ghost predicate Stuck(s: State, t: TaskId) {
    Inv(s) && s.lastId == LAST && t in s.enqueued && !InReach(s, t)
  }

  lemma StuckStays(s: State, s': State, t: TaskId)
    requires Stuck(s, t) && Next(s, s')
    ensures Stuck(s', t)
  {
    hide StepOf, Inv, Grows, Holds;
    var step :| StepOf(s, step, s');
    StepKeeps(s, step, s');
    NothingNewOnTheStream(s, s');
    NobodyNewIsHanded(s, step, s', t);
    NothingNewIsSettled(s, step, s', t);
  }

  lemma NothingNewOnTheStream(s: State, s': State)
    requires Inv(s) && Inv(s') && Grows(s, s') && s.lastId == LAST
    ensures s'.lastId == LAST && s.enqueued <= s'.enqueued
    ensures forall id, e :: Holds(s', id, e) ==> Holds(s, id, e)
  {
    NothingAboveLast(s);
  }

  lemma NobodyNewIsHanded(s: State, step: Step, s': State, t: TaskId)
    requires Inv(s) && StepOf(s, step, s') && forall id, e: Envelope :: Holds(s, id, e) ==> e.task != t
    ensures forall h :: h in s'.handed && h.1.task == t ==> h in s.handed
  {
    hide Inv, OwnWrites, Trimmed, Boundary, Ready;
    if step.Deliver? {
      assert Holds(s, step.id, s.stream[step.id]);
    } else if step.Claim? && step.id in s.stream {
      assert Holds(s, step.id, s.stream[step.id]);
    }
  }

  lemma NothingNewIsSettled(s: State, step: Step, s': State, t: TaskId)
    requires Inv(s) && StepOf(s, step, s') && forall id, e: Envelope :: (id, e) in s.handed ==> e.task != t
    ensures t in s'.settled ==> t in s.settled
  {
    hide OwnWrites, Trimmed, Boundary, Ready, Holds;
    if step.Finish? {
      assert (step.id, step.env) in s.handed;
    }
    if step.WriteLands? {
      assert FlushSound(s, s.flushes[step.flush]) && ReqSound(s, s.flushes[step.flush].reqs[step.req]);
    }
  }

  lemma NothingAboveLast(s: State)
    requires s.lastId == LAST
    ensures forall id :: !Less(s.lastId, id)
  {}

  lemma {:induction false} StuckForever(s: State, s': State, n: nat, t: TaskId)
    requires Stuck(s, t) && Leads(s, s', n)
    ensures Stuck(s', t)
    decreases n
  {
    hide Stuck;
    if n > 0 {
      var m :| Next(s, m) && Leads(m, s', n - 1);
      StuckStays(s, m, t);
      StuckForever(m, s', n - 1, t);
    }
  }

  // ----- the orders the code insists on

  /** A queue with one entry enqueued and nothing delivered. */
  ghost function OneEnqueued(): State {
    var env := Envelope(0, 0, 3, true);
    Enqueued(Added(EMPTY, Id(1, 0), env), env)
  }

  lemma OneEnqueuedInv()
    ensures Inv(OneEnqueued())
  {
    InitInv(EMPTY);
    EnqueueKeeps(EMPTY, Envelope(0, 0, 3, true), Id(1, 0), OneEnqueued());
  }

  /** `XPENDING` before `XINFO`: a delivery between the two reads gives a boundary whose XTRIM
      destroys a pending entry. */
  lemma SwappedReadsDestroyAPendingEntry()
    ensures exists s, s', id ::
              && Inv(s) && Delivers(s, id, s')
              && Boundary(s'.lastDelivered, s.pel).Some?
              && id in s'.pel && id !in Trimmed(s'.stream, Boundary(s'.lastDelivered, s.pel).value)
  {
    OneEnqueuedInv();
    var s, id := OneEnqueued(), Id(1, 0);
    var s' := s.(lastDelivered := id, pel := s.pel + {id}, handed := s.handed + {(id, s.stream[id])});
    assert Delivers(s, id, s');
    assert s.pel == {};
    assert Boundary(s'.lastDelivered, s.pel) == Some(Id(1, 1));
  }

  /** `ZREM` before `XADD`: a script failing between the two loses the task. */
  lemma SwappedMoverWritesLoseATask()
    ensures exists s, e :: Inv(s) && e in s.delayed && e.task in s.enqueued
                           && !Kept(s.(delayed := s.delayed - {e}), e.task)
  {
    var e := Envelope(0, 0, 3, true);
    InitInv(EMPTY);
    var s := Enqueued(EMPTY.(delayed := {e}), e);
    EnqueueDelayedKeeps(EMPTY, e, s);
    assert !Kept(s.(delayed := s.delayed - {e}), e.task);
  }
}
