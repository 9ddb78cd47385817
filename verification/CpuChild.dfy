/**
 The event loop that serves one cpu child: a window of requests in send order, at most one request
 partly written, hard deadlines armed for the oldest `concurrency` of them, and a recycle budget.
 What the child, the socket and the clock do arrives as events; times are milliseconds.
 */
module CpuChild {
  import opened Options

  type JobId = nat

  /** A request taken from the job channel: its wire id, its hard timeout, its line's length. */
  datatype CpuJob = CpuJob(id: JobId, timeoutMs: nat, length: nat)

  /** A request the child has, with the instant it must be answered by once it is started. */
  datatype Pending = Pending(timeoutMs: nat, deadline: Option<nat>)

  datatype PendingWrite = PendingWrite(job: CpuJob, sent: nat)

  datatype CpuOutcome = Resp | Timeout | Lost

  datatype Gone = Exited | HardTimeout | Wedged | Recycled | Shutdown

  /** One ready branch of the select. */
  datatype Event =
    | Line(id: Option<JobId>)
    | Closed
    | Received(job: CpuJob)
    | ChannelClosed
    | Wrote(n: nat)
    | WriteFailed
    | DeadlinePassed
    | StallPassed
    | IdleDropped

  // ----- the window

  predicate Distinct<T(==)>(s: seq<T>) {
    forall j, k :: 0 <= j < k < |s| ==> s[j] != s[k]
  }

  /** `order` lists exactly the ids in `pending`, each once. */
  predicate Lists(order: seq<JobId>, pending: map<JobId, Pending>) {
    && Distinct(order)
    && (forall id :: id in order ==> id in pending)
    && (forall id :: id in pending ==> id in order)
  }

  /** Exactly the first `n` requests in send order have a deadline. */
  predicate ArmedUpTo(order: seq<JobId>, pending: map<JobId, Pending>, n: nat)
    requires Lists(order, pending)
  {
    forall k :: 0 <= k < |order| ==> (pending[order[k]].deadline.Some? <==> k < n)
  }

  function Elements(s: seq<JobId>): set<JobId> {
    set id | id in s
  }

  lemma {:induction false} DistinctSize(s: seq<JobId>)
    requires Distinct(s)
    ensures |Elements(s)| == |s|
  {
    if s != [] {
      var last := |s| - 1;
      DistinctSize(s[..last]);
      assert Elements(s) == Elements(s[..last]) + {s[last]};
    }
  }

  /** `order.retain(|x| x != id)`. */
  function Without(s: seq<JobId>, id: JobId): seq<JobId> {
    if s == [] then []
    else if s[0] == id then Without(s[1..], id)
    else [s[0]] + Without(s[1..], id)
  }

  lemma {:induction false} WithoutAt(s: seq<JobId>, i: nat)
    requires Distinct(s) && i < |s|
    ensures Without(s, s[i]) == s[..i] + s[i + 1..]
  {
    if i == 0 {
      WithoutAbsent(s[1..], s[0]);
    } else {
      WithoutAt(s[1..], i - 1);
      assert s[1..][..i - 1] == s[1..i];
      assert s[1..][i..] == s[i + 1..];
      assert [s[0]] + s[1..i] == s[..i];
    }
  }

  lemma {:induction false} WithoutAbsent(s: seq<JobId>, id: JobId)
    requires id !in s
    ensures Without(s, id) == s
  {
    if s != [] { WithoutAbsent(s[1..], id); }
  }

  /** Requests with a deadline, as `arm_started` counts them. */
  ghost function ArmedIds(pending: map<JobId, Pending>): set<JobId> {
    set id | id in pending && pending[id].deadline.Some?
  }

  lemma ArmedCount(order: seq<JobId>, pending: map<JobId, Pending>, n: nat)
    requires Lists(order, pending) && ArmedUpTo(order, pending, n) && n <= |order|
    ensures |ArmedIds(pending)| == n
  {
    DistinctSize(order[..n]);
    assert ArmedIds(pending) == Elements(order[..n]) by {
      forall id | id in ArmedIds(pending) ensures id in order[..n] {
        var k :| 0 <= k < |order| && order[k] == id;
        assert order[..n][k] == id;
      }
      forall id | id in order[..n] ensures id in ArmedIds(pending) {
        var k :| 0 <= k < n && order[..n][k] == id;
        assert order[k] == id;
      }
    }
  }

  function Min(a: nat, b: nat): nat { if a < b then a else b }

  /** What arming leaves of one request. */
  predicate ArmedFrom(p: Pending, p': Pending, now: nat) {
    && p'.timeoutMs == p.timeoutMs
    && (p.deadline.Some? ==> p'.deadline == p.deadline)
    && (p'.deadline.Some? && p.deadline.None? ==> p'.deadline == Some(now + p.timeoutMs))
  }

  /** The window's front is brought up to `concurrency` deadlines; a request keeps the one it has. */
  method ArmStarted(pending: map<JobId, Pending>, order: seq<JobId>, concurrency: nat, now: nat, ghost n: nat)
    returns (armedPending: map<JobId, Pending>)
    requires Lists(order, pending) && ArmedUpTo(order, pending, n) && n <= concurrency && n <= |order|
    ensures Lists(order, armedPending) && ArmedUpTo(order, armedPending, concurrency)
    ensures armedPending.Keys == pending.Keys
    ensures forall id :: id in pending ==> ArmedFrom(pending[id], armedPending[id], now)
  {
    armedPending := pending;
    ArmedCount(order, pending, n);
    var armed := |set id | id in pending && pending[id].deadline.Some?|;
    assert armed == n by { assert (set id | id in pending && pending[id].deadline.Some?) == ArmedIds(pending); }
    var i := 0;
    while i < |order| && armed < concurrency
      invariant i <= |order|
      invariant armedPending.Keys == pending.Keys && Lists(order, armedPending)
      invariant armed == if i <= n then n else i
      invariant armed <= concurrency
      invariant ArmedUpTo(order, armedPending, armed)
      invariant forall id :: id in pending ==> ArmedFrom(pending[id], armedPending[id], now)
      invariant forall k :: i <= k < |order| ==> armedPending[order[k]] == pending[order[k]]
    {
      var p := armedPending[order[i]];
      if p.deadline.None? {
        armedPending := armedPending[order[i] := p.(deadline := Some(now + p.timeoutMs))];
        armed := armed + 1;
      }
      i := i + 1;
    }
  }

  // ----- the parts of the server's invariant

  function InFlight(pending: map<JobId, Pending>, write: Option<PendingWrite>): nat {
    |pending| + if write.Some? then 1 else 0
  }

  /** The window: listed in send order, armed exactly up to `concurrency`, never above its depth. */
  predicate WindowOk(
    order: seq<JobId>, pending: map<JobId, Pending>, write: Option<PendingWrite>, concurrency: nat, prefetch: nat)
  {
    && Lists(order, pending) && |pending| == |order|
    && ArmedUpTo(order, pending, concurrency)
    && InFlight(pending, write) <= concurrency + prefetch
    && (write.Some? ==> write.value.job.id !in pending)
  }

  predicate BudgetOk(pending: map<JobId, Pending>, write: Option<PendingWrite>, completed: nat, recycle: nat) {
    recycle > 0 ==> completed + InFlight(pending, write) <= recycle
  }

  /** A deadline is the start of the request plus its timeout, and no request starts in the future. */
  predicate ClocksOk(pending: map<JobId, Pending>, startedAt: map<JobId, nat>, clock: nat) {
    forall id :: id in pending && pending[id].deadline.Some? ==>
      && id in startedAt && startedAt[id] <= clock
      && pending[id].deadline.value == startedAt[id] + pending[id].timeoutMs
  }

  /** Requests not told an outcome yet. */
  function Untold(pending: map<JobId, Pending>, write: Option<PendingWrite>): set<JobId> {
    pending.Keys + if write.Some? then {write.value.job.id} else {}
  }

  function Told(answers: seq<(JobId, CpuOutcome)>): set<JobId> {
    set a | a in answers :: a.0
  }

  /** Every accepted request either was told one outcome, or is still untold. */
  predicate Conserved(accepted: set<JobId>, answers: seq<(JobId, CpuOutcome)>, untold: set<JobId>) {
    && (forall j, k :: 0 <= j < k < |answers| ==> answers[j].0 != answers[k].0)
    && accepted == Told(answers) + untold
    && Told(answers) !! untold
  }

  predicate AllResponses(answers: seq<(JobId, CpuOutcome)>) {
    forall a :: a in answers ==> a.1 == Resp
  }

  lemma TellKeeps(
    accepted: set<JobId>, answers: seq<(JobId, CpuOutcome)>, untold: set<JobId>, id: JobId, outcome: CpuOutcome)
    requires Conserved(accepted, answers, untold) && id in untold
    ensures Conserved(accepted, answers + [(id, outcome)], untold - {id})
    ensures AllResponses(answers) && outcome == Resp ==> AllResponses(answers + [(id, outcome)])
  {
    var more := answers + [(id, outcome)];
    forall x | x in Told(answers) + {id} ensures x in Told(more) {
      if x == id {
        assert more[|answers|] in more;
      } else {
        var a :| a in answers && a.0 == x;
        assert a in more;
      }
    }
    forall j | 0 <= j < |answers| ensures answers[j].0 in Told(answers) {
      assert answers[j] in answers;
    }
  }

  lemma AcceptKeeps(accepted: set<JobId>, answers: seq<(JobId, CpuOutcome)>, untold: set<JobId>, id: JobId)
    requires Conserved(accepted, answers, untold) && id !in accepted
    ensures Conserved(accepted + {id}, answers, untold + {id}) && id !in untold
  {}

  /** Whether any request has a deadline: with room for at least one, whether there is any. */
  method AnyDeadline(
    order: seq<JobId>, pending: map<JobId, Pending>, write: Option<PendingWrite>, concurrency: nat, prefetch: nat)
    returns (any: bool)
    requires WindowOk(order, pending, write, concurrency, prefetch) && concurrency >= 1
    ensures any <==> exists id :: id in pending && pending[id].deadline.Some?
    ensures any <==> pending != map[]
  {
    any := exists id :: id in pending && pending[id].deadline.Some?;
    if pending != map[] {
      var id :| id in pending;
      assert order[0] in order && pending[order[0]].deadline.Some?;
    }
  }

  /** The window with one more unstarted request at its end. */
  lemma AppendKeeps(
    order: seq<JobId>, pending: map<JobId, Pending>, w: PendingWrite, grown: map<JobId, Pending>,
    concurrency: nat, prefetch: nat)
    requires WindowOk(order, pending, Some(w), concurrency, prefetch)
    requires grown == pending[w.job.id := Pending(w.job.timeoutMs, None)]
    ensures Lists(order + [w.job.id], grown) && |grown| == |order| + 1 <= concurrency + prefetch
    ensures ArmedUpTo(order + [w.job.id], grown, Min(concurrency, |order|))
    ensures Untold(grown, None) == Untold(pending, Some(w))
  {
    assert grown.Keys == pending.Keys + {w.job.id};
    assert |grown| == |grown.Keys|;
    var more := order + [w.job.id];
    forall x | x in grown ensures x in more {
      if x == w.job.id { assert more[|order|] == x; }
    }
  }

  /** The window without a request. What is armed stays a prefix, at most as long as before. */
  lemma RemoveKeeps(
    order: seq<JobId>, pending: map<JobId, Pending>, write: Option<PendingWrite>, id: JobId,
    concurrency: nat, prefetch: nat)
    returns (armed: nat)
    requires WindowOk(order, pending, write, concurrency, prefetch) && id in pending
    ensures Lists(Without(order, id), pending - {id})
    ensures |pending - {id}| == |Without(order, id)| == |order| - 1
    ensures armed <= concurrency && armed <= |order| - 1 && ArmedUpTo(Without(order, id), pending - {id}, armed)
    ensures Untold(pending - {id}, write) == Untold(pending, write) - {id}
  {
    var i :| 0 <= i < |order| && order[i] == id;
    WithoutAt(order, i);
    RemovedLists(order, pending, i, pending - {id}, Without(order, id));
    armed := RemovedArmed(order, pending, i, pending - {id}, Without(order, id), concurrency);
    assert (pending - {id}).Keys == pending.Keys - {id};
    assert |pending - {id}| == |(pending - {id}).Keys|;
  }

  lemma RemovedArmed(
    order: seq<JobId>, pending: map<JobId, Pending>, i: nat, shrunk: map<JobId, Pending>, rest: seq<JobId>,
    concurrency: nat)
    returns (armed: nat)
    requires Lists(order, pending) && i < |order| && ArmedUpTo(order, pending, concurrency)
    requires shrunk == pending - {order[i]} && rest == order[..i] + order[i + 1..] && Lists(rest, shrunk)
    ensures armed <= concurrency && armed <= |order| - 1 && ArmedUpTo(rest, shrunk, armed)
  {
    armed := if i < concurrency then Min(concurrency, |order|) - 1 else concurrency;
    forall k | 0 <= k < |rest| ensures shrunk[rest[k]].deadline.Some? <==> k < armed {
      assert rest[k] == order[if k < i then k else k + 1];
    }
  }

  lemma RemovedLists(
    order: seq<JobId>, pending: map<JobId, Pending>, i: nat, shrunk: map<JobId, Pending>, rest: seq<JobId>)
    requires Lists(order, pending) && i < |order|
    requires shrunk == pending - {order[i]} && rest == order[..i] + order[i + 1..]
    ensures Lists(rest, shrunk)
  {
    forall x | x in shrunk ensures x in rest {
      var k :| 0 <= k < |order| && order[k] == x;
      assert rest[if k < i then k else k - 1] == x;
    }
    forall x | x in rest ensures x in shrunk {
      var k :| 0 <= k < |rest| && rest[k] == x;
      assert x == order[if k < i then k else k + 1];
    }
  }

  lemma ClocksKept(
    pending: map<JobId, Pending>, startedAt: map<JobId, nat>, clock: nat, after: map<JobId, Pending>, now: nat)
    requires ClocksOk(pending, startedAt, clock) && clock <= now
    requires forall id :: id in after && after[id].deadline.Some? ==> id in pending && after[id] == pending[id]
    ensures ClocksOk(after, startedAt, now)
  {}

  /** Arming rebuilds the window and its clocks. */
  lemma ArmingKeeps(
    order: seq<JobId>, before: map<JobId, Pending>, after: map<JobId, Pending>, write: Option<PendingWrite>,
    startedAt: map<JobId, nat>, now: nat, concurrency: nat, prefetch: nat)
    requires Lists(order, after) && ArmedUpTo(order, after, concurrency) && |before| == |order|
    requires after.Keys == before.Keys
    requires forall id :: id in before ==> ArmedFrom(before[id], after[id], now)
    requires InFlight(before, write) <= concurrency + prefetch
    requires write.Some? ==> write.value.job.id !in before
    requires ClocksOk(before, startedAt, now)
    ensures WindowOk(order, after, write, concurrency, prefetch)
    ensures ClocksOk(after, Started(startedAt, before, after, now), now)
    ensures InFlight(after, write) == InFlight(before, write) && Untold(after, write) == Untold(before, write)
  {
    assert |after| == |after.Keys| == |before.Keys| == |before|;
  }

  /** The start times once arming is done: `now` for every request armed just now. */
  function Started(
    startedAt: map<JobId, nat>, before: map<JobId, Pending>, after: map<JobId, Pending>, now: nat): map<JobId, nat>
    requires after.Keys == before.Keys
  {
    startedAt + map id | id in after && after[id].deadline.Some? && before[id].deadline.None? :: now
  }

  // ----- the server

  datatype Cfg = Cfg(concurrency: nat, prefetch: nat, recycle: nat)

  /** The variables of the loop. `idleShare` and `inflightShare` are this child's share of the
      shared counters; `answers` is what was told to whom, in order; `accepted` and `startedAt`
      only record every id taken from the channel and when each request's clock started. */
  datatype Server = Server(
    pending: map<JobId, Pending>,
    order: seq<JobId>,
    write: Option<PendingWrite>,
    completed: nat,
    idle: bool,
    stallSince: Option<nat>,
    idleShare: int,
    inflightShare: int,
    answers: seq<(JobId, CpuOutcome)>,
    accepted: set<JobId>,
    startedAt: map<JobId, nat>,
    clock: nat)

  predicate Valid(c: Cfg, s: Server) {
    && c.concurrency >= 1
    && WindowOk(s.order, s.pending, s.write, c.concurrency, c.prefetch)
    && BudgetOk(s.pending, s.write, s.completed, c.recycle)
    && ClocksOk(s.pending, s.startedAt, s.clock)
    && Conserved(s.accepted, s.answers, Untold(s.pending, s.write))
    && AllResponses(s.answers)
    && s.idleShare == (if s.idle then 1 else 0)
    && s.inflightShare == |s.pending|
  }

  function Initial(): Server {
    Server(map[], [], None, 0, true, None, 1, 0, [], {}, map[], 0)
  }

  /** The top of the loop: this slot counts as idle iff it could start a request now, and the
      stall clock runs only while a partial write has nothing in flight to excuse it. */
  function AtHead(c: Cfg, s: Server, now: nat): Server {
    var idle := InFlight(s.pending, s.write) < c.concurrency;
    s.(clock := now, idle := idle, idleShare := if idle then 1 else 0,
       stallSince := if s.write.None? || s.pending != map[] then None
                     else if s.stallSince.Some? then s.stallSince else Some(now))
  }

  method LoopHead(c: Cfg, s: Server, now: nat) returns (s': Server)
    requires Valid(c, s) && s.clock <= now
    ensures Valid(c, s') && s' == AtHead(c, s, now)
  {
    hide WindowOk, ClocksOk, Conserved, AllResponses;
    ClocksKept(s.pending, s.startedAt, s.clock, s.pending, now);
    s' := s.(clock := now);
    var nowIdle := InFlight(s.pending, s.write) < c.concurrency;
    if nowIdle != s.idle {
      s' := s'.(idle := nowIdle, idleShare := if nowIdle then s.idleShare + 1 else s.idleShare - 1);
    }
    var anyDeadline := AnyDeadline(s.order, s.pending, s.write, c.concurrency, c.prefetch);
    if s.write.Some? && !anyDeadline {
      s' := s'.(stallSince := if s.stallSince.None? then Some(now) else s.stallSince);
    } else {
      s' := s'.(stallSince := None);
    }
  }

  /** A request is taken from the channel only into an idle writer, a window with room, and an
      unspent recycle budget. */
  predicate MayReceive(c: Cfg, s: Server, othersIdle: bool) {
    && s.write.None? && |s.pending| < c.concurrency + c.prefetch
    && (s.idle || !othersIdle)
    && (c.recycle == 0 || s.completed + |s.pending| < c.recycle)
  }

  method Receive(c: Cfg, s: Server, job: CpuJob, othersIdle: bool) returns (s': Server)
    requires Valid(c, s) && MayReceive(c, s, othersIdle) && job.id !in s.accepted
    ensures Valid(c, s')
    ensures s' == s.(write := Some(PendingWrite(job, 0)), accepted := s.accepted + {job.id})
  {
    hide Conserved, ClocksOk, AllResponses, WindowOk, BudgetOk, Untold;
    AcceptKeeps(s.accepted, s.answers, Untold(s.pending, s.write), job.id);
    PendingWereAccepted(s);
    WriteFits(c, s, job);
    s' := s.(write := Some(PendingWrite(job, 0)), accepted := s.accepted + {job.id});
  }

  lemma PendingWereAccepted(s: Server)
    requires Conserved(s.accepted, s.answers, Untold(s.pending, s.write))
    ensures s.pending.Keys <= s.accepted
  {}

  /** One more request being written keeps within the window and the budget. */
  lemma WriteFits(c: Cfg, s: Server, job: CpuJob)
    requires WindowOk(s.order, s.pending, s.write, c.concurrency, c.prefetch)
    requires s.write.None? && |s.pending| < c.concurrency + c.prefetch && job.id !in s.pending
    requires c.recycle == 0 || s.completed + |s.pending| < c.recycle
    ensures WindowOk(s.order, s.pending, Some(PendingWrite(job, 0)), c.concurrency, c.prefetch)
    ensures BudgetOk(s.pending, Some(PendingWrite(job, 0)), s.completed, c.recycle)
    ensures Untold(s.pending, Some(PendingWrite(job, 0))) == Untold(s.pending, s.write) + {job.id}
  {}

  /** `arm_started` over a window that lost or gained a request, and the start times with it. */
  method Rearm(
    c: Cfg, order: seq<JobId>, before: map<JobId, Pending>, write: Option<PendingWrite>,
    startedAt: map<JobId, nat>, now: nat, ghost armed: nat)
    returns (after: map<JobId, Pending>, started: map<JobId, nat>)
    requires Lists(order, before) && ArmedUpTo(order, before, armed) && |before| == |order|
    requires armed <= c.concurrency && armed <= |order|
    requires InFlight(before, write) <= c.concurrency + c.prefetch
    requires write.Some? ==> write.value.job.id !in before
    requires ClocksOk(before, startedAt, now)
    ensures WindowOk(order, after, write, c.concurrency, c.prefetch) && ClocksOk(after, started, now)
    ensures after.Keys == before.Keys && |after| == |before|
    ensures Untold(after, write) == Untold(before, write)
    ensures forall id :: id in before ==> ArmedFrom(before[id], after[id], now)
  {
    hide WindowOk, Lists, ArmedUpTo, ClocksOk;
    after := ArmStarted(before, order, c.concurrency, now, armed);
    ArmingKeeps(order, before, after, write, startedAt, now, c.concurrency, c.prefetch);
    started := Started(startedAt, before, after, now);
    assert |after| == |after.Keys| == |before.Keys| == |before|;
  }

  /** The partial request is all written: it is in flight behind everything sent before it, and
      started at once if the child has room. */
  method Sent(c: Cfg, s: Server) returns (s': Server)
    requires Valid(c, s) && s.write.Some?
    ensures Valid(c, s') && s'.order == s.order + [s.write.value.job.id]
    ensures s'.pending.Keys == s.pending.Keys + {s.write.value.job.id}
    ensures ArmedFrom(Pending(s.write.value.job.timeoutMs, None), s'.pending[s.write.value.job.id], s.clock)
    ensures forall id :: id in s.pending ==> ArmedFrom(s.pending[id], s'.pending[id], s.clock)
    ensures s' == s.(write := None, pending := s'.pending, order := s'.order,
                     inflightShare := s.inflightShare + 1, startedAt := s'.startedAt)
  {
    hide WindowOk, ClocksOk, Conserved, AllResponses, Untold;
    WindowSize(s.order, s.pending, s.write, c.concurrency, c.prefetch);
    var pending, order, started := Appended(c, s);
    s' := s.(write := None, pending := pending, order := order, inflightShare := s.inflightShare + 1,
             startedAt := started);
  }

  /** The window once the request being written has joined it. */
  method Appended(c: Cfg, s: Server)
    returns (pending: map<JobId, Pending>, order: seq<JobId>, started: map<JobId, nat>)
    requires WindowOk(s.order, s.pending, s.write, c.concurrency, c.prefetch) && s.write.Some?
    requires ClocksOk(s.pending, s.startedAt, s.clock)
    ensures order == s.order + [s.write.value.job.id] && |pending| == |s.pending| + 1
    ensures pending.Keys == s.pending.Keys + {s.write.value.job.id}
    ensures WindowOk(order, pending, None, c.concurrency, c.prefetch) && ClocksOk(pending, started, s.clock)
    ensures Untold(pending, None) == Untold(s.pending, s.write)
    ensures s.write.value.job.id !in s.pending
    ensures ArmedFrom(Pending(s.write.value.job.timeoutMs, None), pending[s.write.value.job.id], s.clock)
    ensures forall id :: id in s.pending ==> id in pending && ArmedFrom(s.pending[id], pending[id], s.clock)
  {
    hide WindowOk, Lists, ArmedUpTo, ClocksOk, Untold;
    var w := s.write.value;
    var grown := s.pending[w.job.id := Pending(w.job.timeoutMs, None)];
    AppendKeeps(s.order, s.pending, w, grown, c.concurrency, c.prefetch);
    WindowSize(s.order, s.pending, s.write, c.concurrency, c.prefetch);
    ClocksKept(s.pending, s.startedAt, s.clock, grown, s.clock);
    order := s.order + [w.job.id];
    pending, started := Rearm(c, order, grown, None, s.startedAt, s.clock, Min(c.concurrency, |s.order|));
  }

  /** A response to a request in flight. Its requester is told, its place in the window is freed,
      and the oldest unstarted request starts. */
  method Respond(c: Cfg, s: Server, id: JobId) returns (s': Server, recycled: bool)
    requires Valid(c, s) && id in s.pending
    ensures Valid(c, s') && s'.order == Without(s.order, id) && s'.pending.Keys == s.pending.Keys - {id}
    ensures forall x :: x in s'.pending ==> ArmedFrom(s.pending[x], s'.pending[x], s.clock)
    ensures s' == s.(pending := s'.pending, order := s'.order, inflightShare := s.inflightShare - 1,
                     answers := s.answers + [(id, Resp)], completed := s.completed + 1, startedAt := s'.startedAt)
    ensures recycled <==> c.recycle > 0 && s'.completed >= c.recycle && s'.pending == map[]
    ensures recycled ==> s'.write.None?
  {
    hide WindowOk, Lists, ArmedUpTo, ClocksOk, Conserved, AllResponses, Untold;
    WindowSize(s.order, s.pending, s.write, c.concurrency, c.prefetch);
    TellKeeps(s.accepted, s.answers, Untold(s.pending, s.write), id, Resp);
    var pending, order, started := Removed(c, s, id);
    s' := s.(pending := pending, order := order, inflightShare := s.inflightShare - 1,
             answers := s.answers + [(id, Resp)], completed := s.completed + 1, startedAt := started);
    recycled := c.recycle > 0 && s'.completed >= c.recycle && s'.pending == map[];
  }

  /** The window once request `id` has left it. */
  method Removed(c: Cfg, s: Server, id: JobId)
    returns (pending: map<JobId, Pending>, order: seq<JobId>, started: map<JobId, nat>)
    requires Valid(c, s) && id in s.pending
    ensures order == Without(s.order, id) && pending.Keys == s.pending.Keys - {id} && |pending| == |s.pending| - 1
    ensures WindowOk(order, pending, s.write, c.concurrency, c.prefetch) && ClocksOk(pending, started, s.clock)
    ensures Untold(pending, s.write) == Untold(s.pending, s.write) - {id}
    ensures forall x :: x in pending ==> ArmedFrom(s.pending[x], pending[x], s.clock)
  {
    hide WindowOk, Lists, ArmedUpTo, ClocksOk, Conserved, AllResponses;
    var shrunk := s.pending - {id};
    WindowSize(s.order, s.pending, s.write, c.concurrency, c.prefetch);
    ghost var armed := RemoveKeeps(s.order, s.pending, s.write, id, c.concurrency, c.prefetch);
    ClocksKept(s.pending, s.startedAt, s.clock, shrunk, s.clock);
    order := Without(s.order, id);
    pending, started := Rearm(c, order, shrunk, s.write, s.startedAt, s.clock, armed);
  }

  lemma WindowSize(
    order: seq<JobId>, pending: map<JobId, Pending>, write: Option<PendingWrite>, concurrency: nat, prefetch: nat)
    requires WindowOk(order, pending, write, concurrency, prefetch)
    ensures |pending| == |order| && InFlight(pending, write) <= concurrency + prefetch
    ensures pending.Keys <= Untold(pending, write)
    ensures write.Some? ==> write.value.job.id !in pending
  {}

  // ----- one turn of the loop

  /** What one wait of the select ended with, the time, and whether any other slot was idle. */
  datatype Tick = Tick(now: nat, othersIdle: bool, event: Event)

  function StallBudget(job: CpuJob): nat {
    Min(job.timeoutMs, 5000)
  }

  predicate Stalled(s: Server) {
    s.write.Some? && s.stallSince.Some? && s.stallSince.value + StallBudget(s.write.value.job) <= s.clock
  }

  predicate Expired(p: Pending, now: nat) {
    p.deadline.Some? && p.deadline.value <= now
  }

  predicate AnyExpired(pending: map<JobId, Pending>, now: nat) {
    exists id :: id in pending && Expired(pending[id], now)
  }

  /** What ending the loop for each reason guarantees about the requests it leaves behind. */
  predicate Justified(s: Server, gone: Gone) {
    match gone
    case Recycled => s.pending == map[] && s.write.None?
    case Wedged => s.pending == map[] && Stalled(s)
    case HardTimeout => AnyExpired(s.pending, s.clock)
    case Exited => true
    case Shutdown => s.write.None?
  }

  /** The request `id` is answered: told a response, gone from the window, nobody's clock reset. */
  predicate Answers(s: Server, id: JobId, s': Server) {
    && id in s.pending
    && s' == s.(pending := s'.pending, order := Without(s.order, id), inflightShare := s.inflightShare - 1,
                answers := s.answers + [(id, Resp)], completed := s.completed + 1, startedAt := s'.startedAt)
    && s'.pending.Keys == s.pending.Keys - {id}
    && forall x :: x in s'.pending ==> ArmedFrom(s.pending[x], s'.pending[x], s.clock)
  }

  /** The request being written joins the window. */
  predicate Joins(s: Server, s': Server) {
    && s.write.Some?
    && s' == s.(write := None, pending := s'.pending, order := s.order + [s.write.value.job.id],
                inflightShare := s.inflightShare + 1, startedAt := s'.startedAt)
    && s'.pending.Keys == s.pending.Keys + {s.write.value.job.id}
    && ArmedFrom(Pending(s.write.value.job.timeoutMs, None), s'.pending[s.write.value.job.id], s.clock)
    && forall id :: id in s.pending ==> id in s'.pending && ArmedFrom(s.pending[id], s'.pending[id], s.clock)
  }

  /** What each branch of the select does to the state, and which of them end the loop. */
  predicate Effect(c: Cfg, s: Server, tick: Tick, s': Server, gone: Option<Gone>) {
    match tick.event
    case Line(id) =>
      if id.Some? && id.value in s.pending then
        && Answers(s, id.value, s')
        && gone == if c.recycle > 0 && s.completed + 1 >= c.recycle && s.pending.Keys == {id.value}
                   then Some(Recycled) else None
      else s' == s && gone.None?
    case Received(job) =>
      && gone.None?
      && s' == if MayReceive(c, s, tick.othersIdle)
               then s.(write := Some(PendingWrite(job, 0)), accepted := s.accepted + {job.id}) else s
    case Wrote(n) =>
      if s.write.None? || n == 0 then s' == s && gone == if s.write.Some? then Some(Exited) else None
      else
        && gone.None?
        && if s.write.value.sent + n < s.write.value.job.length
           then s' == s.(write := Some(s.write.value.(sent := s.write.value.sent + n))) else Joins(s, s')
    case Closed => s' == s && gone == Some(Exited)
    case ChannelClosed => s' == s && gone == if MayReceive(c, s, tick.othersIdle) then Some(Shutdown) else None
    case WriteFailed => s' == s && gone == if s.write.Some? then Some(Exited) else None
    case DeadlinePassed => s' == s && gone == if AnyExpired(s.pending, s.clock) then Some(HardTimeout) else None
    case StallPassed => s' == s && gone == if Stalled(s) then Some(Wedged) else None
    case IdleDropped => s' == s && gone.None?
  }

  lemma LastOneLeft(before: map<JobId, Pending>, after: map<JobId, Pending>, id: JobId)
    requires id in before && after.Keys == before.Keys - {id}
    ensures after == map[] <==> before.Keys == {id}
  {
    if after == map[] {
      assert before.Keys - {id} == {};
      forall x | x in before.Keys ensures x == id {
        assert x in before.Keys - {id} || x == id;
      }
    } else {
      var x :| x in after;
      assert x in before.Keys && x != id;
    }
  }

  /** One branch of the select; a branch whose guard is false is never taken. */
  method Handle(c: Cfg, s: Server, tick: Tick) returns (s': Server, gone: Option<Gone>)
    requires Valid(c, s) && s.clock == tick.now
    requires s.stallSince.Some? ==> s.pending == map[]
    requires tick.event.Received? ==> tick.event.job.id !in s.accepted
    ensures Valid(c, s') && Effect(c, s, tick, s', gone)
    ensures gone.Some? ==> Justified(s', gone.value)
  {
    hide Valid, AnyExpired, ArmedFrom;
    s', gone := s, None;
    match tick.event
    case Line(id) =>
      if id.Some? && id.value in s.pending {
        var recycled;
        s', recycled := Respond(c, s, id.value);
        LastOneLeft(s.pending, s'.pending, id.value);
        gone := if recycled then Some(Recycled) else None;
      }
    case Closed => gone := Some(Exited);
    case Received(job) =>
      if MayReceive(c, s, tick.othersIdle) {
        s' := Receive(c, s, job, tick.othersIdle);
      }
    case ChannelClosed =>
      if MayReceive(c, s, tick.othersIdle) {
        gone := Some(Shutdown);
      }
    case Wrote(n) =>
      if s.write.Some? {
        if n == 0 {
          gone := Some(Exited);
        } else if s.write.value.sent + n < s.write.value.job.length {
          s' := Progress(c, s, n);
        } else {
          s' := Sent(c, s);
        }
      }
    case WriteFailed =>
      if s.write.Some? {
        gone := Some(Exited);
      }
    case DeadlinePassed =>
      if AnyExpired(s.pending, s.clock) {
        gone := Some(HardTimeout);
      }
    case StallPassed =>
      if Stalled(s) {
        gone := Some(Wedged);
      }
    case IdleDropped =>
  }

  /** Part of the partial request reached the socket, not all of it. */
  method Progress(c: Cfg, s: Server, n: nat) returns (s': Server)
    requires Valid(c, s) && s.write.Some? && s.write.value.sent + n < s.write.value.job.length
    ensures Valid(c, s')
    ensures s' == s.(write := Some(s.write.value.(sent := s.write.value.sent + n)))
  {
    hide Lists, ArmedUpTo, Conserved, AllResponses;
    s' := s.(write := Some(s.write.value.(sent := s.write.value.sent + n)));
  }

  // ----- the way out

  /** A request past its own deadline when the child is killed for one is a timeout; every other
      request the child still had is lost, and can be retried. */
  function ExitOutcome(gone: Gone, p: Pending, now: nat): CpuOutcome {
    if gone == HardTimeout && Expired(p, now) then Timeout else Lost
  }

  /** Each request left is told once what its own state calls for, the partial write first. */
  predicate ExitAnswers(s: Server, gone: Gone, now: nat, told: seq<(JobId, CpuOutcome)>) {
    forall a :: a in told ==>
      if a.0 in s.pending then a.1 == ExitOutcome(gone, s.pending[a.0], now)
      else s.write.Some? && a == (s.write.value.job.id, Lost)
  }

  method Drain(
    accepted: set<JobId>, answers: seq<(JobId, CpuOutcome)>, pending: map<JobId, Pending>, gone: Gone, now: nat)
    returns (told: seq<(JobId, CpuOutcome)>)
    requires Conserved(accepted, answers, pending.Keys)
    ensures Conserved(accepted, answers + told, {}) && |told| == |pending|
    ensures forall a :: a in told ==> a.0 in pending && a.1 == ExitOutcome(gone, pending[a.0], now)
  {
    hide Conserved;
    told := [];
    var left := pending;
    assert answers + told == answers;
    while left != map[]
      invariant left.Keys <= pending.Keys && forall id :: id in left ==> left[id] == pending[id]
      invariant Conserved(accepted, answers + told, left.Keys)
      invariant |told| + |left| == |pending|
      invariant forall a :: a in told ==> a.0 in pending && a.1 == ExitOutcome(gone, pending[a.0], now)
      decreases |left|
    {
      var id :| id in left;
      TellKeeps(accepted, answers + told, left.Keys, id, ExitOutcome(gone, left[id], now));
      assert answers + told + [(id, ExitOutcome(gone, left[id], now))]
          == answers + (told + [(id, ExitOutcome(gone, left[id], now))]);
      told := told + [(id, ExitOutcome(gone, left[id], now))];
      ghost var keys := left.Keys - {id};
      left := left - {id};
      assert left.Keys == keys;
      assert |left| == |left.Keys|;
    }
    assert left.Keys == {};
  }

  /** The partial write is told first. */
  method TellPartial(s: Server) returns (first: seq<(JobId, CpuOutcome)>)
    requires Conserved(s.accepted, s.answers, Untold(s.pending, s.write))
    requires s.write.Some? ==> s.write.value.job.id !in s.pending
    ensures first == if s.write.Some? then [(s.write.value.job.id, Lost)] else []
    ensures Conserved(s.accepted, s.answers + first, s.pending.Keys)
  {
    hide Conserved;
    if s.write.Some? {
      first := [(s.write.value.job.id, Lost)];
      TellKeeps(s.accepted, s.answers, Untold(s.pending, s.write), s.write.value.job.id, Lost);
      assert Untold(s.pending, s.write) - {s.write.value.job.id} == s.pending.Keys;
    } else {
      first := [];
      assert s.answers + first == s.answers;
      assert Untold(s.pending, s.write) == s.pending.Keys;
    }
  }

  /** Everything after the loop: every request not answered yet gets its outcome, and this child
      gives back its share of both counters. */
  method Finish(c: Cfg, s: Server, gone: Gone, now: nat) returns (s': Server)
    requires Valid(c, s) && s.clock <= now
    ensures s.answers <= s'.answers && s'.accepted == s.accepted
    ensures Conserved(s'.accepted, s'.answers, {})
    ensures ExitAnswers(s, gone, now, s'.answers[|s.answers|..])
    ensures |s'.answers| == |s.answers| + InFlight(s.pending, s.write)
    ensures s'.pending == map[] && s'.write.None? && s'.inflightShare == 0 && s'.idleShare == 1
  {
    hide WindowOk, Conserved, AllResponses, ClocksOk, BudgetOk, Untold;
    WindowSize(s.order, s.pending, s.write, c.concurrency, c.prefetch);
    var first := TellPartial(s);
    var told := Drain(s.accepted, s.answers + first, s.pending, gone, now);
    assert s.answers + first + told == s.answers + (first + told);
    s' := s.(answers := s.answers + (first + told), pending := map[], order := [], write := None,
             inflightShare := s.inflightShare - |s.pending|, idle := true,
             idleShare := if s.idle then s.idleShare else s.idleShare + 1);
    assert s'.answers[|s.answers|..] == first + told;
  }

  // ----- the whole life of a child

  predicate InOrder(ticks: seq<Tick>) {
    forall i, j :: 0 <= i < j < |ticks| ==> ticks[i].now <= ticks[j].now
  }

  /** The wire ids on the job channel are unique (`run_cpu_task` numbers them). */
  predicate FreshIds(ticks: seq<Tick>) {
    forall i, j :: 0 <= i < j < |ticks| && ticks[i].event.Received? && ticks[j].event.Received? ==>
      ticks[i].event.job.id != ticks[j].event.job.id
  }

  ghost function IdsBefore(ticks: seq<Tick>, i: nat): set<JobId>
    requires i <= |ticks|
  {
    set j | 0 <= j < i && ticks[j].event.Received? :: ticks[j].event.job.id
  }

  /** One turn of the loop, from its head. */
  method Turn(c: Cfg, s: Server, tick: Tick) returns (s': Server, gone: Option<Gone>)
    requires Valid(c, s) && s.clock <= tick.now
    requires tick.event.Received? ==> tick.event.job.id !in s.accepted
    ensures Valid(c, s') && Effect(c, AtHead(c, s, tick.now), tick, s', gone)
    ensures gone.Some? ==> Justified(s', gone.value)
  {
    hide Valid, Justified, Effect;
    s' := LoopHead(c, s, tick.now);
    s', gone := Handle(c, s', tick);
  }

  /** The states at the loop's head, one per turn, and how the last turn ended. */
  ghost predicate IsHistory(c: Cfg, ticks: seq<Tick>, states: seq<Server>, gone: Option<Gone>) {
    && IsHistorySoFar(c, ticks, states, gone)
    && (gone.None? ==> |states| == |ticks| + 1)
    && (gone.Some? ==> |states| > 1)
  }

  ghost predicate IsHistorySoFar(c: Cfg, ticks: seq<Tick>, states: seq<Server>, gone: Option<Gone>) {
    && 0 < |states| <= |ticks| + 1 && states[0] == Initial()
    && (forall i :: 0 <= i < |states| ==> Valid(c, states[i]))
    && (forall i :: 0 <= i < |states| - 1 ==>
          Effect(c, AtHead(c, states[i], ticks[i].now), ticks[i], states[i + 1],
                 if i == |states| - 2 then gone else None))
  }

  lemma OneTurnMore(
    c: Cfg, ticks: seq<Tick>, states: seq<Server>, s: Server, gone: Option<Gone>)
    requires IsHistorySoFar(c, ticks, states, None) && |states| <= |ticks| && Valid(c, s)
    requires var n := |states| - 1; Effect(c, AtHead(c, states[n], ticks[n].now), ticks[n], s, gone)
    ensures IsHistorySoFar(c, ticks, states + [s], gone)
  {
    hide Valid, Effect, AtHead;
  }

  /** What a turn from this state tells: a response, if it reads one for a request in flight. */
  function Responded(s: Server, tick: Tick): seq<(JobId, CpuOutcome)> {
    if tick.event.Line? && tick.event.id.Some? && tick.event.id.value in s.pending
    then [(tick.event.id.value, Resp)] else []
  }

  /** What a turn from this state takes: a request, if it arrives when the loop is willing to. */
  ghost function TakenNow(c: Cfg, s: Server, tick: Tick): set<JobId> {
    if tick.event.Received? && MayReceive(c, AtHead(c, s, tick.now), tick.othersIdle)
    then {tick.event.job.id} else {}
  }

  /** The responses read for requests in flight, in order. */
  ghost function Responses(ticks: seq<Tick>, states: seq<Server>, n: nat): seq<(JobId, CpuOutcome)>
    requires n <= |ticks| && n <= |states|
  {
    if n == 0 then [] else Responses(ticks, states, n - 1) + Responded(states[n - 1], ticks[n - 1])
  }

  /** The requests that arrived when the loop was willing to take one. */
  ghost function Taken(c: Cfg, ticks: seq<Tick>, states: seq<Server>, n: nat): set<JobId>
    requires n <= |ticks| && n <= |states|
  {
    if n == 0 then {} else Taken(c, ticks, states, n - 1) + TakenNow(c, states[n - 1], ticks[n - 1])
  }

  lemma EffectOnBooks(c: Cfg, s: Server, tick: Tick, s': Server, gone: Option<Gone>)
    requires Effect(c, s, tick, s', gone)
    ensures s'.clock == s.clock
    ensures s'.answers == s.answers
              + (if tick.event.Line? && tick.event.id.Some? && tick.event.id.value in s.pending
                 then [(tick.event.id.value, Resp)] else [])
    ensures s'.accepted == s.accepted
              + (if tick.event.Received? && MayReceive(c, s, tick.othersIdle) then {tick.event.job.id} else {})
  {
    hide ArmedFrom;
    assert s.answers + [] == s.answers;
  }

  /** The same of a whole turn: its head tells and takes nothing. */
  lemma TurnOnBooks(c: Cfg, s: Server, tick: Tick, s': Server, gone: Option<Gone>)
    requires Effect(c, AtHead(c, s, tick.now), tick, s', gone)
    ensures s'.clock == tick.now
    ensures s'.answers == s.answers + Responded(s, tick)
    ensures s'.accepted == s.accepted + TakenNow(c, s, tick)
  {
    hide Effect, MayReceive;
    EffectOnBooks(c, AtHead(c, s, tick.now), tick, s', gone);
  }

  /** At every turn: told so far is a response for exactly the response lines of requests in flight,
      and accepted so far are exactly the requests that arrived when one could be taken. */
  lemma {:induction false} BooksAreExact(c: Cfg, ticks: seq<Tick>, states: seq<Server>, gone: Option<Gone>, i: nat)
    requires IsHistory(c, ticks, states, gone) && i < |states|
    ensures states[i].answers == Responses(ticks, states, i)
    ensures states[i].accepted == Taken(c, ticks, states, i)
  {
    hide Valid, Effect, AtHead, TakenNow, Responded;
    if i > 0 {
      BooksAreExact(c, ticks, states, gone, i - 1);
      assert states[i - 1 + 1] == states[i];
      TurnOnBooks(c, states[i - 1], ticks[i - 1], states[i], if i == |states| - 1 then gone else None);
    }
  }

  /** Serve one child through any sequence of events, until one of them ends it. Every turn does what
      its event calls for and keeps the window, budget and conservation invariants; at the end every
      request taken from the channel was told exactly one outcome and both counters are back where
      they started. `states` are those at the loop's head, `last` the one it ended in. */
  method ServeChild(c: Cfg, ticks: seq<Tick>, after: nat)
    returns (s: Server, gone: Option<Gone>, last: Server, ghost states: seq<Server>)
    requires c.concurrency >= 1 && InOrder(ticks) && FreshIds(ticks)
    requires ticks != [] ==> ticks[|ticks| - 1].now <= after
    ensures IsHistory(c, ticks, states, gone) && last == states[|states| - 1] && last.clock <= after
    ensures last.answers == Responses(ticks, states, |states| - 1)
    ensures last.accepted == Taken(c, ticks, states, |states| - 1)
    ensures gone.None? ==> s == last
    ensures gone.Some? ==> Justified(last, gone.value) && last.answers <= s.answers
    ensures gone.Some? ==> ExitAnswers(last, gone.value, after, s.answers[|last.answers|..])
    ensures gone.Some? ==> |s.answers| == |last.answers| + InFlight(last.pending, last.write)
    ensures gone.Some? ==> Conserved(s.accepted, s.answers, {}) && s.accepted == last.accepted
    ensures gone.Some? ==> s.inflightShare == 0 && s.idleShare == 1
  {
    hide Valid, Conserved, ExitAnswers, Justified, Effect, IsHistorySoFar, AtHead, IdsBefore;
    s, gone := Initial(), None;
    InitialIsValid(c);
    states := [s];
    FirstTurn(c, ticks);
    var i := 0;
    while i < |ticks| && gone.None?
      invariant i <= |ticks| && |states| == i + 1 && states[i] == s && (i == 0 ==> gone.None?)
      invariant Valid(c, s) && IsHistorySoFar(c, ticks, states, gone)
      invariant s.clock == if i > 0 then ticks[i - 1].now else 0
      invariant s.accepted <= IdsBefore(ticks, i)
      invariant gone.Some? ==> Justified(s, gone.value)
    {
      NextIdIsFresh(ticks, i);
      ghost var before := s;
      s, gone := Turn(c, s, ticks[i]);
      TurnOnBooks(c, before, ticks[i], s, gone);
      OneTurnMore(c, ticks, states, s, gone);
      states := states + [s];
      i := i + 1;
    }
    last := s;
    BooksAreExact(c, ticks, states, gone, i);
    if gone.Some? {
      s := Finish(c, s, gone.value, after);
    }
  }

  lemma FirstTurn(c: Cfg, ticks: seq<Tick>)
    requires c.concurrency >= 1
    ensures IsHistorySoFar(c, ticks, [Initial()], None) && IdsBefore(ticks, 0) == {}
  {
    InitialIsValid(c);
  }

  lemma NextIdIsFresh(ticks: seq<Tick>, i: nat)
    requires FreshIds(ticks) && i < |ticks|
    ensures ticks[i].event.Received? ==> ticks[i].event.job.id !in IdsBefore(ticks, i)
    ensures IdsBefore(ticks, i + 1)
         == IdsBefore(ticks, i) + if ticks[i].event.Received? then {ticks[i].event.job.id} else {}
  {}

  lemma InitialIsValid(c: Cfg)
    requires c.concurrency >= 1
    ensures Valid(c, Initial())
  {}

  // ----- who is taken

  /** A request that arrives is taken iff nothing is being written, fewer than `concurrency` plus `prefetch`
      requests are in flight, one could start at once or no other slot is idle, and answered and in flight
      ones together are below a recycle budget if there is one. */
  lemma AdmissionIsExact(c: Cfg, s: Server, tick: Tick, s': Server, gone: Option<Gone>)
    requires tick.event.Received? && tick.event.job.id !in s.accepted
    requires Effect(c, AtHead(c, s, tick.now), tick, s', gone)
    ensures var taken := && s.write.None? && |s.pending| < c.concurrency + c.prefetch
                         && (|s.pending| < c.concurrency || !tick.othersIdle)
                         && (c.recycle == 0 || s.completed + |s.pending| < c.recycle);
            && gone.None? && (tick.event.job.id in s'.accepted <==> taken)
            && s'.write == (if taken then Some(PendingWrite(tick.event.job, 0)) else s.write)
            && s'.pending == s.pending && s'.order == s.order && s'.completed == s.completed
  {}

  /** These requests arrive one after the other, each is written in full if it is taken, and no other
      slot is idle. */
  ghost predicate Feeds(c: Cfg, s: Server, jobs: seq<CpuJob>, now: nat, s': Server)
    decreases |jobs|
  {
    if jobs == [] then s' == s
    else
      exists m, m' ::
        && Effect(c, AtHead(c, s, now), Tick(now, false, Received(jobs[0])), m, None)
        && Effect(c, AtHead(c, m, now), Tick(now, false, Wrote(jobs[0].length)), m', None)
        && Feeds(c, m', jobs[1..], now, s')
  }

  lemma FedOne(c: Cfg, s: Server, job: CpuJob, now: nat, m: Server, s': Server)
    requires c.recycle == 0 && s.write.None? && job.length > 0 && job.id !in s.pending
    requires Effect(c, AtHead(c, s, now), Tick(now, false, Received(job)), m, None)
    requires Effect(c, AtHead(c, m, now), Tick(now, false, Wrote(job.length)), s', None)
    ensures s'.write.None?
    ensures if |s.pending| < c.concurrency + c.prefetch
            then |s'.pending| == |s.pending| + 1 && s'.pending.Keys == s.pending.Keys + {job.id}
            else s'.pending == s.pending
  {
    hide ArmedFrom;
    if |s.pending| < c.concurrency + c.prefetch {
      assert m.write == Some(PendingWrite(job, 0)) && m.pending == s.pending;
      assert |s'.pending| == |s'.pending.Keys| && |s.pending| == |s.pending.Keys|;
    }
  }

  /** Without a recycle budget the window fills up to exactly `concurrency` plus `prefetch`. */
  lemma {:induction false} WindowFills(c: Cfg, s: Server, jobs: seq<CpuJob>, now: nat, s': Server)
    requires c.recycle == 0 && s.write.None? && |s.pending| <= c.concurrency + c.prefetch
    requires forall j :: 0 <= j < |jobs| ==> jobs[j].length > 0 && jobs[j].id !in s.pending
    requires forall j, k :: 0 <= j < k < |jobs| ==> jobs[j].id != jobs[k].id
    requires Feeds(c, s, jobs, now, s')
    ensures s'.write.None? && |s'.pending| == Min(|s.pending| + |jobs|, c.concurrency + c.prefetch)
    decreases |jobs|
  {
    hide Effect;
    if jobs != [] {
      var m, m' :|
        && Effect(c, AtHead(c, s, now), Tick(now, false, Received(jobs[0])), m, None)
        && Effect(c, AtHead(c, m, now), Tick(now, false, Wrote(jobs[0].length)), m', None)
        && Feeds(c, m', jobs[1..], now, s');
      FedOne(c, s, jobs[0], now, m, m');
      WindowFills(c, m', jobs[1..], now, s');
    }
  }

  // ----- what the exits mean

  /** A deadline ends the loop iff one of the oldest `concurrency` requests has had its whole timeout
      since it started. */
  lemma DeadlineEndsTheLoop(c: Cfg, s: Server, tick: Tick, s': Server, gone: Option<Gone>)
    requires Valid(c, s) && tick.event.DeadlinePassed? && Effect(c, AtHead(c, s, tick.now), tick, s', gone)
    ensures gone == (if exists k :: 0 <= k < |s.order| && k < c.concurrency && IsOverdue(s, s.order[k], tick.now)
                     then Some(HardTimeout) else None)
  {
    hide Conserved, AllResponses, BudgetOk;
    if id :| id in s.pending && Expired(s.pending[id], tick.now) {
      var k :| 0 <= k < |s.order| && s.order[k] == id;
      assert IsOverdue(s, s.order[k], tick.now);
    }
  }

  predicate IsOverdue(s: Server, id: JobId, now: nat) {
    id in s.pending && id in s.startedAt && s.startedAt[id] + s.pending[id].timeoutMs <= now
  }

  /** At every turn from `j` to `i` the same request was partly written and nothing was in flight. */
  ghost predicate StuckFrom(states: seq<Server>, j: nat, i: nat) {
    && j <= i < |states|
    && forall k :: j <= k <= i ==>
         states[k].pending == map[] && states[k].write.Some? && states[i].write.Some?
         && states[k].write.value.job == states[i].write.value.job
  }

  predicate IsStuck(s: Server) { s.write.Some? && s.pending == map[] }

  /** One turn keeps the stall clock and the request that is being written, as far as it stays stuck. */
  lemma StuckStays(c: Cfg, s: Server, tick: Tick, s': Server, gone: Option<Gone>)
    requires Effect(c, AtHead(c, s, tick.now), tick, s', gone)
    ensures s'.stallSince == AtHead(c, s, tick.now).stallSince
    ensures IsStuck(s) && IsStuck(s') ==> s'.write.value.job == s.write.value.job
  {
    hide ArmedFrom;
    if tick.event.Line? {
      assert IsStuck(s) ==> s.pending == map[];
    }
  }

  /** The stall clock started at the first turn of the unbroken stretch that the loop is stuck in. */
  lemma {:induction false} StallClock(c: Cfg, ticks: seq<Tick>, states: seq<Server>, gone: Option<Gone>, i: nat)
    returns (j: nat)
    requires IsHistorySoFar(c, ticks, states, gone) && i < |states| && i < |ticks| && IsStuck(states[i])
    ensures StuckFrom(states, j, i) && (j == 0 || !IsStuck(states[j - 1]))
    ensures AtHead(c, states[i], ticks[i].now).stallSince == Some(ticks[j].now)
  {
    hide Valid, Effect;
    if i > 0 {
      var end := if i - 1 == |states| - 2 then gone else None;
      assert Effect(c, AtHead(c, states[i - 1], ticks[i - 1].now), ticks[i - 1], states[i - 1 + 1], end);
      StuckStays(c, states[i - 1], ticks[i - 1], states[i], end);
      if IsStuck(states[i - 1]) {
        j := StallClock(c, ticks, states, gone, i - 1);
      } else {
        j := i;
      }
    } else {
      j := 0;
    }
  }

  /** A child is presumed wedged iff, when its stall timer fires, one request has been partly written with
      nothing in flight for its timeout or five seconds, whichever is shorter. */
  lemma WedgedIffStalled(c: Cfg, ticks: seq<Tick>, states: seq<Server>, gone: Option<Gone>)
    requires IsHistory(c, ticks, states, gone) && |states| >= 2 && InOrder(ticks)
    ensures var n := |states| - 2;
            gone == Some(Wedged) <==>
              && ticks[n].event.StallPassed? && IsStuck(states[n])
              && exists j :: 0 <= j <= n && StuckFrom(states, j, n)
                             && ticks[n].now - ticks[j].now >= Min(states[n].write.value.job.timeoutMs, 5000)
  {
    hide Valid, ArmedFrom;
    var n := |states| - 2;
    var head := AtHead(c, states[n], ticks[n].now);
    assert Effect(c, head, ticks[n], states[n + 1], gone);
    if IsStuck(states[n]) {
      var first := StallClock(c, ticks, states, gone, n);
      assert forall j: nat :: StuckFrom(states, j, n) && j <= first - 1 ==> IsStuck(states[first - 1]);
    }
  }

  lemma AnswersAreCounted(c: Cfg, s: Server, tick: Tick, s': Server, gone: Option<Gone>)
    requires Effect(c, AtHead(c, s, tick.now), tick, s', gone) && s.completed == |s.answers|
    ensures s'.completed == |s'.answers| <= s.completed + 1
  {
    hide ArmedFrom;
  }

  /** The answer that spends the budget leaves nothing in flight, so it ends the loop. */
  lemma BudgetSpent(c: Cfg, s: Server, tick: Tick, s': Server, gone: Option<Gone>)
    requires Valid(c, s') && Effect(c, AtHead(c, s, tick.now), tick, s', gone)
    requires c.recycle > 0 && s.completed < c.recycle
    ensures s'.completed <= c.recycle && (gone == Some(Recycled) <==> s'.completed == c.recycle)
  {
    hide WindowOk, ClocksOk, Conserved, AllResponses, ArmedFrom;
    assert s'.completed == c.recycle ==> |s'.pending| == 0;
    if tick.event.Line? && tick.event.id.Some? && tick.event.id.value in s.pending {
      LastOneLeft(s.pending, s'.pending, tick.event.id.value);
    }
  }

  /** With a recycle budget the child is recycled exactly when it has answered that many requests. */
  lemma {:induction false} RecycledAtItsBudget(
    c: Cfg, ticks: seq<Tick>, states: seq<Server>, gone: Option<Gone>, i: nat)
    requires IsHistory(c, ticks, states, gone) && c.recycle > 0 && i < |states|
    ensures states[i].completed == |states[i].answers| <= c.recycle
    ensures |states[i].answers| == c.recycle <==> i == |states| - 1 && gone == Some(Recycled)
  {
    hide Valid, Effect;
    if i > 0 {
      RecycledAtItsBudget(c, ticks, states, gone, i - 1);
      var end := if i - 1 == |states| - 2 then gone else None;
      assert Effect(c, AtHead(c, states[i - 1], ticks[i - 1].now), ticks[i - 1], states[i - 1 + 1], end);
      AnswersAreCounted(c, states[i - 1], ticks[i - 1], states[i], end);
      BudgetSpent(c, states[i - 1], ticks[i - 1], states[i], end);
    }
  }

  /** A planned recycle abandons no request: everything accepted was answered with a response. */
  lemma RecycledAbandonsNothing(c: Cfg, last: Server, answers: seq<(JobId, CpuOutcome)>)
    requires Valid(c, last) && Justified(last, Recycled) && last.answers <= answers
    requires |answers| == |last.answers| + InFlight(last.pending, last.write)
    ensures AllResponses(answers)
  {
    assert answers == last.answers;
  }

  /** A child presumed wedged had nothing in flight: the one request told after the loop is the one
      it never read, and it is told Lost. */
  lemma WedgedLosesOnlyThePartialWrite(c: Cfg, last: Server, after: nat, answers: seq<(JobId, CpuOutcome)>)
    requires Valid(c, last) && Justified(last, Wedged) && last.answers <= answers
    requires |answers| == |last.answers| + InFlight(last.pending, last.write)
    requires ExitAnswers(last, Wedged, after, answers[|last.answers|..])
    ensures AllResponses(last.answers) && last.write.Some?
    ensures answers == last.answers + [(last.write.value.job.id, Lost)]
  {
    hide WindowOk, BudgetOk, ClocksOk, Conserved, AllResponses;
    var told := answers[|last.answers|..];
    assert |told| == 1 && told[0] in told;
    assert answers == last.answers + told;
  }

  /** No request times out before it has been one of the oldest `concurrency` outstanding for its
      whole timeout. */
  lemma TimeoutsAreEarned(
    c: Cfg, last: Server, gone: Gone, after: nat, told: seq<(JobId, CpuOutcome)>, id: JobId)
    requires Valid(c, last) && ExitAnswers(last, gone, after, told) && (id, Timeout) in told
    ensures gone == HardTimeout && id in last.pending && id in last.startedAt
    ensures last.startedAt[id] + last.pending[id].timeoutMs <= after
    ensures id in last.order[..Min(c.concurrency, |last.order|)]
  {
    var k :| 0 <= k < |last.order| && last.order[k] == id;
    assert last.order[..Min(c.concurrency, |last.order|)][k] == id;
  }

  /** Who is in flight was accepted and has not been told anything. */
  lemma InFlightIsUntold(c: Cfg, s: Server, id: JobId)
    requires Valid(c, s) && id in s.pending
    ensures id in s.accepted && id !in Told(s.answers)
  {}

  lemma ToldLater(before: seq<(JobId, CpuOutcome)>, all: seq<(JobId, CpuOutcome)>, id: JobId)
    returns (a: (JobId, CpuOutcome))
    requires before <= all && id in Told(all) && id !in Told(before)
    ensures a in all[|before|..] && a.0 == id
  {
    a :| a in all && a.0 == id;
    assert all == before + all[|before|..];
  }

  /** Of the requests in flight at the end, exactly those are told Timeout that were among the oldest
      `concurrency` and have had their whole timeout since they started, and only after a hard timeout. */
  lemma TimeoutsAreExact(
    c: Cfg, last: Server, gone: Gone, after: nat, answers: seq<(JobId, CpuOutcome)>, id: JobId)
    requires Valid(c, last) && last.answers <= answers && last.accepted == Told(answers) && id in last.pending
    requires ExitAnswers(last, gone, after, answers[|last.answers|..])
    ensures (id, Timeout) in answers[|last.answers|..] <==>
              && gone == HardTimeout && IsOverdue(last, id, after)
              && id in last.order[..Min(c.concurrency, |last.order|)]
  {
    InFlightIsUntold(c, last, id);
    var a := ToldLater(last.answers, answers, id);
    hide Conserved, AllResponses, BudgetOk, Told;
    if id in last.order[..Min(c.concurrency, |last.order|)] {
      var k :| 0 <= k < Min(c.concurrency, |last.order|) && last.order[k] == id;
      assert last.pending[last.order[k]].deadline.Some?;
    }
    if (id, Timeout) in answers[|last.answers|..] {
      TimeoutsAreEarned(c, last, gone, after, answers[|last.answers|..], id);
    }
  }

  /** A child killed for a hard timeout has at least one request told so. */
  lemma HardTimeoutTellsOne(
    c: Cfg, last: Server, after: nat, answers: seq<(JobId, CpuOutcome)>, accepted: set<JobId>)
    requires Valid(c, last) && Justified(last, HardTimeout) && last.clock <= after && last.answers <= answers
    requires ExitAnswers(last, HardTimeout, after, answers[|last.answers|..])
    requires accepted == Told(answers) && last.accepted <= accepted
    ensures exists a :: a in answers[|last.answers|..] && a.1 == Timeout
  {
    hide Valid, Told;
    var id :| id in last.pending && Expired(last.pending[id], last.clock);
    InFlightIsUntold(c, last, id);
    var a := ToldLater(last.answers, answers, id);
  }
}
