/** The completion buffers of one queue: how requests are batched, and how one batch is written,
    answered and acked. Redis's replies and the round trips' fates are parameters. */
module CompletionFlush {
  import opened Options
  import opened StreamIds
  import Delivery

  /** One buffered completion: the entry to ack and the commands that must land before. */
  datatype AckReq = AckReq(id: Id, env: Delivery.Envelope, extra: seq<Delivery.Write>)

  /** What a waiter is told. `Refused` names the first of its own commands Redis refused. */
  datatype FlushOutcome =
    | Flushed
    | Refused(command: nat)
    | WriteTripFailed
    | AckTripFailed

  /** The position of request `i`'s first command in the pipeline. */
  ghost function Offset(batch: seq<AckReq>, i: nat): (at: nat)
    requires i <= |batch|
  {
    if i == 0 then 0 else Offset(batch, i - 1) + |batch[i - 1].extra|
  }

  lemma {:induction false} OffsetGrows(batch: seq<AckReq>, i: nat, j: nat)
    requires i <= j <= |batch|
    ensures Offset(batch, i) <= Offset(batch, j)
    decreases j
  {
    if i < j { OffsetGrows(batch, i, j - 1); }
  }

  /** Redis answers the write pipeline with one reply per command, or the trip fails. */
  ghost predicate Answers(batch: seq<AckReq>, replies: Option<seq<bool>>) {
    replies.Some? ==> |replies.value| == Offset(batch, |batch|)
  }

  /** Every own command of request `i` was executed and accepted. */
  ghost predicate Written(batch: seq<AckReq>, replies: Option<seq<bool>>, i: nat)
    requires i < |batch| && Answers(batch, replies)
  {
    Offset(batch, |batch|) == 0 ||
    (replies.Some? && forall p :: Offset(batch, i) <= p < Offset(batch, i + 1) && p < |replies.value| ==> replies.value[p])
  }

  /** The position in the pipeline of command `p` belongs to request `owner[p]`. */
  ghost predicate Owns(batch: seq<AckReq>, owner: seq<nat>) {
    && |owner| == Offset(batch, |batch|)
    && forall p :: 0 <= p < |owner| ==>
         owner[p] < |batch| && Offset(batch, owner[p]) <= p < Offset(batch, owner[p] + 1)
  }

  method Owners(batch: seq<AckReq>) returns (owner: seq<nat>)
    ensures Owns(batch, owner)
  {
    owner := [];
    for i := 0 to |batch|
      invariant |owner| == Offset(batch, i)
      invariant forall p :: 0 <= p < |owner| ==>
                  owner[p] < i && Offset(batch, owner[p]) <= p < Offset(batch, owner[p] + 1)
    {
      for k := 0 to |batch[i].extra|
        invariant |owner| == Offset(batch, i) + k
        invariant forall p :: 0 <= p < |owner| ==>
                    owner[p] <= i && Offset(batch, owner[p]) <= p < Offset(batch, owner[p] + 1)
      {
        owner := owner + [i];
      }
    }
  }

  lemma {:induction false} OwnerIsUnique(batch: seq<AckReq>, i: nat, j: nat, p: nat)
    requires i < |batch| && j < |batch|
    requires Offset(batch, i) <= p < Offset(batch, i + 1)
    requires Offset(batch, j) <= p < Offset(batch, j + 1)
    ensures i == j
  {
    if i < j { OffsetGrows(batch, i + 1, j); }
    if j < i { OffsetGrows(batch, j + 1, i); }
  }

  /** The replies folded into one outcome per request, the first refusal kept. */
  method FirstRefusals(owner: seq<nat>, replies: seq<bool>, n: nat) returns (outcomes: seq<FlushOutcome>)
    requires |replies| == |owner| && forall p :: 0 <= p < |owner| ==> owner[p] < n
    ensures |outcomes| == n
    ensures forall i :: 0 <= i < n ==> outcomes[i] == Flushed || outcomes[i].Refused?
    ensures forall i, p :: 0 <= i < n && 0 <= p < |owner| && owner[p] == i && outcomes[i] == Flushed ==> replies[p]
    ensures forall i :: 0 <= i < n && outcomes[i].Refused? ==> IsFirstRefusal(owner, replies, i, outcomes[i].command)
  {
    outcomes := seq(n, _ => Flushed);
    for j := 0 to |owner|
      invariant |outcomes| == n
      invariant forall i :: 0 <= i < n ==> outcomes[i] == Flushed || outcomes[i].Refused?
      invariant forall i, p :: 0 <= i < n && 0 <= p < j && owner[p] == i && outcomes[i] == Flushed ==> replies[p]
      invariant forall i :: 0 <= i < n && outcomes[i].Refused? ==> IsFirstRefusal(owner, replies, i, outcomes[i].command)
    {
      if !replies[j] && outcomes[owner[j]] == Flushed {
        outcomes := outcomes[owner[j] := Refused(j)];
      }
    }
  }

  ghost predicate IsFirstRefusal(owner: seq<nat>, replies: seq<bool>, i: nat, c: nat)
    requires |replies| == |owner|
  {
    && c < |owner| && owner[c] == i && !replies[c]
    && forall p :: 0 <= p < c && owner[p] == i ==> replies[p]
  }

  lemma OwnersMatch(batch: seq<AckReq>, owner: seq<nat>, i: nat, p: nat)
    requires Owns(batch, owner) && i < |batch| && p < |owner|
    ensures owner[p] == i <==> Offset(batch, i) <= p < Offset(batch, i + 1)
  {
    if Offset(batch, i) <= p < Offset(batch, i + 1) {
      OwnerIsUnique(batch, i, owner[p], p);
    }
  }

  /** The first round trip: one outcome per request, from the replies to its own commands. */
  method WriteOutcomes(batch: seq<AckReq>, replies: Option<seq<bool>>) returns (outcomes: seq<FlushOutcome>)
    requires Answers(batch, replies)
    ensures |outcomes| == |batch|
    ensures forall i :: 0 <= i < |batch| ==> (outcomes[i] == Flushed <==> Written(batch, replies, i))
    ensures forall i :: 0 <= i < |batch| && outcomes[i].Refused? ==>
              replies.Some? && FirstRefused(batch, replies.value, i, outcomes[i].command)
    ensures forall i :: 0 <= i < |batch| ==> outcomes[i] != AckTripFailed
    ensures forall i :: 0 <= i < |batch| && outcomes[i] == WriteTripFailed ==> replies.None?
  {
    var owner := Owners(batch);
    if |owner| == 0 {
      outcomes := seq(|batch|, _ => Flushed);
    } else if replies.None? {
      outcomes := seq(|batch|, _ => WriteTripFailed);
    } else {
      outcomes := FirstRefusals(owner, replies.value, |batch|);
      forall i | 0 <= i < |batch| ensures outcomes[i] == Flushed <==> Written(batch, replies, i) {
        forall p | 0 <= p < |owner| ensures owner[p] == i <==> Offset(batch, i) <= p < Offset(batch, i + 1) {
          OwnersMatch(batch, owner, i, p);
        }
      }
      forall i | 0 <= i < |batch| && outcomes[i].Refused?
        ensures FirstRefused(batch, replies.value, i, outcomes[i].command)
      {
        forall p | 0 <= p < |owner| ensures owner[p] == i <==> Offset(batch, i) <= p < Offset(batch, i + 1) {
          OwnersMatch(batch, owner, i, p);
        }
      }
    }
  }

  /** `c` is the position of the first of request `i`'s own commands that was refused. */
  ghost predicate FirstRefused(batch: seq<AckReq>, replies: seq<bool>, i: nat, c: nat)
    requires i < |batch|
  {
    && Offset(batch, i) <= c < Offset(batch, i + 1) && c < |replies| && !replies[c]
    && forall p :: Offset(batch, i) <= p < c ==> replies[p]
  }

  /** `answers` tells every waiter of an `n` request batch exactly one outcome. */
  ghost predicate TellsEachOnce(answers: seq<(nat, FlushOutcome)>, n: nat) {
    && |answers| == n
    && (forall j :: 0 <= j < n ==> answers[j].0 < n)
    && (forall j, k :: 0 <= j < k < n ==> answers[j].0 != answers[k].0)
    && (forall i :: 0 <= i < n ==> Told(answers, i))
  }

  ghost predicate Told(answers: seq<(nat, FlushOutcome)>, i: nat) {
    exists j :: 0 <= j < |answers| && answers[j].0 == i
  }

  /** The requests as the delivery model sees them once the write pipeline is answered. */
  ghost function Replied(batch: seq<AckReq>, replies: Option<seq<bool>>): (reqs: seq<Delivery.Req>)
    requires Answers(batch, replies)
  {
    seq(|batch|, i requires 0 <= i < |batch| =>
      Delivery.Req(batch[i].id, batch[i].env, {}, !Written(batch, replies, i)))
  }

  /** `written` and `refused` are the indices of the flushed and the other outcomes, in order. */
  ghost predicate Splits(outcomes: seq<FlushOutcome>, written: seq<nat>, refused: seq<nat>) {
    && |written| + |refused| == |outcomes|
    && (forall j :: 0 <= j < |written| ==> written[j] < |outcomes| && outcomes[written[j]] == Flushed)
    && (forall j :: 0 <= j < |refused| ==> refused[j] < |outcomes| && outcomes[refused[j]] != Flushed)
    && (forall j, k :: 0 <= j < k < |written| ==> written[j] < written[k])
    && (forall j, k :: 0 <= j < k < |refused| ==> refused[j] < refused[k])
    && (forall k :: 0 <= k < |outcomes| ==> k in written || k in refused)
  }

  method Partition(outcomes: seq<FlushOutcome>) returns (written: seq<nat>, refused: seq<nat>)
    ensures Splits(outcomes, written, refused)
  {
    written, refused := [], [];
    for i := 0 to |outcomes|
      invariant |written| + |refused| == i
      invariant forall j :: 0 <= j < |written| ==> written[j] < i && outcomes[written[j]] == Flushed
      invariant forall j :: 0 <= j < |refused| ==> refused[j] < i && outcomes[refused[j]] != Flushed
      invariant forall j, k :: 0 <= j < k < |written| ==> written[j] < written[k]
      invariant forall j, k :: 0 <= j < k < |refused| ==> refused[j] < refused[k]
      invariant forall k :: 0 <= k < i ==> k in written || k in refused
    {
      if outcomes[i] == Flushed {
        written := written + [i];
      } else {
        refused := refused + [i];
      }
    }
  }

  /** Two round trips. An entry is named in the XACK iff all of its own commands were accepted;
      nothing is acked when the write trip fails; and every waiter is told exactly once. */
  method FlushBatch(batch: seq<AckReq>, replies: Option<seq<bool>>, ackLands: bool)
    returns (acked: seq<Id>, answers: seq<(nat, FlushOutcome)>)
    requires Answers(batch, replies)
    ensures (set id | id in acked) == Delivery.Ready(Replied(batch, replies))
    ensures forall id :: id in acked <==> exists i :: 0 <= i < |batch| && batch[i].id == id && Written(batch, replies, i)
    ensures Offset(batch, |batch|) > 0 && replies.None? ==> acked == []
    ensures TellsEachOnce(answers, |batch|)
    ensures forall j :: 0 <= j < |answers| ==> TellsTheTruth(batch, replies, ackLands, answers[j])
  {
    var outcomes := WriteOutcomes(batch, replies);
    var written, refused := Partition(outcomes);
    var fate := if ackLands then Flushed else AckTripFailed;
    answers := seq(|refused|, j requires 0 <= j < |refused| => (refused[j], outcomes[refused[j]]))
             + seq(|written|, j requires 0 <= j < |written| => (written[j], fate));
    acked := seq(|written|, j requires 0 <= j < |written| => batch[written[j]].id);
    AllTold(answers, written, refused, |batch|);
    AckedAreReady(batch, replies, written, acked);
    if acked != [] {
      assert Written(batch, replies, written[0]);
    }
  }

  /** A waiter hears of success only for a fully written and acked entry. */
  ghost predicate TellsTheTruth(
    batch: seq<AckReq>, replies: Option<seq<bool>>, ackLands: bool, answer: (nat, FlushOutcome))
    requires Answers(batch, replies)
  {
    && answer.0 < |batch|
    && (answer.1 == Flushed <==> Written(batch, replies, answer.0) && ackLands)
    && (answer.1 == AckTripFailed <==> Written(batch, replies, answer.0) && !ackLands)
    && (answer.1.Refused? ==> replies.Some? && FirstRefused(batch, replies.value, answer.0, answer.1.command))
    && (answer.1 == WriteTripFailed ==> replies.None?)
  }

  lemma AllTold(answers: seq<(nat, FlushOutcome)>, written: seq<nat>, refused: seq<nat>, n: nat)
    requires |answers| == n == |written| + |refused|
    requires forall j :: 0 <= j < n ==>
               answers[j].0 == if j < |refused| then refused[j] else written[j - |refused|]
    requires forall i :: 0 <= i < n ==> i in written || i in refused
    requires forall j :: 0 <= j < |written| ==> written[j] < n && written[j] !in refused
    requires forall j :: 0 <= j < |refused| ==> refused[j] < n
    requires forall j, k :: 0 <= j < k < |written| ==> written[j] < written[k]
    requires forall j, k :: 0 <= j < k < |refused| ==> refused[j] < refused[k]
    ensures TellsEachOnce(answers, n)
  {
    forall j, k | 0 <= j < k < n ensures answers[j].0 != answers[k].0 {
      if j < |refused| <= k { assert refused[j] in refused; }
    }
    forall i | 0 <= i < n ensures Told(answers, i) {
      if i in refused {
        var j :| 0 <= j < |refused| && refused[j] == i;
        assert answers[j].0 == i;
      } else {
        var j :| 0 <= j < |written| && written[j] == i;
        assert answers[|refused| + j].0 == i;
      }
    }
  }

  lemma AckedAreReady(batch: seq<AckReq>, replies: Option<seq<bool>>, written: seq<nat>, acked: seq<Id>)
    requires Answers(batch, replies) && |acked| == |written|
    requires forall j :: 0 <= j < |written| ==> written[j] < |batch| && acked[j] == batch[written[j]].id
    requires forall i :: 0 <= i < |batch| ==> (i in written <==> Written(batch, replies, i))
    ensures (set id | id in acked) == Delivery.Ready(Replied(batch, replies))
    ensures forall id :: id in acked <==> exists i :: 0 <= i < |batch| && batch[i].id == id && Written(batch, replies, i)
  {
    var reqs := Replied(batch, replies);
    forall id | id in acked ensures id in Delivery.Ready(reqs) {
      var j :| 0 <= j < |acked| && acked[j] == id;
      assert written[j] in written;
      assert reqs[written[j]] in reqs;
    }
    forall id | id in Delivery.Ready(reqs) ensures id in acked {
      var r :| r in reqs && r.left == {} && !r.refused && r.id == id;
      var i :| 0 <= i < |reqs| && reqs[i] == r;
      assert i in written;
      var j :| 0 <= j < |written| && written[j] == i;
      assert acked[j] == id;
    }
  }

  // ----- batching

  /** What the flusher hears on its channel while a batch is open. */
  datatype Event =
    | Arrives(req: AckReq)
    | WindowElapsed

  function Arrivals(events: seq<Event>): seq<AckReq> {
    if events == [] then []
    else match events[0]
         case Arrives(req) => [req] + Arrivals(events[1..])
         case WindowElapsed => Arrivals(events[1..])
  }

  function Flatten(batches: seq<seq<AckReq>>): seq<AckReq> {
    if batches == [] then [] else Flatten(batches[..|batches| - 1]) + batches[|batches| - 1]
  }

  lemma {:induction false} ArrivalsUpTo(events: seq<Event>, i: nat)
    requires i < |events|
    ensures Arrivals(events[..i + 1])
         == Arrivals(events[..i]) + (if events[i].Arrives? then [events[i].req] else [])
  {
    if i == 0 {
      assert events[..1] == [events[0]] && events[..0] == [];
    } else {
      ArrivalsUpTo(events[1..], i - 1);
      assert events[..i + 1][1..] == events[1..][..i];
      assert events[..i][1..] == events[1..][..i - 1];
    }
  }

  /** Some cut between batches has before it exactly what arrived in the first `n` events. */
  ghost predicate FlushedBy(batches: seq<seq<AckReq>>, events: seq<Event>, n: nat)
    requires n <= |events|
  {
    exists k :: 0 <= k <= |batches| && Flatten(batches[..k]) == Arrivals(events[..n])
  }

  lemma StillFlushed(batches: seq<seq<AckReq>>, batch: seq<AckReq>, events: seq<Event>, n: nat)
    requires n <= |events| && FlushedBy(batches, events, n)
    ensures FlushedBy(batches + [batch], events, n)
  {
    var k :| 0 <= k <= |batches| && Flatten(batches[..k]) == Arrivals(events[..n]);
    assert (batches + [batch])[..k] == batches[..k];
  }

  lemma AllFlushed(batches: seq<seq<AckReq>>, events: seq<Event>, n: nat)
    requires n <= |events| && Flatten(batches) == Arrivals(events[..n])
    ensures FlushedBy(batches, events, n)
  {
    assert batches[..|batches|] == batches;
  }

  lemma NothingYet(events: seq<Event>)
    ensures Flatten([]) + [] == Arrivals(events[..0])
  {}

  lemma FlattenAppend(batches: seq<seq<AckReq>>, batch: seq<AckReq>)
    ensures Flatten(batches + [batch]) == Flatten(batches) + batch
  {
    assert (batches + [batch])[..|batches|] == batches;
  }

  /** Batch `k` was closed for a reason: it is full, or a window elapsed just after its last request. */
  ghost predicate ClosedInTime(batches: seq<seq<AckReq>>, events: seq<Event>, maxBatch: nat, k: nat)
    requires k < |batches|
  {
    |batches[k]| == maxBatch
    || exists j :: 0 <= j < |events| && events[j].WindowElapsed?
                   && Flatten(batches[..k + 1]) == Arrivals(events[..j + 1])
  }

  lemma StillClosed(batches: seq<seq<AckReq>>, batch: seq<AckReq>, events: seq<Event>, maxBatch: nat)
    requires forall k :: 0 <= k < |batches| ==> ClosedInTime(batches, events, maxBatch, k)
    requires ClosedInTime(batches + [batch], events, maxBatch, |batches|)
    ensures forall k :: 0 <= k < |batches + [batch]| ==> ClosedInTime(batches + [batch], events, maxBatch, k)
  {
    hide Flatten, Arrivals;
    var all := batches + [batch];
    forall k | 0 <= k < |batches| ensures ClosedInTime(all, events, maxBatch, k) {
      assert ClosedInTime(batches, events, maxBatch, k);
      assert all[..k + 1] == batches[..k + 1];
    }
  }

  lemma ClosedNow(batches: seq<seq<AckReq>>, batch: seq<AckReq>, events: seq<Event>, maxBatch: nat, i: nat)
    requires i < |events| && Flatten(batches + [batch]) == Arrivals(events[..i + 1])
    requires events[i].WindowElapsed? || |batch| == maxBatch
    ensures ClosedInTime(batches + [batch], events, maxBatch, |batches|)
  {
    assert (batches + [batch])[..|batches| + 1] == batches + [batch];
  }

  /** The flusher never drops, repeats or reorders a request, never sends an empty batch, never
      exceeds the batch size, sends a smaller one only because a window has elapsed, and leaves nothing
      waiting when one does. */
  method Flusher(events: seq<Event>, maxBatch: nat) returns (batches: seq<seq<AckReq>>, open: seq<AckReq>)
    requires maxBatch >= 1
    ensures Flatten(batches) + open == Arrivals(events)
    ensures forall b :: b in batches ==> 1 <= |b| <= maxBatch
    ensures |open| < maxBatch
    ensures forall j :: 0 <= j < |events| && events[j].WindowElapsed? ==> FlushedBy(batches, events, j + 1)
    ensures forall k :: 0 <= k < |batches| ==> ClosedInTime(batches, events, maxBatch, k)
  {
    hide FlushedBy, Arrivals, Flatten, ClosedInTime;
    batches, open := [], [];
    NothingYet(events);
    for i := 0 to |events|
      invariant Flatten(batches) + open == Arrivals(events[..i])
      invariant forall b :: b in batches ==> 1 <= |b| <= maxBatch
      invariant |open| < maxBatch
      invariant forall j :: 0 <= j < i && events[j].WindowElapsed? ==> FlushedBy(batches, events, j + 1)
      invariant forall k :: 0 <= k < |batches| ==> ClosedInTime(batches, events, maxBatch, k)
    {
      ArrivalsUpTo(events, i);
      var full := false;
      match events[i] {
        case Arrives(req) =>
          open := open + [req];
          full := |open| == maxBatch;
        case WindowElapsed =>
          full := open != [];
      }
      if full {
        forall j | 0 <= j < i && events[j].WindowElapsed? ensures FlushedBy(batches + [open], events, j + 1) {
          StillFlushed(batches, open, events, j + 1);
        }
        FlattenAppend(batches, open);
        ClosedNow(batches, open, events, maxBatch, i);
        StillClosed(batches, open, events, maxBatch);
        batches, open := batches + [open], [];
      }
      if open == [] {
        AllFlushed(batches, events, i + 1);
      }
    }
    assert events[..|events|] == events;
  }
}
