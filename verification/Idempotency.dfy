/**
 The idempotency key: a lease taken by a script at the start of an execution, long enough that the
 execution is over before the lease is.
 */
module Idempotency {
  import opened Options
  import StreamIds

  type TaskId = nat

  const BACKSTOP_GRACE_MS: nat := 2000

  function SaturatingAdd(a: nat, b: nat): nat {
    if a + b > StreamIds.U64_MAX then StreamIds.U64_MAX else a + b
  }

  function SaturatingMul(a: nat, b: nat): nat {
    if a * b > StreamIds.U64_MAX then StreamIds.U64_MAX else a * b
  }

  function DivCeil(a: nat, b: nat): nat
    requires b > 0
  {
    (a + b - 1) / b
  }

  /** `claim_ttl_s`. */
  function ClaimTtl(idempTtlS: nat, timeoutMs: nat): nat {
    var executionS := DivCeil(SaturatingAdd(timeoutMs, BACKSTOP_GRACE_MS), 1000);
    if idempTtlS < executionS then executionS else idempTtlS
  }

  /** How long an execution may take from its claim. */
  function Span(timeoutMs: nat): nat { timeoutMs + BACKSTOP_GRACE_MS }

  /** The lease a retry renews covers an execution iff the sum does not pass 64 bits; the first one,
      not multiplied in the worker, always does then too. */
  lemma LeaseCoversAnExecution(idempTtlS: nat, timeoutMs: nat)
    ensures SaturatingMul(ClaimTtl(idempTtlS, timeoutMs), 1000) >= Span(timeoutMs) <==> Span(timeoutMs) <= StreamIds.U64_MAX
    ensures Span(timeoutMs) <= StreamIds.U64_MAX ==> ClaimTtl(idempTtlS, timeoutMs) * 1000 >= Span(timeoutMs)
  {
    var sum := SaturatingAdd(timeoutMs, BACKSTOP_GRACE_MS);
    var s := DivCeil(sum, 1000);
    assert 1000 * s >= sum;
    assert ClaimTtl(idempTtlS, timeoutMs) >= s;
  }

  /** The lease in milliseconds that a task's own parameters call for: whole seconds, the configured
      lifetime or the timeout with two seconds of grace rounded up, whichever is longer. */
  predicate IsLonger(ms: nat, idempTtlS: nat, timeoutMs: nat) {
    && ms % 1000 == 0 && ms >= idempTtlS * 1000 && ms >= timeoutMs + 2000
    && (ms == idempTtlS * 1000 || ms < timeoutMs + 2000 + 1000)
  }

  lemma TtlIsLonger(ms: nat, idempTtlS: nat, timeoutMs: nat)
    requires Span(timeoutMs) <= StreamIds.U64_MAX
    ensures IsLonger(ms, idempTtlS, timeoutMs) <==> ms == ClaimTtl(idempTtlS, timeoutMs) * 1000
  {
    var s := DivCeil(timeoutMs + 2000, 1000);
    assert timeoutMs + 2000 <= 1000 * s < timeoutMs + 2000 + 1000;
    var q := ms / 1000;
    assert ms == 1000 * q + ms % 1000;
    Multiple(ClaimTtl(idempTtlS, timeoutMs));
    hide DivCeil;
    if IsLonger(ms, idempTtlS, timeoutMs) {
      assert q == ClaimTtl(idempTtlS, timeoutMs);
    }
  }

  lemma Multiple(n: nat)
    ensures n * 1000 % 1000 == 0
  {}

  // ----- the claim script

  /** The key: who holds it, and the instant from which it is free again. */
  datatype Lease = Lease(holder: TaskId, until: int)

  datatype Outcome = Fresh | MineAgain | Duplicate(claimant: TaskId) | FailedOpen

  /** One claim call. `fails` is a call that errors, whose task executes all the same. */
  datatype Claim = Claim(at: int, task: TaskId, idempTtlS: nat, fails: bool)

  predicate Held(lease: Option<Lease>, at: int) {
    lease.Some? && at < lease.value.until
  }

  function Script(lease: Option<Lease>, c: Claim, timeoutMs: nat): (Option<Lease>, Outcome) {
    var ttl := ClaimTtl(c.idempTtlS, timeoutMs);
    if c.fails then (lease, FailedOpen)
    else if !Held(lease, c.at) then (Some(Lease(c.task, c.at + ttl * 1000)), Fresh)
    else if lease.value.holder == c.task then
      (Some(Lease(c.task, c.at + SaturatingMul(ttl, 1000))), MineAgain)
    else (lease, Duplicate(lease.value.holder))
  }

  predicate Executes(o: Outcome) { !o.Duplicate? }

  // ----- timed runs under one key

  /** Timeouts belong to the task: every retry and redelivery carries the same one. */
  type Timeouts = TaskId -> nat

  function LeaseAfter(run: seq<Claim>, timeouts: Timeouts): Option<Lease> {
    if run == [] then None
    else
      var c := run[|run| - 1];
      Script(LeaseAfter(run[..|run| - 1], timeouts), c, timeouts(c.task)).0
  }

  /** What the claim at `i` is told. */
  function OutcomeAt(run: seq<Claim>, timeouts: Timeouts, i: nat): Outcome
    requires i < |run|
  {
    Script(LeaseAfter(run[..i], timeouts), run[i], timeouts(run[i].task)).1
  }

  predicate InTime(run: seq<Claim>) {
    forall i, j :: 0 <= i < j < |run| ==> run[i].at <= run[j].at
  }

  /** No claim fails open, and no timeout is so long that the sum saturates. */
  predicate Sound(run: seq<Claim>, timeouts: Timeouts) {
    forall c :: c in run ==> !c.fails && Span(timeouts(c.task)) <= StreamIds.U64_MAX
  }

  predicate Started(run: seq<Claim>, timeouts: Timeouts, i: nat) {
    i < |run| && Executes(OutcomeAt(run, timeouts, i))
  }

  /** When the execution that a claim starts is over at the latest. */
  function Deadline(run: seq<Claim>, timeouts: Timeouts, i: nat): int
    requires i < |run|
  {
    run[i].at + Span(timeouts(run[i].task))
  }

  lemma PrefixFacts(run: seq<Claim>, timeouts: Timeouts, n: nat, i: nat)
    requires i < n <= |run|
    ensures Started(run[..n], timeouts, i) == Started(run, timeouts, i)
    ensures Deadline(run[..n], timeouts, i) == Deadline(run, timeouts, i)
  {
    assert run[..n][..i] == run[..i];
  }

  /** The lease outlasts what its holder has started, and what others started is over. */
  predicate Covered(run: seq<Claim>, timeouts: Timeouts, i: nat) {
    var lease := LeaseAfter(run, timeouts);
    && i < |run| && lease.Some?
    && Deadline(run, timeouts, i)
       <= if run[i].task == lease.value.holder then lease.value.until else run[|run| - 1].at
  }

  ghost predicate Inv(run: seq<Claim>, timeouts: Timeouts) {
    forall i: nat :: Started(run, timeouts, i) ==> Covered(run, timeouts, i)
  }

  /** What a claim that starts an execution does to the lease. */
  lemma StartedTakesTheLease(lease: Option<Lease>, c: Claim, timeoutMs: nat)
    requires !c.fails && Span(timeoutMs) <= StreamIds.U64_MAX
    ensures var (after, outcome) := Script(lease, c, timeoutMs);
            && (outcome.Fresh? <==> !Held(lease, c.at))
            && (outcome.MineAgain? ==> Held(lease, c.at) && lease.value.holder == c.task)
            && (outcome.Duplicate? ==> after == lease)
            && (Executes(outcome) ==> after.Some? && after.value.holder == c.task && c.at + Span(timeoutMs) <= after.value.until)
  {
    LeaseCoversAnExecution(c.idempTtlS, timeoutMs);
  }

  lemma {:induction false} InvAlways(run: seq<Claim>, timeouts: Timeouts)
    requires InTime(run) && Sound(run, timeouts)
    ensures Inv(run, timeouts)
    decreases |run|
  {
    hide Started, Covered;
    if run != [] {
      var before := run[..|run| - 1];
      InvAlways(before, timeouts);
      forall i: nat | Started(run, timeouts, i) ensures Covered(run, timeouts, i) {
        StartedIsInside(run, timeouts, i);
        InvStep(run, timeouts, i);
      }
    } else {
      forall i: nat ensures !Started(run, timeouts, i) {
        NoneStarted(timeouts, i);
      }
    }
  }

  lemma StartedIsInside(run: seq<Claim>, timeouts: Timeouts, i: nat)
    requires Started(run, timeouts, i)
    ensures i < |run|
  {}

  lemma NoneStarted(timeouts: Timeouts, i: nat)
    ensures !Started([], timeouts, i)
  {}

  lemma InvStep(run: seq<Claim>, timeouts: Timeouts, i: nat)
    requires InTime(run) && Sound(run, timeouts) && i < |run| && Started(run, timeouts, i)
    requires Inv(run[..|run| - 1], timeouts)
    ensures Covered(run, timeouts, i)
  {
    var n := |run| - 1;
    var before, c := run[..n], run[n];
    StartedTakesTheLease(LeaseAfter(before, timeouts), c, timeouts(c.task));
    hide Script, Span;
    if i < n {
      PrefixFacts(run, timeouts, n, i);
      assert Covered(before, timeouts, i);
      assert run[i] == before[i] && before[|before| - 1] == run[n - 1];
    }
  }

  /** Two tasks never execute at once under one key: if every execution is over within its timeout and
      the grace from its claim, there is no instant at which both have started and neither ended. */
  lemma NeverConcurrent(run: seq<Claim>, timeouts: Timeouts, ends: seq<int>, i: nat, j: nat, t: int)
    requires InTime(run) && Sound(run, timeouts) && |ends| == |run|
    requires forall k: nat :: Started(run, timeouts, k) ==> ends[k] <= Deadline(run, timeouts, k)
    requires Started(run, timeouts, i) && Started(run, timeouts, j) && run[i].task != run[j].task
    ensures !(run[i].at <= t < ends[i] && run[j].at <= t < ends[j])
  {
    if i < j {
      OverBefore(run, timeouts, i, j);
    } else {
      OverBefore(run, timeouts, j, i);
    }
  }

  lemma OverBefore(run: seq<Claim>, timeouts: Timeouts, i: nat, j: nat)
    requires InTime(run) && Sound(run, timeouts)
    requires i < j && Started(run, timeouts, i) && Started(run, timeouts, j) && run[i].task != run[j].task
    ensures Deadline(run, timeouts, i) <= run[j].at
  {
    var before := run[..j];
    InvAlways(before, timeouts);
    PrefixFacts(run, timeouts, j, i);
    StartedTakesTheLease(LeaseAfter(before, timeouts), run[j], timeouts(run[j].task));
  }

  /** The lease a claim takes or renews. */
  function LeaseMs(c: Claim, timeouts: Timeouts): nat {
    SaturatingMul(ClaimTtl(c.idempTtlS, timeouts(c.task)), 1000)
  }

  predicate OneTtl(run: seq<Claim>) {
    forall c :: c in run ==> c.idempTtlS == run[0].idempTtlS
  }

  lemma TakenForItsTime(lease: Option<Lease>, c: Claim, timeouts: Timeouts)
    requires !c.fails && Executes(Script(lease, c, timeouts(c.task)).1)
    ensures var after := Script(lease, c, timeouts(c.task)).0;
            after.Some? && after.value.holder == c.task && c.at + LeaseMs(c, timeouts) <= after.value.until
  {
    hide ClaimTtl;
  }

  lemma RenewKeeps(lease: Lease, c: Claim, first: Claim, timeouts: Timeouts)
    requires !c.fails && c.idempTtlS == first.idempTtlS && first.at <= c.at
    requires lease.holder == first.task && c.at < lease.until && first.at + LeaseMs(first, timeouts) <= lease.until
    ensures var after := Script(Some(lease), c, timeouts(c.task)).0;
            after.Some? && after.value.holder == first.task && first.at + LeaseMs(first, timeouts) <= after.value.until
  {
    hide ClaimTtl, SaturatingMul;
  }

  lemma {:induction false} LeaseIsKept(run: seq<Claim>, timeouts: Timeouts, i: nat, n: nat)
    requires InTime(run) && Sound(run, timeouts) && OneTtl(run)
    requires i < n <= |run| && Started(run, timeouts, i)
    requires run[n - 1].at < run[i].at + LeaseMs(run[i], timeouts) || n == i + 1
    ensures var lease := LeaseAfter(run[..n], timeouts);
            lease.Some? && lease.value.holder == run[i].task && run[i].at + LeaseMs(run[i], timeouts) <= lease.value.until
    decreases n
  {
    hide Script, LeaseMs;
    var c := run[n - 1];
    assert run[..n][..n - 1] == run[..n - 1] && run[..n][n - 1] == c;
    assert run[i] in run && c in run;
    if n > i + 1 {
      assert run[n - 2].at <= c.at;
      LeaseIsKept(run, timeouts, i, n - 1);
      RenewKeeps(LeaseAfter(run[..n - 1], timeouts).value, c, run[i], timeouts);
    } else {
      TakenForItsTime(LeaseAfter(run[..i], timeouts), c, timeouts);
    }
  }

  /** However often it is renewed meanwhile: until the configured lifetime, or if that is longer the
      timeout with its grace, has passed since a claim, a retry or redelivery of its task executes and
      renews it, and any other task is told that it is a duplicate, and of which task. */
  lemma HolderIsNeverADuplicate(run: seq<Claim>, timeouts: Timeouts, i: nat, j: nat, ms: nat)
    requires InTime(run) && Sound(run, timeouts) && OneTtl(run)
    requires i < j < |run| && Started(run, timeouts, i)
    requires IsLonger(ms, run[i].idempTtlS, timeouts(run[i].task))
    requires run[j].at < run[i].at + if ms <= StreamIds.U64_MAX then ms else StreamIds.U64_MAX
    ensures OutcomeAt(run, timeouts, j)
         == if run[j].task == run[i].task then MineAgain else Duplicate(run[i].task)
  {
    assert run[i] in run;
    TtlIsLonger(ms, run[i].idempTtlS, timeouts(run[i].task));
    assert run[j].at < run[i].at + LeaseMs(run[i], timeouts);
    hide LeaseMs, ClaimTtl, IsLonger;
    assert j > i + 1 ==> run[j - 1].at <= run[j].at;
    LeaseIsKept(run, timeouts, i, j);
  }

  lemma TakenExactly(lease: Option<Lease>, c: Claim, timeouts: Timeouts, ms: nat)
    requires !c.fails && Executes(Script(lease, c, timeouts(c.task)).1)
    requires Span(timeouts(c.task)) <= StreamIds.U64_MAX
    requires IsLonger(ms, c.idempTtlS, timeouts(c.task)) && ms <= StreamIds.U64_MAX
    ensures Script(lease, c, timeouts(c.task)).0 == Some(Lease(c.task, c.at + ms))
  {
    TtlIsLonger(ms, c.idempTtlS, timeouts(c.task));
    hide ClaimTtl, IsLonger;
  }

  lemma {:induction false} LeaseStands(run: seq<Claim>, timeouts: Timeouts, i: nat, n: nat, ms: nat)
    requires Sound(run, timeouts) && i < n <= |run| && Started(run, timeouts, i)
    requires forall k: nat :: i < k < n ==> !Started(run, timeouts, k)
    requires IsLonger(ms, run[i].idempTtlS, timeouts(run[i].task)) && ms <= StreamIds.U64_MAX
    ensures LeaseAfter(run[..n], timeouts) == Some(Lease(run[i].task, run[i].at + ms))
    decreases n
  {
    hide IsLonger;
    var c := run[n - 1];
    assert run[..n][..n - 1] == run[..n - 1] && run[..n][n - 1] == c && c in run;
    if n > i + 1 {
      LeaseStands(run, timeouts, i, n - 1, ms);
      assert !Started(run, timeouts, n - 1);
    } else {
      TakenExactly(LeaseAfter(run[..i], timeouts), c, timeouts, ms);
    }
  }

  /** The key is held for exactly that long: unless the lease is renewed, whoever claims within it is told
      so, and whoever claims from its end on finds the key free. */
  lemma KeyIsHeldExactly(run: seq<Claim>, timeouts: Timeouts, i: nat, j: nat, ms: nat)
    requires Sound(run, timeouts) && i < j < |run| && Started(run, timeouts, i)
    requires forall k: nat :: i < k < j ==> !Started(run, timeouts, k)
    requires IsLonger(ms, run[i].idempTtlS, timeouts(run[i].task)) && ms <= StreamIds.U64_MAX
    ensures OutcomeAt(run, timeouts, j)
         == if run[j].at >= run[i].at + ms then Fresh
            else if run[j].task == run[i].task then MineAgain else Duplicate(run[i].task)
  {
    hide IsLonger;
    LeaseStands(run, timeouts, i, j, ms);
    assert run[j] in run;
  }

  /** Failing open costs the exclusion: the second task starts while the first may still run. */
  lemma FailingOpenAllowsTwo()
    ensures var run := [Claim(0, 1, 60, false), Claim(1, 2, 60, true)];
            var timeouts: Timeouts := (t: TaskId) => 1000;
            && InTime(run) && Started(run, timeouts, 0) && Started(run, timeouts, 1)
            && run[0].at <= run[1].at < Deadline(run, timeouts, 0)
  {
    var run := [Claim(0, 1, 60, false), Claim(1, 2, 60, true)];
    assert run[..0] == [];
  }
}
