/**
 One loop's task deadlines and the single timer that serves them. A cancelled entry loses its task and
 stays stored; it goes when it is the least of all, or in a sweep of all such entries.
 */
module DeadlineHeap {
  import opened Collections
  import opened Options

  type TaskId = nat

  /** The clock slack in seconds, and the least number of dead entries worth a compaction. */
  const SLACK: real := 0.001
  const COMPACT_MIN: nat := 100

  /** One deadline: when, and the submission number that breaks ties. */
  datatype Entry = Entry(when: real, num: nat)

  /** The order of the entries: by deadline, ties by submission. */
  predicate Before(a: Entry, b: Entry) {
    a.when < b.when || (a.when == b.when && a.num < b.num)
  }

  // ----- the heap, as the library keeps it

  /** No entry comes before its parent. */
  predicate IsHeap(h: seq<Entry>) {
    forall i, p :: 0 < i < |h| && p == (i - 1) / 2 ==> !Before(h[i], h[p])
  }

  lemma {:induction false} TopIsLeast(h: seq<Entry>, i: nat)
    requires IsHeap(h) && i < |h|
    ensures !Before(h[i], h[0])
  {
    if i > 0 {
      TopIsLeast(h, (i - 1) / 2);
      assert !Before(h[i], h[(i - 1) / 2]);
    }
  }

  /** `h` stores exactly the entries of `items`, each once. */
  predicate Stores(h: seq<Entry>, items: set<Entry>) {
    && (forall e :: e in h ==> e in items) && (forall e :: e in items ==> e in h)
    && |h| == |items|
  }

  predicate InOrder(s: seq<Entry>) {
    forall i, j :: 0 <= i < j < |s| ==> Before(s[i], s[j])
  }

  /** Where `e` belongs in an ordered listing. */
  method Position(s: seq<Entry>, e: Entry) returns (i: nat)
    ensures i <= |s| && (forall j :: 0 <= j < i ==> !Before(e, s[j]))
    ensures i < |s| ==> Before(e, s[i])
  {
    i := 0;
    while i < |s| && !Before(e, s[i])
      invariant i <= |s|
      invariant forall j :: 0 <= j < i ==> !Before(e, s[j])
    {
      i := i + 1;
    }
  }

  lemma InsertedStores(s: seq<Entry>, done: set<Entry>, e: Entry, i: nat)
    requires Stores(s, done) && e !in done && i <= |s|
    ensures Stores(s[..i] + [e] + s[i..], done + {e})
  {
    var s' := s[..i] + [e] + s[i..];
    assert s == s[..i] + s[i..];
    forall x | x in done + {e} ensures x in s' {
      if x == e { assert s'[i] == e; }
    }
  }

  lemma InsertedInOrder(s: seq<Entry>, e: Entry, i: nat)
    requires InOrder(s) && e !in s && i <= |s|
    requires forall j :: 0 <= j < i ==> !Before(e, s[j])
    requires i < |s| ==> Before(e, s[i])
    ensures InOrder(s[..i] + [e] + s[i..])
  {
    var s' := s[..i] + [e] + s[i..];
    forall j, k | 0 <= j < k < |s'| ensures Before(s'[j], s'[k]) {
      if j < i == k {
        assert s[j] in s;
      } else if i == j < k {
        assert s'[k] == s[k - 1];
      } else {
        assert s'[j] == s[if j < i then j else j - 1];
        assert s'[k] == s[if k < i then k else k - 1];
      }
    }
  }

  lemma NotIn(h: seq<Entry>, items: set<Entry>, e: Entry)
    requires Stores(h, items) && e !in items
    ensures e !in h
  {}

  lemma OrderedIsHeap(h: seq<Entry>)
    requires InOrder(h)
    ensures IsHeap(h)
  {}

  /** `heapify`, with an ordered listing standing for whatever heap the library leaves. */
  method Heapify(items: set<Entry>) returns (h: seq<Entry>)
    ensures IsHeap(h) && Stores(h, items)
  {
    h := [];
    var left, done := items, {};
    while left != {}
      invariant done !! left && done + left == items
      invariant Stores(h, done) && InOrder(h)
      decreases |left|
    {
      hide Stores, InOrder;
      var e :| e in left;
      var i := Position(h, e);
      NotIn(h, done, e);
      InsertedStores(h, done, e, i);
      InsertedInOrder(h, e, i);
      h, left, done := h[..i] + [e] + h[i..], left - {e}, done + {e};
    }
    OrderedIsHeap(h);
  }

  /** `heappush`: some heap of the old entries and the new one. */
  method HeapPush(h: seq<Entry>, ghost items: set<Entry>, e: Entry) returns (h': seq<Entry>)
    requires Stores(h, items) && e !in items
    ensures IsHeap(h') && Stores(h', items + {e})
  {
    h' := Heapify((set x | x in h) + {e});
    assert (set x | x in h) == items;
  }

  /** `heappop`: the top, and some heap of the others. */
  method HeapPop(h: seq<Entry>, ghost items: set<Entry>) returns (e: Entry, h': seq<Entry>)
    requires |h| > 0 && IsHeap(h) && Stores(h, items)
    ensures e == h[0] && e in items && IsHeap(h') && Stores(h', items - {e})
    ensures forall x :: x in items - {e} ==> Before(e, x) || x.num == e.num
  {
    e := h[0];
    h' := Heapify((set x | x in h) - {e});
    assert (set x | x in h) == items;
    forall x | x in items - {e} ensures Before(e, x) || x.num == e.num {
      var i :| 0 <= i < |h| && h[i] == x;
      TopIsLeast(h, i);
    }
  }

  // ----- the invariant

  /** The stored entries without a task: cancelled and not yet dropped. */
  ghost function Dead(items: set<Entry>, tasks: map<Entry, TaskId>): set<Entry> {
    set e | e in items && e !in tasks
  }

  /** The entries stored, and which of them still have a task. */
  predicate StoredOk(heap: seq<Entry>, items: set<Entry>, tasks: map<Entry, TaskId>, num: nat) {
    && Stores(heap, items) && IsHeap(heap)
    && tasks.Keys <= items
    && (forall e :: e in items ==> e.num <= num)
    && (forall e, f :: e in items && f in items && e != f ==> e.num != f.num)
  }

  /** The timer is armed whenever anything is stored, no later than the top. */
  predicate ArmedOk(heap: seq<Entry>, armedAt: Option<real>) {
    heap != [] ==> armedAt.Some? && armedAt.value <= heap[0].when
  }

  ghost predicate CountOk(items: set<Entry>, tasks: map<Entry, TaskId>, cancelled: nat, peak: nat) {
    cancelled == |Dead(items, tasks)| && |tasks| <= peak && cancelled <= Max(COMPACT_MIN, peak)
  }

  lemma StoredSize(heap: seq<Entry>, items: set<Entry>, tasks: map<Entry, TaskId>)
    requires Stores(heap, items) && tasks.Keys <= items
    ensures |heap| == |tasks| + |Dead(items, tasks)|
  {
    assert items == tasks.Keys + Dead(items, tasks);
    assert |tasks| == |tasks.Keys|;
  }

  lemma ArmedCoversAll(
    heap: seq<Entry>, items: set<Entry>, tasks: map<Entry, TaskId>, num: nat, armedAt: Option<real>, e: Entry)
    requires StoredOk(heap, items, tasks, num) && ArmedOk(heap, armedAt) && e in items
    ensures armedAt.Some? && armedAt.value <= e.when
  {
    var i :| 0 <= i < |heap| && heap[i] == e;
    TopIsLeast(heap, i);
  }

  lemma AddKeeps(
    heap: seq<Entry>, items: set<Entry>, tasks: map<Entry, TaskId>, num: nat, e: Entry, task: TaskId,
    heap': seq<Entry>, cancelled: nat, peak: nat)
    requires StoredOk(heap, items, tasks, num) && e.num == num + 1 && CountOk(items, tasks, cancelled, peak)
    requires IsHeap(heap') && Stores(heap', items + {e})
    ensures StoredOk(heap', items + {e}, tasks[e := task], num + 1) && e !in tasks
    ensures CountOk(items + {e}, tasks[e := task], cancelled, Max(peak, |tasks[e := task]|))
    ensures |tasks[e := task]| == |tasks| + 1 && |heap'| == |tasks| + 1 + cancelled
  {
    assert Dead(items + {e}, tasks[e := task]) == Dead(items, tasks);
    assert tasks[e := task].Keys == tasks.Keys + {e};
    assert |tasks[e := task]| == |tasks.Keys + {e}|;
    StoredSize(heap', items + {e}, tasks[e := task]);
  }

  lemma Numbered(heap: seq<Entry>, items: set<Entry>, tasks: map<Entry, TaskId>, num: nat, e: Entry)
    requires StoredOk(heap, items, tasks, num)
    ensures Stores(heap, items) && IsHeap(heap) && tasks.Keys <= items
    ensures e.num > num ==> e !in items
  {}

  lemma CancelKeeps(
    heap: seq<Entry>, items: set<Entry>, tasks: map<Entry, TaskId>, num: nat, e: Entry, cancelled: nat, peak: nat)
    requires StoredOk(heap, items, tasks, num) && e in tasks && CountOk(items, tasks, cancelled, peak)
    ensures StoredOk(heap, items, tasks - {e}, num)
    ensures cancelled + 1 == |Dead(items, tasks - {e})| && |tasks - {e}| == |tasks| - 1 < peak
    ensures |heap| == |tasks - {e}| + cancelled + 1
  {
    assert (tasks - {e}).Keys == tasks.Keys - {e};
    assert |tasks - {e}| == |tasks.Keys - {e}|;
    assert Dead(items, tasks - {e}) == Dead(items, tasks) + {e} && e !in Dead(items, tasks);
    StoredSize(heap, items, tasks - {e});
  }

  /** Dropping every dead entry at once. */
  lemma CompactKeeps(
    heap: seq<Entry>, items: set<Entry>, tasks: map<Entry, TaskId>, num: nat, armedAt: Option<real>,
    heap': seq<Entry>, peak: nat)
    requires StoredOk(heap, items, tasks, num) && ArmedOk(heap, armedAt) && |tasks| <= peak
    requires IsHeap(heap') && Stores(heap', tasks.Keys)
    ensures StoredOk(heap', tasks.Keys, tasks, num) && ArmedOk(heap', armedAt)
    ensures CountOk(tasks.Keys, tasks, 0, peak) && |heap'| == |tasks|
  {
    assert Dead(tasks.Keys, tasks) == {};
    StoredSize(heap', tasks.Keys, tasks);
    if heap' != [] {
      assert heap'[0] in heap';
      ArmedCoversAll(heap, items, tasks, num, armedAt, heap'[0]);
    }
  }

  lemma PopStored(
    heap: seq<Entry>, items: set<Entry>, tasks: map<Entry, TaskId>, num: nat, e: Entry, heap': seq<Entry>)
    requires StoredOk(heap, items, tasks, num) && e in items
    requires IsHeap(heap') && Stores(heap', items - {e})
    ensures StoredOk(heap', items - {e}, tasks - {e}, num)
    ensures forall x :: x in items - {e} ==> x.num != e.num
  {}

  lemma PopCounted(items: set<Entry>, tasks: map<Entry, TaskId>, e: Entry, cancelled: nat, peak: nat)
    requires e in items && CountOk(items, tasks, cancelled, peak)
    ensures e !in tasks ==> tasks - {e} == tasks && cancelled > 0
    ensures CountOk(items - {e}, tasks - {e}, if e in tasks then cancelled else cancelled - 1, peak)
  {
    assert Dead(items - {e}, tasks - {e}) == Dead(items, tasks) - {e};
    assert e in Dead(items, tasks) <==> e !in tasks;
    FewerTasks(tasks, e);
  }

  lemma FewerTasks(tasks: map<Entry, TaskId>, e: Entry)
    ensures |tasks - {e}| <= |tasks|
    ensures e !in tasks ==> tasks - {e} == tasks
  {
    assert (tasks - {e}).Keys == tasks.Keys - {e};
    assert |tasks - {e}| == |tasks.Keys - {e}|;
  }

  // ----- firing

  function Only(tasks: map<Entry, TaskId>, items: set<Entry>): map<Entry, TaskId> {
    map e | e in tasks && e in items :: tasks[e]
  }

  /** `fired` lists the entries of `tasks` that are gone from `items`, with their tasks, in order,
      all of them ahead of what is left. */
  predicate FiredSoFar(tasks: map<Entry, TaskId>, items: set<Entry>, fired: seq<(Entry, TaskId)>) {
    && (forall k :: 0 <= k < |fired| ==>
          fired[k].0 in tasks && fired[k].0 !in items && fired[k].1 == tasks[fired[k].0])
    && (forall e :: e in tasks && e !in items ==> (e, tasks[e]) in fired)
    && (forall j, k :: 0 <= j < k < |fired| ==> Before(fired[j].0, fired[k].0))
    && (forall k, x :: 0 <= k < |fired| && x in items ==> Before(fired[k].0, x))
  }

  lemma FireOne(tasks: map<Entry, TaskId>, items: set<Entry>, fired: seq<(Entry, TaskId)>, e: Entry)
    requires FiredSoFar(tasks, items, fired) && e in items
    requires forall x :: x in items - {e} ==> Before(e, x)
    ensures e in tasks ==> FiredSoFar(tasks, items - {e}, fired + [(e, tasks[e])])
    ensures e !in tasks ==> FiredSoFar(tasks, items - {e}, fired)
    ensures Only(tasks, items) - {e} == Only(tasks, items - {e})
  {
    if e in tasks {
      var more := fired + [(e, tasks[e])];
      assert more[|fired|] == (e, tasks[e]);
      forall x | x in tasks && x !in items - {e} ensures (x, tasks[x]) in more {
        if x != e { assert (x, tasks[x]) in fired; }
      }
    }
  }

  /** Exactly the live deadlines at or before `due` fired, in deadline and submission order. */
  predicate FiredExactly(tasks: map<Entry, TaskId>, due: real, fired: seq<(Entry, TaskId)>) {
    && (forall f :: f in fired ==> f.0 in tasks && f.1 == tasks[f.0] && f.0.when <= due)
    && (forall e :: e in tasks && e.when <= due ==> (e, tasks[e]) in fired)
    && (forall j, k :: 0 <= j < k < |fired| ==> Before(fired[j].0, fired[k].0))
  }

  lemma FiredAll(
    tasks: map<Entry, TaskId>, all: set<Entry>, items: set<Entry>, fired: seq<(Entry, TaskId)>, due: real)
    requires FiredSoFar(tasks, items, fired) && tasks.Keys <= all && items <= all
    requires forall e :: e in all ==> (e in items <==> e.when > due)
    ensures FiredExactly(tasks, due, fired)
    ensures Only(tasks, items) == map e | e in tasks && e.when > due :: tasks[e]
  {
    forall f | f in fired ensures f.0 in tasks && f.1 == tasks[f.0] && f.0.when <= due {
      var k :| 0 <= k < |fired| && fired[k] == f;
    }
  }

  /** The live entries a firing leaves. */
  ghost function Later(tasks: map<Entry, TaskId>, due: real): set<Entry> {
    set e | e in tasks && e.when > due
  }

  /** The dead entries it leaves: those behind the first live one that stays. */
  ghost function LeftDead(items: set<Entry>, tasks: map<Entry, TaskId>, due: real): set<Entry> {
    set e | e in items && e !in tasks && e.when > due && exists l :: l in Later(tasks, due) && Before(l, e)
  }

  /** Nothing dead stays in front of the first live entry, everything behind it does. */
  lemma LeftAfterFiring(
    heap: seq<Entry>, items: set<Entry>, tasks: map<Entry, TaskId>, num: nat,
    before: set<Entry>, had: map<Entry, TaskId>, due: real)
    requires StoredOk(heap, items, tasks, num) && (heap != [] ==> heap[0] in tasks) && had.Keys <= before
    requires tasks == map e | e in had && e.when > due :: had[e]
    requires items <= set e | e in before && e.when > due
    requires forall e, l :: e in before && e.when > due && l in tasks && (l == e || Before(l, e)) ==> e in items
    ensures |tasks| == |Later(had, due)| && |heap| == |Later(had, due)| + |LeftDead(before, had, due)|
  {
    assert tasks.Keys == Later(had, due);
    assert |tasks| == |tasks.Keys|;
    forall e | e in Dead(items, tasks) ensures e in LeftDead(before, had, due) {
      var i :| 0 <= i < |heap| && heap[i] == e;
      TopIsLeast(heap, i);
      assert heap[0] in Later(had, due);
    }
    assert Dead(items, tasks) == LeftDead(before, had, due);
    StoredSize(heap, items, tasks);
  }

  // ----- the class

  class DeadlineHeap {
    var heap: seq<Entry>
    var num: nat
    var cancelled: nat
    var armedAt: Option<real>
    /** The task of each live entry; an entry whose task was cleared is absent. */
    var tasks: map<Entry, TaskId>
    /** The stored entries, and the most live ones there have ever been. */
    ghost var items: set<Entry>
    ghost var peak: nat

    ghost predicate Valid()
      reads this
    {
      && StoredOk(heap, items, tasks, num)
      && ArmedOk(heap, armedAt)
      && CountOk(items, tasks, cancelled, peak)
    }

    /** The memory the compaction thresholds are meant to keep to. */
    ghost predicate WithinTwiceLive()
      reads this
    {
      |heap| <= 2 * |tasks|
    }

    constructor ()
      ensures Valid() && tasks == map[] && items == {} && armedAt.None? && peak == 0 && num == 0 && cancelled == 0
    {
      heap, num, cancelled, armedAt, tasks := [], 0, 0, None, map[];
      items, peak := {}, 0;
    }

    /** A deadline joins; the timer moves up if it is the earliest. */
    method Add(when: real, task: TaskId) returns (entry: Entry)
      requires Valid()
      modifies this
      ensures Valid() && entry == Entry(when, old(num) + 1) && num == old(num) + 1
      ensures entry !in old(tasks) && tasks == old(tasks)[entry := task]
      ensures items == old(items) + {entry} && cancelled == old(cancelled)
      ensures peak == Max(old(peak), |tasks|)
      ensures armedAt == if old(armedAt).None? || when < old(armedAt).value then Some(when) else old(armedAt)
      ensures |tasks| == |old(tasks)| + 1
      ensures WithinTwiceLive() <==> old(cancelled) <= |old(tasks)| + 1
    {
      hide StoredOk, ArmedOk, CountOk, Stores, IsHeap;
      num := num + 1;
      entry := Entry(when, num);
      Numbered(heap, items, tasks, num - 1, entry);
      var pushed := HeapPush(heap, items, entry);
      AddKeeps(heap, items, tasks, num - 1, entry, task, pushed, cancelled, peak);
      NewTop(heap, items, entry, pushed, armedAt);
      heap := pushed;
      items, tasks := items + {entry}, tasks[entry := task];
      peak := Max(peak, |tasks|);
      if armedAt.None? || when < armedAt.value {
        armedAt := Some(when);
      }
    }

    /** Mark an entry dead; one that already fired or was cancelled is left alone. Too many dead
        entries are dropped at once. */
    method Cancel(entry: Entry)
      requires Valid()
      modifies this
      ensures Valid() && tasks == old(tasks) - {entry} && peak == old(peak) && armedAt == old(armedAt)
      ensures entry !in old(tasks) ==> cancelled == old(cancelled) && items == old(items)
      ensures entry in old(tasks) ==>
                var crowded := old(cancelled) + 1 > 100 && 2 * (old(cancelled) + 1) > |old(heap)|;
                && cancelled == (if crowded then 0 else old(cancelled) + 1)
                && items == (if crowded then tasks.Keys else old(items))
                && heap == (if crowded then heap else old(heap))
      ensures entry in old(tasks) ==> cancelled <= Max(100, |tasks|) && |tasks| == |old(tasks)| - 1
      ensures entry in old(tasks) ==>
                var crowded := old(cancelled) + 1 > 100 && 2 * (old(cancelled) + 1) > |old(heap)|;
                WithinTwiceLive() <==> crowded || old(cancelled) + 2 <= |old(tasks)|
    {
      hide StoredOk, ArmedOk, Stores, IsHeap;
      if entry !in tasks {
        assert tasks - {entry} == tasks;
        return;
      }
      CancelKeeps(heap, items, tasks, num, entry, cancelled, peak);
      tasks := tasks - {entry};
      cancelled := cancelled + 1;
      if cancelled > COMPACT_MIN && 2 * cancelled > |heap| {
        Numbered(heap, items, tasks, num, entry);
        LiveInHeap(heap, items, tasks);
        var live := Heapify(set e | e in heap && e in tasks);
        CompactKeeps(heap, items, tasks, num, armedAt, live, peak);
        heap, cancelled, items := live, 0, tasks.Keys;
      }
    }

    /** The timer went off: cancel every live task due by `now` plus the slack, earliest first,
        drop the dead entries found on top, and arm for what is left. */
    method Fire(now: real) returns (fired: seq<(Entry, TaskId)>)
      requires Valid()
      modifies this
      ensures Valid() && peak == old(peak)
      ensures FiredExactly(old(tasks), now + SLACK, fired)
      ensures tasks == map e | e in old(tasks) && e.when > now + SLACK :: old(tasks)[e]
      ensures forall e :: e in old(tasks) ==> (e in tasks <==> e.when > now + 0.001)
      ensures items <= set e | e in old(items) && e.when > now + SLACK
      ensures forall e, l :: e in old(items) && e.when > now + SLACK && l in tasks && (l == e || Before(l, e)) ==> e in items
      ensures heap == [] ==> armedAt.None?
      ensures heap != [] ==> heap[0] in tasks && armedAt == Some(heap[0].when)
      ensures |tasks| == |Later(old(tasks), now + SLACK)|
      ensures |heap| == |tasks| + |LeftDead(old(items), old(tasks), now + SLACK)|
      ensures WithinTwiceLive()
         <==> |LeftDead(old(items), old(tasks), now + SLACK)| <= |Later(old(tasks), now + SLACK)|
    {
      hide StoredOk, CountOk, FiredExactly;
      ghost var before, had := items, tasks;
      FireNone(heap, items, tasks, num);
      armedAt := None;
      var due := now + SLACK;
      fired := PopDue(due);
      DropDeadTop();
      LeftAfterFiring(heap, items, tasks, num, before, had, due);
      if heap != [] {
        armedAt := Some(heap[0].when);
      }
    }

    /** Pop the top entry, live or dead, and clear its task. */
    method PopOne() returns (e: Entry, task: Option<TaskId>)
      requires heap != [] && StoredOk(heap, items, tasks, num) && CountOk(items, tasks, cancelled, peak)
      modifies this`heap, this`tasks, this`cancelled, this`items
      ensures StoredOk(heap, items, tasks, num) && CountOk(items, tasks, cancelled, peak)
      ensures e == old(heap)[0] && e in old(items) && items == old(items) - {e} && tasks == old(tasks) - {e}
      ensures task == if e in old(tasks) then Some(old(tasks)[e]) else None
      ensures forall x :: x in items ==> Before(e, x)
      ensures task.None? ==> tasks == old(tasks)
    {
      hide StoredOk, CountOk, Stores, IsHeap;
      Numbered(heap, items, tasks, num, heap[0]);
      var rest;
      e, rest := HeapPop(heap, items);
      PopStored(heap, items, tasks, num, e, rest);
      PopCounted(items, tasks, e, cancelled, peak);
      if e in tasks {
        task := Some(tasks[e]);
      } else {
        task := None;
        cancelled := cancelled - 1;
      }
      heap, items, tasks := rest, items - {e}, tasks - {e};
    }

    /** The first loop of `Fire`. */
    method PopDue(due: real) returns (fired: seq<(Entry, TaskId)>)
      requires StoredOk(heap, items, tasks, num) && CountOk(items, tasks, cancelled, peak)
      modifies this`heap, this`tasks, this`cancelled, this`items
      ensures StoredOk(heap, items, tasks, num) && CountOk(items, tasks, cancelled, peak)
      ensures FiredExactly(old(tasks), due, fired)
      ensures tasks == map e | e in old(tasks) && e.when > due :: old(tasks)[e]
      ensures items == set e | e in old(items) && e.when > due
    {
      hide StoredOk, CountOk, FiredSoFar, FiredExactly;
      fired := [];
      FireNone(heap, items, tasks, num);
      while heap != [] && heap[0].when <= due
        invariant StoredOk(heap, items, tasks, num) && CountOk(items, tasks, cancelled, peak)
        invariant items <= old(items) && forall e :: e in old(items) && e !in items ==> e.when <= due
        invariant tasks == Only(old(tasks), items)
        invariant FiredSoFar(old(tasks), items, fired)
        decreases |items|
      {
        ghost var before := items;
        var e, task := PopOne();
        FireOne(old(tasks), before, fired, e);
        if task.Some? {
          fired := fired + [(e, task.value)];
        }
      }
      RestIsLater(heap, items, tasks, num, due);
      FireNone(heap, items, tasks, num);
      FiredAll(old(tasks), old(items), items, fired, due);
    }

    /** The second loop of `Fire`. */
    method DropDeadTop()
      requires StoredOk(heap, items, tasks, num) && CountOk(items, tasks, cancelled, peak)
      modifies this`heap, this`tasks, this`cancelled, this`items
      ensures StoredOk(heap, items, tasks, num) && CountOk(items, tasks, cancelled, peak)
      ensures tasks == old(tasks) && items <= old(items)
      ensures heap != [] ==> heap[0] in tasks
      ensures forall e, l :: e in old(items) && l in tasks && (l == e || Before(l, e)) ==> e in items
    {
      hide StoredOk, CountOk;
      while heap != [] && heap[0] !in tasks
        invariant StoredOk(heap, items, tasks, num) && CountOk(items, tasks, cancelled, peak)
        invariant tasks == old(tasks) && items <= old(items)
        invariant forall e :: e in old(items) && e !in items ==> e !in tasks
        invariant forall e, x :: e in old(items) && e !in items && x in items ==> Before(e, x)
        decreases |items|
      {
        var e, task := PopOne();
      }
      FireNone(heap, items, tasks, num);
    }
  }

  lemma FireNone(heap: seq<Entry>, items: set<Entry>, tasks: map<Entry, TaskId>, num: nat)
    requires StoredOk(heap, items, tasks, num)
    ensures FiredSoFar(tasks, items, []) && tasks == Only(tasks, items) && tasks.Keys <= items
  {}

  /** Once the top is past `due`, so is everything. */
  lemma RestIsLater(heap: seq<Entry>, items: set<Entry>, tasks: map<Entry, TaskId>, num: nat, due: real)
    requires StoredOk(heap, items, tasks, num) && (heap != [] ==> heap[0].when > due)
    ensures forall e :: e in items ==> e.when > due
  {
    forall e | e in items ensures e.when > due {
      var i :| 0 <= i < |heap| && heap[i] == e;
      TopIsLeast(heap, i);
    }
  }

  lemma LiveInHeap(heap: seq<Entry>, items: set<Entry>, tasks: map<Entry, TaskId>)
    requires Stores(heap, items) && tasks.Keys <= items
    ensures (set e | e in heap && e in tasks) == tasks.Keys
  {}

  /** The top after a push is the old top or the new entry, or the heap was empty. */
  lemma NewTop(heap: seq<Entry>, items: set<Entry>, e: Entry, heap': seq<Entry>, armedAt: Option<real>)
    requires Stores(heap, items) && IsHeap(heap) && Stores(heap', items + {e}) && IsHeap(heap')
    requires ArmedOk(heap, armedAt)
    ensures ArmedOk(heap', if armedAt.None? || e.when < armedAt.value then Some(e.when) else armedAt)
  {
    var top := heap'[0];
    assert top in heap';
    if top != e {
      var i :| 0 <= i < |heap| && heap[i] == top;
      TopIsLeast(heap, i);
    }
  }

  // ----- what the heap promises

  /** While any live deadline exists, the loop will call `Fire` no later than the earliest one. */
  lemma TimerIsNeverLate(h: DeadlineHeap, e: Entry)
    requires h.Valid() && e in h.tasks
    ensures h.armedAt.Some? && h.armedAt.value <= e.when
  {
    ArmedCoversAll(h.heap, h.items, h.tasks, h.num, h.armedAt, e);
  }

  /** The dead entries are counted exactly, and the heap never outgrows the live deadlines by more
      than their highest count so far, or by the compaction threshold. */
  lemma HeapStaysSmall(h: DeadlineHeap)
    requires h.Valid()
    ensures |h.heap| == |h.tasks| + h.cancelled <= |h.tasks| + Max(100, h.peak)
  {
    StoredSize(h.heap, h.items, h.tasks);
  }

  // ----- twice the live deadlines is exceeded

  /** A deadline that is cancelled at once, while too few are dead for a compaction. */
  method AddAndCancel(h: DeadlineHeap, when: real)
    requires h.Valid() && (h.cancelled < COMPACT_MIN || h.cancelled < |h.tasks|)
    modifies h
    ensures h.Valid() && h.tasks == old(h.tasks) && h.cancelled == old(h.cancelled) + 1
    ensures forall e :: e in h.items ==> e in old(h.items) || e.when == when
  {
    hide StoredOk, ArmedOk, CountOk;
    var e := h.Add(when, 0);
    HeapStaysSmall(h);
    h.Cancel(e);
    assert h.tasks == old(h.tasks);
  }

  /** After a cancellation: one live deadline and a hundred dead ones, none of them dropped. */
  method CancelledPileUp() returns (h: DeadlineHeap)
    ensures fresh(h) && h.Valid() && |h.heap| == 101 && |h.tasks| == 1 && !h.WithinTwiceLive()
  {
    hide StoredOk, ArmedOk, CountOk;
    h := new DeadlineHeap();
    var kept := h.Add(1.0, 0);
    for i := 0 to 100
      invariant fresh(h) && h.Valid() && |h.tasks| == 1 && h.cancelled == i
    {
      AddAndCancel(h, 2.0);
    }
    HeapStaysSmall(h);
  }

  /** After a firing: of 102 live deadlines all but the last one fire, and the 101 dead ones behind it
      stay. */
  method FiredFromAbove() returns (h: DeadlineHeap)
    ensures fresh(h) && h.Valid() && |h.heap| == 102 && |h.tasks| == 1 && !h.WithinTwiceLive()
  {
    hide StoredOk, ArmedOk, CountOk;
    h := new DeadlineHeap();
    var kept := h.Add(1000.0, 0);
    for i := 0 to 101
      invariant fresh(h) && h.Valid() && |h.tasks| == i + 1 && h.cancelled == 0 && kept in h.tasks
      invariant forall e :: e in h.tasks ==> e == kept || e.when == 1.0
      invariant forall e :: e in h.items ==> e in h.tasks
    {
      var e := h.Add(1.0, 0);
    }
    ghost var live := h.tasks;
    for i := 0 to 101
      invariant fresh(h) && h.Valid() && h.tasks == live && h.cancelled == i
      invariant forall e :: e in h.items ==> e in live || e.when == 2000.0
    {
      AddAndCancel(h, 2000.0);
    }
    OneLater(h.heap, h.items, live, h.num, h.cancelled, h.peak, kept);
    var fired := h.Fire(2.0);
  }

  lemma OneLater(
    heap: seq<Entry>, items: set<Entry>, tasks: map<Entry, TaskId>, num: nat, cancelled: nat, peak: nat, kept: Entry)
    requires StoredOk(heap, items, tasks, num) && CountOk(items, tasks, cancelled, peak)
    requires kept in tasks && kept.when == 1000.0
    requires forall e :: e in tasks ==> e == kept || e.when == 1.0
    requires forall e :: e in items ==> e in tasks || e.when == 2000.0
    ensures |Later(tasks, 2.0 + SLACK)| == 1 && |LeftDead(items, tasks, 2.0 + SLACK)| == cancelled
  {
    assert Later(tasks, 2.0 + SLACK) == {kept};
    assert LeftDead(items, tasks, 2.0 + SLACK) == Dead(items, tasks);
  }
}
