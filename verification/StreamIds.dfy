/** Redis stream entry ids as the worker compares them: `<ms>-<sn>`, both unsigned
    64 bit, ordered by ms and then by sequence number. */
module StreamIds {

  const U64_MAX: nat := 0xFFFF_FFFF_FFFF_FFFF

  type U64 = n: nat | n <= U64_MAX

  datatype Id = Id(ms: U64, sn: U64)

  /** `0-0`: the last-delivered-id of a group nothing was ever delivered to. */
  const ZERO: Id := Id(0, 0)

  predicate Less(a: Id, b: Id) {
    a.ms < b.ms || (a.ms == b.ms && a.sn < b.sn)
  }

  predicate AtMost(a: Id, b: Id) {
    a == b || Less(a, b)
  }

  /** One past `id`, so that a trim to the result also removes `id`. At the top of the
      sequence range the id comes back unchanged. */
  function After(id: Id): Id {
    if id.sn == U64_MAX then id else Id(id.ms, id.sn + 1)
  }

  /** The boundary `After(id)` keeps every id above `id`, and gives up `id` itself except at
      the top of the sequence range, where one entry is retained instead of one destroyed. */
  lemma AfterIsTheTightestBoundary(id: Id, other: Id)
    ensures Less(id, other) ==> AtMost(After(id), other)
    ensures Less(other, After(id)) <==> if id.sn == U64_MAX then Less(other, id) else AtMost(other, id)
  {
    assert other.ms == id.ms || other.ms < id.ms || id.ms < other.ms;
  }

  /** The oldest id of a nonempty set, as XPENDING `- + 1` reports it. */
  ghost function Oldest(ids: set<Id>): (oldest: Id)
    requires ids != {}
    ensures oldest in ids
    ensures forall id :: id in ids ==> AtMost(oldest, id)
  {
    OldestExists(ids);
    var oldest :| oldest in ids && forall id :: id in ids ==> AtMost(oldest, id);
    oldest
  }

  lemma {:induction false} OldestExists(ids: set<Id>)
    requires ids != {}
    ensures exists oldest :: oldest in ids && forall id :: id in ids ==> AtMost(oldest, id)
  {
    var some :| some in ids;
    if ids != {some} {
      assert ids == (ids - {some}) + {some};
      OldestExists(ids - {some});
      var least :| least in ids - {some} && forall id :: id in ids - {some} ==> AtMost(least, id);
      if Less(some, least) {
        assert forall id :: id in ids ==> AtMost(some, id);
      } else {
        assert forall id :: id in ids ==> AtMost(least, id);
      }
    }
  }
}
