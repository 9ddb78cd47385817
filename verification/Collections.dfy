/** A few facts about Dafny's own collections, and the larger of two numbers. */
module Collections {

  function Max(a: nat, b: nat): nat { if a < b then b else a }

  predicate Ascending(s: seq<int>) {
    forall i, j :: 0 <= i < j < |s| ==> s[i] < s[j]
  }

  lemma MemberlessIsEmpty<T>(s: set<T>)
    ensures (forall x :: x !in s) ==> s == {}
  {
    if forall x :: x !in s {
      assert s <= {};
    }
  }

  lemma SomeMember<T>(s: set<T>) returns (x: T)
    requires s != {}
    ensures x in s
  {
    MemberlessIsEmpty(s);
    x :| x in s;
  }
}
