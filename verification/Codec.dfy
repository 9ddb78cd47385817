/**
 The client's check of what it is about to encode: JSON types only, finite floats, string keys, and
 no deeper than the worker can parse. A refusal carries the path to the value it is about.
 */
module Codec {
  import opened Collections
  import opened Options
  import opened RawJson

  const MAX_NESTING: nat := 127

  // ----- Python values

  datatype Py =
    | Atom(text: Bytes)
    | Float(text: Bytes, finite: bool)
    | Text(utf8: Bytes)
    | List(items: Items)
    | Dict(entries: Entries)
    | Other

  datatype Items = NoItems | Item(head: Py, tail: Items)

  datatype Entries = NoEntries | Entry(key: PyKey, value: Py, rest: Entries)

  datatype PyKey = StrKey(name: Bytes) | OtherKey

  datatype Kind = NotSerializable | NonFinite | BadKey | TooDeep

  datatype Segment = Name(name: Bytes) | Index(i: nat)

  /** `path` holds the innermost segment first, as the exception collects it while unwinding. */
  datatype Verdict = Ok | Bad(kind: Kind, path: seq<Segment>)

  predicate IsContainer(v: Py) { v.List? || v.Dict? }

  // ----- the validator

  function Push(verdict: Verdict, segment: Segment): Verdict {
    match verdict
    case Ok => Ok
    case Bad(kind, path) => Bad(kind, path + [segment])
  }

  function Validate(v: Py, depth: nat): Verdict {
    match v
    case Atom(_) => Ok
    case Text(_) => Ok
    case Float(_, finite) => if finite then Ok else Bad(NonFinite, [])
    case Dict(entries) => if depth > MAX_NESTING then Bad(TooDeep, []) else ValidateEntries(entries, depth)
    case List(items) => if depth > MAX_NESTING then Bad(TooDeep, []) else ValidateItems(items, 0, depth)
    case Other => Bad(NotSerializable, [])
  }

  function ValidateItems(items: Items, i: nat, depth: nat): Verdict {
    match items
    case NoItems => Ok
    case Item(head, tail) =>
      var verdict := Push(Validate(head, depth + 1), Index(i));
      if verdict.Ok? then ValidateItems(tail, i + 1, depth) else verdict
  }

  function ValidateEntries(entries: Entries, depth: nat): Verdict {
    match entries
    case NoEntries => Ok
    case Entry(key, value, rest) =>
      if key.OtherKey? then Bad(BadKey, [])
      else
        var verdict := Push(Validate(value, depth + 1), Name(key.name));
        if verdict.Ok? then ValidateEntries(rest, depth) else verdict
  }

  // ----- what it accepts

  predicate JsonTyped(v: Py) {
    match v
    case Atom(_) => true
    case Text(_) => true
    case Float(_, finite) => finite
    case Dict(entries) => JsonTypedEntries(entries)
    case List(items) => JsonTypedItems(items)
    case Other => false
  }

  predicate JsonTypedItems(items: Items) {
    items.NoItems? || (JsonTyped(items.head) && JsonTypedItems(items.tail))
  }

  predicate JsonTypedEntries(entries: Entries) {
    entries.NoEntries? || (entries.key.StrKey? && JsonTyped(entries.value) && JsonTypedEntries(entries.rest))
  }

  function Nesting(v: Py): nat {
    match v
    case Dict(entries) => 1 + NestingEntries(entries)
    case List(items) => 1 + NestingItems(items)
    case _ => 0
  }

  function NestingItems(items: Items): nat {
    if items.NoItems? then 0 else Max(Nesting(items.head), NestingItems(items.tail))
  }

  function NestingEntries(entries: Entries): nat {
    if entries.NoEntries? then 0 else Max(Nesting(entries.value), NestingEntries(entries.rest))
  }

  predicate Shallow(nesting: nat, depth: nat) {
    nesting == 0 || depth + nesting <= MAX_NESTING + 1
  }

  /** Accepted are exactly the JSON typed values no container of which starts below the limit. */
  lemma {:induction false} ValidateIsExact(v: Py, depth: nat)
    ensures Validate(v, depth).Ok? <==> JsonTyped(v) && Shallow(Nesting(v), depth)
    decreases v
  {
    match v
    case Dict(entries) => ValidateEntriesIsExact(entries, depth);
    case List(items) => ValidateItemsIsExact(items, 0, depth);
    case _ =>
  }

  lemma {:induction false} ValidateItemsIsExact(items: Items, i: nat, depth: nat)
    ensures ValidateItems(items, i, depth).Ok? <==> JsonTypedItems(items) && Shallow(NestingItems(items), depth + 1)
    decreases items
  {
    if items.Item? {
      ValidateIsExact(items.head, depth + 1);
      ValidateItemsIsExact(items.tail, i + 1, depth);
    }
  }

  lemma {:induction false} ValidateEntriesIsExact(entries: Entries, depth: nat)
    ensures ValidateEntries(entries, depth).Ok?
       <==> JsonTypedEntries(entries) && Shallow(NestingEntries(entries), depth + 1)
    decreases entries
  {
    if entries.Entry? {
      ValidateIsExact(entries.value, depth + 1);
      ValidateEntriesIsExact(entries.rest, depth);
    }
  }

  // ----- what a refusal says

  /** Something wrong with the value at the end of `path`, outermost segment first. */
  datatype Offence = Offence(path: seq<Segment>, kind: Kind)

  function Under(segment: Segment, offences: seq<Offence>): (r: seq<Offence>)
    ensures |r| == |offences|
    ensures forall i :: 0 <= i < |r| ==> r[i] == Offence([segment] + offences[i].path, offences[i].kind)
  {
    if offences == [] then []
    else [Offence([segment] + offences[0].path, offences[0].kind)] + Under(segment, offences[1..])
  }

  /** Everything wrong with a value, in document order. */
  function Offences(v: Py, depth: nat): seq<Offence> {
    match v
    case Atom(_) => []
    case Text(_) => []
    case Float(_, finite) => if finite then [] else [Offence([], NonFinite)]
    case Dict(entries) => if depth > MAX_NESTING then [Offence([], TooDeep)] else OffencesOfEntries(entries, depth)
    case List(items) => if depth > MAX_NESTING then [Offence([], TooDeep)] else OffencesOfItems(items, 0, depth)
    case Other => [Offence([], NotSerializable)]
  }

  function OffencesOfItems(items: Items, i: nat, depth: nat): seq<Offence> {
    match items
    case NoItems => []
    case Item(head, tail) => Under(Index(i), Offences(head, depth + 1)) + OffencesOfItems(tail, i + 1, depth)
  }

  function OffencesOfEntries(entries: Entries, depth: nat): seq<Offence> {
    match entries
    case NoEntries => []
    case Entry(key, value, rest) =>
      (if key.OtherKey? then [Offence([], BadKey)] else Under(Name(key.name), Offences(value, depth + 1)))
      + OffencesOfEntries(rest, depth)
  }

  function Reverse(path: seq<Segment>): seq<Segment> {
    if path == [] then [] else Reverse(path[1..]) + [path[0]]
  }

  /** A verdict reports the first of `offences`, its path turned innermost first. */
  predicate ReportsFirst(verdict: Verdict, offences: seq<Offence>) {
    if offences == [] then verdict == Ok
    else verdict == Bad(offences[0].kind, Reverse(offences[0].path))
  }

  lemma PushReportsFirst(verdict: Verdict, offences: seq<Offence>, segment: Segment)
    requires ReportsFirst(verdict, offences)
    ensures ReportsFirst(Push(verdict, segment), Under(segment, offences))
  {
    if offences != [] {
      var path := offences[0].path;
      assert ([segment] + path)[1..] == path;
    }
  }

  /** The exception is about the first thing wrong, and its path is the way to that very value. */
  lemma {:induction false} RefusalNamesTheFirstOffence(v: Py, depth: nat)
    ensures ReportsFirst(Validate(v, depth), Offences(v, depth))
    decreases v
  {
    match v
    case Dict(entries) => EntriesReportFirst(entries, depth);
    case List(items) => ItemsReportFirst(items, 0, depth);
    case _ =>
  }

  lemma {:induction false} ItemsReportFirst(items: Items, i: nat, depth: nat)
    ensures ReportsFirst(ValidateItems(items, i, depth), OffencesOfItems(items, i, depth))
    decreases items
  {
    if items.Item? {
      RefusalNamesTheFirstOffence(items.head, depth + 1);
      PushReportsFirst(Validate(items.head, depth + 1), Offences(items.head, depth + 1), Index(i));
      ItemsReportFirst(items.tail, i + 1, depth);
    }
  }

  lemma {:induction false} EntriesReportFirst(entries: Entries, depth: nat)
    ensures ReportsFirst(ValidateEntries(entries, depth), OffencesOfEntries(entries, depth))
    decreases entries
  {
    if entries.Entry? && entries.key.StrKey? {
      RefusalNamesTheFirstOffence(entries.value, depth + 1);
      PushReportsFirst(Validate(entries.value, depth + 1), Offences(entries.value, depth + 1), Name(entries.key.name));
      EntriesReportFirst(entries.rest, depth);
    }
  }

  // ----- where a path leads

  function Nth(items: Items, i: nat): Option<Py> {
    if items.NoItems? then None else if i == 0 then Some(items.head) else Nth(items.tail, i - 1)
  }

  function Lookup(entries: Entries, name: Bytes): Option<Py> {
    if entries.NoEntries? then None
    else if entries.key == StrKey(name) then Some(entries.value)
    else Lookup(entries.rest, name)
  }

  function Child(v: Py, segment: Segment): Option<Py> {
    if v.List? && segment.Index? then Nth(v.items, segment.i)
    else if v.Dict? && segment.Name? then Lookup(v.entries, segment.name)
    else None
  }

  /** The sub-value at the end of a path, outermost segment first. */
  function Follow(v: Py, path: seq<Segment>): Option<Py>
    decreases |path|
  {
    if path == [] then Some(v)
    else
      var child := Child(v, path[0]);
      if child.None? then None else Follow(child.value, path[1..])
  }

  /** No dict inside has a key twice, as in any Python dict. */
  predicate DistinctKeys(v: Py) {
    match v
    case Dict(entries) => DistinctKeysEntries(entries)
    case List(items) => DistinctKeysItems(items)
    case _ => true
  }

  predicate DistinctKeysItems(items: Items) {
    items.NoItems? || (DistinctKeys(items.head) && DistinctKeysItems(items.tail))
  }

  predicate DistinctKeysEntries(entries: Entries) {
    entries.NoEntries?
    || ((entries.key.StrKey? ==> Lookup(entries.rest, entries.key.name).None?)
        && DistinctKeys(entries.value) && DistinctKeysEntries(entries.rest))
  }

  predicate HasOtherKey(entries: Entries) {
    entries.Entry? && (entries.key.OtherKey? || HasOtherKey(entries.rest))
  }

  /** What it means for `v`, met at `depth`, to be refused as `kind`. */
  predicate Offends(v: Py, depth: nat, kind: Kind) {
    match kind
    case NotSerializable => v.Other?
    case NonFinite => v.Float? && !v.finite
    case BadKey => v.Dict? && depth <= MAX_NESTING && HasOtherKey(v.entries)
    case TooDeep => IsContainer(v) && depth == MAX_NESTING + 1
  }

  predicate PointsAt(v: Py, depth: nat, o: Offence) {
    Follow(v, o.path).Some? && Offends(Follow(v, o.path).value, depth + |o.path|, o.kind)
  }

  lemma OneStepFurther(v: Py, segment: Segment, child: Py, depth: nat, o: Offence)
    requires Child(v, segment) == Some(child) && PointsAt(child, depth + 1, o)
    ensures PointsAt(v, depth, Offence([segment] + o.path, o.kind))
  {
    assert ([segment] + o.path)[1..] == o.path;
  }

  lemma BadKeyHere(entries: Entries, depth: nat)
    requires HasOtherKey(entries) && depth <= MAX_NESTING
    ensures PointsAt(Dict(entries), depth, Offence([], BadKey))
  {}

  /** Following an offence's path from the value checked leads to a value that offends that way. */
  lemma {:induction false} OffencePathLeadsToIt(v: Py, depth: nat, k: nat)
    requires DistinctKeys(v) && depth <= MAX_NESTING + 1 && k < |Offences(v, depth)|
    ensures PointsAt(v, depth, Offences(v, depth)[k])
    decreases v
  {
    if depth <= MAX_NESTING {
      match v
      case Dict(entries) => EntryPathLeadsToIt(entries, entries, depth, k);
      case List(items) => ItemPathLeadsToIt(items, items, 0, depth, k);
      case _ =>
    }
  }

  lemma {:induction false} ItemPathLeadsToIt(all: Items, items: Items, i: nat, depth: nat, k: nat)
    requires DistinctKeysItems(items) && depth <= MAX_NESTING && k < |OffencesOfItems(items, i, depth)|
    requires forall j :: j >= 0 ==> Nth(items, j) == Nth(all, i + j)
    ensures PointsAt(List(all), depth, OffencesOfItems(items, i, depth)[k])
    decreases items
  {
    var inner := Offences(items.head, depth + 1);
    if k < |inner| {
      OffencePathLeadsToIt(items.head, depth + 1, k);
      assert Nth(items, 0) == Nth(all, i + 0);
      OneStepFurther(List(all), Index(i), items.head, depth, inner[k]);
    } else {
      forall j | j >= 0 ensures Nth(items.tail, j) == Nth(all, i + 1 + j) {
        assert Nth(items, j + 1) == Nth(all, i + (j + 1));
      }
      ItemPathLeadsToIt(all, items.tail, i + 1, depth, k - |inner|);
    }
  }

  lemma {:induction false} EntryPathLeadsToIt(all: Entries, entries: Entries, depth: nat, k: nat)
    requires DistinctKeysEntries(entries) && depth <= MAX_NESTING && k < |OffencesOfEntries(entries, depth)|
    requires forall name :: Lookup(entries, name).Some? ==> Lookup(all, name) == Lookup(entries, name)
    requires HasOtherKey(entries) ==> HasOtherKey(all)
    ensures PointsAt(Dict(all), depth, OffencesOfEntries(entries, depth)[k])
    decreases entries
  {
    hide Follow, Offends;
    var inner := if entries.key.OtherKey? then [Offence([], BadKey)]
                 else Under(Name(entries.key.name), Offences(entries.value, depth + 1));
    if k >= |inner| {
      forall name | Lookup(entries.rest, name).Some? ensures Lookup(all, name) == Lookup(entries.rest, name) {
        assert Lookup(entries, name) == Lookup(entries.rest, name);
      }
      EntryPathLeadsToIt(all, entries.rest, depth, k - |inner|);
    } else if entries.key.StrKey? {
      OffencePathLeadsToIt(entries.value, depth + 1, k);
      assert Lookup(entries, entries.key.name) == Some(entries.value);
      OneStepFurther(Dict(all), Name(entries.key.name), entries.value, depth, Offences(entries.value, depth + 1)[k]);
    } else {
      BadKeyHere(all, depth);
    }
  }

  // ----- client and worker

  /** `j` is how an encoder may write `v`: the same shape, and no surrogate ever escaped. */
  predicate Encodes(v: Py, j: Value) {
    match v
    case Atom(text) => j == Scalar(text)
    case Float(text, finite) => j == Scalar(text)
    case Text(_) => j.Str? && NoSurrogates(j.units)
    case List(items) => j.Arr? && EncodesItems(items, j.elems)
    case Dict(entries) => j.Obj? && EncodesEntries(entries, j.members)
    case Other => false
  }

  predicate EncodesItems(items: Items, es: Elems) {
    match items
    case NoItems => es.NoElems?
    case Item(head, tail) => es.Elem? && Encodes(head, es.value) && EncodesItems(tail, es.rest)
  }

  predicate EncodesEntries(entries: Entries, ms: Members) {
    match entries
    case NoEntries => ms.NoMembers?
    case Entry(_, value, rest) =>
      ms.Member? && NoSurrogates(ms.key.units) && Encodes(value, ms.value) && EncodesEntries(rest, ms.rest)
  }

  predicate NoSurrogates(units: seq<Unit>) {
    forall u :: u in units ==> !IsHigh(u) && !IsTrail(u)
  }

  lemma {:induction false} EncodingKeepsNesting(v: Py, j: Value)
    requires Encodes(v, j)
    ensures Depth(j) == Nesting(v) && AllPaired(j)
    decreases v
  {
    match v
    case List(items) => EncodingKeepsNestingItems(items, j.elems);
    case Dict(entries) => EncodingKeepsNestingEntries(entries, j.members);
    case _ =>
  }

  lemma {:induction false} EncodingKeepsNestingItems(items: Items, es: Elems)
    requires EncodesItems(items, es)
    ensures DepthElems(es) == NestingItems(items) && AllPairedElems(es)
    decreases items
  {
    if items.Item? {
      EncodingKeepsNesting(items.head, es.value);
      EncodingKeepsNestingItems(items.tail, es.rest);
    }
  }

  lemma {:induction false} EncodingKeepsNestingEntries(entries: Entries, ms: Members)
    requires EncodesEntries(entries, ms)
    ensures DepthMembers(ms) == NestingEntries(entries) && AllPairedMembers(ms)
    decreases entries
  {
    if entries.Entry? {
      EncodingKeepsNesting(entries.value, ms.value);
      EncodingKeepsNestingEntries(entries.rest, ms.rest);
    }
  }

  const ARGS: Bytes := [97, 114, 103, 115]
  const KWARGS: Bytes := [107, 119, 97, 114, 103, 115]

  function Append(head: Entries, tail: Entries): Entries {
    if head.NoEntries? then tail else Entry(head.key, head.value, Append(head.rest, tail))
  }

  /** The other envelope fields are numbers, strings, booleans and null. */
  predicate PlainFields(entries: Entries) {
    JsonTypedEntries(entries) && NestingEntries(entries) == 0
  }

  function Envelope(head: Entries, args: Py, kwargs: Py, tail: Entries): Py {
    Dict(Append(head, Entry(StrKey(ARGS), args, Entry(StrKey(KWARGS), kwargs, tail))))
  }

  lemma {:induction false} FieldsBefore(head: Entries, tail: Entries)
    requires PlainFields(head)
    ensures JsonTypedEntries(Append(head, tail)) == JsonTypedEntries(tail)
    ensures NestingEntries(Append(head, tail)) == NestingEntries(tail)
  {
    if head.Entry? {
      FieldsBefore(head.rest, tail);
    }
  }

  /** The client accepts an envelope of JSON types iff the worker's scanner, which never sees the
      envelope's own braces, accepts the text of both arguments. */
  lemma ClientAndWorkerAgreeOnDepth(head: Entries, args: Py, kwargs: Py, tail: Entries,
                                    argsTree: Value, kwargsTree: Value, argsText: Bytes, kwargsText: Bytes)
    requires PlainFields(head) && PlainFields(tail)
    requires IsContainer(args) && JsonTyped(args) && Encodes(args, argsTree) && IsText(argsText, argsTree)
    requires IsContainer(kwargs) && JsonTyped(kwargs) && Encodes(kwargs, kwargsTree) && IsText(kwargsText, kwargsTree)
    ensures Validate(Envelope(head, args, kwargs, tail), 1).Ok?
       <==> Scan(argsText, 0, false) == Accept && Scan(kwargsText, 0, false) == Accept
  {
    hide Scan;
    var fields := Entry(StrKey(ARGS), args, Entry(StrKey(KWARGS), kwargs, tail));
    FieldsBefore(head, fields);
    ValidateIsExact(Envelope(head, args, kwargs, tail), 1);
    EncodingKeepsNesting(args, argsTree);
    EncodingKeepsNesting(kwargs, kwargsTree);
    FullScanIsExact(argsText, argsTree);
    FullScanIsExact(kwargsText, kwargsTree);
  }

  /** And when the client refuses such an envelope it says so for its nesting, naming the container
      that starts one level too deep. */
  lemma RefusedEnvelopeIsTooDeep(head: Entries, args: Py, kwargs: Py, tail: Entries)
    requires PlainFields(head) && PlainFields(tail) && JsonTyped(args) && JsonTyped(kwargs)
    requires DistinctKeys(Envelope(head, args, kwargs, tail))
    ensures var v := Envelope(head, args, kwargs, tail);
            var verdict := Validate(v, 1);
            verdict.Bad? ==>
              && verdict.kind == TooDeep && |verdict.path| == 127
              && Follow(v, Reverse(verdict.path)).Some? && IsContainer(Follow(v, Reverse(verdict.path)).value)
  {
    var v := Envelope(head, args, kwargs, tail);
    RefusalNamesTheFirstOffence(v, 1);
    if Validate(v, 1).Bad? {
      var o := Offences(v, 1)[0];
      OffencePathLeadsToIt(v, 1, 0);
      FieldsBefore(head, Entry(StrKey(ARGS), args, Entry(StrKey(KWARGS), kwargs, tail)));
      ReverseTwice(o.path);
      TypedFollow(v, o.path);
    }
  }

  lemma {:induction false} ReverseConcat(a: seq<Segment>, s: Segment)
    ensures Reverse(a + [s]) == [s] + Reverse(a)
  {
    if a == [] {
      assert a + [s] == [s];
    } else {
      assert (a + [s])[1..] == a[1..] + [s];
      ReverseConcat(a[1..], s);
    }
  }

  lemma {:induction false} ReverseTwice(path: seq<Segment>)
    ensures Reverse(Reverse(path)) == path && |Reverse(path)| == |path|
  {
    if path != [] {
      ReverseTwice(path[1..]);
      ReverseConcat(Reverse(path[1..]), path[0]);
    }
  }

  /** A part of a JSON typed value is JSON typed. */
  lemma {:induction false} TypedFollow(v: Py, path: seq<Segment>)
    requires JsonTyped(v) && Follow(v, path).Some?
    ensures JsonTyped(Follow(v, path).value)
    ensures forall depth, kind :: Offends(Follow(v, path).value, depth, kind) ==> kind == TooDeep
    decreases |path|
  {
    if path == [] {
      if v.Dict? { TypedKeys(v.entries); }
    } else if v.List? {
      TypedNth(v.items, path[0].i);
      TypedFollow(Nth(v.items, path[0].i).value, path[1..]);
    } else {
      TypedLookup(v.entries, path[0].name);
      TypedFollow(Lookup(v.entries, path[0].name).value, path[1..]);
    }
  }

  lemma TypedKeys(entries: Entries)
    requires JsonTypedEntries(entries)
    ensures !HasOtherKey(entries)
  {}

  lemma TypedNth(items: Items, i: nat)
    requires JsonTypedItems(items) && Nth(items, i).Some?
    ensures JsonTyped(Nth(items, i).value)
  {}

  lemma TypedLookup(entries: Entries, name: Bytes)
    requires JsonTypedEntries(entries) && Lookup(entries, name).Some?
    ensures JsonTyped(Lookup(entries, name).value)
  {}
}
