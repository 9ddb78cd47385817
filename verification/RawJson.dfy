/**
 The worker's gate on raw JSON arguments: a byte scanner with a counting fast path, against the
 syntax tree the text is the print of. The tree follows RFC 8259: sections 2 to 4 for structure,
 section 7 for strings, section 9 for the nesting limit.
 */
module RawJson {
  import opened Collections
  import opened Options

  newtype byte = x: int | 0 <= x < 256

  type Bytes = seq<byte>

  const QUOTE: byte := 34
  const BACKSLASH: byte := 92
  const LETTER_U: byte := 117
  const COMMA: byte := 44
  const COLON: byte := 58

  /** How deep an argument may nest: one level less than the parser allows, since it sits in the
      envelope's object. */
  const MAX_ARG_NESTING: nat := 126

  predicate IsOpen(b: byte) { b == 91 || b == 123 }

  predicate IsClose(b: byte) { b == 93 || b == 125 }

  // ----- JSON text

  /** One character of a string: itself, a two character escape, or `\u` and four hex digits. */
  datatype Unit =
    | Plain(b: byte)
    | Short(b: byte)
    | Hex(digits: Bytes)

  datatype Value =
    | Scalar(text: Bytes)
    | Str(units: seq<Unit>)
    | Arr(blank: Bytes, elems: Elems)
    | Obj(blank: Bytes, members: Members)

  datatype Elems = NoElems | Elem(before: Bytes, value: Value, after: Bytes, rest: Elems)

  datatype Members = NoMembers | Member(key: Key, value: Value, after: Bytes, rest: Members)

  /** A member up to its value: blanks, the key's string, blanks, the colon, blanks. */
  datatype Key = Key(before: Bytes, units: seq<Unit>, after: Bytes, beforeValue: Bytes)

  predicate IsBlank(s: Bytes) {
    forall b :: b in s ==> b in {32, 9, 10, 13}
  }

  /** Digits, letters and signs: the bytes of numbers and of the three literal names. */
  predicate IsScalarText(s: Bytes) {
    |s| > 0 && forall b :: b in s ==> 48 <= b <= 57 || 97 <= b <= 122 || b == 69 || b in {43, 45, 46}
  }

  predicate IsHexDigit(b: byte) {
    48 <= b <= 57 || 65 <= b <= 70 || 97 <= b <= 102
  }

  predicate WellFormedUnit(u: Unit) {
    match u
    case Plain(b) => b >= 32 && b != QUOTE && b != BACKSLASH
    case Short(b) => b in {34, 92, 47, 98, 102, 110, 114, 116}
    case Hex(digits) => |digits| == 4 && forall b :: b in digits ==> IsHexDigit(b)
  }

  predicate WellFormedUnits(units: seq<Unit>) {
    forall u :: u in units ==> WellFormedUnit(u)
  }

  predicate WellFormed(v: Value) {
    match v
    case Scalar(text) => IsScalarText(text)
    case Str(units) => WellFormedUnits(units)
    case Arr(blank, elems) => IsBlank(blank) && WellFormedElems(elems)
    case Obj(blank, members) => IsBlank(blank) && WellFormedMembers(members)
  }

  predicate WellFormedElems(es: Elems) {
    match es
    case NoElems => true
    case Elem(before, value, after, rest) =>
      IsBlank(before) && WellFormed(value) && IsBlank(after) && WellFormedElems(rest)
  }

  predicate WellFormedMembers(ms: Members) {
    match ms
    case NoMembers => true
    case Member(key, value, after, rest) =>
      WellFormedKey(key) && WellFormed(value) && IsBlank(after) && WellFormedMembers(rest)
  }

  predicate WellFormedKey(k: Key) {
    IsBlank(k.before) && WellFormedUnits(k.units) && IsBlank(k.after) && IsBlank(k.beforeValue)
  }

  function PrintUnit(u: Unit): Bytes {
    match u
    case Plain(b) => [b]
    case Short(b) => [BACKSLASH, b]
    case Hex(digits) => [BACKSLASH, LETTER_U] + digits
  }

  function PrintUnits(units: seq<Unit>): Bytes {
    if units == [] then [] else PrintUnit(units[0]) + PrintUnits(units[1..])
  }

  function PrintString(units: seq<Unit>): Bytes {
    [QUOTE] + (PrintUnits(units) + [QUOTE])
  }

  function PrintKey(k: Key): Bytes {
    k.before + (PrintString(k.units) + (k.after + ([COLON] + k.beforeValue)))
  }

  function Print(v: Value): Bytes {
    match v
    case Scalar(text) => text
    case Str(units) => PrintString(units)
    case Arr(blank, elems) => [91] + (blank + (PrintElems(elems) + [93]))
    case Obj(blank, members) => [123] + (blank + (PrintMembers(members) + [125]))
  }

  function PrintElems(es: Elems): Bytes {
    match es
    case NoElems => []
    case Elem(before, value, after, rest) =>
      before + (Print(value) + (after + ((if rest.NoElems? then [] else [COMMA]) + PrintElems(rest))))
  }

  function PrintMembers(ms: Members): Bytes {
    match ms
    case NoMembers => []
    case Member(key, value, after, rest) =>
      PrintKey(key) + (Print(value) + (after + ((if rest.NoMembers? then [] else [COMMA]) + PrintMembers(rest))))
  }

  /** `text` is the print of `v`. */
  predicate IsText(text: Bytes, v: Value) {
    WellFormed(v) && text == Print(v)
  }

  // ----- what a tree parse accepts

  /** How many arrays and objects enclose the most deeply nested one, itself included. */
  function Depth(v: Value): nat {
    match v
    case Scalar(_) => 0
    case Str(_) => 0
    case Arr(_, elems) => 1 + DepthElems(elems)
    case Obj(_, members) => 1 + DepthMembers(members)
  }

  function DepthElems(es: Elems): nat {
    match es
    case NoElems => 0
    case Elem(_, value, _, rest) => Max(Depth(value), DepthElems(rest))
  }

  function DepthMembers(ms: Members): nat {
    match ms
    case NoMembers => 0
    case Member(_, value, _, rest) => Max(Depth(value), DepthMembers(rest))
  }

  function HexDigit(b: byte): Option<nat> {
    if 48 <= b <= 57 then Some(b as nat - 48)
    else if 65 <= b <= 70 then Some(b as nat - 55)
    else if 97 <= b <= 102 then Some(b as nat - 87)
    else None
  }

  /** The number most significant digit first, or None if some byte is no hex digit. */
  function HexNumber(s: Bytes): Option<nat> {
    if s == [] then Some(0)
    else
      var high, low := HexNumber(s[..|s| - 1]), HexDigit(s[|s| - 1]);
      if high.Some? && low.Some? then Some(16 * high.value + low.value) else None
  }

  predicate IsHigh(u: Unit) {
    u.Hex? && HexNumber(u.digits).Some? && 0xD800 <= HexNumber(u.digits).value < 0xDC00
  }

  predicate IsTrail(u: Unit) {
    u.Hex? && HexNumber(u.digits).Some? && 0xDC00 <= HexNumber(u.digits).value < 0xE000
  }

  /** Every surrogate is half of a proper pair: each high one is followed by a trailing one, each
      trailing one preceded by a high one. */
  predicate Paired(units: seq<Unit>) {
    && (forall i :: 0 <= i < |units| && IsHigh(units[i]) ==> i + 1 < |units| && IsTrail(units[i + 1]))
    && (forall i :: 0 <= i < |units| && IsTrail(units[i]) ==> i > 0 && IsHigh(units[i - 1]))
  }

  predicate AllPaired(v: Value) {
    match v
    case Scalar(_) => true
    case Str(units) => Paired(units)
    case Arr(_, elems) => AllPairedElems(elems)
    case Obj(_, members) => AllPairedMembers(members)
  }

  predicate AllPairedElems(es: Elems) {
    match es
    case NoElems => true
    case Elem(_, value, _, rest) => AllPaired(value) && AllPairedElems(rest)
  }

  predicate AllPairedMembers(ms: Members) {
    match ms
    case NoMembers => true
    case Member(key, value, _, rest) => Paired(key.units) && AllPaired(value) && AllPairedMembers(rest)
  }

  // ----- the scanner, as a function of what is left to scan

  /** A panic is an index out of bounds, an unparseable escape, or a depth below zero. */
  datatype Verdict = Accept | Refuse | Panic

  /** `unit`: the four bytes at `at` as a hexadecimal number. The library parser also takes a
      leading plus sign. */
  function UnitAt(b: Bytes, at: nat): Option<nat> {
    if at + 4 > |b| then None
    else if b[at] == 43 then HexNumber(b[at + 1..at + 4])
    else HexNumber(b[at..at + 4])
  }

  predicate TrailNumber(u: nat) { 0xDC00 <= u < 0xE000 }

  predicate HighNumber(u: nat) { 0xD800 <= u < 0xDC00 }

  function Scan(b: Bytes, depth: nat, inStr: bool): Verdict
    decreases |b|
  {
    if b == [] then Accept
    else if inStr then ScanInString(b, depth)
    else if b[0] == QUOTE then Scan(b[1..], depth, true)
    else if IsOpen(b[0]) then
      if depth + 1 > MAX_ARG_NESTING then Refuse else Scan(b[1..], depth + 1, false)
    else if IsClose(b[0]) then
      if depth == 0 then Panic else Scan(b[1..], depth - 1, false)
    else Scan(b[1..], depth, false)
  }

  function ScanInString(b: Bytes, depth: nat): Verdict
    requires b != []
    decreases |b|, 0
  {
    if b[0] == QUOTE then Scan(b[1..], depth, false)
    else if b[0] != BACKSLASH then Scan(b[1..], depth, true)
    else if |b| < 2 then Panic
    else if b[1] != LETTER_U then Scan(b[2..], depth, true)
    else if UnitAt(b, 2).None? then Panic
    else
      var u := UnitAt(b, 2).value;
      if TrailNumber(u) then Refuse
      else if !HighNumber(u) then Scan(b[6..], depth, true)
      else if 8 <= |b| && b[6] == BACKSLASH && b[7] == LETTER_U
              && UnitAt(b, 8).Some? && TrailNumber(UnitAt(b, 8).value)
      then Scan(b[12..], depth, true)
      else Refuse
  }

  // ----- the scanner on printed trees

  lemma {:induction false} SkipPlain(s: Bytes, rest: Bytes, depth: nat)
    requires forall b :: b in s ==> b != QUOTE && !IsOpen(b) && !IsClose(b)
    ensures Scan(s + rest, depth, false) == Scan(rest, depth, false)
  {
    if s == [] {
      assert s + rest == rest;
    } else {
      assert s[0] in s && forall b :: b in s[1..] ==> b in s;
      assert (s + rest)[1..] == s[1..] + rest;
      SkipPlain(s[1..], rest, depth);
    }
  }

  lemma HexUnitIsANumber(u: Unit)
    requires u.Hex? && WellFormedUnit(u)
    ensures HexNumber(u.digits).Some? && u.digits[0] != 43
  {
    HexDigitsParse(u.digits);
    assert u.digits[0] in u.digits;
  }

  lemma {:induction false} HexDigitsParse(s: Bytes)
    requires forall b :: b in s ==> IsHexDigit(b)
    ensures HexNumber(s).Some?
  {
    if s != [] {
      assert forall b :: b in s[..|s| - 1] ==> b in s;
      assert s[|s| - 1] in s;
      HexDigitsParse(s[..|s| - 1]);
    }
  }

  lemma PairedTail(units: seq<Unit>)
    requires units != [] && !IsHigh(units[0]) && !IsTrail(units[0])
    ensures Paired(units) <==> Paired(units[1..])
  {
    var rest := units[1..];
    if Paired(rest) {
      forall i | 0 <= i < |units| && IsTrail(units[i]) ensures i > 0 && IsHigh(units[i - 1]) {
        assert units[i] == rest[i - 1];
      }
      forall i | 0 <= i < |units| && IsHigh(units[i]) ensures i + 1 < |units| && IsTrail(units[i + 1]) {
        assert units[i] == rest[i - 1];
      }
    }
    if Paired(units) {
      forall i | 0 <= i < |rest| && IsTrail(rest[i]) ensures i > 0 && IsHigh(rest[i - 1]) {
        assert rest[i] == units[i + 1];
      }
      forall i | 0 <= i < |rest| && IsHigh(rest[i]) ensures i + 1 < |rest| && IsTrail(rest[i + 1]) {
        assert rest[i] == units[i + 1];
      }
    }
  }

  lemma PairedTailTail(units: seq<Unit>)
    requires |units| >= 2 && IsHigh(units[0]) && IsTrail(units[1])
    ensures Paired(units) <==> Paired(units[2..])
  {
    var rest := units[2..];
    if Paired(rest) {
      forall i | 0 <= i < |units| && IsTrail(units[i]) ensures i > 0 && IsHigh(units[i - 1]) {
        if i >= 2 { assert units[i] == rest[i - 2]; }
      }
      forall i | 0 <= i < |units| && IsHigh(units[i]) ensures i + 1 < |units| && IsTrail(units[i + 1]) {
        if i >= 2 { assert units[i] == rest[i - 2]; }
      }
    }
    if Paired(units) {
      forall i | 0 <= i < |rest| && IsTrail(rest[i]) ensures i > 0 && IsHigh(rest[i - 1]) {
        assert rest[i] == units[i + 2];
      }
      forall i | 0 <= i < |rest| && IsHigh(rest[i]) ensures i + 1 < |rest| && IsTrail(rest[i + 1]) {
        assert rest[i] == units[i + 2];
      }
    }
  }

  lemma HighMustPair(units: seq<Unit>)
    requires units != [] && IsHigh(units[0])
    ensures Paired(units) ==> |units| > 1 && IsTrail(units[1])
  {}

  /** Inside a string the scanner reaches the closing quote iff every surrogate is paired. */
  lemma {:induction false} ScanUnits(units: seq<Unit>, rest: Bytes, depth: nat)
    requires WellFormedUnits(units)
    ensures Scan(PrintUnits(units) + ([QUOTE] + rest), depth, true)
         == if Paired(units) then Scan(rest, depth, false) else Refuse
    decreases |units|
  {
    var after := [QUOTE] + rest;
    if units == [] {
      assert PrintUnits(units) + after == after;
      assert after[1..] == rest;
    } else {
      var u, more := units[0], units[1..];
      assert u in units;
      var text := PrintUnits(more) + after;
      assert PrintUnits(units) + after == PrintUnit(u) + text;
      if u.Hex? {
        ScanHex(units, rest, depth);
      } else {
        PairedTail(units);
        assert (PrintUnit(u) + text)[|PrintUnit(u)|..] == text;
        ScanUnits(more, rest, depth);
      }
    }
  }

  lemma {:induction false} ScanHex(units: seq<Unit>, rest: Bytes, depth: nat)
    requires WellFormedUnits(units) && units != [] && units[0].Hex?
    ensures Scan(PrintUnits(units) + ([QUOTE] + rest), depth, true)
         == if Paired(units) then Scan(rest, depth, false) else Refuse
    decreases |units|, 0
  {
    var u, more := units[0], units[1..];
    assert u in units;
    HexUnitIsANumber(u);
    var text := PrintUnits(more) + ([QUOTE] + rest);
    var all := PrintUnit(u) + text;
    assert PrintUnits(units) + ([QUOTE] + rest) == all;
    assert all[0] == BACKSLASH && all[1] == LETTER_U && all[2..6] == u.digits && all[6..] == text;
    assert UnitAt(all, 2) == HexNumber(u.digits);
    if IsTrail(u) {
      assert !Paired(units);
    } else if !IsHigh(u) {
      PairedTail(units);
      ScanUnits(more, rest, depth);
    } else {
      ScanAfterHigh(units, rest, depth, all, text);
    }
  }

  /** A high surrogate goes on past a trailing escape, and only past one. */
  lemma HighNeedsTrail(b: Bytes, depth: nat)
    requires |b| >= 6 && b[0] == BACKSLASH && b[1] == LETTER_U
    requires UnitAt(b, 2).Some? && HighNumber(UnitAt(b, 2).value)
    ensures Scan(b, depth, true)
         == if 8 <= |b| && b[6] == BACKSLASH && b[7] == LETTER_U
               && UnitAt(b, 8).Some? && TrailNumber(UnitAt(b, 8).value)
            then Scan(b[12..], depth, true)
            else Refuse
  {
    hide UnitAt;
    assert Scan(b, depth, true) == ScanInString(b, depth);
  }

  lemma {:induction false} ScanAfterHigh(units: seq<Unit>, rest: Bytes, depth: nat, all: Bytes, text: Bytes)
    requires WellFormedUnits(units) && units != [] && IsHigh(units[0])
    requires text == PrintUnits(units[1..]) + ([QUOTE] + rest)
    requires |all| >= 6 && all[0] == BACKSLASH && all[1] == LETTER_U && all[6..] == text
    requires UnitAt(all, 2) == HexNumber(units[0].digits)
    ensures Scan(all, depth, true) == if Paired(units) then Scan(rest, depth, false) else Refuse
    decreases |units|, 0, 0
  {
    hide Scan, ScanInString, HexNumber, Paired;
    HighNeedsTrail(all, depth);
    HighMustPair(units);
    if |units| == 1 {
      assert text == [QUOTE] + rest;
      assert all[6] == text[0];
    } else {
      var t, more := units[1], units[2..];
      assert t in units && units[1..][0] == t && units[1..][1..] == more;
      var text' := PrintUnits(more) + ([QUOTE] + rest);
      assert text == PrintUnit(t) + text';
      assert all[6] == text[0];
      if t.Hex? {
        HexUnitIsANumber(t);
        assert all[7] == text[1] && all[8..12] == text[2..6] == t.digits;
        assert UnitAt(all, 8) == HexNumber(t.digits);
        if IsTrail(t) {
          assert all[12..] == text[6..] == text';
          PairedTailTail(units);
          ScanUnits(more, rest, depth);
        }
      } else if t.Short? {
        assert all[7] == text[1] == t.b;
      }
    }
  }

  /** Whether the scanner lets `v` pass when it starts inside `depth` brackets. */
  predicate Fits(v: Value, depth: nat) {
    depth + Depth(v) <= MAX_ARG_NESTING && AllPaired(v)
  }

  predicate FitsElems(es: Elems, depth: nat) {
    depth + DepthElems(es) <= MAX_ARG_NESTING && AllPairedElems(es)
  }

  predicate FitsMembers(ms: Members, depth: nat) {
    depth + DepthMembers(ms) <= MAX_ARG_NESTING && AllPairedMembers(ms)
  }

  lemma ScanBracket(b: byte, rest: Bytes, depth: nat)
    ensures IsOpen(b) ==>
              Scan([b] + rest, depth, false)
              == if depth < MAX_ARG_NESTING then Scan(rest, depth + 1, false) else Refuse
    ensures IsClose(b) && depth > 0 ==> Scan([b] + rest, depth, false) == Scan(rest, depth - 1, false)
  {
    assert ([b] + rest)[1..] == rest;
  }

  /** A whole string, quotes included. */
  lemma ScanString(units: seq<Unit>, rest: Bytes, depth: nat)
    requires WellFormedUnits(units)
    ensures Scan(PrintString(units) + rest, depth, false)
         == if Paired(units) then Scan(rest, depth, false) else Refuse
  {
    var body := PrintUnits(units) + ([QUOTE] + rest);
    assert PrintString(units) + rest == [QUOTE] + body;
    assert ([QUOTE] + body)[1..] == body;
    ScanUnits(units, rest, depth);
  }

  /** A member's key, from the blanks before it to those after its colon. */
  lemma ScanKey(k: Key, rest: Bytes, depth: nat)
    requires WellFormedKey(k)
    ensures Scan(PrintKey(k) + rest, depth, false)
         == if Paired(k.units) then Scan(rest, depth, false) else Refuse
  {
    hide Scan;
    var tail := k.after + ([COLON] + (k.beforeValue + rest));
    assert PrintKey(k) + rest == k.before + (PrintString(k.units) + tail);
    SkipPlain(k.before, PrintString(k.units) + tail, depth);
    ScanString(k.units, tail, depth);
    SkipPlain(k.after, [COLON] + (k.beforeValue + rest), depth);
    SkipPlain([COLON], k.beforeValue + rest, depth);
    SkipPlain(k.beforeValue, rest, depth);
  }

  /** The scanner passes over the print of a tree and comes out at the same depth, or refuses. */
  lemma {:induction false} ScanValue(v: Value, rest: Bytes, depth: nat)
    requires WellFormed(v) && depth <= MAX_ARG_NESTING
    ensures Scan(Print(v) + rest, depth, false) == if Fits(v, depth) then Scan(rest, depth, false) else Refuse
    decreases v
  {
    hide Scan, PrintElems, PrintMembers, PrintString, Paired;
    match v
    case Scalar(text) =>
      SkipPlain(text, rest, depth);
    case Str(units) =>
      ScanString(units, rest, depth);
    case Arr(blank, elems) =>
      var body := PrintElems(elems) + ([93] + rest);
      assert Print(v) + rest == [91] + (blank + body);
      ScanBracket(91, blank + body, depth);
      if depth < MAX_ARG_NESTING {
        SkipPlain(blank, body, depth + 1);
        ScanElems(elems, [93] + rest, depth + 1);
        ScanBracket(93, rest, depth + 1);
      }
    case Obj(blank, members) =>
      var body := PrintMembers(members) + ([125] + rest);
      assert Print(v) + rest == [123] + (blank + body);
      ScanBracket(123, blank + body, depth);
      if depth < MAX_ARG_NESTING {
        SkipPlain(blank, body, depth + 1);
        ScanMembers(members, [125] + rest, depth + 1);
        ScanBracket(125, rest, depth + 1);
      }
  }

  lemma {:induction false} ScanElems(es: Elems, rest: Bytes, depth: nat)
    requires WellFormedElems(es) && depth <= MAX_ARG_NESTING
    ensures Scan(PrintElems(es) + rest, depth, false)
         == if FitsElems(es, depth) then Scan(rest, depth, false) else Refuse
    decreases es
  {
    hide Scan;
    match es
    case NoElems =>
      assert PrintElems(es) + rest == rest;
    case Elem(before, value, after, more) =>
      var comma: Bytes := if more.NoElems? then [] else [COMMA];
      var tail := PrintElems(more) + rest;
      assert PrintElems(es) + rest == before + (Print(value) + (after + (comma + tail)));
      SkipPlain(before, Print(value) + (after + (comma + tail)), depth);
      ScanValue(value, after + (comma + tail), depth);
      SkipPlain(after, comma + tail, depth);
      SkipPlain(comma, tail, depth);
      ScanElems(more, rest, depth);
  }

  lemma {:induction false} ScanMembers(ms: Members, rest: Bytes, depth: nat)
    requires WellFormedMembers(ms) && depth <= MAX_ARG_NESTING
    ensures Scan(PrintMembers(ms) + rest, depth, false)
         == if FitsMembers(ms, depth) then Scan(rest, depth, false) else Refuse
    decreases ms
  {
    hide Scan;
    match ms
    case NoMembers =>
      assert PrintMembers(ms) + rest == rest;
    case Member(key, value, after, more) =>
      var comma: Bytes := if more.NoMembers? then [] else [COMMA];
      var tail := PrintMembers(more) + rest;
      assert PrintMembers(ms) + rest == PrintKey(key) + (Print(value) + (after + (comma + tail)));
      ScanKey(key, Print(value) + (after + (comma + tail)), depth);
      ScanValue(value, after + (comma + tail), depth);
      SkipPlain(after, comma + tail, depth);
      SkipPlain(comma, tail, depth);
      ScanMembers(more, rest, depth);
  }

  /** The full scan of any JSON text accepts iff nesting and surrogates are in order, and never
      panics. */
  lemma FullScanIsExact(text: Bytes, v: Value)
    requires IsText(text, v)
    ensures Scan(text, 0, false) == if Depth(v) <= MAX_ARG_NESTING && AllPaired(v) then Accept else Refuse
  {
    ScanValue(v, [], 0);
    assert Print(v) + [] == text;
  }

  // ----- the fast path

  function Opens(b: Bytes): nat {
    if b == [] then 0 else (if IsOpen(b[0]) then 1 else 0) + Opens(b[1..])
  }

  lemma {:induction false} OpensConcat(a: Bytes, b: Bytes)
    ensures Opens(a + b) == Opens(a) + Opens(b)
  {
    if a == [] {
      assert a + b == b;
    } else {
      assert (a + b)[1..] == a[1..] + b;
      OpensConcat(a[1..], b);
    }
  }

  /** A text with few opening brackets and no backslash has little nesting and no surrogates. */
  lemma {:induction false} FewOpensFit(v: Value)
    ensures Depth(v) <= Opens(Print(v))
    ensures BACKSLASH !in Print(v) ==> AllPaired(v)
    decreases v
  {
    match v
    case Scalar(_) =>
    case Str(units) =>
      assert forall b :: b in PrintUnits(units) ==> b in Print(v);
      PlainUnitsArePaired(units);
    case Arr(blank, elems) =>
      OpensConcat([91], blank + (PrintElems(elems) + [93]));
      OpensConcat(blank, PrintElems(elems) + [93]);
      OpensConcat(PrintElems(elems), [93]);
      FewOpensFitElems(elems);
    case Obj(blank, members) =>
      OpensConcat([123], blank + (PrintMembers(members) + [125]));
      OpensConcat(blank, PrintMembers(members) + [125]);
      OpensConcat(PrintMembers(members), [125]);
      FewOpensFitMembers(members);
  }

  lemma {:induction false} PlainUnitsArePaired(units: seq<Unit>)
    ensures BACKSLASH !in PrintUnits(units) ==> Paired(units)
  {
    if BACKSLASH !in PrintUnits(units) {
      forall i | 0 <= i < |units| ensures !units[i].Hex? {
        NoBackslashNoHex(units, i);
      }
    }
  }

  lemma {:induction false} NoBackslashNoHex(units: seq<Unit>, i: nat)
    requires i < |units| && BACKSLASH !in PrintUnits(units)
    ensures !units[i].Hex?
  {
    var head := PrintUnit(units[0]);
    assert forall b :: b in head ==> b in PrintUnits(units);
    if i == 0 {
      assert BACKSLASH in head <== units[0].Hex?;
    } else {
      assert forall b :: b in PrintUnits(units[1..]) ==> b in PrintUnits(units);
      NoBackslashNoHex(units[1..], i - 1);
    }
  }

  lemma {:induction false} FewOpensFitElems(es: Elems)
    ensures DepthElems(es) <= Opens(PrintElems(es))
    ensures BACKSLASH !in PrintElems(es) ==> AllPairedElems(es)
    decreases es
  {
    match es
    case NoElems =>
    case Elem(before, value, after, rest) =>
      var comma: Bytes := if rest.NoElems? then [] else [COMMA];
      var tail := comma + PrintElems(rest);
      OpensConcat(before, Print(value) + (after + tail));
      OpensConcat(Print(value), after + tail);
      OpensConcat(after, tail);
      OpensConcat(comma, PrintElems(rest));
      FewOpensFit(value);
      FewOpensFitElems(rest);
  }

  lemma {:induction false} FewOpensFitMembers(ms: Members)
    ensures DepthMembers(ms) <= Opens(PrintMembers(ms))
    ensures BACKSLASH !in PrintMembers(ms) ==> AllPairedMembers(ms)
    decreases ms
  {
    match ms
    case NoMembers =>
    case Member(key, value, after, rest) =>
      var comma: Bytes := if rest.NoMembers? then [] else [COMMA];
      var tail := comma + PrintMembers(rest);
      OpensConcat(PrintKey(key), Print(value) + (after + tail));
      OpensConcat(Print(value), after + tail);
      OpensConcat(after, tail);
      OpensConcat(comma, PrintMembers(rest));
      KeyText(key);
      FewOpensFit(value);
      FewOpensFitMembers(rest);
  }

  lemma KeyText(k: Key)
    ensures BACKSLASH !in PrintKey(k) ==> Paired(k.units)
  {
    assert forall b :: b in PrintUnits(k.units) ==> b in PrintString(k.units);
    assert forall b :: b in PrintString(k.units) ==> b in PrintKey(k);
    PlainUnitsArePaired(k.units);
  }

  /** The brackets counted 255 bytes at a time, each chunk in a counter no wider than a byte. */
  method CountOpens(b: Bytes) returns (opens: nat)
    ensures opens == Opens(b)
  {
    opens := 0;
    var start := 0;
    while start < |b|
      invariant start <= |b| && opens == Opens(b[..start])
    {
      var end := if start + 255 < |b| then start + 255 else |b|;
      var n: byte := 0;
      for k := start to end
        invariant n as int <= k - start && opens + n as nat == Opens(b[..k])
      {
        assert b[..k + 1] == b[..k] + [b[k]];
        OpensConcat(b[..k], [b[k]]);
        n := n + if IsOpen(b[k]) then 1 else 0;
      }
      opens := opens + n as nat;
      start := end;
    }
    assert b[..|b|] == b;
  }

  // ----- the gate

  ghost predicate IsJson(text: Bytes) {
    exists v :: IsText(text, v)
  }

  /** The unit at `at` of a suffix is the one further on in the whole text. */
  lemma UnitOfSuffix(b: Bytes, i: nat, at: nat)
    requires i <= |b|
    ensures UnitAt(b[i..], at) == UnitAt(b, i + at)
  {
    var s := b[i..];
    if at + 4 <= |s| {
      assert s[at..at + 4] == b[i + at..i + at + 4];
      assert s[at + 1..at + 4] == b[i + at + 1..i + at + 4];
    }
  }

  lemma SuffixOfSuffix(b: Bytes, i: nat)
    requires i <= |b|
    ensures forall k :: 0 <= k <= |b| - i ==> b[i..][k..] == b[i + k..]
    ensures forall k :: 0 <= k < |b| - i ==> b[i..][k] == b[i + k]
  {}

  /** One turn of the loop inside a string at a `\u` escape: None to answer false, or where to go
      on. */
  method ScanEscape(b: Bytes, i: nat, ghost depth: nat) returns (next: Option<nat>)
    requires i + 1 < |b| && b[i] == BACKSLASH && b[i + 1] == LETTER_U
    requires Scan(b[i..], depth, true) != Panic
    ensures next.None? ==> Scan(b[i..], depth, true) == Refuse
    ensures next.Some? ==> i < next.value <= |b| && Scan(b[i..], depth, true) == Scan(b[next.value..], depth, true)
  {
    UnitOfSuffix(b, i, 2);
    UnitOfSuffix(b, i, 8);
    SuffixOfSuffix(b, i);
    var u := UnitAt(b, i + 2).value;
    if TrailNumber(u) {
      return None;
    }
    next := Some(i + 6);
    if HighNumber(u) {
      var j := i + 6;
      if j + 2 > |b| || b[j] != BACKSLASH || b[j + 1] != LETTER_U
         || UnitAt(b, j + 2).None? || !TrailNumber(UnitAt(b, j + 2).value) {
        return None;
      }
      next := Some(i + 12);
    }
  }

  /** The scan from the first byte. Nothing in it can go out of bounds or below depth zero. */
  method FullScan(b: Bytes) returns (ok: bool)
    requires Scan(b, 0, false) != Panic
    ensures ok <==> Scan(b, 0, false) == Accept
  {
    var depth: nat, i: nat, inStr := 0, 0, false;
    assert b[0..] == b;
    while i < |b|
      invariant i <= |b|
      invariant Scan(b[i..], depth, inStr) == Scan(b, 0, false)
      decreases |b| - i
    {
      SuffixOfSuffix(b, i);
      if inStr && b[i] == BACKSLASH && b[i + 1] == LETTER_U {
        var next := ScanEscape(b, i, depth);
        if next.None? {
          return false;
        }
        i := next.value;
        continue;
      }
      if inStr && b[i] == BACKSLASH {
        i := i + 1;
      } else if inStr && b[i] == QUOTE {
        inStr := false;
      } else if !inStr && b[i] == QUOTE {
        inStr := true;
      } else if !inStr && IsOpen(b[i]) {
        depth := depth + 1;
        if depth > MAX_ARG_NESTING {
          return false;
        }
      } else if !inStr && IsClose(b[i]) {
        depth := depth - 1;
      }
      i := i + 1;
    }
    assert b[i..] == [];
    ok := true;
  }

  /** Whether the text could also be parsed into a tree, not only carried along as it stands. */
  method ParsesAsTree(b: Bytes) returns (ok: bool)
    requires IsJson(b)
    ensures forall v :: IsText(b, v) ==> (ok <==> Depth(v) <= MAX_ARG_NESTING && AllPaired(v))
  {
    ghost var v :| IsText(b, v);
    forall w | IsText(b, w)
      ensures Scan(b, 0, false) == if Depth(w) <= MAX_ARG_NESTING && AllPaired(w) then Accept else Refuse
      ensures Depth(w) <= Opens(b) && (BACKSLASH !in b ==> AllPaired(w))
    {
      FullScanIsExact(b, w);
      FewOpensFit(w);
    }
    var opens := CountOpens(b);
    if opens <= MAX_ARG_NESTING && BACKSLASH !in b {
      return true;
    }
    ok := FullScan(b);
  }

  /** Each of the two texts, where present, has the container that its field calls for and can be
      parsed into a tree. */
  method ArgsKwargsShapeOk(args: Option<Bytes>, kwargs: Option<Bytes>) returns (ok: bool)
    requires args.Some? ==> IsJson(args.value)
    requires kwargs.Some? ==> IsJson(kwargs.value)
    ensures forall a, k :: (args.Some? ==> IsText(args.value, a)) && (kwargs.Some? ==> IsText(kwargs.value, k)) ==>
              (ok <==> (args.Some? ==> a.Arr? && Depth(a) <= MAX_ARG_NESTING && AllPaired(a))
                       && (kwargs.Some? ==> k.Obj? && Depth(k) <= MAX_ARG_NESTING && AllPaired(k)))
  {
    var argsOk, kwargsOk := true, true;
    if args.Some? {
      FirstByteTellsTheKind(args.value);
      var tree := ParsesAsTree(args.value);
      argsOk := args.value[0] == 91 && tree;
    }
    if kwargs.Some? {
      FirstByteTellsTheKind(kwargs.value);
      var tree := ParsesAsTree(kwargs.value);
      kwargsOk := kwargs.value[0] == 123 && tree;
    }
    ok := argsOk && kwargsOk;
  }

  lemma FirstByteTellsTheKind(text: Bytes)
    ensures forall v :: IsText(text, v) ==>
              |text| > 0 && (text[0] == 91 <==> v.Arr?) && (text[0] == 123 <==> v.Obj?)
  {
    forall v | IsText(text, v)
      ensures |text| > 0 && (text[0] == 91 <==> v.Arr?) && (text[0] == 123 <==> v.Obj?)
    {
      if v.Scalar? { assert text[0] in text; }
    }
  }
}
