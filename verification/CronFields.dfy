/**
 One field of a cron expression, already split at its commas, slashes and dashes, and the set of
 values it matches. POSIX.1-2017, Shell and Utilities, crontab, INPUT FILES, plus steps.
 */
module CronFields {
  import opened Options
  import Calendar
  import Slots

  datatype Number = NotANumber | Number(value: int)

  datatype Range = Star | Between(first: Number, last: Number) | From(first: Number)

  /** One comma separated element. `step` is what follows its slash, if it has one. */
  datatype Part = Blank | Part(range: Range, step: Option<Number>)

  datatype FieldError =
    | EmptyField
    | EmptyElement
    | BadStep
    | StepBelowOne
    | NotAValue
    | OutOfRange
    | Inverted
    | MatchesNothing

  datatype Parsed<T> = Ok(value: T) | Err(error: FieldError)

  // ----- what a part matches

  function NumberError(n: Number, lo: nat, hi: nat): Option<FieldError> {
    if n.NotANumber? then Some(NotAValue) else if lo <= n.value <= hi then None else Some(OutOfRange)
  }

  function RangeError(r: Range, lo: nat, hi: nat): Option<FieldError> {
    match r
    case Star => None
    case From(first) => NumberError(first, lo, hi)
    case Between(first, last) =>
      if NumberError(first, lo, hi).Some? then NumberError(first, lo, hi)
      else if NumberError(last, lo, hi).Some? then NumberError(last, lo, hi)
      else if first.value > last.value then Some(Inverted)
      else None
  }

  /** The step is looked at before the range. */
  function PartError(p: Part, lo: nat, hi: nat): Option<FieldError> {
    if p.Blank? then Some(EmptyElement)
    else if p.step.Some? && p.step.value.NotANumber? then Some(BadStep)
    else if p.step.Some? && p.step.value.value < 1 then Some(StepBelowOne)
    else RangeError(p.range, lo, hi)
  }

  predicate OnStep(v: int, first: int, step: int)
    requires step > 0
  {
    (v - first) % step == 0
  }

  predicate EverySo(v: int, first: int, last: int, step: int)
    requires step > 0
  {
    first <= v <= last && OnStep(v, first, step)
  }

  /** A lone value with a step above one runs to the top of the range. */
  predicate Matches(p: Part, lo: nat, hi: nat, v: int)
    requires PartError(p, lo, hi).None?
  {
    var step := if p.step.Some? then p.step.value.value else 1;
    match p.range
    case Star => EverySo(v, lo, hi, step)
    case Between(first, last) => EverySo(v, first.value, last.value, step)
    case From(first) => if step == 1 then v == first.value else EverySo(v, first.value, hi, step)
  }

  predicate IsNumberIn(n: Number, lo: nat, hi: nat) { n.Number? && lo <= n.value <= hi }

  /** Which elements are accepted, and why the others are not; of several faults the step's comes first,
      then that of the range's first number. */
  lemma WhatIsAccepted(p: Part, lo: nat, hi: nat)
    ensures PartError(p, lo, hi).None? <==>
              && p.Part? && (p.step.Some? ==> p.step.value.Number? && p.step.value.value >= 1)
              && (p.range.From? ==> IsNumberIn(p.range.first, lo, hi))
              && (p.range.Between? ==> IsNumberIn(p.range.first, lo, hi) && IsNumberIn(p.range.last, lo, hi)
                                       && p.range.first.value <= p.range.last.value)
    ensures PartError(p, lo, hi) == Some(EmptyElement) <==> p.Blank?
    ensures PartError(p, lo, hi) == Some(BadStep) <==> p.Part? && p.step == Some(NotANumber)
    ensures PartError(p, lo, hi) == Some(StepBelowOne) <==>
              p.Part? && p.step.Some? && p.step.value.Number? && p.step.value.value < 1
    ensures PartError(p, lo, hi) in {Some(NotAValue), Some(OutOfRange), Some(Inverted)} ==>
              !p.range.Star? && PartError(p, lo, hi)
              == if p.range.first.NotANumber? then Some(NotAValue)
                 else if !IsNumberIn(p.range.first, lo, hi) then Some(OutOfRange)
                 else if p.range.From? then None
                 else if p.range.last.NotANumber? then Some(NotAValue)
                 else if !IsNumberIn(p.range.last, lo, hi) then Some(OutOfRange)
                 else Some(Inverted)
  {}

  /** What an accepted element matches: `first`, `first + step`, and so on up to `last`, where a star is the
      whole range, and a lone value stands for itself or, with a step above one, goes on to the top. */
  lemma MatchesAreSteps(p: Part, lo: nat, hi: nat, v: int)
    requires PartError(p, lo, hi).None?
    ensures var step := if p.step.Some? then p.step.value.value else 1;
            var (first, last) := if p.range.Star? then (lo, hi)
                                 else if p.range.Between? then (p.range.first.value, p.range.last.value)
                                 else if step > 1 then (p.range.first.value, hi)
                                 else (p.range.first.value, p.range.first.value);
            Matches(p, lo, hi, v) <==> v <= last && exists k: nat :: v == first + k * step
  {
    var step := if p.step.Some? then p.step.value.value else 1;
    var first := if p.range.Star? then lo else p.range.first.value;
    var k := (v - first) / step;
    assert v - first == step * k + (v - first) % step;
    if Matches(p, lo, hi, v) {
      NotNegative(step, k, v - first);
      assert v == first + k * step;
    }
    forall k: nat | v == first + k * step ensures OnStep(v, first, step) && first <= v {
      Slots.QuotientIs(v - first, step, k, 0);
      AtLeastNothing(step, k);
    }
  }

  lemma NotNegative(step: int, k: int, d: int)
    requires step > 0 && d >= 0 && d == step * k
    ensures k >= 0
  {}

  lemma AtLeastNothing(step: int, k: nat)
    requires step > 0
    ensures step * k >= 0
  {}

  predicate AllFine(parts: seq<Part>, lo: nat, hi: nat) {
    forall p :: p in parts ==> PartError(p, lo, hi).None?
  }

  /** What parsing a field comes to: the first faulty part's error, or what its parts match. */
  ghost predicate IsParsed(r: Parsed<set<nat>>, parts: seq<Part>, lo: nat, hi: nat) {
    match r
    case Ok(values) =>
      && parts != [] && AllFine(parts, lo, hi) && values != {}
      && forall v: nat :: v in values <==> exists p :: p in parts && Matches(p, lo, hi, v)
    case Err(error) =>
      if parts == [] then error == EmptyField
      else exists k :: 0 <= k < |parts| && AllFine(parts[..k], lo, hi) && PartError(parts[k], lo, hi) == Some(error)
  }

  // ----- the parser

  lemma NextMultiple(first: int, v: int, x: int, step: int)
    requires step > 0 && first <= v && OnStep(v, first, step) && v <= x < v + step
    ensures OnStep(x, first, step) <==> x == v
    ensures OnStep(v + step, first, step)
  {
    var q := (v - first) / step;
    assert v - first == step * q;
    assert v + step - first == step * (q + 1) + 0;
    Slots.QuotientIs(v + step - first, step, q + 1, 0);
    assert x - first == step * q + (x - v);
    Slots.QuotientIs(x - first, step, q, x - v);
  }

  lemma OneStep(first: int, v: int, step: int)
    requires step > 0 && first <= v && OnStep(v, first, step)
    ensures forall x :: v <= x < v + step ==> (OnStep(x, first, step) <==> x == v)
    ensures OnStep(v + step, first, step)
  {
    hide OnStep;
    NextMultiple(first, v, v, step);
    forall x | v <= x < v + step ensures OnStep(x, first, step) <==> x == v {
      NextMultiple(first, v, x, step);
    }
  }

  /** `values.update(range(first, last + 1, step))`. */
  method AddRange(values: set<nat>, first: nat, last: int, step: int) returns (r: set<nat>)
    requires step > 0
    ensures forall x: nat :: x in r <==> x in values || EverySo(x, first, last, step)
  {
    r := values;
    var v := first;
    assert OnStep(v, first, step);
    hide OnStep;
    while v <= last
      invariant first <= v && OnStep(v, first, step)
      invariant forall x: nat :: x in r <==> x in values || (x < v && EverySo(x, first, last, step))
      decreases last - v
    {
      OneStep(first, v, step);
      r := r + {v};
      v := v + step;
    }
  }

  /** One turn of the loop over the elements. */
  method ParsePart(values: set<nat>, p: Part, lo: nat, hi: nat) returns (r: Parsed<set<nat>>)
    requires lo <= hi
    ensures r.Err? <==> PartError(p, lo, hi).Some?
    ensures r.Err? ==> Some(r.error) == PartError(p, lo, hi)
    ensures r.Ok? ==> r.value != {} && forall v: nat :: v in r.value <==> v in values || Matches(p, lo, hi, v)
  {
    if p.Blank? {
      return Err(EmptyElement);
    }
    var step := 1;
    if p.step.Some? {
      if p.step.value.NotANumber? {
        return Err(BadStep);
      }
      step := p.step.value.value;
      if step < 1 {
        return Err(StepBelowOne);
      }
    }
    var bad := RangeError(p.range, lo, hi);
    if bad.Some? {
      return Err(bad.value);
    }
    var first, last;
    match p.range {
      case Star =>
        first, last := lo, hi;
      case Between(a, b) =>
        first, last := a.value, b.value;
      case From(a) =>
        first := a.value;
        last := if step != 1 then hi else first;
    }
    var more := AddRange(values, first, last, step);
    assert OnStep(first, first, step) && EverySo(first, first, last, step);
    assert first in more;
    r := Ok(more);
  }

  method ParseField(parts: seq<Part>, lo: nat, hi: nat) returns (r: Parsed<set<nat>>)
    requires lo <= hi
    ensures IsParsed(r, parts, lo, hi)
    ensures r.Err? ==> r.error != MatchesNothing
  {
    if parts == [] {
      return Err(EmptyField);
    }
    var values: set<nat> := {};
    for i := 0 to |parts|
      invariant AllFine(parts[..i], lo, hi)
      invariant i > 0 ==> values != {}
      invariant forall v: nat :: v in values <==> exists p :: p in parts[..i] && Matches(p, lo, hi, v)
    {
      var next := ParsePart(values, parts[i], lo, hi);
      if next.Err? {
        return Err(next.error);
      }
      assert parts[..i + 1] == parts[..i] + [parts[i]];
      values := next.value;
    }
    assert parts[..|parts|] == parts;
    if values == {} {
      return Err(MatchesNothing);
    }
    r := Ok(values);
  }

  // ----- the whole expression

  datatype Cron = Cron(minutes: set<nat>, hours: set<nat>, days: Calendar.DayRule, repeatsInFold: bool)

  predicate IsCron(c: Cron) {
    && c.minutes != {} && (forall m :: m in c.minutes ==> m < 60)
    && c.hours != {} && (forall h :: h in c.hours ==> h < 24)
    && Calendar.IsRule(c.days)
  }

  /** The field is exactly a star. */
  predicate Unrestricted(parts: seq<Part>) {
    parts == [Part(Star, None)]
  }

  predicate StartsWithStar(parts: seq<Part>) {
    parts != [] && parts[0].Part? && parts[0].range.Star?
  }

  lemma MatchesInRange(p: Part, lo: nat, hi: nat, v: int)
    requires PartError(p, lo, hi).None? && Matches(p, lo, hi, v)
    ensures lo <= v <= hi
  {}

  lemma ParsedInRange(r: Parsed<set<nat>>, parts: seq<Part>, lo: nat, hi: nat)
    requires IsParsed(r, parts, lo, hi) && r.Ok?
    ensures forall v :: v in r.value ==> lo <= v <= hi
  {
    forall v | v in r.value ensures lo <= v <= hi {
      var p :| p in parts && Matches(p, lo, hi, v);
      MatchesInRange(p, lo, hi, v);
    }
  }

  lemma ParsedOrFaulty(r: Parsed<set<nat>>, parts: seq<Part>, lo: nat, hi: nat)
    requires IsParsed(r, parts, lo, hi)
    ensures r.Ok? <==> parts != [] && AllFine(parts, lo, hi)
    ensures r.Ok? ==> r.value != {} && forall v :: v in r.value ==> lo <= v <= hi
  {
    if r.Ok? {
      ParsedInRange(r, parts, lo, hi);
    } else if parts != [] {
      var k :| 0 <= k < |parts| && PartError(parts[k], lo, hi) == Some(r.error);
      assert parts[k] in parts;
    }
  }

  /** Weekday 7 is Sunday, which is 0. */
  method FoldSunday(dows: set<nat>) returns (folded: set<nat>)
    requires dows != {} && forall d :: d in dows ==> d <= 7
    ensures folded != {} && forall d :: d in folded <==> d < 7 && (d in dows || (d == 0 && 7 in dows))
  {
    folded := set d | d in dows :: if d == 7 then 0 else d;
    var some :| some in dows;
    assert (if some == 7 then 0 else some) in folded;
  }

  /** The constructor: five fields, parsed left to right. */
  method ParseCron(minute: seq<Part>, hour: seq<Part>, dom: seq<Part>, month: seq<Part>, dow: seq<Part>)
    returns (r: Parsed<Cron>)
    ensures r.Ok? <==> && minute != [] && AllFine(minute, 0, 59) && hour != [] && AllFine(hour, 0, 23)
                       && dom != [] && AllFine(dom, 1, 31) && month != [] && AllFine(month, 1, 12)
                       && dow != [] && AllFine(dow, 0, 7)
    ensures r.Ok? ==>
              && IsCron(r.value)
              && IsParsed(Ok(r.value.minutes), minute, 0, 59) && IsParsed(Ok(r.value.hours), hour, 0, 23)
              && IsParsed(Ok(r.value.days.doms), dom, 1, 31) && IsParsed(Ok(r.value.days.months), month, 1, 12)
              && (r.value.days.domRestricted <==> dom != [Part(Star, None)])
              && (r.value.days.dowRestricted <==> dow != [Part(Star, None)])
              && (r.value.repeatsInFold <==> (minute[0].Part? && minute[0].range.Star?)
                                             || (hour[0].Part? && hour[0].range.Star?))
    ensures r.Ok? ==>
              exists dows :: && IsParsed(Ok(dows), dow, 0, 7)
                             && forall d :: d in r.value.days.dows
                                       <==> d < 7 && (d in dows || (d == 0 && 7 in dows))
  {
    hide IsParsed, AllFine;
    var minutes := ParseField(minute, 0, 59);
    ParsedOrFaulty(minutes, minute, 0, 59);
    if minutes.Err? { return Err(minutes.error); }
    var hours := ParseField(hour, 0, 23);
    ParsedOrFaulty(hours, hour, 0, 23);
    if hours.Err? { return Err(hours.error); }
    var doms := ParseField(dom, 1, 31);
    ParsedOrFaulty(doms, dom, 1, 31);
    if doms.Err? { return Err(doms.error); }
    var months := ParseField(month, 1, 12);
    ParsedOrFaulty(months, month, 1, 12);
    if months.Err? { return Err(months.error); }
    var dows := ParseField(dow, 0, 7);
    ParsedOrFaulty(dows, dow, 0, 7);
    if dows.Err? { return Err(dows.error); }
    var folded := FoldSunday(dows.value);
    assert IsParsed(Ok(dows.value), dow, 0, 7);
    r := Ok(Cron(minutes.value, hours.value,
                 Calendar.DayRule(doms.value, months.value, folded, !Unrestricted(dom), !Unrestricted(dow)),
                 StartsWithStar(minute) || StartsWithStar(hour)));
  }
}
