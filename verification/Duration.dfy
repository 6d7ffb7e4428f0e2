/** The restricted duration grammar of the manifest `log` object, and its value in nanoseconds. */
module Duration {
  import opened Basics
  import opened Scanning

  const TWO_128: int := 0x1_0000_0000_0000_0000_0000_0000_0000_0000

  datatype DurationError =
    | NoLeadingP
    | NotDays
    | NotDigits
    | ComponentTooLarge
    | EmptyTime
    | NoDesignator
    | UnknownDesignator
    | OutOfOrder
    | FractionNotOfSeconds
    | FractionTooLong
    | NoComponent

  const BILLION: int := 1_000_000_000

  // ---------------------------------------------------------------------------
  // Numbers
  // ---------------------------------------------------------------------------

  function DigitValue(c: char): (r: nat)
    ensures r <= 9
  {
    if IsDigit(c) then c as int - '0' as int else 0
  }

  /** The decimal value of the first `n` digits. */
  function DecimalTo(s: string, n: nat): nat
    requires n <= |s| && AllIn(s, Digit)
    decreases n
  {
    if n == 0 then 0 else DecimalTo(s, n - 1) * 10 + DigitValue(s[n - 1])
  }

  function Decimal(s: string): nat
    requires AllIn(s, Digit)
  {
    DecimalTo(s, |s|)
  }

  /** One or more digits whose value fits 64 bits. */
  predicate NumberOk(s: string) {
    s != [] && AllIn(s, Digit) && Decimal(s) < TWO_64
  }

  /** Why a string is no number, if it is none. */
  function NumberDefect(s: string): (r: Option<DurationError>)
    ensures r.None? <==> NumberOk(s)
  {
    if s == [] || !AllIn(s, Digit) then Some(NotDigits)
    else if Decimal(s) >= TWO_64 then Some(ComponentTooLarge)
    else None
  }

  /** A product or sum the source checks against 128 bits; that the check holds is proved wherever this is called. */
  function Fits(x: nat): nat
    requires x < TWO_128
  {
    x
  }

  /** `x` times ten to the `k`. */
  function Scaled(x: nat, k: nat): nat
    decreases k
  {
    if k == 0 then x else 10 * Scaled(x, k - 1)
  }

  // ---------------------------------------------------------------------------
  // The grammar: P[nD][T[nH][nM][n[.f]S]], something present, something after T
  // ---------------------------------------------------------------------------

  /** A time component: its unit (0 for hours, 1 for minutes, 2 for seconds), digits, and fractional digits. */
  datatype Part = Part(unit: nat, whole: string, fraction: Option<string>)

  /** The components after `T`, in the order they are written. */
  datatype Time = End | Then(part: Part, rest: Time)

  datatype Duration = Duration(days: Option<string>, time: Time)

  /** The seconds in `n` hours, minutes or seconds. */
  function InSeconds(n: nat, unit: nat): nat
    requires unit <= 2
  {
    if unit == 0 then n * 3600 else if unit == 1 then n * 60 else n
  }

  function UnitChar(unit: nat): char {
    if unit == 0 then 'H' else if unit == 1 then 'M' else 'S'
  }

  /** At most nine fractional digits, and only of seconds. */
  predicate PartOk(p: Part) {
    && p.unit <= 2 && NumberOk(p.whole)
    && (p.fraction.Some? ==>
          p.unit == 2 && p.fraction.value != [] && |p.fraction.value| <= 9 && AllIn(p.fraction.value, Digit))
  }

  /** Components in the order hours, minutes, seconds, none twice, none of a unit before `unit`. */
  predicate TimeOk(time: Time, unit: nat)
    decreases time
  {
    time.Then? ==> PartOk(time.part) && unit <= time.part.unit && TimeOk(time.rest, time.part.unit + 1)
  }

  predicate DurationOk(d: Duration) {
    && (d.days.Some? ==> NumberOk(d.days.value))
    && TimeOk(d.time, 0)
    && (d.days.Some? || d.time.Then?)
  }

  function NumberText(p: Part): string {
    if p.fraction.None? then p.whole else p.whole + ("." + p.fraction.value)
  }

  function TimeText(time: Time): string
    decreases time
  {
    if time.End? then [] else NumberText(time.part) + ([UnitChar(time.part.unit)] + TimeText(time.rest))
  }

  function DateText(days: Option<string>): string {
    if days.None? then [] else days.value + "D"
  }

  /** What follows the `P`. */
  function Body(d: Duration): string {
    DateText(d.days) + (if d.time.End? then [] else "T" + TimeText(d.time))
  }

  function Text(d: Duration): string {
    "P" + Body(d)
  }

  /** Fractional digits made nine with zeros: a whole number of nanoseconds. */
  function Padded(fraction: string): (r: string)
    requires |fraction| <= 9 && AllIn(fraction, Digit)
    ensures |r| == 9 && AllIn(r, Digit)
  {
    seq(9, i requires 0 <= i < 9 => if i < |fraction| then fraction[i] else '0')
  }

  function PartValue(p: Part): nat
    requires PartOk(p)
  {
    InSeconds(Decimal(p.whole), p.unit) * 1_000_000_000
    + (if p.fraction.None? then 0 else Decimal(Padded(p.fraction.value)))
  }

  function TimeValue(time: Time, unit: nat): nat
    requires TimeOk(time, unit)
    decreases time
  {
    if time.End? then 0 else PartValue(time.part) + TimeValue(time.rest, time.part.unit + 1)
  }

  function DaysValue(days: Option<string>): nat
    requires days.Some? ==> NumberOk(days.value)
  {
    if days.None? then 0 else Decimal(days.value) * 86_400_000_000_000
  }

  function Value(d: Duration): nat
    requires DurationOk(d)
  {
    DaysValue(d.days) + TimeValue(d.time, 0)
  }

  // ---------------------------------------------------------------------------
  // The reader
  // ---------------------------------------------------------------------------

  function UnitOf(c: char): (r: Option<nat>)
    ensures r.Some? ==> r.value <= 2 && UnitChar(r.value) == c
  {
    if c == 'H' then Some(0) else if c == 'M' then Some(1) else if c == 'S' then Some(2) else None
  }

  /** The digits before a designator, cut at the decimal point where there is one. */
  function ReadPart(number: string, unit: nat): Result<Part, DurationError> {
    var dot := RunLength(number, AnyBut('.'));
    if dot < |number| then
      var (whole, fraction) := (number[..dot], number[dot + 1..]);
      if unit != 2 then Err(FractionNotOfSeconds)
      else if |fraction| > 9 then Err(FractionTooLong)
      else if NumberDefect(whole).Some? then Err(NumberDefect(whole).value)
      else if NumberDefect(fraction).Some? then Err(NumberDefect(fraction).value)
      else Ok(Part(unit, whole, Some(fraction)))
    else if NumberDefect(number).Some? then Err(NumberDefect(number).value)
    else Ok(Part(unit, number, None))
  }

  /** The component a time begins with, and what is behind its designator. */
  function FirstPart(cursor: string, nextUnit: nat): Result<(Part, string), DurationError> {
    var at := RunLength(cursor, DigitOrDot);
    if at == |cursor| then Err(NoDesignator)
    else
      var unit := UnitOf(cursor[at]);
      if unit.None? then Err(UnknownDesignator)
      else if unit.value < nextUnit then Err(OutOfOrder)
      else
        var part := ReadPart(cursor[..at], unit.value);
        if part.Err? then Err(part.error) else Ok((part.value, cursor[at + 1..]))
  }

  function ReadParts(cursor: string, nextUnit: nat): (r: Result<Time, DurationError>)
    ensures r.Ok? ==> TimeOk(r.value, nextUnit)
    decreases |cursor|
  {
    if cursor == [] then Ok(End)
    else
      var first := FirstPart(cursor, nextUnit);
      if first.Err? then Err(first.error)
      else
        Ahead(first.value.0, ReadParts(first.value.1, first.value.0.unit + 1))
  }

  function Ahead(p: Part, later: Result<Time, DurationError>): Result<Time, DurationError> {
    if later.Err? then later else Ok(Then(p, later.value))
  }

  function ReadDate(date: string): (r: Result<Option<string>, DurationError>)
    ensures r.Ok? && r.value.Some? ==> NumberOk(r.value.value)
  {
    if date == [] then Ok(None)
    else if date[|date| - 1] != 'D' then Err(NotDays)
    else if NumberDefect(date[..|date| - 1]).Some? then Err(NumberDefect(date[..|date| - 1]).value)
    else Ok(Some(date[..|date| - 1]))
  }

  /** The date text, and the time text where there is a `T`. */
  function SplitAtT(rest: string): (string, Option<string>) {
    var at := RunLength(rest, AnyBut('T'));
    (rest[..at], if at == |rest| then None else Some(rest[at + 1..]))
  }

  /** What a duration text is read as. */
  function Read(text: string): (r: Result<Duration, DurationError>)
    ensures r.Ok? ==> DurationOk(r.value)
  {
    if text == [] || text[0] != 'P' then Err(NoLeadingP)
    else
      var (date, time) := SplitAtT(text[1..]);
      var days := ReadDate(date);
      if days.Err? then Err(days.error)
      else if time.None? then (if date == [] then Err(NoComponent) else Ok(Duration(days.value, End)))
      else if time.value == [] then Err(EmptyTime)
      else
        var parts := ReadParts(time.value, 0);
        if parts.Err? then Err(parts.error) else Ok(Duration(days.value, parts.value))
  }

  /** The value of a duration text in nanoseconds, computed without bound. */
  function Nanos(text: string): Result<nat, DurationError> {
    var d := Read(text);
    if d.Err? then Err(d.error) else Ok(Value(d.value))
  }

  method TakePart(cursor: string, nextUnit: nat) returns (r: Result<(Part, string), DurationError>)
    ensures r == FirstPart(cursor, nextUnit)
  {
    var number, tail := TakeRun(cursor, DigitOrDot);
    if tail == [] {
      return Err(NoDesignator);
    }
    var unit := UnitOf(tail[0]);
    if unit.None? {
      return Err(UnknownDesignator);
    }
    if unit.value < nextUnit {
      return Err(OutOfOrder);
    }
    var part := ReadPart(number, unit.value);
    return if part.Err? then Err(part.error) else Ok((part.value, tail[1..]));
  }

  /** A component's value, every product and sum of it within 128 bits. */
  method ComponentNanos(p: Part) returns (nanos: nat)
    requires PartOk(p)
    ensures nanos == PartValue(p) < COMPONENT_BOUND
  {
    var seconds := Fits(InSeconds(Decimal(p.whole), p.unit));
    nanos := Fits(seconds * 1_000_000_000);
    if p.fraction.Some? {
      FractionFits(p.fraction.value);
      nanos := Fits(nanos + Fits(Scaled(Decimal(p.fraction.value), 9 - |p.fraction.value|)));
    }
  }

  /** One iteration: the first component added, and what is left. */
  method AddFirst(cursor: string, nextUnit: nat, nanos: nat)
      returns (ended: Option<DurationError>, rest: string, unit: nat, sum: nat)
    requires cursor != [] && nanos <= Reached(nextUnit)
    ensures ended.Some? ==> Total(nanos, cursor, nextUnit) == Err(ended.value)
    ensures ended.None? ==>
      && |rest| < |cursor| && sum <= Reached(unit)
      && Total(nanos, cursor, nextUnit) == Total(sum, rest, unit)
  {
    var first := TakePart(cursor, nextUnit);
    if first.Err? {
      return Some(first.error), cursor, nextUnit, nanos;
    }
    TotalStep(cursor, nextUnit, nanos);
    var value := ComponentNanos(first.value.0);
    return None, first.value.1, first.value.0.unit + 1, Fits(nanos + value);
  }

  /** The components of a time added up as they are read. */
  method SumTime(time: string, days: nat) returns (r: Result<nat, DurationError>)
    requires days <= COMPONENT_BOUND
    ensures r == Total(days, time, 0)
  {
    var cursor, nextUnit: nat, nanos: nat := time, 0, days;
    ghost var whole := Total(days, time, 0);
    while cursor != []
      invariant nanos <= Reached(nextUnit)
      invariant Total(nanos, cursor, nextUnit) == whole
      decreases |cursor|
    {
      var ended;
      ended, cursor, nextUnit, nanos := AddFirst(cursor, nextUnit, nanos);
      if ended.Some? {
        return Err(ended.value);
      }
    }
    return Ok(nanos);
  }

  /** `nanos` and what is still to be read. */
  function Total(nanos: nat, cursor: string, unit: nat): Result<nat, DurationError> {
    var parts := ReadParts(cursor, unit);
    if parts.Err? then Err(parts.error) else Ok(nanos + TimeValue(parts.value, unit))
  }

  lemma TotalStep(cursor: string, nextUnit: nat, nanos: nat)
    requires cursor != [] && FirstPart(cursor, nextUnit).Ok?
    ensures var (p, rest) := FirstPart(cursor, nextUnit).value;
      && PartOk(p) && nextUnit <= p.unit && |rest| < |cursor|
      && Total(nanos, cursor, nextUnit) == Total(nanos + PartValue(p), rest, p.unit + 1)
  {
    var (p, rest) := FirstPart(cursor, nextUnit).value;
    CutOfFirstPart(cursor, nextUnit);
    assert ReadParts(cursor, nextUnit) == Ahead(p, ReadParts(rest, p.unit + 1));
  }

  method DurationNanos(text: string) returns (r: Result<nat, DurationError>)
    ensures r == Nanos(text)
  {
    if text == [] || text[0] != 'P' {
      return Err(NoLeadingP);
    }
    var date, tail := TakeRun(text[1..], AnyBut('T'));
    var days := ReadDate(date);
    if days.Err? {
      return Err(days.error);
    }
    var total := Fits(DaysValue(days.value));
    if tail == [] {
      return if date == [] then Err(NoComponent) else Ok(total);
    }
    var time := tail[1..];
    if time == [] {
      return Err(EmptyTime);
    }
    WithTime(text, date, time);
    r := SumTime(time, total);
  }

  lemma WithTime(text: string, date: string, time: string)
    requires text != [] && text[0] == 'P' && SplitAtT(text[1..]) == (date, Some(time))
    requires time != [] && ReadDate(date).Ok?
    ensures Nanos(text) == Total(DaysValue(ReadDate(date).value), time, 0)
  {
  }

  // ---------------------------------------------------------------------------
  // Nothing overflows
  // ---------------------------------------------------------------------------

  /** Two to the 64 days, in nanoseconds: more than any component and as much as any number of days. */
  const COMPONENT_BOUND: int := 1593798687968505259622400000000000

  /** Padding with zeros scales the value, and nine digits are less than a second. */
  lemma FractionFits(fraction: string)
    requires AllIn(fraction, Digit) && |fraction| <= 9
    ensures Scaled(Decimal(fraction), 9 - |fraction|) == Decimal(Padded(fraction)) < BILLION
    ensures Decimal(fraction) < BILLION
  {
    ZerosScale(fraction, Padded(fraction), 9 - |fraction|);
    DecimalBelow(Padded(fraction), 9);
    DecimalBelow(fraction, |fraction|);
    ScaledGrows(|fraction|);
  }

  lemma {:induction false} ScaledGrows(n: nat)
    requires n <= 9
    ensures Scaled(1, n) <= Scaled(1, 9)
    decreases 9 - n
  {
    if n < 9 {
      ScaledGrows(n + 1);
    }
  }

  lemma {:induction false} ZerosScale(s: string, all: string, n: nat)
    requires AllIn(s, Digit) && AllIn(all, Digit) && |s| + n <= |all|
    requires s <= all && forall i :: |s| <= i < |all| ==> all[i] == '0'
    ensures DecimalTo(all, |s| + n) == Scaled(Decimal(s), n)
    decreases n
  {
    if n == 0 {
      SamePrefix(s, all, |s|);
    } else {
      ZerosScale(s, all, n - 1);
    }
  }

  lemma {:induction false} SamePrefix(s: string, t: string, n: nat)
    requires AllIn(s, Digit) && AllIn(t, Digit) && n <= |s| && s <= t
    ensures DecimalTo(s, n) == DecimalTo(t, n)
    decreases n
  {
    if n > 0 {
      SamePrefix(s, t, n - 1);
    }
  }

  lemma {:induction false} DecimalBelow(s: string, n: nat)
    requires AllIn(s, Digit) && n <= |s|
    ensures DecimalTo(s, n) < Scaled(1, n)
    decreases n
  {
    if n > 0 {
      DecimalBelow(s, n - 1);
    }
  }

  /** What the total may have reached before a unit: the days and one component for each unit before it. */
  function Reached(nextUnit: nat): int {
    if nextUnit == 0 then COMPONENT_BOUND
    else if nextUnit == 1 then 2 * COMPONENT_BOUND
    else if nextUnit == 2 then 3 * COMPONENT_BOUND
    else 4 * COMPONENT_BOUND
  }

  lemma {:induction false} TimeFits(time: Time, unit: nat)
    requires TimeOk(time, unit)
    ensures Reached(unit) + TimeValue(time, unit) <= Reached(3)
    decreases time
  {
    if time.Then? {
      TimeFits(time.rest, time.part.unit + 1);
    }
  }

  /** No value of the grammar needs more than 128 bits. */
  lemma ValueNeeds128Bits(d: Duration)
    requires DurationOk(d)
    ensures Value(d) < TWO_128
  {
    TimeFits(d.time, 0);
  }

  // ---------------------------------------------------------------------------
  // The reader accepts exactly the grammar
  // ---------------------------------------------------------------------------

  lemma Cut(a: string, c: char, b: string)
    ensures var s := a + ([c] + b);
      |a| < |s| && s[..|a|] == a && s[|a|] == c && s[|a| + 1..] == b
  {
  }

  lemma WholePartRead(whole: string, unit: nat)
    requires NumberOk(whole)
    ensures ReadPart(whole, unit) == Ok(Part(unit, whole, None))
  {
    RunIs(whole, |whole|, AnyBut('.'));
  }

  lemma FractionPartRead(whole: string, fraction: string)
    requires NumberOk(whole) && NumberOk(fraction) && |fraction| <= 9
    ensures ReadPart(whole + (['.'] + fraction), 2) == Ok(Part(2, whole, Some(fraction)))
  {
    Cut(whole, '.', fraction);
    RunIs(whole + (['.'] + fraction), |whole|, AnyBut('.'));
  }

  lemma ReadPartOfText(p: Part)
    requires PartOk(p)
    ensures ReadPart(NumberText(p), p.unit) == Ok(p)
  {
    if p.fraction.None? {
      WholePartRead(p.whole, p.unit);
    } else {
      FractionFits(p.fraction.value);
      FractionPartRead(p.whole, p.fraction.value);
    }
  }

  lemma TextOfReadPart(number: string, unit: nat)
    requires unit <= 2 && ReadPart(number, unit).Ok?
    ensures var p := ReadPart(number, unit).value;
      p.unit == unit && PartOk(p) && NumberText(p) == number
  {
    var dot := RunLength(number, AnyBut('.'));
    if dot < |number| {
      RunIsMaximal(number, 0, AnyBut('.'));
      CutRejoins(number, dot);
      var p := Part(unit, number[..dot], Some(number[dot + 1..]));
      assert ReadPart(number, unit) == Ok(p) && NumberText(p) == number;
    } else {
      assert ReadPart(number, unit) == Ok(Part(unit, number, None));
    }
  }

  lemma CutRejoins(s: string, at: nat)
    requires at < |s|
    ensures s[..at] + ([s[at]] + s[at + 1..]) == s
  {
  }

  /** `text` begins with a component. */
  predicate CutAt(text: string, p: Part) {
    var k := |NumberText(p)|;
    k < |text| && text[..k] == NumberText(p) && text[k] == UnitChar(p.unit)
  }

  function Behind(text: string, p: Part): string
    requires CutAt(text, p)
  {
    text[|NumberText(p)| + 1..]
  }

  lemma FirstPartOfCut(text: string, p: Part, nextUnit: nat)
    requires CutAt(text, p) && PartOk(p) && nextUnit <= p.unit
    ensures FirstPart(text, nextUnit) == Ok((p, Behind(text, p)))
  {
    var number := NumberText(p);
    ReadPartOfText(p);
    RunIs(text, |number|, DigitOrDot);
  }

  lemma CutOfFirstPart(cursor: string, nextUnit: nat)
    requires FirstPart(cursor, nextUnit).Ok?
    ensures var (p, rest) := FirstPart(cursor, nextUnit).value;
      PartOk(p) && nextUnit <= p.unit && CutAt(cursor, p) && rest == Behind(cursor, p)
  {
    var at := RunLength(cursor, DigitOrDot);
    TextOfReadPart(cursor[..at], UnitOf(cursor[at]).value);
  }

  /** `text` is the components of `time`, cut by cut. */
  ghost predicate Spelled(text: string, time: Time)
    decreases time
  {
    if time.End? then text == []
    else CutAt(text, time.part) && Spelled(Behind(text, time.part), time.rest)
  }

  lemma CutOf(p: Part, rest: string)
    ensures var text := NumberText(p) + ([UnitChar(p.unit)] + rest);
      CutAt(text, p) && Behind(text, p) == rest
  {
    Cut(NumberText(p), UnitChar(p.unit), rest);
  }

  lemma {:induction false} TextIsSpelled(time: Time)
    ensures Spelled(TimeText(time), time)
    decreases time
  {
    if time.Then? {
      TextIsSpelled(time.rest);
      CutOf(time.part, TimeText(time.rest));
    }
  }

  lemma {:induction false} SpelledIsText(text: string, time: Time)
    requires Spelled(text, time)
    ensures text == TimeText(time)
    decreases time
  {
    if time.Then? {
      SpelledIsText(Behind(text, time.part), time.rest);
    }
  }

  lemma ReadCut(text: string, p: Part, unit: nat)
    requires CutAt(text, p) && PartOk(p) && unit <= p.unit
    ensures ReadParts(text, unit) == Ahead(p, ReadParts(Behind(text, p), p.unit + 1))
  {
    FirstPartOfCut(text, p, unit);
  }

  lemma {:induction false} ReadPartsOfSpelled(text: string, time: Time, unit: nat)
    requires TimeOk(time, unit) && Spelled(text, time)
    ensures ReadParts(text, unit) == Ok(time)
    decreases time
  {
    if time.Then? {
      ReadCut(text, time.part, unit);
      ReadPartsOfSpelled(Behind(text, time.part), time.rest, time.part.unit + 1);
    }
  }

  lemma {:induction false} SpelledOfReadParts(cursor: string, unit: nat)
    requires ReadParts(cursor, unit).Ok?
    ensures Spelled(cursor, ReadParts(cursor, unit).value)
    decreases |cursor|
  {
    if cursor != [] {
      CutOfFirstPart(cursor, unit);
      var (p, rest) := FirstPart(cursor, unit).value;
      SpelledOfReadParts(rest, p.unit + 1);
    }
  }

  lemma ReadDateOfText(days: Option<string>)
    requires days.Some? ==> NumberOk(days.value)
    ensures AllIn(DateText(days), AnyBut('T'))
    ensures ReadDate(DateText(days)) == Ok(days)
  {
    if days.Some? {
      Cut(days.value, 'D', []);
      assert DateText(days) == days.value + (['D'] + []);
    }
  }

  lemma TextOfReadDate(date: string)
    requires ReadDate(date).Ok?
    ensures DateText(ReadDate(date).value) == date
  {
  }

  lemma SplitOfBody(d: Duration)
    requires DurationOk(d)
    ensures SplitAtT(Body(d)) == (DateText(d.days), if d.time.End? then None else Some(TimeText(d.time)))
  {
    var date := DateText(d.days);
    ReadDateOfText(d.days);
    if d.time.End? {
      RunIs(Body(d), |date|, AnyBut('T'));
    } else {
      Cut(date, 'T', TimeText(d.time));
      RunIs(Body(d), |date|, AnyBut('T'));
    }
  }

  /** Every text of the grammar is read as what it spells. */
  lemma ReadOfText(d: Duration)
    requires DurationOk(d)
    ensures Read(Text(d)) == Ok(d)
  {
    ReadDateOfText(d.days);
    SplitOfBody(d);
    assert Text(d)[1..] == Body(d);
    if d.time.Then? {
      TextIsSpelled(d.time);
      ReadPartsOfSpelled(TimeText(d.time), d.time, 0);
    }
  }

  /** Every text that is read spells what it is read as. */
  lemma TextOfRead(text: string)
    requires Read(text).Ok?
    ensures Text(Read(text).value) == text
  {
    var d := Read(text).value;
    var (date, time) := SplitAtT(text[1..]);
    TextOfReadDate(date);
    JoinedAtT(text[1..]);
    if time.Some? {
      TextOfReadTime(time.value);
      assert d.days == ReadDate(date).value && d.time == ReadParts(time.value, 0).value;
    }
    assert Body(d) == text[1..];
  }

  lemma TextOfReadTime(time: string)
    requires time != [] && ReadParts(time, 0).Ok?
    ensures !ReadParts(time, 0).value.End? && TimeText(ReadParts(time, 0).value) == time
  {
    SpelledOfReadParts(time, 0);
    SpelledIsText(time, ReadParts(time, 0).value);
  }

  lemma JoinedAtT(rest: string)
    ensures var (date, time) := SplitAtT(rest);
      rest == date + (if time.None? then [] else "T" + time.value)
  {
    var at := RunLength(rest, AnyBut('T'));
    if at < |rest| {
      RunIsMaximal(rest, 0, AnyBut('T'));
    }
  }

  /** A text is accepted exactly when the grammar spells it, and then for the exact value of what it spells. */
  lemma AcceptedIff(text: string)
    ensures Nanos(text).Ok? <==> exists d :: DurationOk(d) && Text(d) == text
    ensures forall d :: DurationOk(d) && Text(d) == text ==> Nanos(text) == Ok(Value(d))
  {
    if Nanos(text).Ok? {
      TextOfRead(text);
      assert DurationOk(Read(text).value) && Text(Read(text).value) == text;
    }
    forall d | DurationOk(d) && Text(d) == text ensures Nanos(text) == Ok(Value(d)) {
      ReadOfText(d);
    }
  }
}
