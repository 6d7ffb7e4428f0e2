/** What a duration text is worth, said of its text and its numbers alone. */
module DurationMeaning {
  import opened Basics
  import opened Scanning
  import opened Duration

  // ---------------------------------------------------------------------------
  // Numbers
  // ---------------------------------------------------------------------------

  /** Appending a digit makes a number tenfold and adds the digit. */
  lemma DigitAppended(s: string, c: char)
    requires AllIn(s, Digit) && '0' <= c <= '9'
    ensures AllIn(s + [c], Digit) && Decimal(s + [c]) == 10 * Decimal(s) + (c as int - 48)
    ensures Decimal([]) == 0
  {
    SamePrefix(s, s + [c], |s|);
  }

  /** Each place a fraction falls short of nine digits is worth a factor of ten; at nine they count nanoseconds. */
  lemma {:induction false} ScaledIs(x: nat, k: nat)
    ensures Scaled(x, 0) == x
    ensures Scaled(x, k + 1) == 10 * Scaled(x, k) == Scaled(10 * x, k)
    decreases k
  {
    if k > 0 {
      ScaledIs(x, k - 1);
    }
  }

  // ---------------------------------------------------------------------------
  // Texts
  // ---------------------------------------------------------------------------

  /** The numbers of a duration, each where it is written. */
  datatype Numbers = Numbers(
    days: Option<string>,
    hours: Option<string>,
    minutes: Option<string>,
    seconds: Option<string>,
    fraction: Option<string>)

  /** Present numbers fit 64 bits, a fraction is one to nine digits behind seconds, and something is present. */
  predicate NumbersOk(x: Numbers) {
    && (x.days.Some? ==> NumberOk(x.days.value))
    && (x.hours.Some? ==> NumberOk(x.hours.value))
    && (x.minutes.Some? ==> NumberOk(x.minutes.value))
    && (x.seconds.Some? ==> NumberOk(x.seconds.value))
    && (x.fraction.Some? ==> x.seconds.Some? && 1 <= |x.fraction.value| <= 9 && AllIn(x.fraction.value, Digit))
    && (x.days.Some? || HasTime(x))
  }

  predicate HasTime(x: Numbers) {
    x.hours.Some? || x.minutes.Some? || x.seconds.Some?
  }

  function Field(number: Option<string>, letter: string): string {
    if number.Some? then number.value + letter else ""
  }

  function Point(fraction: Option<string>): string {
    if fraction.Some? then "." + fraction.value else ""
  }

  /** `PnDTnHnMn.fS`, less what is absent. */
  function Spelling(x: Numbers): string {
    "P" + Field(x.days, "D")
    + (if HasTime(x)
       then "T" + Field(x.hours, "H") + Field(x.minutes, "M") + Field(x.seconds, Point(x.fraction) + "S")
       else "")
  }

  function NumberOf(number: Option<string>): nat
    requires number.Some? ==> NumberOk(number.value)
  {
    if number.Some? then Decimal(number.value) else 0
  }

  /** A fraction in nanoseconds. */
  function FractionOf(fraction: Option<string>): nat
    requires fraction.Some? ==> |fraction.value| <= 9 && AllIn(fraction.value, Digit)
  {
    if fraction.Some? then Scaled(Decimal(fraction.value), 9 - |fraction.value|) else 0
  }

  /** Twenty-four hours a day, sixty minutes an hour, sixty seconds a minute, and the fraction in nanoseconds. */
  function Worth(x: Numbers): nat
    requires NumbersOk(x)
  {
    Nanoseconds(NumberOf(x.days), NumberOf(x.hours), NumberOf(x.minutes), NumberOf(x.seconds), FractionOf(x.fraction))
  }

  function Nanoseconds(days: nat, hours: nat, minutes: nat, seconds: nat, fraction: nat): nat {
    (((days * 24 + hours) * 60 + minutes) * 60 + seconds) * 1_000_000_000 + fraction
  }

  // ---------------------------------------------------------------------------
  // The numbers of a duration and its components are two forms of one thing
  // ---------------------------------------------------------------------------

  function Ahead(unit: nat, whole: Option<string>, fraction: Option<string>, rest: Time): Time {
    if whole.None? then rest else Then(Part(unit, whole.value, fraction), rest)
  }

  function SecondsOf(x: Numbers): Time {
    Ahead(2, x.seconds, x.fraction, End)
  }

  function MinutesOf(x: Numbers): Time {
    Ahead(1, x.minutes, None, SecondsOf(x))
  }

  function DurationOf(x: Numbers): Duration {
    Duration(x.days, Ahead(0, x.hours, None, MinutesOf(x)))
  }

  lemma DurationOfOk(x: Numbers)
    requires NumbersOk(x)
    ensures TimeOk(SecondsOf(x), 0) && TimeOk(SecondsOf(x), 1) && TimeOk(SecondsOf(x), 2)
    ensures TimeOk(MinutesOf(x), 0) && TimeOk(MinutesOf(x), 1)
    ensures DurationOk(DurationOf(x))
    ensures DurationOf(x).time.Then? <==> HasTime(x)
  {
  }

  lemma AheadText(unit: nat, whole: Option<string>, fraction: Option<string>, rest: Time)
    requires fraction.Some? ==> whole.Some?
    ensures TimeText(Ahead(unit, whole, fraction, rest)) ==
              Field(whole, Point(fraction) + [UnitChar(unit)]) + TimeText(rest)
  {
    if whole.Some? {
      var (digits, last) := (whole.value, [UnitChar(unit)] + TimeText(rest));
      if fraction.None? {
        assert "" + [UnitChar(unit)] == [UnitChar(unit)];
        assert digits + last == digits + [UnitChar(unit)] + TimeText(rest);
      } else {
        assert digits + ("." + fraction.value) + last
            == digits + ("." + fraction.value + [UnitChar(unit)]) + TimeText(rest);
      }
    }
  }

  lemma TimeTextIs(x: Numbers)
    requires NumbersOk(x)
    ensures TimeText(DurationOf(x).time) ==
              Field(x.hours, "H") + (Field(x.minutes, "M") + Field(x.seconds, Point(x.fraction) + "S"))
  {
    AheadText(2, x.seconds, x.fraction, End);
    AheadText(1, x.minutes, None, SecondsOf(x));
    AheadText(0, x.hours, None, MinutesOf(x));
    var seconds := Field(x.seconds, Point(x.fraction) + "S");
    assert "" + "H" == "H" && "" + "M" == "M";
    assert TimeText(SecondsOf(x)) == seconds + [] == seconds;
  }

  lemma TextIs(x: Numbers)
    requires NumbersOk(x)
    ensures Text(DurationOf(x)) == Spelling(x)
  {
    DurationOfOk(x);
    TimeTextIs(x);
    var (d, h, m, s) := (Field(x.days, "D"), Field(x.hours, "H"), Field(x.minutes, "M"),
                         Field(x.seconds, Point(x.fraction) + "S"));
    Regrouped(d, h, m, s);
    assert DateText(x.days) == d;
    assert HasTime(x) ==> Body(DurationOf(x)) == d + ("T" + (h + (m + s)));
  }

  lemma Regrouped(d: string, h: string, m: string, s: string)
    ensures "P" + (d + ("T" + (h + (m + s)))) == "P" + d + ("T" + h + m + s)
    ensures "P" + (d + []) == "P" + d + ""
  {
  }

  lemma UnitOnlyGuards(time: Time, a: nat, b: nat)
    requires TimeOk(time, a) && TimeOk(time, b)
    ensures TimeValue(time, a) == TimeValue(time, b)
  {
  }

  lemma AheadValue(unit: nat, whole: Option<string>, fraction: Option<string>, rest: Time)
    requires whole.Some? ==> PartOk(Part(unit, whole.value, fraction))
    requires TimeOk(rest, unit + 1) && TimeOk(rest, unit) && (whole.None? ==> fraction.None?)
    ensures var time := Ahead(unit, whole, fraction, rest);
      TimeOk(time, unit) && TimeValue(time, unit) ==
        (if whole.Some? then PartValue(Part(unit, whole.value, fraction)) else 0) + TimeValue(rest, unit + 1)
  {
    UnitOnlyGuards(rest, unit, unit + 1);
  }

  lemma PartWorth(p: Part)
    requires PartOk(p)
    ensures PartValue(p) == InSeconds(Decimal(p.whole), p.unit) * 1_000_000_000 + FractionOf(p.fraction)
  {
    if p.fraction.Some? {
      FractionFits(p.fraction.value);
    }
  }

  lemma SecondsValue(x: Numbers)
    requires NumbersOk(x)
    ensures TimeOk(SecondsOf(x), 2)
    ensures TimeValue(SecondsOf(x), 2) == NumberOf(x.seconds) * 1_000_000_000 + FractionOf(x.fraction)
  {
    AheadValue(2, x.seconds, x.fraction, End);
    if x.seconds.Some? {
      PartWorth(Part(2, x.seconds.value, x.fraction));
    }
  }

  lemma MinutesValue(x: Numbers)
    requires NumbersOk(x)
    ensures TimeOk(SecondsOf(x), 2) && TimeOk(MinutesOf(x), 1)
    ensures TimeValue(MinutesOf(x), 1) == NumberOf(x.minutes) * 60 * 1_000_000_000 + TimeValue(SecondsOf(x), 2)
  {
    DurationOfOk(x);
    AheadValue(1, x.minutes, None, SecondsOf(x));
  }

  lemma HoursValue(x: Numbers)
    requires NumbersOk(x)
    ensures TimeOk(MinutesOf(x), 1) && DurationOk(DurationOf(x))
    ensures TimeValue(DurationOf(x).time, 0) ==
              NumberOf(x.hours) * 3600 * 1_000_000_000 + TimeValue(MinutesOf(x), 1)
  {
    DurationOfOk(x);
    AheadValue(0, x.hours, None, MinutesOf(x));
  }

  lemma Regather(days: nat, hours: nat, minutes: nat, seconds: nat, fraction: nat)
    ensures Nanoseconds(days, hours, minutes, seconds, fraction) ==
              days * 86_400_000_000_000 + (hours * 3600 * 1_000_000_000
              + (minutes * 60 * 1_000_000_000 + (seconds * 1_000_000_000 + fraction)))
  {
  }

  lemma ValueIs(x: Numbers)
    requires NumbersOk(x)
    ensures DurationOk(DurationOf(x)) && Value(DurationOf(x)) == Worth(x)
  {
    HoursValue(x);
    MinutesValue(x);
    SecondsValue(x);
    Regather(NumberOf(x.days), NumberOf(x.hours), NumberOf(x.minutes), NumberOf(x.seconds), FractionOf(x.fraction));
    DaysWorth(x.days);
  }

  lemma DaysWorth(days: Option<string>)
    requires days.Some? ==> NumberOk(days.value)
    ensures DaysValue(days) == NumberOf(days) * 86_400_000_000_000
  {
  }

  /** A time none of whose units are before `unit` is a component of that unit, or none, ahead of later ones. */
  lemma Peel(time: Time, unit: nat) returns (whole: Option<string>, fraction: Option<string>, rest: Time)
    requires TimeOk(time, unit)
    ensures time == Ahead(unit, whole, fraction, rest) && TimeOk(rest, unit + 1)
    ensures whole.Some? ==> PartOk(Part(unit, whole.value, fraction))
    ensures whole.None? ==> fraction.None?
  {
    if time.Then? && time.part.unit == unit {
      whole, fraction, rest := Some(time.part.whole), time.part.fraction, time.rest;
    } else {
      whole, fraction, rest := None, None, time;
    }
  }

  lemma NumbersOf(d: Duration) returns (x: Numbers)
    requires DurationOk(d)
    ensures NumbersOk(x) && DurationOf(x) == d
  {
    var hours, none0, afterHours := Peel(d.time, 0);
    var minutes, none1, afterMinutes := Peel(afterHours, 1);
    var seconds, fraction, end := Peel(afterMinutes, 2);
    x := Numbers(d.days, hours, minutes, seconds, fraction);
  }

  /** A text is accepted exactly when it spells numbers in this form, and then for what they are worth. */
  lemma AcceptedAs(text: string)
    ensures Nanos(text).Ok? <==> exists x :: NumbersOk(x) && Spelling(x) == text
    ensures forall x :: NumbersOk(x) && Spelling(x) == text ==> Nanos(text) == Ok(Worth(x))
  {
    forall x | NumbersOk(x) && Spelling(x) == text ensures Nanos(text) == Ok(Worth(x)) {
      TextIs(x);
      ValueIs(x);
      ReadOfText(DurationOf(x));
    }
    if Nanos(text).Ok? {
      var x := NumbersOf(Read(text).value);
      TextOfRead(text);
      TextIs(x);
    }
  }
}
