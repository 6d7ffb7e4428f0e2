/** Classes of characters, and runs of one class at the front of a string. */
module Scanning {
  predicate IsAscii(c: char) {
    c < 128 as char
  }

  predicate IsAlphanumeric(c: char) {
    'a' <= c <= 'z' || 'A' <= c <= 'Z' || '0' <= c <= '9'
  }

  /** The characters of a token, section 5.6.2 of RFC 9110. */
  predicate IsTchar(c: char) {
    IsAlphanumeric(c)
    || c == '!' || c == '#' || c == '$' || c == '%' || c == '&' || c == '\'' || c == '*' || c == '+'
    || c == '-' || c == '.' || c == '^' || c == '_' || c == '`' || c == '|' || c == '~'
  }

  predicate IsOws(c: char) {
    c == ' ' || c == '\t'
  }

  predicate IsDigit(c: char) {
    '0' <= c <= '9'
  }

  /** The classes the readers of this project cut their input by. */
  datatype CharClass = Ascii | Tchar | Ows | Digit | DigitOrDot | AnyBut(c: char)

  predicate In(c: char, members: CharClass) {
    match members
    case Ascii => IsAscii(c)
    case Tchar => IsTchar(c)
    case Ows => IsOws(c)
    case Digit => IsDigit(c)
    case DigitOrDot => IsDigit(c) || c == '.'
    case AnyBut(other) => c != other
  }

  predicate AllIn(s: string, members: CharClass) {
    forall i :: 0 <= i < |s| ==> In(s[i], members)
  }

  /** Where the run of characters of a class that starts at `i` ends. */
  function RunEnd(s: string, i: nat, members: CharClass): (n: nat)
    requires i <= |s|
    ensures i <= n <= |s|
    decreases |s| - i
  {
    if i < |s| && In(s[i], members) then RunEnd(s, i + 1, members) else i
  }

  /** The length of the longest run of characters of a class `s` begins with. */
  function RunLength(s: string, members: CharClass): (n: nat)
    ensures n <= |s|
  {
    RunEnd(s, 0, members)
  }

  /** A run that a character outside the class follows is the longest. */
  lemma {:induction false} RunEndIs(s: string, i: nat, k: nat, members: CharClass)
    requires i <= k <= |s| && (forall j :: i <= j < k ==> In(s[j], members)) && (k < |s| ==> !In(s[k], members))
    ensures RunEnd(s, i, members) == k
    decreases k - i
  {
    if i < k {
      RunEndIs(s, i + 1, k, members);
    }
  }

  lemma {:induction false} RunIsMaximal(s: string, i: nat, members: CharClass)
    requires i <= |s|
    ensures var n := RunEnd(s, i, members);
      (forall j :: i <= j < n ==> In(s[j], members)) && (n < |s| ==> !In(s[n], members))
    decreases |s| - i
  {
    if i < |s| && In(s[i], members) {
      RunIsMaximal(s, i + 1, members);
    }
  }

  /** A run is all of its class. */
  lemma RunIsOfClass(s: string, members: CharClass)
    ensures AllIn(s[..RunLength(s, members)], members)
  {
    RunIsMaximal(s, 0, members);
  }

  lemma RunIs(s: string, k: nat, members: CharClass)
    requires k <= |s| && AllIn(s[..k], members) && (k < |s| ==> !In(s[k], members))
    ensures RunLength(s, members) == k
  {
    assert forall j :: 0 <= j < k ==> s[..k][j] == s[j];
    RunEndIs(s, 0, k, members);
  }

  /** Where a run ends is fixed by what follows it. */
  lemma RunEnds(t: string, rest: string, members: CharClass)
    requires AllIn(t, members) && (rest == [] || !In(rest[0], members))
    ensures RunLength(t + rest, members) == |t|
    ensures (t + rest)[..|t|] == t && (t + rest)[|t|..] == rest
  {
    assert (t + rest)[..|t|] == t;
    RunIs(t + rest, |t|, members);
  }

  method TakeRun(s: string, members: CharClass) returns (run: string, rest: string)
    ensures run == s[..RunLength(s, members)] && rest == s[RunLength(s, members)..]
  {
    var end := 0;
    while end < |s| && In(s[end], members)
      invariant end <= |s| && forall i :: 0 <= i < end ==> In(s[i], members)
    {
      end := end + 1;
    }
    RunIs(s, end, members);
    return s[..end], s[end..];
  }
}
