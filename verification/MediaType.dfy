/** The descriptor media type: its grammar, the parser over it, and the normal form two equal declarations share. */
module MediaType {
  import opened Basics
  import opened Scanning

  // ---------------------------------------------------------------------------
  // Characters and tokens
  // ---------------------------------------------------------------------------

  function LowerChar(c: char): char {
    if 'A' <= c <= 'Z' then c - 'A' + 'a' else c
  }

  function Lower(s: string): (r: string)
    ensures |r| == |s|
  {
    seq(|s|, i requires 0 <= i < |s| => LowerChar(s[i]))
  }

  predicate IsToken(s: string) {
    s != [] && AllIn(s, Tchar)
  }

  /** A token off the front, and what is left. */
  function Token(s: string): (string, string) {
    var n := RunLength(s, Tchar);
    (s[..n], s[n..])
  }

  function SkipOws(s: string): string {
    s[RunLength(s, Ows)..]
  }

  lemma TokenOf(t: string, rest: string)
    requires AllIn(t, Tchar) && (rest == [] || !IsTchar(rest[0]))
    ensures Token(t + rest) == (t, rest)
  {
    RunEnds(t, rest, Tchar);
  }

  lemma SkipOf(o: string, rest: string)
    requires AllIn(o, Ows) && (rest == [] || !IsOws(rest[0]))
    ensures SkipOws(o + rest) == rest
  {
    RunEnds(o, rest, Ows);
  }

  lemma Disjoint(c: char)
    ensures IsTchar(c) ==> !IsOws(c) && c != ';' && c != '=' && c != '/' && IsAscii(c)
  {
  }

  lemma LowerToken(s: string)
    ensures IsToken(s) ==> IsToken(Lower(s))
    ensures Lower(Lower(s)) == Lower(s)
  {
    forall i | 0 <= i < |s| ensures IsTchar(s[i]) ==> IsTchar(Lower(s)[i]) {
      LowerTchar(s[i]);
    }
  }

  lemma LowerTchar(c: char)
    ensures IsTchar(c) ==> IsTchar(LowerChar(c))
  {
    if 'A' <= c <= 'Z' {
      assert 'a' <= LowerChar(c) <= 'z';
    }
  }

  // ---------------------------------------------------------------------------
  // The grammar
  // ---------------------------------------------------------------------------

  datatype Param = Param(name: string, value: string)

  datatype Parsed = Parsed(mainType: string, subtype: string, params: seq<Param>)

  /** A parameter as it may be written, with the optional whitespace on either side of its semicolon. */
  datatype Written = Written(before: string, after: string, param: Param)

  datatype Declaration = Declaration(mainType: string, subtype: string, written: seq<Written>)

  predicate WrittenOk(w: Written) {
    && AllIn(w.before, Ows) && AllIn(w.after, Ows)
    && IsToken(w.param.name) && IsToken(w.param.value)
  }

  predicate DeclarationOk(d: Declaration) {
    && IsToken(d.mainType) && IsToken(d.subtype)
    && forall i :: 0 <= i < |d.written| ==> WrittenOk(d.written[i])
  }

  /** A written parameter ahead of `rest`. */
  function Spell(w: Written, rest: string): string {
    w.before + (";" + (w.after + (w.param.name + ("=" + (w.param.value + rest)))))
  }

  function SpellAll(ws: seq<Written>): string
    decreases |ws|
  {
    if ws == [] then [] else Spell(ws[0], SpellAll(ws[1..]))
  }

  /** The text of a declaration. */
  function Text(d: Declaration): string {
    d.mainType + ("/" + (d.subtype + SpellAll(d.written)))
  }

  function ParamsOf(ws: seq<Written>): (r: seq<Param>)
    ensures |r| == |ws| && forall i :: 0 <= i < |ws| ==> r[i] == ws[i].param
    decreases |ws|
  {
    if ws == [] then [] else [ws[0].param] + ParamsOf(ws[1..])
  }

  function Meaning(d: Declaration): Parsed {
    Parsed(d.mainType, d.subtype, ParamsOf(d.written))
  }

  // ---------------------------------------------------------------------------
  // The parser
  // ---------------------------------------------------------------------------

  datatype SyntaxError =
    | NotAscii
    | EmptyType
    | MissingSlash
    | EmptySubtype
    | MissingSemicolon
    | EmptyName
    | MissingEquals
    | EmptyValue
    | DuplicateParam

  /** Past the semicolon and the whitespace around it. */
  function PastSemicolon(rest: string): Result<string, SyntaxError> {
    var a := SkipOws(rest);
    if a == [] || a[0] != ';' then Err(MissingSemicolon) else Ok(SkipOws(a[1..]))
  }

  function NameAndValue(s: string): Result<(Param, string), SyntaxError> {
    var (name, tail) := Token(s);
    if name == [] then Err(EmptyName)
    else if tail == [] || tail[0] != '=' then Err(MissingEquals)
    else
      var (value, rest) := Token(tail[1..]);
      if value == [] then Err(EmptyValue) else Ok((Param(name, value), rest))
  }

  /** One parameter off the front, and what is left. */
  function ParseOne(rest: string): Result<(Param, string), SyntaxError> {
    var past := PastSemicolon(rest);
    if past.Err? then Err(past.error) else NameAndValue(past.value)
  }

  lemma ParseOneShrinks(rest: string)
    ensures ParseOne(rest).Ok? ==> |ParseOne(rest).value.1| < |rest|
  {
  }

  /** Parameters ahead of those still to be read. */
  function Ahead(params: seq<Param>, others: Result<seq<Param>, SyntaxError>): Result<seq<Param>, SyntaxError> {
    if others.Err? then others else Ok(params + others.value)
  }

  lemma AheadStep(params: seq<Param>, p: Param, others: Result<seq<Param>, SyntaxError>)
    ensures Ahead(params, Ahead([p], others)) == Ahead(params + [p], others)
  {
    assert others.Ok? ==> params + ([p] + others.value) == params + [p] + others.value;
  }

  function ParseParams(rest: string): Result<seq<Param>, SyntaxError>
    decreases |rest|
  {
    if rest == [] then Ok([])
    else
      var one := ParseOne(rest);
      if one.Err? then Err(one.error)
      else
        ParseOneShrinks(rest);
        Ahead([one.value.0], ParseParams(one.value.1))
  }

  /** `type/subtype`, and what is left. */
  function Head(input: string): Result<(string, string, string), SyntaxError> {
    var (mainType, rest) := Token(input);
    if mainType == [] then Err(EmptyType)
    else if rest == [] || rest[0] != '/' then Err(MissingSlash)
    else
      var (subtype, tail) := Token(rest[1..]);
      if subtype == [] then Err(EmptySubtype) else Ok((mainType, subtype, tail))
  }

  function Parse(input: string): Result<Parsed, SyntaxError> {
    if !AllIn(input, Ascii) then Err(NotAscii)
    else
      var head := Head(input);
      if head.Err? then Err(head.error)
      else
        var params := ParseParams(head.value.2);
        if params.Err? then Err(params.error) else Ok(Parsed(head.value.0, head.value.1, params.value))
  }

  method ParseMediaType(input: string) returns (r: Result<Parsed, SyntaxError>)
    ensures r == Parse(input)
  {
    if !AllIn(input, Ascii) {
      return Err(NotAscii);
    }
    var mainType, afterType := TakeRun(input, Tchar);
    if mainType == [] {
      return Err(EmptyType);
    }
    if afterType == [] || afterType[0] != '/' {
      return Err(MissingSlash);
    }
    var subtype, tail := TakeRun(afterType[1..], Tchar);
    if subtype == [] {
      return Err(EmptySubtype);
    }
    assert Head(input) == Ok((mainType, subtype, tail));
    var params := ParseAll(tail);
    return if params.Err? then Err(params.error) else Ok(Parsed(mainType, subtype, params.value));
  }

  method TakeParam(s: string) returns (r: Result<(Param, string), SyntaxError>)
    ensures r == ParseOne(s)
  {
    var ows, rest := TakeRun(s, Ows);
    if rest == [] || rest[0] != ';' {
      return Err(MissingSemicolon);
    }
    ows, rest := TakeRun(rest[1..], Ows);
    assert PastSemicolon(s) == Ok(rest);
    var name, tail := TakeRun(rest, Tchar);
    if name == [] {
      return Err(EmptyName);
    }
    if tail == [] || tail[0] != '=' {
      return Err(MissingEquals);
    }
    var value, last := TakeRun(tail[1..], Tchar);
    return if value == [] then Err(EmptyValue) else Ok((Param(name, value), last));
  }

  method ParseAll(input: string) returns (r: Result<seq<Param>, SyntaxError>)
    ensures r == ParseParams(input)
  {
    var params: seq<Param>, rest := [], input;
    ghost var whole := ParseParams(input);
    assert whole.Ok? ==> [] + whole.value == whole.value;
    while rest != []
      invariant Ahead(params, ParseParams(rest)) == whole
      decreases |rest|
    {
      ParseOneShrinks(rest);
      var one := TakeParam(rest);
      if one.Err? {
        return Err(one.error);
      }
      AheadStep(params, one.value.0, ParseParams(one.value.1));
      params, rest := params + [one.value.0], one.value.1;
    }
    assert params + [] == params;
    return Ok(params);
  }

  // ---------------------------------------------------------------------------
  // The parser reads the grammar
  // ---------------------------------------------------------------------------

  lemma PastSemicolonOf(before: string, after: string, rest: string)
    requires AllIn(before, Ows) && AllIn(after, Ows) && (rest == [] || !IsOws(rest[0]))
    ensures PastSemicolon(before + (";" + (after + rest))) == Ok(rest)
  {
    var a := ";" + (after + rest);
    SkipOf(before, a);
    assert a[1..] == after + rest;
    SkipOf(after, rest);
  }

  lemma NameAndValueOf(p: Param, rest: string)
    requires IsToken(p.name) && IsToken(p.value) && (rest == [] || !IsTchar(rest[0]))
    ensures NameAndValue(p.name + ("=" + (p.value + rest))) == Ok((p, rest))
  {
    var tail := "=" + (p.value + rest);
    Disjoint('=');
    TokenOf(p.name, tail);
    assert tail[1..] == p.value + rest;
    TokenOf(p.value, rest);
  }

  lemma ParseOneOfSpelled(w: Written, rest: string)
    requires WrittenOk(w) && (rest == [] || !IsTchar(rest[0]))
    ensures ParseOne(Spell(w, rest)) == Ok((w.param, rest))
  {
    var named := w.param.name + ("=" + (w.param.value + rest));
    assert named[0] == w.param.name[0];
    Disjoint(named[0]);
    PastSemicolonOf(w.before, w.after, named);
    NameAndValueOf(w.param, rest);
  }

  lemma SpelledStartsOutsideToken(ws: seq<Written>)
    requires forall i :: 0 <= i < |ws| ==> WrittenOk(ws[i])
    ensures SpellAll(ws) == [] || !IsTchar(SpellAll(ws)[0])
  {
    if ws != [] {
      var w := ws[0];
      var first := if w.before == [] then ';' else w.before[0];
      assert SpellAll(ws)[0] == first;
      Disjoint(first);
    }
  }

  lemma {:induction false} ParseParamsOfSpelled(ws: seq<Written>)
    requires forall i :: 0 <= i < |ws| ==> WrittenOk(ws[i])
    ensures ParseParams(SpellAll(ws)) == Ok(ParamsOf(ws))
    decreases |ws|
  {
    if ws != [] {
      var rest := ws[1..];
      SpelledStartsOutsideToken(rest);
      ParseOneOfSpelled(ws[0], SpellAll(rest));
      ParseParamsOfSpelled(rest);
    }
  }

  lemma AsciiJoined(a: string, b: string)
    requires AllIn(a, Ascii) && AllIn(b, Ascii)
    ensures AllIn(a + b, Ascii)
  {
  }

  lemma TokenIsAscii(s: string)
    requires AllIn(s, Tchar) || AllIn(s, Ows)
    ensures AllIn(s, Ascii)
  {
    forall i | 0 <= i < |s| ensures IsAscii(s[i]) {
      Disjoint(s[i]);
    }
  }

  lemma {:induction false} SpelledIsAscii(ws: seq<Written>)
    requires forall i :: 0 <= i < |ws| ==> WrittenOk(ws[i])
    ensures AllIn(SpellAll(ws), Ascii)
    decreases |ws|
  {
    if ws != [] {
      SpelledIsAscii(ws[1..]);
      SpellIsAscii(ws[0], SpellAll(ws[1..]));
    }
  }

  lemma SpellIsAscii(w: Written, rest: string)
    requires WrittenOk(w) && AllIn(rest, Ascii)
    ensures AllIn(Spell(w, rest), Ascii)
  {
    TokenIsAscii(w.before);
    TokenIsAscii(w.after);
    TokenIsAscii(w.param.name);
    TokenIsAscii(w.param.value);
    AsciiJoined(w.param.value, rest);
    var valued := "=" + (w.param.value + rest);
    AsciiJoined(w.param.name, valued);
    AsciiJoined(w.after, w.param.name + valued);
    AsciiJoined(w.before, ";" + (w.after + (w.param.name + valued)));
  }

  lemma HeadOf(mainType: string, subtype: string, rest: string)
    requires IsToken(mainType) && IsToken(subtype) && (rest == [] || !IsTchar(rest[0]))
    ensures Head(mainType + ("/" + (subtype + rest))) == Ok((mainType, subtype, rest))
  {
    var tail := "/" + (subtype + rest);
    Disjoint('/');
    TokenOf(mainType, tail);
    assert tail[1..] == subtype + rest;
    TokenOf(subtype, rest);
  }

  /** Every text of the grammar parses to what it means. */
  lemma ParseOfText(d: Declaration)
    requires DeclarationOk(d)
    ensures Parse(Text(d)) == Ok(Meaning(d))
  {
    var spelled := SpellAll(d.written);
    SpelledIsAscii(d.written);
    TokenIsAscii(d.mainType);
    TokenIsAscii(d.subtype);
    AsciiJoined(d.subtype, spelled);
    AsciiJoined(d.mainType, "/" + (d.subtype + spelled));
    SpelledStartsOutsideToken(d.written);
    HeadOf(d.mainType, d.subtype, spelled);
    ParseParamsOfSpelled(d.written);
  }

  lemma SpelledOfPastSemicolon(rest: string) returns (before: string, after: string)
    requires PastSemicolon(rest).Ok?
    ensures AllIn(before, Ows) && AllIn(after, Ows)
    ensures rest == before + (";" + (after + PastSemicolon(rest).value))
  {
    var i := RunLength(rest, Ows);
    RunIsOfClass(rest, Ows);
    var b := rest[i..][1..];
    RunIsOfClass(b, Ows);
    var j := RunLength(b, Ows);
    before, after := rest[..i], b[..j];
    assert b == after + b[j..];
    assert rest == before + rest[i..];
  }

  lemma SpelledOfNameAndValue(s: string)
    requires NameAndValue(s).Ok?
    ensures var (p, rest) := NameAndValue(s).value;
      IsToken(p.name) && IsToken(p.value) && s == p.name + ("=" + (p.value + rest))
  {
    var (name, tail) := Token(s);
    var (value, rest) := Token(tail[1..]);
    RunIsOfClass(s, Tchar);
    RunIsOfClass(tail[1..], Tchar);
    assert tail[1..] == value + rest;
    assert s == name + tail;
  }

  lemma SpelledOfParseOne(rest: string) returns (w: Written)
    requires ParseOne(rest).Ok?
    ensures WrittenOk(w) && w.param == ParseOne(rest).value.0
    ensures rest == Spell(w, ParseOne(rest).value.1)
  {
    var before, after := SpelledOfPastSemicolon(rest);
    SpelledOfNameAndValue(PastSemicolon(rest).value);
    w := Written(before, after, ParseOne(rest).value.0);
  }

  lemma {:induction false} SpelledOfParseParams(rest: string) returns (ws: seq<Written>)
    requires ParseParams(rest).Ok?
    ensures forall i :: 0 <= i < |ws| ==> WrittenOk(ws[i])
    ensures rest == SpellAll(ws) && ParseParams(rest).value == ParamsOf(ws)
    decreases |rest|
  {
    if rest == [] {
      ws := [];
    } else {
      var w := SpelledOfParseOne(rest);
      ParseOneShrinks(rest);
      var others := SpelledOfParseParams(ParseOne(rest).value.1);
      ws := SpelledAhead(w, others);
    }
  }

  lemma SpelledAhead(w: Written, others: seq<Written>) returns (ws: seq<Written>)
    ensures ws == [w] + others
    ensures SpellAll(ws) == Spell(w, SpellAll(others)) && ParamsOf(ws) == [w.param] + ParamsOf(others)
  {
    ws := [w] + others;
    assert ws[1..] == others;
  }

  lemma SpelledOfHead(input: string)
    requires Head(input).Ok?
    ensures var (mainType, subtype, rest) := Head(input).value;
      IsToken(mainType) && IsToken(subtype) && input == mainType + ("/" + (subtype + rest))
  {
    var (mainType, afterType) := Token(input);
    var (subtype, rest) := Token(afterType[1..]);
    RunIsOfClass(input, Tchar);
    RunIsOfClass(afterType[1..], Tchar);
    assert afterType[1..] == subtype + rest;
    assert input == mainType + afterType;
  }

  /** Every text that parses is one of the grammar, with that meaning. */
  lemma TextOfParse(input: string) returns (d: Declaration)
    requires Parse(input).Ok?
    ensures DeclarationOk(d) && Text(d) == input && Meaning(d) == Parse(input).value
  {
    SpelledOfHead(input);
    var (mainType, subtype, rest) := Head(input).value;
    var ws := SpelledOfParseParams(rest);
    d := Declaration(mainType, subtype, ws);
  }
}
