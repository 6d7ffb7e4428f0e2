/** What the normal form of a media type holds, character by character, without the functions that make it. */
module MediaTypeMeaning {
  import opened Basics
  import opened Scanning
  import opened Sorting
  import CommittedTree
  import opened MediaType
  import opened MediaTypeNormal

  // ---------------------------------------------------------------------------
  // Characters
  // ---------------------------------------------------------------------------

  /** The delimiters of section 5.6.2 of RFC 9110. */
  const DELIMITERS: string := "\"(),/:;<=>?@[\\]{}"

  /** Token characters are the visible ones of US-ASCII less the delimiters. */
  lemma TcharIffVisible(c: char)
    ensures IsTchar(c) <==> 33 <= c as int <= 126 && c !in DELIMITERS
  {
    if 33 <= c as int <= 126 && c !in DELIMITERS {
      var d := DELIMITERS;
      assert d[0] == '\"' && d[1] == '(' && d[2] == ')' && d[3] == ',' && d[4] == '/' && d[5] == ':' && d[6] == ';';
      assert d[7] == '<' && d[8] == '=' && d[9] == '>' && d[10] == '?' && d[11] == '@' && d[12] == '[';
      assert d[13] == '\\' && d[14] == ']' && d[15] == '{' && d[16] == '}';
    }
  }

  predicate IsUpper(c: char) {
    65 <= c as int <= 90
  }

  predicate NoUpper(s: string) {
    forall i :: 0 <= i < |s| ==> !IsUpper(s[i])
  }

  /** `b` is `a`, or `a` is an upper-case letter of US-ASCII and `b` the same letter in lower case. */
  predicate SameLetter(a: char, b: char) {
    if IsUpper(a) then b as int == a as int + 32 else b == a
  }

  predicate SameLetters(a: string, b: string) {
    |a| == |b| && forall i :: 0 <= i < |a| ==> SameLetter(a[i], b[i])
  }

  /** Lowering changes the 26 upper-case letters of US-ASCII, each to the same letter, and nothing else. */
  lemma LowerIs(s: string, r: string)
    ensures r == Lower(s) <==> SameLetters(s, r)
    ensures NoUpper(Lower(s))
    ensures NoUpper(s) ==> Lower(s) == s
  {
    forall c: char ensures SameLetter(c, LowerChar(c)) && !IsUpper(LowerChar(c)) {
      LowerCharIs(c);
    }
    if SameLetters(s, r) {
      forall i | 0 <= i < |s| ensures r[i] == Lower(s)[i] {
        assert SameLetter(s[i], r[i]) && SameLetter(s[i], Lower(s)[i]);
      }
    }
    if NoUpper(s) {
      assert forall i :: 0 <= i < |s| ==> !IsUpper(s[i]) && SameLetter(s[i], Lower(s)[i]);
    }
  }

  lemma LowerCharIs(c: char)
    ensures SameLetter(c, LowerChar(c)) && !IsUpper(LowerChar(c))
  {
  }

  // ---------------------------------------------------------------------------
  // Parameters
  // ---------------------------------------------------------------------------

  /** `q` is `p` with its name in lower case and, where the name is `charset`, its value too. */
  predicate IsLowered(p: Param, q: Param) {
    && SameLetters(p.name, q.name)
    && (if q.name == "charset" then SameLetters(p.value, q.value) else q.value == p.value)
  }

  lemma NormalIff(p: Param, q: Param)
    ensures q == Normal(p) <==> IsLowered(p, q)
  {
    LowerIs(p.name, q.name);
    LowerIs(p.value, q.value);
  }

  predicate AllLowered(ps: seq<Param>, lowered: seq<Param>) {
    |lowered| == |ps| && forall i :: 0 <= i < |ps| ==> IsLowered(ps[i], lowered[i])
  }

  lemma EachIff(ps: seq<Param>, lowered: seq<Param>)
    ensures lowered == Each(ps, Normal) <==> AllLowered(ps, lowered)
  {
    forall i | 0 <= i < |ps| && |lowered| == |ps|
      ensures lowered[i] == Each(ps, Normal)[i] <==> IsLowered(ps[i], lowered[i])
    {
      NormalIff(ps[i], lowered[i]);
    }
  }

  /** `qs` is `ps` with every parameter lowered, in some order. */
  ghost predicate Rearranged(ps: seq<Param>, qs: seq<Param>) {
    exists lowered :: AllLowered(ps, lowered) && multiset(lowered) == multiset(qs)
  }

  lemma RearrangedIff(ps: seq<Param>, qs: seq<Param>)
    ensures Rearranged(ps, qs) <==> multiset(Each(ps, Normal)) == multiset(qs)
  {
    EachIff(ps, Each(ps, Normal));
    forall lowered | AllLowered(ps, lowered) ensures lowered == Each(ps, Normal) {
      EachIff(ps, lowered);
    }
  }

  /** Every name comes, byte by byte, before the names after it. */
  ghost predicate InNameOrder(qs: seq<Param>) {
    forall i, j :: 0 <= i < j < |qs| ==> CommittedTree.Ascends(qs[i].name, qs[j].name)
  }

  lemma InNameOrderIff(qs: seq<Param>)
    ensures InNameOrder(qs) <==> StrictlySorted(qs, ByName())
  {
    forall i, j | 0 <= i < j < |qs|
      ensures CommittedTree.Ascends(qs[i].name, qs[j].name) <==> ByName()(qs[i], qs[j])
    {
      CommittedTree.BeforeIff(qs[i].name, qs[j].name);
    }
  }

  // ---------------------------------------------------------------------------
  // Whitespace
  // ---------------------------------------------------------------------------

  predicate NoSpace(s: string) {
    ' ' !in s && '\t' !in s
  }

  lemma NoSpaceJoined(a: string, b: string)
    ensures NoSpace(a + b) <==> NoSpace(a) && NoSpace(b)
  {
  }

  lemma SpaceIsAll(o: string)
    requires AllIn(o, Ows)
    ensures NoSpace(o) <==> o == []
  {
    if o != [] {
      assert In(o[0], Ows);
    }
  }

  lemma TokenHasNoSpace(t: string)
    requires AllIn(t, Tchar)
    ensures NoSpace(t)
  {
  }

  /** A written parameter holds a space exactly where whitespace was written around its semicolon, or behind it. */
  lemma SpellHasNoSpace(w: Written, rest: string)
    requires WrittenOk(w)
    ensures NoSpace(Spell(w, rest)) <==> w.before == [] && w.after == [] && NoSpace(rest)
  {
    var (name, value) := (w.param.name, w.param.value);
    var valued := "=" + (value + rest);
    TokenHasNoSpace(name);
    TokenHasNoSpace(value);
    SpaceIsAll(w.before);
    SpaceIsAll(w.after);
    NoSpaceJoined(value, rest);
    NoSpaceJoined("=", value + rest);
    NoSpaceJoined(name, valued);
    NoSpaceJoined(w.after, name + valued);
    NoSpaceJoined(";", w.after + (name + valued));
    NoSpaceJoined(w.before, ";" + (w.after + (name + valued)));
  }

  lemma {:induction false} SpelledHasNoSpace(ws: seq<Written>)
    requires forall i :: 0 <= i < |ws| ==> WrittenOk(ws[i])
    ensures NoSpace(SpellAll(ws)) <==> ws == Bare(ParamsOf(ws))
    decreases |ws|
  {
    if ws != [] {
      SpelledHasNoSpace(ws[1..]);
      SpellHasNoSpace(ws[0], SpellAll(ws[1..]));
      var bare := Bare(ParamsOf(ws));
      assert ParamsOf(ws)[1..] == ParamsOf(ws[1..]);
      assert bare[0] == Written([], [], ws[0].param) && bare[1..] == Bare(ParamsOf(ws[1..]));
      assert ws == bare <==> ws[0] == bare[0] && ws[1..] == bare[1..] by {
        assert ws == [ws[0]] + ws[1..] && bare == [bare[0]] + bare[1..];
      }
    }
  }

  /** A declaration holds no space exactly where it is the compact text of what it means. */
  lemma CompactIff(text: string)
    requires Parse(text).Ok?
    ensures NoSpace(text) <==> text == Compact(Parse(text).value)
  {
    var d := TextOfParse(text);
    var spelled := SpellAll(d.written);
    TokenHasNoSpace(d.mainType);
    TokenHasNoSpace(d.subtype);
    NoSpaceJoined(d.subtype, spelled);
    NoSpaceJoined("/", d.subtype + spelled);
    NoSpaceJoined(d.mainType, "/" + (d.subtype + spelled));
    SpelledHasNoSpace(d.written);
    CompactHasNoSpace(d);
  }

  lemma CompactHasNoSpace(d: Declaration)
    requires DeclarationOk(d)
    ensures NoSpace(SpellAll(d.written)) <==> Text(d) == Compact(Meaning(d))
  {
    var bare := Bare(ParamsOf(d.written));
    SpelledHasNoSpace(d.written);
    forall i | 0 <= i < |bare| ensures WrittenOk(bare[i]) {
      assert WrittenOk(d.written[i]);
    }
    SpelledHasNoSpace(bare);
    assert ParamsOf(bare) == ParamsOf(d.written);
    if Text(d) == Compact(Meaning(d)) {
      SameTail(d.mainType, d.subtype, SpellAll(d.written), SpellAll(bare));
    }
  }

  lemma SameTail(mainType: string, subtype: string, a: string, b: string)
    requires mainType + ("/" + (subtype + a)) == mainType + ("/" + (subtype + b))
    ensures a == b
  {
    var n := |mainType| + 1 + |subtype|;
    assert (mainType + ("/" + (subtype + a)))[n..] == a;
    assert (mainType + ("/" + (subtype + b)))[n..] == b;
  }

  // ---------------------------------------------------------------------------
  // The normal form
  // ---------------------------------------------------------------------------

  /** Type, subtype and parameters of `q` are those of `p` in lower case, parameters in strict order of name. */
  ghost predicate IsNormalOf(p: Parsed, q: Parsed) {
    && SameLetters(p.mainType, q.mainType) && SameLetters(p.subtype, q.subtype)
    && Rearranged(p.params, q.params) && InNameOrder(q.params)
  }

  lemma IsNormalIff(p: Parsed, q: Parsed)
    ensures IsNormalOf(p, q) <==> q == Canonical(p) && !AdjacentRepeat(Canonical(p).params)
  {
    LowerIs(p.mainType, q.mainType);
    LowerIs(p.subtype, q.subtype);
    RearrangedIff(p.params, q.params);
    InNameOrderIff(q.params);
    CanonicalSorts(p);
    AscendsIffNoRepeat(Canonical(p).params);
    NameOrder();
    if IsNormalOf(p, q) {
      StrictlySortedUnique(q.params, Canonical(p).params, ByName());
    }
  }

  /** The normal form of a text: its types and parameters in lower case, parameters in order, and no space. */
  lemma NormalizeIff(raw: string, normal: string)
    ensures Normalize(raw) == Ok(normal) <==>
              Parse(raw).Ok? && Parse(normal).Ok? && NoSpace(normal)
              && IsNormalOf(Parse(raw).value, Parse(normal).value)
  {
    if Normalize(raw) == Ok(normal) {
      OutputParsesToCanonical(raw);
      IsNormalIff(Parse(raw).value, Parse(normal).value);
      CompactIff(normal);
    } else if Parse(raw).Ok? && Parse(normal).Ok? && NoSpace(normal) {
      IsNormalIff(Parse(raw).value, Parse(normal).value);
      CompactIff(normal);
    }
  }
}
