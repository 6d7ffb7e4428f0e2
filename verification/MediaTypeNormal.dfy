/** The normal form of a media type: what it is, that it is one, and which declarations share it. */
module MediaTypeNormal {
  import opened Basics
  import opened Sorting
  import opened CommittedTree
  import opened MediaType

  function LowerName(p: Param): Param {
    p.(name := Lower(p.name))
  }

  function LowerCharset(p: Param): Param {
    if p.name == "charset" then p.(value := Lower(p.value)) else p
  }

  /** A parameter as the normal form carries it. */
  function Normal(p: Param): Param {
    LowerCharset(LowerName(p))
  }

  function Each(ps: seq<Param>, f: Param -> Param): (r: seq<Param>)
    ensures |r| == |ps| && forall i :: 0 <= i < |ps| ==> r[i] == f(ps[i])
    decreases |ps|
  {
    if ps == [] then [] else [f(ps[0])] + Each(ps[1..], f)
  }

  function ByName(): (Param, Param) -> bool {
    (a: Param, b: Param) => Before(a.name, b.name)
  }

  /** The lowercased, name-sorted form of what a declaration means. */
  function Canonical(p: Parsed): Parsed {
    Parsed(Lower(p.mainType), Lower(p.subtype), StableSort(Each(p.params, Normal), ByName()))
  }

  predicate AdjacentRepeat(ps: seq<Param>) {
    exists i :: 0 < i < |ps| && ps[i - 1].name == ps[i].name
  }

  function Bare(ps: seq<Param>): (ws: seq<Written>)
    ensures |ws| == |ps| && forall i :: 0 <= i < |ps| ==> ws[i] == Written([], [], ps[i])
    decreases |ps|
  {
    if ps == [] then [] else [Written([], [], ps[0])] + Bare(ps[1..])
  }

  /** The text of a parsed media type with no whitespace. */
  function Compact(p: Parsed): string {
    Text(Declaration(p.mainType, p.subtype, Bare(p.params)))
  }

  function Normalize(raw: string): Result<string, SyntaxError> {
    var parsed := Parse(raw);
    if parsed.Err? then Err(parsed.error)
    else
      var canonical := Canonical(parsed.value);
      if AdjacentRepeat(canonical.params) then Err(DuplicateParam) else Ok(Compact(canonical))
  }

  // ---------------------------------------------------------------------------
  // The order of names
  // ---------------------------------------------------------------------------

  lemma NameOrder()
    ensures StrictWeakOrder(ByName())
  {
    var less := ByName();
    forall a: Param, b: Param ensures less(a, b) ==> !less(b, a) {
      BeforeIsTotal(a.name, b.name);
    }
    forall a: Param, b: Param, c: Param
      ensures less(a, b) && less(b, c) ==> less(a, c)
      ensures less(a, c) ==> less(a, b) || less(b, c)
    {
      BeforeIsTotal(a.name, b.name);
      BeforeIsTotal(b.name, c.name);
      if less(a, b) && less(b, c) {
        BeforeIsTransitive(a.name, b.name, c.name);
      }
      if less(a, c) && less(b, a) {
        BeforeIsTransitive(b.name, a.name, c.name);
      }
    }
  }

  predicate Ascends(ps: seq<Param>) {
    forall i, j :: 0 <= i < j < |ps| ==> Before(ps[i].name, ps[j].name)
  }

  lemma {:induction false} AscendsWithoutRepeat(ps: seq<Param>, i: nat, j: nat)
    requires Sorted(ps, ByName()) && !AdjacentRepeat(ps) && i < j < |ps|
    ensures Before(ps[i].name, ps[j].name)
    decreases j
  {
    BeforeIsTotal(ps[j - 1].name, ps[j].name);
    assert !ByName()(ps[j], ps[j - 1]);
    if i < j - 1 {
      AscendsWithoutRepeat(ps, i, j - 1);
      BeforeIsTransitive(ps[i].name, ps[j - 1].name, ps[j].name);
    }
  }

  /** A sorted list ascends strictly by name exactly when no two neighbours share one, and then no two at all do. */
  lemma AscendsIffNoRepeat(ps: seq<Param>)
    requires Sorted(ps, ByName())
    ensures !AdjacentRepeat(ps) <==> Ascends(ps)
    ensures Ascends(ps) ==> forall i, j :: 0 <= i < j < |ps| ==> ps[i].name != ps[j].name
  {
    if !AdjacentRepeat(ps) {
      forall i, j | 0 <= i < j < |ps| ensures Before(ps[i].name, ps[j].name) {
        AscendsWithoutRepeat(ps, i, j);
      }
    }
    if Ascends(ps) {
      forall i, j | 0 <= i < j < |ps| ensures ps[i].name != ps[j].name {
        BeforeIsTotal(ps[i].name, ps[j].name);
      }
    }
  }

  lemma CanonicalSorts(p: Parsed)
    ensures multiset(Canonical(p).params) == multiset(Each(p.params, Normal))
    ensures Sorted(Canonical(p).params, ByName())
  {
    NameOrder();
    SortSorts(Each(p.params, Normal), ByName());
  }

  // ---------------------------------------------------------------------------
  // The normal form is one
  // ---------------------------------------------------------------------------

  predicate ParsedOk(p: Parsed) {
    IsToken(p.mainType) && IsToken(p.subtype) && forall q :: q in p.params ==> ParamOk(q)
  }

  predicate LowerOk(p: Parsed) {
    && Lower(p.mainType) == p.mainType && Lower(p.subtype) == p.subtype
    && forall q :: q in p.params ==> Normal(q) == q
  }

  lemma NormalIsNormal(p: Param)
    requires ParamOk(p)
    ensures ParamOk(Normal(p)) && Normal(Normal(p)) == Normal(p)
  {
    LowerToken(p.name);
    LowerToken(p.value);
  }

  predicate ParamOk(q: Param) {
    IsToken(q.name) && IsToken(q.value)
  }

  lemma MemberOfEach(ps: seq<Param>, q: Param) returns (p: Param)
    requires q in Each(ps, Normal)
    ensures p in ps && q == Normal(p)
  {
    var i :| 0 <= i < |ps| && Each(ps, Normal)[i] == q;
    p := ps[i];
  }

  lemma CanonicalOk(p: Parsed)
    requires ParsedOk(p)
    ensures ParsedOk(Canonical(p)) && LowerOk(Canonical(p))
  {
    LowerToken(p.mainType);
    LowerToken(p.subtype);
    CanonicalSorts(p);
    MultisetMembers(Canonical(p).params, Each(p.params, Normal));
    forall q | q in Canonical(p).params ensures ParamOk(q) && Normal(q) == q {
      var source := MemberOfEach(p.params, q);
      NormalIsNormal(source);
    }
  }

  lemma ParsedIsOk(raw: string)
    requires Parse(raw).Ok?
    ensures ParsedOk(Parse(raw).value)
  {
    var d := TextOfParse(raw);
    assert Parse(raw).value.params == ParamsOf(d.written);
  }

  lemma ParseOfCompact(p: Parsed)
    requires ParsedOk(p)
    ensures Parse(Compact(p)) == Ok(p)
  {
    var d := Declaration(p.mainType, p.subtype, Bare(p.params));
    forall i | 0 <= i < |d.written| ensures WrittenOk(d.written[i]) {
      assert p.params[i] in p.params;
    }
    ParseOfText(d);
    assert ParamsOf(d.written) == p.params;
  }

  lemma EachIsSame(ps: seq<Param>)
    requires forall q :: q in ps ==> Normal(q) == q
    ensures Each(ps, Normal) == ps
  {
    forall i | 0 <= i < |ps| ensures Each(ps, Normal)[i] == ps[i] {
      assert ps[i] in ps;
    }
  }

  /** The output parses again, to exactly the lowercased tokens in strictly ascending order of name. */
  lemma OutputParsesToCanonical(raw: string)
    requires Normalize(raw).Ok?
    ensures Parse(raw).Ok?
    ensures Parse(Normalize(raw).value) == Ok(Canonical(Parse(raw).value))
    ensures StrictlySorted(Canonical(Parse(raw).value).params, ByName())
    ensures LowerOk(Canonical(Parse(raw).value))
  {
    var p := Parse(raw).value;
    ParsedIsOk(raw);
    CanonicalOk(p);
    CanonicalSorts(p);
    AscendsIffNoRepeat(Canonical(p).params);
    ParseOfCompact(Canonical(p));
  }

  /** Normalizing again changes nothing. */
  lemma NormalizeIsIdempotent(raw: string)
    requires Normalize(raw).Ok?
    ensures Normalize(Normalize(raw).value) == Normalize(raw)
  {
    OutputParsesToCanonical(raw);
    var c := Canonical(Parse(raw).value);
    EachIsSame(c.params);
    NameOrder();
    SortFindsStrictOrder(c.params, c.params, ByName());
  }

  // ---------------------------------------------------------------------------
  // Which declarations share a normal form
  // ---------------------------------------------------------------------------

  /** Equal but for case where case does not matter, and for the order of the parameters. */
  ghost predicate Alike(a: Parsed, b: Parsed) {
    && Lower(a.mainType) == Lower(b.mainType) && Lower(a.subtype) == Lower(b.subtype)
    && multiset(Each(a.params, Normal)) == multiset(Each(b.params, Normal))
  }

  ghost predicate HasRepeat(p: Parsed) {
    exists i, j :: 0 <= i < j < |p.params| && Lower(p.params[i].name) == Lower(p.params[j].name)
  }

  /** Two places with one name are found in any rearrangement. */
  lemma RepeatTravels(from: seq<Param>, to: seq<Param>, i: nat, j: nat) returns (k: nat, l: nat)
    requires multiset(from) == multiset(to) && i < j < |from| && from[i].name == from[j].name
    ensures k < l < |to| && to[k].name == to[l].name == from[i].name
  {
    MultisetMembers(from, to);
    assert from[i] in from && from[j] in from;
    k :| 0 <= k < |to| && to[k] == from[i];
    l :| 0 <= l < |to| && to[l] == from[j];
    if k == l {
      k, l := RepeatSurvives(to, from, i, j);
    }
    if l < k {
      k, l := l, k;
    }
  }

  lemma RepeatFound(p: Parsed)
    requires HasRepeat(p)
    ensures AdjacentRepeat(Canonical(p).params)
  {
    var i, j :| 0 <= i < j < |p.params| && Lower(p.params[i].name) == Lower(p.params[j].name);
    CanonicalSorts(p);
    NormalName(p.params[i]);
    NormalName(p.params[j]);
    assert Each(p.params, Normal)[i] == Normal(p.params[i]) && Each(p.params, Normal)[j] == Normal(p.params[j]);
    SortedShowsRepeat(Each(p.params, Normal), Canonical(p).params, i, j);
  }

  lemma NormalName(p: Param)
    ensures Normal(p).name == Lower(p.name)
  {
  }

  lemma SortedShowsRepeat(ps: seq<Param>, sorted: seq<Param>, i: nat, j: nat)
    requires multiset(ps) == multiset(sorted) && Sorted(sorted, ByName())
    requires i < j < |ps| && ps[i].name == ps[j].name
    ensures AdjacentRepeat(sorted)
  {
    AscendsIffNoRepeat(sorted);
    var k, l := RepeatTravels(ps, sorted, i, j);
  }

  lemma RepeatReal(p: Parsed)
    requires AdjacentRepeat(Canonical(p).params)
    ensures HasRepeat(p)
  {
    var (normal, sorted) := (Each(p.params, Normal), Canonical(p).params);
    CanonicalSorts(p);
    var i :| 0 < i < |sorted| && sorted[i - 1].name == sorted[i].name;
    var k, l := RepeatTravels(sorted, normal, i - 1, i);
    assert Lower(p.params[k].name) == Lower(p.params[l].name);
  }

  /** A declaration is refused for a repeated name exactly when two of its names agree up to case. */
  lemma RefusedForRepeatIff(raw: string)
    requires Parse(raw).Ok?
    ensures Normalize(raw) == Err(DuplicateParam) <==> HasRepeat(Parse(raw).value)
    ensures Normalize(raw).Ok? <==> !HasRepeat(Parse(raw).value)
  {
    var p := Parse(raw).value;
    if HasRepeat(p) {
      RepeatFound(p);
    } else if AdjacentRepeat(Canonical(p).params) {
      RepeatReal(p);
    }
  }

  lemma AlikeSameCanonical(a: Parsed, b: Parsed)
    requires Alike(a, b)
    ensures AdjacentRepeat(Canonical(a).params) <==> AdjacentRepeat(Canonical(b).params)
    ensures !AdjacentRepeat(Canonical(a).params) ==> Canonical(a) == Canonical(b)
  {
    CanonicalSorts(a);
    CanonicalSorts(b);
    AscendsIffNoRepeat(Canonical(a).params);
    AscendsIffNoRepeat(Canonical(b).params);
    NameOrder();
    if StrictlySorted(Canonical(a).params, ByName()) {
      StrictlySortedUnique(Canonical(a).params, Canonical(b).params, ByName());
    } else if StrictlySorted(Canonical(b).params, ByName()) {
      StrictlySortedUnique(Canonical(b).params, Canonical(a).params, ByName());
    }
  }

  /** Order, whitespace and the case of names do not matter: declarations that mean alike normalize alike. */
  lemma SpellingDoesNotMatter(a: Declaration, b: Declaration)
    requires DeclarationOk(a) && DeclarationOk(b) && Alike(Meaning(a), Meaning(b))
    ensures Normalize(Text(a)) == Normalize(Text(b))
  {
    ParseOfText(a);
    ParseOfText(b);
    AlikeSameCanonical(Meaning(a), Meaning(b));
  }

  /** Two media types have one normal form exactly when they mean alike. */
  lemma SameNormalFormIff(a: string, b: string)
    requires Normalize(a).Ok? && Normalize(b).Ok?
    ensures Parse(a).Ok? && Parse(b).Ok?
    ensures Normalize(a) == Normalize(b) <==> Alike(Parse(a).value, Parse(b).value)
  {
    OutputParsesToCanonical(a);
    OutputParsesToCanonical(b);
    CanonicalSorts(Parse(a).value);
    CanonicalSorts(Parse(b).value);
    if Alike(Parse(a).value, Parse(b).value) {
      AlikeSameCanonical(Parse(a).value, Parse(b).value);
    }
  }

  // ---------------------------------------------------------------------------
  // The procedure, in the order it runs
  // ---------------------------------------------------------------------------

  lemma {:induction false} InsertThenLower(p: Param, ps: seq<Param>)
    ensures Insert(LowerCharset(p), Each(ps, LowerCharset), ByName()) == Each(Insert(p, ps, ByName()), LowerCharset)
    decreases |ps|
  {
    if ps != [] && ByName()(ps[0], p) {
      InsertThenLower(p, ps[1..]);
      var inserted := Insert(p, ps[1..], ByName());
      assert ([ps[0]] + inserted)[1..] == inserted;
    } else {
      assert ([p] + ps)[1..] == ps;
    }
  }

  /** Lowering `charset` values before or after the sort is the same, since only names are compared. */
  lemma {:induction false} SortThenLower(ps: seq<Param>)
    ensures StableSort(Each(ps, Normal), ByName()) == Each(StableSort(Each(ps, LowerName), ByName()), LowerCharset)
    decreases |ps|
  {
    if ps != [] {
      SortThenLower(ps[1..]);
      InsertThenLower(LowerName(ps[0]), StableSort(Each(ps[1..], LowerName), ByName()));
    }
  }

  function Separated(p: Param): string {
    ";" + (p.name + ("=" + p.value))
  }

  lemma SpellBare(p: Param, rest: string)
    ensures Spell(Written([], [], p), rest) == Separated(p) + rest
  {
    var valued := "=" + p.value;
    assert "=" + (p.value + rest) == valued + rest;
    assert p.name + (valued + rest) == (p.name + valued) + rest;
    var named := p.name + valued;
    assert [] + (named + rest) == named + rest;
    assert ";" + (named + rest) == (";" + named) + rest;
    assert [] + (";" + (named + rest)) == ";" + (named + rest);
  }

  lemma BareStarts(ps: seq<Param>)
    requires ps != []
    ensures SpellAll(Bare(ps)) == Separated(ps[0]) + SpellAll(Bare(ps[1..]))
  {
    assert Bare(ps)[1..] == Bare(ps[1..]);
    SpellBare(ps[0], SpellAll(Bare(ps[1..])));
  }

  lemma {:induction false} BareGrows(ps: seq<Param>, p: Param)
    ensures SpellAll(Bare(ps + [p])) == SpellAll(Bare(ps)) + Separated(p)
    decreases |ps|
  {
    var all := ps + [p];
    if ps == [] {
      assert all[1..] == [];
    } else {
      assert all[1..] == ps[1..] + [p];
      BareGrows(ps[1..], p);
      BareStarts(all);
      BareStarts(ps);
      assert Separated(ps[0]) + (SpellAll(Bare(ps[1..])) + Separated(p))
          == Separated(ps[0]) + SpellAll(Bare(ps[1..])) + Separated(p);
    }
  }

  /** The parameters written out, `charset` values lowercased on the way. */
  method WriteParams(params: seq<Param>) returns (text: string)
    ensures text == SpellAll(Bare(Each(params, LowerCharset)))
  {
    text := [];
    ghost var lowered := Each(params, LowerCharset);
    for i := 0 to |params|
      invariant text == SpellAll(Bare(lowered[..i]))
    {
      BareGrows(lowered[..i], lowered[i]);
      assert lowered[..i + 1] == lowered[..i] + [lowered[i]];
      text := text + Separated(LowerCharset(params[i]));
    }
    assert lowered[..|params|] == lowered;
  }

  lemma RepeatUnaffected(params: seq<Param>)
    ensures AdjacentRepeat(Each(params, LowerCharset)) <==> AdjacentRepeat(params)
  {
    var lowered := Each(params, LowerCharset);
    assert forall i :: 0 <= i < |params| ==> lowered[i].name == params[i].name;
    if AdjacentRepeat(params) {
      var i :| 0 < i < |params| && params[i - 1].name == params[i].name;
      assert lowered[i - 1].name == lowered[i].name;
    }
  }

  method ValidateMediaType(raw: string) returns (r: Result<string, SyntaxError>)
    ensures r == Normalize(raw)
  {
    var parsed := ParseMediaType(raw);
    if parsed.Err? {
      return Err(parsed.error);
    }
    var p := parsed.value;
    var params := StableSort(Each(p.params, LowerName), ByName());
    SortThenLower(p.params);
    RepeatUnaffected(params);
    if AdjacentRepeat(params) {
      return Err(DuplicateParam);
    }
    var written := WriteParams(params);
    return Ok(Lower(p.mainType) + ("/" + (Lower(p.subtype) + written)));
  }
}
