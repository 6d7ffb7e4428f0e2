/** One finding per assertion and path, and a finding for every assertion a receipt requires. */
module FindingsComplete {
  import opened Basics
  import opened Sorting
  import opened Findings
  import opened FindingsLaws
  import opened CommittedTree
  import R = FindingsReport

  type Key = (Assertion, Path)

  function Keys(findings: seq<Finding>): set<Key> {
    set f | f in findings :: (f.assertion, f.path)
  }

  ghost predicate Distinct(findings: seq<Finding>) {
    forall i, j :: 0 <= i < j < |findings| ==> !At(findings[i], findings[j].assertion, findings[j].path)
  }

  /** Findings are only added, one for a key. */
  ghost predicate Grows(s: State, t: State) {
    (Distinct(s.findings) ==> Distinct(t.findings)) && Keys(s.findings) <= Keys(t.findings)
  }

  lemma RecordGrows(s: State, a: Assertion, o: Outcome, restsOn: Option<Assertion>)
    ensures var next := Record(s, a, o, restsOn);
      Grows(s, next) && Keys(next.findings) == Keys(s.findings) + {(a, s.path)}
  {
    var i := Position(s.findings, a, s.path);
    var next := Record(s, a, o, restsOn);
    forall f | f in s.findings ensures (f.assertion, f.path) in Keys(next.findings) {
      var k :| 0 <= k < |s.findings| && s.findings[k] == f;
      assert next.findings[k] in next.findings;
    }
    assert next.findings[i] in next.findings;
    forall key | key in Keys(next.findings) ensures key in Keys(s.findings) + {(a, s.path)} {
      var k :| 0 <= k < |next.findings| && (next.findings[k].assertion, next.findings[k].path) == key;
      if k < |s.findings| {
        assert s.findings[k] in s.findings;
      }
    }
  }

  /** An operation that went on grew the findings and stayed at its path. */
  ghost predicate GrewTo(s: State, after: After) {
    Grows(s, after.state) && (after.error.None? ==> after.state.path == s.path)
  }

  lemma PassGrows(s: State, a: Assertion, also: seq<Assertion>)
    ensures var next := PassRestingOn(s, a, also);
      Grows(s, next) && next.path == s.path && (a, s.path) in Keys(next.findings)
  {
    RecordGrows(s, a, Verified, None);
    RecordGrows(s, a, Unverifiable, Unmet(Prerequisites(a) + also, s.blocked));
  }

  lemma DeferGrows(s: State, e: Rejection)
    ensures Grows(s, Defer(s, e)) && Defer(s, e).path == s.path &&
      (Attribute(s, e), s.path) in Keys(Defer(s, e).findings)
  {
    RecordGrows(s, Attribute(s, e), Class(e), None);
  }

  lemma StepGrows(s: State, step: Step)
    ensures GrewTo(s, Perform(s, step))
    ensures step.Pass? ==> (step.assertion, s.path) in Keys(Perform(s, step).state.findings)
  {
    match step {
      case Pass(a, also) => PassGrows(s, a, also);
      case Carry(e) => DeferGrows(s, e);
      case RecordGap => DeferGrows(s, UnsupportedVersion);
      case _ =>
    }
  }

  /** Every assertion passed by steps that ran to their end has its finding. */
  lemma {:induction false} StepsGrow(s: State, steps: seq<Step>)
    ensures GrewTo(s, PerformAll(s, steps))
    ensures PerformAll(s, steps).error.None? ==>
      forall step :: step in steps && step.Pass? ==>
        (step.assertion, s.path) in Keys(PerformAll(s, steps).state.findings)
    decreases |steps|
  {
    if steps != [] {
      StepGrows(s, steps[0]);
      var first := Perform(s, steps[0]);
      if first.error.None? {
        StepsGrow(first.state, steps[1..]);
        assert steps == [steps[0]] + steps[1..];
      }
    }
  }

  lemma {:induction false} ReplayGrows(s: State, findings: seq<Finding>)
    ensures Grows(s, Replay(s, findings))
    decreases |findings|
  {
    if findings != [] {
      RecordGrows(s, findings[0].assertion, findings[0].outcome, findings[0].restsOn);
      ReplayGrows(Record(s, findings[0].assertion, findings[0].outcome, findings[0].restsOn), findings[1..]);
    }
  }

  lemma BindGrows(s: State, outcome: Option<Rejection>)
    ensures GrewTo(s, SettleContentBinding(s, outcome))
  {
    if outcome.Some? {
      if outcome.value.RotationUnverifiable? {
        PassGrows(Phase(s, ContentBinding), ContentBinding, [Governance]);
        DeferGrows(PassRestingOn(Phase(s, ContentBinding), ContentBinding, [Governance]), outcome.value);
      } else {
        DeferGrows(s, outcome.value);
      }
    }
  }

  // ---------------------------------------------------------------------------
  // Whole receipts
  // ---------------------------------------------------------------------------

  /** The assertions a receipt requires. */
  predicate Required(a: Assertion, bindsContent: bool) {
    a != ContentBinding || bindsContent
  }

  ghost predicate Settled(findings: seq<Finding>, path: Path, bindsContent: bool) {
    forall a :: Required(a, bindsContent) ==> (a, path) in Keys(findings)
  }

  ghost predicate SettledEarly(findings: seq<Finding>, path: Path) {
    forall a :: a != ContentBinding && a != ClaimMaterial ==> (a, path) in Keys(findings)
  }

  lemma ProfileGrows(s: State, r: Receipt)
    ensures GrewTo(s, PerformAll(s, Profile(r)))
    ensures PerformAll(s, Profile(r)).error.None? ==>
      (AdaptorProfile, s.path) in Keys(PerformAll(s, Profile(r)).state.findings)
  {
    StepsGrow(s, Profile(r));
    var entered := Phase(s, AdaptorProfile);
    var last := if r.adaptorResolution.Some? then Carry(r.adaptorResolution.value) else Pass(AdaptorProfile, []);
    if r.adaptorMembers.None? {
      assert Profile(r) == [Enter(AdaptorProfile)] + [last];
      assert Profile(r)[1..] == [last] && [last][1..] == [];
      assert PerformAll(entered, [last]).error.None? ==>
        PerformAll(entered, [last]).state == Perform(entered, last).state;
      if r.adaptorResolution.Some? {
        DeferGrows(entered, r.adaptorResolution.value);
      } else {
        PassGrows(entered, AdaptorProfile, []);
      }
    } else {
      assert Profile(r)[1..][0] == Refuse(r.adaptorMembers.value);
    }
  }

  lemma {:induction false} PiecesGrow(s: State, pieces: seq<seq<Step>>)
    ensures GrewTo(s, PerformPieces(s, pieces))
    ensures PerformPieces(s, pieces).error.None? ==>
      forall piece, step :: piece in pieces && step in piece && step.Pass? ==>
        (step.assertion, s.path) in Keys(PerformPieces(s, pieces).state.findings)
    decreases |pieces|
  {
    if pieces != [] {
      StepsGrow(s, pieces[0]);
      var first := PerformAll(s, pieces[0]);
      if first.error.None? {
        PiecesGrow(first.state, pieces[1..]);
        assert pieces == [pieces[0]] + pieces[1..];
      }
    }
  }

  predicate Passes(steps: seq<Step>, a: Assertion) {
    exists step :: step in steps && step.Pass? && step.assertion == a
  }

  lemma EarlyPasses(r: Receipt)
    ensures Passes(Opening(r), ResourceLimits) && Passes(Opening(r), Versions)
    ensures Passes(Paths(r), Structure) && Passes(Paths(r), Anchoring) && Passes(Induction(r), Governance)
  {
    assert Pass(ResourceLimits, []) in Opening(r) && Pass(Versions, []) in Opening(r);
    assert Pass(Structure, []) in Paths(r) && Pass(Anchoring, []) in Paths(r);
    assert Pass(Governance, []) in Induction(r);
  }

  /** The assertion a piece passes has its finding once the pieces are through. */
  lemma PassedIsSettled(s: State, pieces: seq<seq<Step>>, piece: seq<Step>, a: Assertion)
    requires piece in pieces && Passes(piece, a) && PerformPieces(s, pieces).error.None?
    ensures (a, s.path) in Keys(PerformPieces(s, pieces).state.findings)
  {
    PiecesGrow(s, pieces);
  }

  lemma ProfileIsSettled(s: State, r: Receipt)
    requires Preliminaries(s, r).error.None?
    ensures (AdaptorProfile, s.path) in Keys(Preliminaries(s, r).state.findings)
  {
    var (opening, later) := (Pieces(r)[0], Pieces(r)[1..]);
    StepsGrow(s, opening);
    var first := PerformAll(s, opening);
    assert PerformPieces(s, Pieces(r)) == PerformPieces(first.state, later);
    ProfileGrows(first.state, r);
    assert later[0] == Profile(r);
    var second := PerformAll(first.state, Profile(r));
    assert PerformPieces(first.state, later) == PerformPieces(second.state, later[1..]);
    PiecesGrow(second.state, later[1..]);
  }

  /** The piece that settles an assertion by passing it. */
  function PieceFor(r: Receipt, a: Assertion): seq<Step>
    requires a != ContentBinding && a != ClaimMaterial && a != AdaptorProfile
  {
    match a
    case Versions => Opening(r)
    case ResourceLimits => Opening(r)
    case Governance => Induction(r)
    case CheckpointAuthentication => Authentication(r)
    case Witnesses => Authentication(r)
    case EnvelopeValidity => Fields(r)
    case CrossField => Consistency(r)
    case _ => Paths(r)
  }

  lemma PieceForPasses(r: Receipt, a: Assertion)
    requires a != ContentBinding && a != ClaimMaterial && a != AdaptorProfile
    ensures Passes(PieceFor(r, a), a)
  {
    EarlyPasses(r);
  }

  lemma EachIsSettled(s: State, r: Receipt, a: Assertion)
    requires Preliminaries(s, r).error.None? && a != ContentBinding && a != ClaimMaterial
    ensures (a, s.path) in Keys(Preliminaries(s, r).state.findings)
  {
    if a == AdaptorProfile {
      ProfileIsSettled(s, r);
    } else {
      PieceForPasses(r, a);
      PassedIsSettled(s, Pieces(r), PieceFor(r, a), a);
    }
  }

  lemma PreliminariesGrow(s: State, r: Receipt)
    ensures GrewTo(s, Preliminaries(s, r))
    ensures Preliminaries(s, r).error.None? ==> SettledEarly(Preliminaries(s, r).state.findings, s.path)
  {
    PiecesGrow(s, Pieces(r));
    if Preliminaries(s, r).error.None? {
      forall a: Assertion | a != ContentBinding && a != ClaimMaterial
        ensures (a, s.path) in Keys(Preliminaries(s, r).state.findings)
      {
        EachIsSettled(s, r, a);
      }
    }
  }

  lemma ClosingGrows(s: State, r: Receipt)
    ensures var after := PerformAll(s, Closing(r));
      && GrewTo(s, after)
      && (after.error.None? ==> (ClaimMaterial, s.path) in Keys(after.state.findings))
      && (after.error.None? && r.bindsContent ==> (ContentBinding, s.path) in Keys(after.state.findings))
  {
    StepsGrow(s, Closing(r));
    var also := if r.authorityDependent then [Governance, EnvelopeValidity] else [];
    assert Closing(r)[1] == Pass(ClaimMaterial, also) && Closing(r)[1] in Closing(r);
    assert r.bindsContent ==> Closing(r)[2] == Pass(ContentBinding, []) && Closing(r)[2] in Closing(r);
  }

  lemma {:induction false} NestedGrows(s: State, r: Receipt)
    ensures GrewTo(s, VerifyNested(s, r))
    ensures VerifyNested(s, r).error.None? ==> Settled(VerifyNested(s, r).state.findings, s.path, r.bindsContent)
    decreases r, 0
  {
    var start := s.(blocked := [], scope := None);
    PreliminariesGrow(start, r);
    var before := Preliminaries(start, r);
    if before.error.None? {
      MaterialGrows(before.state, r.material);
      var claimed := VerifyMaterial(before.state, r.material);
      if claimed.error.None? {
        ClosingGrows(claimed.state, r);
      }
    }
  }

  lemma {:induction false} MaterialGrows(s: State, m: Material)
    ensures GrewTo(s, VerifyMaterial(s, m))
    decreases m, 0
  {
    match m {
      case Done =>
      case Bind(phase, outcome) =>
        BindGrows(Phase(s, phase), outcome);
      case Do(step, next) =>
        StepGrows(s, step);
        if Perform(s, step).error.None? {
          MaterialGrows(Perform(s, step).state, next);
        }
      case Embed(slot, digest, inner, after) =>
        EmbeddedGrows(s, slot, digest, inner);
        var embedded := Embedded(s, slot, digest, inner);
        if embedded.error.None? {
          MaterialGrows(embedded.state, after);
        }
    }
  }

  lemma {:induction false} EmbeddedGrows(s: State, slot: string, digest: string, inner: Receipt)
    ensures GrewTo(s, Embedded(s, slot, digest, inner))
    decreases inner, 1
  {
    var descended := s.(path := s.path + [slot]);
    if digest in s.verified {
      ReplayGrows(descended, s.verified[digest]);
    } else {
      NestedGrows(descended, inner);
    }
  }

  lemma {:induction false} FillSettles(s: State, rest: seq<Assertion>, bindsContent: bool, stoppedAt: Assertion)
    requires s.path == []
    ensures var filled := FillFrom(s, rest, bindsContent, stoppedAt);
      && Grows(s, filled)
      && forall a :: a in rest && Required(a, bindsContent) ==> (a, []) in Keys(filled.findings)
    decreases |rest|
  {
    if rest != [] {
      var (a, later) := (rest[0], rest[1..]);
      var i := Position(s.findings, a, []);
      assert rest == [a] + later;
      if a == ContentBinding && !bindsContent {
        FillSettles(s, later, bindsContent, stoppedAt);
      } else if i < |s.findings| {
        assert s.findings[i] in s.findings && (a, []) in Keys(s.findings);
        FillSettles(s, later, bindsContent, stoppedAt);
      } else {
        RecordGrows(s, a, Unverifiable, Some(stoppedAt));
        FillSettles(Record(s, a, Unverifiable, Some(stoppedAt)), later, bindsContent, stoppedAt);
      }
    }
  }

  lemma FinalGrows(end: After, bindsContent: bool)
    requires Distinct(end.state.findings)
    ensures Distinct(FinalState(end, bindsContent).findings)
    ensures end.error.Some? && Class(end.error.value) == Unverifiable ==>
      Settled(FinalState(end, bindsContent).findings, [], bindsContent)
  {
    if end.error.Some? {
      var stoppedAt := Attribute(end.state, end.error.value);
      RecordGrows(end.state, stoppedAt, Class(end.error.value), None);
      if Class(end.error.value) == Unverifiable {
        var recorded := Record(end.state, stoppedAt, Unverifiable, None).(path := []);
        FillSettles(recorded, ORDER, bindsContent, stoppedAt);
        forall a | Required(a, bindsContent)
          ensures (a, []) in Keys(FinalState(end, bindsContent).findings)
        {
        }
      }
    }
  }

  lemma SortKeepsKeys(findings: seq<Finding>)
    ensures Keys(StableSort(findings, ReportOrder())) == Keys(findings)
  {
    SortSorts(findings, ReportOrder());
    MultisetMembers(StableSort(findings, ReportOrder()), findings);
  }

  /** Two findings of one key in a sorted list would have been two in the list it came from. */
  lemma SortKeepsDistinct(findings: seq<Finding>, i: nat, j: nat)
    requires Distinct(findings) && i < j < |StableSort(findings, ReportOrder())|
    ensures var sorted := StableSort(findings, ReportOrder());
      !At(sorted[i], sorted[j].assertion, sorted[j].path)
  {
    var sorted := StableSort(findings, ReportOrder());
    SortSorts(findings, ReportOrder());
    MultisetMembers(sorted, findings);
    if At(sorted[i], sorted[j].assertion, sorted[j].path) {
      assert sorted[i] in sorted && sorted[j] in sorted;
      var k :| 0 <= k < |findings| && findings[k] == sorted[i];
      var l :| 0 <= l < |findings| && findings[l] == sorted[j];
      if k == l {
        k, l := RepeatSurvives(findings, sorted, i, j);
      }
    }
  }

  /** A report holds one finding for a key, and, unless the result is a defect, one for every assertion required. */
  lemma ReportIsComplete(rootVersion: Option<Rejection>, decodedTooLarge: bool, r: Receipt)
    requires ReceiptOk(r)
    ensures var report := VerifyReceiptReport(rootVersion, decodedTooLarge, r);
      && Distinct(report.findings)
      && (report.result != Invalid ==> Settled(report.findings, [], r.bindsContent))
  {
    var end := VerifyRoot(rootVersion, decodedTooLarge, r);
    if rootVersion.None? && !decodedTooLarge {
      NestedGrows(FRESH, r);
    }
    FinalGrows(end, r.bindsContent);
    var findings := FinalState(end, r.bindsContent).findings;
    SortKeepsKeys(findings);
    var sorted := StableSort(findings, ReportOrder());
    forall i, j | 0 <= i < j < |sorted| ensures !At(sorted[i], sorted[j].assertion, sorted[j].path) {
      SortKeepsDistinct(findings, i, j);
    }
    R.RootKeeps(rootVersion, decodedTooLarge, r);
    R.ReportReduces(end, r);
  }

  // ---------------------------------------------------------------------------
  // The order of a report
  // ---------------------------------------------------------------------------

  lemma {:induction false} PathOrderIsTotal(p: Path, q: Path)
    ensures PathBefore(p, q) ==> !PathBefore(q, p)
    ensures !PathBefore(p, q) && !PathBefore(q, p) <==> p == q
    decreases |p|
  {
    if p != [] && q != [] {
      BeforeIsTotal(p[0], q[0]);
      PathOrderIsTotal(p[1..], q[1..]);
      assert p == [p[0]] + p[1..] && q == [q[0]] + q[1..];
    }
  }

  lemma {:induction false} PathOrderIsTransitive(p: Path, q: Path, r: Path)
    requires PathBefore(p, q) && PathBefore(q, r)
    ensures PathBefore(p, r)
    decreases |p|
  {
    if p != [] {
      if Before(p[0], q[0]) && Before(q[0], r[0]) {
        BeforeIsTransitive(p[0], q[0], r[0]);
      } else if p[0] == q[0] == r[0] {
        PathOrderIsTransitive(p[1..], q[1..], r[1..]);
      }
    }
  }

  lemma KeyOrderIsTotal(f: Finding, g: Finding)
    ensures ReportOrder()(f, g) ==> !ReportOrder()(g, f)
    ensures !ReportOrder()(f, g) && !ReportOrder()(g, f) <==> f.path == g.path && f.assertion == g.assertion
  {
    PathOrderIsTotal(f.path, g.path);
  }

  lemma KeyOrderIsTransitive(f: Finding, g: Finding, h: Finding)
    requires ReportOrder()(f, g) && ReportOrder()(g, h)
    ensures ReportOrder()(f, h)
  {
    if PathBefore(f.path, g.path) && PathBefore(g.path, h.path) {
      PathOrderIsTransitive(f.path, g.path, h.path);
    }
  }

  lemma ReportOrderIsOrder()
    ensures StrictWeakOrder(ReportOrder())
  {
    var less := ReportOrder();
    forall f: Finding, g: Finding ensures less(f, g) ==> !less(g, f) {
      KeyOrderIsTotal(f, g);
    }
    forall f: Finding, g: Finding, h: Finding ensures less(f, g) && less(g, h) ==> less(f, h) {
      if less(f, g) && less(g, h) {
        KeyOrderIsTransitive(f, g, h);
      }
    }
    forall f: Finding, g: Finding, h: Finding ensures less(f, h) ==> less(f, g) || less(g, h) {
      KeyOrderIsTotal(f, g);
      if less(f, h) && less(g, f) {
        KeyOrderIsTransitive(g, f, h);
      }
    }
  }

  /** A report lists its findings strictly by path, the receipt's own first, and then in the order of the algorithm. */
  lemma ReportIsOrdered(rootVersion: Option<Rejection>, decodedTooLarge: bool, r: Receipt)
    requires ReceiptOk(r)
    ensures StrictlySorted(VerifyReceiptReport(rootVersion, decodedTooLarge, r).findings, ReportOrder())
  {
    var sorted := VerifyReceiptReport(rootVersion, decodedTooLarge, r).findings;
    ReportIsComplete(rootVersion, decodedTooLarge, r);
    ReportOrderIsOrder();
    SortSorts(FinalState(VerifyRoot(rootVersion, decodedTooLarge, r), r.bindsContent).findings, ReportOrder());
    forall i, j | 0 <= i < j < |sorted| ensures ReportOrder()(sorted[i], sorted[j]) {
      KeyOrderIsTotal(sorted[i], sorted[j]);
      assert !ReportOrder()(sorted[j], sorted[i]);
    }
  }
}
