/** The findings machine said by outcomes: what is recorded, what ends a run, and what a finding may rest on. */
module FindingsMeaning {
  import opened Basics
  import opened Sorting
  import opened Findings
  import opened FindingsLaws
  import opened FindingsComplete
  import opened FindingsRest
  import opened CommittedTree
  import R = FindingsReport

  // ---------------------------------------------------------------------------
  // One operation
  // ---------------------------------------------------------------------------

  /** A defect dominates a gap, and a gap a finding that holds. */
  predicate Dominates(o: Outcome, p: Outcome) {
    (o == Invalid && p != Invalid) || (o == Unverifiable && p == Verified)
  }

  /** Recording touches one place: there the finding is made, or replaced by a dominating one. */
  lemma RecordIs(s: State, a: Assertion, o: Outcome, restsOn: Option<Assertion>)
    requires Distinct(s.findings)
    ensures var (next, recorded) := (Record(s, a, o, restsOn), Finding(a, s.path, o, restsOn));
      && next == s.(findings := next.findings)
      && (forall f: Finding :: f.assertion != a || f.path != s.path ==> (f in next.findings <==> f in s.findings))
      && (forall f: Finding :: f.assertion == a && f.path == s.path ==> (f in next.findings <==>
            if exists g :: g in s.findings && g.assertion == a && g.path == s.path && !Dominates(o, g.outcome)
            then f in s.findings else f == recorded))
  {
    var i := Position(s.findings, a, s.path);
    var next := Record(s, a, o, restsOn);
    if i == |s.findings| {
      assert next.findings[i] == Finding(a, s.path, o, restsOn);
    } else {
      assert s.findings[i] in s.findings;
      assert next.findings[i] in next.findings;
      forall f | f in s.findings && f != s.findings[i] ensures f in next.findings && !At(f, a, s.path) {
        var k :| 0 <= k < |s.findings| && s.findings[k] == f;
        assert next.findings[k] == f;
      }
      forall f | f in next.findings && f != next.findings[i] ensures f in s.findings && !At(f, a, s.path) {
        var k :| 0 <= k < |next.findings| && next.findings[k] == f;
        assert s.findings[k] == f;
      }
    }
  }

  /** The assertion a rejection is about: the running phase, or what it names; a spent budget always names itself. */
  predicate IsAbout(s: State, e: Rejection, a: Assertion) {
    match e
    case BudgetExhausted => a == ResourceLimits
    case Defect(named) => a == (if s.scope.Some? then s.scope.value else named)
    case CapabilityGap(named) => a == (if s.scope.Some? then s.scope.value else named)
    case UnsupportedVersion => a == (if s.scope.Some? then s.scope.value else Versions)
    case RotationUnverifiable => a == (if s.scope.Some? then s.scope.value else Governance)
  }

  /** The single exception: a defect of the content binding of an embedded receipt. */
  predicate IsForgiven(s: State, e: Rejection) {
    e.Defect? && s.path != [] && IsAbout(s, e, ContentBinding)
  }

  lemma AboutIs(s: State, e: Rejection, a: Assertion)
    requires IsAbout(s, e, a)
    ensures Attribute(s, e) == a
    ensures Class(e) == if e.Defect? then Invalid else Unverifiable
  {
  }

  /** Which rejections end a run: an unsupported version, a spent budget, and a defect but the one exception. */
  lemma HandedBackIff(s: State, e: Rejection)
    ensures Tolerate(s, e).error.Some? <==>
      e.UnsupportedVersion? || e.BudgetExhausted? || (e.Defect? && !IsForgiven(s, e))
    ensures Tolerate(s, e).error.Some? ==> Tolerate(s, e) == After(s, Some(e))
  {
  }

  /** Any other is recorded as a cause under what it is about, blocks it, and is kept for the single value. */
  lemma CarriedPastAs(s: State, e: Rejection, a: Assertion)
    requires IsAbout(s, e, a) && Tolerate(s, e).error.None?
    ensures var next := Tolerate(s, e).state;
      && next.findings == Record(s, a, if e.Defect? then Invalid else Unverifiable, None).findings
      && next.deferred == s.deferred + [Tolerated(a, s.path, e)]
      && (forall b :: b in next.blocked <==> b in s.blocked || b == a)
      && next.path == s.path && next.scope == s.scope && next.verified == s.verified
  {
    AboutIs(s, e, a);
    var recorded := Record(s, a, if e.Defect? then Invalid else Unverifiable, None);
    assert recorded == s.(findings := recorded.findings);
    assert Defer(s, e) == Block(recorded.(deferred := s.deferred + [Tolerated(a, s.path, e)]), a);
  }

  /** Only an embedded receipt's content binding does not enter the reduction. */
  lemma CountsIff(f: Finding)
    ensures CountsFinding(f) <==> f.path == [] || f.assertion != ContentBinding
  {
  }

  // ---------------------------------------------------------------------------
  // What a finding may rest on
  // ---------------------------------------------------------------------------

  /** What an assertion may be reported as resting on, by name. */
  predicate MayRestOn(a: Assertion, q: Assertion, unevaluated: seq<Assertion>) {
    match a
    case CheckpointAuthentication => q in {AdaptorProfile, Governance}
    case Witnesses => q in {AdaptorProfile, Governance, CheckpointAuthentication}
    case EnvelopeValidity => q == Governance
    case ClaimMaterial => q in {Governance, EnvelopeValidity}
    case ContentBinding => q == Governance
    case CrossField => q in unevaluated
    case _ => false
  }

  ghost predicate RestsByName(findings: seq<Finding>, path: Path, unevaluated: seq<Assertion>) {
    forall f :: f in findings && f.path == path && f.restsOn.Some? ==>
      MayRestOn(f.assertion, f.restsOn.value, unevaluated)
  }

  /** A step that passes nothing but what may rest on what it names. */
  predicate NamesRests(step: Step, unevaluated: seq<Assertion>) {
    step.Pass? ==> forall q :: q in Prerequisites(step.assertion) + step.also ==>
      MayRestOn(step.assertion, q, unevaluated)
  }

  lemma StepRestsByName(s: State, step: Step, unevaluated: seq<Assertion>)
    requires RestsByName(s.findings, s.path, unevaluated) && NamesRests(step, unevaluated)
    requires Perform(s, step).error.None?
    ensures var next := Perform(s, step).state; next.path == s.path && RestsByName(next.findings, s.path, unevaluated)
  {
    match step {
      case Pass(a, also) =>
        RecordEffect(s, a, Verified, None);
        RecordEffect(s, a, Unverifiable, Unmet(Prerequisites(a) + also, s.blocked));
      case Carry(e) =>
        RecordEffect(s, Attribute(s, e), Class(e), None);
      case RecordGap =>
        RecordEffect(s, Attribute(s, UnsupportedVersion), Unverifiable, None);
      case _ =>
    }
  }

  lemma {:induction false} StepsRestByName(s: State, steps: seq<Step>, unevaluated: seq<Assertion>)
    requires RestsByName(s.findings, s.path, unevaluated) && PerformAll(s, steps).error.None?
    requires forall step :: step in steps ==> NamesRests(step, unevaluated)
    ensures var next := PerformAll(s, steps).state;
      next.path == s.path && RestsByName(next.findings, s.path, unevaluated)
    decreases |steps|
  {
    if steps != [] {
      assert steps[0] in steps;
      StepRestsByName(s, steps[0], unevaluated);
      StepsRestByName(Perform(s, steps[0]).state, steps[1..], unevaluated);
    }
  }

  predicate PieceNamesRests(piece: seq<Step>, unevaluated: seq<Assertion>) {
    forall step :: step in piece ==> NamesRests(step, unevaluated)
  }

  lemma {:induction false} PiecesRestByName(s: State, pieces: seq<seq<Step>>, unevaluated: seq<Assertion>)
    requires RestsByName(s.findings, s.path, unevaluated) && PerformPieces(s, pieces).error.None?
    requires forall piece :: piece in pieces ==> PieceNamesRests(piece, unevaluated)
    ensures var next := PerformPieces(s, pieces).state;
      next.path == s.path && RestsByName(next.findings, s.path, unevaluated)
    decreases |pieces|
  {
    if pieces != [] {
      assert pieces[0] in pieces;
      StepsRestByName(s, pieces[0], unevaluated);
      PiecesRestByName(PerformAll(s, pieces[0]).state, pieces[1..], unevaluated);
    }
  }

  lemma BindRestsByName(s: State, outcome: Option<Rejection>, unevaluated: seq<Assertion>)
    requires RestsByName(s.findings, s.path, unevaluated) && SettleContentBinding(s, outcome).error.None?
    ensures var next := SettleContentBinding(s, outcome).state;
      next.path == s.path && RestsByName(next.findings, s.path, unevaluated)
  {
    if outcome.Some? {
      if outcome.value.RotationUnverifiable? {
        var entered := Phase(s, ContentBinding);
        StepRestsByName(entered, Pass(ContentBinding, [Governance]), unevaluated);
        StepRestsByName(
          PassRestingOn(entered, ContentBinding, [Governance]), Carry(outcome.value), unevaluated);
      } else {
        StepRestsByName(s, Carry(outcome.value), unevaluated);
      }
    }
  }

  lemma {:induction false} MaterialRestsByName(s: State, m: Material, unevaluated: seq<Assertion>)
    requires MaterialPhases(m) && RestsByName(s.findings, s.path, unevaluated) && VerifyMaterial(s, m).error.None?
    ensures var next := VerifyMaterial(s, m).state;
      next.path == s.path && RestsByName(next.findings, s.path, unevaluated)
    decreases m
  {
    match m {
      case Done =>
      case Bind(phase, outcome) =>
        BindRestsByName(Phase(s, phase), outcome, unevaluated);
      case Do(step, next) =>
        StepRestsByName(s, step, unevaluated);
        MaterialRestsByName(Perform(s, step).state, next, unevaluated);
      case Embed(slot, digest, inner, after) =>
        EmbeddedElsewhere(s, slot, digest, inner, s.path);
        MaterialRestsByName(Embedded(s, slot, digest, inner).state, after, unevaluated);
    }
  }

  lemma OpeningNamesRests(r: Receipt)
    ensures PieceNamesRests(Opening(r), r.unevaluated)
  {
    forall step | step in Opening(r) ensures NamesRests(step, r.unevaluated) {
      assert step.Pass? ==> step in [Pass(ResourceLimits, []), Pass(Versions, [])];
    }
  }

  lemma EarlyNamesRests(r: Receipt)
    requires PhasesOk(r)
    ensures forall piece :: piece in EarlyPieces(r) ==> PieceNamesRests(piece, r.unevaluated)
  {
    OpeningNamesRests(r);
    assert PieceNamesRests(Profile(r), r.unevaluated);
    assert PieceNamesRests(Paths(r), r.unevaluated);
    assert PieceNamesRests(Induction(r), r.unevaluated);
  }

  lemma LateNamesRests(r: Receipt)
    requires PhasesOk(r)
    ensures forall piece :: piece in LatePieces(r) ==> PieceNamesRests(piece, r.unevaluated)
  {
    assert PieceNamesRests(Authentication(r), r.unevaluated);
    assert PieceNamesRests(Fields(r), r.unevaluated);
    assert PieceNamesRests(Consistency(r), r.unevaluated);
  }

  lemma PreliminariesRestByName(r: Receipt)
    requires PhasesOk(r) && VerifyNested(FRESH, r).error.None?
    ensures RestsByName(BeforeMaterial(FRESH, r).findings, [], r.unevaluated)
  {
    Stages(FRESH, r);
    EarlyNamesRests(r);
    LateNamesRests(r);
    PiecesRestByName(FRESH.(blocked := [], scope := None), EarlyPieces(r), r.unevaluated);
    PiecesRestByName(AfterInduction(FRESH, r), LatePieces(r), r.unevaluated);
  }

  lemma ClosingNamesRests(r: Receipt)
    ensures PieceNamesRests(Closing(r), r.unevaluated)
  {
  }

  lemma NestedRestsByName(r: Receipt)
    requires PhasesOk(r) && VerifyNested(FRESH, r).error.None?
    ensures RestsByName(VerifyNested(FRESH, r).state.findings, [], r.unevaluated)
  {
    Stages(FRESH, r);
    PreliminariesRestByName(r);
    MaterialRestsByName(BeforeMaterial(FRESH, r), r.material, r.unevaluated);
    ClosingNamesRests(r);
    StepsRestByName(AfterMaterial(FRESH, r), Closing(r), r.unevaluated);
  }

  /** On a run that came to its end, a finding of the receipt's own rests on nothing but what it may. */
  lemma FindingsRestByName(rootVersion: Option<Rejection>, decodedTooLarge: bool, r: Receipt)
    requires PhasesOk(r) && VerifyRoot(rootVersion, decodedTooLarge, r).error.None?
    ensures RestsByName(VerifyReceiptReport(rootVersion, decodedTooLarge, r).findings, [], r.unevaluated)
  {
    NestedRestsByName(r);
    R.SortKeepsMembers(VerifyNested(FRESH, r).state.findings, ReportOrder());
  }

  // ---------------------------------------------------------------------------
  // Order, and what leads a report
  // ---------------------------------------------------------------------------

  /** The order of the algorithm. */
  lemma AssertionsInOrder(a: Assertion)
    ensures [Versions, ResourceLimits, Structure, AdaptorProfile, Anchoring, Governance, CheckpointAuthentication,
      Witnesses, EnvelopeValidity, CrossField, ClaimMaterial, ContentBinding][OrderOf(a)] == a
    ensures OrderOf(a) < 12 && ORDER[OrderOf(a)] == a && |ORDER| == 12
  {
  }

  /** One receipt path is before another where it ends first, or has the lesser member at the first difference. */
  ghost predicate PathIsBefore(p: Path, q: Path) {
    exists k: nat :: k <= |p| && k < |q| && p[..k] == q[..k] && (k == |p| || Before(p[k], q[k]))
  }

  lemma {:induction false} PathBeforeIff(p: Path, q: Path)
    ensures PathBefore(p, q) <==> PathIsBefore(p, q)
    decreases |p|
  {
    if p == [] {
      assert q != [] ==> p[..0] == q[..0];
    } else if q != [] {
      if p[0] == q[0] {
        PathBeforeIff(p[1..], q[1..]);
        if PathIsBefore(p[1..], q[1..]) {
          var k: nat :| k <= |p[1..]| && k < |q[1..]| && p[1..][..k] == q[1..][..k]
            && (k == |p[1..]| || Before(p[1..][k], q[1..][k]));
          assert p[..k + 1] == [p[0]] + p[1..][..k] && q[..k + 1] == [q[0]] + q[1..][..k];
        }
        if PathIsBefore(p, q) {
          var k: nat :| k <= |p| && k < |q| && p[..k] == q[..k] && (k == |p| || Before(p[k], q[k]));
          BeforeIsTotal(p[0], q[0]);
          assert p[1..][..k - 1] == p[..k][1..] && q[1..][..k - 1] == q[..k][1..];
        }
      } else {
        assert p[..0] == q[..0];
        assert forall k :: 0 < k <= |p| && k < |q| ==> p[..k][0] == p[0] && q[..k][0] == q[0];
      }
    }
  }

  /** The first element that satisfies a test. */
  ghost predicate IsFirst<T>(s: seq<T>, test: T -> bool, i: nat) {
    i < |s| && test(s[i]) && forall j :: 0 <= j < i ==> !test(s[j])
  }

  lemma {:induction false} FirstIs<T>(s: seq<T>, test: T -> bool)
    ensures First(s, test).Some? ==> exists i: nat :: IsFirst(s, test, i) && First(s, test) == Some(s[i])
  {
    if s != [] && test(s[0]) {
      assert IsFirst(s, test, 0);
    } else if s != [] {
      FirstIs(s[1..], test);
      if First(s[1..], test).Some? {
        var i: nat :| IsFirst(s[1..], test, i) && First(s[1..], test) == Some(s[1..][i]);
        forall j | 0 <= j < i + 1 ensures !test(s[j]) {
          assert j > 0 ==> s[j] == s[1..][j - 1];
        }
        assert IsFirst(s, test, i + 1) && First(s, test) == Some(s[i + 1]);
      }
    }
  }

  predicate IsDefect(f: Finding) {
    f.outcome == Invalid && (f.path == [] || f.assertion != ContentBinding)
  }

  /** A gap that its own check found. */
  predicate IsGap(f: Finding) {
    f.outcome == Unverifiable && f.restsOn.None? && (f.path == [] || f.assertion != ContentBinding)
  }

  /** What leads a report is the first defect in it that counts, and where there is none the first cause. */
  lemma LeadIsFirst(report: Report) returns (i: nat)
    requires exists f :: f in report.findings && (CountsInvalid(f) || CountsCause(f))
    ensures i < |report.findings| && Dominating(report) == Some(report.findings[i])
    ensures (exists g :: g in report.findings && IsDefect(g)) ==>
      IsDefect(report.findings[i]) && forall j :: 0 <= j < i ==> !IsDefect(report.findings[j])
    ensures (forall g :: g in report.findings ==> !IsDefect(g)) ==>
      IsGap(report.findings[i]) && forall j :: 0 <= j < i ==> !IsGap(report.findings[j])
  {
    FirstIs(report.findings, CountsInvalid);
    FirstIs(report.findings, CountsCause);
    if First(report.findings, CountsInvalid).Some? {
      i :| IsFirst(report.findings, CountsInvalid, i)
        && First(report.findings, CountsInvalid) == Some(report.findings[i]);
    } else {
      i :| IsFirst(report.findings, CountsCause, i) && First(report.findings, CountsCause) == Some(report.findings[i]);
    }
  }

  lemma DeferredOrderIsOrder()
    ensures StrictWeakOrder(DeferredOrder())
  {
    var less := DeferredOrder();
    forall x: Tolerated, y: Tolerated ensures less(x, y) ==> !less(y, x) {
      KeyOrderIsTotal(AsFinding(x), AsFinding(y));
    }
    forall x: Tolerated, y: Tolerated, z: Tolerated ensures less(x, y) && less(y, z) ==> less(x, z) {
      if less(x, y) && less(y, z) {
        KeyOrderIsTransitive(AsFinding(x), AsFinding(y), AsFinding(z));
      }
    }
    forall x: Tolerated, y: Tolerated, z: Tolerated ensures less(x, z) ==> less(x, y) || less(y, z) {
      KeyOrderIsTotal(AsFinding(x), AsFinding(y));
      if less(x, z) && less(y, x) {
        KeyOrderIsTransitive(AsFinding(y), AsFinding(x), AsFinding(z));
      }
    }
  }

  function AsFinding(d: Tolerated): Finding {
    Finding(d.assertion, d.path, Verified, None)
  }

  /** The single value names a rejection carried past that counts, and none that counts stands before it. */
  lemma DeferredLeadIsFirst(s: State) returns (d: Tolerated)
    requires NoDefect(s) && DominatingDeferred(s).Some?
    ensures d in s.deferred && DominatingDeferred(s) == Some(d.error) && !d.error.Defect?
    ensures d.path == [] || d.assertion != ContentBinding
    ensures forall other :: other in s.deferred && (other.path == [] || other.assertion != ContentBinding) ==>
      !PathIsBefore(other.path, d.path) && (other.path == d.path ==> OrderOf(d.assertion) <= OrderOf(other.assertion))
  {
    var counting := Filter(s.deferred, CountsTolerated);
    var candidates := StableSort(counting, DeferredOrder());
    DeferredOrderIsOrder();
    SortSorts(counting, DeferredOrder());
    MultisetMembers(candidates, counting);
    d := candidates[0];
    assert d in candidates;
    forall other | other in s.deferred && (other.path == [] || other.assertion != ContentBinding)
      ensures !PathIsBefore(other.path, d.path)
      ensures other.path == d.path ==> OrderOf(d.assertion) <= OrderOf(other.assertion)
    {
      assert other in candidates;
      var j :| 0 <= j < |candidates| && candidates[j] == other;
      PathBeforeIff(other.path, d.path);
      KeyOrderIsTotal(AsFinding(d), AsFinding(d));
      assert !DeferredOrder()(other, d);
    }
  }
}
