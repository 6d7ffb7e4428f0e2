/** How far a gap reaches: everything that rests on it is reported unverified, and nothing else is touched. */
module FindingsRest {
  import opened Basics
  import opened Findings
  import opened FindingsLaws

  /** The assertion has a finding at this path that is short of verified. */
  ghost predicate Short(findings: seq<Finding>, a: Assertion, path: Path) {
    exists f :: f in findings && At(f, a, path) && f.outcome != Verified
  }

  /** What is blocked is exactly what this receipt's own findings report short of verified. */
  ghost predicate Mirrors(s: State) {
    forall a :: a in s.blocked <==> Short(s.findings, a, s.path)
  }

  ghost predicate SameAt(s: State, t: State, path: Path) {
    forall f: Finding :: f.path == path ==> (f in s.findings <==> f in t.findings)
  }

  lemma RecordShort(s: State, a: Assertion, o: Outcome, restsOn: Option<Assertion>, b: Assertion, path: Path)
    ensures Short(Record(s, a, o, restsOn).findings, b, path) <==>
      Short(s.findings, b, path) || (b == a && path == s.path && o != Verified)
  {
    RecordEffect(s, a, o, restsOn);
  }

  lemma RecordElsewhere(s: State, a: Assertion, o: Outcome, restsOn: Option<Assertion>, path: Path)
    requires path != s.path
    ensures SameAt(s, Record(s, a, o, restsOn), path)
  {
    RecordEffect(s, a, o, restsOn);
  }

  // ---------------------------------------------------------------------------
  // Operations
  // ---------------------------------------------------------------------------

  /** A pass adds a shortfall to its own assertion alone, exactly when something it needs is blocked. */
  lemma PassShort(s: State, a: Assertion, also: seq<Assertion>, b: Assertion)
    ensures var next := PassRestingOn(s, a, also);
      && (Short(next.findings, b, s.path) <==>
            Short(s.findings, b, s.path) || (b == a && Unmet(Prerequisites(a) + also, s.blocked).Some?))
      && (b in next.blocked <==> b in s.blocked || (b == a && Unmet(Prerequisites(a) + also, s.blocked).Some?))
      && next.path == s.path && next.scope == s.scope
  {
    var unmet := Unmet(Prerequisites(a) + also, s.blocked);
    if unmet.Some? {
      RecordShort(s, a, Unverifiable, unmet, b, s.path);
      BlockedIs(Record(s, a, Unverifiable, unmet), a, b);
    } else {
      RecordShort(s, a, Verified, None, b, s.path);
    }
  }

  lemma BlockedIs(s: State, a: Assertion, b: Assertion)
    ensures b in Block(s, a).blocked <==> b in s.blocked || b == a
    ensures Block(s, a) == s.(blocked := Block(s, a).blocked)
  {
  }

  lemma PassMirrors(s: State, a: Assertion, also: seq<Assertion>)
    requires Mirrors(s)
    ensures Mirrors(PassRestingOn(s, a, also))
  {
    var next := PassRestingOn(s, a, also);
    forall b ensures b in next.blocked <==> Short(next.findings, b, next.path) {
      PassShort(s, a, also, b);
    }
  }

  lemma DeferShort(s: State, e: Rejection, b: Assertion)
    ensures Short(Defer(s, e).findings, b, s.path) <==> Short(s.findings, b, s.path) || b == Attribute(s, e)
    ensures Defer(s, e).path == s.path && Defer(s, e).scope == s.scope
  {
    RecordShort(s, Attribute(s, e), Class(e), None, b, s.path);
  }

  lemma DeferMirrors(s: State, e: Rejection)
    requires Mirrors(s)
    ensures Mirrors(Defer(s, e))
  {
    forall b ensures b in Defer(s, e).blocked <==> Short(Defer(s, e).findings, b, s.path) {
      DeferShort(s, e, b);
    }
  }

  /** A step that cannot add a shortfall to `q`. */
  predicate Spares(step: Step, scope: Option<Assertion>, q: Assertion) {
    match step
    case Pass(a, also) => a == q ==> Prerequisites(q) + also == []
    case Carry(_) => scope.Some? && scope.value != q
    case RecordGap => scope.Some? && scope.value != q
    case _ => true
  }

  lemma StepShort(s: State, step: Step, q: Assertion)
    requires Perform(s, step).error.None?
    ensures var next := Perform(s, step).state;
      && next.path == s.path
      && (Short(s.findings, q, s.path) ==> Short(next.findings, q, s.path))
      && (Spares(step, s.scope, q) ==> (Short(next.findings, q, s.path) ==> Short(s.findings, q, s.path)))
      && next.scope == (if step.Enter? then Some(step.phase) else s.scope)
  {
    match step {
      case Pass(a, also) => PassShort(s, a, also, q);
      case Carry(e) => DeferShort(s, e, q);
      case RecordGap => DeferShort(s, UnsupportedVersion, q);
      case _ =>
    }
  }

  lemma StepMirrors(s: State, step: Step)
    requires Mirrors(s) && Perform(s, step).error.None?
    ensures Mirrors(Perform(s, step).state)
  {
    match step {
      case Pass(a, also) => PassMirrors(s, a, also);
      case Carry(e) => DeferMirrors(s, e);
      case RecordGap => DeferMirrors(s, UnsupportedVersion);
      case _ =>
    }
  }

  // ---------------------------------------------------------------------------
  // Steps in order
  // ---------------------------------------------------------------------------

  /** Only enters phases, passes and refuses: nothing is carried past. */
  predicate Quiet(steps: seq<Step>) {
    forall step :: step in steps ==> !step.Carry? && !step.RecordGap?
  }

  /** Steps that leave `q` alone: never in its phase, or carrying nothing past, and passing it only unconditionally. */
  predicate Avoids(steps: seq<Step>, q: Assertion) {
    && ((forall step :: step in steps && step.Enter? ==> step.phase != q) || Quiet(steps))
    && (forall step :: step in steps && step.Pass? && step.assertion == q ==> Prerequisites(q) + step.also == [])
  }

  predicate PieceAvoids(piece: seq<Step>, q: Assertion) {
    piece != [] && piece[0].Enter? && Avoids(piece, q)
  }

  lemma {:induction false} StepsAvoid(s: State, steps: seq<Step>, q: Assertion)
    requires Avoids(steps, q) && PerformAll(s, steps).error.None?
    requires Quiet(steps) || (s.scope.Some? && s.scope.value != q) || (steps != [] && steps[0].Enter?)
    ensures var end := PerformAll(s, steps).state;
      end.path == s.path && (Short(end.findings, q, s.path) <==> Short(s.findings, q, s.path))
    decreases |steps|
  {
    if steps != [] {
      StepShort(s, steps[0], q);
      assert steps[0] in steps && forall step :: step in steps[1..] ==> step in steps;
      StepsAvoid(Perform(s, steps[0]).state, steps[1..], q);
    }
  }

  lemma {:induction false} StepsMirror(s: State, steps: seq<Step>, q: Assertion)
    requires Mirrors(s) && PerformAll(s, steps).error.None?
    ensures var end := PerformAll(s, steps).state;
      Mirrors(end) && end.path == s.path && (Short(s.findings, q, s.path) ==> Short(end.findings, q, s.path))
    decreases |steps|
  {
    if steps != [] {
      StepShort(s, steps[0], q);
      StepMirrors(s, steps[0]);
      StepsMirror(Perform(s, steps[0]).state, steps[1..], q);
    }
  }

  /** An assertion passed while something it needs is short comes out short. */
  lemma {:induction false} StepsRest(s: State, steps: seq<Step>, q: Assertion, pass: Step)
    requires Mirrors(s) && PerformAll(s, steps).error.None?
    requires pass in steps && pass.Pass? && q in Prerequisites(pass.assertion) + pass.also
    requires Short(s.findings, q, s.path)
    ensures Short(PerformAll(s, steps).state.findings, pass.assertion, s.path)
    decreases |steps|
  {
    var next := Perform(s, steps[0]).state;
    StepShort(s, steps[0], q);
    StepMirrors(s, steps[0]);
    if steps[0] == pass {
      PassShort(s, pass.assertion, pass.also, pass.assertion);
      StepsMirror(next, steps[1..], pass.assertion);
    } else {
      assert pass in steps[1..];
      StepsRest(next, steps[1..], q, pass);
    }
  }

  lemma {:induction false} PiecesMirror(s: State, pieces: seq<seq<Step>>, q: Assertion)
    requires Mirrors(s) && PerformPieces(s, pieces).error.None?
    ensures var end := PerformPieces(s, pieces).state;
      Mirrors(end) && end.path == s.path && (Short(s.findings, q, s.path) ==> Short(end.findings, q, s.path))
    decreases |pieces|
  {
    if pieces != [] {
      StepsMirror(s, pieces[0], q);
      PiecesMirror(PerformAll(s, pieces[0]).state, pieces[1..], q);
    }
  }

  lemma {:induction false} PiecesAvoid(s: State, pieces: seq<seq<Step>>, q: Assertion)
    requires PerformPieces(s, pieces).error.None?
    requires forall piece :: piece in pieces ==> PieceAvoids(piece, q)
    ensures var end := PerformPieces(s, pieces).state;
      end.path == s.path && (Short(end.findings, q, s.path) <==> Short(s.findings, q, s.path))
    decreases |pieces|
  {
    if pieces != [] {
      assert pieces[0] in pieces && forall piece: seq<Step> :: piece in pieces[1..] ==> piece in pieces;
      StepsAvoid(s, pieces[0], q);
      PiecesAvoid(PerformAll(s, pieces[0]).state, pieces[1..], q);
    }
  }

  lemma {:induction false} PiecesRest(s: State, pieces: seq<seq<Step>>, q: Assertion, piece: seq<Step>, pass: Step)
    requires Mirrors(s) && PerformPieces(s, pieces).error.None? && piece in pieces
    requires pass in piece && pass.Pass? && q in Prerequisites(pass.assertion) + pass.also
    requires Short(s.findings, q, s.path)
    ensures Short(PerformPieces(s, pieces).state.findings, pass.assertion, s.path)
    decreases |pieces|
  {
    var next := PerformAll(s, pieces[0]).state;
    StepsMirror(s, pieces[0], q);
    if pieces[0] == piece {
      StepsRest(s, piece, q, pass);
      PiecesMirror(next, pieces[1..], pass.assertion);
    } else {
      assert piece in pieces[1..];
      PiecesRest(next, pieces[1..], q, piece, pass);
    }
  }

  // ---------------------------------------------------------------------------
  // Embedded receipts leave the findings of the receipt around them alone
  // ---------------------------------------------------------------------------

  lemma StepElsewhere(s: State, step: Step, path: Path)
    requires path != s.path
    ensures SameAt(s, Perform(s, step).state, path)
    ensures Perform(s, step).error.None? ==> Perform(s, step).state.path == s.path
  {
    match step {
      case Pass(a, also) =>
        RecordElsewhere(s, a, Verified, None, path);
        RecordElsewhere(s, a, Unverifiable, Unmet(Prerequisites(a) + also, s.blocked), path);
      case Carry(e) => RecordElsewhere(s, Attribute(s, e), Class(e), None, path);
      case RecordGap => RecordElsewhere(s, Attribute(s, UnsupportedVersion), Unverifiable, None, path);
      case _ =>
    }
  }

  lemma {:induction false} StepsElsewhere(s: State, steps: seq<Step>, path: Path)
    requires path != s.path
    ensures SameAt(s, PerformAll(s, steps).state, path)
    ensures PerformAll(s, steps).error.None? ==> PerformAll(s, steps).state.path == s.path
    decreases |steps|
  {
    if steps != [] {
      StepElsewhere(s, steps[0], path);
      if Perform(s, steps[0]).error.None? {
        StepsElsewhere(Perform(s, steps[0]).state, steps[1..], path);
      }
    }
  }

  lemma {:induction false} PiecesElsewhere(s: State, pieces: seq<seq<Step>>, path: Path)
    requires path != s.path
    ensures SameAt(s, PerformPieces(s, pieces).state, path)
    ensures PerformPieces(s, pieces).error.None? ==> PerformPieces(s, pieces).state.path == s.path
    decreases |pieces|
  {
    if pieces != [] {
      StepsElsewhere(s, pieces[0], path);
      if PerformAll(s, pieces[0]).error.None? {
        PiecesElsewhere(PerformAll(s, pieces[0]).state, pieces[1..], path);
      }
    }
  }

  lemma {:induction false} ReplayElsewhere(s: State, findings: seq<Finding>, path: Path)
    requires path != s.path
    ensures SameAt(s, Replay(s, findings), path) && Replay(s, findings) == s.(findings := Replay(s, findings).findings)
    decreases |findings|
  {
    if findings != [] {
      RecordElsewhere(s, findings[0].assertion, findings[0].outcome, findings[0].restsOn, path);
      ReplayElsewhere(Record(s, findings[0].assertion, findings[0].outcome, findings[0].restsOn), findings[1..], path);
    }
  }

  lemma BindElsewhere(s: State, outcome: Option<Rejection>, path: Path)
    requires path != s.path
    ensures SameAt(s, SettleContentBinding(s, outcome).state, path)
    ensures SettleContentBinding(s, outcome).error.None? ==> SettleContentBinding(s, outcome).state.path == s.path
  {
    if outcome.Some? {
      if outcome.value.RotationUnverifiable? {
        var entered := Phase(s, ContentBinding);
        StepElsewhere(entered, Pass(ContentBinding, [Governance]), path);
        var passed := PassRestingOn(entered, ContentBinding, [Governance]);
        StepElsewhere(passed, Carry(outcome.value), path);
      } else {
        StepElsewhere(s, Carry(outcome.value), path);
      }
    }
  }

  lemma {:induction false} NestedElsewhere(s: State, r: Receipt, path: Path)
    requires !(s.path <= path)
    ensures SameAt(s, VerifyNested(s, r).state, path)
    ensures var after := VerifyNested(s, r);
      after.error.None? ==>
        after.state.path == s.path && after.state.blocked == s.blocked && after.state.scope == s.scope
    decreases r, 0
  {
    var start := s.(blocked := [], scope := None);
    PiecesElsewhere(start, Pieces(r), path);
    var before := Preliminaries(start, r);
    if before.error.None? {
      MaterialElsewhere(before.state, r.material, path);
      var claimed := VerifyMaterial(before.state, r.material);
      if claimed.error.None? {
        StepsElsewhere(claimed.state, Closing(r), path);
      }
    }
  }

  lemma {:induction false} MaterialElsewhere(s: State, m: Material, path: Path)
    requires !(s.path <= path)
    ensures SameAt(s, VerifyMaterial(s, m).state, path)
    ensures VerifyMaterial(s, m).error.None? ==> VerifyMaterial(s, m).state.path == s.path
    decreases m, 0
  {
    match m {
      case Done =>
      case Bind(phase, outcome) =>
        BindElsewhere(Phase(s, phase), outcome, path);
      case Do(step, next) =>
        StepElsewhere(s, step, path);
        if Perform(s, step).error.None? {
          MaterialElsewhere(Perform(s, step).state, next, path);
        }
      case Embed(slot, digest, inner, after) =>
        EmbeddedElsewhere(s, slot, digest, inner, path);
        if Embedded(s, slot, digest, inner).error.None? {
          MaterialElsewhere(Embedded(s, slot, digest, inner).state, after, path);
        }
    }
  }

  lemma {:induction false} EmbeddedElsewhere(s: State, slot: string, digest: string, inner: Receipt, path: Path)
    requires !(s.path + [slot] <= path)
    ensures SameAt(s, Embedded(s, slot, digest, inner).state, path)
    ensures var after := Embedded(s, slot, digest, inner);
      after.error.None? ==>
        after.state.path == s.path && after.state.blocked == s.blocked && after.state.scope == s.scope
    decreases inner, 1
  {
    var descended := s.(path := s.path + [slot]);
    if digest in s.verified {
      ReplayElsewhere(descended, s.verified[digest], path);
    } else {
      NestedElsewhere(descended, inner, path);
    }
  }

  // ---------------------------------------------------------------------------
  // One receipt, start to end
  // ---------------------------------------------------------------------------

  /** The phases the checks run in, as the algorithm fixes them. */
  predicate EntersOnly(steps: seq<Step>, phases: set<Assertion>) {
    forall step :: step in steps ==> !step.Pass? && (step.Enter? ==> step.phase in phases)
  }

  predicate MaterialPhases(m: Material)
    decreases m
  {
    match m
    case Done => true
    case Bind(phase, _) => phase in {CrossField, ClaimMaterial, ContentBinding}
    case Do(step, next) =>
      && !step.Pass? && (step.Enter? ==> step.phase in {CrossField, ClaimMaterial, CheckpointAuthentication})
      && MaterialPhases(next)
    case Embed(_, _, _, after) => MaterialPhases(after)
  }

  predicate PhasesOk(r: Receipt) {
    && EntersOnly(r.induction, {}) && EntersOnly(r.checkpoint, {CheckpointAuthentication, Witnesses})
    && EntersOnly(r.envelopes, {}) && EntersOnly(r.crossField, {EnvelopeValidity, CrossField})
    && MaterialPhases(r.material)
  }

  /** The assertions whose own phases are over before the checkpoint is authenticated. */
  predicate Early(q: Assertion) {
    q in {Versions, ResourceLimits, Structure, AdaptorProfile, Anchoring, Governance}
  }

  /** The assertions in whose phases no material runs. */
  predicate Outside(q: Assertion) {
    q !in {CheckpointAuthentication, CrossField, ClaimMaterial, ContentBinding}
  }

  lemma AuthenticationAvoids(r: Receipt, q: Assertion)
    requires PhasesOk(r) && Early(q)
    ensures PieceAvoids(Authentication(r), q)
  {
  }

  lemma EnvelopesAvoid(r: Receipt, q: Assertion)
    requires PhasesOk(r) && Early(q)
    ensures PieceAvoids(Envelopes(r), q)
  {
  }

  lemma ConsistencyAvoids(r: Receipt, q: Assertion)
    requires PhasesOk(r) && Early(q)
    ensures PieceAvoids(Consistency(r), q)
  {
  }

  lemma FieldsAvoid(r: Receipt, q: Assertion)
    requires Early(q)
    ensures PieceAvoids(Fields(r), q)
  {
    assert Quiet(Fields(r));
  }

  lemma {:induction false} MaterialAvoids(s: State, m: Material, q: Assertion)
    requires MaterialPhases(m) && Outside(q) && Mirrors(s)
    requires s.scope.Some? && s.scope.value != q && VerifyMaterial(s, m).error.None?
    ensures var end := VerifyMaterial(s, m).state;
      Mirrors(end) && end.path == s.path && (Short(end.findings, q, s.path) <==> Short(s.findings, q, s.path))
    decreases m
  {
    match m {
      case Done =>
      case Bind(phase, outcome) =>
        BindAvoids(Phase(s, phase), outcome, q);
      case Do(step, next) =>
        StepShort(s, step, q);
        StepMirrors(s, step);
        MaterialAvoids(Perform(s, step).state, next, q);
      case Embed(slot, digest, inner, after) =>
        var embedded := Embedded(s, slot, digest, inner).state;
        EmbeddedElsewhere(s, slot, digest, inner, s.path);
        MaterialAvoids(embedded, after, q);
    }
  }

  lemma BindAvoids(s: State, outcome: Option<Rejection>, q: Assertion)
    requires Mirrors(s) && q !in {ClaimMaterial, ContentBinding} && s.scope.Some? && s.scope.value != q
    requires SettleContentBinding(s, outcome).error.None?
    ensures var end := SettleContentBinding(s, outcome).state;
      Mirrors(end) && end.path == s.path && (Short(end.findings, q, s.path) <==> Short(s.findings, q, s.path))
  {
    if outcome.Some? {
      if outcome.value.RotationUnverifiable? {
        var entered := Phase(s, ContentBinding);
        var passed := PassRestingOn(entered, ContentBinding, [Governance]);
        PassShort(entered, ContentBinding, [Governance], q);
        PassMirrors(entered, ContentBinding, [Governance]);
        DeferShort(passed, outcome.value, q);
        DeferMirrors(passed, outcome.value);
      } else {
        DeferShort(s, outcome.value, q);
        DeferMirrors(s, outcome.value);
      }
    }
  }

  /** The steps up to the governance induction, and those after it. */
  function EarlyPieces(r: Receipt): seq<seq<Step>> {
    [Opening(r), Profile(r), Paths(r), Induction(r)]
  }

  function LatePieces(r: Receipt): seq<seq<Step>> {
    [Authentication(r), Envelopes(r), Fields(r), Consistency(r)]
  }

  lemma {:induction false} PiecesSplit(s: State, a: seq<seq<Step>>, b: seq<seq<Step>>)
    requires PerformPieces(s, a + b).error.None?
    ensures PerformPieces(s, a).error.None?
    ensures PerformPieces(s, a + b) == PerformPieces(PerformPieces(s, a).state, b)
    decreases |a|
  {
    if a == [] {
      assert a + b == b;
    } else {
      assert (a + b)[1..] == a[1..] + b;
      PiecesSplit(PerformAll(s, a[0]).state, a[1..], b);
    }
  }

  /** Once the induction is over nothing changes an early assertion. */
  lemma LateAvoids(s: State, r: Receipt, q: Assertion)
    requires PhasesOk(r) && Early(q) && PerformPieces(s, LatePieces(r)).error.None?
    ensures var end := PerformPieces(s, LatePieces(r)).state;
      end.path == s.path && (Short(end.findings, q, s.path) <==> Short(s.findings, q, s.path))
  {
    AuthenticationAvoids(r, q);
    EnvelopesAvoid(r, q);
    FieldsAvoid(r, q);
    ConsistencyAvoids(r, q);
    FourAvoid(s, Authentication(r), Envelopes(r), Fields(r), Consistency(r), q);
  }

  /** The piece that passes an assertion resting on an early one. */
  lemma PasserOf(r: Receipt, q: Assertion, a: Assertion) returns (piece: seq<Step>)
    requires q in Prerequisites(a)
    ensures piece in LatePieces(r) && Pass(a, []) in piece
  {
    if a == EnvelopeValidity {
      piece := Fields(r);
      assert LatePieces(r)[2] == piece;
    } else {
      piece := Authentication(r);
      assert LatePieces(r)[0] == piece;
    }
  }

  /** Whatever rests on a short early assertion comes out short. */
  lemma LateRests(s: State, r: Receipt, q: Assertion, a: Assertion)
    requires Mirrors(s) && PerformPieces(s, LatePieces(r)).error.None?
    requires q in Prerequisites(a) && Short(s.findings, q, s.path)
    ensures Short(PerformPieces(s, LatePieces(r)).state.findings, a, s.path)
  {
    var piece := PasserOf(r, q, a);
    PiecesRest(s, LatePieces(r), q, piece, Pass(a, []));
  }

  /** After the last piece the run is in the claim-material phase. */
  lemma {:induction false} ScopeAfter(s: State, steps: seq<Step>, last: Assertion)
    requires steps != [] && steps[|steps| - 1] == Enter(last) && PerformAll(s, steps).error.None?
    ensures PerformAll(s, steps).state.scope == Some(last)
    decreases |steps|
  {
    if |steps| > 1 {
      ScopeAfter(Perform(s, steps[0]).state, steps[1..], last);
    } else {
      assert steps[1..] == [];
    }
  }

  lemma {:induction false} ScopeAfterPieces(s: State, pieces: seq<seq<Step>>, last: Assertion)
    requires pieces != [] && PerformPieces(s, pieces).error.None?
    requires var piece := pieces[|pieces| - 1]; piece != [] && piece[|piece| - 1] == Enter(last)
    ensures PerformPieces(s, pieces).state.scope == Some(last)
    decreases |pieces|
  {
    var next := PerformAll(s, pieces[0]).state;
    if |pieces| > 1 {
      ScopeAfterPieces(next, pieces[1..], last);
    } else {
      ScopeAfter(s, pieces[0], last);
      assert pieces[1..] == [];
    }
  }

  /** The run over a receipt cut after the induction, before the material, and before the closing. */
  function AfterInduction(s: State, r: Receipt): State {
    PerformPieces(s.(blocked := [], scope := None), EarlyPieces(r)).state
  }

  function BeforeMaterial(s: State, r: Receipt): State {
    PerformPieces(AfterInduction(s, r), LatePieces(r)).state
  }

  function AfterMaterial(s: State, r: Receipt): State {
    VerifyMaterial(BeforeMaterial(s, r), r.material).state
  }

  ghost predicate FreshPath(s: State) {
    forall f: Finding :: f in s.findings ==> f.path != s.path
  }

  lemma Stages(s: State, r: Receipt)
    requires VerifyNested(s, r).error.None? && FreshPath(s)
    ensures PerformPieces(s.(blocked := [], scope := None), EarlyPieces(r)).error.None?
    ensures Mirrors(AfterInduction(s, r)) && AfterInduction(s, r).path == s.path
    ensures PerformPieces(AfterInduction(s, r), LatePieces(r)).error.None?
    ensures Mirrors(BeforeMaterial(s, r)) && BeforeMaterial(s, r).path == s.path
    ensures BeforeMaterial(s, r).scope == Some(ClaimMaterial)
    ensures VerifyMaterial(BeforeMaterial(s, r), r.material).error.None?
    ensures PerformAll(AfterMaterial(s, r), Closing(r)).error.None?
    ensures VerifyNested(s, r).state.findings == PerformAll(AfterMaterial(s, r), Closing(r)).state.findings
  {
    var start := s.(blocked := [], scope := None);
    assert Pieces(r) == EarlyPieces(r) + LatePieces(r);
    PiecesSplit(start, EarlyPieces(r), LatePieces(r));
    PiecesMirror(start, EarlyPieces(r), Versions);
    PiecesMirror(AfterInduction(s, r), LatePieces(r), Versions);
    ScopeAfterPieces(AfterInduction(s, r), LatePieces(r), ClaimMaterial);
  }

  /** From the end of the induction to the end of the receipt, an early assertion is left as it was. */
  lemma LeftAsItWas(early: State, before: State, claimed: State, r: Receipt, q: Assertion)
    requires PhasesOk(r) && Early(q)
    requires PerformPieces(early, LatePieces(r)) == After(before, None)
    requires Mirrors(before) && before.scope == Some(ClaimMaterial)
    requires VerifyMaterial(before, r.material) == After(claimed, None) && PerformAll(claimed, Closing(r)).error.None?
    ensures claimed.path == early.path && Mirrors(claimed)
    ensures Short(claimed.findings, q, early.path) <==> Short(early.findings, q, early.path)
    ensures Short(PerformAll(claimed, Closing(r)).state.findings, q, early.path) <==>
      Short(early.findings, q, early.path)
  {
    LateAvoids(early, r, q);
    MaterialAvoids(before, r.material, q);
    ClosingAvoids(claimed, r, q);
  }

  lemma ClosingAvoids(claimed: State, r: Receipt, q: Assertion)
    requires q !in {ClaimMaterial, ContentBinding} && PerformAll(claimed, Closing(r)).error.None?
    ensures Short(PerformAll(claimed, Closing(r)).state.findings, q, claimed.path)
      <==> Short(claimed.findings, q, claimed.path)
  {
    StepsAvoid(claimed, Closing(r), q);
  }

  lemma NestedRests(s: State, r: Receipt, q: Assertion, a: Assertion)
    requires PhasesOk(r) && Early(q) && VerifyNested(s, r).error.None?
    requires FreshPath(s)
    requires Short(VerifyNested(s, r).state.findings, q, s.path)
    ensures q in Prerequisites(a) ==> Short(VerifyNested(s, r).state.findings, a, s.path)
    ensures r.authorityDependent && q == Governance ==> Short(VerifyNested(s, r).state.findings, ClaimMaterial, s.path)
  {
    Stages(s, r);
    var (early, before, claimed) := (AfterInduction(s, r), BeforeMaterial(s, r), AfterMaterial(s, r));
    LeftAsItWas(early, before, claimed, r, q);
    if q in Prerequisites(a) {
      LateRests(early, r, q, a);
      StaysShort(before, r.material, claimed, Closing(r), a);
    }
    if r.authorityDependent && q == Governance {
      assert Closing(r)[1] == Pass(ClaimMaterial, [Governance, EnvelopeValidity]) && Closing(r)[1] in Closing(r);
      StepsRest(claimed, Closing(r), q, Closing(r)[1]);
    }
  }

  lemma {:induction false} MaterialStaysShort(s: State, m: Material, a: Assertion)
    requires VerifyMaterial(s, m).error.None? && Short(s.findings, a, s.path)
    ensures VerifyMaterial(s, m).state.path == s.path && Short(VerifyMaterial(s, m).state.findings, a, s.path)
    decreases m
  {
    match m {
      case Done =>
      case Bind(phase, outcome) =>
        BindStaysShort(Phase(s, phase), outcome, a);
      case Do(step, next) =>
        StepShort(s, step, a);
        MaterialStaysShort(Perform(s, step).state, next, a);
      case Embed(slot, digest, inner, after) =>
        var embedded := Embedded(s, slot, digest, inner).state;
        EmbeddedElsewhere(s, slot, digest, inner, s.path);
        MaterialStaysShort(embedded, after, a);
    }
  }

  lemma BindStaysShort(s: State, outcome: Option<Rejection>, a: Assertion)
    requires SettleContentBinding(s, outcome).error.None? && Short(s.findings, a, s.path)
    ensures var end := SettleContentBinding(s, outcome).state;
      end.path == s.path && Short(end.findings, a, s.path)
  {
    if outcome.Some? {
      if outcome.value.RotationUnverifiable? {
        var entered := Phase(s, ContentBinding);
        PassShort(entered, ContentBinding, [Governance], a);
        DeferShort(PassRestingOn(entered, ContentBinding, [Governance]), outcome.value, a);
      } else {
        DeferShort(s, outcome.value, a);
      }
    }
  }

  lemma {:induction false} StepsStayShort(s: State, steps: seq<Step>, a: Assertion)
    requires PerformAll(s, steps).error.None? && Short(s.findings, a, s.path)
    ensures Short(PerformAll(s, steps).state.findings, a, s.path)
    decreases |steps|
  {
    if steps != [] {
      StepShort(s, steps[0], a);
      StepsStayShort(Perform(s, steps[0]).state, steps[1..], a);
    }
  }

  lemma StaysShort(before: State, m: Material, claimed: State, closing: seq<Step>, a: Assertion)
    requires VerifyMaterial(before, m) == After(claimed, None) && PerformAll(claimed, closing).error.None?
    requires Short(before.findings, a, before.path)
    ensures Short(PerformAll(claimed, closing).state.findings, a, before.path)
  {
    MaterialStaysShort(before, m, a);
    StepsStayShort(claimed, closing, a);
  }

  // ---------------------------------------------------------------------------
  // What rests on assertions that are settled late
  // ---------------------------------------------------------------------------

  lemma {:induction false} StepsSplit(s: State, a: seq<Step>, b: seq<Step>)
    requires PerformAll(s, a + b).error.None?
    ensures PerformAll(s, a).error.None?
    ensures PerformAll(s, a + b) == PerformAll(PerformAll(s, a).state, b)
    decreases |a|
  {
    if a == [] {
      assert a + b == b;
    } else {
      assert (a + b)[0] == a[0] && (a + b)[1..] == a[1..] + b;
      StepsSplit(Perform(s, a[0]).state, a[1..], b);
    }
  }

  /** No gap is carried past while material authenticates a checkpoint: what is found there ends the run. */
  predicate CheckpointQuiet(m: Material, authenticating: bool)
    decreases m
  {
    match m
    case Done => true
    case Bind(_, _) => true
    case Do(step, next) =>
      && (authenticating ==> !step.Carry? && !step.RecordGap?)
      && CheckpointQuiet(next, if step.Enter? then step.phase == CheckpointAuthentication else authenticating)
    case Embed(_, _, _, after) => CheckpointQuiet(after, authenticating)
  }

  lemma {:induction false} MaterialAvoidsCheckpoint(s: State, m: Material, authenticating: bool)
    requires MaterialPhases(m) && CheckpointQuiet(m, authenticating) && Mirrors(s) && s.scope.Some?
    requires s.scope.value == CheckpointAuthentication ==> authenticating
    requires VerifyMaterial(s, m).error.None?
    ensures var end := VerifyMaterial(s, m).state;
      && end.path == s.path
      && (Short(end.findings, CheckpointAuthentication, s.path) <==>
            Short(s.findings, CheckpointAuthentication, s.path))
    decreases m
  {
    match m {
      case Done =>
      case Bind(phase, outcome) =>
        BindAvoids(Phase(s, phase), outcome, CheckpointAuthentication);
      case Do(step, next) =>
        StepShort(s, step, CheckpointAuthentication);
        StepMirrors(s, step);
        MaterialAvoidsCheckpoint(
          Perform(s, step).state, next,
          if step.Enter? then step.phase == CheckpointAuthentication else authenticating);
      case Embed(slot, digest, inner, after) =>
        var embedded := Embedded(s, slot, digest, inner).state;
        EmbeddedElsewhere(s, slot, digest, inner, s.path);
        MaterialAvoidsCheckpoint(embedded, after, authenticating);
    }
  }

  /** The witnesses are passed right after the checkpoint, so a checkpoint short of verified leaves them short. */
  lemma AuthenticationRests(s: State, r: Receipt)
    requires Mirrors(s) && PerformAll(s, Authentication(r)).error.None?
    ensures var end := PerformAll(s, Authentication(r)).state;
      Short(end.findings, CheckpointAuthentication, s.path) ==> Short(end.findings, Witnesses, s.path)
  {
    var front := [Enter(CheckpointAuthentication)] + r.checkpoint + [Pass(CheckpointAuthentication, [])];
    var back := [Enter(Witnesses), Pass(Witnesses, [])];
    assert Authentication(r) == front + back;
    StepsSplit(s, front, back);
    var mid := PerformAll(s, front).state;
    StepsMirror(s, front, Witnesses);
    StepsAvoid(mid, back, CheckpointAuthentication);
    if Short(mid.findings, CheckpointAuthentication, s.path) {
      StepsRest(mid, back, CheckpointAuthentication, back[1]);
    }
  }

  lemma EnvelopesLeaveCheckpoint(r: Receipt)
    requires PhasesOk(r)
    ensures PieceAvoids(Envelopes(r), CheckpointAuthentication) && PieceAvoids(Fields(r), CheckpointAuthentication)
  {
    assert Quiet(Fields(r));
  }

  lemma ConsistencyLeavesCheckpoint(r: Receipt)
    requires PhasesOk(r)
    ensures PieceAvoids(Consistency(r), CheckpointAuthentication)
  {
  }

  lemma LaterAvoidCheckpoint(s: State, r: Receipt)
    requires PhasesOk(r) && PerformPieces(s, [Envelopes(r), Fields(r), Consistency(r)]).error.None?
    ensures var end := PerformPieces(s, [Envelopes(r), Fields(r), Consistency(r)]).state;
      && end.path == s.path
      && (Short(end.findings, CheckpointAuthentication, s.path) <==>
            Short(s.findings, CheckpointAuthentication, s.path))
  {
    EnvelopesLeaveCheckpoint(r);
    ConsistencyLeavesCheckpoint(r);
    PiecesAvoid(s, [Envelopes(r), Fields(r), Consistency(r)], CheckpointAuthentication);
  }

  /** Over the pieces after the induction. */
  lemma LateCheckpointRests(s: State, r: Receipt)
    requires PhasesOk(r) && Mirrors(s) && PerformPieces(s, LatePieces(r)).error.None?
    ensures var end := PerformPieces(s, LatePieces(r)).state;
      Short(end.findings, CheckpointAuthentication, s.path) ==> Short(end.findings, Witnesses, s.path)
  {
    var rest := [Envelopes(r), Fields(r), Consistency(r)];
    assert LatePieces(r) == [Authentication(r)] + rest && LatePieces(r)[1..] == rest;
    var next := PerformAll(s, Authentication(r)).state;
    StepsMirror(s, Authentication(r), Witnesses);
    AuthenticationRests(s, r);
    LaterAvoidCheckpoint(next, r);
    PiecesMirror(next, rest, Witnesses);
  }

  lemma NestedWitnessesRest(s: State, r: Receipt)
    requires PhasesOk(r) && CheckpointQuiet(r.material, false) && VerifyNested(s, r).error.None? && FreshPath(s)
    requires Short(VerifyNested(s, r).state.findings, CheckpointAuthentication, s.path)
    ensures Short(VerifyNested(s, r).state.findings, Witnesses, s.path)
  {
    Stages(s, r);
    var (early, before, claimed) := (AfterInduction(s, r), BeforeMaterial(s, r), AfterMaterial(s, r));
    MaterialAvoidsCheckpoint(before, r.material, false);
    ClosingAvoids(claimed, r, CheckpointAuthentication);
    LateCheckpointRests(early, r);
    StaysShort(before, r.material, claimed, Closing(r), Witnesses);
  }

  lemma NestedAuthorityRests(s: State, r: Receipt)
    requires PhasesOk(r) && r.authorityDependent && VerifyNested(s, r).error.None? && FreshPath(s)
    requires Short(VerifyNested(s, r).state.findings, EnvelopeValidity, s.path)
    ensures Short(VerifyNested(s, r).state.findings, ClaimMaterial, s.path)
  {
    Stages(s, r);
    var (before, claimed) := (BeforeMaterial(s, r), AfterMaterial(s, r));
    MaterialAvoids(before, r.material, EnvelopeValidity);
    ClosingAvoids(claimed, r, EnvelopeValidity);
    assert Closing(r)[1] == Pass(ClaimMaterial, [Governance, EnvelopeValidity]) && Closing(r)[1] in Closing(r);
    StepsRest(claimed, Closing(r), EnvelopeValidity, Closing(r)[1]);
  }

  /** The assertions that no gap of the run can touch. */
  predicate Solid(q: Assertion) {
    q in {Versions, ResourceLimits, Structure, Anchoring}
  }

  lemma OpeningAvoids(r: Receipt, q: Assertion)
    requires Solid(q)
    ensures PieceAvoids(Opening(r), q)
  {
    assert Quiet(Opening(r)) by {
      assert Quiet([Enter(Versions)] + Refusal(r.receiptVersion) + [Enter(Structure)] + Refusal(r.fixedLimits));
      assert Quiet([Pass(ResourceLimits, [])] + Refusal(r.carriedMembers) + [Enter(Versions)]);
    }
  }

  lemma PathsAvoid(r: Receipt, q: Assertion)
    requires Solid(q)
    ensures PieceAvoids(Profile(r), q) && PieceAvoids(Paths(r), q)
  {
    assert Quiet(Paths(r));
  }

  lemma NestedSpares(s: State, r: Receipt, q: Assertion)
    requires PhasesOk(r) && Solid(q) && VerifyNested(s, r).error.None?
    requires FreshPath(s)
    ensures !Short(VerifyNested(s, r).state.findings, q, s.path)
  {
    Stages(s, r);
    EarlyAvoids(s.(blocked := [], scope := None), r, q);
    LeftAsItWas(AfterInduction(s, r), BeforeMaterial(s, r), AfterMaterial(s, r), r, q);
  }

  lemma FourAvoid(s: State, a: seq<Step>, b: seq<Step>, c: seq<Step>, d: seq<Step>, q: Assertion)
    requires PieceAvoids(a, q) && PieceAvoids(b, q) && PieceAvoids(c, q) && PieceAvoids(d, q)
    requires PerformPieces(s, [a, b, c, d]).error.None?
    ensures var end := PerformPieces(s, [a, b, c, d]).state;
      end.path == s.path && (Short(end.findings, q, s.path) <==> Short(s.findings, q, s.path))
  {
    PiecesAvoid(s, [a, b, c, d], q);
  }

  lemma InductionAvoids(r: Receipt, q: Assertion)
    requires PhasesOk(r) && Solid(q)
    ensures PieceAvoids(Induction(r), q)
  {
  }

  lemma EarlyAvoids(s: State, r: Receipt, q: Assertion)
    requires PhasesOk(r) && Solid(q) && PerformPieces(s, EarlyPieces(r)).error.None?
    ensures Short(PerformPieces(s, EarlyPieces(r)).state.findings, q, s.path) <==> Short(s.findings, q, s.path)
  {
    OpeningAvoids(r, q);
    PathsAvoid(r, q);
    InductionAvoids(r, q);
    FourAvoid(s, Opening(r), Profile(r), Paths(r), Induction(r), q);
  }
  /** The state the consistency rules are met in. */
  function BeforeConsistency(s: State, r: Receipt): State {
    PerformPieces(AfterInduction(s, r), [Authentication(r), Envelopes(r), Fields(r)]).state
  }

  lemma ConsistencyStage(s: State, r: Receipt)
    requires VerifyNested(s, r).error.None? && FreshPath(s)
    ensures Mirrors(BeforeConsistency(s, r)) && BeforeConsistency(s, r).path == s.path
    ensures PerformAll(BeforeConsistency(s, r), Consistency(r)) == After(BeforeMaterial(s, r), None)
  {
    Stages(s, r);
    var (early, pieces) := (AfterInduction(s, r), [Authentication(r), Envelopes(r), Fields(r)]);
    assert LatePieces(r) == pieces + [Consistency(r)];
    PiecesSplit(early, pieces, [Consistency(r)]);
    PiecesMirror(early, pieces, Versions);
    assert [Consistency(r)][1..] == [];
  }

  lemma ConsistencyLeaves(r: Receipt, q: Assertion)
    requires PhasesOk(r) && q in {CheckpointAuthentication, Witnesses}
    ensures PieceAvoids(Consistency(r), q)
  {
  }

  /** Where the rules over an assertion were left unevaluated, and it is short, the consistency finding is. */
  lemma UnevaluatedRests(s: State, r: Receipt, q: Assertion)
    requires PhasesOk(r) && VerifyNested(s, r).error.None? && FreshPath(s)
    requires q in {CheckpointAuthentication, Witnesses} && q in r.unevaluated
    requires Short(BeforeMaterial(s, r).findings, q, s.path)
    ensures Short(VerifyNested(s, r).state.findings, CrossField, s.path)
  {
    Stages(s, r);
    ConsistencyStage(s, r);
    ConsistencyLeaves(r, q);
    var mid := BeforeConsistency(s, r);
    StepsAvoid(mid, Consistency(r), q);
    var pass := Pass(CrossField, r.unevaluated);
    assert pass in Consistency(r) by {
      var n := |r.crossField| + 1;
      assert Consistency(r)[n] == pass;
    }
    StepsRest(mid, Consistency(r), q, pass);
    StaysShort(BeforeMaterial(s, r), r.material, AfterMaterial(s, r), Closing(r), CrossField);
  }

  lemma NestedUnevaluatedRests(s: State, r: Receipt, q: Assertion)
    requires PhasesOk(r) && VerifyNested(s, r).error.None? && FreshPath(s)
    requires q == Witnesses || (q == CheckpointAuthentication && CheckpointQuiet(r.material, false))
    requires q in r.unevaluated && Short(VerifyNested(s, r).state.findings, q, s.path)
    ensures Short(VerifyNested(s, r).state.findings, CrossField, s.path)
  {
    Stages(s, r);
    var (before, claimed) := (BeforeMaterial(s, r), AfterMaterial(s, r));
    if q == Witnesses {
      MaterialAvoids(before, r.material, q);
    } else {
      MaterialAvoidsCheckpoint(before, r.material, false);
    }
    ClosingAvoids(claimed, r, q);
    UnevaluatedRests(s, r, q);
  }
}
