/** What every run of the findings machine keeps, whatever its checks find. */
module FindingsLaws {
  import opened Basics
  import opened Findings

  // ---------------------------------------------------------------------------
  // What the code guarantees about where rejections arise
  // ---------------------------------------------------------------------------

  /** Straight steps never enter the content-binding phase and never rest on it. */
  predicate StepOk(step: Step) {
    match step
    case Enter(phase) => phase != ContentBinding
    case Pass(_, also) => ContentBinding !in also
    case _ => true
  }

  predicate StepsOk(steps: seq<Step>) {
    forall step :: step in steps ==> StepOk(step)
  }

  /** A version is never read in the content-binding phase. */
  predicate MaterialOk(m: Material)
    decreases m
  {
    match m
    case Done => true
    case Bind(phase, outcome) => phase == ContentBinding ==> outcome != Some(UnsupportedVersion)
    case Do(step, next) => StepOk(step) && MaterialOk(next)
    case Embed(_, _, inner, after) => ReceiptOk(inner) && MaterialOk(after)
  }

  predicate ReceiptOk(r: Receipt)
    decreases r
  {
    && StepsOk(r.induction) && StepsOk(r.checkpoint) && StepsOk(r.envelopes) && StepsOk(r.crossField)
    && ContentBinding !in r.unevaluated
    && MaterialOk(r.material)
  }

  // ---------------------------------------------------------------------------
  // The invariant
  // ---------------------------------------------------------------------------

  predicate CountsFinding(f: Finding) {
    Counts(f.assertion, f.path)
  }

  /** A finding that its own check produced and that is short of verified. */
  predicate Cause(f: Finding) {
    CountsFinding(f) && f.outcome == Unverifiable && f.restsOn.None?
  }

  ghost predicate HasCause(findings: seq<Finding>) {
    exists f :: f in findings && Cause(f)
  }

  ghost predicate HasDeferred(deferred: seq<Tolerated>) {
    exists d :: d in deferred && Counts(d.assertion, d.path)
  }

  /** Something was tolerated that enters the reduction, and a finding says so as its cause. */
  ghost predicate Troubled(s: State) {
    HasCause(s.findings) && HasDeferred(s.deferred)
  }

  /** Nothing that enters the reduction is short of verified. */
  ghost predicate Clean(s: State) {
    && (forall f :: f in s.findings && CountsFinding(f) ==> f.outcome == Verified)
    && (forall d :: d in s.deferred ==> !Counts(d.assertion, d.path))
    && (forall a :: a in s.blocked ==> a == ContentBinding)
    && (forall k :: k in s.verified ==> CleanElsewhere(s.verified[k]))
  }

  /** Clean as findings of an embedded receipt, whose content binding does not count. */
  ghost predicate CleanElsewhere(findings: seq<Finding>) {
    forall f :: f in findings && f.assertion != ContentBinding ==> f.outcome == Verified
  }

  ghost predicate NoDefectElsewhere(findings: seq<Finding>) {
    forall f :: f in findings && f.assertion != ContentBinding ==> f.outcome != Invalid
  }

  /** No finding that enters the reduction is invalid while the run goes on. */
  ghost predicate NoDefect(s: State) {
    && (forall f :: f in s.findings && CountsFinding(f) ==> f.outcome != Invalid)
    && (forall d :: d in s.deferred && Counts(d.assertion, d.path) ==> Class(d.error) == Unverifiable)
    && (forall k :: k in s.verified ==> NoDefectElsewhere(s.verified[k]))
  }

  ghost predicate Kept(s: State) {
    NoDefect(s) && (Clean(s) || Troubled(s))
  }

  /** A phase other than the content binding is running, so every rejection counts. */
  predicate Scoped(s: State) {
    s.scope.Some? && s.scope.value != ContentBinding
  }

  // ---------------------------------------------------------------------------
  // Recording
  // ---------------------------------------------------------------------------

  /** Recording changes at most one finding, upwards, and leaves one at least as bad at its place. */
  lemma RecordEffect(s: State, a: Assertion, o: Outcome, restsOn: Option<Assertion>)
    ensures var (next, recorded) := (Record(s, a, o, restsOn), Finding(a, s.path, o, restsOn));
      && next == s.(findings := next.findings)
      && (forall f :: f in next.findings ==> f in s.findings || f == recorded)
      && (forall f :: f in s.findings ==>
            f in next.findings || (At(f, a, s.path) && Rank(o) > Rank(f.outcome) && recorded in next.findings))
      && (recorded in next.findings ||
            exists f :: f in s.findings && At(f, a, s.path) && Rank(f.outcome) >= Rank(o) && f in next.findings)
  {
    var i := Position(s.findings, a, s.path);
    var next := Record(s, a, o, restsOn);
    var recorded := Finding(a, s.path, o, restsOn);
    if i == |s.findings| {
      assert next.findings[|s.findings|] == recorded;
      forall f | f in s.findings ensures f in next.findings {
        var k :| 0 <= k < |s.findings| && s.findings[k] == f;
        assert next.findings[k] == f;
      }
    } else if Rank(o) > Rank(s.findings[i].outcome) {
      assert next.findings[i] == recorded;
      forall f | f in s.findings ensures f in next.findings || f == s.findings[i] {
        var k :| 0 <= k < |s.findings| && s.findings[k] == f;
        assert k != i ==> next.findings[k] == f;
      }
    } else {
      assert s.findings[i] in s.findings;
    }
  }

  /** A verified outcome, or any outcome that does not count, disturbs nothing. */
  lemma RecordQuietly(s: State, a: Assertion, o: Outcome, restsOn: Option<Assertion>)
    requires Kept(s) && (o == Verified || !Counts(a, s.path))
    ensures var next := Record(s, a, o, restsOn);
      && Kept(next) && next == s.(findings := next.findings)
      && (Clean(s) ==> Clean(next)) && (Troubled(s) ==> Troubled(next))
  {
    RecordEffect(s, a, o, restsOn);
  }

  /** An inherited gap may be recorded once there is a cause. */
  lemma RecordInherited(s: State, a: Assertion, restsOn: Option<Assertion>)
    requires NoDefect(s) && Troubled(s)
    ensures var next := Record(s, a, Unverifiable, restsOn);
      NoDefect(next) && Troubled(next) && next == s.(findings := next.findings)
  {
    RecordEffect(s, a, Unverifiable, restsOn);
  }

  /** A check's own gap leaves a cause behind. */
  lemma RecordCause(s: State, a: Assertion)
    requires Kept(s) && Counts(a, s.path)
    ensures var next := Record(s, a, Unverifiable, None);
      NoDefect(next) && HasCause(next.findings) && next == s.(findings := next.findings)
  {
    RecordEffect(s, a, Unverifiable, None);
    if Clean(s) {
      assert Cause(Finding(a, s.path, Unverifiable, None));
    }
  }

  // ---------------------------------------------------------------------------
  // Each operation
  // ---------------------------------------------------------------------------

  lemma PassKeeps(s: State, a: Assertion, also: seq<Assertion>)
    requires Kept(s) && ContentBinding !in also
    ensures var next := PassRestingOn(s, a, also);
      && Kept(next) && next.path == s.path && next.scope == s.scope
      && (Troubled(s) ==> Troubled(next))
  {
    var unmet := Unmet(Prerequisites(a) + also, s.blocked);
    if unmet.Some? {
      assert unmet.value != ContentBinding;
      RecordInherited(s, a, unmet);
    } else {
      RecordQuietly(s, a, Verified, None);
    }
  }

  lemma DeferKeeps(s: State, e: Rejection)
    requires Kept(s)
    requires Counts(Attribute(s, e), s.path) ==> Class(e) == Unverifiable
    ensures var next := Defer(s, e);
      && Kept(next) && next.path == s.path && next.scope == s.scope
      && (Troubled(s) ==> Troubled(next))
  {
    var a := Attribute(s, e);
    var recorded := Record(s, a, Class(e), None);
    var d := Tolerated(a, s.path, e);
    assert Defer(s, e).deferred[|s.deferred|] == d;
    assert forall d' :: d' in Defer(s, e).deferred ==> d' in s.deferred || d' == d;
    assert forall d' :: d' in s.deferred ==> d' in Defer(s, e).deferred;
    if Counts(a, s.path) {
      RecordCause(s, a);
      assert d in Defer(s, e).deferred;
    } else {
      RecordQuietly(s, a, Class(e), None);
    }
  }

  /**
   * What an operation leaves: the invariant, the path, and a rejection that enters the reduction if it ended the run.
   */
  ghost predicate LeavesKept(s: State, after: After) {
    && Kept(after.state) && (Troubled(s) ==> Troubled(after.state))
    && (after.error.None? ==> after.state.path == s.path)
    && (after.error.Some? ==> Counts(Attribute(after.state, after.error.value), after.state.path))
  }

  lemma TolerateKeeps(s: State, e: Rejection)
    requires Kept(s)
    requires e.UnsupportedVersion? ==> Counts(Attribute(s, e), s.path)
    ensures LeavesKept(s, Tolerate(s, e)) && Tolerate(s, e).state.scope == s.scope
  {
    if !EndsRun(s, e) {
      DeferKeeps(s, e);
    }
  }

  lemma StepKeeps(s: State, step: Step)
    requires Kept(s) && StepOk(step) && (Scoped(s) || step.Enter?)
    ensures LeavesKept(s, Perform(s, step))
    ensures Perform(s, step).error.None? ==> Scoped(Perform(s, step).state)
  {
    match step {
      case Enter(phase) =>
        assert Kept(Phase(s, phase)) && (Troubled(s) ==> Troubled(Phase(s, phase)));
      case Pass(a, also) =>
        PassKeeps(s, a, also);
      case Carry(e) =>
        TolerateKeeps(s, e);
      case RecordGap =>
        DeferKeeps(s, UnsupportedVersion);
      case Refuse(_) =>
    }
  }

  lemma RotationBindKeeps(s: State)
    requires Kept(s)
    ensures LeavesKept(s, SettleContentBinding(s, Some(RotationUnverifiable)))
  {
    var entered := Phase(s, ContentBinding);
    PassKeeps(entered, ContentBinding, [Governance]);
    var passed := PassRestingOn(entered, ContentBinding, [Governance]);
    TolerateKeeps(passed, RotationUnverifiable);
    var carried := Tolerate(passed, RotationUnverifiable).state;
    assert Kept(Phase(carried, ClaimMaterial)) && (Troubled(carried) ==> Troubled(Phase(carried, ClaimMaterial)));
  }

  lemma BindKeeps(s: State, outcome: Option<Rejection>)
    requires Kept(s) && s.scope.Some? && (s.scope == Some(ContentBinding) ==> outcome != Some(UnsupportedVersion))
    ensures LeavesKept(s, SettleContentBinding(s, outcome))
  {
    if outcome == Some(RotationUnverifiable) {
      RotationBindKeeps(s);
    } else if outcome.Some? {
      TolerateKeeps(s, outcome.value);
    }
  }

  // ---------------------------------------------------------------------------
  // Whole receipts, nested to any depth
  // ---------------------------------------------------------------------------

  lemma {:induction false} StepsKeep(s: State, steps: seq<Step>)
    requires Kept(s) && StepsOk(steps) && (Scoped(s) || (steps != [] && steps[0].Enter?))
    ensures LeavesKept(s, PerformAll(s, steps))
    ensures PerformAll(s, steps).error.None? ==> Scoped(PerformAll(s, steps).state)
    decreases |steps|
  {
    if steps != [] {
      StepKeeps(s, steps[0]);
      var first := Perform(s, steps[0]);
      if first.error.None? {
        StepsKeep(first.state, steps[1..]);
      }
    }
  }

  predicate PieceOk(steps: seq<Step>) {
    StepsOk(steps) && steps != [] && steps[0].Enter?
  }

  lemma {:induction false} PiecesKeep(s: State, pieces: seq<seq<Step>>)
    requires Kept(s) && (Scoped(s) || pieces != []) && forall piece :: piece in pieces ==> PieceOk(piece)
    ensures LeavesKept(s, PerformPieces(s, pieces))
    ensures PerformPieces(s, pieces).error.None? ==> Scoped(PerformPieces(s, pieces).state)
    decreases |pieces|
  {
    if pieces != [] {
      assert pieces[0] in pieces;
      StepsKeep(s, pieces[0]);
      var first := PerformAll(s, pieces[0]);
      if first.error.None? {
        PiecesKeep(first.state, pieces[1..]);
      }
    }
  }

  lemma MiddleOk(r: Receipt)
    requires ReceiptOk(r)
    ensures PieceOk(Profile(r)) && PieceOk(Paths(r)) && PieceOk(Induction(r)) && PieceOk(Authentication(r))
  {
  }

  lemma OpeningOk(r: Receipt)
    ensures PieceOk(Opening(r))
  {
  }

  lemma LastPiecesOk(r: Receipt)
    requires ReceiptOk(r)
    ensures PieceOk(Envelopes(r)) && PieceOk(Fields(r)) && PieceOk(Consistency(r))
  {
  }

  lemma PiecesOk(r: Receipt)
    requires ReceiptOk(r)
    ensures forall piece :: piece in Pieces(r) ==> PieceOk(piece)
  {
    OpeningOk(r);
    MiddleOk(r);
    LastPiecesOk(r);
  }

  lemma PreliminariesKeep(s: State, r: Receipt)
    requires Kept(s) && ReceiptOk(r)
    ensures LeavesKept(s, Preliminaries(s, r))
    ensures Preliminaries(s, r).error.None? ==> Scoped(Preliminaries(s, r).state)
  {
    PiecesOk(r);
    PiecesKeep(s, Pieces(r));
  }

  lemma {:induction false} ReplayKeeps(s: State, findings: seq<Finding>)
    requires Kept(s) && s.path != []
    requires NoDefectElsewhere(findings) && (CleanElsewhere(findings) || Troubled(s))
    ensures var next := Replay(s, findings);
      && Kept(next) && (Troubled(s) ==> Troubled(next)) && next == s.(findings := next.findings)
    decreases |findings|
  {
    if findings != [] {
      var (f, rest) := (findings[0], findings[1..]);
      assert f in findings && forall g :: g in rest ==> g in findings;
      if f.assertion == ContentBinding || f.outcome == Verified {
        RecordQuietly(s, f.assertion, f.outcome, f.restsOn);
      } else {
        RecordInherited(s, f.assertion, f.restsOn);
      }
      ReplayKeeps(Record(s, f.assertion, f.outcome, f.restsOn), rest);
    }
  }

  lemma {:induction false} NestedKeeps(s: State, r: Receipt)
    requires Kept(s) && ReceiptOk(r)
    ensures LeavesKept(s, VerifyNested(s, r))
    ensures VerifyNested(s, r).error.None? ==> VerifyNested(s, r).state.scope == s.scope
    decreases r, 0
  {
    var start := s.(blocked := [], scope := None);
    assert Clean(s) ==> Clean(start);
    assert Troubled(s) ==> Troubled(start);
    PreliminariesKeep(start, r);
    var before := Preliminaries(start, r);
    if before.error.None? {
      MaterialKeeps(before.state, r.material);
      var claimed := VerifyMaterial(before.state, r.material);
      if claimed.error.None? {
        StepsKeep(claimed.state, Closing(r));
        var closed := PerformAll(claimed.state, Closing(r));
        if closed.error.None? {
          RestoreKeeps(s, closed.state);
        }
      }
    }
  }

  /** Giving the enclosing receipt's blocks and phase back. */
  lemma RestoreKeeps(s: State, closed: State)
    requires Kept(s) && Kept(closed) && (Troubled(s) ==> Troubled(closed))
    ensures Kept(closed.(blocked := s.blocked, scope := s.scope))
    ensures Troubled(s) ==> Troubled(closed.(blocked := s.blocked, scope := s.scope))
  {
    var restored := closed.(blocked := s.blocked, scope := s.scope);
    assert NoDefect(restored);
    assert Troubled(closed) ==> Troubled(restored);
    assert Clean(closed) && Clean(s) ==> Clean(restored);
  }

  lemma {:induction false} MaterialKeeps(s: State, m: Material)
    requires Kept(s) && Scoped(s) && MaterialOk(m)
    ensures LeavesKept(s, VerifyMaterial(s, m))
    decreases m, 0
  {
    match m {
      case Done =>
      case Bind(phase, outcome) =>
        BindKeeps(Phase(s, phase), outcome);
      case Do(step, next) =>
        StepKeeps(s, step);
        if Perform(s, step).error.None? {
          MaterialKeeps(Perform(s, step).state, next);
        }
      case Embed(slot, digest, inner, after) =>
        EmbeddedKeeps(s, slot, digest, inner);
        var embedded := Embedded(s, slot, digest, inner);
        if embedded.error.None? {
          MaterialKeeps(embedded.state, after);
        }
    }
  }

  lemma {:induction false} EmbeddedKeeps(s: State, slot: string, digest: string, inner: Receipt)
    requires Kept(s) && ReceiptOk(inner)
    ensures LeavesKept(s, Embedded(s, slot, digest, inner))
    ensures Embedded(s, slot, digest, inner).error.None? ==> Embedded(s, slot, digest, inner).state.scope == s.scope
    decreases inner, 1
  {
    var descended := s.(path := s.path + [slot]);
    if digest in s.verified {
      ReplayKeeps(descended, s.verified[digest]);
    } else {
      NestedKeeps(descended, inner);
    }
  }
}
