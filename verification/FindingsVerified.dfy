/** Exactly when a receipt is verified, and when it is invalid. */
module FindingsVerified {
  import opened Basics
  import opened Findings
  import opened FindingsLaws
  import R = FindingsReport

  // ---------------------------------------------------------------------------
  // Receipts no check finds anything about
  // ---------------------------------------------------------------------------

  predicate NothingFound(steps: seq<Step>) {
    forall step :: step in steps ==> step.Enter? || step.Pass?
  }

  /** The digests met once the material has been gone through. */
  function MetBy(m: Material, met: set<string>): set<string>
    decreases m
  {
    match m
    case Done => met
    case Bind(_, _) => met
    case Do(_, next) => MetBy(next, met)
    case Embed(_, digest, inner, after) =>
      MetBy(after, if digest in met then met else MetBy(inner.material, met) + {digest})
  }

  /** What the binding of an embedded receipt may find and be carried past: nothing of it enters the reduction. */
  predicate BindingAside(phase: Assertion, outcome: Option<Rejection>) {
    || outcome.None?
    || outcome.value.RotationUnverifiable?
    || (phase == ContentBinding && (outcome.value.Defect? || outcome.value.CapabilityGap?))
  }

  /** Material of which no check finds anything that counts; a receipt met before is not looked at again. */
  predicate CleanMaterial(m: Material, outermost: bool, met: set<string>)
    decreases m, 0
  {
    match m
    case Done => true
    case Bind(phase, outcome) => if outermost then outcome.None? else BindingAside(phase, outcome)
    case Do(step, next) => (step.Enter? || step.Pass?) && CleanMaterial(next, outermost, met)
    case Embed(_, digest, inner, after) =>
      && (digest in met || CleanReceipt(inner, false, met))
      && CleanMaterial(after, outermost, if digest in met then met else MetBy(inner.material, met) + {digest})
  }

  predicate CleanReceipt(r: Receipt, outermost: bool, met: set<string>)
    decreases r, 1
  {
    && r.receiptVersion.None? && r.fixedLimits.None? && r.carriedMembers.None? && r.payloadVersion.None?
    && r.identifiers.None? && r.adaptorMembers.None? && r.adaptorResolution.None? && r.container.None?
    && r.paths.None? && r.payloadFields.None? && r.producerKeys.None?
    && NothingFound(r.induction) && NothingFound(r.checkpoint) && NothingFound(r.envelopes)
    && NothingFound(r.crossField)
    && CleanMaterial(r.material, outermost, met)
  }

  // ---------------------------------------------------------------------------
  // Runs that find nothing
  // ---------------------------------------------------------------------------

  /** The run went on, and nothing it carried past counts. */
  ghost predicate Quietly(after: After) {
    after.error.None? && !HasDeferred(after.state.deferred)
  }

  ghost predicate MoreDeferred(s: State, after: After) {
    && (HasDeferred(s.deferred) ==> HasDeferred(after.state.deferred))
    && (after.error.None? ==> after.state.path == s.path)
  }

  lemma DeferCounts(s: State, e: Rejection)
    requires Counts(Attribute(s, e), s.path)
    ensures HasDeferred(Defer(s, e).deferred)
  {
    assert Tolerated(Attribute(s, e), s.path, e) in Defer(s, e).deferred;
  }

  lemma DeferMore(s: State, e: Rejection)
    ensures HasDeferred(Defer(s, e).deferred) <==> HasDeferred(s.deferred) || Counts(Attribute(s, e), s.path)
  {
    if HasDeferred(s.deferred) {
      var d :| d in s.deferred && Counts(d.assertion, d.path);
      assert d in Defer(s, e).deferred;
    }
    if Counts(Attribute(s, e), s.path) {
      DeferCounts(s, e);
    }
  }

  lemma RecordKeepsRest(s: State, a: Assertion, o: Outcome, restsOn: Option<Assertion>)
    ensures Record(s, a, o, restsOn) == s.(findings := Record(s, a, o, restsOn).findings)
  {
  }

  lemma PassKeepsDeferred(s: State, a: Assertion, also: seq<Assertion>)
    ensures var next := PassRestingOn(s, a, also);
      next == s.(findings := next.findings, blocked := next.blocked)
  {
    var unmet := Unmet(Prerequisites(a) + also, s.blocked);
    RecordKeepsRest(s, a, Verified, None);
    RecordKeepsRest(s, a, Unverifiable, unmet);
  }

  lemma CarryQuiet(s: State, e: Rejection)
    requires Scoped(s)
    ensures !Quietly(Tolerate(s, e)) && MoreDeferred(s, Tolerate(s, e))
    ensures Tolerate(s, e).state.verified == s.verified && Tolerate(s, e).state.scope == s.scope
  {
    DeferMore(s, e);
  }

  lemma StepQuietIff(s: State, step: Step)
    requires StepOk(step) && (Scoped(s) || step.Enter?)
    ensures Quietly(Perform(s, step)) <==> !HasDeferred(s.deferred) && (step.Enter? || step.Pass?)
    ensures MoreDeferred(s, Perform(s, step)) && Perform(s, step).state.verified == s.verified
    ensures Perform(s, step).error.None? ==> Scoped(Perform(s, step).state)
  {
    match step {
      case Pass(a, also) => PassKeepsDeferred(s, a, also);
      case Carry(e) => CarryQuiet(s, e);
      case RecordGap => DeferMore(s, UnsupportedVersion);
      case _ =>
    }
  }

  lemma {:induction false} StepsQuietIff(s: State, steps: seq<Step>)
    requires StepsOk(steps) && (Scoped(s) || (steps != [] && steps[0].Enter?))
    ensures Quietly(PerformAll(s, steps)) <==> !HasDeferred(s.deferred) && NothingFound(steps)
    ensures MoreDeferred(s, PerformAll(s, steps)) && PerformAll(s, steps).state.verified == s.verified
    ensures PerformAll(s, steps).error.None? ==> Scoped(PerformAll(s, steps).state)
    decreases |steps|
  {
    if steps != [] {
      StepQuietIff(s, steps[0]);
      assert steps == [steps[0]] + steps[1..];
      var first := Perform(s, steps[0]);
      if first.error.None? {
        StepsQuietIff(first.state, steps[1..]);
      }
    }
  }

  lemma {:induction false} PiecesQuietIff(s: State, pieces: seq<seq<Step>>)
    requires (Scoped(s) || pieces != []) && forall piece :: piece in pieces ==> PieceOk(piece)
    ensures Quietly(PerformPieces(s, pieces)) <==>
      !HasDeferred(s.deferred) && forall piece :: piece in pieces ==> NothingFound(piece)
    ensures MoreDeferred(s, PerformPieces(s, pieces)) && PerformPieces(s, pieces).state.verified == s.verified
    ensures PerformPieces(s, pieces).error.None? ==> Scoped(PerformPieces(s, pieces).state)
    decreases |pieces|
  {
    if pieces != [] {
      assert pieces[0] in pieces;
      StepsQuietIff(s, pieces[0]);
      assert pieces == [pieces[0]] + pieces[1..];
      var first := PerformAll(s, pieces[0]);
      if first.error.None? {
        PiecesQuietIff(first.state, pieces[1..]);
      }
    }
  }

  lemma FoundInJoin(a: seq<Step>, b: seq<Step>)
    ensures NothingFound(a + b) <==> NothingFound(a) && NothingFound(b)
  {
    assert forall step :: step in a + b <==> step in a || step in b;
  }

  lemma FoundInRefusal(e: Option<Rejection>)
    ensures NothingFound(Refusal(e)) <==> e.None?
  {
    if e.Some? {
      assert Refusal(e)[0] in Refusal(e);
    }
  }

  lemma FoundInOpening(r: Receipt)
    ensures NothingFound(Opening(r)) <==>
      r.receiptVersion.None? && r.fixedLimits.None? && r.carriedMembers.None? && r.payloadVersion.None?
      && r.identifiers.None?
  {
    FoundInRefusal(r.receiptVersion);
    FoundInRefusal(r.fixedLimits);
    FoundInRefusal(r.carriedMembers);
    FoundInRefusal(r.payloadVersion);
    FoundInRefusal(r.identifiers);
    var a := [Enter(Versions)] + Refusal(r.receiptVersion);
    var b := a + [Enter(Structure)] + Refusal(r.fixedLimits);
    var c := b + [Pass(ResourceLimits, [])] + Refusal(r.carriedMembers);
    var d := c + [Enter(Versions)] + Refusal(r.payloadVersion);
    FoundInJoin([Enter(Versions)], Refusal(r.receiptVersion));
    FoundInJoin(a, [Enter(Structure)]);
    FoundInJoin(a + [Enter(Structure)], Refusal(r.fixedLimits));
    FoundInJoin(b, [Pass(ResourceLimits, [])]);
    FoundInJoin(b + [Pass(ResourceLimits, [])], Refusal(r.carriedMembers));
    FoundInJoin(c, [Enter(Versions)]);
    FoundInJoin(c + [Enter(Versions)], Refusal(r.payloadVersion));
    FoundInJoin(d, [Pass(Versions, []), Enter(Structure)]);
    FoundInJoin(d + [Pass(Versions, []), Enter(Structure)], Refusal(r.identifiers));
  }

  lemma FoundInFields(r: Receipt)
    ensures NothingFound(Fields(r)) <==> r.payloadFields.None? && r.producerKeys.None?
  {
    FoundInRefusal(r.payloadFields);
    FoundInRefusal(r.producerKeys);
    var a := [Enter(Structure)] + Refusal(r.payloadFields);
    FoundInJoin([Enter(Structure)], Refusal(r.payloadFields));
    FoundInJoin(a, [Enter(Governance)]);
    FoundInJoin(a + [Enter(Governance)], Refusal(r.producerKeys));
    FoundInJoin(
      a + [Enter(Governance)] + Refusal(r.producerKeys), [Enter(EnvelopeValidity), Pass(EnvelopeValidity, [])]);
  }

  lemma FoundInProfileAndPaths(r: Receipt)
    ensures NothingFound(Profile(r)) <==> r.adaptorMembers.None? && r.adaptorResolution.None?
    ensures NothingFound(Paths(r)) <==> r.container.None? && r.paths.None?
  {
    FoundInRefusal(r.adaptorMembers);
    FoundInRefusal(r.container);
    FoundInRefusal(r.paths);
    var last := if r.adaptorResolution.Some? then Carry(r.adaptorResolution.value) else Pass(AdaptorProfile, []);
    assert last in [last];
    FoundInJoin([Enter(AdaptorProfile)], Refusal(r.adaptorMembers));
    FoundInJoin([Enter(AdaptorProfile)] + Refusal(r.adaptorMembers), [last]);
    var a := [Enter(Structure)] + Refusal(r.container);
    FoundInJoin([Enter(Structure)], Refusal(r.container));
    FoundInJoin(a, [Pass(Structure, []), Enter(Anchoring)]);
    FoundInJoin(a + [Pass(Structure, []), Enter(Anchoring)], Refusal(r.paths));
    FoundInJoin(a + [Pass(Structure, []), Enter(Anchoring)] + Refusal(r.paths), [Pass(Anchoring, [])]);
  }

  lemma FoundInLists(r: Receipt)
    ensures NothingFound(Induction(r)) <==> NothingFound(r.induction)
    ensures NothingFound(Authentication(r)) <==> NothingFound(r.checkpoint)
    ensures NothingFound(Envelopes(r)) <==> NothingFound(r.envelopes)
    ensures NothingFound(Consistency(r)) <==> NothingFound(r.crossField)
  {
    FoundInJoin([Enter(Governance)], r.induction);
    FoundInJoin([Enter(Governance)] + r.induction, [Pass(Governance, [])]);
    FoundInJoin([Enter(CheckpointAuthentication)], r.checkpoint);
    FoundInJoin(
      [Enter(CheckpointAuthentication)] + r.checkpoint,
      [Pass(CheckpointAuthentication, []), Enter(Witnesses), Pass(Witnesses, [])]);
    FoundInJoin([Enter(EnvelopeValidity)], r.envelopes);
    FoundInJoin([Enter(CrossField)], r.crossField);
    FoundInJoin([Enter(CrossField)] + r.crossField, [Pass(CrossField, r.unevaluated), Enter(ClaimMaterial)]);
  }

  lemma FoundInPieces(r: Receipt)
    ensures (forall piece :: piece in Pieces(r) ==> NothingFound(piece)) <==>
      CleanReceipt(r.(material := Done), true, {})
  {
    FoundInOpening(r);
    FoundInProfileAndPaths(r);
    FoundInLists(r);
    FoundInFields(r);
    var p := Pieces(r);
    assert p[0] in p && p[1] in p && p[2] in p && p[3] in p && p[4] in p && p[5] in p && p[6] in p && p[7] in p;
  }

  lemma ClosingFindsNothing(r: Receipt)
    ensures NothingFound(Closing(r)) && StepsOk(Closing(r))
  {
  }

  lemma PreliminariesQuietIff(s: State, r: Receipt)
    requires ReceiptOk(r)
    ensures Quietly(Preliminaries(s, r)) <==> !HasDeferred(s.deferred) && CleanReceipt(r.(material := Done), true, {})
    ensures MoreDeferred(s, Preliminaries(s, r)) && Preliminaries(s, r).state.verified == s.verified
    ensures Preliminaries(s, r).error.None? ==> Scoped(Preliminaries(s, r).state)
  {
    PiecesOk(r);
    PiecesQuietIff(s, Pieces(r));
    FoundInPieces(r);
  }

  /** A run over a receipt finds nothing that counts exactly where it had found nothing and the receipt is clean. */
  lemma {:induction false} NestedQuietIff(s: State, r: Receipt)
    requires ReceiptOk(r)
    ensures Quietly(VerifyNested(s, r)) <==>
      !HasDeferred(s.deferred) && CleanReceipt(r, s.path == [], s.verified.Keys)
    ensures MoreDeferred(s, VerifyNested(s, r))
    ensures Quietly(VerifyNested(s, r)) ==> VerifyNested(s, r).state.verified.Keys == MetBy(r.material, s.verified.Keys)
    ensures VerifyNested(s, r).error.None? ==> VerifyNested(s, r).state.scope == s.scope
    decreases r, 0
  {
    var start := s.(blocked := [], scope := None);
    PreliminariesQuietIff(start, r);
    var before := Preliminaries(start, r);
    if before.error.None? {
      MaterialQuietIff(before.state, r.material);
      var claimed := VerifyMaterial(before.state, r.material);
      if claimed.error.None? {
        ClosingFindsNothing(r);
        StepsQuietIff(claimed.state, Closing(r));
      }
    }
  }

  lemma RotationQuietIff(s: State)
    ensures var after := SettleContentBinding(s, Some(RotationUnverifiable));
      && (Quietly(after) <==> !HasDeferred(s.deferred) && s.path != [])
      && MoreDeferred(s, after) && after.state.verified == s.verified
  {
    var entered := Phase(s, ContentBinding);
    var passed := PassRestingOn(entered, ContentBinding, [Governance]);
    PassKeepsDeferred(entered, ContentBinding, [Governance]);
    DeferMore(passed, RotationUnverifiable);
    assert Tolerate(passed, RotationUnverifiable) == After(Defer(passed, RotationUnverifiable), None);
  }

  lemma TolerateQuietIff(s: State, e: Rejection, phase: Assertion)
    requires s.scope == Some(phase)
    ensures Quietly(Tolerate(s, e)) <==>
      !HasDeferred(s.deferred) && s.path != [] && phase == ContentBinding && (e.Defect? || e.CapabilityGap?
        || e.RotationUnverifiable?)
    ensures MoreDeferred(s, Tolerate(s, e)) && Tolerate(s, e).state.verified == s.verified
  {
    DeferMore(s, e);
    RecordKeepsRest(s, Attribute(s, e), Class(e), None);
  }

  lemma BindQuietIff(s: State, phase: Assertion, outcome: Option<Rejection>)
    ensures var after := SettleContentBinding(Phase(s, phase), outcome);
      && (Quietly(after) <==>
            !HasDeferred(s.deferred) && (if s.path == [] then outcome.None? else BindingAside(phase, outcome)))
      && MoreDeferred(s, after) && after.state.verified == s.verified
  {
    if outcome == Some(RotationUnverifiable) {
      RotationQuietIff(Phase(s, phase));
    } else if outcome.Some? {
      TolerateQuietIff(Phase(s, phase), outcome.value, phase);
    }
  }

  lemma {:induction false} MaterialQuietIff(s: State, m: Material)
    requires MaterialOk(m) && Scoped(s)
    ensures Quietly(VerifyMaterial(s, m)) <==>
      !HasDeferred(s.deferred) && CleanMaterial(m, s.path == [], s.verified.Keys)
    ensures MoreDeferred(s, VerifyMaterial(s, m))
    ensures Quietly(VerifyMaterial(s, m)) ==> VerifyMaterial(s, m).state.verified.Keys == MetBy(m, s.verified.Keys)
    decreases m, 0
  {
    match m {
      case Done =>
      case Bind(phase, outcome) =>
        BindQuietIff(s, phase, outcome);
      case Do(step, next) =>
        StepQuietIff(s, step);
        if Perform(s, step).error.None? {
          MaterialQuietIff(Perform(s, step).state, next);
        }
      case Embed(slot, digest, inner, after) =>
        EmbeddedQuietIff(s, slot, digest, inner);
        var embedded := Embedded(s, slot, digest, inner);
        if embedded.error.None? {
          MaterialQuietIff(embedded.state, after);
        }
    }
  }

  lemma {:induction false} ReplayKeepsDeferred(s: State, findings: seq<Finding>)
    ensures Replay(s, findings) == s.(findings := Replay(s, findings).findings)
    decreases |findings|
  {
    if findings != [] {
      ReplayKeepsDeferred(Record(s, findings[0].assertion, findings[0].outcome, findings[0].restsOn), findings[1..]);
    }
  }

  lemma {:induction false} EmbeddedQuietIff(s: State, slot: string, digest: string, inner: Receipt)
    requires ReceiptOk(inner)
    ensures Quietly(Embedded(s, slot, digest, inner)) <==>
      !HasDeferred(s.deferred) && (digest in s.verified || CleanReceipt(inner, false, s.verified.Keys))
    ensures MoreDeferred(s, Embedded(s, slot, digest, inner))
    ensures Embedded(s, slot, digest, inner).error.None? ==> Embedded(s, slot, digest, inner).state.scope == s.scope
    ensures Quietly(Embedded(s, slot, digest, inner)) ==>
      Embedded(s, slot, digest, inner).state.verified.Keys ==
        (if digest in s.verified then s.verified.Keys else MetBy(inner.material, s.verified.Keys) + {digest})
    decreases inner, 1
  {
    var descended := s.(path := s.path + [slot]);
    if digest in s.verified {
      ReplayKeepsDeferred(descended, s.verified[digest]);
    } else {
      NestedQuietIff(descended, inner);
    }
  }

  /**
   * The verdict, exactly: a receipt is verified if and only if its version is read, it is not too large, and no check
   * over it or any receipt embedded in it finds anything, save what the binding of an embedded receipt's content finds.
   */
  lemma VerifiedIff(rootVersion: Option<Rejection>, decodedTooLarge: bool, r: Receipt)
    requires ReceiptOk(r)
    ensures VerifyReceiptReport(rootVersion, decodedTooLarge, r).result == Verified <==>
      rootVersion.None? && !decodedTooLarge && CleanReceipt(r, true, {})
  {
    var end := VerifyRoot(rootVersion, decodedTooLarge, r);
    R.RootKeeps(rootVersion, decodedTooLarge, r);
    R.ReportReduces(end, r);
    if rootVersion.None? && !decodedTooLarge {
      NestedQuietIff(FRESH, r);
      assert FRESH.verified.Keys == {};
    }
  }

  /** A receipt is invalid exactly where a defect ended its run. */
  lemma InvalidIff(rootVersion: Option<Rejection>, decodedTooLarge: bool, r: Receipt)
    requires ReceiptOk(r)
    ensures VerifyReceiptReport(rootVersion, decodedTooLarge, r).result == Invalid <==>
      var ended := VerifyRoot(rootVersion, decodedTooLarge, r).error; ended.Some? && ended.value.Defect?
  {
    R.RootKeeps(rootVersion, decodedTooLarge, r);
    R.ReportReduces(VerifyRoot(rootVersion, decodedTooLarge, r), r);
  }
}
