/** Which check a refusal is reported at: the first that refuses, under the assertion its phase settles. */
module FindingsRefused {
  import opened Basics
  import opened Findings
  import opened FindingsVerified

  /** Steps that find nothing run through. */
  lemma {:induction false} RunsThrough(s: State, steps: seq<Step>, rest: seq<Step>)
    requires NothingFound(steps)
    ensures PerformAll(s, steps).error.None?
    ensures PerformAll(s, steps + rest) == PerformAll(PerformAll(s, steps).state, rest)
    decreases |steps|
  {
    if steps == [] {
      assert steps + rest == rest;
    } else {
      assert steps[0] in steps && (steps + rest)[0] == steps[0] && (steps + rest)[1..] == steps[1..] + rest;
      RunsThrough(Perform(s, steps[0]).state, steps[1..], rest);
    }
  }

  /** Passes leave the phase as it was. */
  lemma {:induction false} PassesKeepPhase(s: State, steps: seq<Step>)
    requires forall step :: step in steps ==> step.Pass?
    ensures PerformAll(s, steps).state.scope == s.scope
    decreases |steps|
  {
    if steps != [] {
      assert steps[0] in steps;
      PassKeepsDeferred(s, steps[0].assertion, steps[0].also);
      PassesKeepPhase(Perform(s, steps[0]).state, steps[1..]);
    }
  }

  ghost predicate RefusedAt(after: After, phase: Assertion, e: Rejection) {
    after.error == Some(e) && after.state.scope == Some(phase)
  }

  /** A refusal after steps that find nothing ends the run in the phase they last entered. */
  lemma RefusedIn(
      s: State, before: seq<Step>, phase: Assertion, passes: seq<Step>, e: Rejection, rest: seq<Step>)
    requires NothingFound(before) && forall step :: step in passes ==> step.Pass?
    ensures RefusedAt(PerformAll(s, before + ([Enter(phase)] + (passes + ([Refuse(e)] + rest)))), phase, e)
  {
    var behind := passes + ([Refuse(e)] + rest);
    RunsThrough(s, before, [Enter(phase)] + behind);
    var entered := Phase(PerformAll(s, before).state, phase);
    assert ([Enter(phase)] + behind)[0] == Enter(phase) && ([Enter(phase)] + behind)[1..] == behind;
    RunsThrough(entered, passes, [Refuse(e)] + rest);
    PassesKeepPhase(entered, passes);
    assert ([Refuse(e)] + rest)[0] == Refuse(e);
  }

  /** The checks that refuse a receipt outright, in their order. */
  function RefusalOf(r: Receipt, k: nat): Option<Rejection> {
    match k
    case 0 => r.receiptVersion
    case 1 => r.fixedLimits
    case 2 => r.carriedMembers
    case 3 => r.payloadVersion
    case 4 => r.identifiers
    case 5 => r.adaptorMembers
    case 6 => r.container
    case 7 => r.paths
    case 8 => r.payloadFields
    case 9 => r.producerKeys
    case _ => None
  }

  /** The assertion each is reported under. */
  function ReportedUnder(k: nat): Assertion {
    match k
    case 0 => Versions
    case 1 => Structure
    case 2 => Structure
    case 3 => Versions
    case 4 => Structure
    case 5 => AdaptorProfile
    case 6 => Structure
    case 7 => Anchoring
    case 8 => Structure
    case _ => Governance
  }

  /** Nothing is found before the `k`th of them. */
  predicate ReachesRefusal(r: Receipt, k: nat) {
    && (forall j: nat :: j < k ==> RefusalOf(r, j).None?)
    && (k >= 6 ==> r.adaptorResolution.None?)
    && (k >= 8 ==> NothingFound(r.induction) && NothingFound(r.checkpoint) && NothingFound(r.envelopes))
  }

  lemma NoneBefore(r: Receipt, k: nat)
    requires ReachesRefusal(r, k)
    ensures k >= 1 ==> r.receiptVersion.None?
    ensures k >= 2 ==> r.fixedLimits.None?
    ensures k >= 3 ==> r.carriedMembers.None?
    ensures k >= 4 ==> r.payloadVersion.None?
    ensures k >= 5 ==> r.identifiers.None?
    ensures k >= 6 ==> r.adaptorMembers.None?
    ensures k >= 7 ==> r.container.None?
    ensures k >= 8 ==> r.paths.None?
    ensures k >= 9 ==> r.payloadFields.None?
  {
    assert k >= 1 ==> RefusalOf(r, 0).None?;
    assert k >= 2 ==> RefusalOf(r, 1).None?;
    assert k >= 3 ==> RefusalOf(r, 2).None?;
    assert k >= 4 ==> RefusalOf(r, 3).None?;
    assert k >= 5 ==> RefusalOf(r, 4).None?;
    assert k >= 6 ==> RefusalOf(r, 5).None?;
    assert k >= 7 ==> RefusalOf(r, 6).None?;
    assert k >= 8 ==> RefusalOf(r, 7).None?;
    assert k >= 9 ==> RefusalOf(r, 8).None?;
  }

  lemma VersionRefuses(s: State, r: Receipt)
    requires r.receiptVersion.Some?
    ensures RefusedAt(PerformAll(s, Opening(r)), Versions, r.receiptVersion.value)
  {
    var e := r.receiptVersion.value;
    var rest := Opening(r)[2..];
    RefusedIn(s, [], Versions, [], e, rest);
    assert Opening(r) == [] + ([Enter(Versions)] + ([] + ([Refuse(e)] + rest)));
  }

  lemma LimitsRefuse(s: State, r: Receipt)
    requires r.receiptVersion.None? && r.fixedLimits.Some?
    ensures RefusedAt(PerformAll(s, Opening(r)), Structure, r.fixedLimits.value)
  {
    var e := r.fixedLimits.value;
    var rest := Opening(r)[3..];
    RefusedIn(s, [Enter(Versions)], Structure, [], e, rest);
    assert Opening(r) == [Enter(Versions)] + ([Enter(Structure)] + ([] + ([Refuse(e)] + rest)));
  }

  lemma MembersRefuse(s: State, r: Receipt)
    requires r.receiptVersion.None? && r.fixedLimits.None? && r.carriedMembers.Some?
    ensures RefusedAt(PerformAll(s, Opening(r)), Structure, r.carriedMembers.value)
  {
    var (e, passes) := (r.carriedMembers.value, [Pass(ResourceLimits, [])]);
    var rest := Opening(r)[4..];
    RefusedIn(s, [Enter(Versions)], Structure, passes, e, rest);
    assert Opening(r) == [Enter(Versions)] + ([Enter(Structure)] + (passes + ([Refuse(e)] + rest)));
  }

  lemma PayloadVersionRefuses(s: State, r: Receipt)
    requires r.receiptVersion.None? && r.fixedLimits.None? && r.carriedMembers.None? && r.payloadVersion.Some?
    ensures RefusedAt(PerformAll(s, Opening(r)), Versions, r.payloadVersion.value)
  {
    var (e, before) := (r.payloadVersion.value, [Enter(Versions), Enter(Structure), Pass(ResourceLimits, [])]);
    var rest := Opening(r)[5..];
    RefusedIn(s, before, Versions, [], e, rest);
    assert Opening(r) == before + ([Enter(Versions)] + ([] + ([Refuse(e)] + rest)));
  }

  lemma IdentifiersRefuse(s: State, r: Receipt)
    requires r.receiptVersion.None? && r.fixedLimits.None? && r.carriedMembers.None? && r.payloadVersion.None?
    requires r.identifiers.Some?
    ensures RefusedAt(PerformAll(s, Opening(r)), Structure, r.identifiers.value)
  {
    var e := r.identifiers.value;
    var before := [Enter(Versions), Enter(Structure), Pass(ResourceLimits, []), Enter(Versions), Pass(Versions, [])];
    RefusedIn(s, before, Structure, [], e, []);
    assert Opening(r) == before + ([Enter(Structure)] + ([] + ([Refuse(e)] + [])));
  }

  lemma OpeningRefuses(s: State, r: Receipt, k: nat)
    requires k < 5 && ReachesRefusal(r, k) && RefusalOf(r, k).Some?
    ensures RefusedAt(PerformAll(s, Opening(r)), ReportedUnder(k), RefusalOf(r, k).value)
  {
    NoneBefore(r, k);
    match k {
      case 0 => VersionRefuses(s, r);
      case 1 => LimitsRefuse(s, r);
      case 2 => MembersRefuse(s, r);
      case 3 => PayloadVersionRefuses(s, r);
      case _ => IdentifiersRefuse(s, r);
    }
  }

  lemma ProfileRefuses(s: State, r: Receipt)
    requires r.adaptorMembers.Some?
    ensures RefusedAt(PerformAll(s, Profile(r)), AdaptorProfile, r.adaptorMembers.value)
  {
    var rest := Profile(r)[2..];
    RefusedIn(s, [], AdaptorProfile, [], r.adaptorMembers.value, rest);
    assert Profile(r) == [] + ([Enter(AdaptorProfile)] + ([] + ([Refuse(r.adaptorMembers.value)] + rest)));
  }

  lemma PathsRefuse(s: State, r: Receipt)
    ensures r.container.Some? ==> RefusedAt(PerformAll(s, Paths(r)), Structure, r.container.value)
    ensures r.container.None? && r.paths.Some? ==> RefusedAt(PerformAll(s, Paths(r)), Anchoring, r.paths.value)
  {
    var second := Refusal(r.paths) + [Pass(Anchoring, [])];
    var first := Refusal(r.container) + ([Pass(Structure, []), Enter(Anchoring)] + second);
    assert Paths(r) == [Enter(Structure)] + first;
    if r.container.Some? {
      RefusedIn(s, [], Structure, [], r.container.value, first[1..]);
      assert Paths(r) == [] + ([Enter(Structure)] + ([] + ([Refuse(r.container.value)] + first[1..])));
    } else if r.paths.Some? {
      var before := [Enter(Structure), Pass(Structure, [])];
      RefusedIn(s, before, Anchoring, [], r.paths.value, second[1..]);
      assert Paths(r) == before + ([Enter(Anchoring)] + ([] + ([Refuse(r.paths.value)] + second[1..])));
    }
  }

  lemma FieldsRefuse(s: State, r: Receipt)
    ensures r.payloadFields.Some? ==> RefusedAt(PerformAll(s, Fields(r)), Structure, r.payloadFields.value)
    ensures r.payloadFields.None? && r.producerKeys.Some? ==>
      RefusedAt(PerformAll(s, Fields(r)), Governance, r.producerKeys.value)
  {
    var second := Refusal(r.producerKeys) + [Enter(EnvelopeValidity), Pass(EnvelopeValidity, [])];
    var first := Refusal(r.payloadFields) + ([Enter(Governance)] + second);
    assert Fields(r) == [Enter(Structure)] + first;
    if r.payloadFields.Some? {
      RefusedIn(s, [], Structure, [], r.payloadFields.value, first[1..]);
      assert Fields(r) == [] + ([Enter(Structure)] + ([] + ([Refuse(r.payloadFields.value)] + first[1..])));
    } else if r.producerKeys.Some? {
      RefusedIn(s, [Enter(Structure)], Governance, [], r.producerKeys.value, second[1..]);
      assert Fields(r)
          == [Enter(Structure)] + ([Enter(Governance)] + ([] + ([Refuse(r.producerKeys.value)] + second[1..])));
    }
  }

  /** A piece that finds nothing is behind the run. */
  lemma {:induction false} PiecesReach(s: State, pieces: seq<seq<Step>>, n: nat) returns (reached: State)
    requires n < |pieces| && forall k :: 0 <= k < n ==> NothingFound(pieces[k])
    ensures PerformAll(reached, pieces[n]).error.Some? ==>
      PerformPieces(s, pieces) == PerformAll(reached, pieces[n])
    decreases |pieces|
  {
    if n == 0 {
      reached := s;
    } else {
      RunsThrough(s, pieces[0], []);
      reached := PiecesReach(PerformAll(s, pieces[0]).state, pieces[1..], n - 1);
    }
  }

  /** The pieces before the one the `k`th check is in. */
  function PiecesBefore(k: nat): nat {
    if k < 5 then 0 else if k == 5 then 1 else if k < 8 then 2 else 6
  }

  lemma PiecesBeforeFindNothing(r: Receipt, k: nat)
    requires k < 10 && ReachesRefusal(r, k)
    ensures forall n :: 0 <= n < PiecesBefore(k) ==> NothingFound(Pieces(r)[n])
  {
    NoneBefore(r, k);
    FoundInOpening(r);
    FoundInProfileAndPaths(r);
    FoundInLists(r);
  }

  lemma PieceRefuses(s: State, r: Receipt, k: nat)
    requires k < 10 && ReachesRefusal(r, k) && RefusalOf(r, k).Some?
    ensures RefusedAt(PerformAll(s, Pieces(r)[PiecesBefore(k)]), ReportedUnder(k), RefusalOf(r, k).value)
  {
    NoneBefore(r, k);
    if k < 5 {
      OpeningRefuses(s, r, k);
    } else if k == 5 {
      ProfileRefuses(s, r);
    } else if k < 8 {
      PathsRefuse(s, r);
    } else {
      FieldsRefuse(s, r);
    }
  }

  /**
   * The first of the refusing checks to refuse, where nothing else was found before it, ends the run, and is reported
   * under the assertion its phase settles.
   */
  lemma FirstRefusalDecides(s: State, r: Receipt, k: nat)
    requires k < 10 && ReachesRefusal(r, k) && RefusalOf(r, k).Some?
    ensures RefusedAt(VerifyNested(s, r), ReportedUnder(k), RefusalOf(r, k).value)
  {
    PiecesBeforeFindNothing(r, k);
    var reached := PiecesReach(s.(blocked := [], scope := None), Pieces(r), PiecesBefore(k));
    PieceRefuses(reached, r, k);
  }
}
