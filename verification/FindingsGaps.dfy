/** What the gaps of a run leave of its report. */
module FindingsGaps {
  import opened Basics
  import opened Sorting
  import opened Findings
  import opened FindingsComplete
  import opened FindingsRest
  import R = FindingsReport

  /** And nothing else: on such a run versions, limits, structure and paths are verified, whatever else was short. */
  lemma GapsReachNothingElse(rootVersion: Option<Rejection>, decodedTooLarge: bool, r: Receipt, q: Assertion)
    requires PhasesOk(r) && Solid(q) && VerifyRoot(rootVersion, decodedTooLarge, r).error.None?
    ensures var findings := VerifyReceiptReport(rootVersion, decodedTooLarge, r).findings;
      && (exists f :: f in findings && At(f, q, []) && f.outcome == Verified)
      && (forall f :: f in findings && At(f, q, []) ==> f.outcome == Verified)
  {
    NestedSpares(FRESH, r, q);
    R.SortKeepsMembers(VerifyNested(FRESH, r).state.findings, ReportOrder());
    NestedGrows(FRESH, r);
    assert (q, []) in Keys(VerifyNested(FRESH, r).state.findings);
  }

  /** The assertion has a finding of the receipt's own that is short of verified. */
  ghost predicate OwnShort(report: Report, a: Assertion) {
    exists f :: f in report.findings && f.assertion == a && f.path == [] && f.outcome != Verified
  }

  lemma GovernanceReaches(r: Receipt)
    requires PhasesOk(r) && VerifyNested(FRESH, r).error.None?
    ensures var settled := VerifyNested(FRESH, r).state.findings;
      Short(settled, Governance, []) ==>
        && Short(settled, CheckpointAuthentication, []) && Short(settled, Witnesses, [])
        && Short(settled, EnvelopeValidity, []) && (r.authorityDependent ==> Short(settled, ClaimMaterial, []))
  {
    if Short(VerifyNested(FRESH, r).state.findings, Governance, []) {
      NestedRests(FRESH, r, Governance, CheckpointAuthentication);
      NestedRests(FRESH, r, Governance, Witnesses);
      NestedRests(FRESH, r, Governance, EnvelopeValidity);
    }
  }

  lemma ProfileReaches(r: Receipt)
    requires PhasesOk(r) && VerifyNested(FRESH, r).error.None?
    ensures var settled := VerifyNested(FRESH, r).state.findings;
      Short(settled, AdaptorProfile, []) ==>
        Short(settled, CheckpointAuthentication, []) && Short(settled, Witnesses, [])
  {
    if Short(VerifyNested(FRESH, r).state.findings, AdaptorProfile, []) {
      NestedRests(FRESH, r, AdaptorProfile, CheckpointAuthentication);
      NestedRests(FRESH, r, AdaptorProfile, Witnesses);
    }
  }

  /**
   * On a run that came to its end, what rests on what, by name. No state of governance, no checkpoint, no witness and
   * no signature is reported as holding; no profile, no checkpoint and no witness. A claim that depends on authority
   * rests on governance and on the subject's signature.
   */
  lemma GapsReachWhatRestsOnThem(rootVersion: Option<Rejection>, decodedTooLarge: bool, r: Receipt)
    requires PhasesOk(r) && VerifyRoot(rootVersion, decodedTooLarge, r).error.None?
    ensures var report := VerifyReceiptReport(rootVersion, decodedTooLarge, r);
      && (OwnShort(report, Governance) ==>
            && OwnShort(report, CheckpointAuthentication) && OwnShort(report, Witnesses)
            && OwnShort(report, EnvelopeValidity) && (r.authorityDependent ==> OwnShort(report, ClaimMaterial)))
      && (OwnShort(report, AdaptorProfile) ==>
            OwnShort(report, CheckpointAuthentication) && OwnShort(report, Witnesses))
      && (r.authorityDependent && OwnShort(report, EnvelopeValidity) ==> OwnShort(report, ClaimMaterial))
  {
    var settled := VerifyNested(FRESH, r).state.findings;
    var report := VerifyReceiptReport(rootVersion, decodedTooLarge, r);
    OwnShortIff(settled, report);
    GovernanceReaches(r);
    ProfileReaches(r);
    if r.authorityDependent && OwnShort(report, EnvelopeValidity) {
      NestedAuthorityRests(FRESH, r);
    }
  }

  /** And the witnesses on the checkpoint they cosign, where no gap is carried past while material authenticates one. */
  lemma WitnessesRestOnCheckpoint(rootVersion: Option<Rejection>, decodedTooLarge: bool, r: Receipt)
    requires PhasesOk(r) && CheckpointQuiet(r.material, false)
    requires VerifyRoot(rootVersion, decodedTooLarge, r).error.None?
    ensures var report := VerifyReceiptReport(rootVersion, decodedTooLarge, r);
      OwnShort(report, CheckpointAuthentication) ==> OwnShort(report, Witnesses)
  {
    var report := VerifyReceiptReport(rootVersion, decodedTooLarge, r);
    OwnShortIff(VerifyNested(FRESH, r).state.findings, report);
    if OwnShort(report, CheckpointAuthentication) {
      NestedWitnessesRest(FRESH, r);
    }
  }

  /**
   * And the consistency of the receipt on what its rules were left unevaluated over: the witnesses, and the checkpoint
   * under the same condition.
   */
  lemma ConsistencyRestsOnUnevaluated(
      rootVersion: Option<Rejection>, decodedTooLarge: bool, r: Receipt, q: Assertion)
    requires PhasesOk(r) && VerifyRoot(rootVersion, decodedTooLarge, r).error.None? && q in r.unevaluated
    requires q == Witnesses || (q == CheckpointAuthentication && CheckpointQuiet(r.material, false))
    ensures var report := VerifyReceiptReport(rootVersion, decodedTooLarge, r);
      OwnShort(report, q) ==> OwnShort(report, CrossField)
  {
    var report := VerifyReceiptReport(rootVersion, decodedTooLarge, r);
    OwnShortIff(VerifyNested(FRESH, r).state.findings, report);
    if OwnShort(report, q) {
      NestedUnevaluatedRests(FRESH, r, q);
    }
  }

  lemma OwnShortIff(settled: seq<Finding>, report: Report)
    requires report.findings == StableSort(settled, ReportOrder())
    ensures forall a :: OwnShort(report, a) <==> Short(settled, a, [])
  {
    R.SortKeepsMembers(settled, ReportOrder());
  }
}
