/** The report of a run that a rejection ended. */
module FindingsEnded {
  import opened Basics
  import opened Sorting
  import opened Findings
  import opened FindingsMeaning
  import R = FindingsReport

  /** There is a finding for the assertion of the receipt itself. */
  ghost predicate Settled(findings: seq<Finding>, a: Assertion) {
    exists f :: f in findings && f.assertion == a && f.path == []
  }

  /** What stands for an assertion that the run, stopped at another, did not reach. */
  ghost predicate StandsUnreached(
      findings: seq<Finding>, f: Finding, bindsContent: bool, stoppedAt: Assertion)
  {
    && f.path == [] && f.outcome == Unverifiable && f.restsOn == Some(stoppedAt)
    && !Settled(findings, f.assertion) && (f.assertion == ContentBinding ==> bindsContent)
  }

  lemma PositionFinds(s: State, a: Assertion)
    requires s.path == []
    ensures Position(s.findings, a, []) < |s.findings| <==> Settled(s.findings, a)
    ensures !Settled(s.findings, a) ==> forall o, restsOn ::
      Record(s, a, o, restsOn) == s.(findings := s.findings + [Finding(a, [], o, restsOn)])
  {
    var i := Position(s.findings, a, []);
    if i < |s.findings| {
      assert At(s.findings[i], a, []) && s.findings[i] in s.findings;
    }
    if Settled(s.findings, a) {
      var f :| f in s.findings && f.assertion == a && f.path == [];
      var k :| 0 <= k < |s.findings| && s.findings[k] == f;
      assert At(s.findings[k], a, []);
    }
  }

  lemma {:induction false} FillFromIs(
      s: State, rest: seq<Assertion>, bindsContent: bool, stoppedAt: Assertion, f: Finding)
    requires s.path == [] && forall i, j :: 0 <= i < j < |rest| ==> rest[i] != rest[j]
    ensures f in FillFrom(s, rest, bindsContent, stoppedAt).findings <==>
      f in s.findings || (f.assertion in rest && StandsUnreached(s.findings, f, bindsContent, stoppedAt))
    decreases |rest|
  {
    if rest != [] {
      var a := rest[0];
      PositionFinds(s, a);
      assert a !in rest[1..] && rest == [a] + rest[1..];
      if (a == ContentBinding && !bindsContent) || Settled(s.findings, a) {
        FillFromIs(s, rest[1..], bindsContent, stoppedAt, f);
      } else {
        var next := Record(s, a, Unverifiable, Some(stoppedAt));
        FillFromIs(next, rest[1..], bindsContent, stoppedAt, f);
        AddedSettles(s.findings, Finding(a, [], Unverifiable, Some(stoppedAt)), f.assertion);
      }
    }
  }

  lemma AddedSettles(findings: seq<Finding>, added: Finding, a: Assertion)
    requires added.path == []
    ensures Settled(findings + [added], a) <==> Settled(findings, a) || a == added.assertion
  {
    assert added in findings + [added];
    if f :| f in findings && f.assertion == a && f.path == [] {
      assert f in findings + [added];
    }
  }

  lemma FillUnreachedIs(s: State, bindsContent: bool, stoppedAt: Assertion, f: Finding)
    ensures f in FillUnreached(s, bindsContent, stoppedAt).findings <==>
      f in s.findings || StandsUnreached(s.findings, f, bindsContent, stoppedAt)
  {
    OrderIsAll(f.assertion);
    FillFromIs(s.(path := []), ORDER, bindsContent, stoppedAt, f);
  }

  lemma OrderIsAll(a: Assertion)
    ensures a in ORDER && forall i, j :: 0 <= i < j < |ORDER| ==> ORDER[i] != ORDER[j]
  {
    AssertionsInOrder(a);
  }

  /**
   * The findings a run is reported with that a rejection ended: those it had, the rejection's own as a cause, and, for
   * a gap, one resting on that for every assertion of the receipt not yet settled. For a defect no others are added.
   */
  lemma EndedReportIs(end: After, r: Receipt, a: Assertion, f: Finding)
    requires end.error.Some? && IsAbout(end.state, end.error.value, a)
    ensures var (gap, report) := (!end.error.value.Defect?, IntoReport(end, r));
      var recorded := Record(end.state, a, if gap then Unverifiable else Invalid, None).findings;
      && (f in report.findings <==> f in recorded || (gap && StandsUnreached(recorded, f, r.bindsContent, a)))
      && report.verdict.None?
  {
    var e := end.error.value;
    AboutIs(end.state, e, a);
    var recorded := Record(end.state, a, Class(e), None);
    FillUnreachedIs(recorded, r.bindsContent, a, f);
    var final := FinalState(end, r.bindsContent).findings;
    assert final == if e.Defect? then recorded.findings else FillUnreached(recorded, r.bindsContent, a).findings;
    R.SortKeepsMembers(final, ReportOrder());
  }

  /** The rejection's own finding, as a cause. */
  function Own(e: Rejection, a: Assertion): Finding {
    Finding(a, [], if e.Defect? then Invalid else Unverifiable, None)
  }

  lemma UnreadFinding(r: Receipt, e: Rejection, a: Assertion, f: Finding)
    requires IsAbout(FRESH, e, a)
    ensures f in IntoReport(After(FRESH, Some(e)), r).findings <==>
      f == Own(e, a) || (!e.Defect? && StandsUnreached([Own(e, a)], f, r.bindsContent, a))
  {
    FirstRecorded(a, Own(e, a).outcome);
    EndedReportIs(After(FRESH, Some(e)), r, a, f);
  }

  lemma FirstRecorded(a: Assertion, o: Outcome)
    ensures Record(FRESH, a, o, None).findings == [Finding(a, [], o, None)]
  {
  }

  /** A receipt whose version is not read, or that is too large, is refused for just that: nothing else is settled. */
  lemma UnreadRootReport(rootVersion: Option<Rejection>, decodedTooLarge: bool, r: Receipt, e: Rejection, a: Assertion)
    requires rootVersion == Some(e) || (rootVersion.None? && decodedTooLarge && e == BudgetExhausted)
    requires IsAbout(FRESH, e, a)
    ensures VerifyReceipt(rootVersion, decodedTooLarge, r) == Err(e)
    ensures var report := VerifyReceiptReport(rootVersion, decodedTooLarge, r);
      && Own(e, a) in report.findings
      && forall f :: f in report.findings && f.assertion != a ==>
           !e.Defect? && f.path == [] && f.outcome == Unverifiable && f.restsOn == Some(a)
  {
    UnreadRootEnds(rootVersion, decodedTooLarge, r, e);
    var report := IntoReport(After(FRESH, Some(e)), r);
    UnreadFinding(r, e, a, Own(e, a));
    forall f | f in report.findings && f.assertion != a
      ensures !e.Defect? && f.path == [] && f.outcome == Unverifiable && f.restsOn == Some(a)
    {
      UnreadFinding(r, e, a, f);
    }
  }

  lemma UnreadRootEnds(rootVersion: Option<Rejection>, decodedTooLarge: bool, r: Receipt, e: Rejection)
    requires rootVersion == Some(e) || (rootVersion.None? && decodedTooLarge && e == BudgetExhausted)
    ensures VerifyReceipt(rootVersion, decodedTooLarge, r) == Err(e)
    ensures VerifyReceiptReport(rootVersion, decodedTooLarge, r) == IntoReport(After(FRESH, Some(e)), r)
  {
  }
}
