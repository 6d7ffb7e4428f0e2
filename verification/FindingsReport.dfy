/** The report and the single value: what they agree on, what leads them, and what they leave out. */
module FindingsReport {
  import opened Basics
  import opened Sorting
  import opened Findings
  import opened FindingsLaws

  // ---------------------------------------------------------------------------
  // The reduction
  // ---------------------------------------------------------------------------

  /** The reduction without the order it is computed in. */
  lemma {:induction false} ReduceMeans(findings: seq<Finding>)
    ensures Reduce(findings) == Invalid <==> exists f :: f in findings && CountsFinding(f) && f.outcome == Invalid
    ensures Reduce(findings) == Verified <==> forall f :: f in findings && CountsFinding(f) ==> f.outcome == Verified
    decreases |findings|
  {
    if findings != [] {
      var (head, rest) := (findings[0], findings[1..]);
      ReduceMeans(rest);
      assert findings == [head] + rest;
    }
  }

  lemma SortKeepsMembers<T(!new)>(s: seq<T>, less: (T, T) -> bool)
    ensures forall x :: x in StableSort(s, less) <==> x in s
    ensures |StableSort(s, less)| == |s|
  {
    SortSorts(s, less);
    MultisetMembers(StableSort(s, less), s);
  }

  // ---------------------------------------------------------------------------
  // The end of a run
  // ---------------------------------------------------------------------------

  /** What an ended run leaves: the invariant, and a fatal rejection that enters the reduction. */
  lemma RootKeeps(rootVersion: Option<Rejection>, decodedTooLarge: bool, r: Receipt)
    requires ReceiptOk(r)
    ensures LeavesKept(FRESH, VerifyRoot(rootVersion, decodedTooLarge, r))
  {
    assert Clean(FRESH) && NoDefect(FRESH);
    if rootVersion.None? && !decodedTooLarge {
      NestedKeeps(FRESH, r);
    }
  }

  ghost predicate Led(findings: seq<Finding>) {
    HasCause(findings) && forall f :: f in findings && CountsFinding(f) ==> f.outcome != Invalid
  }

  lemma FillOne(s: State, a: Assertion, stoppedAt: Assertion)
    requires Led(s.findings)
    ensures Led(Record(s, a, Unverifiable, Some(stoppedAt)).findings)
    ensures Record(s, a, Unverifiable, Some(stoppedAt)).path == s.path
  {
    RecordEffect(s, a, Unverifiable, Some(stoppedAt));
  }

  lemma {:induction false} FillKeeps(s: State, rest: seq<Assertion>, bindsContent: bool, stoppedAt: Assertion)
    requires Led(s.findings)
    ensures Led(FillFrom(s, rest, bindsContent, stoppedAt).findings)
    decreases |rest|
  {
    if rest != [] {
      if (rest[0] == ContentBinding && !bindsContent) || Position(s.findings, rest[0], []) < |s.findings| {
        FillKeeps(s, rest[1..], bindsContent, stoppedAt);
      } else {
        FillOne(s, rest[0], stoppedAt);
        FillKeeps(Record(s, rest[0], Unverifiable, Some(stoppedAt)), rest[1..], bindsContent, stoppedAt);
      }
    }
  }

  /** The findings reported for a run that a defect ended hold exactly that one invalid cause. */
  lemma DefectEnds(end: After, bindsContent: bool)
    requires Kept(end.state) && end.error.Some? && Class(end.error.value) == Invalid
    requires Counts(Attribute(end.state, end.error.value), end.state.path)
    ensures var fatal := Finding(Attribute(end.state, end.error.value), end.state.path, Invalid, None);
      && fatal in FinalState(end, bindsContent).findings && CountsFinding(fatal)
      && forall f :: f in FinalState(end, bindsContent).findings && CountsFinding(f) && f.outcome == Invalid ==>
        f == fatal
  {
    RecordEffect(end.state, Attribute(end.state, end.error.value), Invalid, None);
  }

  /** Those for a run a gap ended hold no counting defect, and a cause. */
  lemma GapEnds(end: After, bindsContent: bool)
    requires Kept(end.state) && end.error.Some? && Class(end.error.value) == Unverifiable
    requires Counts(Attribute(end.state, end.error.value), end.state.path)
    ensures Led(FinalState(end, bindsContent).findings)
  {
    var stoppedAt := Attribute(end.state, end.error.value);
    RecordCause(end.state, stoppedAt);
    FillKeeps(Record(end.state, stoppedAt, Unverifiable, None).(path := []), ORDER, bindsContent, stoppedAt);
  }

  /** What the one rejection returned for a finished run is. */
  lemma DeferredDecides(s: State)
    requires NoDefect(s)
    ensures DominatingDeferred(s).Some? <==> HasDeferred(s.deferred)
    ensures DominatingDeferred(s).Some? ==> Class(DominatingDeferred(s).value) == Unverifiable
  {
    var counting := Filter(s.deferred, CountsTolerated);
    var candidates := StableSort(counting, DeferredOrder());
    SortKeepsMembers(counting, DeferredOrder());
    if HasDeferred(s.deferred) {
      var d :| d in s.deferred && Counts(d.assertion, d.path);
      assert d in counting && d in candidates;
    }
    if candidates != [] {
      assert candidates[0] in candidates && candidates[0] in counting;
    }
  }

  // ---------------------------------------------------------------------------
  // The two entry points agree
  // ---------------------------------------------------------------------------

  lemma ReportReduces(end: After, r: Receipt)
    requires LeavesKept(FRESH, end)
    ensures IntoReport(end, r).result == (
      if end.error.Some? then Class(end.error.value)
      else if HasDeferred(end.state.deferred) then Unverifiable
      else Verified)
  {
    var findings := FinalState(end, r.bindsContent).findings;
    SortKeepsMembers(findings, ReportOrder());
    var sorted := StableSort(findings, ReportOrder());
    ReduceMeans(sorted);
    if end.error.Some? {
      if Class(end.error.value) == Invalid {
        DefectEnds(end, r.bindsContent);
      } else {
        GapEnds(end, r.bindsContent);
        var f :| f in findings && Cause(f);
        assert f in sorted;
      }
    } else if HasDeferred(end.state.deferred) {
      assert Troubled(end.state);
      var f :| f in findings && Cause(f);
      assert f in sorted;
    }
  }

  /**
   * The single value is the verdict exactly when the report's result is verified, and else a rejection of its class.
   */
  lemma EntryPointsAgree(rootVersion: Option<Rejection>, decodedTooLarge: bool, r: Receipt)
    requires ReceiptOk(r)
    ensures var report := VerifyReceiptReport(rootVersion, decodedTooLarge, r);
      var single := VerifyReceipt(rootVersion, decodedTooLarge, r);
      && (single.Ok? <==> report.result == Verified)
      && (report.verdict.Some? <==> report.result == Verified)
      && (single.Ok? ==> report.verdict == Some(single.value))
      && (single.Err? ==> Class(single.error) == report.result)
  {
    var end := VerifyRoot(rootVersion, decodedTooLarge, r);
    RootKeeps(rootVersion, decodedTooLarge, r);
    ReportReduces(end, r);
    DeferredDecides(end.state);
  }

  // ---------------------------------------------------------------------------
  // Every result short of verified has a cause
  // ---------------------------------------------------------------------------

  lemma DominatingMeans(report: Report)
    ensures (exists f :: f in report.findings && CountsFinding(f) && f.outcome == Invalid) ==>
      Dominating(report).Some? && Dominating(report).value in report.findings &&
      CountsFinding(Dominating(report).value) && Dominating(report).value.outcome == Invalid
    ensures Led(report.findings) ==>
      Dominating(report).Some? && Dominating(report).value in report.findings && Cause(Dominating(report).value)
  {
  }

  /** `dominating` leads with a finding its own check produced; the fallback to an inherited one is never taken. */
  lemma EveryResultHasACause(rootVersion: Option<Rejection>, decodedTooLarge: bool, r: Receipt)
    requires ReceiptOk(r)
    requires VerifyReceiptReport(rootVersion, decodedTooLarge, r).result != Verified
    ensures var report := VerifyReceiptReport(rootVersion, decodedTooLarge, r);
      && Dominating(report).Some? && Dominating(report).value in report.findings
      && CountsFinding(Dominating(report).value)
      && Dominating(report).value.outcome == report.result
      && Dominating(report).value.restsOn == None
  {
    var end := VerifyRoot(rootVersion, decodedTooLarge, r);
    var report := IntoReport(end, r);
    var findings := FinalState(end, r.bindsContent).findings;
    RootKeeps(rootVersion, decodedTooLarge, r);
    ReportReduces(end, r);
    SortKeepsMembers(findings, ReportOrder());
    DominatingMeans(report);
    if end.error.Some? && Class(end.error.value) == Invalid {
      DefectEnds(end, r.bindsContent);
      assert Finding(Attribute(end.state, end.error.value), end.state.path, Invalid, None) in report.findings;
    } else {
      if end.error.Some? {
        GapEnds(end, r.bindsContent);
      } else {
        assert Troubled(end.state);
      }
      var f :| f in findings && Cause(f);
      assert f in report.findings && HasCause(report.findings);
    }
  }
}
