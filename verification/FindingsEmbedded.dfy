/** What is reported of receipts embedded in a receipt, whether they are run or served from the cache. */
module FindingsEmbedded {
  import opened Basics
  import opened Findings
  import opened FindingsLaws
  import opened FindingsComplete
  import opened FindingsMeaning

  // ---------------------------------------------------------------------------
  // Findings stay where they are
  // ---------------------------------------------------------------------------

  /** Every finding keeps its place, and what it is about. */
  ghost predicate KeepsPlaces(s: State, t: State) {
    && |s.findings| <= |t.findings|
    && forall i :: 0 <= i < |s.findings| ==>
      t.findings[i].assertion == s.findings[i].assertion && t.findings[i].path == s.findings[i].path
  }

  lemma RecordKeepsPlaces(s: State, a: Assertion, o: Outcome, restsOn: Option<Assertion>)
    ensures KeepsPlaces(s, Record(s, a, o, restsOn))
  {
  }

  lemma StepKeepsPlaces(s: State, step: Step)
    ensures KeepsPlaces(s, Perform(s, step).state)
  {
    match step {
      case Pass(a, also) =>
        RecordKeepsPlaces(s, a, Verified, None);
        RecordKeepsPlaces(s, a, Unverifiable, Unmet(Prerequisites(a) + also, s.blocked));
      case Carry(e) => RecordKeepsPlaces(s, Attribute(s, e), Class(e), None);
      case RecordGap => RecordKeepsPlaces(s, Attribute(s, UnsupportedVersion), Unverifiable, None);
      case _ =>
    }
  }

  lemma {:induction false} StepsKeepPlaces(s: State, steps: seq<Step>)
    ensures KeepsPlaces(s, PerformAll(s, steps).state)
    decreases |steps|
  {
    if steps != [] {
      StepKeepsPlaces(s, steps[0]);
      if Perform(s, steps[0]).error.None? {
        StepsKeepPlaces(Perform(s, steps[0]).state, steps[1..]);
      }
    }
  }

  lemma {:induction false} PiecesKeepPlaces(s: State, pieces: seq<seq<Step>>)
    ensures KeepsPlaces(s, PerformPieces(s, pieces).state)
    decreases |pieces|
  {
    if pieces != [] {
      StepsKeepPlaces(s, pieces[0]);
      if PerformAll(s, pieces[0]).error.None? {
        PiecesKeepPlaces(PerformAll(s, pieces[0]).state, pieces[1..]);
      }
    }
  }

  lemma {:induction false} ReplayKeepsPlaces(s: State, findings: seq<Finding>)
    ensures KeepsPlaces(s, Replay(s, findings))
    decreases |findings|
  {
    if findings != [] {
      RecordKeepsPlaces(s, findings[0].assertion, findings[0].outcome, findings[0].restsOn);
      ReplayKeepsPlaces(Record(s, findings[0].assertion, findings[0].outcome, findings[0].restsOn), findings[1..]);
    }
  }

  lemma BindKeepsPlaces(s: State, outcome: Option<Rejection>)
    ensures KeepsPlaces(s, SettleContentBinding(s, outcome).state)
  {
    if outcome.Some? {
      if outcome.value.RotationUnverifiable? {
        var entered := Phase(s, ContentBinding);
        StepKeepsPlaces(entered, Pass(ContentBinding, [Governance]));
        StepKeepsPlaces(PassRestingOn(entered, ContentBinding, [Governance]), Carry(outcome.value));
      } else {
        StepKeepsPlaces(s, Carry(outcome.value));
      }
    }
  }

  lemma {:induction false} NestedKeepsPlaces(s: State, r: Receipt)
    ensures KeepsPlaces(s, VerifyNested(s, r).state)
    decreases r, 0
  {
    var start := s.(blocked := [], scope := None);
    PiecesKeepPlaces(start, Pieces(r));
    var before := Preliminaries(start, r);
    if before.error.None? {
      MaterialKeepsPlaces(before.state, r.material);
      var claimed := VerifyMaterial(before.state, r.material);
      if claimed.error.None? {
        StepsKeepPlaces(claimed.state, Closing(r));
      }
    }
  }

  lemma {:induction false} MaterialKeepsPlaces(s: State, m: Material)
    ensures KeepsPlaces(s, VerifyMaterial(s, m).state)
    decreases m, 0
  {
    match m {
      case Done =>
      case Bind(phase, outcome) =>
        BindKeepsPlaces(Phase(s, phase), outcome);
      case Do(step, next) =>
        StepKeepsPlaces(s, step);
        if Perform(s, step).error.None? {
          MaterialKeepsPlaces(Perform(s, step).state, next);
        }
      case Embed(slot, digest, inner, after) =>
        EmbeddedKeepsPlaces(s, slot, digest, inner);
        if Embedded(s, slot, digest, inner).error.None? {
          MaterialKeepsPlaces(Embedded(s, slot, digest, inner).state, after);
        }
    }
  }

  lemma {:induction false} EmbeddedKeepsPlaces(s: State, slot: string, digest: string, inner: Receipt)
    ensures KeepsPlaces(s, Embedded(s, slot, digest, inner).state)
    decreases inner, 1
  {
    var descended := s.(path := s.path + [slot]);
    if digest in s.verified {
      ReplayKeepsPlaces(descended, s.verified[digest]);
    } else {
      NestedKeepsPlaces(descended, inner);
    }
  }

  // ---------------------------------------------------------------------------
  // Embedded receipts are reported
  // ---------------------------------------------------------------------------

  ghost predicate Has(findings: seq<Finding>, a: Assertion) {
    exists f :: f in findings && f.assertion == a
  }

  ghost predicate HasAt(findings: seq<Finding>, a: Assertion, path: Path) {
    exists f :: f in findings && f.assertion == a && f.path == path
  }

  /** A finding at the path about what `f` is about, no better than `f`. */
  ghost predicate HasAsBad(findings: seq<Finding>, f: Finding, path: Path) {
    exists g :: g in findings && g.assertion == f.assertion && g.path == path && !Dominates(f.outcome, g.outcome)
  }

  /** The findings have one for every assertion a receipt requires, wherever they were made. */
  ghost predicate Covers(findings: seq<Finding>, bindsContent: bool) {
    forall a :: Has(findings, a) || (a == ContentBinding && !bindsContent)
  }

  ghost predicate CoversAt(findings: seq<Finding>, path: Path, bindsContent: bool) {
    forall a :: HasAt(findings, a, path) || (a == ContentBinding && !bindsContent)
  }

  lemma {:induction false} ReplayKeepsAsBad(s: State, findings: seq<Finding>, f: Finding)
    requires Distinct(s.findings) && HasAsBad(s.findings, f, s.path)
    ensures HasAsBad(Replay(s, findings).findings, f, s.path)
    decreases |findings|
  {
    if findings != [] {
      var head := findings[0];
      var g :| g in s.findings && g.assertion == f.assertion && g.path == s.path && !Dominates(f.outcome, g.outcome);
      RecordGrows(s, head.assertion, head.outcome, head.restsOn);
      RecordIs(s, head.assertion, head.outcome, head.restsOn);
      var recorded := Finding(head.assertion, s.path, head.outcome, head.restsOn);
      var next := Record(s, head.assertion, head.outcome, head.restsOn);
      assert g in next.findings || (recorded in next.findings && Dominates(head.outcome, g.outcome));
      ReplayKeepsAsBad(next, findings[1..], f);
    }
  }

  /** A replayed finding is recorded at the current path, and stays there unless a worse one is. */
  lemma {:induction false} ReplayRecords(s: State, findings: seq<Finding>, f: Finding)
    requires Distinct(s.findings) && f in findings
    ensures HasAsBad(Replay(s, findings).findings, f, s.path)
    decreases |findings|
  {
    var head := findings[0];
    var next := Record(s, head.assertion, head.outcome, head.restsOn);
    RecordGrows(s, head.assertion, head.outcome, head.restsOn);
    if f == head {
      RecordIs(s, head.assertion, head.outcome, head.restsOn);
      assert Finding(head.assertion, s.path, head.outcome, head.restsOn) in next.findings
        || HasAsBad(s.findings, f, s.path);
      ReplayKeepsAsBad(next, findings[1..], f);
    } else {
      ReplayRecords(next, findings[1..], f);
    }
  }

  /** A receipt that is run at a path without findings leaves in the cache a finding for each assertion it requires. */
  lemma RunFillsCache(s: State, slot: string, digest: string, inner: Receipt)
    requires digest !in s.verified && Embedded(s, slot, digest, inner).error.None?
    requires forall f :: f in s.findings ==> f.path != s.path + [slot]
    ensures var next := Embedded(s, slot, digest, inner).state;
      digest in next.verified && Covers(next.verified[digest], inner.bindsContent)
  {
    var descended := s.(path := s.path + [slot]);
    NestedGrows(descended, inner);
    NestedKeepsPlaces(descended, inner);
    var nested := VerifyNested(descended, inner).state;
    var cached := nested.findings[|s.findings|..];
    forall j | 0 <= j < |s.findings| ensures nested.findings[j].path != descended.path {
      assert s.findings[j] in s.findings;
    }
    forall a ensures Has(cached, a) || (a == ContentBinding && !inner.bindsContent) {
      if Required(a, inner.bindsContent) {
        assert (a, descended.path) in Keys(nested.findings);
        var f :| f in nested.findings && f.assertion == a && f.path == descended.path;
        var i :| 0 <= i < |nested.findings| && nested.findings[i] == f;
        assert cached[i - |s.findings|] == f;
      }
    }
  }

  /**
   * Wherever a receipt is embedded, its slot has a finding for every assertion it requires: one its own run made, or
   * one that the cache, filled by an earlier run of it, serves at this path, no better than what that run found.
   */
  lemma EmbeddedIsReported(s: State, slot: string, digest: string, inner: Receipt)
    requires Distinct(s.findings) && Embedded(s, slot, digest, inner).error.None?
    requires digest in s.verified ==> Covers(s.verified[digest], inner.bindsContent)
    ensures var next := Embedded(s, slot, digest, inner).state;
      && CoversAt(next.findings, s.path + [slot], inner.bindsContent)
      && (digest in s.verified ==>
            forall f :: f in s.verified[digest] ==> HasAsBad(next.findings, f, s.path + [slot]))
  {
    var descended := s.(path := s.path + [slot]);
    var next := Embedded(s, slot, digest, inner).state;
    if digest in s.verified {
      forall f | f in s.verified[digest] ensures HasAsBad(next.findings, f, s.path + [slot]) {
        ReplayRecords(descended, s.verified[digest], f);
      }
    } else {
      NestedGrows(descended, inner);
    }
    forall a ensures HasAt(next.findings, a, s.path + [slot]) || (a == ContentBinding && !inner.bindsContent) {
      if digest in s.verified && Has(s.verified[digest], a) {
        var f :| f in s.verified[digest] && f.assertion == a;
        assert HasAsBad(next.findings, f, s.path + [slot]);
      } else if Required(a, inner.bindsContent) {
        assert (a, descended.path) in Keys(next.findings);
      }
    }
  }
}
