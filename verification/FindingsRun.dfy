/** The run as the object the checks update, driven over one receipt and everything embedded in it. */
module FindingsRun {
  import opened Basics
  import opened Sorting
  import opened Findings

  class Run {
    var findings: seq<Finding>
    var path: Path
    var scope: Option<Assertion>
    var blocked: seq<Assertion>
    var deferred: seq<Tolerated>
    var verified: map<string, seq<Finding>>

    function Now(): State
      reads this
    {
      State(findings, path, scope, blocked, deferred, verified)
    }

    constructor ()
      ensures Now() == FRESH
    {
      findings, path, scope, blocked, deferred, verified := [], [], None, [], [], map[];
    }

    method Find(assertion: Assertion) returns (i: nat)
      ensures i == Position(findings, assertion, path)
    {
      i := 0;
      while i < |findings| && !At(findings[i], assertion, path)
        invariant i <= |findings|
        invariant forall k :: 0 <= k < i ==> !At(findings[k], assertion, path)
      {
        i := i + 1;
      }
    }

    method Note(assertion: Assertion, outcome: Outcome, restsOn: Option<Assertion>)
      modifies `findings
      ensures Now() == Record(old(Now()), assertion, outcome, restsOn)
    {
      var i := Find(assertion);
      if i < |findings| {
        var existing := findings[i];
        if Rank(outcome) > Rank(existing.outcome) {
          findings := findings[i := existing.(outcome := outcome, restsOn := restsOn)];
        }
        return;
      }
      findings := findings + [Finding(assertion, path, outcome, restsOn)];
    }

    method EnterPhase(assertion: Assertion)
      modifies `scope
      ensures Now() == Phase(old(Now()), assertion)
    {
      scope := Some(assertion);
    }

    method Settle(assertion: Assertion, also: seq<Assertion>)
      modifies `findings, `blocked
      ensures Now() == PassRestingOn(old(Now()), assertion, also)
    {
      var unmet := Unmet(Prerequisites(assertion) + also, blocked);
      if unmet.Some? {
        Note(assertion, Unverifiable, unmet);
        if assertion !in blocked {
          blocked := blocked + [assertion];
        }
      } else {
        Note(assertion, Verified, None);
      }
    }

    method DeferRejection(error: Rejection)
      modifies `findings, `blocked, `deferred
      ensures Now() == Defer(old(Now()), error)
    {
      var settled := Attribute(Now(), error);
      Note(settled, Class(error), None);
      deferred := deferred + [Tolerated(settled, path, error)];
      if settled !in blocked {
        blocked := blocked + [settled];
      }
    }

    /** `None` where the run carries on. */
    method CarryPast(error: Rejection) returns (ended: Option<Rejection>)
      modifies `findings, `blocked, `deferred
      ensures After(Now(), ended) == Tolerate(old(Now()), error)
    {
      if Class(error) != Unverifiable && Counts(Attribute(Now(), error), path) {
        return Some(error);
      }
      if error.UnsupportedVersion? || error.BudgetExhausted? {
        return Some(error);
      }
      DeferRejection(error);
      return None;
    }

    method SettleBinding(outcome: Option<Rejection>) returns (ended: Option<Rejection>)
      modifies `findings, `blocked, `deferred, `scope
      ensures After(Now(), ended) == SettleContentBinding(old(Now()), outcome)
    {
      if outcome.None? {
        return None;
      }
      if outcome.value.RotationUnverifiable? {
        EnterPhase(ContentBinding);
        Settle(ContentBinding, [Governance]);
        ended := CarryPast(outcome.value);
        if ended.None? {
          EnterPhase(ClaimMaterial);
        }
        return;
      }
      ended := CarryPast(outcome.value);
    }

    method Act(step: Step) returns (ended: Option<Rejection>)
      modifies `findings, `blocked, `deferred, `scope
      ensures After(Now(), ended) == Perform(old(Now()), step)
    {
      ended := None;
      match step {
        case Enter(phase) => EnterPhase(phase);
        case Pass(assertion, also) => Settle(assertion, also);
        case Carry(error) => ended := CarryPast(error);
        case RecordGap => DeferRejection(UnsupportedVersion);
        case Refuse(error) => ended := Some(error);
      }
    }

    method ActAll(steps: seq<Step>) returns (ended: Option<Rejection>)
      modifies `findings, `blocked, `deferred, `scope
      ensures After(Now(), ended) == PerformAll(old(Now()), steps)
    {
      ended := None;
      for i := 0 to |steps|
        invariant ended == None
        invariant PerformAll(Now(), steps[i..]) == PerformAll(old(Now()), steps)
        invariant path == old(path) && verified == old(verified)
      {
        assert steps[i..][0] == steps[i] && steps[i..][1..] == steps[i + 1..];
        ended := Act(steps[i]);
        if ended.Some? {
          return;
        }
      }
    }

    method ReplayAll(cached: seq<Finding>)
      modifies `findings
      ensures Now() == Replay(old(Now()), cached)
    {
      for i := 0 to |cached|
        invariant Replay(Now(), cached[i..]) == Replay(old(Now()), cached)
      {
        assert cached[i..][0] == cached[i] && cached[i..][1..] == cached[i + 1..];
        Note(cached[i].assertion, cached[i].outcome, cached[i].restsOn);
      }
    }

    method RunPreliminaries(r: Receipt) returns (ended: Option<Rejection>)
      modifies `findings, `blocked, `deferred, `scope
      ensures After(Now(), ended) == Preliminaries(old(Now()), r)
    {
      ended := None;
      var pieces := Pieces(r);
      while pieces != []
        invariant ended == None && path == old(path) && verified == old(verified)
        invariant PerformPieces(Now(), pieces) == Preliminaries(old(Now()), r)
        decreases |pieces|
      {
        ended := ActAll(pieces[0]);
        if ended.Some? {
          return;
        }
        pieces := pieces[1..];
      }
    }

    /** The blocks and the phase of the enclosing receipt are put back only where this one succeeds. */
    method RunNested(r: Receipt) returns (ended: Option<Rejection>)
      modifies this
      ensures After(Now(), ended) == VerifyNested(old(Now()), r)
      decreases r, 0
    {
      var enclosingBlock, enclosingPhase := blocked, scope;
      blocked, scope := [], None;
      ended := RunPreliminaries(r);
      if ended.Some? {
        return;
      }
      ended := RunMaterial(r.material);
      if ended.Some? {
        return;
      }
      ended := ActAll(Closing(r));
      if ended.None? {
        blocked, scope := enclosingBlock, enclosingPhase;
      }
    }

    method RunMaterial(m: Material) returns (ended: Option<Rejection>)
      modifies this
      ensures After(Now(), ended) == VerifyMaterial(old(Now()), m)
      decreases m, 0
    {
      match m {
        case Done =>
          ended := None;
        case Bind(phase, outcome) =>
          EnterPhase(phase);
          ended := SettleBinding(outcome);
        case Do(step, next) =>
          ended := Act(step);
          if ended.None? {
            ended := RunMaterial(next);
          }
        case Embed(slot, digest, inner, after) =>
          ended := RunEmbedded(slot, digest, inner);
          if ended.None? {
            ended := RunMaterial(after);
          }
      }
    }

    /** A receipt met before is served from the cache; the path is popped only where it succeeds. */
    method RunEmbedded(slot: string, digest: string, inner: Receipt) returns (ended: Option<Rejection>)
      modifies this
      ensures After(Now(), ended) == Embedded(old(Now()), slot, digest, inner)
      decreases inner, 1
    {
      var enclosing := path;
      path := path + [slot];
      if digest in verified {
        ReplayAll(verified[digest]);
        ended := None;
      } else {
        var before := |findings|;
        ended := RunNested(inner);
        if ended.Some? {
          return;
        }
        verified := verified[digest := if before <= |findings| then findings[before..] else []];
      }
      path := enclosing;
    }

    method FillUnsettled(bindsContent: bool, stoppedAt: Assertion)
      modifies `findings, `path
      ensures Now() == FillUnreached(old(Now()), bindsContent, stoppedAt)
    {
      path := [];
      var rest := ORDER;
      while rest != []
        invariant path == [] && unchanged(`scope, `blocked, `deferred, `verified)
        invariant FillFrom(Now(), rest, bindsContent, stoppedAt) == FillUnreached(old(Now()), bindsContent, stoppedAt)
        decreases |rest|
      {
        var assertion := rest[0];
        if assertion != ContentBinding || bindsContent {
          var i := Find(assertion);
          if i == |findings| {
            Note(assertion, Unverifiable, Some(stoppedAt));
          }
        }
        rest := rest[1..];
      }
    }

    method ToReport(ended: Option<Rejection>, r: Receipt) returns (report: Report)
      modifies `findings, `path
      ensures report == IntoReport(After(old(Now()), ended), r)
    {
      if ended.Some? {
        var stoppedAt := Attribute(Now(), ended.value);
        Note(stoppedAt, Class(ended.value), None);
        if Class(ended.value) == Unverifiable {
          FillUnsettled(r.bindsContent, stoppedAt);
        }
      }
      var sorted := StableSort(findings, ReportOrder());
      var result := Reduce(sorted);
      report := Report(result, sorted, if ended.None? && result == Verified then Some(r.verdict) else None);
    }
  }

  method StartRun(rootVersion: Option<Rejection>, decodedTooLarge: bool, r: Receipt)
      returns (run: Run, ended: Option<Rejection>)
    ensures fresh(run) && After(run.Now(), ended) == VerifyRoot(rootVersion, decodedTooLarge, r)
  {
    run := new Run();
    if rootVersion.Some? {
      ended := rootVersion;
    } else if decodedTooLarge {
      ended := Some(BudgetExhausted);
    } else {
      ended := run.RunNested(r);
    }
  }

  method ReportOn(rootVersion: Option<Rejection>, decodedTooLarge: bool, r: Receipt) returns (report: Report)
    ensures report == VerifyReceiptReport(rootVersion, decodedTooLarge, r)
  {
    var run, ended := StartRun(rootVersion, decodedTooLarge, r);
    report := run.ToReport(ended, r);
  }

  method Verify(rootVersion: Option<Rejection>, decodedTooLarge: bool, r: Receipt)
      returns (single: Result<string, Rejection>)
    ensures single == VerifyReceipt(rootVersion, decodedTooLarge, r)
  {
    var run, ended := StartRun(rootVersion, decodedTooLarge, r);
    if ended.Some? {
      return Err(ended.value);
    }
    var deferred := DominatingDeferred(run.Now());
    return if deferred.Some? then Err(deferred.value) else Ok(r.verdict);
  }
}
