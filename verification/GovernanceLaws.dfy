/** What every governance walk keeps, and how far two walks over one receipt agree. */
module GovernanceLaws {
  import opened Basics
  import opened Envelopes
  import opened Statements
  import opened KeyState
  import opened Governance
  import opened GovernanceWalk

  // ---------------------------------------------------------------------------
  // The induction is sound
  // ---------------------------------------------------------------------------

  function Last<T>(s: seq<T>): T
    requires s != []
  {
    s[|s| - 1]
  }

  /** All that a statement had to pass, given only the statements inducted before it. */
  ghost predicate Admitted(c: Checks, before: seq<Inducted>, s: Inducted) {
    var hop := Hop(IndexOf(s), EnvelopeOf(s));
    && PhaseOne(c, before, hop) == Ok(Verified)
    && hop.envelope.payload.Some?
    && var payload := hop.envelope.payload.value;
    && !payload.version.Foreign? && payload.commonFieldsOk
    && match s {
      case InductedKey(event, _) =>
        && KeyFormOk(c, ManifestsOf(before), payload.kind, event.entryIndex)
        && event == EventOf(payload.kind.change, event.entryIndex)
      case InductedManifest(at) =>
        && payload.kind == ManifestStatement(at.manifest) && at.manifest.wellFormed
        && at.versionId == at.envelope.statementId
        && ManifestsOf(before) != []
        && at.manifest.predecessor == Some(Last(ManifestsOf(before)).envelope.entryId)
    }
  }

  /** Every statement after the first was admitted under those before it, at a later index and with an id of its own. */
  ghost predicate Inductive(c: Checks, trail: seq<Inducted>)
    decreases |trail|
  {
    if |trail| <= 1 then |trail| == 1 && trail[0].InductedManifest?
    else
      var (before, last) := (trail[..|trail| - 1], trail[|trail| - 1]);
      && Inductive(c, before)
      && Admitted(c, before, last)
      && IndexOf(Last(before)) < IndexOf(last)
      && forall s :: s in before ==> EnvelopeOf(s).statementId != EnvelopeOf(last).statementId
  }

  /** What holds between two iterations. */
  ghost predicate Sound(c: Checks, w: Walk) {
    && Inductive(c, w.trail)
    && IndexOf(Last(w.trail)) <= w.walkedIndex
    && ManifestsOf(w.trail) != [] && w.latest == Last(ManifestsOf(w.trail))
    && forall s :: s in w.trail ==> EnvelopeOf(s).statementId in w.governingIds && IndexOf(s) in w.walkedIndexes
  }

  /** What one iteration did to the trail: nothing, or one statement more. */
  ghost predicate Inducts(c: Checks, w: Walk, next: Walk, s: Option<Inducted>) {
    && w.walkedIndex < next.walkedIndex
    && w.governingIds <= next.governingIds && w.walkedIndexes <= next.walkedIndexes
    && match s {
      case None => next.trail == w.trail && next.latest == w.latest
      case Some(t) =>
        && next.trail == w.trail + [t]
        && next.latest == (if t.InductedManifest? then t.at else w.latest)
        && Admitted(c, w.trail, t)
        && IndexOf(t) == next.walkedIndex && IndexOf(t) in next.walkedIndexes
        && EnvelopeOf(t).statementId in next.governingIds - w.governingIds
    }
  }

  lemma KeyStepInducts(c: Checks, m: Material, w: Walk) returns (s: Option<Inducted>)
    requires w.keyCursor < |m.keyStatements| && StepKey(c, m, w).Continue?
    ensures Inducts(c, w, StepKey(c, m, w).walk, s)
  {
    var hop := m.keyStatements[w.keyCursor];
    if PhaseOne(c, w.trail, hop) == Ok(Verified) && hop.envelope.statementId !in w.governingIds {
      s := Some(InductedKey(EventOf(hop.envelope.payload.value.kind.change, hop.entryIndex), hop.envelope));
    } else {
      s := None;
    }
  }

  lemma ChainStepInducts(c: Checks, m: Material, w: Walk) returns (s: Option<Inducted>)
    requires Sound(c, w) && w.chainCursor < |m.hops| && StepChain(c, m, w).Continue?
    ensures Inducts(c, w, StepChain(c, m, w).walk, s)
  {
    var hop := m.hops[w.chainCursor];
    if hop.envelope.statementId in w.governingIds {
      s := None;
    } else {
      var at := ManifestAt(
        hop.entryIndex, hop.envelope.payload.value.kind.manifest, hop.envelope.statementId, hop.envelope);
      assert PhaseOne(c, w.trail, hop) == Ok(Verified);
      s := Some(InductedManifest(at));
    }
  }

  lemma InductsKeepsSound(c: Checks, w: Walk, next: Walk, s: Option<Inducted>)
    requires Sound(c, w) && Inducts(c, w, next, s)
    ensures Sound(c, next)
  {
    if s.Some? {
      var trail := w.trail + [s.value];
      Extended(w.trail, s.value);
      assert trail[..|w.trail|] == w.trail && Last(trail) == s.value;
      forall t | t in w.trail ensures EnvelopeOf(t).statementId != EnvelopeOf(s.value).statementId {
        assert EnvelopeOf(t).statementId in w.governingIds;
      }
      assert Inductive(c, trail);
    }
  }

  lemma StepKeepsSound(c: Checks, m: Material, w: Walk)
    requires More(m, w) && Sound(c, w) && Step(c, m, w).Continue?
    ensures Sound(c, Step(c, m, w).walk)
  {
    var s;
    if TakesKey(m, w) {
      s := KeyStepInducts(c, m, w);
    } else {
      s := ChainStepInducts(c, m, w);
    }
    InductsKeepsSound(c, w, Step(c, m, w).walk, s);
  }

  /** The index the next iteration meets. */
  function NextIndex(m: Material, w: Walk): nat
    requires More(m, w)
  {
    if TakesKey(m, w) then m.keyStatements[w.keyCursor].entryIndex else m.hops[w.chainCursor].entryIndex
  }

  /** A stop is at the statement met, which leaves the trail as it was. */
  lemma StopKeepsTrail(c: Checks, m: Material, w: Walk)
    requires More(m, w) && Step(c, m, w).Stop?
    ensures Step(c, m, w).walk.trail == w.trail
    ensures !Step(c, m, w).gap.AnchorMismatch? && Step(c, m, w).gap.at == NextIndex(m, w) > w.walkedIndex
  {
  }

  lemma {:induction false} RunIsInductive(c: Checks, m: Material, w: Walk)
    requires InRange(m, w) && Sound(c, w) && RunFrom(c, m, w).Ok?
    ensures Inductive(c, RunFrom(c, m, w).value.walk.trail)
    decreases Left(m, w)
  {
    if More(m, w) {
      match Step(c, m, w) {
        case Continue(next) =>
          StepKeepsSound(c, m, w);
          RunIsInductive(c, m, next);
        case Stop(_, _) =>
          StopKeepsTrail(c, m, w);
        case Fail(_) =>
      }
    }
  }

  /** On every accepted walk, each statement after the genesis verified under strictly earlier ones, once per id. */
  lemma InductionIsSafe(
      c: Checks, receipt: Carried, policy: Policy, keyStatements: seq<Hop>, declared: bool, profileHeld: bool)
      returns (trail: seq<Inducted>)
    requires Established(c, receipt, policy, keyStatements, declared, profileHeld).Ok?
    ensures var g := Established(c, receipt, policy, keyStatements, declared, profileHeld).value;
      g.manifests == ManifestsOf(trail) && g.events == EventsOf(trail)
    ensures Inductive(c, trail) && trail[0] == InductedManifest(GenesisOf(receipt))
  {
    var m := MaterialOf(receipt, keyStatements, declared, profileHeld);
    var start := Start(GenesisOf(receipt));
    trail := RunFrom(c, m, start).value.walk.trail;
    RunIsInductive(c, m, start);
    RunExtends(c, m, start);
  }

  lemma {:induction false} AdmittedAt(c: Checks, trail: seq<Inducted>, k: nat)
    requires Inductive(c, trail) && 0 < k < |trail|
    ensures Admitted(c, trail[..k], trail[k])
    decreases |trail|
  {
    var before := trail[..|trail| - 1];
    if k < |before| {
      assert before[..k] == trail[..k];
      AdmittedAt(c, before, k);
    }
  }

  lemma {:induction false} OrderedAt(c: Checks, trail: seq<Inducted>, i: nat, j: nat)
    requires Inductive(c, trail) && i < j < |trail|
    ensures IndexOf(trail[i]) < IndexOf(trail[j])
    ensures EnvelopeOf(trail[i]).statementId != EnvelopeOf(trail[j]).statementId
    decreases |trail|
  {
    var before := trail[..|trail| - 1];
    assert before[i] in before;
    if j < |before| {
      OrderedAt(c, before, i, j);
    } else if i < |before| - 1 {
      OrderedAt(c, before, i, |before| - 1);
    }
  }

  lemma {:induction false} StartsWithManifest(c: Checks, trail: seq<Inducted>)
    requires Inductive(c, trail)
    ensures trail[0].InductedManifest?
    decreases |trail|
  {
    if |trail| > 1 {
      StartsWithManifest(c, trail[..|trail| - 1]);
    }
  }

  /** Safety said position by position, over the trail as one sequence. */
  lemma SafeAtEveryPosition(c: Checks, trail: seq<Inducted>)
    requires Inductive(c, trail)
    ensures Trail(trail)
    ensures forall k :: 0 < k < |trail| ==> Admitted(c, trail[..k], trail[k])
    ensures forall i, j :: 0 <= i < j < |trail| ==> EnvelopeOf(trail[i]).statementId != EnvelopeOf(trail[j]).statementId
  {
    StartsWithManifest(c, trail);
    forall k | 0 < k < |trail| ensures Admitted(c, trail[..k], trail[k]) {
      AdmittedAt(c, trail, k);
    }
    forall i, j | 0 <= i < j < |trail|
      ensures IndexOf(trail[i]) < IndexOf(trail[j])
      ensures EnvelopeOf(trail[i]).statementId != EnvelopeOf(trail[j]).statementId
    {
      OrderedAt(c, trail, i, j);
    }
  }

  lemma {:induction false} LaterNotInForce(trail: seq<Inducted>, k: nat, index: nat)
    requires 0 < k <= |trail| && forall j :: k <= j < |trail| ==> !InForce(trail[j], index)
    ensures Machine(trail, index) == Machine(trail[..k], index)
    decreases |trail|
  {
    if k == |trail| {
      assert trail[..k] == trail;
    } else {
      var before := trail[..|trail| - 1];
      assert before[..k] == trail[..k];
      LaterNotInForce(before, k, index);
    }
  }

  /** At its own index the final state is the one a statement verified under, a `key` statement's own effect added. */
  lemma FinalStateAtOwnIndex(trail: seq<Inducted>, k: nat)
    requires Trail(trail) && 0 < k < |trail|
    ensures var (index, before) := (IndexOf(trail[k]), trail[..k]);
      var verifiedUnder := KeysAt(ManifestsOf(before), EventsOf(before), index);
      KeysAt(ManifestsOf(trail), EventsOf(trail), index) ==
        if trail[k].InductedKey? then Apply(verifiedUnder, trail[k].event) else verifiedUnder
  {
    var (index, before, upTo) := (IndexOf(trail[k]), trail[..k], trail[..k + 1]);
    LookupIsMachine(trail, index);
    LookupIsMachine(before, index);
    LaterNotInForce(trail, k + 1, index);
    assert upTo[..k] == before;
  }

  // ---------------------------------------------------------------------------
  // Later iterations only append
  // ---------------------------------------------------------------------------

  /** `longer` is `shorter` with statements after `index` behind it. */
  ghost predicate AppendsAfter(shorter: seq<Inducted>, longer: seq<Inducted>, index: int) {
    && shorter <= longer
    && forall k :: |shorter| <= k < |longer| ==> IndexOf(longer[k]) > index
  }

  lemma KeyStepAppends(c: Checks, m: Material, w: Walk)
    requires w.keyCursor < |m.keyStatements| && StepKey(c, m, w).Continue?
    ensures var next := StepKey(c, m, w).walk;
      && next.walkedIndex == m.keyStatements[w.keyCursor].entryIndex > w.walkedIndex
      && AppendsAfter(w.trail, next.trail, next.walkedIndex - 1)
  {
  }

  lemma ChainStepAppends(c: Checks, m: Material, w: Walk)
    requires w.chainCursor < |m.hops| && StepChain(c, m, w).Continue?
    ensures var next := StepChain(c, m, w).walk;
      && next.walkedIndex == m.hops[w.chainCursor].entryIndex > w.walkedIndex
      && AppendsAfter(w.trail, next.trail, next.walkedIndex - 1)
  {
  }

  lemma StepAppends(c: Checks, m: Material, w: Walk)
    requires More(m, w) && Step(c, m, w).Continue?
    ensures var next := Step(c, m, w).walk;
      && next.walkedIndex == NextIndex(m, w) > w.walkedIndex
      && AppendsAfter(w.trail, next.trail, next.walkedIndex - 1)
  {
    if TakesKey(m, w) {
      KeyStepAppends(c, m, w);
    } else {
      ChainStepAppends(c, m, w);
    }
  }

  lemma AppendsOn(first: seq<Inducted>, second: seq<Inducted>, third: seq<Inducted>, index: int, later: int)
    requires AppendsAfter(first, second, index) && AppendsAfter(second, third, later) && index <= later
    ensures AppendsAfter(first, third, index)
  {
  }

  lemma {:induction false} RunExtends(c: Checks, m: Material, w: Walk)
    requires InRange(m, w) && RunFrom(c, m, w).Ok?
    ensures var end := RunFrom(c, m, w).value;
      && AppendsAfter(w.trail, end.walk.trail, w.walkedIndex)
      && (end.gap.Some? ==> !end.gap.value.AnchorMismatch? && end.gap.value.at > w.walkedIndex)
    decreases Left(m, w)
  {
    if More(m, w) {
      match Step(c, m, w) {
        case Continue(next) =>
          StepAppends(c, m, w);
          RunExtends(c, m, next);
          AppendsOn(w.trail, next.trail, RunFrom(c, m, w).value.walk.trail, w.walkedIndex, next.walkedIndex);
        case Stop(_, _) =>
          StopKeepsTrail(c, m, w);
        case Fail(_) =>
      }
    }
  }

  /** The walk moved on to an index and took in none but it. */
  ghost predicate MovesTo(w: Walk, next: Walk, index: nat) {
    && w.walkedIndex < index == next.walkedIndex
    && (next.walkedIndexes == w.walkedIndexes || next.walkedIndexes == w.walkedIndexes + {index})
  }

  lemma KeyStepMoves(c: Checks, m: Material, w: Walk)
    requires w.keyCursor < |m.keyStatements| && !StepKey(c, m, w).Fail?
    ensures MovesTo(w, StepKey(c, m, w).walk, m.keyStatements[w.keyCursor].entryIndex)
  {
  }

  lemma ChainStepMoves(c: Checks, m: Material, w: Walk)
    requires w.chainCursor < |m.hops| && !StepChain(c, m, w).Fail?
    ensures MovesTo(w, StepChain(c, m, w).walk, m.hops[w.chainCursor].entryIndex)
  {
  }

  lemma StepMoves(c: Checks, m: Material, w: Walk)
    requires More(m, w) && !Step(c, m, w).Fail?
    ensures MovesTo(w, Step(c, m, w).walk, NextIndex(m, w))
  {
    if TakesKey(m, w) {
      KeyStepMoves(c, m, w);
    } else {
      ChainStepMoves(c, m, w);
    }
  }

  /** Which indexes up to the one it stands at a walk has taken in is settled. */
  lemma {:induction false} RunWalksOn(c: Checks, m: Material, w: Walk)
    requires InRange(m, w) && RunFrom(c, m, w).Ok?
    ensures forall i :: i <= w.walkedIndex ==>
      (i in RunFrom(c, m, w).value.walk.walkedIndexes <==> i in w.walkedIndexes)
    decreases Left(m, w)
  {
    if More(m, w) {
      StepMoves(c, m, w);
      if Step(c, m, w).Continue? {
        RunWalksOn(c, m, Step(c, m, w).walk);
      }
    }
  }

  /** A walk that stopped took in nothing at or after the statement it stopped at. */
  lemma {:induction false} StopsBeyondTrail(c: Checks, m: Material, w: Walk)
    requires InRange(m, w) && Sound(c, w) && RunFrom(c, m, w).Ok?
    ensures var end := RunFrom(c, m, w).value;
      && end.walk.trail != []
      && (end.gap.Some? ==> !end.gap.value.AnchorMismatch? && IndexOf(Last(end.walk.trail)) < end.gap.value.at)
    decreases Left(m, w)
  {
    if More(m, w) {
      match Step(c, m, w) {
        case Continue(next) =>
          StepKeepsSound(c, m, w);
          StopsBeyondTrail(c, m, next);
        case Stop(_, _) =>
          StopKeepsTrail(c, m, w);
        case Fail(_) =>
      }
    }
  }

  predicate Beyond(hops: seq<Hop>, from: nat, index: nat) {
    forall k :: from <= k < |hops| ==> hops[k].entryIndex > index
  }

  predicate Rising(hops: seq<Hop>, from: nat) {
    forall i, j :: from <= i < j < |hops| ==> hops[i].entryIndex < hops[j].entryIndex
  }

  predicate Apart(a: seq<Hop>, i: nat, b: seq<Hop>, j: nat) {
    forall k, l :: i <= k < |a| && j <= l < |b| ==> a[k].entryIndex != b[l].entryIndex
  }

  lemma OneMore(a: seq<Hop>, i: nat, b: seq<Hop>, j: nat, index: nat)
    requires i < |a| && index < a[i].entryIndex
    requires Beyond(a, i + 1, a[i].entryIndex) && Beyond(b, j, a[i].entryIndex)
    requires Rising(a, i + 1) && Apart(a, i + 1, b, j)
    ensures Beyond(a, i, index) && Beyond(b, j, index) && Rising(a, i) && Apart(a, i, b, j) && Apart(b, j, a, i)
  {
  }

  /** On a walk that did not stop, the two streams merged ascend strictly: no index is claimed twice. */
  lemma {:induction false} AcceptedStreamsAscend(c: Checks, m: Material, w: Walk)
    requires InRange(m, w) && RunFrom(c, m, w).Ok? && RunFrom(c, m, w).value.gap.None?
    ensures Beyond(m.keyStatements, w.keyCursor, w.walkedIndex) && Beyond(m.hops, w.chainCursor, w.walkedIndex)
    ensures Rising(m.keyStatements, w.keyCursor) && Rising(m.hops, w.chainCursor)
    ensures Apart(m.keyStatements, w.keyCursor, m.hops, w.chainCursor)
    ensures Apart(m.hops, w.chainCursor, m.keyStatements, w.keyCursor)
    decreases Left(m, w)
  {
    if More(m, w) {
      StepMoves(c, m, w);
      AcceptedStreamsAscend(c, m, Step(c, m, w).walk);
      if TakesKey(m, w) {
        OneMore(m.keyStatements, w.keyCursor, m.hops, w.chainCursor, w.walkedIndex);
      } else {
        OneMore(m.hops, w.chainCursor, m.keyStatements, w.keyCursor, w.walkedIndex);
      }
    }
  }
}
