/** Rotation proofs against rotations, verifiers with and without an adaptor profile, and entries without effect. */
module GovernanceAgreement {
  import opened Basics
  import opened Envelopes
  import opened Statements
  import opened KeyState
  import opened Governance
  import opened GovernanceWalk
  import opened GovernanceLaws

  // ---------------------------------------------------------------------------
  // Rotation proofs, one to one
  // ---------------------------------------------------------------------------

  /** The entry indexes of the manifests whose log or witness key set differs from their predecessor's. */
  function RotationIndexes(manifests: seq<ManifestAt>): seq<nat>
  {
    if |manifests| <= 1 then []
    else
      var (before, last) := (manifests[..|manifests| - 1], manifests[|manifests| - 1]);
      RotationIndexes(before) + (if Rotates(Last(before).manifest, last.manifest) then [last.entryIndex] else [])
  }

  /**
   * Each rotation has a proof that names it and verifies under its outgoing manifest, in order, and no proof is left.
   */
  ghost predicate RotationsProved(c: Checks, manifests: seq<ManifestAt>, proofs: seq<RotationElement>)
    decreases |manifests|
  {
    if |manifests| <= 1 then proofs == []
    else
      var (before, last) := (manifests[..|manifests| - 1], manifests[|manifests| - 1]);
      if Rotates(Last(before).manifest, last.manifest) then
        && proofs != []
        && Last(proofs).manifestEntryIndex == last.entryIndex
        && c.rotationVerifies(Last(proofs), Hop(last.entryIndex, last.envelope), Last(before), before)
        && RotationsProved(c, before, proofs[..|proofs| - 1])
      else RotationsProved(c, before, proofs)
  }

  ghost predicate ProofsKept(c: Checks, m: Material, w: Walk) {
    && ManifestsOf(w.trail) != [] && w.latest == Last(ManifestsOf(w.trail))
    && w.proofCursor <= |m.proofs|
    && RotationsProved(c, ManifestsOf(w.trail), m.proofs[..w.proofCursor])
    && (w.sawRotation <==> w.proofCursor > 0)
  }

  /** One iteration seen from the manifests: none installed, or one, with a proof consumed where it rotates. */
  ghost predicate Installs(c: Checks, m: Material, w: Walk, next: Walk, at: Option<ManifestAt>) {
    var ms := ManifestsOf(w.trail);
    match at
    case None =>
      && ManifestsOf(next.trail) == ms && next.latest == w.latest
      && next.proofCursor == w.proofCursor && next.sawRotation == w.sawRotation
    case Some(incoming) =>
      && ManifestsOf(next.trail) == ms + [incoming] && next.latest == incoming
      && if Rotates(w.latest.manifest, incoming.manifest) then
          && next.sawRotation && next.proofCursor == w.proofCursor + 1 <= |m.proofs|
          && m.proofs[w.proofCursor].manifestEntryIndex == incoming.entryIndex
          && c.rotationVerifies(m.proofs[w.proofCursor], Hop(incoming.entryIndex, incoming.envelope), w.latest, ms)
        else next.proofCursor == w.proofCursor && next.sawRotation == w.sawRotation
  }

  lemma InstallsKeepsProofs(c: Checks, m: Material, w: Walk, next: Walk, at: Option<ManifestAt>)
    requires ProofsKept(c, m, w) && Installs(c, m, w, next, at)
    ensures ProofsKept(c, m, next)
  {
    if at.Some? {
      var ms := ManifestsOf(w.trail);
      assert (ms + [at.value])[..|ms|] == ms;
      if Rotates(w.latest.manifest, at.value.manifest) {
        assert m.proofs[..w.proofCursor + 1][..w.proofCursor] == m.proofs[..w.proofCursor];
      }
    }
  }

  lemma KeyStepInstalls(c: Checks, m: Material, w: Walk)
    requires w.keyCursor < |m.keyStatements| && StepKey(c, m, w).Continue?
    ensures Installs(c, m, w, StepKey(c, m, w).walk, None)
  {
    var hop := m.keyStatements[w.keyCursor];
    if PhaseOne(c, w.trail, hop) == Ok(Verified) && hop.envelope.statementId !in w.governingIds {
      Extended(w.trail, InductedKey(EventOf(hop.envelope.payload.value.kind.change, hop.entryIndex), hop.envelope));
    }
  }

  lemma ChainStepInstalls(c: Checks, m: Material, w: Walk) returns (at: Option<ManifestAt>)
    requires w.chainCursor < |m.hops| && StepChain(c, m, w).Continue?
    ensures Installs(c, m, w, StepChain(c, m, w).walk, at)
  {
    var hop := m.hops[w.chainCursor];
    if hop.envelope.statementId in w.governingIds {
      at := None;
    } else {
      at := Some(ManifestAt(
        hop.entryIndex, hop.envelope.payload.value.kind.manifest, hop.envelope.statementId, hop.envelope));
      Extended(w.trail, InductedManifest(at.value));
    }
  }

  lemma StepKeepsProofs(c: Checks, m: Material, w: Walk)
    requires More(m, w) && ProofsKept(c, m, w) && Step(c, m, w).Continue?
    ensures ProofsKept(c, m, Step(c, m, w).walk)
  {
    var at: Option<ManifestAt> := None;
    if TakesKey(m, w) {
      KeyStepInstalls(c, m, w);
    } else {
      at := ChainStepInstalls(c, m, w);
    }
    InstallsKeepsProofs(c, m, w, Step(c, m, w).walk, at);
  }

  lemma {:induction false} RunKeepsProofs(c: Checks, m: Material, w: Walk)
    requires InRange(m, w) && ProofsKept(c, m, w) && RunFrom(c, m, w).Ok?
    ensures var end := RunFrom(c, m, w).value;
      && end.walk.proofCursor <= |m.proofs|
      && RotationsProved(c, ManifestsOf(end.walk.trail), m.proofs[..end.walk.proofCursor])
      && (end.gap.None? ==> (end.walk.sawRotation <==> end.walk.proofCursor > 0))
    decreases Left(m, w)
  {
    if More(m, w) {
      match Step(c, m, w) {
        case Continue(next) =>
          StepKeepsProofs(c, m, w);
          RunKeepsProofs(c, m, next);
        case Stop(_, _) =>
          StopKeepsProofs(c, m, w);
        case Fail(_) =>
      }
    }
  }

  lemma StopKeepsProofs(c: Checks, m: Material, w: Walk)
    requires More(m, w) && Step(c, m, w).Stop?
    ensures Step(c, m, w).walk.trail == w.trail && Step(c, m, w).walk.proofCursor == w.proofCursor
  {
  }

  lemma {:induction false} ProofsNameRotations(c: Checks, manifests: seq<ManifestAt>, proofs: seq<RotationElement>)
    requires RotationsProved(c, manifests, proofs)
    ensures |proofs| == |RotationIndexes(manifests)|
    ensures forall k :: 0 <= k < |proofs| ==> proofs[k].manifestEntryIndex == RotationIndexes(manifests)[k]
    decreases |manifests|
  {
    if |manifests| > 1 {
      var (before, last) := (manifests[..|manifests| - 1], manifests[|manifests| - 1]);
      if Rotates(Last(before).manifest, last.manifest) {
        ProofsNameRotations(c, before, proofs[..|proofs| - 1]);
      } else {
        ProofsNameRotations(c, before, proofs);
      }
    }
  }

  /** On an accepted walk that did not stop, the proofs are the rotations', in order; none at all means no member. */
  lemma RotationProofsAreOneToOne(
      c: Checks, receipt: Carried, policy: Policy, keyStatements: seq<Hop>, declared: bool, profileHeld: bool)
    requires Established(c, receipt, policy, keyStatements, declared, profileHeld).Ok?
    requires Established(c, receipt, policy, keyStatements, declared, profileHeld).value.stoppedAt.None?
    ensures var g := Established(c, receipt, policy, keyStatements, declared, profileHeld).value;
      var proofs := ProofsOf(receipt.rotationProofs);
      && RotationsProved(c, g.manifests, proofs)
      && |proofs| == |RotationIndexes(g.manifests)|
      && (forall k :: 0 <= k < |proofs| ==> proofs[k].manifestEntryIndex == RotationIndexes(g.manifests)[k])
      && (receipt.rotationProofs.Missing? <==> RotationIndexes(g.manifests) == [])
  {
    var m := MaterialOf(receipt, keyStatements, declared, profileHeld);
    var start := Start(GenesisOf(receipt));
    var end := RunFrom(c, m, start).value;
    Extended([], InductedManifest(GenesisOf(receipt)));
    assert [] + start.trail == start.trail;
    RunKeepsProofs(c, m, start);
    RunExtends(c, m, start);
    assert m.proofs[..end.walk.proofCursor] == m.proofs;
    ProofsNameRotations(c, ManifestsOf(end.walk.trail), m.proofs);
  }

  // ---------------------------------------------------------------------------
  // With and without an adaptor profile
  // ---------------------------------------------------------------------------

  /** One iteration is the same with a profile and without, short of a rotation the second one stops at. */
  lemma SameStep(c: Checks, m: Material, w: Walk)
    requires More(m, w)
    ensures var (without, with_) :=
        (Step(c, m.(profileHeld := false), w), Step(c, m.(profileHeld := true), w));
      || without == with_
      || (without.Stop? && without.gap == RotationUnverifiable(NextIndex(m, w)) && w.walkedIndex < NextIndex(m, w))
  {
  }

  /** How two walks from one state relate: alike, or the one without a profile a prefix up to where it stopped. */
  ghost predicate Agree(without: End, with_: End) {
    if without.gap.Some? && without.gap.value.RotationUnverifiable? then
      && without.walk.trail <= with_.walk.trail
      && (forall k :: |without.walk.trail| <= k < |with_.walk.trail| ==>
            IndexOf(with_.walk.trail[k]) >= without.gap.value.at)
      && (forall i :: i < without.gap.value.at ==>
            (i in without.walk.walkedIndexes <==> i in with_.walk.walkedIndexes))
      && (with_.gap.Some? ==> !with_.gap.value.AnchorMismatch? && with_.gap.value.at >= without.gap.value.at)
    else without == with_
  }

  lemma {:induction false} RunsAgree(c: Checks, m: Material, w: Walk)
    requires InRange(m, w)
    requires RunFrom(c, m.(profileHeld := false), w).Ok? && RunFrom(c, m.(profileHeld := true), w).Ok?
    ensures Agree(RunFrom(c, m.(profileHeld := false), w).value, RunFrom(c, m.(profileHeld := true), w).value)
    decreases Left(m, w)
  {
    var (m0, m1) := (m.(profileHeld := false), m.(profileHeld := true));
    if More(m, w) {
      SameStep(c, m, w);
      var (without, with_) := (Step(c, m0, w), Step(c, m1, w));
      if without == with_ {
        if without.Continue? {
          RunsAgree(c, m, without.walk);
        } else if without.Stop? {
          StopKeepsTrail(c, m0, w);
        }
      } else {
        StopKeepsTrail(c, m0, w);
        StepMoves(c, m0, w);
        FromNextOn(c, m1, w);
        WalksFromNextOn(c, m1, w);
      }
    }
  }

  lemma FromNextOn(c: Checks, m: Material, w: Walk)
    requires InRange(m, w) && More(m, w) && RunFrom(c, m, w).Ok?
    ensures var end := RunFrom(c, m, w).value;
      && AppendsAfter(w.trail, end.walk.trail, NextIndex(m, w) - 1)
      && (end.gap.Some? ==> !end.gap.value.AnchorMismatch? && end.gap.value.at >= NextIndex(m, w))
  {
    match Step(c, m, w) {
      case Continue(next) =>
        StepAppends(c, m, w);
        RunExtends(c, m, next);
        AppendsOn(w.trail, next.trail, RunFrom(c, m, w).value.walk.trail, NextIndex(m, w) - 1, NextIndex(m, w));
      case Stop(_, _) =>
        StopKeepsTrail(c, m, w);
      case Fail(_) =>
    }
  }

  lemma WalksFromNextOn(c: Checks, m: Material, w: Walk)
    requires InRange(m, w) && More(m, w) && RunFrom(c, m, w).Ok?
    ensures forall i :: i < NextIndex(m, w) ==>
      (i in RunFrom(c, m, w).value.walk.walkedIndexes <==> i in w.walkedIndexes)
  {
    StepMoves(c, m, w);
    if Step(c, m, w).Continue? {
      RunWalksOn(c, m, Step(c, m, w).walk);
    }
  }

  lemma {:induction false} ProjectionsExtend(trail: seq<Inducted>, longer: seq<Inducted>, index: nat)
    requires trail <= longer && forall k :: |trail| <= k < |longer| ==> IndexOf(longer[k]) >= index
    ensures ManifestsOf(trail) <= ManifestsOf(longer) && EventsOf(trail) <= EventsOf(longer)
    ensures forall m :: m in ManifestsOf(longer)[|ManifestsOf(trail)|..] ==> m.entryIndex >= index
    ensures forall e :: e in EventsOf(longer)[|EventsOf(trail)|..] ==> e.entryIndex >= index
    decreases |longer|
  {
    if |longer| == |trail| {
      assert longer == trail;
    } else {
      var (before, last) := (longer[..|longer| - 1], longer[|longer| - 1]);
      ProjectionsExtend(trail, before, index);
      var (ms, es) := (ManifestsOf(before), EventsOf(before));
      match last {
        case InductedManifest(at) =>
          assert (ms + [at])[|ManifestsOf(trail)|..] == ms[|ManifestsOf(trail)|..] + [at];
        case InductedKey(event, _) =>
          assert (es + [event])[|EventsOf(trail)|..] == es[|EventsOf(trail)|..] + [event];
      }
    }
  }

  lemma {:induction false} ActiveIsEarlier(manifests: seq<ManifestAt>, later: seq<ManifestAt>, treeSize: nat)
    requires forall m :: m in later ==> treeSize <= m.entryIndex
    ensures ActiveFor(manifests + later, treeSize) == ActiveFor(manifests, treeSize)
    decreases |later|
  {
    if later == [] {
      assert manifests + later == manifests;
    } else {
      var all, rest := manifests + later, later[..|later| - 1];
      assert all[..|all| - 1] == manifests + rest && all[|all| - 1] == later[|later| - 1];
      assert later[|later| - 1] in later;
      ActiveIsEarlier(manifests, rest, treeSize);
    }
  }

  /** `less` is what `more` holds below the index `less` stopped at; what `more` adds is anchored from there on. */
  ghost predicate Extends(less: Governance, more: Governance, stop: nat) {
    && less.manifests <= more.manifests && less.events <= more.events
    && (forall m :: m in less.manifests ==> m.entryIndex < stop)
    && (forall e :: e in less.events ==> e.entryIndex < stop)
    && (forall m :: m in more.manifests[|less.manifests|..] ==> m.entryIndex >= stop)
    && (forall e :: e in more.events[|less.events|..] ==> e.entryIndex >= stop)
    && (forall i :: i < stop ==> (i in less.walkedIndexes <==> i in more.walkedIndexes))
  }

  /** The same state, or what the other holds below the index this one stopped at. */
  ghost predicate PartOf(less: Governance, more: Governance) {
    less == more || (less.stoppedAt.Some? && Extends(less, more, less.stoppedAt.value))
  }

  /** The elements anchored below an index, in order. */
  function AnchoredBelow<T>(s: seq<T>, at: T -> nat, index: nat): seq<T>
  {
    if s == [] then []
    else
      var (before, last) := (AnchoredBelow(s[..|s| - 1], at, index), s[|s| - 1]);
      if at(last) < index then before + [last] else before
  }

  lemma {:induction false} BelowOfExtension<T>(less: seq<T>, more: seq<T>, at: T -> nat, index: nat)
    requires less <= more
    requires forall x :: x in less ==> at(x) < index
    requires forall x :: x in more[|less|..] ==> at(x) >= index
    ensures AnchoredBelow(more, at, index) == less
    decreases |more|
  {
    if more != [] {
      var (before, last) := (more[..|more| - 1], more[|more| - 1]);
      if |less| == |more| {
        assert less == more && last in less;
        BelowOfExtension(before, before, at, index);
      } else {
        assert more[|less|..] == before[|less|..] + [last];
        BelowOfExtension(less, before, at, index);
      }
    }
  }

  function ManifestsBelow(manifests: seq<ManifestAt>, index: nat): seq<ManifestAt> {
    AnchoredBelow(manifests, (at: ManifestAt) => at.entryIndex, index)
  }

  function EventsBelow(events: seq<KeyEvent>, index: nat): seq<KeyEvent> {
    AnchoredBelow(events, (e: KeyEvent) => e.entryIndex, index)
  }

  lemma ExtendsFromBelow(less: Governance, more: Governance, stop: nat)
    requires Extends(less, more, stop)
    ensures less.manifests == ManifestsBelow(more.manifests, stop) && less.events == EventsBelow(more.events, stop)
  {
    BelowOfExtension(less.manifests, more.manifests, (at: ManifestAt) => at.entryIndex, stop);
    BelowOfExtension(less.events, more.events, (e: KeyEvent) => e.entryIndex, stop);
  }

  lemma StartIsSound(c: Checks, genesis: ManifestAt)
    requires genesis.entryIndex == 0 && genesis.versionId == genesis.envelope.statementId
    ensures Sound(c, Start(genesis))
  {
    Extended([], InductedManifest(genesis));
    assert [] + Start(genesis).trail == Start(genesis).trail;
  }

  lemma HoldsUpToLast(c: Checks, trail: seq<Inducted>, stop: nat)
    requires Inductive(c, trail) && IndexOf(Last(trail)) < stop
    ensures forall at :: at in ManifestsOf(trail) ==> at.entryIndex < stop
    ensures forall e :: e in EventsOf(trail) ==> e.entryIndex < stop
  {
    SafeAtEveryPosition(c, trail);
    ProjectionsAreBefore(trail);
  }

  /** What a walk that stopped holds is anchored below the index it stopped at. */
  lemma HoldsBelowStop(c: Checks, m: Material, genesis: ManifestAt)
    requires genesis.entryIndex == 0 && genesis.versionId == genesis.envelope.statementId
    requires RunFrom(c, m, Start(genesis)).Ok? && RunFrom(c, m, Start(genesis)).value.gap.Some?
    ensures var end := RunFrom(c, m, Start(genesis)).value;
      && !end.gap.value.AnchorMismatch?
      && (forall at :: at in ManifestsOf(end.walk.trail) ==> at.entryIndex < end.gap.value.at)
      && (forall e :: e in EventsOf(end.walk.trail) ==> e.entryIndex < end.gap.value.at)
  {
    StartIsSound(c, genesis);
    RunIsInductive(c, m, Start(genesis));
    StopsBeyondTrail(c, m, Start(genesis));
    var end := RunFrom(c, m, Start(genesis)).value;
    HoldsUpToLast(c, end.walk.trail, end.gap.value.at);
  }

  lemma CutShort(less: Governance, more: Governance, shorter: seq<Inducted>, longer: seq<Inducted>, stop: nat)
    requires less.manifests == ManifestsOf(shorter) && less.events == EventsOf(shorter)
    requires more.manifests == ManifestsOf(longer) && more.events == EventsOf(longer)
    requires shorter <= longer && forall k :: |shorter| <= k < |longer| ==> IndexOf(longer[k]) >= stop
    requires forall m :: m in less.manifests ==> m.entryIndex < stop
    requires forall e :: e in less.events ==> e.entryIndex < stop
    requires forall i :: i < stop ==> (i in less.walkedIndexes <==> i in more.walkedIndexes)
    ensures Extends(less, more, stop)
  {
    ProjectionsExtend(shorter, longer, stop);
  }

  /**
   * Where a verifier without the profile and one with it both accept a chain, either they hold the same state, or
   * the first stopped at some index, the second did not stop below it, and the first's manifests and key events are
   * exactly the second's below that index.
   */
  lemma CapabilityAgreement(
      c: Checks, receipt: Carried, policy: Policy, keyStatements: seq<Hop>, declared: bool)
      returns (less: Governance, more: Governance)
    requires Established(c, receipt, policy, keyStatements, declared, false).Ok?
    requires Established(c, receipt, policy, keyStatements, declared, true).Ok?
    ensures less == Established(c, receipt, policy, keyStatements, declared, false).value
    ensures more == Established(c, receipt, policy, keyStatements, declared, true).value
    ensures less.manifests != []
    ensures PartOf(less, more)
    ensures less == more || (
      && less.manifests == ManifestsBelow(more.manifests, less.stoppedAt.value)
      && less.events == EventsBelow(more.events, less.stoppedAt.value)
      && (more.stoppedAt.Some? ==> more.stoppedAt.value >= less.stoppedAt.value))
  {
    less := Established(c, receipt, policy, keyStatements, declared, false).value;
    more := Established(c, receipt, policy, keyStatements, declared, true).value;
    var m := MaterialOf(receipt, keyStatements, declared, false);
    var start := Start(GenesisOf(receipt));
    assert m.(profileHeld := false) == m;
    RunsAgree(c, m, start);
    var (e0, e1) := (RunFrom(c, m, start).value, RunFrom(c, m.(profileHeld := true), start).value);
    RunExtends(c, m, start);
    ProjectionsExtend(start.trail, e0.walk.trail, 0);
    if e0.gap.Some? && e0.gap.value.RotationUnverifiable? {
      HoldsBelowStop(c, m, GenesisOf(receipt));
      CutShort(less, more, e0.walk.trail, e1.walk.trail, e0.gap.value.at);
      ExtendsFromBelow(less, more, e0.gap.value.at);
    }
  }

  /** So wherever the lesser one calls its state established, the keys and the active manifest are the same. */
  lemma EstablishedStateAgrees(less: Governance, more: Governance, index: nat)
    requires less.manifests != [] && EstablishedAt(less, index)
    requires PartOf(less, more)
    ensures KeysAt(more.manifests, more.events, index) == KeysAt(less.manifests, less.events, index)
    ensures SnapshotManifest(more.manifests, index) == SnapshotManifest(less.manifests, index)
    ensures ActiveVersion(more.manifests, index) == ActiveVersion(less.manifests, index)
  {
    if less != more {
      var (ms, es) := (more.manifests[|less.manifests|..], more.events[|less.events|..]);
      assert less.manifests + ms == more.manifests && less.events + es == more.events;
      LaterChangesNothing(less.manifests, ms, less.events, es, index);
    }
  }

  lemma EstablishedCheckpointAgrees(less: Governance, more: Governance, treeSize: u64)
    requires EstablishedForTreeSize(less, treeSize)
    requires PartOf(less, more)
    ensures ActiveFor(more.manifests, treeSize) == ActiveFor(less.manifests, treeSize)
  {
    if less != more {
      var ms := more.manifests[|less.manifests|..];
      assert less.manifests + ms == more.manifests;
      ActiveIsEarlier(less.manifests, ms, treeSize);
    }
  }

  // ---------------------------------------------------------------------------
  // Entries without effect
  // ---------------------------------------------------------------------------

  function Without(m: Material, p: nat): Material
    requires p < |m.keyStatements|
  {
    m.(keyStatements := m.keyStatements[..p] + m.keyStatements[p + 1..])
  }

  /** `other` walks the same streams one `key` statement short, which `w` has met and got nothing from. */
  ghost predicate Alongside(p: nat, w: Walk, other: Walk) {
    && p <= other.keyCursor && other.walkedIndex <= w.walkedIndex
    && w == other.(keyCursor := other.keyCursor + 1, walkedIndex := w.walkedIndex, voids := w.voids)
  }

  ghost predicate NextAlongside(p: nat, next: Next, other: Next) {
    match next
    case Fail(_) => true
    case Continue(w) => other.Continue? && Alongside(p, w, other.walk)
    case Stop(w, gap) => other.Stop? && other.gap == gap && Alongside(p, w, other.walk)
  }

  lemma KeyAlongside(c: Checks, m: Material, short: Material, p: nat, w: Walk, other: Walk)
    requires Alongside(p, w, other) && w.keyCursor < |m.keyStatements| && other.keyCursor < |short.keyStatements|
    requires short.keyStatements[other.keyCursor] == m.keyStatements[w.keyCursor]
    ensures NextAlongside(p, StepKey(c, m, w), StepKey(c, short, other))
  {
  }

  lemma ChainAlongside(c: Checks, m: Material, short: Material, p: nat, w: Walk, other: Walk)
    requires Alongside(p, w, other) && w.chainCursor < |m.hops| && short == m.(keyStatements := short.keyStatements)
    ensures NextAlongside(p, StepChain(c, m, w), StepChain(c, short, other))
  {
    var hop := m.hops[w.chainCursor];
    if hop.envelope.payload.Some? && hop.envelope.statementId !in w.governingIds {
      var (walked, same) := (Taking(w, hop), Taking(other, hop));
      assert walked == same.(keyCursor := same.keyCursor + 1, voids := w.voids);
      TakesAlongside(c, m, short, p, walked, same, hop, hop.envelope.payload.value);
    }
  }

  /** The walk as a chain hop is taken: the hop is met, and its id and index are claimed. */
  function Taking(w: Walk, hop: Hop): Walk {
    w.(chainCursor := w.chainCursor + 1, walkedIndex := hop.entryIndex,
      governingIds := w.governingIds + {hop.envelope.statementId},
      walkedIndexes := w.walkedIndexes + {hop.entryIndex})
  }

  lemma TakesAlongside(
      c: Checks, m: Material, short: Material, p: nat, w: Walk, other: Walk, hop: Hop, payload: Payload)
    requires Alongside(p, w, other) && short == m.(keyStatements := short.keyStatements)
    ensures NextAlongside(p, TakeManifest(c, m, w, hop, payload), TakeManifest(c, short, other, hop, payload))
  {
  }

  lemma StepsAlongside(c: Checks, m: Material, p: nat, w: Walk, other: Walk)
    requires p < |m.keyStatements| && Alongside(p, w, other) && More(m, w)
    ensures More(Without(m, p), other)
    ensures NextAlongside(p, Step(c, m, w), Step(c, Without(m, p), other))
  {
    var short := Without(m, p);
    if w.keyCursor < |m.keyStatements| {
      assert short.keyStatements[other.keyCursor] == m.keyStatements[w.keyCursor];
    }
    if TakesKey(m, w) {
      KeyAlongside(c, m, short, p, w, other);
    } else {
      ChainAlongside(c, m, short, p, w, other);
    }
  }

  lemma {:induction false} RunsAlongside(c: Checks, m: Material, p: nat, w: Walk, other: Walk)
    requires p < |m.keyStatements| && Alongside(p, w, other) && InRange(m, w) && InRange(Without(m, p), other)
    requires RunFrom(c, m, w).Ok?
    ensures RunFrom(c, Without(m, p), other).Ok?
    ensures var (e, short) := (RunFrom(c, m, w).value, RunFrom(c, Without(m, p), other).value);
      short.gap == e.gap && Alongside(p, e.walk, short.walk)
    decreases Left(m, w)
  {
    if More(m, w) {
      StepsAlongside(c, m, p, w, other);
      if Step(c, m, w).Continue? {
        RunsAlongside(c, m, p, Step(c, m, w).walk, Step(c, Without(m, p), other).walk);
      }
    }
  }

  /** An enumerated statement that does not verify at its turn leaves the rest of the walk as if it were not there. */
  lemma VoidIsAsIfAbsent(c: Checks, m: Material, w: Walk)
    requires InRange(m, w) && TakesKey(m, w)
    requires PhaseOne(c, w.trail, m.keyStatements[w.keyCursor]) != Ok(Verified)
    requires RunFrom(c, m, w).Ok?
    ensures InRange(Without(m, w.keyCursor), w) && RunFrom(c, Without(m, w.keyCursor), w).Ok?
    ensures var (e, short) := (RunFrom(c, m, w).value, RunFrom(c, Without(m, w.keyCursor), w).value);
      && short.gap == e.gap && short.walk.trail == e.walk.trail
      && short.walk.governingIds == e.walk.governingIds && short.walk.walkedIndexes == e.walk.walkedIndexes
      && short.walk.voidChain == e.walk.voidChain && short.walk.proofCursor == e.walk.proofCursor
  {
    RunsAlongside(c, m, w.keyCursor, Step(c, m, w).walk, w);
  }

  // ---------------------------------------------------------------------------
  // First wins
  // ---------------------------------------------------------------------------

  /** The index a version id is governed from is the smallest the chain bears it at. */
  lemma {:induction false} FirstWins(chain: seq<Hop>, id: string)
    requires Ascending(chain)
    ensures id in ChainIndex(chain) <==> exists k :: 0 <= k < |chain| && chain[k].envelope.statementId == id
    ensures id in ChainIndex(chain) ==>
      && (exists k :: 0 <= k < |chain| && chain[k].envelope.statementId == id
              && chain[k].entryIndex == ChainIndex(chain)[id])
      && (forall k :: 0 <= k < |chain| && chain[k].envelope.statementId == id ==>
            ChainIndex(chain)[id] <= chain[k].entryIndex)
  {
    if chain != [] {
      var (before, last) := (chain[..|chain| - 1], chain[|chain| - 1]);
      FirstWins(before, id);
      if id in ChainIndex(before) {
        var k :| 0 <= k < |before| && before[k].envelope.statementId == id
          && before[k].entryIndex == ChainIndex(before)[id];
        AscendingApart(chain, k, |chain| - 1);
        assert chain[k].envelope.statementId == id && chain[k].entryIndex == ChainIndex(chain)[id];
      } else if last.envelope.statementId == id {
        assert chain[|chain| - 1].entryIndex == ChainIndex(chain)[id];
      }
      forall k | 0 <= k < |chain| && chain[k].envelope.statementId == id
        ensures id in ChainIndex(chain) && ChainIndex(chain)[id] <= chain[k].entryIndex
      {
        if k < |before| {
          assert before[k].envelope.statementId == id;
        }
      }
    }
  }

  lemma {:induction false} AscendingApart(chain: seq<Hop>, i: nat, j: nat)
    requires Ascending(chain) && i < j < |chain|
    ensures chain[i].entryIndex < chain[j].entryIndex
    decreases j
  {
    if i < j - 1 {
      AscendingApart(chain, i, j - 1);
    }
  }
}
