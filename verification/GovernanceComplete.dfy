/** Nothing an accepted walk meets is lost: each carried statement is taken in, repeats an earlier one, or is void. */
module GovernanceComplete {
  import opened Basics
  import opened Envelopes
  import opened Statements
  import opened KeyState
  import opened Governance
  import opened GovernanceWalk
  import opened GovernanceLaws
  import opened GovernanceAgreement

  /** The first `n` statements of the trail are those before an index. */
  ghost predicate CutBefore(trail: seq<Inducted>, n: nat, index: nat) {
    && n <= |trail|
    && (forall j :: 0 <= j < n ==> IndexOf(trail[j]) < index)
    && (forall j :: n <= j < |trail| ==> IndexOf(trail[j]) >= index)
  }

  /** One of the first `n` statements has the id. */
  ghost predicate BearsId(trail: seq<Inducted>, n: nat, id: string) {
    exists j :: 0 <= j < n && j < |trail| && EnvelopeOf(trail[j]).statementId == id
  }

  /** A `key` statement is in the trail with its own change. */
  ghost predicate KeyTaken(w: Walk, hop: Hop) {
    && hop.envelope.payload.Some? && hop.envelope.payload.value.kind.KeyStatement?
    && var change := hop.envelope.payload.value.kind.change;
       InductedKey(KeyEvent(hop.entryIndex, change.keyId, change.pubkey, change.added), hop.envelope) in w.trail
  }

  /** It verifies under the statements before it, one of which has its id: it is walked without effect. */
  ghost predicate KeyRepeats(c: Checks, w: Walk, hop: Hop, n: nat) {
    && CutBefore(w.trail, n, hop.entryIndex) && PhaseOne(c, w.trail[..n], hop) == Ok(Verified)
    && BearsId(w.trail, n, hop.envelope.statementId) && hop.entryIndex in w.walkedIndexes
  }

  /** It verified: it was taken in or repeats an id. */
  ghost predicate KeyWalked(c: Checks, w: Walk, hop: Hop) {
    KeyTaken(w, hop) || exists n: nat :: KeyRepeats(c, w, hop, n)
  }

  /** It fails under the statements before it, and is recorded as void for the reason it failed for. */
  ghost predicate KeyVoided(c: Checks, w: Walk, hop: Hop, n: nat) {
    && CutBefore(w.trail, n, hop.entryIndex)
    && match PhaseOne(c, w.trail[..n], hop)
       case Ok(SignatureInvalid) => (hop.entryIndex, VoidSignature) in w.voids
       case Ok(KeyNotResolved(_)) => (hop.entryIndex, VoidKey) in w.voids
       case _ => false
  }

  ghost predicate KeySettled(c: Checks, w: Walk, hop: Hop) {
    KeyTaken(w, hop) || exists n: nat :: KeyRepeats(c, w, hop, n) || KeyVoided(c, w, hop, n)
  }

  /** A chain element is in the trail as the manifest it carries. */
  ghost predicate ManifestTaken(w: Walk, hop: Hop) {
    && hop.envelope.payload.Some? && hop.envelope.payload.value.kind.ManifestStatement?
    && var manifest := hop.envelope.payload.value.kind.manifest;
       InductedManifest(ManifestAt(hop.entryIndex, manifest, hop.envelope.statementId, hop.envelope)) in w.trail
  }

  /** A statement before it has its id: it is kept as a void duplicate. */
  ghost predicate ManifestRepeats(w: Walk, hop: Hop, n: nat) {
    CutBefore(w.trail, n, hop.entryIndex) && BearsId(w.trail, n, hop.envelope.statementId) && hop in w.voidChain
  }

  ghost predicate HopSettled(w: Walk, hop: Hop) {
    ManifestTaken(w, hop) || exists n: nat :: ManifestRepeats(w, hop, n)
  }

  /** A later walk keeps what a statement was settled as. */
  ghost predicate Grew(w: Walk, next: Walk) {
    && AppendsAfter(w.trail, next.trail, w.walkedIndex)
    && w.walkedIndexes <= next.walkedIndexes
    && w.voids <= next.voids && w.voidChain <= next.voidChain
  }

  lemma StaysSettled(c: Checks, w: Walk, next: Walk, hop: Hop)
    requires Grew(w, next) && hop.entryIndex <= w.walkedIndex
    ensures KeySettled(c, w, hop) ==> KeySettled(c, next, hop)
    ensures HopSettled(w, hop) ==> HopSettled(next, hop)
  {
    forall n: nat | n <= |w.trail| ensures CutBefore(w.trail, n, hop.entryIndex) ==>
      CutBefore(next.trail, n, hop.entryIndex) && next.trail[..n] == w.trail[..n]
    {
    }
    if n: nat :| KeyRepeats(c, w, hop, n) || KeyVoided(c, w, hop, n) {
      assert KeyRepeats(c, w, hop, n) ==> KeyRepeats(c, next, hop, n);
      assert KeyVoided(c, w, hop, n) ==> KeyVoided(c, next, hop, n);
    }
    if n: nat :| ManifestRepeats(w, hop, n) {
      assert ManifestRepeats(next, hop, n);
    }
  }

  /** What the walk has met it has settled; the ids it holds are its trail's. */
  ghost predicate Accounted(c: Checks, m: Material, w: Walk) {
    && (forall k :: 0 <= k < w.keyCursor && k < |m.keyStatements| ==>
          m.keyStatements[k].entryIndex <= w.walkedIndex && KeySettled(c, w, m.keyStatements[k]))
    && (forall k :: 0 <= k < w.chainCursor && k < |m.hops| ==>
          m.hops[k].entryIndex <= w.walkedIndex && HopSettled(w, m.hops[k]))
    && (forall s :: s in w.trail ==> IndexOf(s) <= w.walkedIndex)
    && (forall id :: id in w.governingIds ==> BearsId(w.trail, |w.trail|, id))
  }

  /** The walk has grown, met the `key` statement and settled it, and accounts for its ids and indexes. */
  ghost predicate MetKey(c: Checks, w: Walk, next: Walk, hop: Hop) {
    && Grew(w, next) && KeySettled(c, next, hop)
    && (next.walkedIndexes != w.walkedIndexes ==> KeyWalked(c, next, hop))
    && (forall id :: id in next.governingIds ==> BearsId(next.trail, |next.trail|, id))
    && (forall s :: s in next.trail ==> IndexOf(s) <= next.walkedIndex)
  }

  lemma KeyStepSettles(c: Checks, m: Material, w: Walk)
    requires w.keyCursor < |m.keyStatements| && StepKey(c, m, w).Continue? && Accounted(c, m, w)
    ensures MetKey(c, w, StepKey(c, m, w).walk, m.keyStatements[w.keyCursor])
  {
    var hop := m.keyStatements[w.keyCursor];
    if PhaseOne(c, w.trail, hop) != Ok(Verified) {
      KeyVoidSettles(c, m, w, hop);
    } else if hop.envelope.statementId in w.governingIds {
      KeyRepeatSettles(c, m, w, hop);
    } else {
      KeyTakenSettles(c, m, w, hop);
    }
  }

  lemma KeyVoidSettles(c: Checks, m: Material, w: Walk, hop: Hop)
    requires w.keyCursor < |m.keyStatements| && StepKey(c, m, w).Continue? && Accounted(c, m, w)
    requires hop == m.keyStatements[w.keyCursor] && PhaseOne(c, w.trail, hop) != Ok(Verified)
    ensures MetKey(c, w, StepKey(c, m, w).walk, hop)
  {
    var next := StepKey(c, m, w).walk;
    assert w.trail[..|w.trail|] == w.trail == next.trail;
    assert CutBefore(w.trail, |w.trail|, hop.entryIndex);
    assert KeyVoided(c, next, hop, |w.trail|);
  }

  lemma KeyRepeatSettles(c: Checks, m: Material, w: Walk, hop: Hop)
    requires w.keyCursor < |m.keyStatements| && StepKey(c, m, w).Continue? && Accounted(c, m, w)
    requires hop == m.keyStatements[w.keyCursor] && PhaseOne(c, w.trail, hop) == Ok(Verified)
    requires hop.envelope.statementId in w.governingIds
    ensures MetKey(c, w, StepKey(c, m, w).walk, hop)
  {
    var next := StepKey(c, m, w).walk;
    assert w.trail[..|w.trail|] == w.trail == next.trail;
    assert CutBefore(w.trail, |w.trail|, hop.entryIndex);
    assert KeyRepeats(c, next, hop, |w.trail|);
  }

  lemma KeyTakenSettles(c: Checks, m: Material, w: Walk, hop: Hop)
    requires w.keyCursor < |m.keyStatements| && StepKey(c, m, w).Continue? && Accounted(c, m, w)
    requires hop == m.keyStatements[w.keyCursor] && PhaseOne(c, w.trail, hop) == Ok(Verified)
    requires hop.envelope.statementId !in w.governingIds
    ensures MetKey(c, w, StepKey(c, m, w).walk, hop)
  {
    var next := StepKey(c, m, w).walk;
    assert KeyTaken(next, hop);
    IdsGrow(w, next, hop.envelope.statementId);
  }

  lemma IdsGrow(w: Walk, next: Walk, id: string)
    requires forall x :: x in w.governingIds ==> BearsId(w.trail, |w.trail|, x)
    requires next.governingIds == w.governingIds + {id} && w.trail <= next.trail && |next.trail| == |w.trail| + 1
    requires EnvelopeOf(next.trail[|w.trail|]).statementId == id
    ensures forall x :: x in next.governingIds ==> BearsId(next.trail, |next.trail|, x)
  {
    forall x | x in next.governingIds ensures BearsId(next.trail, |next.trail|, x) {
      if x in w.governingIds {
        var j :| 0 <= j < |w.trail| && EnvelopeOf(w.trail[j]).statementId == x;
        assert EnvelopeOf(next.trail[j]).statementId == x;
      }
    }
  }

  lemma ChainStepSettles(c: Checks, m: Material, w: Walk)
    requires w.chainCursor < |m.hops| && StepChain(c, m, w).Continue? && Accounted(c, m, w)
    ensures var next := StepChain(c, m, w).walk;
      && Grew(w, next) && HopSettled(next, m.hops[w.chainCursor])
      && (forall id :: id in next.governingIds ==> BearsId(next.trail, |next.trail|, id))
      && (forall s :: s in next.trail ==> IndexOf(s) <= next.walkedIndex)
  {
    var hop := m.hops[w.chainCursor];
    var next := StepChain(c, m, w).walk;
    assert CutBefore(w.trail, |w.trail|, hop.entryIndex);
    if hop.envelope.statementId in w.governingIds {
      assert ManifestRepeats(next, hop, |w.trail|);
    } else {
      var at := ManifestAt(
        hop.entryIndex, hop.envelope.payload.value.kind.manifest, hop.envelope.statementId, hop.envelope);
      assert next.trail == w.trail + [InductedManifest(at)];
      assert ManifestTaken(next, hop);
      IdsGrow(w, next, hop.envelope.statementId);
    }
  }

  lemma KeyStepKeepsAccount(c: Checks, m: Material, w: Walk)
    requires w.keyCursor < |m.keyStatements| && Accounted(c, m, w) && StepKey(c, m, w).Continue?
    ensures Accounted(c, m, StepKey(c, m, w).walk)
  {
    KeyStepMoves(c, m, w);
    KeyStepSettles(c, m, w);
    KeepsSettled(c, m, w, StepKey(c, m, w).walk);
  }

  lemma ChainStepKeepsAccount(c: Checks, m: Material, w: Walk)
    requires w.chainCursor < |m.hops| && Accounted(c, m, w) && StepChain(c, m, w).Continue?
    ensures Accounted(c, m, StepChain(c, m, w).walk)
  {
    ChainStepMoves(c, m, w);
    ChainStepSettles(c, m, w);
    KeepsSettled(c, m, w, StepChain(c, m, w).walk);
  }

  lemma StepKeepsAccount(c: Checks, m: Material, w: Walk)
    requires InRange(m, w) && More(m, w) && Accounted(c, m, w) && Step(c, m, w).Continue?
    ensures Accounted(c, m, Step(c, m, w).walk)
  {
    if TakesKey(m, w) {
      KeyStepKeepsAccount(c, m, w);
    } else {
      ChainStepKeepsAccount(c, m, w);
    }
  }

  lemma KeepsSettled(c: Checks, m: Material, w: Walk, next: Walk)
    requires Accounted(c, m, w) && Grew(w, next) && w.walkedIndex <= next.walkedIndex
    ensures forall k :: 0 <= k < w.keyCursor && k < |m.keyStatements| ==>
      m.keyStatements[k].entryIndex <= next.walkedIndex && KeySettled(c, next, m.keyStatements[k])
    ensures forall k :: 0 <= k < w.chainCursor && k < |m.hops| ==>
      m.hops[k].entryIndex <= next.walkedIndex && HopSettled(next, m.hops[k])
  {
    forall k | 0 <= k < w.keyCursor && k < |m.keyStatements| ensures KeySettled(c, next, m.keyStatements[k]) {
      StaysSettled(c, w, next, m.keyStatements[k]);
    }
    forall k | 0 <= k < w.chainCursor && k < |m.hops| ensures HopSettled(next, m.hops[k]) {
      StaysSettled(c, w, next, m.hops[k]);
    }
  }

  lemma KeyStopGrows(c: Checks, m: Material, w: Walk)
    requires w.keyCursor < |m.keyStatements| && StepKey(c, m, w).Stop?
    ensures Grew(w, StepKey(c, m, w).walk)
  {
    KeyStepMoves(c, m, w);
  }

  lemma ChainStopGrows(c: Checks, m: Material, w: Walk)
    requires w.chainCursor < |m.hops| && StepChain(c, m, w).Stop?
    ensures Grew(w, StepChain(c, m, w).walk)
  {
    ChainStepMoves(c, m, w);
  }

  lemma StopGrows(c: Checks, m: Material, w: Walk)
    requires More(m, w) && Step(c, m, w).Stop?
    ensures Grew(w, Step(c, m, w).walk)
  {
    if TakesKey(m, w) {
      KeyStopGrows(c, m, w);
    } else {
      ChainStopGrows(c, m, w);
    }
  }

  /** At or after the index the walk stopped at. */
  predicate NotReached(end: End, index: nat) {
    end.gap.Some? && !end.gap.value.AnchorMismatch? && index >= end.gap.value.at
  }

  /** Every statement the material carries is settled where the walk reached it. */
  ghost predicate SettlesAll(c: Checks, m: Material, end: End) {
    && (forall k :: 0 <= k < |m.keyStatements| ==>
          KeySettled(c, end.walk, m.keyStatements[k]) || NotReached(end, m.keyStatements[k].entryIndex))
    && (forall k :: 0 <= k < |m.hops| ==> HopSettled(end.walk, m.hops[k]) || NotReached(end, m.hops[k].entryIndex))
  }

  lemma StopSettles(c: Checks, m: Material, w: Walk)
    requires InRange(m, w) && More(m, w) && Accounted(c, m, w) && Step(c, m, w).Stop?
    requires Rising(m.keyStatements, w.keyCursor) && Rising(m.hops, w.chainCursor)
    ensures SettlesAll(c, m, End(Step(c, m, w).walk, Some(Step(c, m, w).gap)))
  {
    StopGrows(c, m, w);
    StepMoves(c, m, w);
    StopKeepsTrail(c, m, w);
    KeepsSettled(c, m, w, Step(c, m, w).walk);
  }

  lemma {:induction false} RunSettles(c: Checks, m: Material, w: Walk)
    requires InRange(m, w) && Accounted(c, m, w) && RunFrom(c, m, w).Ok?
    requires Rising(m.keyStatements, w.keyCursor) && Rising(m.hops, w.chainCursor)
    ensures SettlesAll(c, m, RunFrom(c, m, w).value)
    decreases Left(m, w)
  {
    if More(m, w) {
      match Step(c, m, w) {
        case Continue(next) =>
          StepKeepsAccount(c, m, w);
          RunSettles(c, m, next);
        case Stop(_, _) =>
          StopSettles(c, m, w);
        case Fail(_) =>
      }
    }
  }

  /**
   * On an accepted chain every statement it carries before the point the walk stopped at, if it did, is settled: a
   * chain element is a manifest of the governance state, or repeats the id of an earlier statement; a `key` statement
   * takes effect, repeats an earlier id, or fails under the statements before it and is recorded as void.
   */
  lemma NothingIsLost(
      c: Checks, receipt: Carried, policy: Policy, keyStatements: seq<Hop>, declared: bool, profileHeld: bool)
      returns (end: End)
    requires Established(c, receipt, policy, keyStatements, declared, profileHeld).Ok?
    requires Rising(keyStatements, 0)
    ensures var g := Established(c, receipt, policy, keyStatements, declared, profileHeld).value;
      && g.manifests == ManifestsOf(end.walk.trail) && g.events == EventsOf(end.walk.trail)
      && g.voids == end.walk.voids && g.voidChain == end.walk.voidChain && g.walkedIndexes == end.walk.walkedIndexes
      && (end.gap.Some? ==> !end.gap.value.AnchorMismatch?)
      && g.stoppedAt == (if end.gap.Some? then Some(end.gap.value.at) else None)
    ensures forall k :: 0 <= k < |keyStatements| ==>
      KeySettled(c, end.walk, keyStatements[k]) || NotReached(end, keyStatements[k].entryIndex)
    ensures forall k :: 0 < k < |receipt.chain| ==>
      HopSettled(end.walk, receipt.chain[k]) || NotReached(end, receipt.chain[k].entryIndex)
  {
    var m := MaterialOf(receipt, keyStatements, declared, profileHeld);
    var start := Start(GenesisOf(receipt));
    end := RunFrom(c, m, start).value;
    ChainRises(receipt.chain);
    assert BearsId(start.trail, 1, GenesisOf(receipt).versionId);
    RunSettles(c, m, start);
    RunExtends(c, m, start);
    forall k | 0 < k < |receipt.chain|
      ensures HopSettled(end.walk, receipt.chain[k]) || NotReached(end, receipt.chain[k].entryIndex)
    {
      assert m.hops[k - 1] == receipt.chain[k];
    }
  }

  lemma ChainRises(chain: seq<Hop>)
    requires Ascending(chain) && chain != []
    ensures Rising(chain[1..], 0)
  {
    forall i, j | 0 <= i < j < |chain[1..]| ensures chain[1..][i].entryIndex < chain[1..][j].entryIndex {
      AscendingApart(chain, i + 1, j + 1);
    }
  }

  // ---------------------------------------------------------------------------
  // And nothing is added
  // ---------------------------------------------------------------------------

  /** The statement is one that the material carries, at its index. */
  ghost predicate Comes(m: Material, s: Inducted) {
    match s
    case InductedKey(event, envelope) => Hop(event.entryIndex, envelope) in m.keyStatements
    case InductedManifest(at) => Hop(at.entryIndex, at.envelope) in m.hops
  }

  /** An index is walked for a statement of the trail, or for a `key` statement that repeats an id. */
  ghost predicate WalkedFor(c: Checks, m: Material, w: Walk, index: nat) {
    || (exists s :: s in w.trail && IndexOf(s) == index)
    || (exists hop, n: nat :: hop in m.keyStatements && hop.entryIndex == index && KeyRepeats(c, w, hop, n))
  }

  ghost predicate Sourced(c: Checks, m: Material, w: Walk) {
    && w.trail != []
    && (forall k :: 0 < k < |w.trail| ==> Comes(m, w.trail[k]))
    && (forall i :: i in w.walkedIndexes ==> i <= w.walkedIndex && WalkedFor(c, m, w, i))
  }

  lemma StaysWalked(c: Checks, m: Material, w: Walk, next: Walk, index: nat)
    requires Grew(w, next) && index <= w.walkedIndex && WalkedFor(c, m, w, index)
    ensures WalkedFor(c, m, next, index)
  {
    if hop, n: nat :| hop in m.keyStatements && hop.entryIndex == index && KeyRepeats(c, w, hop, n) {
      assert CutBefore(next.trail, n, index) && next.trail[..n] == w.trail[..n];
      assert KeyRepeats(c, next, hop, n);
    }
  }

  lemma WalkedKeyIsWalkedFor(c: Checks, m: Material, w: Walk, hop: Hop)
    requires hop in m.keyStatements && KeyWalked(c, w, hop)
    ensures WalkedFor(c, m, w, hop.entryIndex)
  {
    if KeyTaken(w, hop) {
      var change := hop.envelope.payload.value.kind.change;
      var event := KeyEvent(hop.entryIndex, change.keyId, change.pubkey, change.added);
      assert InductedKey(event, hop.envelope) in w.trail;
    }
  }

  lemma KeyStepComes(c: Checks, m: Material, w: Walk)
    requires w.keyCursor < |m.keyStatements| && StepKey(c, m, w).Continue?
    ensures forall k :: |w.trail| <= k < |StepKey(c, m, w).walk.trail| ==> Comes(m, StepKey(c, m, w).walk.trail[k])
  {
    var hop := m.keyStatements[w.keyCursor];
    assert hop in m.keyStatements && Hop(hop.entryIndex, hop.envelope) == hop;
  }

  lemma ChainStepSourced(c: Checks, m: Material, w: Walk)
    requires w.chainCursor < |m.hops| && StepChain(c, m, w).Continue?
    ensures var (next, hop) := (StepChain(c, m, w).walk, m.hops[w.chainCursor]);
      && (forall k :: |w.trail| <= k < |next.trail| ==> Comes(m, next.trail[k]))
      && (hop.entryIndex in next.walkedIndexes - w.walkedIndexes ==> WalkedFor(c, m, next, hop.entryIndex))
  {
    var (next, hop) := (StepChain(c, m, w).walk, m.hops[w.chainCursor]);
    assert hop in m.hops && Hop(hop.entryIndex, hop.envelope) == hop;
    if hop.envelope.statementId !in w.governingIds {
      assert next.trail[|w.trail|] in next.trail;
    }
  }

  lemma StepKeepsSource(c: Checks, m: Material, w: Walk)
    requires InRange(m, w) && More(m, w) && Accounted(c, m, w) && Sourced(c, m, w) && Step(c, m, w).Continue?
    ensures Sourced(c, m, Step(c, m, w).walk)
  {
    var next := Step(c, m, w).walk;
    StepMoves(c, m, w);
    if TakesKey(m, w) {
      KeyStepComes(c, m, w);
      KeyStepSettles(c, m, w);
      if next.walkedIndexes != w.walkedIndexes {
        WalkedKeyIsWalkedFor(c, m, next, m.keyStatements[w.keyCursor]);
      }
    } else {
      ChainStepSourced(c, m, w);
      ChainStepSettles(c, m, w);
    }
    forall i | i in next.walkedIndexes ensures i <= next.walkedIndex && WalkedFor(c, m, next, i) {
      if i in w.walkedIndexes {
        StaysWalked(c, m, w, next, i);
      }
    }
    forall k | 0 < k < |next.trail| ensures Comes(m, next.trail[k]) {
      if k < |w.trail| {
        assert next.trail[k] == w.trail[k];
      }
    }
  }

  lemma {:induction false} RunSourced(c: Checks, m: Material, w: Walk)
    requires InRange(m, w) && Accounted(c, m, w) && Sourced(c, m, w) && RunFrom(c, m, w).Ok?
    ensures var end := RunFrom(c, m, w).value;
      && end.walk.trail != []
      && (forall k :: 0 < k < |end.walk.trail| ==> Comes(m, end.walk.trail[k]))
      && (forall i :: i in end.walk.walkedIndexes ==> WalkedFor(c, m, end.walk, i) || NotReached(end, i))
    decreases Left(m, w)
  {
    if More(m, w) {
      match Step(c, m, w) {
        case Continue(next) =>
          StepKeepsAccount(c, m, w);
          StepKeepsSource(c, m, w);
          RunSourced(c, m, next);
        case Stop(last, _) =>
          StopGrows(c, m, w);
          StepMoves(c, m, w);
          StopKeepsTrail(c, m, w);
          forall i | i in last.walkedIndexes && i <= w.walkedIndex ensures WalkedFor(c, m, last, i) {
            StaysWalked(c, m, w, last, i);
          }
        case Fail(_) =>
      }
    }
  }

  /** Every statement of the state but the genesis is one the receipt carries, and every index walked is accounted for. */
  lemma NothingIsAdded(
      c: Checks, receipt: Carried, policy: Policy, keyStatements: seq<Hop>, declared: bool, profileHeld: bool)
      returns (end: End)
    requires Established(c, receipt, policy, keyStatements, declared, profileHeld).Ok?
    ensures var g := Established(c, receipt, policy, keyStatements, declared, profileHeld).value;
      && g.manifests == ManifestsOf(end.walk.trail) && g.events == EventsOf(end.walk.trail)
      && g.walkedIndexes == end.walk.walkedIndexes
      && g.stoppedAt == (if end.gap.Some? && !end.gap.value.AnchorMismatch? then Some(end.gap.value.at) else None)
    ensures var m := MaterialOf(receipt, keyStatements, declared, profileHeld);
      && (forall k :: 0 < k < |end.walk.trail| ==> Comes(m, end.walk.trail[k]))
      && (forall i :: i in end.walk.walkedIndexes ==> WalkedFor(c, m, end.walk, i) || NotReached(end, i))
  {
    var m := MaterialOf(receipt, keyStatements, declared, profileHeld);
    var start := Start(GenesisOf(receipt));
    end := RunFrom(c, m, start).value;
    assert BearsId(start.trail, 1, GenesisOf(receipt).versionId);
    assert start.trail[0] in start.trail;
    RunSourced(c, m, start);
  }
}
