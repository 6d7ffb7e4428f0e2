/** What an accepted chain is, member by member: its genesis, its statements, and that nothing it carries is lost. */
module GovernanceMeaning {
  import opened Basics
  import opened Envelopes
  import opened Statements
  import opened KeyState
  import opened Governance
  import opened GovernanceWalk
  import opened GovernanceLaws
  import opened GovernanceAgreement

  // ---------------------------------------------------------------------------
  // The genesis
  // ---------------------------------------------------------------------------

  /** A genesis manifest in force at index 0, whose envelope is the one the receipt's anchor digests. */
  ghost predicate IsGenesis(receipt: Carried, hop: Hop) {
    && hop.entryIndex == 0
    && hop.envelope.entryId == receipt.genesisEntryId
    && hop.envelope.payload.Some?
    && hop.envelope.payload.value.version == Supported
    && hop.envelope.payload.value.commonFieldsOk
    && hop.envelope.payload.value.kind.ManifestStatement?
    && hop.envelope.payload.value.kind.manifest.wellFormed
    && hop.envelope.payload.value.kind.manifest.predecessor.None?
  }

  /** The base case holds exactly for a chain that starts at a genesis and ascends, with a payload in every element. */
  lemma GenesisAcceptedIff(receipt: Carried)
    ensures GenesisDefect(receipt).None? <==>
      && receipt.chain != [] && IsGenesis(receipt, receipt.chain[0])
      && (forall k :: 0 < k < |receipt.chain| ==> receipt.chain[k - 1].entryIndex < receipt.chain[k].entryIndex)
      && (forall k :: 0 <= k < |receipt.chain| ==> receipt.chain[k].envelope.payload.Some?)
      && !receipt.rotationProofs.NotAnArray?
  {
  }

  /** The policy's anchor is the genesis, and so are its key ids, where it holds any. */
  ghost predicate Anchored(policy: Policy, genesis: Envelope)
    requires genesis.payload.Some? && genesis.payload.value.kind.ManifestStatement?
  {
    && genesis.entryId == policy.genesisEntryId
    && (policy.genesisKeyIds.Some? ==> forall id ::
          id in policy.genesisKeyIds.value <==>
            exists key :: key in genesis.payload.value.kind.manifest.producerKeys && key.0 == id)
  }

  lemma AnchorGapsIff(receipt: Carried, policy: Policy)
    requires GenesisDefect(receipt).None?
    ensures AnchorGaps(receipt, policy) == [] <==> Anchored(policy, receipt.chain[0].envelope)
    ensures forall gap :: gap in AnchorGaps(receipt, policy) ==> gap == AnchorMismatch
  {
    var keys := GenesisOf(receipt).manifest.producerKeys;
    var keyIds := set key | key in keys :: key.0;
    if Anchored(policy, receipt.chain[0].envelope) && policy.genesisKeyIds.Some? {
      assert forall id :: id in policy.genesisKeyIds.value <==> id in keyIds;
      assert policy.genesisKeyIds.value == keyIds;
    }
  }

  /**
   * An accepted chain starts at a genesis, which is the first manifest in force, and an anchor mismatch is among the
   * gaps exactly where policy anchors something else.
   */
  lemma AcceptedGenesis(
      c: Checks, receipt: Carried, policy: Policy, keyStatements: seq<Hop>, declared: bool, profileHeld: bool)
    requires Established(c, receipt, policy, keyStatements, declared, profileHeld).Ok?
    ensures receipt.chain != [] && IsGenesis(receipt, receipt.chain[0])
    ensures forall k :: 0 < k < |receipt.chain| ==> receipt.chain[k - 1].entryIndex < receipt.chain[k].entryIndex
    ensures var (g, genesis) :=
        (Established(c, receipt, policy, keyStatements, declared, profileHeld).value, receipt.chain[0].envelope);
      && g.manifests != []
      && g.manifests[0] == ManifestAt(0, genesis.payload.value.kind.manifest, genesis.statementId, genesis)
      && (AnchorMismatch !in g.gaps <==> Anchored(policy, genesis))
  {
    GenesisAcceptedIff(receipt);
    AnchorGapsIff(receipt, policy);
    var m := MaterialOf(receipt, keyStatements, declared, profileHeld);
    var start := Start(GenesisOf(receipt));
    Extended([], InductedManifest(GenesisOf(receipt)));
    assert [] + start.trail == start.trail;
    RunExtends(c, m, start);
    ProjectionsExtend(start.trail, RunFrom(c, m, start).value.walk.trail, 0);
  }

  // ---------------------------------------------------------------------------
  // Each statement
  // ---------------------------------------------------------------------------

  /** Every signature names a key in force and verifies under it, and there is one. */
  ghost predicate FullySigned(verify: Verifier, env: Envelope, keys: Keys) {
    && env.payload.Some? && env.signatures.Some? && env.signatures.value != []
    && forall e :: e in env.signatures.value ==>
      && e.keyId.Some? && e.sig.Some? && e.keyId.value in keys
      && verify(keys[e.keyId.value].pubkey, env.payload.value, e.sig.value) == Some(true)
  }

  lemma VerifiedIsSigned(verify: Verifier, env: Envelope, keys: Keys)
    ensures CheckResult(verify, env, PublicKeysOf(keys)) == Ok(Verified) <==> FullySigned(verify, env, keys)
  {
    if env.payload.Some? && env.signatures.Some? {
      VerifiedIff(verify, env, PublicKeysOf(keys));
    }
  }

  /** A `key` statement as it is taken in: a well-formed change under its own key's id, naming the last manifest. */
  ghost predicate KeyTakenAs(c: Checks, before: seq<Inducted>, payload: Payload, event: KeyEvent) {
    && payload.kind.KeyStatement?
    && payload.kind.change.wellFormed
    && c.keyIdOf(payload.kind.change.pubkey) == Some(payload.kind.change.keyId)
    && ManifestsOf(before) != []
    && payload.kind.change.manifest == Last(ManifestsOf(before)).versionId
    && event.keyId == payload.kind.change.keyId
    && event.pubkey == payload.kind.change.pubkey
    && event.added == payload.kind.change.added
  }

  /** A manifest as it is taken in: well formed, and the successor of the last manifest before it. */
  ghost predicate ManifestTakenAs(before: seq<Inducted>, payload: Payload, at: ManifestAt) {
    && payload.kind == ManifestStatement(at.manifest)
    && at.manifest.wellFormed
    && at.versionId == at.envelope.statementId
    && ManifestsOf(before) != []
    && at.manifest.predecessor == Some(Last(ManifestsOf(before)).envelope.entryId)
  }

  lemma ActiveIsLast(trail: seq<Inducted>, index: nat)
    requires Trail(trail) && IndexOf(Last(trail)) < index
    ensures ManifestsOf(trail) != []
    ensures ActiveVersion(ManifestsOf(trail), index) == Some(Last(ManifestsOf(trail)).versionId)
  {
    ProjectionsAreBefore(trail);
    var k := SnapshotManifestIs(ManifestsOf(trail), index);
    assert Last(ManifestsOf(trail)) in ManifestsOf(trail);
  }

  /** Every statement after the genesis: signed under the keys of those before it, of this revision, and of its form. */
  lemma StatementsTakenAs(c: Checks, trail: seq<Inducted>, k: nat)
    requires Inductive(c, trail) && 0 < k < |trail|
    ensures var (env, index, before) := (EnvelopeOf(trail[k]), IndexOf(trail[k]), trail[..k]);
      && FullySigned(c.verify, env, KeysAt(ManifestsOf(before), EventsOf(before), index))
      && env.payload.value.version in {Absent, Supported} && env.payload.value.commonFieldsOk
      && match trail[k]
         case InductedKey(event, _) => KeyTakenAs(c, before, env.payload.value, event)
         case InductedManifest(at) => ManifestTakenAs(before, env.payload.value, at)
  {
    var (env, index, before) := (EnvelopeOf(trail[k]), IndexOf(trail[k]), trail[..k]);
    SafeAtEveryPosition(c, trail);
    assert Admitted(c, before, trail[k]);
    VerifiedIsSigned(c.verify, env, KeysAt(ManifestsOf(before), EventsOf(before), index));
    assert Trail(before);
    ActiveIsLast(before, index);
  }

  // ---------------------------------------------------------------------------
  // Rotations
  // ---------------------------------------------------------------------------

  /** The manifest has another log or witness key set than the one before it. */
  predicate IsRotation(manifests: seq<ManifestAt>, k: nat) {
    && 0 < k < |manifests|
    && (manifests[k].manifest.logKeys != manifests[k - 1].manifest.logKeys
        || manifests[k].manifest.witnessKeys != manifests[k - 1].manifest.witnessKeys)
  }

  /** The indexes of rotations are exactly those manifests'. */
  lemma {:induction false} RotationIndexesAre(manifests: seq<ManifestAt>, x: nat)
    ensures x in RotationIndexes(manifests) <==> RotationAt(manifests, x)
  {
    if |manifests| > 1 {
      RotationIndexesAre(manifests[..|manifests| - 1], x);
      RotationAdded(manifests, x);
      LastRotates(manifests);
    }
  }

  lemma LastRotates(manifests: seq<ManifestAt>)
    requires |manifests| > 1
    ensures var (before, last) := (manifests[..|manifests| - 1], manifests[|manifests| - 1]);
      RotationIndexes(manifests) ==
        RotationIndexes(before) + (if IsRotation(manifests, |manifests| - 1) then [last.entryIndex] else [])
  {
  }

  /** A rotation is one of those before the last manifest, or the last manifest is one. */
  lemma RotationAdded(manifests: seq<ManifestAt>, x: nat)
    requires |manifests| > 1
    ensures var (before, last) := (manifests[..|manifests| - 1], |manifests| - 1);
      RotationAt(manifests, x) <==>
        RotationAt(before, x) || (IsRotation(manifests, last) && manifests[last].entryIndex == x)
  {
    var (before, last) := (manifests[..|manifests| - 1], |manifests| - 1);
    if RotationAt(before, x) {
      var k: nat :| IsRotation(before, k) && before[k].entryIndex == x;
      assert IsRotation(manifests, k);
    }
    if RotationAt(manifests, x) {
      var k: nat :| IsRotation(manifests, k) && manifests[k].entryIndex == x;
      assert k < last ==> IsRotation(before, k);
    }
  }

  ghost predicate RotationAt(manifests: seq<ManifestAt>, x: nat) {
    exists k: nat :: IsRotation(manifests, k) && manifests[k].entryIndex == x
  }

  lemma {:induction false} RotationIndexesAscend(manifests: seq<ManifestAt>)
    requires manifests != []
    requires forall i, j :: 0 <= i < j < |manifests| ==> manifests[i].entryIndex < manifests[j].entryIndex
    ensures forall i :: 0 <= i < |RotationIndexes(manifests)| ==>
      RotationIndexes(manifests)[i] <= manifests[|manifests| - 1].entryIndex
    ensures forall i, j :: 0 <= i < j < |RotationIndexes(manifests)| ==>
      RotationIndexes(manifests)[i] < RotationIndexes(manifests)[j]
  {
    if |manifests| > 1 {
      var (before, last) := (manifests[..|manifests| - 1], manifests[|manifests| - 1].entryIndex);
      RotationIndexesAscend(before);
      assert before[|before| - 1].entryIndex < last;
      var earlier := RotationIndexes(before);
      assert RotationIndexes(manifests) == earlier || RotationIndexes(manifests) == earlier + [last];
    }
  }

  // ---------------------------------------------------------------------------
  // Which state counts where
  // ---------------------------------------------------------------------------

  /** The manifest active for a checkpoint is the one with the greatest index below its size, if there is one. */
  lemma {:induction false} ActiveForIs(manifests: seq<ManifestAt>, treeSize: nat)
    ensures ActiveFor(manifests, treeSize).None? <==> forall m :: m in manifests ==> m.entryIndex >= treeSize
    ensures ActiveFor(manifests, treeSize).Some? ==>
      exists k :: 0 <= k < |manifests| && IsActive(manifests, treeSize, k)
        && ActiveFor(manifests, treeSize) == Some(manifests[k])
  {
    if manifests != [] {
      var before := manifests[..|manifests| - 1];
      ActiveForIs(before, treeSize);
      if manifests[|manifests| - 1].entryIndex < treeSize {
        assert IsActive(manifests, treeSize, |manifests| - 1);
      } else if ActiveFor(before, treeSize).Some? {
        var k :| 0 <= k < |before| && IsActive(before, treeSize, k) && ActiveFor(before, treeSize) == Some(before[k]);
        assert IsActive(manifests, treeSize, k);
      }
    }
  }

  ghost predicate IsActive(manifests: seq<ManifestAt>, treeSize: nat, k: nat) {
    && k < |manifests| && manifests[k].entryIndex < treeSize
    && forall j :: k < j < |manifests| ==> manifests[j].entryIndex >= treeSize
  }

  /** A state is established everywhere if the walk did not stop, and else below the index it stopped at. */
  lemma EstablishedIff(g: Governance, treeSize: u64)
    ensures g.stoppedAt.None? ==> forall i: nat :: EstablishedAt(g, i)
    ensures g.stoppedAt.Some? ==> forall i: nat :: EstablishedAt(g, i) <==> i < g.stoppedAt.value
    ensures treeSize > 0 ==> (EstablishedForTreeSize(g, treeSize) <==>
      forall i: nat :: i < treeSize ==> EstablishedAt(g, i))
  {
    if treeSize > 0 && (forall i: nat :: i < treeSize ==> EstablishedAt(g, i)) {
      assert EstablishedAt(g, treeSize - 1);
    }
  }

  /** A chain element that does not verify is refused: under `declared` an unresolved key is one not carried. */
  lemma UnverifiedElementFails(c: Checks, m: Material, w: Walk, check: EnvelopeCheck)
    requires w.chainCursor < |m.hops| && m.hops[w.chainCursor].entryIndex > w.walkedIndex
    requires m.hops[w.chainCursor].envelope.payload.Some?
    requires m.hops[w.chainCursor].envelope.statementId !in w.governingIds
    requires PhaseOne(c, w.trail, m.hops[w.chainCursor]) == Ok(check) && check != Verified
    ensures var index := m.hops[w.chainCursor].entryIndex;
      StepChain(c, m, w) == Fail(
        if check.KeyNotResolved? && m.declared then ProducerKeyNotCarried(index, check.keyId)
        else EnvelopeSignatureInvalid(index))
  {
  }
}
