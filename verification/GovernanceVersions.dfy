/** Which revisions the walk takes: a foreign one stops it, and a missing version member does not. */
module GovernanceVersions {
  import opened Basics
  import opened Envelopes
  import opened Statements
  import opened KeyState
  import opened Governance
  import opened GovernanceWalk

  /** A verifying first copy stops the walk exactly when it declares a foreign revision, or rotates keys unseen. */
  lemma StopsExactlyAt(c: Checks, m: Material, w: Walk)
    requires More(m, w)
    ensures Step(c, m, w).Stop? <==>
      var hop := if TakesKey(m, w) then m.keyStatements[w.keyCursor] else m.hops[w.chainCursor];
      && hop.entryIndex > w.walkedIndex
      && hop.envelope.payload.Some?
      && hop.envelope.statementId !in w.governingIds
      && PhaseOne(c, w.trail, hop) == Ok(Verified)
      && var payload := hop.envelope.payload.value;
      || payload.version.Foreign?
      || (!TakesKey(m, w) && !m.profileHeld && RotatesNext(m, w, hop.entryIndex, payload))
  {
  }

  /** A well-formed successor manifest whose key sets differ, with the next proof naming it. */
  predicate RotatesNext(m: Material, w: Walk, index: nat, payload: Payload) {
    && payload.commonFieldsOk && payload.kind.ManifestStatement?
    && payload.kind.manifest.predecessor == Some(w.latest.envelope.entryId)
    && payload.kind.manifest.wellFormed
    && Rotates(w.latest.manifest, payload.kind.manifest)
    && w.proofCursor < |m.proofs| && m.proofs[w.proofCursor].manifestEntryIndex == index
  }

  /** A statement without a version member is taken exactly as one of this revision. */
  lemma MissingVersionIsTaken(c: Checks, m: Material, w: Walk, hop: Hop, payload: Payload)
    ensures TakeKey(c, w, hop, payload.(version := Absent)) == TakeKey(c, w, hop, payload.(version := Supported))
    ensures TakeManifest(c, m, w, hop, payload.(version := Absent)) ==
      TakeManifest(c, m, w, hop, payload.(version := Supported))
  {
  }

  /** The walk over a chain of one hop that passes every check. */
  lemma OneHop(c: Checks, m: Material, genesis: ManifestAt, hop: Hop, manifest: Manifest)
    requires m.hops == [hop] && m.keyStatements == [] && hop.entryIndex > 0
    requires hop.envelope.payload == Some(BarePayload(Absent, ManifestStatement(manifest)))
    requires PhaseOne(c, [InductedManifest(genesis)], hop) == Ok(Verified)
    requires hop.envelope.statementId != genesis.versionId
    requires manifest.predecessor == Some(genesis.envelope.entryId) && manifest.wellFormed
    requires !Rotates(genesis.manifest, manifest)
    ensures var r := RunFrom(c, m, Start(genesis));
      && r.Ok? && r.value.gap == None && !r.value.walk.sawRotation && r.value.walk.proofCursor == 0
      && ManifestsOf(r.value.walk.trail) ==
        [genesis, ManifestAt(hop.entryIndex, manifest, hop.envelope.statementId, hop.envelope)]
  {
    var at := ManifestAt(hop.entryIndex, manifest, hop.envelope.statementId, hop.envelope);
    var start := Start(genesis);
    Extended([], InductedManifest(genesis));
    assert [] + start.trail == start.trail;
    Extended(start.trail, InductedManifest(at));
    var payload := hop.envelope.payload.value;
    assert payload.version == Absent && payload.commonFieldsOk && payload.kind == ManifestStatement(manifest);
    var walked := start.(
      chainCursor := 1, walkedIndex := hop.entryIndex, walkedIndexes := {0, hop.entryIndex},
      governingIds := {genesis.versionId, hop.envelope.statementId});
    assert TakeManifest(c, m, walked, hop, payload) == Continue(Induct(walked, InductedManifest(at)));
    assert Step(c, m, start) == Continue(Induct(walked, InductedManifest(at)));
  }

  /** A chain of two manifests, the second without a version member, that is accepted whole. */
  lemma MissingVersionIsInducted() returns (c: Checks, receipt: Carried, policy: Policy)
    ensures |receipt.chain| == 2 && receipt.chain[1].envelope.payload.Some?
    ensures receipt.chain[1].envelope.payload.value.version == Absent
    ensures var r := Established(c, receipt, policy, [], true, true);
      && r.Ok? && r.value.stoppedAt == None && r.value.gaps == []
      && |r.value.manifests| == 2 && r.value.manifests[1].envelope == receipt.chain[1].envelope
  {
    c := Checks((key, payload, sig) => Some(true), key => None, (element, hop, outgoing, manifests) => true);
    var first := Manifest(None, true, [("k", "p")], {}, {});
    var second := Manifest(Some("entry 0"), true, [("k", "p")], {}, {});
    var genesis := Envelope(Some(BarePayload(Supported, ManifestStatement(first))), Some([]), "id 0", "entry 0", "");
    var signed := [SignatureEntry(Some("k"), Some("s"))];
    var next := Envelope(Some(BarePayload(Absent, ManifestStatement(second))), Some(signed), "id 1", "entry 1", "");
    receipt := Carried([Hop(0, genesis), Hop(1, next)], Missing, "entry 0");
    policy := Policy("entry 0", None);
    assert "id 0"[3] != "id 1"[3];
    var m := MaterialOf(receipt, [], true, true);
    assert m.hops == [Hop(1, next)];
    FirstKeyVerifies(c, [InductedManifest(GenesisOf(receipt))], m.hops[0], GenesisOf(receipt));
    OneHop(c, m, GenesisOf(receipt), m.hops[0], second);
  }

  /** One signature under the one key the genesis declares verifies, where every signature does. */
  lemma FirstKeyVerifies(c: Checks, trail: seq<Inducted>, hop: Hop, genesis: ManifestAt)
    requires trail == [InductedManifest(genesis)] && genesis.manifest.producerKeys == [("k", "p")]
    requires hop.envelope.payload.Some? && hop.envelope.signatures == Some([SignatureEntry(Some("k"), Some("s"))])
    requires c.verify("p", hop.envelope.payload.value, "s") == Some(true)
    ensures PhaseOne(c, trail, hop) == Ok(Verified)
  {
    assert trail[..0] == [] && ManifestsOf(trail) == [genesis] && EventsOf(trail) == [];
    LookupIsMachine(trail, hop.entryIndex);
    var (declared, at) := (genesis.manifest.producerKeys, genesis.entryIndex);
    assert declared[..0] == [] && Snapshot([], at) == map[];
    assert Snapshot(declared, at) == map[]["k" := BoundKey("p", at)];
    var keys := PublicKeysOf(Snapshot(declared, at));
    assert keys["k"] == "p";
    var entries := hop.envelope.signatures.value;
    assert Outcome(c.verify, hop.envelope.payload.value, keys, entries[0]) == Verifies;
    assert SweepOver(c.verify, hop.envelope.payload.value, keys, entries, 0) == Going(None);
    assert SweepOver(c.verify, hop.envelope.payload.value, keys, entries, 1) == Going(None);
  }
}
