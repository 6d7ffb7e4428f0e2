/** The induction as it runs: two cursors, the state they update, and the walk it must agree with. */
module GovernanceWalk {
  import opened Basics
  import opened Envelopes
  import opened Statements
  import opened KeyState
  import opened Governance

  lemma Extended(trail: seq<Inducted>, s: Inducted)
    ensures ManifestsOf(trail + [s]) == if s.InductedManifest? then ManifestsOf(trail) + [s.at] else ManifestsOf(trail)
    ensures EventsOf(trail + [s]) == if s.InductedKey? then EventsOf(trail) + [s.event] else EventsOf(trail)
  {
    assert (trail + [s])[..|trail|] == trail;
  }

  /** One envelope against the key state the walk has established so far. */
  method CheckUnder(
      c: Checks, manifests: seq<ManifestAt>, events: seq<KeyEvent>, hop: Hop, ghost trail: seq<Inducted>)
      returns (r: Result<EnvelopeCheck, EnvelopeError>)
    requires manifests == ManifestsOf(trail) && events == EventsOf(trail)
    ensures r == PhaseOne(c, trail, hop)
  {
    var keys := ProducerKeysAt(manifests, events, hop.entryIndex);
    r := CheckEnvelope(c.verify, hop.envelope, PublicKeysOf(keys));
  }

  /** Phase 2 of a `key` statement that verified: the event it amounts to, or `None` where the walk stops at it. */
  method AdmitKey(c: Checks, hop: Hop, payload: Payload, manifests: seq<ManifestAt>, ghost w: Walk)
      returns (r: Result<Option<KeyEvent>, Error>)
    requires manifests == ManifestsOf(w.trail)
    ensures match TakeKey(c, w, hop, payload)
      case Fail(error) => r == Err(error)
      case Stop(last, gap) => r == Ok(None) && last == w && gap == ForeignRevision(hop.entryIndex)
      case Continue(next) => r.Ok? && r.value.Some? && next == Induct(w, InductedKey(r.value.value, hop.envelope))
  {
    if payload.version.Foreign? {
      return Ok(None);
    }
    if !payload.commonFieldsOk {
      return Err(Malformed);
    }
    if !KeyFormOk(c, manifests, payload.kind, hop.entryIndex) {
      return Err(ChainInvalid);
    }
    return Ok(Some(EventOf(payload.kind.change, hop.entryIndex)));
  }

  /** Phase 2 of a chain hop that verified, the rotation rule included: what it leaves for phase 3 to install. */
  method AdmitManifest(
      c: Checks, m: Material, hop: Hop, payload: Payload, previous: ManifestAt, manifests: seq<ManifestAt>,
      cursor: nat, saw: bool, ghost w: Walk)
      returns (r: Result<Option<Gap>, Error>, rotationCursor: nat, sawRotation: bool)
    requires w.latest == previous && w.proofCursor == cursor && w.sawRotation == saw
    requires manifests == ManifestsOf(w.trail)
    ensures match TakeManifest(c, m, w, hop, payload)
      case Fail(error) => r == Err(error)
      case Stop(last, gap) => r == Ok(Some(gap)) &&
        last == w.(proofCursor := rotationCursor, sawRotation := sawRotation)
      case Continue(next) =>
        && r == Ok(None) && payload.kind.ManifestStatement?
        && next == Induct(
          w.(proofCursor := rotationCursor, sawRotation := sawRotation),
          InductedManifest(ManifestAt(hop.entryIndex, payload.kind.manifest, hop.envelope.statementId, hop.envelope)))
  {
    rotationCursor, sawRotation := cursor, saw;
    if payload.version.Foreign? {
      r := Ok(Some(ForeignRevision(hop.entryIndex)));
      return;
    }
    if !payload.commonFieldsOk {
      r := Err(Malformed);
      return;
    }
    if !payload.kind.ManifestStatement? {
      r := Err(ChainInvalid);
      return;
    }
    var manifest := payload.kind.manifest;
    if manifest.predecessor != Some(previous.envelope.entryId) {
      r := Err(ChainInvalid);
      return;
    }
    if !manifest.wellFormed {
      r := Err(Malformed);
      return;
    }
    if Rotates(previous.manifest, manifest) {
      sawRotation := true;
      if rotationCursor >= |m.proofs| || m.proofs[rotationCursor].manifestEntryIndex != hop.entryIndex {
        r := Err(RotationProofInvalid(hop.entryIndex));
        return;
      }
      if !m.profileHeld {
        r := Ok(Some(RotationUnverifiable(hop.entryIndex)));
        return;
      }
      if !c.rotationVerifies(m.proofs[rotationCursor], hop, previous, manifests) {
        r := Err(RotationProofInvalid(hop.entryIndex));
        return;
      }
      rotationCursor := rotationCursor + 1;
    }
    r := Ok(None);
  }

  /** What an enumerated `key` statement came to when the walk met it. */
  datatype KeyMet = KeyVoid(reason: VoidReason) | KeyDuplicate | KeyForeign | KeyTaken(event: KeyEvent)

  /** What a chain hop came to, with the rotation proofs used up and whether a rotation was seen. */
  datatype HopMet =
    | HopDuplicate
    | HopStops(gap: Gap, cursor: nat, saw: bool)
    | HopTaken(at: ManifestAt, cursor: nat, saw: bool)

  ghost function AfterKey(w: Walk, hop: Hop, r: Result<KeyMet, Error>): Next {
    var met := w.(keyCursor := w.keyCursor + 1, walkedIndex := hop.entryIndex);
    var walked := met.(walkedIndexes := w.walkedIndexes + {hop.entryIndex});
    var first := walked.(governingIds := w.governingIds + {hop.envelope.statementId});
    match r
    case Err(error) => Fail(error)
    case Ok(KeyVoid(reason)) => Continue(met.(voids := w.voids + [(hop.entryIndex, reason)]))
    case Ok(KeyDuplicate) => Continue(walked)
    case Ok(KeyForeign) => Stop(first, ForeignRevision(hop.entryIndex))
    case Ok(KeyTaken(event)) => Continue(Induct(first, InductedKey(event, hop.envelope)))
  }

  ghost function AfterHop(w: Walk, hop: Hop, r: Result<HopMet, Error>): Next {
    var met := w.(chainCursor := w.chainCursor + 1, walkedIndex := hop.entryIndex);
    var first := met.(
      governingIds := w.governingIds + {hop.envelope.statementId}, walkedIndexes := w.walkedIndexes + {hop.entryIndex});
    match r
    case Err(error) => Fail(error)
    case Ok(HopDuplicate) => Continue(met.(voidChain := w.voidChain + [hop]))
    case Ok(HopStops(gap, cursor, saw)) => Stop(first.(proofCursor := cursor, sawRotation := saw), gap)
    case Ok(HopTaken(at, cursor, saw)) =>
      Continue(Induct(first.(proofCursor := cursor, sawRotation := saw), InductedManifest(at)))
  }

  method MeetKey(
      c: Checks, m: Material, hop: Hop, walkedIndex: nat, governingIds: set<string>, manifests: seq<ManifestAt>,
      events: seq<KeyEvent>, ghost w: Walk)
      returns (r: Result<KeyMet, Error>)
    requires w.keyCursor < |m.keyStatements| && hop == m.keyStatements[w.keyCursor]
    requires manifests == ManifestsOf(w.trail) && events == EventsOf(w.trail)
    requires walkedIndex == w.walkedIndex && governingIds == w.governingIds
    ensures StepKey(c, m, w) == AfterKey(w, hop, r)
  {
    if walkedIndex >= hop.entryIndex {
      return Err(ChainInvalid);
    }
    if hop.envelope.payload.None? {
      return Err(Malformed);
    }
    var check := CheckUnder(c, manifests, events, hop, w.trail);
    if check.Err? {
      return Err(EnvelopeUnreadable(check.error));
    }
    if !check.value.Verified? {
      return Ok(KeyVoid(if check.value.SignatureInvalid? then VoidSignature else VoidKey));
    }
    if hop.envelope.statementId in governingIds {
      return Ok(KeyDuplicate);
    }
    ghost var first := w.(
      keyCursor := w.keyCursor + 1, walkedIndex := hop.entryIndex,
      walkedIndexes := w.walkedIndexes + {hop.entryIndex},
      governingIds := w.governingIds + {hop.envelope.statementId});
    var admitted := AdmitKey(c, hop, hop.envelope.payload.value, manifests, first);
    if admitted.Err? {
      return Err(admitted.error);
    }
    return Ok(if admitted.value.None? then KeyForeign else KeyTaken(admitted.value.value));
  }

  method MeetHop(
      c: Checks, m: Material, hop: Hop, walkedIndex: nat, governingIds: set<string>, previous: ManifestAt,
      manifests: seq<ManifestAt>, events: seq<KeyEvent>, cursor: nat, saw: bool, ghost w: Walk)
      returns (r: Result<HopMet, Error>)
    requires w.chainCursor < |m.hops| && hop == m.hops[w.chainCursor]
    requires manifests == ManifestsOf(w.trail) && events == EventsOf(w.trail) && previous == w.latest
    requires walkedIndex == w.walkedIndex && governingIds == w.governingIds
    requires cursor == w.proofCursor && saw == w.sawRotation
    ensures StepChain(c, m, w) == AfterHop(w, hop, r)
  {
    if walkedIndex >= hop.entryIndex {
      return Err(ChainInvalid);
    }
    if hop.envelope.payload.None? {
      return Err(Malformed);
    }
    if hop.envelope.statementId in governingIds {
      return Ok(HopDuplicate);
    }
    var check := CheckUnder(c, manifests, events, hop, w.trail);
    var failure := PhaseOneFailure(check, m.declared, hop.entryIndex);
    if failure.Some? {
      return Err(failure.value);
    }
    ghost var first := w.(
      chainCursor := w.chainCursor + 1, walkedIndex := hop.entryIndex,
      governingIds := w.governingIds + {hop.envelope.statementId},
      walkedIndexes := w.walkedIndexes + {hop.entryIndex});
    var payload := hop.envelope.payload.value;
    var stop, rotationCursor, sawRotation := AdmitManifest(c, m, hop, payload, previous, manifests, cursor, saw, first);
    if stop.Err? {
      return Err(stop.error);
    }
    if stop.value.Some? {
      return Ok(HopStops(stop.value.value, rotationCursor, sawRotation));
    }
    var at := ManifestAt(hop.entryIndex, payload.kind.manifest, hop.envelope.statementId, hop.envelope);
    return Ok(HopTaken(at, rotationCursor, sawRotation));
  }

  /** The merged walk after the genesis, as far as it goes; `w` is the walk it has made. */
  method WalkMerged(c: Checks, m: Material, genesis: ManifestAt) returns (
      r: Result<Option<Gap>, Error>, manifests: seq<ManifestAt>, events: seq<KeyEvent>, walkedIndexes: set<nat>,
      voidChain: seq<Hop>, voids: seq<(nat, VoidReason)>, rotationCursor: nat, sawRotation: bool, ghost w: Walk)
    ensures match RunFrom(c, m, Start(genesis))
      case Err(error) => r == Err(error)
      case Ok(end) => r == Ok(end.gap) && w == end.walk
    ensures r.Ok? ==>
      && manifests == ManifestsOf(w.trail) && events == EventsOf(w.trail)
      && walkedIndexes == w.walkedIndexes && voidChain == w.voidChain && voids == w.voids
      && rotationCursor == w.proofCursor && sawRotation == w.sawRotation
  {
    manifests, events := [genesis], [];
    walkedIndexes, voidChain, voids := {0}, [], [];
    rotationCursor, sawRotation := 0, false;
    var previous, governingIds := genesis, {genesis.versionId};
    var walkedIndex: nat, chainCursor: nat, keyCursor: nat := 0, 0, 0;
    w := Start(genesis);
    ghost var whole := RunFrom(c, m, w);
    while chainCursor < |m.hops| || keyCursor < |m.keyStatements|
      invariant chainCursor <= |m.hops| && keyCursor <= |m.keyStatements|
      invariant manifests == ManifestsOf(w.trail) && events == EventsOf(w.trail)
      invariant w == Walk(w.trail, previous, chainCursor, keyCursor, rotationCursor, walkedIndex,
        governingIds, walkedIndexes, sawRotation, voidChain, voids)
      invariant RunFrom(c, m, w) == whole
      decreases |m.hops| - chainCursor + |m.keyStatements| - keyCursor
    {
      if keyCursor < |m.keyStatements|
        && (chainCursor < |m.hops| ==> m.keyStatements[keyCursor].entryIndex < m.hops[chainCursor].entryIndex)
      {
        var hop := m.keyStatements[keyCursor];
        var met := MeetKey(c, m, hop, walkedIndex, governingIds, manifests, events, w);
        ghost var next := AfterKey(w, hop, met);
        assert Step(c, m, w) == next;
        if met.Err? {
          r := Err(met.error);
          return;
        }
        ghost var before := w.trail;
        keyCursor, walkedIndex := keyCursor + 1, hop.entryIndex;
        w := next.walk;
        if met.value.KeyVoid? {
          voids := voids + [(hop.entryIndex, met.value.reason)];
          continue;
        }
        walkedIndexes := walkedIndexes + {hop.entryIndex};
        if met.value.KeyDuplicate? {
          continue;
        }
        governingIds := governingIds + {hop.envelope.statementId};
        if met.value.KeyForeign? {
          r := Ok(Some(ForeignRevision(hop.entryIndex)));
          return;
        }
        Extended(before, InductedKey(met.value.event, hop.envelope));
        events := events + [met.value.event];
        continue;
      }
      var hop := m.hops[chainCursor];
      var met := MeetHop(
        c, m, hop, walkedIndex, governingIds, previous, manifests, events, rotationCursor, sawRotation, w);
      ghost var next := AfterHop(w, hop, met);
      assert Step(c, m, w) == next;
      if met.Err? {
        r := Err(met.error);
        return;
      }
      ghost var before := w.trail;
      chainCursor, walkedIndex := chainCursor + 1, hop.entryIndex;
      w := next.walk;
      if met.value.HopDuplicate? {
        voidChain := voidChain + [hop];
        continue;
      }
      governingIds := governingIds + {hop.envelope.statementId};
      walkedIndexes := walkedIndexes + {hop.entryIndex};
      rotationCursor, sawRotation := met.value.cursor, met.value.saw;
      if met.value.HopStops? {
        r := Ok(Some(met.value.gap));
        return;
      }
      Extended(before, InductedManifest(met.value.at));
      manifests, previous := manifests + [met.value.at], met.value.at;
    }
    r := Ok(None);
  }

  /** The raw index of the chain; `None` where a payload is missing. */
  method ChainVersionIndex(chain: seq<Hop>) returns (governing: Option<map<string, nat>>, carried: set<nat>)
    ensures governing.Some? <==> forall k :: 0 <= k < |chain| ==> chain[k].envelope.payload.Some?
    ensures governing.Some? ==>
      governing.value == ChainIndex(chain) && carried == set hop | hop in chain :: hop.entryIndex
  {
    var byVersion: map<string, nat> := map[];
    carried := {};
    for i := 0 to |chain|
      invariant forall k :: 0 <= k < i ==> chain[k].envelope.payload.Some?
      invariant byVersion == ChainIndex(chain[..i])
      invariant carried == set hop | hop in chain[..i] :: hop.entryIndex
    {
      assert chain[..i + 1] == chain[..i] + [chain[i]];
      var hop := chain[i];
      if hop.envelope.payload.None? {
        return None, carried;
      }
      if hop.envelope.statementId !in byVersion {
        byVersion := byVersion[hop.envelope.statementId := hop.entryIndex];
      }
      carried := carried + {hop.entryIndex};
    }
    assert chain[..|chain|] == chain;
    governing := Some(byVersion);
  }

  /** The whole induction, base case and closing checks included. */
  method ReadChain(
      c: Checks, receipt: Carried, policy: Policy, keyStatements: seq<Hop>, declared: bool, profileHeld: bool)
      returns (r: Result<Governance, Error>)
    ensures r == Established(c, receipt, policy, keyStatements, declared, profileHeld)
  {
    if receipt.chain == [] {
      return Err(ChainInvalid);
    }
    var governing, carried := ChainVersionIndex(receipt.chain);
    if governing.None? {
      return Err(Malformed);
    }
    var defect := GenesisDefect(receipt);
    if defect.Some? {
      return Err(defect.value);
    }
    var m := MaterialOf(receipt, keyStatements, declared, profileHeld);
    var gap, manifests, events, walkedIndexes, voidChain, voids, rotationCursor, sawRotation;
    ghost var w;
    gap, manifests, events, walkedIndexes, voidChain, voids, rotationCursor, sawRotation, w :=
      WalkMerged(c, m, GenesisOf(receipt));
    if gap.Err? {
      return Err(gap.error);
    }
    if gap.value.None? && rotationCursor < |m.proofs| {
      return Err(ChainInvalid);
    }
    if !receipt.rotationProofs.Missing? && !sawRotation {
      return Err(ChainInvalid);
    }
    var stoppedAt := if gap.value.None? || gap.value.value.AnchorMismatch? then None else Some(gap.value.value.at);
    return Ok(Governance(manifests, events, governing.value, carried, walkedIndexes, voidChain, stoppedAt, voids,
      AnchorGaps(receipt, policy) + (if gap.value.None? then [] else [gap.value.value])));
  }
}
