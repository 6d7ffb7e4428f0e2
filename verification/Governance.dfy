/** The governance induction: a base case, a walk over two merged streams, and the checks that close it. */
module Governance {
  import opened Basics
  import opened Envelopes
  import opened Statements
  import opened KeyState

  /** An element of the chain, or an enumerated `key` statement: an envelope at its entry index. */
  datatype Hop = Hop(entryIndex: nat, envelope: Envelope)

  datatype RotationElement = RotationElement(manifestEntryIndex: nat, proof: string)

  /** The `rotation_proofs` member of the receipt. */
  datatype RotationMember = Missing | NotAnArray | Elements(elements: seq<RotationElement>)

  datatype Carried = Carried(chain: seq<Hop>, rotationProofs: RotationMember, genesisEntryId: string)

  datatype Policy = Policy(genesisEntryId: string, genesisKeyIds: Option<set<string>>)

  /** The cryptography: signatures, the id of a public key, and the proof of a rotation under the outgoing manifest. */
  datatype Checks = Checks(
    verify: Verifier,
    keyIdOf: string -> Option<string>,
    rotationVerifies: (RotationElement, Hop, ManifestAt, seq<ManifestAt>) -> bool)

  datatype Error =
    | Malformed
    | UnsupportedVersion
    | ChainInvalid
    | RotationProofInvalid(at: nat)
    | EnvelopeUnreadable(error: EnvelopeError)
    | EnvelopeSignatureInvalid(at: nat)
    | ProducerKeyNotCarried(at: nat, keyId: string)

  /** What the walk could not decide and carries on past, or stops at. */
  datatype Gap = AnchorMismatch | ForeignRevision(at: nat) | RotationUnverifiable(at: nat)

  datatype VoidReason = VoidSignature | VoidKey

  /** What the walk reads after the genesis. */
  datatype Material = Material(
    hops: seq<Hop>, keyStatements: seq<Hop>, proofs: seq<RotationElement>, declared: bool, profileHeld: bool)

  /** The walk between two iterations. `trail` is what it has inducted, the genesis first. */
  datatype Walk = Walk(
    trail: seq<Inducted>,
    latest: ManifestAt,
    chainCursor: nat,
    keyCursor: nat,
    proofCursor: nat,
    walkedIndex: nat,
    governingIds: set<string>,
    walkedIndexes: set<nat>,
    sawRotation: bool,
    voidChain: seq<Hop>,
    voids: seq<(nat, VoidReason)>)

  datatype Next = Continue(walk: Walk) | Stop(walk: Walk, gap: Gap) | Fail(error: Error)

  // ---------------------------------------------------------------------------
  // One iteration
  // ---------------------------------------------------------------------------

  function PhaseOne(c: Checks, trail: seq<Inducted>, hop: Hop): Result<EnvelopeCheck, EnvelopeError> {
    CheckResult(c.verify, hop.envelope, PublicKeysOf(KeysAt(ManifestsOf(trail), EventsOf(trail), hop.entryIndex)))
  }

  /** The error an envelope the receipt rests on raises; an unresolved key is a gap in material under `declared`. */
  function PhaseOneFailure(check: Result<EnvelopeCheck, EnvelopeError>, declared: bool, index: nat): Option<Error> {
    match check
    case Err(error) => Some(EnvelopeUnreadable(error))
    case Ok(Verified) => None
    case Ok(SignatureInvalid) => Some(EnvelopeSignatureInvalid(index))
    case Ok(KeyNotResolved(keyId)) =>
      Some(if declared then ProducerKeyNotCarried(index, keyId) else EnvelopeSignatureInvalid(index))
  }

  function ActiveVersion(manifests: seq<ManifestAt>, index: nat): Option<string> {
    var active := SnapshotManifest(manifests, index);
    if active.None? then None else Some(active.value.versionId)
  }

  /** Whether a `key` payload may take effect at `index`. */
  predicate KeyFormOk(c: Checks, manifests: seq<ManifestAt>, kind: Kind, index: nat) {
    && kind.KeyStatement?
    && kind.change.wellFormed
    && c.keyIdOf(kind.change.pubkey) == Some(kind.change.keyId)
    && ActiveVersion(manifests, index) == Some(kind.change.manifest)
  }

  function EventOf(change: KeyChange, index: nat): KeyEvent {
    KeyEvent(index, change.keyId, change.pubkey, change.added)
  }

  predicate Rotates(outgoing: Manifest, incoming: Manifest) {
    incoming.logKeys != outgoing.logKeys || incoming.witnessKeys != outgoing.witnessKeys
  }

  function Induct(w: Walk, s: Inducted): Walk {
    if s.InductedManifest? then w.(trail := w.trail + [s], latest := s.at) else w.(trail := w.trail + [s])
  }

  /** An enumerated `key` statement that verified and is the first with its id. */
  function TakeKey(c: Checks, w: Walk, hop: Hop, payload: Payload): Next {
    if payload.version.Foreign? then Stop(w, ForeignRevision(hop.entryIndex))
    else if !payload.commonFieldsOk then Fail(Malformed)
    else if !KeyFormOk(c, ManifestsOf(w.trail), payload.kind, hop.entryIndex) then Fail(ChainInvalid)
    else Continue(Induct(w, InductedKey(EventOf(payload.kind.change, hop.entryIndex), hop.envelope)))
  }

  function StepKey(c: Checks, m: Material, w: Walk): (r: Next)
    requires w.keyCursor < |m.keyStatements|
    ensures !r.Fail? ==> r.walk.chainCursor == w.chainCursor && r.walk.keyCursor == w.keyCursor + 1
  {
    var hop := m.keyStatements[w.keyCursor];
    var index := hop.entryIndex;
    var met := w.(keyCursor := w.keyCursor + 1, walkedIndex := index);
    if w.walkedIndex >= index then Fail(ChainInvalid)
    else if hop.envelope.payload.None? then Fail(Malformed)
    else match PhaseOne(c, w.trail, hop)
      case Err(error) => Fail(EnvelopeUnreadable(error))
      case Ok(SignatureInvalid) => Continue(met.(voids := w.voids + [(index, VoidSignature)]))
      case Ok(KeyNotResolved(_)) => Continue(met.(voids := w.voids + [(index, VoidKey)]))
      case Ok(Verified) =>
        var walked := met.(walkedIndexes := w.walkedIndexes + {index});
        if hop.envelope.statementId in w.governingIds then Continue(walked)
        else
          TakeKey(c, walked.(governingIds := w.governingIds + {hop.envelope.statementId}), hop,
            hop.envelope.payload.value)
  }

  /** A manifest whose key sets differ from the outgoing manifest's: it consumes the next rotation proof. */
  function TakeRotation(c: Checks, m: Material, w: Walk, hop: Hop, at: ManifestAt): Next {
    if w.proofCursor >= |m.proofs| then Fail(RotationProofInvalid(hop.entryIndex))
    else if m.proofs[w.proofCursor].manifestEntryIndex != hop.entryIndex then Fail(RotationProofInvalid(hop.entryIndex))
    else if !m.profileHeld then Stop(w, RotationUnverifiable(hop.entryIndex))
    else if !c.rotationVerifies(m.proofs[w.proofCursor], hop, w.latest, ManifestsOf(w.trail)) then
      Fail(RotationProofInvalid(hop.entryIndex))
    else Continue(Induct(w.(proofCursor := w.proofCursor + 1), InductedManifest(at)))
  }

  /** A chain hop that verified and is the first with its id. */
  function TakeManifest(c: Checks, m: Material, w: Walk, hop: Hop, payload: Payload): Next {
    if payload.version.Foreign? then Stop(w, ForeignRevision(hop.entryIndex))
    else if !payload.commonFieldsOk then Fail(Malformed)
    else if !payload.kind.ManifestStatement? then Fail(ChainInvalid)
    else
      var manifest := payload.kind.manifest;
      var at := ManifestAt(hop.entryIndex, manifest, hop.envelope.statementId, hop.envelope);
      if manifest.predecessor != Some(w.latest.envelope.entryId) then Fail(ChainInvalid)
      else if !manifest.wellFormed then Fail(Malformed)
      else if Rotates(w.latest.manifest, manifest) then TakeRotation(c, m, w.(sawRotation := true), hop, at)
      else Continue(Induct(w, InductedManifest(at)))
  }

  function StepChain(c: Checks, m: Material, w: Walk): (r: Next)
    requires w.chainCursor < |m.hops|
    ensures !r.Fail? ==> r.walk.chainCursor == w.chainCursor + 1 && r.walk.keyCursor == w.keyCursor
  {
    var hop := m.hops[w.chainCursor];
    var index := hop.entryIndex;
    var met := w.(chainCursor := w.chainCursor + 1, walkedIndex := index);
    if w.walkedIndex >= index then Fail(ChainInvalid)
    else if hop.envelope.payload.None? then Fail(Malformed)
    else if hop.envelope.statementId in w.governingIds then Continue(met.(voidChain := w.voidChain + [hop]))
    else
      var walked := met.(
        governingIds := w.governingIds + {hop.envelope.statementId}, walkedIndexes := w.walkedIndexes + {index});
      var failure := PhaseOneFailure(PhaseOne(c, w.trail, hop), m.declared, index);
      if failure.Some? then Fail(failure.value)
      else TakeManifest(c, m, walked, hop, hop.envelope.payload.value)
  }

  predicate More(m: Material, w: Walk) {
    w.chainCursor < |m.hops| || w.keyCursor < |m.keyStatements|
  }

  predicate TakesKey(m: Material, w: Walk) {
    && w.keyCursor < |m.keyStatements|
    && (w.chainCursor < |m.hops| ==> m.keyStatements[w.keyCursor].entryIndex < m.hops[w.chainCursor].entryIndex)
  }

  function Step(c: Checks, m: Material, w: Walk): Next
    requires More(m, w)
  {
    if TakesKey(m, w) then StepKey(c, m, w) else StepChain(c, m, w)
  }

  function Left(m: Material, w: Walk): int {
    |m.hops| + |m.keyStatements| - w.chainCursor - w.keyCursor
  }

  // ---------------------------------------------------------------------------
  // The whole walk
  // ---------------------------------------------------------------------------

  /** Where the walk ended, and the gap it stopped at, if it did. */
  datatype End = End(walk: Walk, gap: Option<Gap>)

  predicate InRange(m: Material, w: Walk) {
    w.chainCursor <= |m.hops| && w.keyCursor <= |m.keyStatements|
  }

  /** Every iteration from `w` on. */
  function RunFrom(c: Checks, m: Material, w: Walk): Result<End, Error>
    requires InRange(m, w)
    decreases Left(m, w)
  {
    if !More(m, w) then Ok(End(w, None))
    else match Step(c, m, w)
      case Continue(next) => RunFrom(c, m, next)
      case Stop(last, gap) => Ok(End(last, Some(gap)))
      case Fail(error) => Err(error)
  }

  predicate Ascending(chain: seq<Hop>) {
    forall k :: 0 < k < |chain| ==> chain[k - 1].entryIndex < chain[k].entryIndex
  }

  /** The base case: the defect the genesis shows, if any. No key is used. */
  function GenesisDefect(receipt: Carried): Option<Error> {
    if receipt.chain == [] then Some(ChainInvalid)
    else if exists k :: 0 <= k < |receipt.chain| && receipt.chain[k].envelope.payload.None? then Some(Malformed)
    else if receipt.rotationProofs.NotAnArray? then Some(ChainInvalid)
    else if receipt.chain[0].entryIndex != 0 then Some(ChainInvalid)
    else
      var genesis := receipt.chain[0].envelope;
      var payload := genesis.payload.value;
      if payload.version.Absent? then Some(Malformed)
      else if payload.version.Foreign? then Some(UnsupportedVersion)
      else if receipt.genesisEntryId != genesis.entryId then Some(ChainInvalid)
      else if !payload.kind.ManifestStatement? then Some(ChainInvalid)
      else if payload.kind.manifest.predecessor.Some? then Some(ChainInvalid)
      else if !payload.commonFieldsOk || !payload.kind.manifest.wellFormed then Some(Malformed)
      else if !Ascending(receipt.chain) then Some(ChainInvalid)
      else None
  }

  function GenesisOf(receipt: Carried): ManifestAt
    requires GenesisDefect(receipt).None?
  {
    var envelope := receipt.chain[0].envelope;
    ManifestAt(0, envelope.payload.value.kind.manifest, envelope.statementId, envelope)
  }

  /** What the anchors of policy leave undecided about an acceptable genesis. */
  function AnchorGaps(receipt: Carried, policy: Policy): seq<Gap>
    requires GenesisDefect(receipt).None?
  {
    var keyIds := set key | key in GenesisOf(receipt).manifest.producerKeys :: key.0;
    (if receipt.genesisEntryId != policy.genesisEntryId then [AnchorMismatch] else []) +
    (if policy.genesisKeyIds.Some? && policy.genesisKeyIds.value != keyIds then [AnchorMismatch] else [])
  }

  function Start(genesis: ManifestAt): Walk {
    Walk([InductedManifest(genesis)], genesis, 0, 0, 0, 0, {genesis.versionId}, {0}, false, [], [])
  }

  function ProofsOf(member: RotationMember): seq<RotationElement> {
    if member.Elements? then member.elements else []
  }

  function MaterialOf(receipt: Carried, keyStatements: seq<Hop>, declared: bool, profileHeld: bool): Material
    requires receipt.chain != []
  {
    Material(receipt.chain[1..], keyStatements, ProofsOf(receipt.rotationProofs), declared, profileHeld)
  }

  /** The checks over `rotation_proofs` that close a walk. */
  predicate ProofsSpent(member: RotationMember, end: End) {
    && (end.gap.None? ==> end.walk.proofCursor >= |ProofsOf(member)|)
    && (!member.Missing? ==> end.walk.sawRotation)
  }

  /** Where each version id is governed from: the first element of the chain that bears it. */
  function ChainIndex(chain: seq<Hop>): map<string, nat>
  {
    if chain == [] then map[]
    else
      var (earlier, last) := (ChainIndex(chain[..|chain| - 1]), chain[|chain| - 1]);
      if last.envelope.statementId in earlier then earlier else earlier[last.envelope.statementId := last.entryIndex]
  }

  function StoppedAt(end: End): Option<nat> {
    if end.gap.None? || end.gap.value.AnchorMismatch? then None else Some(end.gap.value.at)
  }

  datatype Governance = Governance(
    manifests: seq<ManifestAt>,
    events: seq<KeyEvent>,
    chainIndex: map<string, nat>,
    chainIndexes: set<nat>,
    walkedIndexes: set<nat>,
    voidChain: seq<Hop>,
    stoppedAt: Option<nat>,
    voids: seq<(nat, VoidReason)>,
    gaps: seq<Gap>)

  function WalkEnd(c: Checks, receipt: Carried, keyStatements: seq<Hop>, declared: bool, profileHeld: bool)
    : Result<End, Error>
    requires GenesisDefect(receipt).None?
  {
    RunFrom(c, MaterialOf(receipt, keyStatements, declared, profileHeld), Start(GenesisOf(receipt)))
  }

  /** The governance state a receipt establishes. */
  function Established(
      c: Checks, receipt: Carried, policy: Policy, keyStatements: seq<Hop>, declared: bool, profileHeld: bool)
      : Result<Governance, Error>
  {
    if GenesisDefect(receipt).Some? then Err(GenesisDefect(receipt).value)
    else match WalkEnd(c, receipt, keyStatements, declared, profileHeld)
      case Err(error) => Err(error)
      case Ok(end) =>
        if !ProofsSpent(receipt.rotationProofs, end) then Err(ChainInvalid)
        else Ok(Governance(
          ManifestsOf(end.walk.trail), EventsOf(end.walk.trail),
          ChainIndex(receipt.chain), set hop | hop in receipt.chain :: hop.entryIndex,
          end.walk.walkedIndexes, end.walk.voidChain, StoppedAt(end), end.walk.voids,
          AnchorGaps(receipt, policy) + (if end.gap.None? then [] else [end.gap.value])))
  }

  /** Whether the key state is established at an index. */
  predicate EstablishedAt(g: Governance, index: nat) {
    g.stoppedAt.None? || index < g.stoppedAt.value
  }

  predicate EstablishedForTreeSize(g: Governance, treeSize: u64) {
    EstablishedAt(g, SaturatingSub(treeSize, 1))
  }

  /** The manifest active for a checkpoint of this size. */
  function ActiveFor(manifests: seq<ManifestAt>, treeSize: nat): Option<ManifestAt>
  {
    if manifests == [] then None
    else
      var last := manifests[|manifests| - 1];
      if last.entryIndex < treeSize then Some(last) else ActiveFor(manifests[..|manifests| - 1], treeSize)
  }
}
