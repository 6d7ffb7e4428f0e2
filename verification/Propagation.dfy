/** The `propagation-complete` claim: the anchored dispositions are the whole closure of the trigger. */
module Propagation {
  import opened Basics
  import opened Merkle
  import RP = RangeProof
  import RangeVerify
  import opened CommittedTree
  import opened Envelopes
  import opened Closure
  import opened AffectedSet
  import opened ClosureMeaning
  import G = Governance
  import S = Statements
  import EntrySweep

  // ---------------------------------------------------------------------------
  // Log leaves
  // ---------------------------------------------------------------------------

  /** How an adaptor profile builds a log leaf out of an entry. */
  datatype Profile = TestProfile | AtlShaped | UnknownProfile

  /** Canonical JSON, SHA-256, the digest of the ATL metadata, and the two tree hashes. */
  datatype Crypto = Crypto(
    jcs: Envelope -> seq<byte>,
    sha256: seq<byte> -> seq<byte>,
    atlMetadata: seq<byte>,
    leafHash: seq<byte> -> string,
    logNodes: Hashing<string>,
    trees: TreeHash)

  ghost predicate Ideal(c: Crypto) {
    && Collisionless(c.trees) && CollisionFree(c.logNodes)
    && (forall a, b :: c.jcs(a) == c.jcs(b) ==> a == b)
    && (forall a, b :: c.sha256(a) == c.sha256(b) ==> a == b)
    && (forall a, b :: c.leafHash(a) == c.leafHash(b) ==> a == b)
  }

  /** The bytes a log leaf is hashed over: canonical JSON, or its digest followed by the metadata digest. */
  function LogLeafBytes(c: Crypto, profile: Profile, env: Envelope): Result<seq<byte>, Error> {
    match profile
    case TestProfile => Ok(c.jcs(env))
    case AtlShaped => Ok(c.sha256(c.jcs(env)) + c.atlMetadata)
    case UnknownProfile => Err(NoLogLeafConstruction)
  }

  /** Under either profile a log leaf determines its entry. */
  lemma LogLeafDeterminesEntry(c: Crypto, profile: Profile, a: Envelope, b: Envelope)
    requires Ideal(c) && LogLeafBytes(c, profile, a).Ok? && LogLeafBytes(c, profile, a) == LogLeafBytes(c, profile, b)
    ensures a == b
  {
    if profile.AtlShaped? {
      var (x, y) := (c.sha256(c.jcs(a)), c.sha256(c.jcs(b)));
      assert |x| == |y|;
      assert (x + c.atlMetadata)[..|x|] == x && (y + c.atlMetadata)[..|y|] == y;
    }
  }

  function LogLeafHashes(c: Crypto, profile: Profile, log: seq<Envelope>): (hashes: seq<string>)
    requires profile != UnknownProfile
    ensures |hashes| == |log|
    ensures forall i :: 0 <= i < |log| ==> hashes[i] == c.leafHash(LogLeafBytes(c, profile, log[i]).value)
  {
    seq(|log|, i requires 0 <= i < |log| => c.leafHash(LogLeafBytes(c, profile, log[i]).value))
  }

  function LogRoot(c: Crypto, profile: Profile, log: seq<Envelope>): string
    requires profile != UnknownProfile
  {
    ComputeRoot(c.logNodes, LogLeafHashes(c, profile, log))
  }

  lemma LeafHashesFixEntries(c: Crypto, profile: Profile, a: seq<Envelope>, b: seq<Envelope>)
    requires Ideal(c) && profile != UnknownProfile && LogLeafHashes(c, profile, a) == LogLeafHashes(c, profile, b)
    ensures a == b
  {
    assert |a| == |LogLeafHashes(c, profile, a)| == |b|;
    forall i | 0 <= i < |a| ensures a[i] == b[i] {
      assert LogLeafHashes(c, profile, a)[i] == LogLeafHashes(c, profile, b)[i];
      LogLeafDeterminesEntry(c, profile, a[i], b[i]);
    }
  }

  // ---------------------------------------------------------------------------
  // Enumeration material
  // ---------------------------------------------------------------------------

  datatype Error =
    | Malformed
    | AssuranceMismatch
    | ClaimMaterialMissing(field: string)
    | CheckpointNotBound(member: string)
    | RangeProofInvalid
    | TreeMaterialInvalid(root: string)
    | EmbeddedSubjectMismatch
    | EmbeddedOrderingViolation
    | ClosureMismatch
    | NoLogLeafConstruction
    | ClosureError(source: AhlError)
    | Raised

  /** An enumerated range as carried: its bounds, its entries with their claimed indexes, and its proof. */
  datatype RangeMaterial = RangeMaterial(
    fromIndex: u64, toIndex: u64, entries: seq<(u64, Envelope)>, proof: RP.RangeProof<string>)

  datatype Enumeration = Enumeration(fromIndex: u64, toIndex: u64, entries: seq<Envelope>)

  /** The first `n` carried entries are indexed in order from `from` and have object payloads. */
  predicate InOrder(m: RangeMaterial, n: nat)
    requires n <= |m.entries|
  {
    forall i :: 0 <= i < n ==> m.entries[i].0 == m.fromIndex + i && m.entries[i].1.payload.Some?
  }

  function Entries(m: RangeMaterial): (entries: seq<Envelope>)
    ensures |entries| == |m.entries|
    ensures forall i :: 0 <= i < |entries| ==> entries[i] == m.entries[i].1
  {
    seq(|m.entries|, i requires 0 <= i < |m.entries| => m.entries[i].1)
  }

  /** The material enumerates exactly the entries the root commits over its range, completely and in order. */
  ghost predicate Enumerates(c: Crypto, profile: Profile, m: RangeMaterial, root: string, treeSize: u64) {
    && profile != UnknownProfile
    && m.fromIndex < m.toIndex && |m.entries| == m.toIndex - m.fromIndex
    && InOrder(m, |m.entries|)
    && m.proof.treeSize == treeSize && m.proof.fromIndex == m.fromIndex && m.proof.toIndex == m.toIndex
    && RP.Verdict(c.logNodes, m.proof, LogLeafHashes(c, profile, Entries(m)), root) == Ok(true)
  }

  method DecodeEnumeration(c: Crypto, profile: Profile, m: RangeMaterial, root: string, treeSize: u64)
    returns (r: Result<Enumeration, Error>)
    ensures r.Ok? <==> Enumerates(c, profile, m, root, treeSize)
    ensures r.Ok? ==> r.value == Enumeration(m.fromIndex, m.toIndex, Entries(m))
  {
    if m.toIndex <= m.fromIndex || |m.entries| != m.toIndex - m.fromIndex {
      return Err(RangeProofInvalid);
    }
    var envelopes: seq<Envelope> := [];
    for offset := 0 to |m.entries|
      invariant InOrder(m, offset)
      invariant envelopes == Entries(m)[..offset]
    {
      var (claimed, envelope) := m.entries[offset];
      if claimed != SaturatingAdd(m.fromIndex, offset) {
        return Err(RangeProofInvalid);
      }
      if envelope.payload.None? {
        return Err(Malformed);
      }
      envelopes := envelopes + [envelope];
    }
    assert envelopes == Entries(m);
    if m.proof.treeSize != treeSize || m.proof.fromIndex != m.fromIndex || m.proof.toIndex != m.toIndex {
      return Err(RangeProofInvalid);
    }
    if profile == UnknownProfile {
      return Err(NoLogLeafConstruction);
    }
    var verdict := RangeVerify.Verify(c.logNodes, m.proof, LogLeafHashes(c, profile, envelopes), root);
    if verdict != Ok(true) {
      return Err(RangeProofInvalid);
    }
    return Ok(Enumeration(m.fromIndex, m.toIndex, envelopes));
  }

  /** Accepted enumeration material over a committed log carries exactly the log's own entries. */
  lemma EnumerationIsTheLog(c: Crypto, profile: Profile, m: RangeMaterial, log: seq<Envelope>)
    requires Ideal(c) && |log| < TWO_64 && profile != UnknownProfile
    requires Enumerates(c, profile, m, LogRoot(c, profile, log), |log|)
    ensures m.toIndex <= |log| && Entries(m) == log[m.fromIndex..m.toIndex]
  {
    var all := LogLeafHashes(c, profile, log);
    RP.AcceptedIffHonest(c.logNodes, m.proof, LogLeafHashes(c, profile, Entries(m)), all);
    var part := log[m.fromIndex..m.toIndex];
    assert LogLeafHashes(c, profile, part) == all[m.fromIndex..m.toIndex];
    LeafHashesFixEntries(c, profile, Entries(m), part);
  }

  // ---------------------------------------------------------------------------
  // The claim
  // ---------------------------------------------------------------------------

  /** A checkpoint object: the three identifying members, and every other one. */
  datatype Checkpoint = Checkpoint(logId: string, treeSize: u64, rootHash: string, extra: map<string, string>)

  /** The identifying members agree, and so does every other member both sides carry. */
  predicate CheckpointsAgree(carried: Checkpoint, reference: Checkpoint) {
    && carried.logId == reference.logId && carried.treeSize == reference.treeSize
    && carried.rootHash == reference.rootHash
    && forall k :: k in carried.extra && k in reference.extra ==> carried.extra[k] == reference.extra[k]
  }

  /** What an embedded `trigger-effective` receipt established. */
  datatype Embedded = Embedded(statementId: string, entryIndex: u64)

  /**
   * One claim: the subject statement's members, the carried material, the governance state of the receipt, and the
   * outcomes of the steps that are settled elsewhere. `recorded` holds the indexes that the run has recorded as void or
   * set aside in other material.
   */
  datatype Claim = Claim(
    subjectIsPropagation: bool,
    governanceEnumerated: bool,
    subjectIndex: u64,
    trigger: string,
    declared: Checkpoint,
    affectedRoot: string,
    affectedCount: u64,
    anchoring: Checkpoint,
    profile: Profile,
    profileHeld: bool,
    carriedPrefix: Option<RangeMaterial>,
    carriedCheckpoint: Option<Checkpoint>,
    trees: TreeMaterial,
    checkpointAuthentic: bool,
    verify: S.Verifier,
    governance: G.Governance,
    embedded: Option<Embedded>,
    budgetLeft: bool,
    recorded: set<nat>)

  /** The entries with each unread one replaced by material the walk reads nothing from. */
  function Traversable(entries: seq<Envelope>, unread: set<nat>): (view: seq<Envelope>)
    ensures |view| == |entries|
    ensures forall i :: 0 <= i < |entries| ==> view[i] == if i in unread then NULL_ENTRY else entries[i]
  {
    seq(|entries|, i requires 0 <= i < |entries| => if i in unread then NULL_ENTRY else entries[i])
  }

  /** The sweep over the prefix. */
  function SweepOfPrefix(x: Claim, m: RangeMaterial): Result<EntrySweep.Swept, G.Error> {
    EntrySweep.SweepOf(x.verify, x.governance, {}, m.fromIndex, Entries(m), |m.entries|)
  }

  /** The entries of a prefix that fail their check under the governance state, or are of a foreign revision. */
  function Excluded(x: Claim, prefix: seq<Envelope>): set<nat> {
    set i | 0 <= i < |prefix| && EntrySweep.Excluded(x.verify, x.governance, {}, prefix[i], i)
  }

  /** What the closure reads nothing from: those entries, and any the run recorded elsewhere. */
  function Unread(x: Claim, prefix: seq<Envelope>): set<nat> {
    Excluded(x, prefix) + x.recorded
  }

  /** What the sweep leaves recorded shows the closure the same entries. */
  lemma SweptView(x: Claim, m: RangeMaterial)
    requires m.fromIndex == 0 && SweepOfPrefix(x, m).Ok?
    ensures var swept := SweepOfPrefix(x, m).value;
      Traversable(Entries(m), swept.voids + swept.setAside + x.recorded) ==
        Traversable(Entries(m), Unread(x, Entries(m)))
  {
    var swept := SweepOfPrefix(x, m).value;
    forall i | 0 <= i < |m.entries| ensures
      i in swept.voids + swept.setAside + x.recorded <==> i in Unread(x, Entries(m))
    {
      EntrySweep.SweepMeaning(x.verify, x.governance, {}, 0, Entries(m), |m.entries|, i);
    }
  }

  /** The `(dataset, record)` pairs of the first `n` leaves, where each has both. */
  function RecordsOf(leaves: seq<Leaf>, n: nat): Option<set<RecordRef>>
    requires n <= |leaves|
  {
    if n == 0 then Some({})
    else
      var earlier := RecordsOf(leaves, n - 1);
      if earlier.None? || RecordOf(leaves[n - 1]).Err? then None
      else Some(earlier.value + {RecordOf(leaves[n - 1]).value})
  }

  /** The pair of each of the first `n` leaves that has both members. */
  function PairsOf(leaves: seq<Leaf>, n: nat): set<RecordRef>
    requires n <= |leaves|
  {
    set k | 0 <= k < n && leaves[k].dataset.Some? && leaves[k].record.Some?
      :: (leaves[k].dataset.value, leaves[k].record.value)
  }

  /** The records that leaves bear: all of them, and none where some leaf lacks a member. */
  lemma {:induction false} RecordsOfAre(leaves: seq<Leaf>, n: nat)
    requires n <= |leaves|
    ensures RecordsOf(leaves, n).Some? <==> forall k :: 0 <= k < n ==> leaves[k].dataset.Some? && leaves[k].record.Some?
    ensures RecordsOf(leaves, n).Some? ==> RecordsOf(leaves, n).value == PairsOf(leaves, n)
  {
    if n > 0 {
      RecordsOfAre(leaves, n - 1);
    }
  }

  ghost predicate PrefixBound(c: Crypto, x: Claim) {
    && x.carriedPrefix.Some? && x.carriedCheckpoint.Some?
    && CheckpointsAgree(x.carriedCheckpoint.value, x.declared)
    && x.declared.treeSize <= x.anchoring.treeSize
    && (x.profileHeld ==> x.checkpointAuthentic)
    && Enumerates(c, x.profile, x.carriedPrefix.value, x.anchoring.rootHash, x.anchoring.treeSize)
    && SweepOfPrefix(x, x.carriedPrefix.value).Ok?
    && x.carriedPrefix.value.fromIndex == 0 && x.carriedPrefix.value.toIndex == x.declared.treeSize
    && LogRoot(c, x.profile, Entries(x.carriedPrefix.value)) == x.declared.rootHash
  }

  ghost predicate TriggerBound(x: Claim)
    requires x.carriedPrefix.Some?
  {
    && x.embedded.Some? && x.embedded.value.statementId == x.trigger
    && x.embedded.value.entryIndex <= x.subjectIndex
    && x.embedded.value.entryIndex < x.declared.treeSize
    && x.embedded.value.entryIndex < |Entries(x.carriedPrefix.value)|
    && Entries(x.carriedPrefix.value)[x.embedded.value.entryIndex].statementId == x.trigger
  }

  ghost predicate DispositionsOpen(c: Crypto, x: Claim) {
    x.affectedRoot in x.trees && OpenResult(c.trees, x.affectedRoot, x.affectedCount, x.trees[x.affectedRoot]).Ok?
  }

  /** The dispositions name exactly the affected records of the closure over the readable prefix. */
  ghost predicate DispositionsMatch(c: Crypto, x: Claim)
    requires x.carriedPrefix.Some? && x.embedded.Some? && x.affectedRoot in x.trees
  {
    var view := Traversable(Entries(x.carriedPrefix.value), Unread(x, Entries(x.carriedPrefix.value)));
    var closure := ClosureOf(c.trees, view, x.trees, x.embedded.value.entryIndex, |view|);
    var leaves := x.trees[x.affectedRoot];
    closure.Ok? && RecordsOf(leaves, |leaves|) == Some(closure.value.affected)
  }

  ghost predicate Accepted(c: Crypto, x: Claim) {
    && x.subjectIsPropagation && x.governanceEnumerated && x.budgetLeft
    && PrefixBound(c, x) && DispositionsOpen(c, x) && TriggerBound(x) && DispositionsMatch(c, x)
  }

  /** The embedded trigger is the subject's, stands before it, and is the prefix's own entry. */
  method BindTrigger(x: Claim, prefix: seq<Envelope>) returns (r: Result<(), Error>)
    requires x.carriedPrefix.Some? && prefix == Entries(x.carriedPrefix.value)
    ensures r.Ok? <==> TriggerBound(x)
  {
    if x.embedded.None? {
      return Err(Raised);
    }
    var trigger := x.embedded.value;
    if trigger.statementId != x.trigger {
      return Err(EmbeddedSubjectMismatch);
    }
    if trigger.entryIndex > x.subjectIndex {
      return Err(EmbeddedOrderingViolation);
    }
    if x.declared.treeSize <= trigger.entryIndex {
      return Err(CheckpointNotBound("tree_size"));
    }
    if trigger.entryIndex >= |prefix| || prefix[trigger.entryIndex].statementId != x.trigger {
      return Err(ClosureMismatch);
    }
    return Ok(());
  }

  /** The closure over the readable prefix against the anchored records. */
  method CompareClosure(c: Crypto, x: Claim, prefix: seq<Envelope>, unread: set<nat>, leaves: seq<Leaf>)
    returns (r: Result<(), Error>)
    requires x.carriedPrefix.Some? && prefix == Entries(x.carriedPrefix.value) && x.embedded.Some?
    requires x.affectedRoot in x.trees && leaves == x.trees[x.affectedRoot]
    requires Traversable(prefix, unread) == Traversable(prefix, Unread(x, prefix))
    ensures r.Ok? <==> DispositionsMatch(c, x)
  {
    var traversable := Traversable(prefix, unread);
    var closure := ComputeAffectedSet(c.trees, traversable, x.trees, x.embedded.value.entryIndex, |traversable|);
    if closure.Err? {
      return Err(ClosureError(closure.error));
    }
    var anchored := RecordsOf(leaves, |leaves|);
    if anchored.None? {
      return Err(Malformed);
    }
    if anchored.value == closure.value.affected {
      return Ok(());
    }
    return Err(ClosureMismatch);
  }

  /** The check as the program runs it: it passes exactly on accepted claims. */
  method VerifyPropagationComplete(c: Crypto, x: Claim) returns (r: Result<(), Error>)
    ensures r.Ok? <==> Accepted(c, x)
  {
    if !x.subjectIsPropagation {
      return Err(Malformed);
    }
    if !x.governanceEnumerated {
      return Err(AssuranceMismatch);
    }
    if x.carriedPrefix.None? {
      return Err(ClaimMaterialMissing("corpus_prefix"));
    }
    if x.carriedCheckpoint.None? {
      return Err(ClaimMaterialMissing("corpus_checkpoint"));
    }
    var carriedD := x.carriedCheckpoint.value;
    if !CheckpointsAgree(carriedD, x.declared) {
      return Err(CheckpointNotBound("corpus_checkpoint"));
    }
    if carriedD.treeSize > x.anchoring.treeSize {
      return Err(CheckpointNotBound("tree_size"));
    }
    if x.profileHeld && !x.checkpointAuthentic {
      return Err(Raised);
    }
    var prefix := DecodeEnumeration(c, x.profile, x.carriedPrefix.value, x.anchoring.rootHash, x.anchoring.treeSize);
    if prefix.Err? {
      return Err(prefix.error);
    }
    var swept := EntrySweep.VerifyEnumeratedEnvelopes(
      x.verify, x.governance, {}, prefix.value.fromIndex, prefix.value.entries);
    if swept.Err? {
      return Err(Raised);
    }
    if prefix.value.fromIndex != 0 || prefix.value.toIndex != carriedD.treeSize {
      return Err(RangeProofInvalid);
    }
    if LogRoot(c, x.profile, prefix.value.entries) != carriedD.rootHash {
      return Err(CheckpointNotBound("root_hash"));
    }
    if x.affectedRoot !in x.trees {
      return Err(TreeMaterialInvalid(x.affectedRoot));
    }
    var dispositions := Open(c.trees, x.affectedRoot, x.affectedCount, x.trees[x.affectedRoot]);
    if dispositions.Err? {
      return Err(TreeMaterialInvalid(x.affectedRoot));
    }
    var bound := BindTrigger(x, prefix.value.entries);
    if bound.Err? {
      return bound;
    }
    if !x.budgetLeft {
      return Err(Raised);
    }
    SweptView(x, x.carriedPrefix.value);
    var unread := swept.value.voids + swept.value.setAside + x.recorded;
    r := CompareClosure(c, x, prefix.value.entries, unread, dispositions.value.leaves);
  }

  // ---------------------------------------------------------------------------
  // What acceptance means
  // ---------------------------------------------------------------------------

  /** The edges read off a prefix are exactly those its readable entries record: an unread entry adds none. */
  lemma UnreadAddNoEdge(
      th: TreeHash, trees: TreeMaterial, log: seq<Envelope>, unread: set<nat>, n: nat)
    requires n <= |log| && LogEdges(th, trees, Traversable(log, unread), n).Ok?
    ensures forall e :: e in LogEdges(th, trees, Traversable(log, unread), n).value <==>
      e.entryIndex < n && e.entryIndex !in unread && Records(th, trees, log[e.entryIndex], e)
  {
    var view := Traversable(log, unread);
    forall e ensures e in LogEdges(th, trees, view, n).value <==>
      e.entryIndex < n && e.entryIndex !in unread && Records(th, trees, log[e.entryIndex], e)
    {
      LogEdgesAre(th, trees, view, n, e);
    }
  }

  /** An unread entry seeds nothing: seeds come from the trigger and from readable earlier corrections. */
  lemma UnreadSeedNothing(log: seq<Envelope>, unread: set<nat>, trigger: nat)
    requires Seeds(Traversable(log, unread), trigger).Ok?
    ensures trigger < |log| && trigger !in unread && log[trigger].payload.Some?
    ensures var p := log[trigger].payload.value;
      forall r :: r in Seeds(Traversable(log, unread), trigger).value <==>
        || r == (p.dataset.value, p.record.value)
        || (p.kind == Correction && exists i ::
              && 0 <= i < trigger && i !in unread && Corrects(log[i], p.dataset.value, p.record.value)
              && log[i].payload.value.replacement.Some? && log[i].payload.value.replacement != p.replacement
              && r == (p.dataset.value, log[i].payload.value.replacement.value))
  {
  }

  /** Two disposition lists under one root and count name the same records. */
  lemma DispositionsUnique(c: Crypto, x: Claim, leaves: seq<Leaf>)
    requires Ideal(c) && DispositionsOpen(c, x)
    requires OpenResult(c.trees, x.affectedRoot, x.affectedCount, leaves).Ok?
    ensures leaves == x.trees[x.affectedRoot]
  {
    OpeningIsUnique(c.trees, x.affectedRoot, x.affectedCount, leaves, x.trees[x.affectedRoot]);
  }

  /** The pair is the trigger's own, or a replacement other than its own in an earlier readable correction of it. */
  ghost predicate SeedAmong(prefix: seq<Envelope>, unread: set<nat>, trigger: nat, r: RecordRef)
    requires IsTrigger(prefix, trigger)
  {
    var p := prefix[trigger].payload.value;
    || (p.dataset == Some(r.0) && p.record == Some(r.1))
    || (p.kind == Correction && exists i :: 0 <= i < trigger && i !in unread && IsSuperseded(prefix[i], p, r))
  }

  /** A readable entry of the prefix states, at a time the scope covers, that `b` derives from `a`. */
  ghost predicate LeadsAmong(
      c: Crypto, x: Claim, prefix: seq<Envelope>, unread: set<nat>, scope: Scope, a: RecordRef, b: RecordRef)
  {
    exists i: nat, v :: i < |prefix| && i !in unread && Covers(scope, v)
      && Records(c.trees, x.trees, prefix[i], Edge(i, v, a, b))
  }

  /** The set holds every seed, and no readable entry in scope leads out of it. */
  ghost predicate SeededAndClosed(
      c: Crypto, x: Claim, prefix: seq<Envelope>, unread: set<nat>, trigger: nat, s: set<RecordRef>)
    requires IsTrigger(prefix, trigger) && prefix[trigger].payload.value.scope.Ok?
  {
    && (forall r :: SeedAmong(prefix, unread, trigger, r) ==> r in s)
    && (forall a, b :: a in s && LeadsAmong(c, x, prefix, unread, prefix[trigger].payload.value.scope.value, a, b) ==>
          b in s)
  }

  /** No seed, and in every such set. */
  ghost predicate Affected(
      c: Crypto, x: Claim, prefix: seq<Envelope>, unread: set<nat>, trigger: nat, r: RecordRef)
    requires IsTrigger(prefix, trigger) && prefix[trigger].payload.value.scope.Ok?
  {
    && !SeedAmong(prefix, unread, trigger, r)
    && forall s: set<RecordRef> :: SeededAndClosed(c, x, prefix, unread, trigger, s) ==> r in s
  }

  ghost predicate Borne(leaves: seq<Leaf>, r: RecordRef) {
    exists leaf :: leaf in leaves && Bears(leaf, r)
  }

  /**
   * The leaves bear exactly the records, seeds apart, that are in every set which holds the seeds of the claim's
   * trigger and which no entry of the prefix outside `unread` leads out of; the trigger is itself such an entry.
   */
  ghost predicate IsClosureOver(c: Crypto, x: Claim, prefix: seq<Envelope>, unread: set<nat>, leaves: seq<Leaf>)
    requires x.embedded.Some?
  {
    var trigger := x.embedded.value.entryIndex;
    && IsTrigger(prefix, trigger) && trigger !in unread && prefix[trigger].payload.value.scope.Ok?
    && prefix[trigger].statementId == x.trigger
    && forall r :: Borne(leaves, r) <==> Affected(c, x, prefix, unread, trigger, r)
  }

  /** Over the prefix with its unread entries blanked, seeds and statements are those of the readable ones. */
  lemma ViewReads(c: Crypto, x: Claim, prefix: seq<Envelope>, unread: set<nat>, trigger: nat)
    requires IsTrigger(Traversable(prefix, unread), trigger)
    ensures trigger !in unread && IsTrigger(prefix, trigger)
    ensures forall r :: IsSeed(Traversable(prefix, unread), trigger, r) <==> SeedAmong(prefix, unread, trigger, r)
    ensures forall scope, a, b :: Leads(c.trees, x.trees, Traversable(prefix, unread), |prefix|, scope, a, b) <==>
      LeadsAmong(c, x, prefix, unread, scope, a, b)
  {
    var view := Traversable(prefix, unread);
    forall scope, a, b
      ensures Leads(c.trees, x.trees, view, |prefix|, scope, a, b) <==> LeadsAmong(c, x, prefix, unread, scope, a, b)
    {
      if LeadsAmong(c, x, prefix, unread, scope, a, b) {
        var i: nat, v :| i < |prefix| && i !in unread && Covers(scope, v)
          && Records(c.trees, x.trees, prefix[i], Edge(i, v, a, b));
        assert Records(c.trees, x.trees, view[i], Edge(i, v, a, b));
      }
    }
  }

  lemma BorneIff(leaves: seq<Leaf>)
    requires RecordsOf(leaves, |leaves|).Some?
    ensures forall r :: Borne(leaves, r) <==> r in RecordsOf(leaves, |leaves|).value
  {
    RecordsOfAre(leaves, |leaves|);
    forall r | Borne(leaves, r) ensures r in PairsOf(leaves, |leaves|) {
      var leaf :| leaf in leaves && Bears(leaf, r);
      var k :| 0 <= k < |leaves| && leaves[k] == leaf;
    }
    forall r | r in PairsOf(leaves, |leaves|) ensures Borne(leaves, r) {
      var k :| 0 <= k < |leaves| && Bears(leaves[k], r);
    }
  }

  /** The computed affected set, over the readable entries. */
  lemma ComputedIsAffected(c: Crypto, x: Claim, prefix: seq<Envelope>, unread: set<nat>, trigger: nat)
    requires ClosureOf(c.trees, Traversable(prefix, unread), x.trees, trigger, |prefix|).Ok?
    ensures IsTrigger(prefix, trigger) && trigger !in unread && prefix[trigger].payload.value.scope.Ok?
    ensures var closure := ClosureOf(c.trees, Traversable(prefix, unread), x.trees, trigger, |prefix|).value;
      forall r :: r in closure.affected <==> Affected(c, x, prefix, unread, trigger, r)
  {
    var view := Traversable(prefix, unread);
    var closure := ClosureOf(c.trees, view, x.trees, trigger, |prefix|).value;
    AffectedSetIsLeast(c.trees, view, x.trees, trigger, |prefix|);
    ViewReads(c, x, prefix, unread, trigger);
    var scope := prefix[trigger].payload.value.scope.value;
    assert SeededAndClosed(c, x, prefix, unread, trigger, closure.seeds + closure.affected);
    forall s: set<RecordRef> | SeededAndClosed(c, x, prefix, unread, trigger, s) ensures closure.affected <= s {
      assert closure.seeds <= s;
      assert ClosedUnder(c.trees, x.trees, view, |prefix|, scope, s);
    }
  }

  /** Dispositions that match the computed closure are the closure over the readable entries. */
  lemma MatchIsClosure(c: Crypto, x: Claim, prefix: seq<Envelope>, unread: set<nat>, leaves: seq<Leaf>)
    requires x.embedded.Some? && x.embedded.value.entryIndex < |prefix|
    requires prefix[x.embedded.value.entryIndex].statementId == x.trigger
    requires var closure := ClosureOf(
        c.trees, Traversable(prefix, unread), x.trees, x.embedded.value.entryIndex, |prefix|);
      closure.Ok? && RecordsOf(leaves, |leaves|) == Some(closure.value.affected)
    ensures IsClosureOver(c, x, prefix, unread, leaves)
  {
    ComputedIsAffected(c, x, prefix, unread, x.embedded.value.entryIndex);
    BorneIff(leaves);
  }

  /**
   * The end-to-end claim. Let the anchoring checkpoint commit the log. Then the declared checkpoint
   * is the prefix of that log of its size, and the records any disposition list under the anchored
   * root bears are the trigger's closure over that prefix, less what the governance state excludes.
   */
  lemma PropagationComplete(c: Crypto, x: Claim, log: seq<Envelope>, leaves: seq<Leaf>)
    requires Ideal(c) && Accepted(c, x)
    requires |log| == x.anchoring.treeSize && x.anchoring.rootHash == LogRoot(c, x.profile, log)
    requires OpenResult(c.trees, x.affectedRoot, x.affectedCount, leaves).Ok?
    ensures x.declared.treeSize <= |log| && x.declared.rootHash == LogRoot(c, x.profile, log[..x.declared.treeSize])
    ensures forall leaf :: leaf in leaves ==> leaf.dataset.Some? && leaf.record.Some?
    ensures var prefix := log[..x.declared.treeSize]; IsClosureOver(c, x, prefix, Unread(x, prefix), leaves)
  {
    EnumerationIsTheLog(c, x.profile, x.carriedPrefix.value, log);
    var prefix := log[..x.declared.treeSize];
    assert log[0..x.declared.treeSize] == prefix;
    DispositionsUnique(c, x, leaves);
    RecordsOfAre(leaves, |leaves|);
    MatchIsClosure(c, x, prefix, Unread(x, prefix), leaves);
  }

  /** The material an honest party carries for a range of a log. */
  function HonestRange(c: Crypto, profile: Profile, log: seq<Envelope>, from: nat, to: nat): RangeMaterial
    requires from < to <= |log| < TWO_64 && profile != UnknownProfile
  {
    RangeMaterial(from, to, seq(to - from, i requires 0 <= i < to - from => (from + i, log[from + i])),
      RP.HonestProof(c.logNodes, LogLeafHashes(c, profile, log), from, to))
  }

  /** And for its first `size` entries. */
  function HonestMaterial(c: Crypto, profile: Profile, log: seq<Envelope>, size: nat): RangeMaterial
    requires 0 < size <= |log| < TWO_64 && profile != UnknownProfile
  {
    HonestRange(c, profile, log, 0, size)
  }

  lemma HonestRangeEnumerates(c: Crypto, profile: Profile, log: seq<Envelope>, from: nat, to: nat)
    requires from < to <= |log| < TWO_64 && profile != UnknownProfile
    requires forall i :: from <= i < to ==> log[i].payload.Some?
    ensures Enumerates(c, profile, HonestRange(c, profile, log, from, to), LogRoot(c, profile, log), |log|)
    ensures Entries(HonestRange(c, profile, log, from, to)) == log[from..to]
  {
    var m, all := HonestRange(c, profile, log, from, to), LogLeafHashes(c, profile, log);
    assert Entries(m) == log[from..to];
    assert LogLeafHashes(c, profile, Entries(m)) == all[from..to];
    RP.HonestProofAccepted(c.logNodes, all, from, to);
  }

  lemma EntriesOfSlice(m: RangeMaterial, log: seq<Envelope>)
    requires m.fromIndex < m.toIndex <= |log| && Entries(m) == log[m.fromIndex..m.toIndex]
    requires InOrder(m, |m.entries|)
    ensures |m.entries| == m.toIndex - m.fromIndex
    ensures forall i :: 0 <= i < |m.entries| ==> m.entries[i] == (m.fromIndex + i, log[m.fromIndex + i])
    ensures forall i :: m.fromIndex <= i < m.toIndex ==> log[i].payload.Some?
  {
    assert |m.entries| == |Entries(m)|;
    forall i | 0 <= i < |m.entries| ensures m.entries[i] == (m.fromIndex + i, log[m.fromIndex + i]) {
      assert Entries(m)[i] == log[m.fromIndex..m.toIndex][i];
    }
    forall i | m.fromIndex <= i < m.toIndex ensures log[i].payload.Some? {
      assert m.entries[i - m.fromIndex].1 == log[i];
    }
  }

  lemma OnlyHonestEnumerates(c: Crypto, profile: Profile, m: RangeMaterial, log: seq<Envelope>)
    requires Ideal(c) && |log| < TWO_64 && profile != UnknownProfile
    requires Enumerates(c, profile, m, LogRoot(c, profile, log), |log|)
    ensures m.toIndex <= |log| && m == HonestRange(c, profile, log, m.fromIndex, m.toIndex)
    ensures forall i :: m.fromIndex <= i < m.toIndex ==> log[i].payload.Some?
  {
    EnumerationIsTheLog(c, profile, m, log);
    EntriesOfSlice(m, log);
    RP.AcceptedIffHonest(
      c.logNodes, m.proof, LogLeafHashes(c, profile, Entries(m)), LogLeafHashes(c, profile, log));
    assert m.entries == HonestRange(c, profile, log, m.fromIndex, m.toIndex).entries;
  }

  /** What `OnlyHonestEnumerates` and `HonestRangeEnumerates` find material to be. */
  ghost predicate IsHonestRange(c: Crypto, profile: Profile, m: RangeMaterial, log: seq<Envelope>)
    requires |log| < TWO_64 && profile != UnknownProfile
  {
    && m.fromIndex < m.toIndex <= |log|
    && m == HonestRange(c, profile, log, m.fromIndex, m.toIndex)
    && forall i :: m.fromIndex <= i < m.toIndex ==> log[i].payload.Some?
  }

  /** Over a committed log, enumeration material is accepted exactly where it is the honest material for its range. */
  lemma EnumeratesIff(c: Crypto, profile: Profile, m: RangeMaterial, log: seq<Envelope>)
    requires Ideal(c) && |log| < TWO_64 && profile != UnknownProfile
    ensures Enumerates(c, profile, m, LogRoot(c, profile, log), |log|) <==> IsHonestRange(c, profile, m, log)
  {
    if Enumerates(c, profile, m, LogRoot(c, profile, log), |log|) {
      OnlyHonestEnumerates(c, profile, m, log);
    } else if IsHonestRange(c, profile, m, log) {
      HonestRangeEnumerates(c, profile, log, m.fromIndex, m.toIndex);
    }
  }

  /** Honest material is refused for one reason only: the dispositions are not the closure. */
  lemma HonestMaterialDecidedByClosure(c: Crypto, x: Claim, log: seq<Envelope>)
    requires x.subjectIsPropagation && x.governanceEnumerated && x.budgetLeft && x.checkpointAuthentic
    requires x.profile != UnknownProfile && |log| == x.anchoring.treeSize
    requires x.anchoring.rootHash == LogRoot(c, x.profile, log)
    requires 0 < x.declared.treeSize <= |log| && x.carriedCheckpoint == Some(x.declared)
    requires x.declared.rootHash == LogRoot(c, x.profile, log[..x.declared.treeSize])
    requires forall i :: 0 <= i < x.declared.treeSize ==> log[i].payload.Some?
    requires x.carriedPrefix == Some(HonestMaterial(c, x.profile, log, x.declared.treeSize))
    requires SweepOfPrefix(x, x.carriedPrefix.value).Ok? && DispositionsOpen(c, x) && TriggerBound(x)
    ensures Accepted(c, x) <==> DispositionsMatch(c, x)
  {
    HonestRangeEnumerates(c, x.profile, log, 0, x.declared.treeSize);
    assert log[0..x.declared.treeSize] == log[..x.declared.treeSize];
  }
}
