/** The `propagation-complete` claim and the governance state: which entries count, and who decides alike. */
module PropagationLaws {
  import opened Basics
  import opened CommittedTree
  import opened Envelopes
  import opened Closure
  import opened AffectedSet
  import opened Propagation
  import G = Governance
  import GA = GovernanceAgreement
  import EntrySweep

  // ---------------------------------------------------------------------------
  // By signatures alone
  // ---------------------------------------------------------------------------

  /** How a receipt over a log enumerates its currency: the chain it carries, and the first `size` entries. */
  datatype Currency = Currency(
    checks: G.Checks, receipt: G.Carried, policy: G.Policy, profileHeld: bool, size: nat, direct: set<nat>)

  /** The receipt's own walk or its own sweep over the enumerated currency recorded the index. */
  ghost predicate RecordedBy(g: G.Governance, swept: EntrySweep.Swept, i: nat) {
    (exists v :: v in g.voids && v.0 == i) || i in swept.voids || i in swept.setAside
  }

  /** The claim's governance state is the one the currency establishes, and only its own checks recorded anything. */
  ghost predicate OwnRecordsOnly(x: Claim, log: seq<Envelope>, cur: Currency) {
    && cur.size <= |log| && cur.checks.verify == x.verify
    && G.Established(
      cur.checks, cur.receipt, cur.policy, EntrySweep.EnumeratedKeys(log, cur.size), false, cur.profileHeld)
      == Ok(x.governance)
    && var swept := EntrySweep.SweepOf(x.verify, x.governance, cur.direct, 0, log, cur.size);
       swept.Ok? && forall i :: i in x.recorded ==> RecordedBy(x.governance, swept.value, i)
  }

  /** What the receipt itself records before the claim is settled, the governance state excludes anyway. */
  lemma OwnRecordIsExcluded(x: Claim, log: seq<Envelope>, cur: Currency, i: nat)
    requires OwnRecordsOnly(x, log, cur) && i in x.recorded
    ensures i < cur.size && EntrySweep.Excluded(x.verify, x.governance, {}, log[i], i)
  {
    var swept := EntrySweep.SweepOf(x.verify, x.governance, cur.direct, 0, log, cur.size).value;
    assert RecordedBy(x.governance, swept, i);
    if v :| v in x.governance.voids && v.0 == i {
      EntrySweep.WalkVoidsAreExcluded(cur.checks, cur.receipt, cur.policy, log, cur.size, false, cur.profileHeld, v);
    } else {
      EntrySweep.SweepMeaning(x.verify, x.governance, cur.direct, 0, log, cur.size, i);
    }
  }

  lemma OwnRecordsAddNothing(x: Claim, log: seq<Envelope>, cur: Currency, n: nat)
    requires OwnRecordsOnly(x, log, cur) && n <= |log|
    ensures forall i :: 0 <= i < n ==> (i in Unread(x, log[..n]) <==> i in Excluded(x, log[..n]))
  {
    forall i | 0 <= i < n && i in x.recorded ensures i in Excluded(x, log[..n]) {
      OwnRecordIsExcluded(x, log, cur, i);
    }
  }

  lemma SameReadersSameClosure(
      c: Crypto, x: Claim, prefix: seq<Envelope>, a: set<nat>, b: set<nat>, leaves: seq<Leaf>)
    requires x.embedded.Some? && IsClosureOver(c, x, prefix, a, leaves)
    requires forall i :: 0 <= i < |prefix| ==> (i in a <==> i in b)
    ensures IsClosureOver(c, x, prefix, b, leaves)
  {
    var trigger := x.embedded.value.entryIndex;
    forall r ensures SeedAmong(prefix, a, trigger, r) <==> SeedAmong(prefix, b, trigger, r) {
    }
    forall scope, p, q ensures LeadsAmong(c, x, prefix, a, scope, p, q) <==> LeadsAmong(c, x, prefix, b, scope, p, q) {
    }
    forall s: set<RecordRef>
      ensures SeededAndClosed(c, x, prefix, a, trigger, s) <==> SeededAndClosed(c, x, prefix, b, trigger, s)
    {
    }
  }

  /**
   * The end-to-end claim by signatures alone: where nothing but the receipt's own checks recorded an index, the
   * anchored dispositions are the closure over exactly the entries that were taken into the governance state, or
   * verify at their own index and are of this revision.
   */
  lemma PropagationBySignatures(c: Crypto, x: Claim, log: seq<Envelope>, leaves: seq<Leaf>, cur: Currency)
    requires Ideal(c) && Accepted(c, x) && OwnRecordsOnly(x, log, cur)
    requires |log| == x.anchoring.treeSize && x.anchoring.rootHash == LogRoot(c, x.profile, log)
    requires OpenResult(c.trees, x.affectedRoot, x.affectedCount, leaves).Ok?
    ensures x.declared.treeSize <= |log|
    ensures var prefix := log[..x.declared.treeSize]; IsClosureOver(c, x, prefix, Excluded(x, prefix), leaves)
  {
    PropagationComplete(c, x, log, leaves);
    var prefix := log[..x.declared.treeSize];
    OwnRecordsAddNothing(x, log, cur, x.declared.treeSize);
    SameReadersSameClosure(c, x, prefix, Unread(x, prefix), Excluded(x, prefix), leaves);
  }

  // ---------------------------------------------------------------------------
  // With and without an adaptor profile
  // ---------------------------------------------------------------------------

  lemma SameSweep(x: Claim, more: G.Governance, m: RangeMaterial, size: u64)
    requires x.governance.manifests != [] && G.EstablishedForTreeSize(x.governance, size)
    requires GA.PartOf(x.governance, more) && m.fromIndex + |m.entries| <= size
    ensures SweepOfPrefix(x.(governance := more, profileHeld := true), m) == SweepOfPrefix(x, m)
  {
    EntrySweep.SweepsAgree(x.verify, x.governance, more, {}, m.fromIndex, Entries(m), |m.entries|);
  }

  lemma SameUnread(x: Claim, more: G.Governance, prefix: seq<Envelope>, size: u64)
    requires x.governance.manifests != [] && G.EstablishedForTreeSize(x.governance, size)
    requires GA.PartOf(x.governance, more) && |prefix| <= size
    ensures Unread(x.(governance := more, profileHeld := true), prefix) == Unread(x, prefix)
  {
    var y := x.(governance := more, profileHeld := true);
    forall i | 0 <= i < |prefix| ensures i in Excluded(x, prefix) <==> i in Excluded(y, prefix) {
      GA.EstablishedStateAgrees(x.governance, more, i);
    }
    assert Excluded(x, prefix) == Excluded(y, prefix);
  }

  lemma SameMatch(c: Crypto, x: Claim, y: Claim)
    requires x.carriedPrefix.Some? && y == x.(governance := y.governance, profileHeld := true)
    requires Unread(y, Entries(x.carriedPrefix.value)) == Unread(x, Entries(x.carriedPrefix.value))
    requires SweepOfPrefix(y, x.carriedPrefix.value) == SweepOfPrefix(x, x.carriedPrefix.value)
    ensures !x.profileHeld ==> (PrefixBound(c, y) <==> PrefixBound(c, x) && x.checkpointAuthentic)
    ensures TriggerBound(y) <==> TriggerBound(x)
    ensures x.embedded.Some? && x.affectedRoot in x.trees ==> (DispositionsMatch(c, y) <==> DispositionsMatch(c, x))
  {
  }

  /**
   * Material for this claim is read only where the governance state is established for the anchoring checkpoint.
   * There a verifier that holds the adaptor profile accepts what one without it does, if the declared checkpoint,
   * which only the first can authenticate, is authentic.
   */
  lemma CapabilityDoesNotDecide(c: Crypto, x: Claim, more: G.Governance)
    requires x.governance.manifests != [] && G.EstablishedForTreeSize(x.governance, x.anchoring.treeSize)
    requires GA.PartOf(x.governance, more) && !x.profileHeld
    ensures Accepted(c, x.(governance := more, profileHeld := true)) <==> Accepted(c, x) && x.checkpointAuthentic
  {
    var (y, size) := (x.(governance := more, profileHeld := true), x.anchoring.treeSize);
    if x.carriedPrefix.Some? && Enumerates(c, x.profile, x.carriedPrefix.value, x.anchoring.rootHash, size) {
      var m := x.carriedPrefix.value;
      assert m.toIndex <= size;
      SameSweep(x, more, m, size);
      SameUnread(x, more, Entries(m), size);
      SameMatch(c, x, y);
    }
  }
}
