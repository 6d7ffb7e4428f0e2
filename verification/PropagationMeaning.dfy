/** Exactly which `propagation-complete` claims are accepted over a committed log, member by member. */
module PropagationMeaning {
  import opened Basics
  import opened CommittedTree
  import opened Envelopes
  import opened Closure
  import opened AffectedSet
  import opened ClosureMeaning
  import opened Propagation
  import EntrySweep

  /** The carried checkpoint is the declared one, as far as both say. */
  ghost predicate CarriesDeclared(x: Claim) {
    && x.carriedCheckpoint.Some?
    && x.carriedCheckpoint.value.logId == x.declared.logId
    && x.carriedCheckpoint.value.treeSize == x.declared.treeSize
    && x.carriedCheckpoint.value.rootHash == x.declared.rootHash
    && forall k :: k in x.carriedCheckpoint.value.extra && k in x.declared.extra ==>
      x.carriedCheckpoint.value.extra[k] == x.declared.extra[k]
  }

  /** The carried prefix is the log's, of the declared size and under the declared root, with its honest proof. */
  ghost predicate CarriesPrefix(c: Crypto, x: Claim, log: seq<Envelope>)
    requires x.profile != UnknownProfile && |log| < TWO_64
  {
    && 0 < x.declared.treeSize <= |log|
    && x.carriedPrefix == Some(HonestRange(c, x.profile, log, 0, x.declared.treeSize))
    && (forall i :: 0 <= i < x.declared.treeSize ==> log[i].payload.Some?)
    && x.declared.rootHash == LogRoot(c, x.profile, log[..x.declared.treeSize])
  }

  /** The sweep over the prefix meets no entry it cannot settle. */
  ghost predicate Sweepable(x: Claim, prefix: seq<Envelope>) {
    forall i :: 0 <= i < |prefix| ==> EntrySweep.CanSettle(x.verify, x.governance, {}, prefix[i], i)
  }

  /** The embedded receipt is about the subject's trigger, before it, and that trigger is the log's entry there. */
  ghost predicate CarriesTrigger(x: Claim, log: seq<Envelope>) {
    && x.embedded.Some? && x.embedded.value.statementId == x.trigger
    && x.embedded.value.entryIndex <= x.subjectIndex
    && x.embedded.value.entryIndex < x.declared.treeSize <= |log|
    && log[x.embedded.value.entryIndex].statementId == x.trigger
  }

  ghost predicate DerivationsRead(c: Crypto, x: Claim, prefix: seq<Envelope>, unread: set<nat>) {
    forall i: nat :: i < |prefix| && i !in unread && IsDerivation(prefix[i]) ==>
      DerivationReads(c.trees, x.trees, prefix[i].payload.value)
  }

  /** The dispositions open, each bears a record, and together they are the closure, which can be computed. */
  ghost predicate DispositionsAreClosure(c: Crypto, x: Claim, prefix: seq<Envelope>)
    requires x.embedded.Some?
  {
    && x.affectedRoot in x.trees && Opens(c.trees, x.affectedRoot, x.affectedCount, x.trees[x.affectedRoot])
    && (forall leaf :: leaf in x.trees[x.affectedRoot] ==> leaf.dataset.Some? && leaf.record.Some?)
    && DerivationsRead(c, x, prefix, Unread(x, prefix))
    && IsClosureOver(c, x, prefix, Unread(x, prefix), x.trees[x.affectedRoot])
  }

  /** The computation succeeds exactly for a readable trigger with a scope, where readable derivations can be read. */
  lemma ComputedIff(c: Crypto, x: Claim, prefix: seq<Envelope>, unread: set<nat>, trigger: nat)
    ensures ClosureOf(c.trees, Traversable(prefix, unread), x.trees, trigger, |prefix|).Ok? <==>
      && IsTrigger(prefix, trigger) && trigger !in unread && prefix[trigger].payload.value.scope.Ok?
      && DerivationsRead(c, x, prefix, unread)
  {
    var view := Traversable(prefix, unread);
    AffectedSetReadIff(c.trees, view, x.trees, trigger, |prefix|);
    forall i: nat | i < |prefix| && i !in unread && IsDerivation(prefix[i])
      ensures view[i] == prefix[i] && IsDerivation(view[i])
    {
    }
  }

  /** Leaves name exactly a set where each bears a record and the records they bear are that set's. */
  lemma LeavesNameIff(leaves: seq<Leaf>, records: set<RecordRef>)
    ensures RecordsOf(leaves, |leaves|) == Some(records) <==>
      && (forall leaf :: leaf in leaves ==> leaf.dataset.Some? && leaf.record.Some?)
      && (forall r :: Borne(leaves, r) <==> r in records)
  {
    RecordsOfAre(leaves, |leaves|);
    if RecordsOf(leaves, |leaves|).Some? {
      BorneIff(leaves);
      var named := RecordsOf(leaves, |leaves|).value;
      if forall r :: Borne(leaves, r) <==> r in records {
        assert forall r :: r in named <==> r in records;
        assert named == records;
      }
    }
  }

  lemma ClosureMatchIff(c: Crypto, x: Claim, prefix: seq<Envelope>, leaves: seq<Leaf>)
    requires x.embedded.Some? && x.embedded.value.entryIndex < |prefix|
    requires prefix[x.embedded.value.entryIndex].statementId == x.trigger
    ensures var computed := ClosureOf(
        c.trees, Traversable(prefix, Unread(x, prefix)), x.trees, x.embedded.value.entryIndex, |prefix|);
      computed.Ok? && RecordsOf(leaves, |leaves|) == Some(computed.value.affected) <==>
        && (forall leaf :: leaf in leaves ==> leaf.dataset.Some? && leaf.record.Some?)
        && DerivationsRead(c, x, prefix, Unread(x, prefix))
        && IsClosureOver(c, x, prefix, Unread(x, prefix), leaves)
  {
    var (unread, trigger) := (Unread(x, prefix), x.embedded.value.entryIndex);
    ComputedIff(c, x, prefix, unread, trigger);
    var computed := ClosureOf(c.trees, Traversable(prefix, unread), x.trees, trigger, |prefix|);
    if computed.Ok? {
      ComputedIsAffected(c, x, prefix, unread, trigger);
      LeavesNameIff(leaves, computed.value.affected);
    }
  }

  lemma MatchIff(c: Crypto, x: Claim, prefix: seq<Envelope>)
    requires x.carriedPrefix.Some? && Entries(x.carriedPrefix.value) == prefix
    requires x.embedded.Some? && x.embedded.value.entryIndex < |prefix|
    requires prefix[x.embedded.value.entryIndex].statementId == x.trigger
    ensures DispositionsOpen(c, x) && DispositionsMatch(c, x) <==> DispositionsAreClosure(c, x, prefix)
  {
    if x.affectedRoot in x.trees {
      OpensIff(c.trees, x.affectedRoot, x.affectedCount, x.trees[x.affectedRoot]);
      ClosureMatchIff(c, x, prefix, x.trees[x.affectedRoot]);
    }
  }

  /**
   * Over a log that the anchoring checkpoint commits, a claim is accepted if and only if it is what it declares to be:
   * its kind, the declared checkpoint, the log's own prefix, entries the sweep can settle, the log's own trigger, and
   * dispositions that are the closure.
   */
  lemma AcceptedIff(c: Crypto, x: Claim, log: seq<Envelope>)
    requires Ideal(c) && x.profile != UnknownProfile
    requires |log| == x.anchoring.treeSize && x.anchoring.rootHash == LogRoot(c, x.profile, log)
    ensures Accepted(c, x) <==>
      && x.subjectIsPropagation && x.governanceEnumerated && x.budgetLeft
      && (x.profileHeld ==> x.checkpointAuthentic)
      && CarriesDeclared(x) && CarriesPrefix(c, x, log) && CarriesTrigger(x, log)
      && Sweepable(x, log[..x.declared.treeSize])
      && DispositionsAreClosure(c, x, log[..x.declared.treeSize])
  {
    PrefixBoundIff(c, x, log);
    if CarriesPrefix(c, x, log) {
      CarriedEntries(c, x, log);
      if CarriesTrigger(x, log) {
        MatchIff(c, x, log[..x.declared.treeSize]);
      }
    }
  }

  lemma CarriedEntries(c: Crypto, x: Claim, log: seq<Envelope>)
    requires x.profile != UnknownProfile && |log| < TWO_64 && CarriesPrefix(c, x, log)
    ensures Entries(x.carriedPrefix.value) == log[..x.declared.treeSize]
  {
  }

  lemma SweepableIff(x: Claim, m: RangeMaterial)
    requires m.fromIndex == 0
    ensures SweepOfPrefix(x, m).Ok? <==> Sweepable(x, Entries(m))
  {
    EntrySweep.SweepEndsIff(x.verify, x.governance, {}, 0, Entries(m), |m.entries|);
  }

  /** The prefix checks short of the sweep. */
  lemma CarriesPrefixIff(c: Crypto, x: Claim, log: seq<Envelope>)
    requires Ideal(c) && x.profile != UnknownProfile && x.carriedPrefix.Some? && |log| < TWO_64
    ensures var m := x.carriedPrefix.value;
      && Enumerates(c, x.profile, m, LogRoot(c, x.profile, log), |log|)
      && m.fromIndex == 0 && m.toIndex == x.declared.treeSize
      && LogRoot(c, x.profile, Entries(m)) == x.declared.rootHash
      <==> CarriesPrefix(c, x, log)
  {
    var m := x.carriedPrefix.value;
    EnumeratesIff(c, x.profile, m, log);
    if IsHonestRange(c, x.profile, m, log) && m.fromIndex == 0 {
      assert Entries(m) == log[..m.toIndex];
    }
  }

  lemma PrefixBoundIff(c: Crypto, x: Claim, log: seq<Envelope>)
    requires Ideal(c) && x.profile != UnknownProfile
    requires |log| == x.anchoring.treeSize && x.anchoring.rootHash == LogRoot(c, x.profile, log)
    ensures PrefixBound(c, x) <==>
      && (x.profileHeld ==> x.checkpointAuthentic)
      && CarriesDeclared(x) && CarriesPrefix(c, x, log) && Sweepable(x, log[..x.declared.treeSize])
  {
    if x.carriedPrefix.Some? {
      CarriesPrefixIff(c, x, log);
      if x.carriedPrefix.value.fromIndex == 0 {
        SweepableIff(x, x.carriedPrefix.value);
      }
      if CarriesPrefix(c, x, log) {
        CarriedEntries(c, x, log);
      }
    }
  }

  // ---------------------------------------------------------------------------
  // The leaves of the log
  // ---------------------------------------------------------------------------

  /** A log's leaves by profile: canonical JSON for the one, its digest ahead of the metadata's for the other. */
  lemma LeavesByProfile(c: Crypto, log: seq<Envelope>, i: nat)
    requires i < |log|
    ensures LogLeafHashes(c, TestProfile, log)[i] == c.leafHash(c.jcs(log[i]))
    ensures LogLeafHashes(c, AtlShaped, log)[i] == c.leafHash(c.sha256(c.jcs(log[i])) + c.atlMetadata)
    ensures LogLeafBytes(c, UnknownProfile, log[i]).Err?
  {
  }
}
