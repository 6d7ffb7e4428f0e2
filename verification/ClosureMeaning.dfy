/** The affected set said from the log's own members: a least closed set, and when it can be computed at all. */
module ClosureMeaning {
  import opened Basics
  import opened CommittedTree
  import opened Envelopes
  import opened Closure
  import opened AffectedSet

  /** One of the first `n` entries states, at a time the scope covers, that `b` derives from `a`. */
  ghost predicate Leads(
      th: TreeHash, trees: TreeMaterial, log: seq<Envelope>, n: nat, scope: Scope, a: RecordRef, b: RecordRef)
  {
    exists i: nat, v :: i < n && i < |log| && Covers(scope, v) && Records(th, trees, log[i], Edge(i, v, a, b))
  }

  /** No such statement leads out of the set. */
  ghost predicate ClosedUnder(
      th: TreeHash, trees: TreeMaterial, log: seq<Envelope>, n: nat, scope: Scope, s: set<RecordRef>)
  {
    forall a, b :: a in s && Leads(th, trees, log, n, scope, a, b) ==> b in s
  }

  lemma ClosedUnderIff(
      th: TreeHash, trees: TreeMaterial, log: seq<Envelope>, n: nat, scope: Scope, s: set<RecordRef>)
    requires LogEdges(th, trees, log, Through(log, n)).Ok?
    ensures ClosedUnder(th, trees, log, n, scope, s) <==>
      Closed(LogEdges(th, trees, log, Through(log, n)).value, scope, s)
  {
    var edges := LogEdges(th, trees, log, Through(log, n)).value;
    if ClosedUnder(th, trees, log, n, scope, s) {
      forall e | e in edges && Covers(scope, e.validTime) && e.input in s ensures e.output in s {
        LogEdgesAre(th, trees, log, Through(log, n), e);
        assert Records(th, trees, log[e.entryIndex], Edge(e.entryIndex, e.validTime, e.input, e.output));
        assert Leads(th, trees, log, n, scope, e.input, e.output);
      }
    }
    if Closed(edges, scope, s) {
      forall a, b | a in s && Leads(th, trees, log, n, scope, a, b) ensures b in s {
        var i: nat, v :| i < n && i < |log| && Covers(scope, v) && Records(th, trees, log[i], Edge(i, v, a, b));
        LogEdgesAre(th, trees, log, Through(log, n), Edge(i, v, a, b));
      }
    }
  }

  /**
   * What is computed, if anything is: the trigger's seeds, and the records that with the seeds make up the least set
   * that holds the seeds and that no statement in scope among the first entries leads out of.
   */
  lemma AffectedSetIsLeast(
      th: TreeHash, log: seq<Envelope>, trees: TreeMaterial, trigger: nat, throughSize: nat)
    requires ClosureOf(th, log, trees, trigger, throughSize).Ok?
    ensures IsTrigger(log, trigger) && log[trigger].payload.value.scope.Ok?
    ensures var c := ClosureOf(th, log, trees, trigger, throughSize).value;
      var scope := log[trigger].payload.value.scope.value;
      && (forall r :: r in c.seeds <==> IsSeed(log, trigger, r))
      && c.seeds !! c.affected
      && ClosedUnder(th, trees, log, throughSize, scope, c.seeds + c.affected)
      && (forall s: set<RecordRef> :: c.seeds <= s && ClosedUnder(th, trees, log, throughSize, scope, s) ==>
            c.affected <= s)
  {
    SeedsAre(log, trigger);
    var (seeds, scope) := (Seeds(log, trigger).value, log[trigger].payload.value.scope.value);
    var edges := LogEdges(th, trees, log, Through(log, throughSize)).value;
    ReachedIsClosed(edges, scope, seeds);
    ClosedUnderIff(th, trees, log, throughSize, scope, seeds + ReachedSet(edges, scope, seeds));
    forall s: set<RecordRef> | seeds <= s && ClosedUnder(th, trees, log, throughSize, scope, s)
      ensures ReachedSet(edges, scope, seeds) <= s
    {
      ClosedUnderIff(th, trees, log, throughSize, scope, s);
      ClosedHoldsReached(edges, scope, seeds, s);
    }
  }

  predicate IsDerivation(env: Envelope) {
    env.payload.Some? && env.payload.value.kind == Derivation
  }

  /** It is computed exactly for a trigger with a scope, where every derivation among the first entries can be read. */
  lemma AffectedSetReadIff(
      th: TreeHash, log: seq<Envelope>, trees: TreeMaterial, trigger: nat, throughSize: nat)
    ensures ClosureOf(th, log, trees, trigger, throughSize).Ok? <==>
      && IsTrigger(log, trigger) && log[trigger].payload.value.scope.Ok?
      && forall i: nat :: i < throughSize && i < |log| && IsDerivation(log[i]) ==>
           DerivationReads(th, trees, log[i].payload.value)
  {
    SeedsAre(log, trigger);
    LogEdgesReadIff(th, trees, log, Through(log, throughSize));
  }

  /** What a derivation in scope makes from the trigger's own record is affected, unless it is a seed itself. */
  lemma ConsumersOfTheTriggerAreAffected(
      th: TreeHash, log: seq<Envelope>, trees: TreeMaterial, trigger: nat, throughSize: nat, i: nat, output: RecordRef,
      inputs: Inputs)
    requires ClosureOf(th, log, trees, trigger, throughSize).Ok? && IsTrigger(log, trigger)
    requires i < throughSize && i < |log| && IsDerivation(log[i])
    requires var p := log[trigger].payload.value;
      && log[i].payload.value.validTime.Ok?
      && Covers(p.scope.value, log[i].payload.value.validTime.value)
      && Derives(th, trees, log[i].payload.value, output, inputs)
      && InputsName(th, trees, inputs, (p.dataset.value, p.record.value))
    ensures var c := ClosureOf(th, log, trees, trigger, throughSize).value; output in c.affected || output in c.seeds
  {
    var p := log[trigger].payload.value;
    var record := (p.dataset.value, p.record.value);
    AffectedSetIsLeast(th, log, trees, trigger, throughSize);
    assert IsSeed(log, trigger, record);
    assert Records(th, trees, log[i], Edge(i, log[i].payload.value.validTime.value, record, output));
    assert Leads(th, trees, log, throughSize, p.scope.value, record, output);
  }
}
