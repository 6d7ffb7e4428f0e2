/** The affected set: a worklist search, the reachability it computes, and how it responds to change. */
module AffectedSet {
  import opened Basics
  import opened CommittedTree
  import opened Envelopes
  import opened Closure

  // ---------------------------------------------------------------------------
  // Reachability
  // ---------------------------------------------------------------------------

  /** An in-scope edge leads from `a` to `b`. */
  ghost predicate Hop(edges: seq<Edge>, scope: Scope, a: RecordRef, b: RecordRef) {
    exists e :: e in edges && Covers(scope, e.validTime) && e.input == a && e.output == b
  }

  ghost predicate IsRoute(edges: seq<Edge>, scope: Scope, route: seq<RecordRef>) {
    && |route| >= 2
    && forall k :: 0 < k < |route| ==> Hop(edges, scope, route[k - 1], route[k])
  }

  /** `r` is reached from a seed by one or more in-scope edges. */
  ghost predicate Reached(edges: seq<Edge>, scope: Scope, seeds: set<RecordRef>, r: RecordRef) {
    exists route :: IsRoute(edges, scope, route) && route[0] in seeds && route[|route| - 1] == r
  }

  /** Every reached record but the seeds. */
  ghost function ReachedSet(edges: seq<Edge>, scope: Scope, seeds: set<RecordRef>): (affected: set<RecordRef>)
    ensures forall r :: r in affected <==> Reached(edges, scope, seeds, r) && r !in seeds
  {
    var outputs := set e | e in edges :: e.output;
    forall r | Reached(edges, scope, seeds, r) ensures r in outputs {
      ReachedIsOutput(edges, scope, seeds, r);
    }
    set r | r in outputs && Reached(edges, scope, seeds, r) && r !in seeds
  }

  lemma ReachedIsOutput(edges: seq<Edge>, scope: Scope, seeds: set<RecordRef>, r: RecordRef)
    requires Reached(edges, scope, seeds, r)
    ensures r in (set e | e in edges :: e.output)
  {
    var route :| IsRoute(edges, scope, route) && route[0] in seeds && route[|route| - 1] == r;
    assert Hop(edges, scope, route[|route| - 2], route[|route| - 1]);
  }

  /** A set is closed when no in-scope edge leaves it. */
  ghost predicate Closed(edges: seq<Edge>, scope: Scope, s: set<RecordRef>) {
    forall e :: e in edges && Covers(scope, e.validTime) && e.input in s ==> e.output in s
  }

  lemma {:induction false} ClosedHoldsRoutes(
      edges: seq<Edge>, scope: Scope, s: set<RecordRef>, route: seq<RecordRef>, k: nat)
    requires Closed(edges, scope, s) && IsRoute(edges, scope, route) && route[0] in s && k < |route|
    ensures route[k] in s
  {
    if k > 0 {
      ClosedHoldsRoutes(edges, scope, s, route, k - 1);
      assert Hop(edges, scope, route[k - 1], route[k]);
    }
  }

  /** What is reached stays in any closed set around the seeds. */
  lemma ClosedHoldsReached(edges: seq<Edge>, scope: Scope, seeds: set<RecordRef>, s: set<RecordRef>)
    requires Closed(edges, scope, s) && seeds <= s
    ensures seeds + ReachedSet(edges, scope, seeds) <= s
  {
    forall r | r in ReachedSet(edges, scope, seeds) ensures r in s {
      var route :| IsRoute(edges, scope, route) && route[0] in seeds && route[|route| - 1] == r;
      ClosedHoldsRoutes(edges, scope, s, route, |route| - 1);
    }
  }

  lemma ReachedExtends(edges: seq<Edge>, scope: Scope, seeds: set<RecordRef>, a: RecordRef, b: RecordRef)
    requires (a in seeds || Reached(edges, scope, seeds, a)) && Hop(edges, scope, a, b)
    ensures Reached(edges, scope, seeds, b)
  {
    if a in seeds {
      var route := [a, b];
      assert IsRoute(edges, scope, route) && route[0] in seeds && route[|route| - 1] == b;
    } else {
      var route :| IsRoute(edges, scope, route) && route[0] in seeds && route[|route| - 1] == a;
      var longer := route + [b];
      forall k | 0 < k < |longer| ensures Hop(edges, scope, longer[k - 1], longer[k]) {
        if k < |route| {
          assert longer[k - 1] == route[k - 1] && longer[k] == route[k];
        }
      }
      assert IsRoute(edges, scope, longer) && longer[0] in seeds && longer[|longer| - 1] == b;
    }
  }

  /** The seeds with what they reach are closed: with `ClosedHoldsReached`, the least closed set around the seeds. */
  lemma ReachedIsClosed(edges: seq<Edge>, scope: Scope, seeds: set<RecordRef>)
    ensures Closed(edges, scope, seeds + ReachedSet(edges, scope, seeds))
  {
    forall e | e in edges && Covers(scope, e.validTime) && e.input in seeds + ReachedSet(edges, scope, seeds)
      ensures e.output in seeds + ReachedSet(edges, scope, seeds)
    {
      assert Hop(edges, scope, e.input, e.output);
      ReachedExtends(edges, scope, seeds, e.input, e.output);
    }
  }

  // ---------------------------------------------------------------------------
  // The search
  // ---------------------------------------------------------------------------

  type Consumers = map<RecordRef, set<RecordRef>>

  /** `consumers` lists, for each record, the outputs of the in-scope edges out of it. */
  ghost predicate Indexes(consumers: Consumers, edges: seq<Edge>, scope: Scope) {
    forall a, b :: (a in consumers && b in consumers[a]) <==> Hop(edges, scope, a, b)
  }

  method IndexConsumers(edges: seq<Edge>, scope: Scope) returns (consumers: Consumers)
    ensures Indexes(consumers, edges, scope)
  {
    consumers := map[];
    for i := 0 to |edges|
      invariant Indexes(consumers, edges[..i], scope)
    {
      var e := edges[i];
      assert edges[..i + 1] == edges[..i] + [e];
      IndexStep(consumers, edges[..i], e, scope);
      if Covers(scope, e.validTime) {
        var known := if e.input in consumers then consumers[e.input] else {};
        consumers := consumers[e.input := known + {e.output}];
      }
    }
    assert edges[..|edges|] == edges;
  }

  lemma IndexStep(consumers: Consumers, edges: seq<Edge>, e: Edge, scope: Scope)
    requires Indexes(consumers, edges, scope)
    ensures var known := if e.input in consumers then consumers[e.input] else {};
      Indexes(
        if Covers(scope, e.validTime) then consumers[e.input := known + {e.output}] else consumers, edges + [e], scope)
  {
    var known := if e.input in consumers then consumers[e.input] else {};
    var after := if Covers(scope, e.validTime) then consumers[e.input := known + {e.output}] else consumers;
    forall a, b ensures (a in after && b in after[a]) <==> Hop(edges + [e], scope, a, b) {
      assert (a in consumers && b in consumers[a]) <==> Hop(edges, scope, a, b);
    }
  }

  /** The records of a set in some order: the search's result does not depend on which. */
  method InSomeOrder(s: set<RecordRef>) returns (order: seq<RecordRef>)
    ensures forall x :: x in order <==> x in s
  {
    order := [];
    var left := s;
    while left != {}
      invariant left <= s
      invariant forall x :: x in order <==> x in s && x !in left
    {
      var x :| x in left;
      order := order + [x];
      left := left - {x};
    }
  }

  /** Everything seen so far is a seed or reached, and only queued records may have unseen consumers. */
  ghost predicate SearchInvariant(
      edges: seq<Edge>, scope: Scope, seeds: set<RecordRef>, seen: set<RecordRef>, queue: seq<RecordRef>)
  {
    && seeds <= seen
    && (forall r :: r in seen ==> r in seeds || Reached(edges, scope, seeds, r))
    && (forall r :: r in queue ==> r in seen)
    && (forall a, b :: a in seen && a !in queue && Hop(edges, scope, a, b) ==> b in seen)
  }

  method Search(consumers: Consumers, seeds: set<RecordRef>, ghost edges: seq<Edge>, ghost scope: Scope)
    returns (affected: set<RecordRef>)
    requires Indexes(consumers, edges, scope)
    ensures affected == ReachedSet(edges, scope, seeds)
  {
    affected := {};
    var seen := seeds;
    var queue := InSomeOrder(seeds);
    ghost var universe := seeds + set e | e in edges :: e.output;
    while queue != []
      invariant SearchInvariant(edges, scope, seeds, seen, queue)
      invariant affected == seen - seeds
      invariant seen <= universe
      decreases universe - seen, |queue|
    {
      var current := queue[0];
      queue := queue[1..];
      if current !in consumers {
        assert forall b :: !Hop(edges, scope, current, b);
        continue;
      }
      seen, affected, queue := Visit(consumers, current, seen, affected, queue, edges, scope, seeds);
    }
    EmptyQueueIsClosed(edges, scope, seeds, seen);
  }

  lemma EmptyQueueIsClosed(edges: seq<Edge>, scope: Scope, seeds: set<RecordRef>, seen: set<RecordRef>)
    requires SearchInvariant(edges, scope, seeds, seen, [])
    ensures seen - seeds == ReachedSet(edges, scope, seeds)
  {
    forall e | e in edges && Covers(scope, e.validTime) && e.input in seen ensures e.output in seen {
      assert Hop(edges, scope, e.input, e.output);
    }
    ClosedHoldsReached(edges, scope, seeds, seen);
  }

  /** One dequeued record: its unseen consumers are marked, recorded and queued. */
  method Visit(
      consumers: Consumers, current: RecordRef, seen: set<RecordRef>, affected: set<RecordRef>, queue: seq<RecordRef>,
      ghost edges: seq<Edge>, ghost scope: Scope, ghost seeds: set<RecordRef>)
    returns (seen': set<RecordRef>, affected': set<RecordRef>, queue': seq<RecordRef>)
    requires Indexes(consumers, edges, scope) && current in consumers && current in seen
    requires SearchInvariant(edges, scope, seeds, seen, [current] + queue)
    requires affected == seen - seeds
    ensures SearchInvariant(edges, scope, seeds, seen', queue')
    ensures affected' == seen' - seeds
    ensures seen <= seen' <= seen + set e | e in edges :: e.output
    ensures seen' == seen ==> queue' == queue
  {
    seen', affected', queue' := seen, affected, queue;
    var next := consumers[current];
    var left := next;
    while left != {}
      invariant left <= next
      invariant seen <= seen' && seeds <= seen'
      invariant forall r :: r in seen' ==> r in seen || r in next
      invariant forall r :: r in next && r !in left ==> r in seen'
      invariant affected' == seen' - seeds
      invariant forall r :: r in queue' ==> r in seen'
      invariant forall r :: r in queue ==> r in queue'
      invariant forall r :: r in seen' && r !in seen ==> r in queue'
      invariant seen' == seen ==> queue' == queue
    {
      var record :| record in left;
      left := left - {record};
      if record !in seen' {
        seen' := seen' + {record};
        affected' := affected' + {record};
        queue' := queue' + [record];
      }
    }
    forall r | r in seen' ensures r in seeds || Reached(edges, scope, seeds, r) {
      if r !in seen {
        assert Hop(edges, scope, current, r);
        ReachedExtends(edges, scope, seeds, current, r);
      }
    }
    forall a, b | a in seen' && a !in queue' && Hop(edges, scope, a, b) ensures b in seen' {
      if a == current {
        assert b in next;
      } else {
        assert a in seen && a !in [current] + queue;
      }
    }
    forall r | r in seen' ensures r in seen || r in (set e | e in edges :: e.output) {
      if r !in seen {
        assert Hop(edges, scope, current, r);
      }
    }
  }

  /** What the computation decides: the trigger's scope, its seeds, the prefix's edges, then reachability. */
  ghost function ClosureOf(th: TreeHash, log: seq<Envelope>, trees: TreeMaterial, trigger: nat, throughSize: nat)
    : Result<Closure, AhlError>
  {
    if trigger >= |log| || log[trigger].payload.None? then Err(Field("envelope"))
    else if log[trigger].payload.value.scope.Err? then Err(log[trigger].payload.value.scope.error)
    else
      var scope := log[trigger].payload.value.scope.value;
      var seeds := Seeds(log, trigger);
      if seeds.Err? then Err(seeds.error) else
      var edges := LogEdges(th, trees, log, Through(log, throughSize));
      if edges.Err? then Err(edges.error)
      else Ok(Closure(seeds.value, ReachedSet(edges.value, scope, seeds.value)))
  }

  method ComputeAffectedSet(th: TreeHash, log: seq<Envelope>, trees: TreeMaterial, trigger: nat, throughSize: nat)
    returns (r: Result<Closure, AhlError>)
    ensures r == ClosureOf(th, log, trees, trigger, throughSize)
  {
    if trigger >= |log| || log[trigger].payload.None? {
      return Err(Field("envelope"));
    }
    if log[trigger].payload.value.scope.Err? {
      return Err(log[trigger].payload.value.scope.error);
    }
    var scope := log[trigger].payload.value.scope.value;
    var seeds := TriggerSeeds(log, trigger);
    if seeds.Err? {
      return Err(seeds.error);
    }
    var edges := Edges(th, log, trees, throughSize);
    if edges.Err? {
      return Err(edges.error);
    }
    var consumers := IndexConsumers(edges.value, scope);
    var affected := Search(consumers, seeds.value, edges.value, scope);
    return Ok(Closure(seeds.value, affected));
  }

  // ---------------------------------------------------------------------------
  // Independence of the material
  // ---------------------------------------------------------------------------

  lemma SameTree(th: TreeHash, t1: TreeMaterial, t2: TreeMaterial, root: string, declared: u64)
    requires Collisionless(th) && OpenTree(th, t1, root, declared).Ok? && OpenTree(th, t2, root, declared).Ok?
    ensures OpenTree(th, t1, root, declared) == OpenTree(th, t2, root, declared)
  {
    OpeningIsUnique(th, root, declared, t1[root], t2[root]);
  }

  lemma SameLeafEdges(th: TreeHash, t1: TreeMaterial, t2: TreeMaterial, entry: nat, v: ValidTime, leaf: Leaf)
    requires Collisionless(th) && LeafEdges(th, t1, entry, v, leaf).Ok? && LeafEdges(th, t2, entry, v, leaf).Ok?
    ensures LeafEdges(th, t1, entry, v, leaf) == LeafEdges(th, t2, entry, v, leaf)
  {
    var inputs := leaf.inputs.value;
    if inputs.InputSet? {
      SameTree(th, t1, t2, inputs.root.value, inputs.count.value);
    }
  }

  lemma {:induction false} SameOutputEdges(
      th: TreeHash, t1: TreeMaterial, t2: TreeMaterial, entry: nat, v: ValidTime, leaves: seq<Leaf>, n: nat)
    requires Collisionless(th) && n <= |leaves|
    requires OutputEdges(th, t1, entry, v, leaves, n).Ok? && OutputEdges(th, t2, entry, v, leaves, n).Ok?
    ensures OutputEdges(th, t1, entry, v, leaves, n) == OutputEdges(th, t2, entry, v, leaves, n)
    decreases n
  {
    if n > 0 {
      SameOutputEdges(th, t1, t2, entry, v, leaves, n - 1);
      SameLeafEdges(th, t1, t2, entry, v, leaves[n - 1]);
    }
  }

  lemma SameEntryEdges(th: TreeHash, t1: TreeMaterial, t2: TreeMaterial, entry: nat, env: Envelope)
    requires Collisionless(th) && EntryEdges(th, t1, entry, env).Ok? && EntryEdges(th, t2, entry, env).Ok?
    ensures EntryEdges(th, t1, entry, env) == EntryEdges(th, t2, entry, env)
  {
    if env.payload.Some? && env.payload.value.kind == Derivation {
      var p := env.payload.value;
      if p.outputsRoot.Some? {
        SameTree(th, t1, t2, p.outputsRoot.value, p.outputsCount.value);
      }
      var leaves := DerivationLeaves(th, t1, p).value;
      SameOutputEdges(th, t1, t2, entry, p.validTime.value, leaves, |leaves|);
    }
  }

  lemma {:induction false} SameLogEdges(th: TreeHash, t1: TreeMaterial, t2: TreeMaterial, log: seq<Envelope>, n: nat)
    requires Collisionless(th) && n <= |log|
    requires LogEdges(th, t1, log, n).Ok? && LogEdges(th, t2, log, n).Ok?
    ensures LogEdges(th, t1, log, n) == LogEdges(th, t2, log, n)
    decreases n
  {
    if n > 0 {
      SameLogEdges(th, t1, t2, log, n - 1);
      SameEntryEdges(th, t1, t2, n - 1, log[n - 1]);
    }
  }

  /** Whatever untrusted leaves are supplied, a closure that is computed at all is the same closure. */
  lemma MaterialIsIrrelevant(
      th: TreeHash, log: seq<Envelope>, t1: TreeMaterial, t2: TreeMaterial, trigger: nat, throughSize: nat)
    requires Collisionless(th)
    requires ClosureOf(th, log, t1, trigger, throughSize).Ok? && ClosureOf(th, log, t2, trigger, throughSize).Ok?
    ensures ClosureOf(th, log, t1, trigger, throughSize) == ClosureOf(th, log, t2, trigger, throughSize)
  {
    SameLogEdges(th, t1, t2, log, Through(log, throughSize));
  }

  // ---------------------------------------------------------------------------
  // Change
  // ---------------------------------------------------------------------------

  /** Every in-scope hop of the first is one of the second. */
  ghost predicate FewerHops(e1: seq<Edge>, s1: Scope, e2: seq<Edge>, s2: Scope) {
    forall e :: e in e1 && Covers(s1, e.validTime) ==> e in e2 && Covers(s2, e.validTime)
  }

  /** More edges, a wider scope and more seeds never shrink what is seeded or reached. */
  lemma ClosureGrows(e1: seq<Edge>, s1: Scope, seeds1: set<RecordRef>, e2: seq<Edge>, s2: Scope, seeds2: set<RecordRef>)
    requires FewerHops(e1, s1, e2, s2) && seeds1 <= seeds2
    ensures seeds1 + ReachedSet(e1, s1, seeds1) <= seeds2 + ReachedSet(e2, s2, seeds2)
  {
    var s := seeds2 + ReachedSet(e2, s2, seeds2);
    ReachedIsClosed(e2, s2, seeds2);
    assert Closed(e1, s1, s);
    ClosedHoldsReached(e1, s1, seeds1, s);
  }

  /** Added edges change nothing exactly when none of them leads, in scope, out of what was already covered. */
  lemma AdditionsIrrelevantIff(edges: seq<Edge>, added: seq<Edge>, scope: Scope, seeds: set<RecordRef>)
    ensures ReachedSet(edges + added, scope, seeds) == ReachedSet(edges, scope, seeds) <==>
              Closed(added, scope, seeds + ReachedSet(edges, scope, seeds))
  {
    var covered := seeds + ReachedSet(edges, scope, seeds);
    ReachedIsClosed(edges, scope, seeds);
    ReachedIsClosed(edges + added, scope, seeds);
    if ReachedSet(edges + added, scope, seeds) == ReachedSet(edges, scope, seeds) {
      forall e | e in added && Covers(scope, e.validTime) && e.input in covered ensures e.output in covered {
        assert e in edges + added;
      }
    }
    if Closed(added, scope, covered) {
      assert Closed(edges + added, scope, covered);
      ClosedHoldsReached(edges + added, scope, seeds, covered);
      assert FewerHops(edges, scope, edges + added, scope);
      ClosureGrows(edges, scope, seeds, edges + added, scope, seeds);
    }
  }

  /** A longer prefix records the shorter one's edges and then its own. */
  lemma {:induction false} LogEdgesExtend(th: TreeHash, trees: TreeMaterial, log: seq<Envelope>, m: nat, n: nat)
    returns (added: seq<Edge>)
    requires m <= n <= |log| && LogEdges(th, trees, log, n).Ok?
    ensures LogEdges(th, trees, log, m).Ok?
    ensures LogEdges(th, trees, log, n).value == LogEdges(th, trees, log, m).value + added
    decreases n
  {
    if m == n {
      added := [];
    } else {
      var below := LogEdgesExtend(th, trees, log, m, n - 1);
      added := below + EntryEdges(th, trees, n - 1, log[n - 1]).value;
    }
  }

  /** Evaluating a trigger later never shrinks what it seeds or reaches. */
  lemma LongerPrefixGrows(th: TreeHash, log: seq<Envelope>, trees: TreeMaterial, trigger: nat, m: nat, n: nat)
    requires m <= n && ClosureOf(th, log, trees, trigger, n).Ok?
    ensures ClosureOf(th, log, trees, trigger, m).Ok?
    ensures var (early, late) :=
        (ClosureOf(th, log, trees, trigger, m).value, ClosureOf(th, log, trees, trigger, n).value);
      early.seeds == late.seeds && early.affected <= late.affected
  {
    var added := LogEdgesExtend(th, trees, log, Through(log, m), Through(log, n));
    var scope, seeds := log[trigger].payload.value.scope.value, Seeds(log, trigger).value;
    var edges := LogEdges(th, trees, log, Through(log, m)).value;
    ClosureGrows(edges, scope, seeds, edges + added, scope, seeds);
    assert ReachedSet(edges, scope, seeds) !! seeds;
  }

  // ---------------------------------------------------------------------------
  // Supersession
  // ---------------------------------------------------------------------------

  predicate IsCorrectionOf(log: seq<Envelope>, i: nat, dataset: string, record: string) {
    i < |log| && Corrects(log[i], dataset, record)
  }

  /**
   * A later correction of one record takes over every seed of an earlier one exactly when the
   * record it introduces is not among the replacements the earlier one seeded.
   */
  lemma SeedsSupersededIff(log: seq<Envelope>, early: nat, late: nat, dataset: string, record: string)
    requires early < late && IsCorrectionOf(log, early, dataset, record) && IsCorrectionOf(log, late, dataset, record)
    ensures Seeds(log, early).Ok? && Seeds(log, late).Ok?
    ensures Seeds(log, early).value <= Seeds(log, late).value <==>
      var own := log[late].payload.value.replacement;
      own.None? || own.value == record || (dataset, own.value) !in Seeds(log, early).value
  {
    var own1, own2 := log[early].payload.value.replacement, log[late].payload.value.replacement;
    var prior1, prior2 := Superseded(log, early, dataset, record, own1), Superseded(log, late, dataset, record, own2);
    assert Seeds(log, early).value == {(dataset, record)} + prior1;
    assert Seeds(log, late).value == {(dataset, record)} + prior2;
    if own2.None? || own2.value == record || (dataset, own2.value) !in Seeds(log, early).value {
      forall r | r in prior1 ensures r in {(dataset, record)} + prior2 {
        var i :| 0 <= i < early && Corrects(log[i], dataset, record) && log[i].payload.value.replacement.Some?
          && log[i].payload.value.replacement != own1 && r == (dataset, log[i].payload.value.replacement.value);
        if log[i].payload.value.replacement == own2 {
          assert r == (dataset, own2.value);
        }
      }
    } else {
      assert (dataset, own2.value) !in prior2;
    }
  }

  /** Whether the record a correction introduces is no seed of an earlier correction, or is seeded all the same. */
  predicate OwnIsNoSeed(log: seq<Envelope>, early: nat, late: nat, dataset: string, record: string)
    requires early < late && IsCorrectionOf(log, early, dataset, record) && IsCorrectionOf(log, late, dataset, record)
  {
    var own := log[late].payload.value.replacement;
    own.None? || own.value == record || (dataset, own.value) !in Seeds(log, early).value
  }

  /**
   * A later correction under no narrower a scope covers everything the earlier one seeded or reached exactly
   * when its own replacement was no seed of the earlier one, or is itself reached from the later one's seeds.
   */
  lemma LaterCorrectionCoversIff(
      th: TreeHash, log: seq<Envelope>, trees: TreeMaterial, early: nat, late: nat, dataset: string, record: string,
      m: nat, n: nat)
    requires early < late && IsCorrectionOf(log, early, dataset, record) && IsCorrectionOf(log, late, dataset, record)
    requires m <= n && ClosureOf(th, log, trees, early, m).Ok? && ClosureOf(th, log, trees, late, n).Ok?
    requires var (s1, s2) := (log[early].payload.value.scope.value, log[late].payload.value.scope.value);
      s2.retroactive || (!s1.retroactive && s2.effectiveFrom <= s1.effectiveFrom)
    ensures var (c1, c2) := (ClosureOf(th, log, trees, early, m).value, ClosureOf(th, log, trees, late, n).value);
      c1.seeds + c1.affected <= c2.seeds + c2.affected <==>
        || OwnIsNoSeed(log, early, late, dataset, record)
        || Reached(LogEdges(th, trees, log, Through(log, n)).value, log[late].payload.value.scope.value, c2.seeds,
             (dataset, log[late].payload.value.replacement.value))
  {
    var (s1, s2) := (log[early].payload.value.scope.value, log[late].payload.value.scope.value);
    var (seeds1, seeds2) := (Seeds(log, early).value, Seeds(log, late).value);
    WiderIff(s1, s2);
    var added := LogEdgesExtend(th, trees, log, Through(log, m), Through(log, n));
    var edges := LogEdges(th, trees, log, Through(log, m)).value;
    SeedsSupersededIff(log, early, late, dataset, record);
    CoversIffSeedsDo(edges, s1, seeds1, edges + added, s2, seeds2);
  }

  /** Everything seeded or reached is covered exactly when the seeds are. */
  lemma CoversIffSeedsDo(
      e1: seq<Edge>, s1: Scope, seeds1: set<RecordRef>, e2: seq<Edge>, s2: Scope, seeds2: set<RecordRef>)
    requires FewerHops(e1, s1, e2, s2)
    ensures seeds1 + ReachedSet(e1, s1, seeds1) <= seeds2 + ReachedSet(e2, s2, seeds2) <==>
      forall r :: r in seeds1 ==> r in seeds2 || Reached(e2, s2, seeds2, r)
  {
    var covered := seeds2 + ReachedSet(e2, s2, seeds2);
    if seeds1 <= covered {
      ReachedIsClosed(e2, s2, seeds2);
      assert Closed(e1, s1, covered);
      ClosedHoldsReached(e1, s1, seeds1, covered);
    }
  }

  function CorrectionTo(replacement: string): Envelope {
    var p := BarePayload(Supported, Correction).(
      dataset := Some("d"), record := Some("x"), replacement := Some(replacement), scope := Ok(Scope(0, true)));
    NULL_ENTRY.(payload := Some(p))
  }

  /** Corrections of `x` to `y`, to `z` and back to `y`. */
  function RevertedLog(): seq<Envelope> {
    [CorrectionTo("y"), CorrectionTo("z"), CorrectionTo("y")]
  }

  lemma RevertedSeeds()
    ensures Seeds(RevertedLog(), 1).Ok? && ("d", "y") in Seeds(RevertedLog(), 1).value
    ensures Seeds(RevertedLog(), 2).Ok? && ("d", "y") !in Seeds(RevertedLog(), 2).value
  {
    var log := RevertedLog();
    assert "y"[0] != "z"[0] && "x"[0] != "y"[0];
    assert Corrects(log[0], "d", "x") && log[0].payload.value.replacement == Some("y");
    assert ("d", "y") in Superseded(log, 1, "d", "x", Some("z"));
    assert ("d", "y") !in Superseded(log, 2, "d", "x", Some("y"));
  }

  /** Coverage can fail: where a correction reverts an earlier one, it leaves out what it goes back to. */
  lemma RevertingCorrectionUncovers(th: TreeHash)
    ensures var log := RevertedLog();
      && IsCorrectionOf(log, 1, "d", "x") && IsCorrectionOf(log, 2, "d", "x")
      && log[1].payload.value.scope == log[2].payload.value.scope
      && ClosureOf(th, log, map[], 1, 3).Ok? && ClosureOf(th, log, map[], 2, 3).Ok?
      && var (c1, c2) := (ClosureOf(th, log, map[], 1, 3).value, ClosureOf(th, log, map[], 2, 3).value);
         ("d", "y") in c1.seeds && ("d", "y") !in c2.seeds + c2.affected
  {
    var log, scope := RevertedLog(), Scope(0, true);
    RevertedSeeds();
    NoDerivationNoEdge(th, map[], log, 3);
    if Reached([], scope, Seeds(log, 2).value, ("d", "y")) {
      ReachedIsOutput([], scope, Seeds(log, 2).value, ("d", "y"));
    }
  }

  lemma {:induction false} NoDerivationNoEdge(th: TreeHash, trees: TreeMaterial, log: seq<Envelope>, n: nat)
    requires n <= |log| && forall env :: env in log ==> env.payload.None? || env.payload.value.kind != Derivation
    ensures LogEdges(th, trees, log, n) == Ok([])
  {
    if n > 0 {
      assert log[n - 1] in log;
      NoDerivationNoEdge(th, trees, log, n - 1);
      var none: seq<Edge> := [];
      assert none + none == none;
    }
  }
}
