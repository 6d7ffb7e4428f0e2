/** The revocation closure of a trigger over an anchored statement log. */
module Closure {
  import opened Basics
  import opened CommittedTree
  import opened Envelopes

  // ---------------------------------------------------------------------------
  // Statements
  // ---------------------------------------------------------------------------

  type RecordRef = (string, string)

  /** Whether a valid time reaches into `[effectiveFrom, oo)`. */
  predicate IntersectsRay(v: ValidTime, effectiveFrom: int) {
    match v
    case Point(at) => at >= effectiveFrom
    case Interval(_, to) => to.None? || to.value >= effectiveFrom
  }

  predicate Covers(scope: Scope, v: ValidTime) {
    scope.retroactive || IntersectsRay(v, scope.effectiveFrom)
  }

  /** The instants a valid time holds at; an interval may have been written with its end before its beginning. */
  predicate HoldsAt(v: ValidTime, at: int) {
    match v
    case Point(t) => at == t
    case Interval(from, to) => from <= at && (to.None? || at <= to.value)
  }

  predicate Inverted(v: ValidTime) {
    v.Interval? && v.to.Some? && v.to.value < v.from
  }

  /**
   * A scope covers what holds at some instant from its beginning on, everything where it is retroactive, and an
   * inverted interval, which holds at no instant, by its end.
   */
  lemma CoversIff(scope: Scope, v: ValidTime)
    ensures Covers(scope, v) <==>
      || scope.retroactive
      || (exists at :: at >= scope.effectiveFrom && HoldsAt(v, at))
      || (Inverted(v) && v.to.value >= scope.effectiveFrom)
  {
    var last := match v
      case Point(t) => t
      case Interval(from, to) =>
        if to.Some? then to.value else if from > scope.effectiveFrom then from else scope.effectiveFrom;
    if Covers(scope, v) && !scope.retroactive && !Inverted(v) {
      assert HoldsAt(v, last);
    }
  }

  /** One scope takes in everything another does exactly when it is retroactive, or starts no later. */
  lemma WiderIff(narrow: Scope, wide: Scope)
    ensures (forall v :: Covers(narrow, v) ==> Covers(wide, v))
      <==> wide.retroactive || (!narrow.retroactive && wide.effectiveFrom <= narrow.effectiveFrom)
  {
    assert Covers(narrow, Point(narrow.effectiveFrom));
    if narrow.retroactive {
      assert Covers(narrow, Point(wide.effectiveFrom - 1));
    }
  }

  /** Untrusted leaf material: a claimed leaf list for each tree root. */
  type TreeMaterial = map<string, seq<Leaf>>

  datatype Edge = Edge(entryIndex: nat, validTime: ValidTime, input: RecordRef, output: RecordRef)

  datatype Closure = Closure(seeds: set<RecordRef>, affected: set<RecordRef>)

  // ---------------------------------------------------------------------------
  // Edges
  // ---------------------------------------------------------------------------

  function RecordOf(leaf: Leaf): Result<RecordRef, AhlError> {
    if leaf.dataset.None? then Err(Field("dataset"))
    else if leaf.record.None? then Err(Field("record"))
    else Ok((leaf.dataset.value, leaf.record.value))
  }

  function OpenTree(th: TreeHash, trees: TreeMaterial, root: string, declared: u64): Result<seq<Leaf>, AhlError> {
    if root !in trees then Err(MissingTreeMaterial(root))
    else
      var opening := OpenResult(th, root, declared, trees[root]);
      if opening.Err? then Err(opening.error) else Ok(opening.value.leaves)
  }

  function ResolveInputs(th: TreeHash, trees: TreeMaterial, inputs: Inputs): Result<seq<Leaf>, AhlError> {
    match inputs
    case Listed(members) => Ok(members)
    case InputSet(root, count) =>
      if root.None? then Err(Field("input_set_root"))
      else if count.None? then Err(Field("input_set_count"))
      else OpenTree(th, trees, root.value, count.value)
  }

  /**
   * A derivation's outputs as leaves `{dataset, record, inputs}`: committed ones opening, inline ones sharing the
   * inputs.
   */
  function DerivationLeaves(th: TreeHash, trees: TreeMaterial, p: Payload): Result<seq<Leaf>, AhlError> {
    if p.outputsRoot.Some? then
      if p.outputsCount.None? then Err(Field("outputs_count"))
      else OpenTree(th, trees, p.outputsRoot.value, p.outputsCount.value)
    else if p.inputs.None? then Err(Field("inputs"))
    else if p.outputs.None? then Err(Field("outputs"))
    else
      var outputs := p.outputs.value;
      Ok(seq(|outputs|, i requires 0 <= i < |outputs| => Leaf(outputs[i].dataset, outputs[i].record, p.inputs, "")))
  }

  /** The edges from the first `n` inputs of one output. */
  function InputEdges(entry: nat, v: ValidTime, output: RecordRef, inputs: seq<Leaf>, n: nat)
    : Result<seq<Edge>, AhlError>
    requires n <= |inputs|
  {
    if n == 0 then Ok([])
    else
      var earlier := InputEdges(entry, v, output, inputs, n - 1);
      if earlier.Err? then earlier else
      var input := RecordOf(inputs[n - 1]);
      if input.Err? then Err(input.error) else Ok(earlier.value + [Edge(entry, v, input.value, output)])
  }

  /** The edges one output leaf records. */
  function LeafEdges(th: TreeHash, trees: TreeMaterial, entry: nat, v: ValidTime, leaf: Leaf)
    : Result<seq<Edge>, AhlError>
  {
    var output := RecordOf(leaf);
    if output.Err? then Err(output.error)
    else if leaf.inputs.None? then Err(Field("inputs"))
    else
      var inputs := ResolveInputs(th, trees, leaf.inputs.value);
      if inputs.Err? then Err(inputs.error) else InputEdges(entry, v, output.value, inputs.value, |inputs.value|)
  }

  /** The edges of the first `n` outputs of one derivation. */
  function OutputEdges(th: TreeHash, trees: TreeMaterial, entry: nat, v: ValidTime, leaves: seq<Leaf>, n: nat)
    : Result<seq<Edge>, AhlError>
    requires n <= |leaves|
  {
    if n == 0 then Ok([])
    else
      var earlier := OutputEdges(th, trees, entry, v, leaves, n - 1);
      if earlier.Err? then earlier else
      var edges := LeafEdges(th, trees, entry, v, leaves[n - 1]);
      if edges.Err? then edges else Ok(earlier.value + edges.value)
  }

  /** The edges one log entry records: none unless it is a derivation. */
  function EntryEdges(th: TreeHash, trees: TreeMaterial, entry: nat, env: Envelope): Result<seq<Edge>, AhlError> {
    if env.payload.None? || env.payload.value.kind != Derivation then Ok([])
    else if env.payload.value.validTime.Err? then Err(env.payload.value.validTime.error)
    else
      var leaves := DerivationLeaves(th, trees, env.payload.value);
      if leaves.Err? then Err(leaves.error)
      else OutputEdges(th, trees, entry, env.payload.value.validTime.value, leaves.value, |leaves.value|)
  }

  /** The edges of the first `n` log entries. */
  function LogEdges(th: TreeHash, trees: TreeMaterial, log: seq<Envelope>, n: nat): Result<seq<Edge>, AhlError>
    requires n <= |log|
  {
    if n == 0 then Ok([])
    else
      var earlier := LogEdges(th, trees, log, n - 1);
      if earlier.Err? then earlier else
      var edges := EntryEdges(th, trees, n - 1, log[n - 1]);
      if edges.Err? then edges else Ok(earlier.value + edges.value)
  }

  function Through(log: seq<Envelope>, throughSize: nat): (n: nat)
    ensures n <= |log|
  {
    if throughSize < |log| then throughSize else |log|
  }

  lemma {:induction false} InputErrorSticks(
      entry: nat, v: ValidTime, output: RecordRef, inputs: seq<Leaf>, m: nat, n: nat)
    requires m <= n <= |inputs| && InputEdges(entry, v, output, inputs, m).Err?
    ensures InputEdges(entry, v, output, inputs, n) == InputEdges(entry, v, output, inputs, m)
    decreases n
  {
    if m < n {
      InputErrorSticks(entry, v, output, inputs, m, n - 1);
    }
  }

  lemma {:induction false} OutputErrorSticks(
      th: TreeHash, trees: TreeMaterial, entry: nat, v: ValidTime, leaves: seq<Leaf>, m: nat, n: nat)
    requires m <= n <= |leaves| && OutputEdges(th, trees, entry, v, leaves, m).Err?
    ensures OutputEdges(th, trees, entry, v, leaves, n) == OutputEdges(th, trees, entry, v, leaves, m)
    decreases n
  {
    if m < n {
      OutputErrorSticks(th, trees, entry, v, leaves, m, n - 1);
    }
  }

  lemma {:induction false} LogErrorSticks(th: TreeHash, trees: TreeMaterial, log: seq<Envelope>, m: nat, n: nat)
    requires m <= n <= |log| && LogEdges(th, trees, log, m).Err?
    ensures LogEdges(th, trees, log, n) == LogEdges(th, trees, log, m)
    decreases n
  {
    if m < n {
      LogErrorSticks(th, trees, log, m, n - 1);
    }
  }

  method Edges(th: TreeHash, log: seq<Envelope>, trees: TreeMaterial, throughSize: nat)
    returns (r: Result<seq<Edge>, AhlError>)
    ensures r == LogEdges(th, trees, log, Through(log, throughSize))
  {
    var out: seq<Edge> := [];
    for entry := 0 to Through(log, throughSize)
      invariant LogEdges(th, trees, log, entry) == Ok(out)
    {
      var edges := EdgesOfEntry(th, trees, entry, log[entry]);
      if edges.Err? {
        LogErrorSticks(th, trees, log, entry + 1, Through(log, throughSize));
        return edges;
      }
      out := out + edges.value;
    }
    return Ok(out);
  }

  method EdgesOfEntry(th: TreeHash, trees: TreeMaterial, entry: nat, env: Envelope)
    returns (r: Result<seq<Edge>, AhlError>)
    ensures r == EntryEdges(th, trees, entry, env)
  {
    if env.payload.None? || env.payload.value.kind != Derivation {
      return Ok([]);
    }
    if env.payload.value.validTime.Err? {
      return Err(env.payload.value.validTime.error);
    }
    var v := env.payload.value.validTime.value;
    var leaves := DerivationLeaves(th, trees, env.payload.value);
    if leaves.Err? {
      return Err(leaves.error);
    }
    var out: seq<Edge> := [];
    for i := 0 to |leaves.value|
      invariant OutputEdges(th, trees, entry, v, leaves.value, i) == Ok(out)
    {
      var edges := EdgesOfLeaf(th, trees, entry, v, leaves.value[i]);
      if edges.Err? {
        OutputErrorSticks(th, trees, entry, v, leaves.value, i + 1, |leaves.value|);
        return edges;
      }
      out := out + edges.value;
    }
    return Ok(out);
  }

  method EdgesOfLeaf(th: TreeHash, trees: TreeMaterial, entry: nat, v: ValidTime, leaf: Leaf)
    returns (r: Result<seq<Edge>, AhlError>)
    ensures r == LeafEdges(th, trees, entry, v, leaf)
  {
    var output := RecordOf(leaf);
    if output.Err? {
      return Err(output.error);
    }
    if leaf.inputs.None? {
      return Err(Field("inputs"));
    }
    var inputs := ResolveInputs(th, trees, leaf.inputs.value);
    if inputs.Err? {
      return Err(inputs.error);
    }
    var out: seq<Edge> := [];
    for i := 0 to |inputs.value|
      invariant InputEdges(entry, v, output.value, inputs.value, i) == Ok(out)
    {
      var input := RecordOf(inputs.value[i]);
      if input.Err? {
        InputErrorSticks(entry, v, output.value, inputs.value, i + 1, |inputs.value|);
        return Err(input.error);
      }
      out := out + [Edge(entry, v, input.value, output.value)];
    }
    return Ok(out);
  }

  // ---------------------------------------------------------------------------
  // What the edges are
  // ---------------------------------------------------------------------------

  /** The leaf bears both members of the pair. */
  predicate Bears(leaf: Leaf, r: RecordRef) {
    leaf.dataset == Some(r.0) && leaf.record == Some(r.1)
  }

  /** Some leaf that the commitment opens to bears the pair. */
  ghost predicate Commits(th: TreeHash, trees: TreeMaterial, root: string, count: u64, r: RecordRef) {
    && root in trees && Opens(th, root, count, trees[root])
    && exists leaf :: leaf in trees[root] && Bears(leaf, r)
  }

  /** The inputs name the record, in full or through the commitment to an input set. */
  ghost predicate InputsName(th: TreeHash, trees: TreeMaterial, inputs: Inputs, r: RecordRef) {
    match inputs
    case Listed(members) => exists x :: x in members && Bears(x, r)
    case InputSet(root, count) => root.Some? && count.Some? && Commits(th, trees, root.value, count.value, r)
  }

  /** The derivation has the record among its outputs, made from these inputs. */
  ghost predicate Derives(th: TreeHash, trees: TreeMaterial, p: Payload, output: RecordRef, inputs: Inputs) {
    match p.outputsRoot
    case None =>
      p.inputs == Some(inputs) && p.outputs.Some? && exists leaf :: leaf in p.outputs.value && Bears(leaf, output)
    case Some(root) =>
      && p.outputsCount.Some? && root in trees && Opens(th, root, p.outputsCount.value, trees[root])
      && exists leaf :: leaf in trees[root] && Bears(leaf, output) && leaf.inputs == Some(inputs)
  }

  /** The entry is a derivation at the edge's time of the edge's output from inputs that name the edge's input. */
  ghost predicate Records(th: TreeHash, trees: TreeMaterial, env: Envelope, e: Edge) {
    && env.payload.Some? && env.payload.value.kind == Derivation && env.payload.value.validTime == Ok(e.validTime)
    && exists inputs ::
      Derives(th, trees, env.payload.value, e.output, inputs) && InputsName(th, trees, inputs, e.input)
  }

  lemma RecordOfBears(leaf: Leaf, r: RecordRef)
    ensures RecordOf(leaf) == Ok(r) <==> Bears(leaf, r)
    ensures RecordOf(leaf).Ok? <==> leaf.dataset.Some? && leaf.record.Some?
  {
  }

  lemma OpenTreeOpens(th: TreeHash, trees: TreeMaterial, root: string, declared: u64)
    ensures OpenTree(th, trees, root, declared).Ok? <==> root in trees && Opens(th, root, declared, trees[root])
    ensures OpenTree(th, trees, root, declared).Ok? ==> OpenTree(th, trees, root, declared).value == trees[root]
  {
    if root in trees {
      OpensIff(th, root, declared, trees[root]);
    }
  }

  lemma {:induction false} InputEdgesAre(
      entry: nat, v: ValidTime, output: RecordRef, inputs: seq<Leaf>, n: nat, e: Edge)
    requires n <= |inputs| && InputEdges(entry, v, output, inputs, n).Ok?
    ensures e in InputEdges(entry, v, output, inputs, n).value <==>
      && e.entryIndex == entry && e.validTime == v && e.output == output
      && exists k :: 0 <= k < n && Bears(inputs[k], e.input)
  {
    if n > 0 {
      InputEdgesAre(entry, v, output, inputs, n - 1, e);
      RecordOfBears(inputs[n - 1], e.input);
    }
  }

  lemma ResolvedName(th: TreeHash, trees: TreeMaterial, inputs: Inputs, r: RecordRef)
    requires ResolveInputs(th, trees, inputs).Ok?
    ensures InputsName(th, trees, inputs, r) <==>
      exists x :: x in ResolveInputs(th, trees, inputs).value && Bears(x, r)
  {
    if inputs.InputSet? {
      OpenTreeOpens(th, trees, inputs.root.value, inputs.count.value);
    }
  }

  /** What one output leaf contributes. */
  ghost predicate LeafRecords(th: TreeHash, trees: TreeMaterial, leaf: Leaf, e: Edge) {
    Bears(leaf, e.output) && leaf.inputs.Some? && InputsName(th, trees, leaf.inputs.value, e.input)
  }

  lemma LeafEdgesAre(th: TreeHash, trees: TreeMaterial, entry: nat, v: ValidTime, leaf: Leaf, e: Edge)
    requires LeafEdges(th, trees, entry, v, leaf).Ok?
    ensures e in LeafEdges(th, trees, entry, v, leaf).value <==>
      e.entryIndex == entry && e.validTime == v && LeafRecords(th, trees, leaf, e)
  {
    var inputs := ResolveInputs(th, trees, leaf.inputs.value).value;
    InputEdgesAre(entry, v, RecordOf(leaf).value, inputs, |inputs|, e);
    RecordOfBears(leaf, e.output);
    ResolvedName(th, trees, leaf.inputs.value, e.input);
  }

  lemma {:induction false} OutputEdgesAre(
      th: TreeHash, trees: TreeMaterial, entry: nat, v: ValidTime, leaves: seq<Leaf>, n: nat, e: Edge)
    requires n <= |leaves| && OutputEdges(th, trees, entry, v, leaves, n).Ok?
    ensures e in OutputEdges(th, trees, entry, v, leaves, n).value <==>
      && e.entryIndex == entry && e.validTime == v
      && exists k :: 0 <= k < n && LeafRecords(th, trees, leaves[k], e)
    decreases n
  {
    if n > 0 {
      OutputEdgesAre(th, trees, entry, v, leaves, n - 1, e);
      LeafEdgesAre(th, trees, entry, v, leaves[n - 1], e);
    }
  }

  /** The leaves a derivation is read as record what its payload states. */
  lemma LeavesRecord(th: TreeHash, trees: TreeMaterial, p: Payload, e: Edge)
    requires DerivationLeaves(th, trees, p).Ok?
    ensures (exists leaf :: leaf in DerivationLeaves(th, trees, p).value && LeafRecords(th, trees, leaf, e)) <==>
      exists inputs :: Derives(th, trees, p, e.output, inputs) && InputsName(th, trees, inputs, e.input)
  {
    var leaves := DerivationLeaves(th, trees, p).value;
    if p.outputsRoot.Some? {
      OpenTreeOpens(th, trees, p.outputsRoot.value, p.outputsCount.value);
      if leaf :| leaf in leaves && LeafRecords(th, trees, leaf, e) {
        assert Derives(th, trees, p, e.output, leaf.inputs.value);
      }
    } else {
      InlineLeavesRecord(th, trees, p, e);
    }
  }

  lemma InlineLeavesRecord(th: TreeHash, trees: TreeMaterial, p: Payload, e: Edge)
    requires DerivationLeaves(th, trees, p).Ok? && p.outputsRoot.None?
    ensures (exists leaf :: leaf in DerivationLeaves(th, trees, p).value && LeafRecords(th, trees, leaf, e)) <==>
      exists inputs :: Derives(th, trees, p, e.output, inputs) && InputsName(th, trees, inputs, e.input)
  {
    var (leaves, outputs) := (DerivationLeaves(th, trees, p).value, p.outputs.value);
    if leaf :| leaf in leaves && LeafRecords(th, trees, leaf, e) {
      var k :| 0 <= k < |leaves| && leaves[k] == leaf;
      assert Bears(outputs[k], e.output);
      assert Derives(th, trees, p, e.output, p.inputs.value);
    }
    if inputs :| Derives(th, trees, p, e.output, inputs) && InputsName(th, trees, inputs, e.input) {
      var output :| output in outputs && Bears(output, e.output);
      var k :| 0 <= k < |outputs| && outputs[k] == output;
      assert LeafRecords(th, trees, leaves[k], e) && leaves[k] in leaves;
    }
  }

  lemma EntryEdgesAre(th: TreeHash, trees: TreeMaterial, entry: nat, env: Envelope, e: Edge)
    requires EntryEdges(th, trees, entry, env).Ok?
    ensures e in EntryEdges(th, trees, entry, env).value <==> e.entryIndex == entry && Records(th, trees, env, e)
  {
    if env.payload.Some? && env.payload.value.kind == Derivation {
      var leaves := DerivationLeaves(th, trees, env.payload.value).value;
      OutputEdgesAre(th, trees, entry, env.payload.value.validTime.value, leaves, |leaves|, e);
      LeavesRecord(th, trees, env.payload.value, e);
    }
  }

  /** The edges of a prefix, said without the loops: exactly what its entries state. */
  lemma {:induction false} LogEdgesAre(th: TreeHash, trees: TreeMaterial, log: seq<Envelope>, n: nat, e: Edge)
    requires n <= |log| && LogEdges(th, trees, log, n).Ok?
    ensures e in LogEdges(th, trees, log, n).value <==>
      e.entryIndex < n && Records(th, trees, log[e.entryIndex], e)
    decreases n
  {
    if n > 0 {
      LogEdgesAre(th, trees, log, n - 1, e);
      EntryEdgesAre(th, trees, n - 1, log[n - 1], e);
    }
  }

  /** Every input can be read: it is listed with both members, or its commitment opens to leaves that have them. */
  ghost predicate InputsRead(th: TreeHash, trees: TreeMaterial, inputs: Inputs) {
    match inputs
    case Listed(members) => forall x :: x in members ==> x.dataset.Some? && x.record.Some?
    case InputSet(root, count) =>
      && root.Some? && count.Some? && root.value in trees && Opens(th, root.value, count.value, trees[root.value])
      && forall x :: x in trees[root.value] ==> x.dataset.Some? && x.record.Some?
  }

  /** A derivation that can be read: its time, its outputs, and the inputs of each output. */
  ghost predicate DerivationReads(th: TreeHash, trees: TreeMaterial, p: Payload) {
    && p.validTime.Ok?
    && match p.outputsRoot
      case None =>
        && p.inputs.Some? && p.outputs.Some?
        && forall x :: x in p.outputs.value ==>
          x.dataset.Some? && x.record.Some? && InputsRead(th, trees, p.inputs.value)
      case Some(root) =>
        && p.outputsCount.Some? && root in trees && Opens(th, root, p.outputsCount.value, trees[root])
        && forall x :: x in trees[root] ==>
          x.dataset.Some? && x.record.Some? && x.inputs.Some? && InputsRead(th, trees, x.inputs.value)
  }

  lemma {:induction false} InputEdgesReadIff(entry: nat, v: ValidTime, output: RecordRef, inputs: seq<Leaf>, n: nat)
    requires n <= |inputs|
    ensures InputEdges(entry, v, output, inputs, n).Ok? <==>
      forall k :: 0 <= k < n ==> inputs[k].dataset.Some? && inputs[k].record.Some?
  {
    if n > 0 {
      InputEdgesReadIff(entry, v, output, inputs, n - 1);
    }
  }

  lemma LeafEdgesReadIff(th: TreeHash, trees: TreeMaterial, entry: nat, v: ValidTime, leaf: Leaf)
    ensures LeafEdges(th, trees, entry, v, leaf).Ok? <==>
      leaf.dataset.Some? && leaf.record.Some? && leaf.inputs.Some? && InputsRead(th, trees, leaf.inputs.value)
  {
    if leaf.inputs.Some? {
      var inputs := leaf.inputs.value;
      if inputs.InputSet? && inputs.root.Some? && inputs.count.Some? {
        OpenTreeOpens(th, trees, inputs.root.value, inputs.count.value);
      }
      var resolved := ResolveInputs(th, trees, inputs);
      if resolved.Ok? && RecordOf(leaf).Ok? {
        InputEdgesReadIff(entry, v, RecordOf(leaf).value, resolved.value, |resolved.value|);
      }
    }
  }

  lemma {:induction false} OutputEdgesReadIff(
      th: TreeHash, trees: TreeMaterial, entry: nat, v: ValidTime, leaves: seq<Leaf>, n: nat)
    requires n <= |leaves|
    ensures OutputEdges(th, trees, entry, v, leaves, n).Ok? <==>
      forall k :: 0 <= k < n ==> LeafEdges(th, trees, entry, v, leaves[k]).Ok?
    decreases n
  {
    if n > 0 {
      OutputEdgesReadIff(th, trees, entry, v, leaves, n - 1);
    }
  }

  /** The leaf and its inputs can be read. */
  ghost predicate LeafReads(th: TreeHash, trees: TreeMaterial, leaf: Leaf) {
    leaf.dataset.Some? && leaf.record.Some? && leaf.inputs.Some? && InputsRead(th, trees, leaf.inputs.value)
  }

  lemma InlineLeavesReadIff(th: TreeHash, trees: TreeMaterial, p: Payload)
    requires p.validTime.Ok? && p.outputsRoot.None? && DerivationLeaves(th, trees, p).Ok?
    ensures var leaves := DerivationLeaves(th, trees, p).value;
      (forall k :: 0 <= k < |leaves| ==> LeafReads(th, trees, leaves[k])) <==> DerivationReads(th, trees, p)
  {
    var (leaves, outputs) := (DerivationLeaves(th, trees, p).value, p.outputs.value);
    if forall k :: 0 <= k < |leaves| ==> LeafReads(th, trees, leaves[k]) {
      forall x | x in outputs
        ensures x.dataset.Some? && x.record.Some? && InputsRead(th, trees, p.inputs.value)
      {
        var k :| 0 <= k < |outputs| && outputs[k] == x;
        assert LeafReads(th, trees, leaves[k]);
      }
    }
    if DerivationReads(th, trees, p) {
      forall k | 0 <= k < |leaves| ensures LeafReads(th, trees, leaves[k]) {
        assert outputs[k] in outputs;
      }
    }
  }

  lemma CommittedLeavesReadIff(th: TreeHash, trees: TreeMaterial, p: Payload)
    requires p.validTime.Ok? && p.outputsRoot.Some? && DerivationLeaves(th, trees, p).Ok?
    ensures var leaves := DerivationLeaves(th, trees, p).value;
      (forall k :: 0 <= k < |leaves| ==> LeafReads(th, trees, leaves[k])) <==> DerivationReads(th, trees, p)
  {
    OpenTreeOpens(th, trees, p.outputsRoot.value, p.outputsCount.value);
    var leaves := DerivationLeaves(th, trees, p).value;
    if DerivationReads(th, trees, p) {
      forall k | 0 <= k < |leaves| ensures LeafReads(th, trees, leaves[k]) {
        assert leaves[k] in trees[p.outputsRoot.value];
      }
    }
  }

  lemma EntryEdgesReadIff(th: TreeHash, trees: TreeMaterial, entry: nat, env: Envelope)
    requires env.payload.Some? && env.payload.value.kind == Derivation
    ensures EntryEdges(th, trees, entry, env).Ok? <==> DerivationReads(th, trees, env.payload.value)
  {
    var p := env.payload.value;
    if p.outputsRoot.Some? && p.outputsCount.Some? {
      OpenTreeOpens(th, trees, p.outputsRoot.value, p.outputsCount.value);
    }
    if p.validTime.Ok? && DerivationLeaves(th, trees, p).Ok? {
      var leaves := DerivationLeaves(th, trees, p).value;
      OutputEdgesReadIff(th, trees, entry, p.validTime.value, leaves, |leaves|);
      forall k | 0 <= k < |leaves|
        ensures LeafEdges(th, trees, entry, p.validTime.value, leaves[k]).Ok? <==> LeafReads(th, trees, leaves[k])
      {
        LeafEdgesReadIff(th, trees, entry, p.validTime.value, leaves[k]);
      }
      if p.outputsRoot.None? {
        InlineLeavesReadIff(th, trees, p);
      } else {
        CommittedLeavesReadIff(th, trees, p);
      }
    }
  }

  /** The edges of a prefix can be read exactly where each of its derivations can. */
  lemma {:induction false} LogEdgesReadIff(th: TreeHash, trees: TreeMaterial, log: seq<Envelope>, n: nat)
    requires n <= |log|
    ensures LogEdges(th, trees, log, n).Ok? <==>
      forall i :: 0 <= i < n && log[i].payload.Some? && log[i].payload.value.kind == Derivation ==>
        DerivationReads(th, trees, log[i].payload.value)
    decreases n
  {
    if n > 0 {
      LogEdgesReadIff(th, trees, log, n - 1);
      if log[n - 1].payload.Some? && log[n - 1].payload.value.kind == Derivation {
        EntryEdgesReadIff(th, trees, n - 1, log[n - 1]);
      }
    }
  }

  // ---------------------------------------------------------------------------
  // Seeds
  // ---------------------------------------------------------------------------

  /** The entry is a correction of `(dataset, record)`. */
  predicate Corrects(env: Envelope, dataset: string, record: string) {
    && env.payload.Some? && env.payload.value.kind == Correction
    && env.payload.value.dataset == Some(dataset) && env.payload.value.record == Some(record)
  }

  /** The replacements that the first `n` entries' corrections of `(dataset, record)` introduced, `own` apart. */
  function Superseded(log: seq<Envelope>, n: nat, dataset: string, record: string, own: Option<string>): set<RecordRef>
    requires n <= |log|
  {
    set i | 0 <= i < n && Corrects(log[i], dataset, record)
            && log[i].payload.value.replacement.Some? && log[i].payload.value.replacement != own
      :: (dataset, log[i].payload.value.replacement.value)
  }

  /** The records traversal starts from. */
  function Seeds(log: seq<Envelope>, trigger: nat): Result<set<RecordRef>, AhlError> {
    if trigger >= |log| || log[trigger].payload.None? then Err(Field("envelope"))
    else
      var p := log[trigger].payload.value;
      if p.kind != Retraction && p.kind != Correction then Err(Field("trigger type"))
      else if p.dataset.None? then Err(Field("dataset"))
      else if p.record.None? then Err(Field("record"))
      else
        var base := {(p.dataset.value, p.record.value)};
        Ok(if p.kind == Retraction then base
           else base + Superseded(log, trigger, p.dataset.value, p.record.value, p.replacement))
  }

  method TriggerSeeds(log: seq<Envelope>, trigger: nat) returns (r: Result<set<RecordRef>, AhlError>)
    ensures r == Seeds(log, trigger)
  {
    if trigger >= |log| || log[trigger].payload.None? {
      return Err(Field("envelope"));
    }
    var p := log[trigger].payload.value;
    if p.kind != Retraction && p.kind != Correction {
      return Err(Field("trigger type"));
    }
    if p.dataset.None? {
      return Err(Field("dataset"));
    }
    if p.record.None? {
      return Err(Field("record"));
    }
    var dataset, record := p.dataset.value, p.record.value;
    var seeds := {(dataset, record)};
    if p.kind == Retraction {
      return Ok(seeds);
    }
    for i := 0 to trigger
      invariant seeds == {(dataset, record)} + Superseded(log, i, dataset, record, p.replacement)
    {
      if log[i].payload.None? || log[i].payload.value.kind != Correction {
        continue;
      }
      var earlier := log[i].payload.value;
      if earlier.dataset != Some(dataset) || earlier.record != Some(record) {
        continue;
      }
      if earlier.replacement.None? {
        continue;
      }
      if earlier.replacement != p.replacement {
        seeds := seeds + {(dataset, earlier.replacement.value)};
      }
    }
    return Ok(seeds);
  }

  /** A retraction or correction that names a record. */
  predicate IsTrigger(log: seq<Envelope>, trigger: nat) {
    && trigger < |log| && log[trigger].payload.Some?
    && log[trigger].payload.value.kind in {Retraction, Correction}
    && log[trigger].payload.value.dataset.Some? && log[trigger].payload.value.record.Some?
  }

  /** The entry corrected the same record to `r`, which the later correction does not introduce itself. */
  predicate IsSuperseded(env: Envelope, later: Payload, r: RecordRef) {
    && env.payload.Some? && env.payload.value.kind == Correction
    && env.payload.value.dataset == later.dataset == Some(r.0) && env.payload.value.record == later.record
    && env.payload.value.replacement == Some(r.1) && env.payload.value.replacement != later.replacement
  }

  /** The trigger's own record, or for a correction a replacement other than its own that an earlier one anchored. */
  ghost predicate IsSeed(log: seq<Envelope>, trigger: nat, r: RecordRef)
    requires IsTrigger(log, trigger)
  {
    var p := log[trigger].payload.value;
    || (p.dataset == Some(r.0) && p.record == Some(r.1))
    || (p.kind == Correction && exists i :: 0 <= i < trigger && IsSuperseded(log[i], p, r))
  }

  /** The seeds, said without the loop. */
  lemma SeedsAre(log: seq<Envelope>, trigger: nat)
    ensures Seeds(log, trigger).Ok? <==> IsTrigger(log, trigger)
    ensures IsTrigger(log, trigger) ==> forall r :: r in Seeds(log, trigger).value <==> IsSeed(log, trigger, r)
  {
    if IsTrigger(log, trigger) {
      var p := log[trigger].payload.value;
      forall r ensures r in Seeds(log, trigger).value <==> IsSeed(log, trigger, r) {
        if r in Superseded(log, trigger, p.dataset.value, p.record.value, p.replacement) {
          var i :| 0 <= i < trigger && Corrects(log[i], p.dataset.value, p.record.value)
            && log[i].payload.value.replacement.Some? && log[i].payload.value.replacement != p.replacement
            && r == (p.dataset.value, log[i].payload.value.replacement.value);
        }
      }
    }
  }
}
