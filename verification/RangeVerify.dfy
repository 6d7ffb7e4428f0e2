/** The range-proof operations as the program runs them, against the decomposition that specifies them. */
module RangeVerify {
  import opened Basics
  import opened Merkle
  import opened Inclusion
  import opened Sorting
  import opened RangeProof

  // ---------------------------------------------------------------------------
  // The walk over the subtrees outside the range
  // ---------------------------------------------------------------------------

  datatype Visit = Visit(offset: nat, size: nat, depth: nat)

  /** What a plan spends, left to right, with the splits taken to reach each subtree. */
  function Visits(plan: Plan, depth: nat): (visits: seq<Visit>)
    ensures |visits| == SpendCount(plan)
    decreases plan
  {
    match plan
    case Spend(offset, size) => [Visit(offset, size, depth)]
    case Rebuild(_, _) => []
    case Join(_, _, left, right) => Visits(left, depth + 1) + Visits(right, depth + 1)
  }

  /** What a plan is for a subtree of each class; where one is split, nothing on the way saturates. */
  lemma PlanCases(offset: u64, size: u64, from: u64, to: u64)
    requires offset + size < TWO_64
    ensures var (plan, class_) := (PlanFor(offset, size, from, to), Classify(offset, size, from, to));
      && (class_ == Outside ==> plan == Spend(offset, size))
      && (class_ == Inside ==> plan == Rebuild(offset, size) && from <= offset)
      && (class_ == Straddles ==>
            && 2 <= size
            && var k := SplitPoint(size);
               && SaturatingAdd(offset, k) == offset + k && SaturatingSub(size, k) == size - k
               && plan == Join(offset, size, PlanFor(offset, k, from, to), PlanFor(offset + k, size - k, from, to)))
  {
  }

  /**
   * Appends every maximal subtree outside `[from, to)`; `plan` is the subtree's decomposition. The depth bound is what
   * the caller's tree gives: a tree of 64-bit size is at most 64 levels high, so no addition here saturates.
   */
  method WalkOutside(offset: u64, size: u64, from: u64, to: u64, depth: u32, visits: seq<Visit>, ghost plan: Plan)
    returns (all: seq<Visit>)
    requires 1 <= size && offset + size < TWO_64 && plan == PlanFor(offset, size, from, to)
    requires depth + CeilLog2(size) <= 64
    ensures all == visits + Visits(plan, depth)
    decreases size
  {
    PlanCases(offset, size, from, to);
    match Classify(offset, size, from, to) {
      case Outside =>
        all := visits + [Visit(offset, size, depth)];
      case Inside =>
        all := visits;
      case Straddles =>
        var k := SplitPoint(size);
        HalvesAreLower(size);
        all := WalkOutside(offset, k, from, to, SaturatingAdd32(depth, 1), visits, plan.left);
        all := WalkOutside(
          SaturatingAdd(offset, k), SaturatingSub(size, k), from, to, SaturatingAdd32(depth, 1), all, plan.right);
    }
  }

  lemma HalvesAreLower(size: nat)
    requires size >= 2
    ensures CeilLog2(SplitPoint(size)) == CeilLog2(size) - 1
    ensures CeilLog2(size - SplitPoint(size)) <= CeilLog2(size) - 1
  {
    CeilLog2Monotone(size - SplitPoint(size), SplitPoint(size));
  }

  lemma Pow2At16()
    ensures Pow2(16) == 0x1_0000
  {
    assert Pow2(2) == 4;
    Pow2Sum(2, 2);
    Pow2Sum(4, 4);
    Pow2Sum(8, 8);
  }

  lemma Pow2At64()
    ensures Pow2(32) == TWO_32 && Pow2(33) == 2 * TWO_32 && Pow2(64) == TWO_64
  {
    Pow2At16();
    Pow2Sum(16, 16);
    Pow2Sum(32, 32);
  }

  /** A tree whose size 64 bits can hold is at most 64 levels high. */
  lemma HeightOf64BitTree(size: u64)
    requires size >= 1
    ensures CeilLog2(size) <= 64
  {
    HeightExists(size);
    if CeilLog2(size) > 64 {
      Pow2Monotone(64, CeilLog2(size) - 1);
      Pow2At64();
      assert false;
    }
  }

  // ---------------------------------------------------------------------------
  // Generation and recomputation
  // ---------------------------------------------------------------------------

  /** Builds the proof for `[from, to)`, rejecting exactly the ranges that are empty or leave the tree. */
  method Generate<H>(hs: Hashing<H>, leafHashes: seq<H>, from: u64, to: u64) returns (r: Result<RangeProof<H>, Error>)
    requires |leafHashes| < TWO_64
    ensures r.Ok? <==> from < to <= |leafHashes|
    ensures r.Ok? ==> r.value == HonestProof(hs, leafHashes, from, to)
    ensures r.Err? ==> r.error == if |leafHashes| == 0 then EmptyTree else BadRange
  {
    var treeSize: u64 := |leafHashes|;
    var range := CheckRange(treeSize, from, to);
    if range.Err? {
      return Err(range.error);
    }
    HeightOf64BitTree(treeSize);
    ghost var plan := PlanFor(0, treeSize, from, to);
    PlanIsSound(0, treeSize, from, to);
    PlanRootIsSpanRoot(hs, leafHashes, plan);
    VisitsInBounds(plan, 0, treeSize);
    var visits := WalkOutside(0, treeSize, from, to, 0, [], plan);
    assert visits == Visits(plan, 0);
    var nodes := RootsOf(hs, leafHashes, visits);
    VisitsGiveHonestNodes(hs, leafHashes, plan, 0);
    assert nodes == HonestNodes(hs, leafHashes, plan);
    return Ok(RangeProof(treeSize, from, to, nodes));
  }

  method RootsOf<H>(hs: Hashing<H>, leafHashes: seq<H>, visits: seq<Visit>) returns (nodes: seq<H>)
    requires forall v :: v in visits ==> v.offset + v.size <= |leafHashes|
    ensures |nodes| == |visits|
    ensures forall j :: 0 <= j < |visits| ==>
      visits[j] in visits && nodes[j] == SpanRoot(hs, leafHashes, visits[j].offset, visits[j].size)
  {
    nodes := [];
    for i := 0 to |visits|
      invariant |nodes| == i
      invariant forall j :: 0 <= j < i ==>
        visits[j] in visits && nodes[j] == SpanRoot(hs, leafHashes, visits[j].offset, visits[j].size)
    {
      var lo, size := visits[i].offset, visits[i].size;
      assert visits[i] in visits;
      SpanRootIsRootOfSlice(hs, leafHashes, lo, size);
      nodes := nodes + [ComputeRoot(hs, leafHashes[lo..lo + size])];
    }
  }

  lemma {:induction false} VisitsInBounds(plan: Plan, depth: nat, n: nat)
    requires InBounds(plan, n)
    ensures forall v :: v in Visits(plan, depth) ==> v.offset + v.size <= n
    decreases plan
  {
    if plan.Join? {
      VisitsInBounds(plan.left, depth + 1, n);
      VisitsInBounds(plan.right, depth + 1, n);
    }
  }

  lemma {:induction false} VisitsGiveHonestNodes<H>(hs: Hashing<H>, all: seq<H>, plan: Plan, depth: nat)
    requires InBounds(plan, |all|)
    ensures forall i :: 0 <= i < SpendCount(plan) ==>
      var v := Visits(plan, depth)[i];
      v.offset + v.size <= |all| && HonestNodes(hs, all, plan)[i] == SpanRoot(hs, all, v.offset, v.size)
    decreases plan
  {
    if plan.Join? {
      VisitsGiveHonestNodes(hs, all, plan.left, depth + 1);
      VisitsGiveHonestNodes(hs, all, plan.right, depth + 1);
    }
  }

  /** Rebuilds one subtree, advancing the cursor over the carried hashes; `plan` is the subtree's decomposition. */
  method Recompute<H>(
      hs: Hashing<H>, offset: u64, size: u64, p: RangeProof<H>, leafHashes: seq<H>, cursor: nat, ghost plan: Plan)
    returns (r: Result<H, Error>, cursor': nat)
    requires offset + size < TWO_64 && plan == PlanFor(offset, size, p.fromIndex, p.toIndex)
    ensures var spec := Recomputed(hs, p.nodes, leafHashes, p.fromIndex, plan, cursor);
      if spec.Err? then r == Err(spec.error) else r == Ok(spec.value.root) && cursor' == spec.value.cursor
    decreases size
  {
    cursor' := cursor;
    PlanCases(offset, size, p.fromIndex, p.toIndex);
    match Classify(offset, size, p.fromIndex, p.toIndex) {
      case Outside =>
        if cursor' >= |p.nodes| {
          return Err(TooFewNodes), cursor';
        }
        var node := p.nodes[cursor'];
        cursor' := cursor' + 1;
        return Ok(node), cursor';
      case Inside =>
        var lo := offset - p.fromIndex;
        var hi := lo + size;
        if hi > |leafHashes| {
          return Err(ShortLeafSet), cursor';
        }
        SpanRootIsRootOfSlice(hs, leafHashes, lo, size);
        return Ok(ComputeRoot(hs, leafHashes[lo..hi])), cursor';
      case Straddles =>
        var k := SplitPoint(size);
        var left;
        left, cursor' := Recompute(hs, offset, k, p, leafHashes, cursor', plan.left);
        if left.Err? {
          return left, cursor';
        }
        var right;
        right, cursor' :=
          Recompute(hs, SaturatingAdd(offset, k), SaturatingSub(size, k), p, leafHashes, cursor', plan.right);
        if right.Err? {
          return right, cursor';
        }
        return Ok(hs.node(left.value, right.value)), cursor';
    }
  }

  // ---------------------------------------------------------------------------
  // A single-entry range is an inclusion proof
  // ---------------------------------------------------------------------------

  type Labelled<H> = (nat, H)

  /** Deeper subtrees first: the order that turns the walk's left-to-right order into leaf-to-root. */
  function Deeper<H>(): (Labelled<H>, Labelled<H>) -> bool {
    (a: Labelled<H>, b: Labelled<H>) => a.0 > b.0
  }

  /** The plan of a one-entry range: every split has the entry on one side and one spent hash on the other. */
  predicate SingleTarget(plan: Plan, i: nat) {
    match plan
    case Spend(_, _) => false
    case Rebuild(offset, size) => offset == i && size == 1
    case Join(_, _, left, right) =>
      if i < right.offset then SingleTarget(left, i) && right.Spend? else left.Spend? && SingleTarget(right, i)
  }

  lemma {:induction false} PlanForSingle(offset: nat, size: nat, i: nat)
    requires offset <= i < offset + size < TWO_64
    ensures SingleTarget(PlanFor(offset, size, i, i + 1), i)
    decreases size
  {
    if Classify(offset, size, i, i + 1) == Straddles {
      var k := SplitPoint(size);
      if i < offset + k {
        PlanForSingle(offset, k, i);
      } else {
        PlanForSingle(offset + k, size - k, i);
      }
    }
  }

  /** The carried hashes with the depth of the subtree each stands for, in the order they are spent. */
  function Labels<H>(plan: Plan, nodes: seq<H>, cursor: nat, depth: nat): (labels: seq<Labelled<H>>)
    requires cursor + SpendCount(plan) <= |nodes|
    ensures |labels| == SpendCount(plan)
    decreases plan
  {
    match plan
    case Spend(_, _) => [(depth, nodes[cursor])]
    case Rebuild(_, _) => []
    case Join(_, _, left, right) =>
      Labels(left, nodes, cursor, depth + 1) + Labels(right, nodes, cursor + SpendCount(left), depth + 1)
  }

  lemma {:induction false} LabelsPairUp<H>(plan: Plan, nodes: seq<H>, cursor: nat, depth: nat)
    requires cursor + SpendCount(plan) <= |nodes|
    ensures forall i :: 0 <= i < SpendCount(plan) ==>
      Labels(plan, nodes, cursor, depth)[i] == (Visits(plan, depth)[i].depth, nodes[cursor + i])
    decreases plan
  {
    if plan.Join? {
      LabelsPairUp(plan.left, nodes, cursor, depth + 1);
      LabelsPairUp(plan.right, nodes, cursor + SpendCount(plan.left), depth + 1);
    }
  }

  /** The same labels leaf to root: one sibling for every split above the entry. */
  function Siblings<H>(plan: Plan, nodes: seq<H>, cursor: nat, depth: nat, i: nat): seq<Labelled<H>>
    requires SingleTarget(plan, i) && cursor + SpendCount(plan) <= |nodes|
    decreases plan
  {
    if plan.Rebuild? then []
    else if i < plan.right.offset
    then
      assert SpendCount(plan.right) == 1;
      Siblings(plan.left, nodes, cursor, depth + 1, i) + [(depth + 1, nodes[cursor + SpendCount(plan.left)])]
    else
      assert SpendCount(plan.left) == 1;
      Siblings(plan.right, nodes, cursor + 1, depth + 1, i) + [(depth + 1, nodes[cursor])]
  }

  lemma LabelsBeside<H>(plan: Plan, nodes: seq<H>, cursor: nat, depth: nat, i: nat)
    requires plan.Join? && SingleTarget(plan, i) && cursor + SpendCount(plan) <= |nodes|
    ensures var labels := Labels(plan, nodes, cursor, depth);
      if i < plan.right.offset then
        && SpendCount(plan) == SpendCount(plan.left) + 1
        && labels == Labels(plan.left, nodes, cursor, depth + 1) + [(depth + 1, nodes[cursor + SpendCount(plan.left)])]
      else
        && SpendCount(plan) == 1 + SpendCount(plan.right)
        && labels == [(depth + 1, nodes[cursor])] + Labels(plan.right, nodes, cursor + 1, depth + 1)
  {
  }

  lemma SameElements<T>(a: seq<T>, b: seq<T>, x: T)
    requires multiset(a) == multiset(b)
    ensures multiset(a + [x]) == multiset(b + [x]) == multiset([x] + b)
  {
  }

  lemma {:induction false} SiblingsAreLabels<H>(plan: Plan, nodes: seq<H>, cursor: nat, depth: nat, i: nat)
    requires SingleTarget(plan, i) && cursor + SpendCount(plan) <= |nodes|
    ensures multiset(Siblings(plan, nodes, cursor, depth, i)) == multiset(Labels(plan, nodes, cursor, depth))
    decreases plan
  {
    if plan.Join? {
      LabelsBeside(plan, nodes, cursor, depth, i);
      if i < plan.right.offset {
        SiblingsAreLabels(plan.left, nodes, cursor, depth + 1, i);
        SameElements(Siblings(plan.left, nodes, cursor, depth + 1, i), Labels(plan.left, nodes, cursor, depth + 1),
                     (depth + 1, nodes[cursor + SpendCount(plan.left)]));
      } else {
        SiblingsAreLabels(plan.right, nodes, cursor + 1, depth + 1, i);
        SameElements(
          Siblings(plan.right, nodes, cursor + 1, depth + 1, i), Labels(plan.right, nodes, cursor + 1, depth + 1),
          (depth + 1, nodes[cursor]));
      }
    }
  }

  lemma {:induction false} SiblingsRunDeepestFirst<H(!new)>(plan: Plan, nodes: seq<H>, cursor: nat, depth: nat, i: nat)
    requires SingleTarget(plan, i) && cursor + SpendCount(plan) <= |nodes|
    ensures StrictlySorted(Siblings(plan, nodes, cursor, depth, i), Deeper())
    ensures forall j :: 0 <= j < |Siblings(plan, nodes, cursor, depth, i)| ==>
      Siblings(plan, nodes, cursor, depth, i)[j].0 > depth
    decreases plan
  {
    if plan.Join? {
      if i < plan.right.offset {
        SiblingsRunDeepestFirst(plan.left, nodes, cursor, depth + 1, i);
      } else {
        SiblingsRunDeepestFirst(plan.right, nodes, cursor + 1, depth + 1, i);
      }
    }
  }

  function Hashes<H>(labels: seq<Labelled<H>>): (hashes: seq<H>)
    ensures |hashes| == |labels|
    ensures forall i :: 0 <= i < |labels| ==> hashes[i] == labels[i].1
  {
    seq(|labels|, i requires 0 <= i < |labels| => labels[i].1)
  }

  lemma HashesAppend<H>(labels: seq<Labelled<H>>, last: Labelled<H>)
    ensures Hashes(labels + [last]) == Hashes(labels) + [last.1]
  {
  }

  /** The plan rebuilds to the fold of `path` over the leaf, ending with the cursor at `end`. */
  ghost predicate RebuildsByFold<H(!new)>(
      hs: Hashing<H>, plan: Plan, nodes: seq<H>, leaf: H, i: nat, path: seq<H>, cursor: nat, end: nat)
    requires plan.offset <= i < plan.offset + plan.size
  {
    var sides := Sides(plan.size, i - plan.offset);
    |path| == |sides| && Recomputed(hs, nodes, [leaf], i, plan, cursor) == Ok(Rebuilt(Fold(hs, leaf, sides, path), end))
  }

  lemma FoldThroughLeft<H(!new)>(
      hs: Hashing<H>, plan: Plan, nodes: seq<H>, leaf: H, i: nat, below: seq<H>, cursor: nat, end: nat)
    requires plan.Join? && Splits(plan) && plan.offset <= i < plan.right.offset && plan.right.Spend? && end < |nodes|
    requires RebuildsByFold(hs, plan.left, nodes, leaf, i, below, cursor, end)
    ensures RebuildsByFold(hs, plan, nodes, leaf, i, below + [nodes[end]], cursor, end + 1)
  {
    var sides := Sides(plan.left.size, i - plan.offset);
    assert Sides(plan.size, i - plan.offset) == sides + [false];
  }

  lemma FoldThroughRight<H(!new)>(
      hs: Hashing<H>, plan: Plan, nodes: seq<H>, leaf: H, i: nat, below: seq<H>, cursor: nat, end: nat)
    requires plan.Join? && Splits(plan) && plan.right.offset <= i < plan.offset + plan.size && plan.left.Spend?
    requires cursor < |nodes| && RebuildsByFold(hs, plan.right, nodes, leaf, i, below, cursor + 1, end)
    ensures RebuildsByFold(hs, plan, nodes, leaf, i, below + [nodes[cursor]], cursor, end)
  {
    var sides := Sides(plan.right.size, i - plan.right.offset);
    assert Sides(plan.size, i - plan.offset) == sides + [true];
  }

  /** The rebuilt root is the fold of the siblings over the entry's leaf. */
  lemma {:induction false} RebuiltIsFold<H(!new)>(
      hs: Hashing<H>, plan: Plan, nodes: seq<H>, leaf: H, cursor: nat, depth: nat, i: nat)
    requires Splits(plan) && SingleTarget(plan, i) && plan.offset <= i < plan.offset + plan.size
    requires cursor + SpendCount(plan) <= |nodes|
    ensures RebuildsByFold(
      hs, plan, nodes, leaf, i, Hashes(Siblings(plan, nodes, cursor, depth, i)), cursor, cursor + SpendCount(plan))
    decreases plan
  {
    if plan.Join? {
      if i < plan.right.offset {
        var below, end := Siblings(plan.left, nodes, cursor, depth + 1, i), cursor + SpendCount(plan.left);
        RebuiltIsFold(hs, plan.left, nodes, leaf, cursor, depth + 1, i);
        FoldThroughLeft(hs, plan, nodes, leaf, i, Hashes(below), cursor, end);
        HashesAppend(below, (depth + 1, nodes[end]));
      } else {
        var below := Siblings(plan.right, nodes, cursor + 1, depth + 1, i);
        RebuiltIsFold(hs, plan.right, nodes, leaf, cursor + 1, depth + 1, i);
        FoldThroughRight(hs, plan, nodes, leaf, i, Hashes(below), cursor, cursor + SpendCount(plan));
        HashesAppend(below, (depth + 1, nodes[cursor]));
      }
    }
  }

  /** Sorted deepest first, the labels of a one-entry proof are its siblings leaf to root. */
  lemma SortedLabelsAreSiblings<H(!new)>(plan: Plan, nodes: seq<H>, i: nat)
    requires SingleTarget(plan, i) && SpendCount(plan) <= |nodes|
    ensures StableSort(Labels(plan, nodes, 0, 0), Deeper()) == Siblings(plan, nodes, 0, 0, i)
  {
    SiblingsAreLabels(plan, nodes, 0, 0, i);
    SiblingsRunDeepestFirst(plan, nodes, 0, 0, i);
    SortFindsStrictOrder(Labels(plan, nodes, 0, 0), Siblings(plan, nodes, 0, 0, i), Deeper());
  }

  /** A one-entry plan's hashes, sorted deepest first, verify as an inclusion path for the rebuilt root. */
  lemma CrossCheckAgrees<H(!new)>(hs: Hashing<H>, plan: Plan, nodes: seq<H>, leaf: H, root: H, i: nat)
    requires Splits(plan) && SingleTarget(plan, i) && plan.offset == 0 && i < plan.size && |nodes| == SpendCount(plan)
    requires Recomputed(hs, nodes, [leaf], i, plan, 0) == Ok(Rebuilt(root, |nodes|))
    ensures VerifyInclusion(hs, leaf, i, plan.size, Hashes(StableSort(Labels(plan, nodes, 0, 0), Deeper())), root)
  {
    SortedLabelsAreSiblings(plan, nodes, i);
    RebuiltIsFold(hs, plan, nodes, leaf, 0, 0, i);
    VerifiesIffFolds(hs, leaf, i, plan.size, Hashes(Siblings(plan, nodes, 0, 0, i)), root);
  }

  /** The carried hashes of a one-entry proof labelled by the walk and sorted into a leaf-to-root path. */
  method PathOfSingleEntry<H(!new)>(p: RangeProof<H>) returns (path: seq<H>)
    requires p.treeSize >= 1 && |p.nodes| == SpendCount(PlanFor(0, p.treeSize, p.fromIndex, p.toIndex))
    ensures path
      == Hashes(StableSort(Labels(PlanFor(0, p.treeSize, p.fromIndex, p.toIndex), p.nodes, 0, 0), Deeper()))
  {
    HeightOf64BitTree(p.treeSize);
    ghost var plan := PlanFor(0, p.treeSize, p.fromIndex, p.toIndex);
    var visits := WalkOutside(0, p.treeSize, p.fromIndex, p.toIndex, 0, [], plan);
    assert visits == Visits(plan, 0);
    var ordered := LabelNodes(visits, p.nodes, plan);
    ordered := StableSort(ordered, Deeper());
    return Hashes(ordered);
  }

  method LabelNodes<H>(visits: seq<Visit>, nodes: seq<H>, ghost plan: Plan) returns (ordered: seq<Labelled<H>>)
    requires visits == Visits(plan, 0) && |nodes| == |visits|
    ensures ordered == Labels(plan, nodes, 0, 0)
  {
    LabelsPairUp(plan, nodes, 0, 0);
    ordered := [];
    for index := 0 to |visits|
      invariant |ordered| == index
      invariant forall j :: 0 <= j < index ==> ordered[j] == (visits[j].depth, nodes[j])
    {
      ordered := ordered + [(visits[index].depth, nodes[index])];
    }
  }

  /**
   * Verification as the program runs it, cross-check included. Its answer is the verdict of the
   * rebuilt root alone: the second verifier, given the same carried hashes, never disagrees.
   */
  method Verify<H(==,!new)>(hs: Hashing<H>, p: RangeProof<H>, leafHashes: seq<H>, root: H)
    returns (r: Result<bool, Error>)
    ensures r == Verdict(hs, p, leafHashes, root)
  {
    var range := CheckRange(p.treeSize, p.fromIndex, p.toIndex);
    if range.Err? {
      return Err(range.error);
    }
    var width := p.toIndex - p.fromIndex;
    if |leafHashes| != width {
      return Err(WrongLeafCount);
    }
    ghost var plan := PlanFor(0, p.treeSize, p.fromIndex, p.toIndex);
    var recomputed, cursor := Recompute(hs, 0, p.treeSize, p, leafHashes, 0, plan);
    if recomputed.Err? {
      return Err(recomputed.error);
    }
    if cursor != |p.nodes| {
      return Err(NodesLeftOver(cursor));
    }
    if recomputed.value != root {
      return Ok(false);
    }
    if width == 1 {
      PlanIsSound(0, p.treeSize, p.fromIndex, p.toIndex);
      PlanForSingle(0, p.treeSize, p.fromIndex);
      CursorCounts(hs, p.nodes, leafHashes, p.fromIndex, plan, 0);
      var path := PathOfSingleEntry(p);
      var leaf := leafHashes[0];
      assert leafHashes == [leaf];
      CrossCheckAgrees(hs, plan, p.nodes, leaf, root, p.fromIndex);
      if !VerifyInclusion(hs, leaf, p.fromIndex, p.treeSize, path, root) {
        return Ok(false);
      }
    }
    return Ok(true);
  }
}
