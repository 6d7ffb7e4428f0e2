/** Authenticated range proofs: generation, verification, and what an accepted proof means. */
module RangeProof {
  import opened Basics
  import opened Merkle

  datatype RangeProof<H> = RangeProof(treeSize: u64, fromIndex: u64, toIndex: u64, nodes: seq<H>)

  datatype Error =
    | EmptyTree
    | BadRange
    | WrongLeafCount
    | TooFewNodes
    | NodesLeftOver(consumed: nat)
    | ShortLeafSet

  // ---------------------------------------------------------------------------
  // The decomposition
  // ---------------------------------------------------------------------------

  datatype Span = Outside | Inside | Straddles

  /** Where `[offset, offset + size)` sits relative to `[from, to)`. */
  function Classify(offset: u64, size: u64, from: u64, to: u64): Span {
    var end := SaturatingAdd(offset, size);
    if end <= from || offset >= to then Outside
    else if offset >= from && end <= to then Inside
    else Straddles
  }

  /**
   * The tree of decisions a range fixes before any carried hash is read. `Spend` takes the next
   * carried hash, `Rebuild` hashes carried leaves, `Join` hashes the two halves of a split.
   */
  datatype Plan =
    | Spend(offset: nat, size: nat)
    | Rebuild(offset: nat, size: nat)
    | Join(offset: nat, size: nat, left: Plan, right: Plan)

  function PlanFor(offset: nat, size: nat, from: u64, to: u64): (plan: Plan)
    requires offset + size < TWO_64
    ensures plan.offset == offset && plan.size == size
    decreases size
  {
    match Classify(offset, size, from, to)
    case Outside => Spend(offset, size)
    case Inside => Rebuild(offset, size)
    case Straddles =>
      var k := SplitPoint(size);
      Join(offset, size, PlanFor(offset, k, from, to), PlanFor(offset + k, size - k, from, to))
  }

  /** Every split falls where RFC 6962 puts it. */
  predicate Splits(plan: Plan) {
    plan.Join? ==>
      && plan.size >= 2
      && plan.left.offset == plan.offset && plan.left.size == SplitPoint(plan.size)
      && plan.right.offset == plan.offset + plan.left.size && plan.right.size == plan.size - plan.left.size
      && Splits(plan.left) && Splits(plan.right)
  }

  /** What is spent lies outside `[from, to)`; what is rebuilt lies inside. */
  predicate Separates(plan: Plan, from: nat, to: nat) {
    match plan
    case Spend(offset, size) => offset + size <= from || to <= offset
    case Rebuild(offset, size) => from <= offset && offset + size <= to
    case Join(_, _, left, right) => Separates(left, from, to) && Separates(right, from, to)
  }

  lemma {:induction false} PlanIsSound(offset: nat, size: nat, from: u64, to: u64)
    requires offset + size < TWO_64
    ensures Splits(PlanFor(offset, size, from, to)) && Separates(PlanFor(offset, size, from, to), from, to)
    decreases size
  {
    if Classify(offset, size, from, to) == Straddles {
      var k := SplitPoint(size);
      PlanIsSound(offset, k, from, to);
      PlanIsSound(offset + k, size - k, from, to);
    }
  }

  /** Every subtree a plan names lies in a tree of `n` leaves. */
  predicate InBounds(plan: Plan, n: nat) {
    match plan
    case Spend(offset, size) => offset + size <= n
    case Rebuild(offset, size) => offset + size <= n
    case Join(_, _, left, right) => InBounds(left, n) && InBounds(right, n)
  }

  /** The root over `all`, combined the way the plan combines it. */
  function PlanRoot<H>(hs: Hashing<H>, all: seq<H>, plan: Plan): H
    requires InBounds(plan, |all|)
    decreases plan
  {
    match plan
    case Spend(offset, size) => SpanRoot(hs, all, offset, size)
    case Rebuild(offset, size) => SpanRoot(hs, all, offset, size)
    case Join(_, _, left, right) => hs.node(PlanRoot(hs, all, left), PlanRoot(hs, all, right))
  }

  /** A plan that splits where RFC 6962 does computes the RFC 6962 root of its span. */
  lemma {:induction false} PlanRootIsSpanRoot<H>(hs: Hashing<H>, all: seq<H>, plan: Plan)
    requires plan.offset + plan.size <= |all| && Splits(plan)
    ensures InBounds(plan, |all|) && PlanRoot(hs, all, plan) == SpanRoot(hs, all, plan.offset, plan.size)
    decreases plan
  {
    if plan.Join? {
      PlanRootIsSpanRoot(hs, all, plan.left);
      PlanRootIsSpanRoot(hs, all, plan.right);
    }
  }

  /** How many carried hashes a plan spends. */
  function SpendCount(plan: Plan): nat {
    match plan
    case Spend(_, _) => 1
    case Rebuild(_, _) => 0
    case Join(_, _, left, right) => SpendCount(left) + SpendCount(right)
  }

  /** The subtree roots a plan spends, read off the whole leaf list, left to right. */
  function HonestNodes<H>(hs: Hashing<H>, all: seq<H>, plan: Plan): (nodes: seq<H>)
    requires InBounds(plan, |all|)
    ensures |nodes| == SpendCount(plan)
    decreases plan
  {
    match plan
    case Spend(offset, size) => [SpanRoot(hs, all, offset, size)]
    case Rebuild(_, _) => []
    case Join(_, _, left, right) => HonestNodes(hs, all, left) + HonestNodes(hs, all, right)
  }

  /** The proof an honest prover carries for `[from, to)` over the leaf hashes `all`. */
  function HonestProof<H>(hs: Hashing<H>, all: seq<H>, from: u64, to: u64): RangeProof<H>
    requires |all| < TWO_64
  {
    var plan := PlanFor(0, |all|, from, to);
    PlanIsSound(0, |all|, from, to);
    PlanRootIsSpanRoot(hs, all, plan);
    RangeProof(|all|, from, to, HonestNodes(hs, all, plan))
  }

  // ---------------------------------------------------------------------------
  // What verification decides
  // ---------------------------------------------------------------------------

  datatype Rebuilt<H> = Rebuilt(root: H, cursor: nat)

  /** The root rebuilt from carried hashes and carried leaves, and where the hash cursor ends. */
  function Recomputed<H>(hs: Hashing<H>, nodes: seq<H>, leaves: seq<H>, from: nat, plan: Plan, cursor: nat)
    : Result<Rebuilt<H>, Error>
    decreases plan
  {
    match plan
    case Spend(_, _) =>
      if cursor < |nodes| then Ok(Rebuilt(nodes[cursor], cursor + 1)) else Err(TooFewNodes)
    case Rebuild(offset, size) =>
      if from <= offset && offset - from + size <= |leaves|
      then Ok(Rebuilt(SpanRoot(hs, leaves, offset - from, size), cursor))
      else Err(ShortLeafSet)
    case Join(_, _, left, right) =>
      var l := Recomputed(hs, nodes, leaves, from, left, cursor);
      if l.Err? then l else
      var r := Recomputed(hs, nodes, leaves, from, right, l.value.cursor);
      if r.Err? then r else
      Ok(Rebuilt(hs.node(l.value.root, r.value.root), r.value.cursor))
  }

  function CheckRange(treeSize: u64, from: u64, to: u64): Result<(), Error> {
    if treeSize == 0 then Err(EmptyTree)
    else if from >= to || to > treeSize then Err(BadRange)
    else Ok(())
  }

  /** The verdict on a proof: the rebuilt root, with every hash spent and the exact leaf count. */
  function Verdict<H(==)>(hs: Hashing<H>, p: RangeProof<H>, leaves: seq<H>, root: H): Result<bool, Error> {
    var range := CheckRange(p.treeSize, p.fromIndex, p.toIndex);
    if range.Err? then Err(range.error)
    else if |leaves| != p.toIndex - p.fromIndex then Err(WrongLeafCount)
    else
      var rebuilt := Recomputed(hs, p.nodes, leaves, p.fromIndex, PlanFor(0, p.treeSize, p.fromIndex, p.toIndex), 0);
      if rebuilt.Err? then Err(rebuilt.error)
      else if rebuilt.value.cursor != |p.nodes| then Err(NodesLeftOver(rebuilt.value.cursor))
      else Ok(rebuilt.value.root == root)
  }

  // ---------------------------------------------------------------------------
  // Honest material, subtree by subtree
  // ---------------------------------------------------------------------------

  /** The hashes a plan spends from `cursor` on are the tree's own. */
  predicate NodesMatch<H(==)>(hs: Hashing<H>, nodes: seq<H>, all: seq<H>, plan: Plan, cursor: nat)
    requires InBounds(plan, |all|)
    decreases plan
  {
    match plan
    case Spend(offset, size) => cursor < |nodes| && nodes[cursor] == SpanRoot(hs, all, offset, size)
    case Rebuild(_, _) => true
    case Join(_, _, left, right) =>
      NodesMatch(hs, nodes, all, left, cursor) && NodesMatch(hs, nodes, all, right, cursor + SpendCount(left))
  }

  /** The leaves a plan rebuilds from are the tree's own. */
  ghost predicate LeavesMatch<H>(leaves: seq<H>, all: seq<H>, from: nat, plan: Plan)
    requires InBounds(plan, |all|)
    decreases plan
  {
    match plan
    case Spend(_, _) => true
    case Rebuild(offset, size) =>
      && from <= offset && offset - from + size <= |leaves|
      && SameSpan(leaves, offset - from, all, offset, size)
    case Join(_, _, left, right) => LeavesMatch(leaves, all, from, left) && LeavesMatch(leaves, all, from, right)
  }

  /** `part` is what `nodes` carries from `cursor` on. */
  ghost predicate Carries<H>(nodes: seq<H>, cursor: nat, part: seq<H>) {
    cursor + |part| <= |nodes| && nodes[cursor..cursor + |part|] == part
  }

  lemma CarriesConcat<H>(nodes: seq<H>, cursor: nat, l: seq<H>, r: seq<H>)
    ensures Carries(nodes, cursor, l + r) <==> Carries(nodes, cursor, l) && Carries(nodes, cursor + |l|, r)
  {
    var mid, end := cursor + |l|, cursor + |l| + |r|;
    if end <= |nodes| {
      assert nodes[cursor..end] == nodes[cursor..mid] + nodes[mid..end];
      assert (l + r)[..|l|] == l && (l + r)[|l|..] == r;
    }
  }

  lemma {:induction false} NodesMatchMeansHonest<H>(hs: Hashing<H>, nodes: seq<H>, all: seq<H>, plan: Plan, cursor: nat)
    requires InBounds(plan, |all|) && cursor + SpendCount(plan) <= |nodes|
    ensures NodesMatch(hs, nodes, all, plan, cursor) <==> Carries(nodes, cursor, HonestNodes(hs, all, plan))
    decreases plan
  {
    match plan
    case Spend(_, _) =>
      assert nodes[cursor..cursor + 1] == [nodes[cursor]];
    case Rebuild(_, _) =>
    case Join(_, _, left, right) =>
      var l, r := HonestNodes(hs, all, left), HonestNodes(hs, all, right);
      assert HonestNodes(hs, all, plan) == l + r && |l| == SpendCount(left) && |r| == SpendCount(right);
      CarriesConcat(nodes, cursor, l, r);
      NodesMatchMeansHonest(hs, nodes, all, left, cursor);
      NodesMatchMeansHonest(hs, nodes, all, right, cursor + |l|);
  }

  lemma SliceOfSlice<T>(s: seq<T>, from: nat, to: nat, a: nat, b: nat)
    requires a <= b && from + b <= to <= |s|
    ensures s[from..to][a..b] == s[from + a..from + b]
  {
    var l, r := s[from..to][a..b], s[from + a..from + b];
    assert forall i :: 0 <= i < b - a ==> l[i] == r[i];
  }

  lemma {:induction false} SliceMatches<H>(leaves: seq<H>, all: seq<H>, from: nat, to: nat, plan: Plan)
    requires from <= to <= |all| && leaves == all[from..to]
    requires InBounds(plan, |all|) && Separates(plan, from, to)
    ensures LeavesMatch(leaves, all, from, plan)
    decreases plan
  {
    match plan
    case Spend(_, _) =>
    case Rebuild(offset, size) =>
      SliceOfSlice(all, from, to, offset - from, offset - from + size);
    case Join(_, _, left, right) =>
      SliceMatches(leaves, all, from, to, left);
      SliceMatches(leaves, all, from, to, right);
  }

  lemma {:induction false} MatchedLeaf<H>(leaves: seq<H>, all: seq<H>, from: nat, plan: Plan, i: nat)
    requires InBounds(plan, |all|) && Splits(plan) && Separates(plan, from, from + |leaves|)
    requires LeavesMatch(leaves, all, from, plan)
    requires plan.offset <= i < plan.offset + plan.size <= |all| && from <= i < from + |leaves|
    ensures leaves[i - from] == all[i]
    decreases plan
  {
    match plan
    case Rebuild(offset, size) =>
      assert leaves[i - from] == leaves[offset - from..offset - from + size][i - offset];
      assert all[i] == all[offset..offset + size][i - offset];
    case Join(_, _, left, right) =>
      MatchedLeaf(leaves, all, from, if i < right.offset then left else right, i);
    case Spend(_, _) =>
  }

  // ---------------------------------------------------------------------------
  // Completeness
  // ---------------------------------------------------------------------------

  /** Matching material rebuilds the plan's root and spends exactly its hashes. */
  lemma {:induction false} RecomputeComplete<H(!new)>(
      hs: Hashing<H>, nodes: seq<H>, leaves: seq<H>, all: seq<H>, from: nat, plan: Plan, cursor: nat)
    requires InBounds(plan, |all|)
    requires NodesMatch(hs, nodes, all, plan, cursor) && LeavesMatch(leaves, all, from, plan)
    ensures Recomputed(hs, nodes, leaves, from, plan, cursor)
      == Ok(Rebuilt(PlanRoot(hs, all, plan), cursor + SpendCount(plan)))
    decreases plan
  {
    match plan
    case Spend(_, _) =>
    case Rebuild(offset, size) =>
      SpanRootLocal(hs, leaves, offset - from, all, offset, size);
    case Join(_, _, left, right) =>
      RecomputeComplete(hs, nodes, leaves, all, from, left, cursor);
      RecomputeComplete(hs, nodes, leaves, all, from, right, cursor + SpendCount(left));
  }

  /** Every proof generated over the committed leaves is accepted against their root. */
  lemma HonestProofAccepted<H(!new)>(hs: Hashing<H>, all: seq<H>, from: u64, to: u64)
    requires from < to <= |all| < TWO_64
    ensures Verdict(hs, HonestProof(hs, all, from, to), all[from..to], ComputeRoot(hs, all)) == Ok(true)
  {
    var p, plan := HonestProof(hs, all, from, to), PlanFor(0, |all|, from, to);
    PlanIsSound(0, |all|, from, to);
    PlanRootIsSpanRoot(hs, all, plan);
    assert p.nodes[0..|p.nodes|] == p.nodes;
    NodesMatchMeansHonest(hs, p.nodes, all, plan, 0);
    SliceMatches(all[from..to], all, from, to, plan);
    RecomputeComplete(hs, p.nodes, all[from..to], all, from, plan, 0);
  }

  // ---------------------------------------------------------------------------
  // Soundness
  // ---------------------------------------------------------------------------

  lemma {:induction false} CursorCounts<H>(
      hs: Hashing<H>, nodes: seq<H>, leaves: seq<H>, from: nat, plan: Plan, cursor: nat)
    requires Recomputed(hs, nodes, leaves, from, plan, cursor).Ok? && cursor <= |nodes|
    ensures Recomputed(hs, nodes, leaves, from, plan, cursor).value.cursor == cursor + SpendCount(plan) <= |nodes|
    decreases plan
  {
    if plan.Join? {
      CursorCounts(hs, nodes, leaves, from, plan.left, cursor);
      CursorCounts(hs, nodes, leaves, from, plan.right, cursor + SpendCount(plan.left));
    }
  }

  lemma MatchedLeaves<H>(leaves: seq<H>, all: seq<H>, from: nat, plan: Plan)
    requires plan.offset == 0 && plan.size == |all| && from + |leaves| <= |all|
    requires InBounds(plan, |all|) && Splits(plan) && Separates(plan, from, from + |leaves|)
    requires LeavesMatch(leaves, all, from, plan)
    ensures leaves == all[from..from + |leaves|]
  {
    forall i | 0 <= i < |leaves| ensures leaves[i] == all[from..from + |leaves|][i] {
      MatchedLeaf(leaves, all, from, plan, from + i);
    }
  }

  /** Over a whole tree, matching material is the honest proof over the range's own leaves. */
  lemma MatchMeansHonestProof<H(!new)>(hs: Hashing<H>, p: RangeProof<H>, leaves: seq<H>, all: seq<H>, plan: Plan)
    requires |all| == p.treeSize && p.fromIndex < p.toIndex <= p.treeSize && |leaves| == p.toIndex - p.fromIndex
    requires plan == PlanFor(0, |all|, p.fromIndex, p.toIndex) && |p.nodes| == SpendCount(plan)
    requires InBounds(plan, |all|) && NodesMatch(hs, p.nodes, all, plan, 0) &&
      LeavesMatch(leaves, all, p.fromIndex, plan)
    ensures leaves == all[p.fromIndex..p.toIndex] && p == HonestProof(hs, all, p.fromIndex, p.toIndex)
  {
    PlanIsSound(0, |all|, p.fromIndex, p.toIndex);
    NodesMatchMeansHonest(hs, p.nodes, all, plan, 0);
    assert p.nodes[0..|p.nodes|] == p.nodes;
    MatchedLeaves(leaves, all, p.fromIndex, plan);
  }

  /**
   * A subtree accepted over material that is not the tree's own contains a hash collision, and
   * this finds it. Nothing is assumed about the hash.
   */
  ghost function PlanCollision<H(!new)>(
      hs: Hashing<H>, nodes: seq<H>, leaves: seq<H>, all: seq<H>, from: nat, plan: Plan, cursor: nat): (c: Collision<H>)
    requires InBounds(plan, |all|) && cursor <= |nodes|
    requires Recomputed(hs, nodes, leaves, from, plan, cursor).Ok?
    requires Recomputed(hs, nodes, leaves, from, plan, cursor).value.root == PlanRoot(hs, all, plan)
    requires !NodesMatch(hs, nodes, all, plan, cursor) || !LeavesMatch(leaves, all, from, plan)
    ensures IsCollision(hs, c)
    decreases plan
  {
    match plan
    case Spend(_, _) =>
      assert false; Collision(hs.empty, hs.empty, hs.empty, hs.empty)
    case Rebuild(offset, size) =>
      SpanCollision(hs, leaves, offset - from, all, offset, size)
    case Join(_, _, left, right) =>
      var (l, r) := (PlanRoot(hs, all, left), PlanRoot(hs, all, right));
      var l' := Recomputed(hs, nodes, leaves, from, left, cursor).value;
      var r' := Recomputed(hs, nodes, leaves, from, right, l'.cursor).value;
      CursorCounts(hs, nodes, leaves, from, left, cursor);
      if l'.root != l || r'.root != r then Collision(l'.root, r'.root, l, r)
      else if !NodesMatch(hs, nodes, all, left, cursor) || !LeavesMatch(leaves, all, from, left)
      then PlanCollision(hs, nodes, leaves, all, from, left, cursor)
      else PlanCollision(hs, nodes, leaves, all, from, right, l'.cursor)
  }

  /** An accepted proof other than the honest one, over the committed tree, exhibits a collision. */
  ghost function ForgeryCollision<H(!new)>(hs: Hashing<H>, p: RangeProof<H>, leaves: seq<H>, all: seq<H>)
    : (c: Collision<H>)
    requires |all| == p.treeSize
    requires Verdict(hs, p, leaves, ComputeRoot(hs, all)) == Ok(true)
    requires leaves != all[p.fromIndex..p.toIndex] || p != HonestProof(hs, all, p.fromIndex, p.toIndex)
    ensures IsCollision(hs, c)
  {
    var plan := PlanFor(0, |all|, p.fromIndex, p.toIndex);
    PlanIsSound(0, |all|, p.fromIndex, p.toIndex);
    PlanRootIsSpanRoot(hs, all, plan);
    CursorCounts(hs, p.nodes, leaves, p.fromIndex, plan, 0);
    if NodesMatch(hs, p.nodes, all, plan, 0) && LeavesMatch(leaves, all, p.fromIndex, plan) then
      MatchMeansHonestProof(hs, p, leaves, all, plan);
      assert false; Collision(hs.empty, hs.empty, hs.empty, hs.empty)
    else PlanCollision(hs, p.nodes, leaves, all, p.fromIndex, plan, 0)
  }

  /** Under a collision-free hash, the honest proof over the committed leaves is the only accepted one. */
  lemma AcceptedIffHonest<H(!new)>(hs: Hashing<H>, p: RangeProof<H>, leaves: seq<H>, all: seq<H>)
    requires CollisionFree(hs) && |all| == p.treeSize
    ensures Verdict(hs, p, leaves, ComputeRoot(hs, all)) == Ok(true) <==>
              && p.fromIndex < p.toIndex <= p.treeSize
              && leaves == all[p.fromIndex..p.toIndex]
              && p == HonestProof(hs, all, p.fromIndex, p.toIndex)
  {
    if p.fromIndex < p.toIndex <= p.treeSize {
      if leaves == all[p.fromIndex..p.toIndex] && p == HonestProof(hs, all, p.fromIndex, p.toIndex) {
        HonestProofAccepted(hs, all, p.fromIndex, p.toIndex);
      } else if Verdict(hs, p, leaves, ComputeRoot(hs, all)) == Ok(true) {
        var c := ForgeryCollision(hs, p, leaves, all);
        assert false;
      }
    }
  }
}
