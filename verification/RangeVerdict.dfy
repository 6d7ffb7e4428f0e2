/** Which proofs range verification cannot read, and why: a matter of shape alone, whatever the hashes. */
module RangeVerdict {
  import opened Basics
  import opened Merkle
  import opened RangeProof

  /** Every leaf a plan rebuilds from is carried: its hashes alone decide how far recomputation gets. */
  lemma {:induction false} SpentInOrder<H>(
      hs: Hashing<H>, nodes: seq<H>, leaves: seq<H>, from: nat, plan: Plan, cursor: nat)
    requires Separates(plan, from, from + |leaves|) && cursor <= |nodes|
    ensures var r := Recomputed(hs, nodes, leaves, from, plan, cursor);
      if cursor + SpendCount(plan) <= |nodes|
      then r.Ok? && r.value.cursor == cursor + SpendCount(plan)
      else r == Err(TooFewNodes)
    decreases plan
  {
    if plan.Join? {
      SpentInOrder(hs, nodes, leaves, from, plan.left, cursor);
      if cursor + SpendCount(plan.left) <= |nodes| {
        SpentInOrder(hs, nodes, leaves, from, plan.right, cursor + SpendCount(plan.left));
      }
    }
  }

  predicate GoodRange<H>(p: RangeProof<H>) {
    p.fromIndex < p.toIndex <= p.treeSize
  }

  /** A range of the tree, one leaf carried for each of its indexes. */
  predicate GoodLeaves<H>(p: RangeProof<H>, leaves: seq<H>) {
    GoodRange(p) && |leaves| == p.toIndex - p.fromIndex
  }

  /** How many hashes the proof an honest prover generates for the same range carries. */
  function Needed<H>(p: RangeProof<H>): nat {
    SpendCount(PlanFor(0, p.treeSize, p.fromIndex, p.toIndex))
  }

  /** The refusals of verification, in the order they are met; a leaf set found short while hashing is never one. */
  lemma RefusedAs<H(!new)>(hs: Hashing<H>, p: RangeProof<H>, leaves: seq<H>, root: H)
    ensures var v := Verdict(hs, p, leaves, root);
      && (v == Err(EmptyTree) <==> p.treeSize == 0)
      && (v == Err(BadRange) <==> p.treeSize > 0 && !GoodRange(p))
      && (v == Err(WrongLeafCount) <==> GoodRange(p) && !GoodLeaves(p, leaves))
      && (v == Err(TooFewNodes) <==> GoodLeaves(p, leaves) && |p.nodes| < Needed(p))
      && (v == Err(NodesLeftOver(Needed(p))) <==> GoodLeaves(p, leaves) && |p.nodes| > Needed(p))
      && (v.Ok? <==> GoodLeaves(p, leaves) && |p.nodes| == Needed(p))
  {
    if GoodLeaves(p, leaves) {
      var plan := PlanFor(0, p.treeSize, p.fromIndex, p.toIndex);
      PlanIsSound(0, p.treeSize, p.fromIndex, p.toIndex);
      SpentInOrder(hs, p.nodes, leaves, p.fromIndex, plan, 0);
    }
  }

  /** What is needed is what generation over any leaves of that number carries. */
  lemma NeededIsGenerated<H(!new)>(hs: Hashing<H>, p: RangeProof<H>, all: seq<H>)
    requires |all| == p.treeSize
    ensures |HonestProof(hs, all, p.fromIndex, p.toIndex).nodes| == Needed(p)
  {
    PlanIsSound(0, |all|, p.fromIndex, p.toIndex);
    PlanRootIsSpanRoot(hs, all, PlanFor(0, |all|, p.fromIndex, p.toIndex));
  }

  /** A proof that is read and refused is refused because the root it rebuilds is another. */
  lemma NoOnlyForTheRoot<H(!new)>(hs: Hashing<H>, p: RangeProof<H>, leaves: seq<H>, root: H, other: H)
    requires Verdict(hs, p, leaves, root).Ok?
    ensures Verdict(hs, p, leaves, other).Ok?
    ensures Verdict(hs, p, leaves, root) == Ok(true) && Verdict(hs, p, leaves, other) == Ok(true) ==> root == other
    ensures exists rebuilt :: Verdict(hs, p, leaves, rebuilt) == Ok(true)
  {
    var plan := PlanFor(0, p.treeSize, p.fromIndex, p.toIndex);
    var rebuilt := Recomputed(hs, p.nodes, leaves, p.fromIndex, plan, 0).value.root;
    assert Verdict(hs, p, leaves, rebuilt) == Ok(true);
  }
}
