/** How many subtree hashes a range proof carries. */
module RangeSize {
  import opened Basics
  import opened Merkle
  import opened RangeProof
  import opened RangeVerify

  /** The most hashes any range of a tree of height `e` takes. */
  function MostHashes(e: nat): nat {
    if e <= 1 then e else 2 * (e - 1)
  }

  /** A range that reaches the right edge of a subtree leaves at most one outside subtree a level. */
  lemma {:induction false} ReachesRightEdge(offset: nat, size: nat, from: u64, to: u64)
    requires size >= 1 && from < offset + size <= to && offset + size < TWO_64
    ensures SpendCount(PlanFor(offset, size, from, to)) <= CeilLog2(size)
    decreases size
  {
    if Classify(offset, size, from, to) == Straddles {
      var k := SplitPoint(size);
      HalvesAreLower(size);
      if from < offset + k {
        ReachesRightEdge(offset, k, from, to);
      } else {
        ReachesRightEdge(offset + k, size - k, from, to);
      }
    }
  }

  lemma {:induction false} ReachesLeftEdge(offset: nat, size: nat, from: u64, to: u64)
    requires size >= 1 && from <= offset < to && offset + size < TWO_64
    ensures SpendCount(PlanFor(offset, size, from, to)) <= CeilLog2(size)
    decreases size
  {
    if Classify(offset, size, from, to) == Straddles {
      var k := SplitPoint(size);
      HalvesAreLower(size);
      if to <= offset + k {
        ReachesLeftEdge(offset, k, from, to);
      } else {
        ReachesLeftEdge(offset + k, size - k, from, to);
      }
    }
  }

  /** No range of a tree takes more than `MostHashes` of its height. */
  lemma {:induction false} SizeBound(offset: nat, size: nat, from: u64, to: u64)
    requires size >= 1 && offset < to && from < offset + size < TWO_64 && from < to
    ensures SpendCount(PlanFor(offset, size, from, to)) <= MostHashes(CeilLog2(size))
    decreases size
  {
    if Classify(offset, size, from, to) == Straddles {
      var k := SplitPoint(size);
      HalvesAreLower(size);
      if to <= offset + k {
        SizeBound(offset, k, from, to);
      } else if offset + k <= from {
        SizeBound(offset + k, size - k, from, to);
      } else {
        ReachesRightEdge(offset, k, from, to);
        ReachesLeftEdge(offset + k, size - k, from, to);
      }
    }
  }

  lemma CountSplits(offset: nat, e: nat, from: u64, to: u64)
    requires e >= 1 && offset + Pow2(e) < TWO_64
    requires Classify(offset, Pow2(e), from, to) == Straddles
    ensures var half := Pow2(e - 1);
      SpendCount(PlanFor(offset, Pow2(e), from, to))
        == SpendCount(PlanFor(offset, half, from, to)) + SpendCount(PlanFor(offset + half, half, from, to))
  {
    var half := Pow2(e - 1);
    SplitIsPowerOfTwo(Pow2(e), e - 1);
    assert Pow2(e) - half == half;
    assert PlanFor(offset, Pow2(e), from, to)
        == Join(offset, Pow2(e), PlanFor(offset, half, from, to), PlanFor(offset + half, half, from, to));
  }

  lemma {:induction false} LastLeaf(offset: nat, e: nat, from: u64, to: u64)
    requires offset + Pow2(e) == from + 1 <= to
    ensures SpendCount(PlanFor(offset, Pow2(e), from, to)) == e
    decreases e
  {
    if e > 0 {
      var half := Pow2(e - 1);
      CountSplits(offset, e, from, to);
      assert PlanFor(offset, half, from, to) == Spend(offset, half);
      LastLeaf(offset + half, e - 1, from, to);
    }
  }

  lemma {:induction false} FirstLeaf(offset: nat, e: nat, from: u64, to: u64)
    requires from <= offset && to == offset + 1 && offset + Pow2(e) < TWO_64
    ensures SpendCount(PlanFor(offset, Pow2(e), from, to)) == e
    decreases e
  {
    if e > 0 {
      var half := Pow2(e - 1);
      CountSplits(offset, e, from, to);
      assert PlanFor(offset + half, half, from, to) == Spend(offset + half, half);
      FirstLeaf(offset, e - 1, from, to);
    }
  }

  /** The bound is met: the two leaves either side of the middle of a full tree. */
  lemma BoundIsReached(e: nat, half: nat)
    requires e >= 2 && half == Pow2(e - 1) && Pow2(e) < TWO_64
    ensures SpendCount(PlanFor(0, Pow2(e), half - 1, half + 1)) == MostHashes(e)
  {
    assert half == 2 * Pow2(e - 2);
    CountSplits(0, e, half - 1, half + 1);
    LastLeaf(0, e - 1, half - 1, half + 1);
    FirstLeaf(half, e - 1, half - 1, half + 1);
  }

  /** The first leaf of a tree one leaf short of full is as deep as that of the full one. */
  lemma FirstLeafOfShort(offset: nat, e: nat, from: u64, to: u64)
    requires e >= 2 && from <= offset && to == offset + 1 && offset + Pow2(e) - 1 < TWO_64
    ensures SpendCount(PlanFor(offset, Pow2(e) - 1, from, to)) == e
  {
    var (half, size) := (Pow2(e - 1), Pow2(e) - 1);
    SplitIsPowerOfTwo(size, e - 1);
    assert PlanFor(offset, size, from, to)
        == Join(offset, size, PlanFor(offset, half, from, to), PlanFor(offset + half, size - half, from, to));
    assert PlanFor(offset + half, size - half, from, to) == Spend(offset + half, size - half);
    FirstLeaf(offset, e - 1, from, to);
  }

  /** The largest proof there is: the two middle leaves of the largest tree take 126 hashes. */
  lemma LargestProof()
    ensures SpendCount(PlanFor(0, TWO_64 - 1, TWO_64 / 2 - 1, TWO_64 / 2 + 1)) == 126
  {
    Pow2At64();
    var (half, size) := (Pow2(63), Pow2(64) - 1);
    var (from, to) := (half - 1, half + 1);
    SplitIsPowerOfTwo(size, 63);
    assert PlanFor(0, size, from, to) ==
      Join(0, size, PlanFor(0, half, from, to), PlanFor(half, size - half, from, to));
    LastLeaf(0, 63, from, to);
    FirstLeafOfShort(half, 63, from, to);
  }

  /** Every split on the way down the left edge to a full subtree costs one more hash. */
  lemma {:induction false} AboveFullSubtree(e: nat, half: nat, size: nat)
    requires e >= 2 && half == Pow2(e - 1) && Pow2(e) < size < TWO_64
    ensures SpendCount(PlanFor(0, size, half - 1, half + 1)) > MostHashes(e)
    decreases size
  {
    var k, height := SplitPoint(size), CeilLog2(size);
    HeightExists(size);
    if height <= e {
      Pow2Monotone(height, e);
      assert false;
    }
    Pow2Monotone(e, height - 1);
    assert half == 2 * Pow2(e - 2);
    var from, to := half - 1, half + 1;
    assert PlanFor(0, size, from, to) == Join(0, size, PlanFor(0, k, from, to), PlanFor(k, size - k, from, to));
    assert PlanFor(k, size - k, from, to) == Spend(k, size - k);
    if k == Pow2(e) {
      BoundIsReached(e, half);
    } else {
      AboveFullSubtree(e, half, k);
    }
  }

  /**
   * The source says a proof over a 64-bit tree never carries more than 64 hashes. That holds of
   * every range of a tree exactly when the tree has at most 2^33 leaves.
   */
  lemma SixtyFourHashesIff(size: u64)
    requires size >= 1
    ensures (forall from: u64, to: u64 | from < to <= size :: SpendCount(PlanFor(0, size, from, to)) <= 64)
      <==> size <= 2 * TWO_32
  {
    Pow2At64();
    if size <= 2 * TWO_32 {
      forall from: u64, to: u64 | from < to <= size ensures SpendCount(PlanFor(0, size, from, to)) <= 64 {
        SizeBound(0, size, from, to);
        HeightAtMost(size, 33);
      }
    } else {
      AboveFullSubtree(33, TWO_32, size);
    }
  }

  lemma HeightAtMost(size: nat, e: nat)
    requires 1 <= size <= Pow2(e)
    ensures CeilLog2(size) <= e
  {
    CeilLog2Monotone(size, Pow2(e));
    if e > 0 {
      SplitIsPowerOfTwo(Pow2(e), e - 1);
    }
  }

  /** A generated proof carries at most twice the height less two, and never near 2^32 hashes. */
  lemma GeneratedProofSize<H>(hs: Hashing<H>, all: seq<H>, from: u64, to: u64)
    requires from < to <= |all| < TWO_64
    ensures |HonestProof(hs, all, from, to).nodes| <= MostHashes(CeilLog2(|all|)) <= 126
  {
    SizeBound(0, |all|, from, to);
    HeightOf64BitTree(|all|);
    PlanIsSound(0, |all|, from, to);
    PlanRootIsSpanRoot(hs, all, PlanFor(0, |all|, from, to));
  }
}
