/** The hash tree of RFC 6962, section 2.1, over an arbitrary node hash. */
module Merkle {

  /** The node hash and the root of the empty tree. Nothing is assumed about either. */
  datatype Hashing<!H> = Hashing(node: (H, H) -> H, empty: H)

  /** Two different pairs of children with one parent hash. */
  datatype Collision<H> = Collision(left: H, right: H, otherLeft: H, otherRight: H)

  predicate IsCollision<H(==)>(hs: Hashing<H>, c: Collision<H>) {
    && (c.left, c.right) != (c.otherLeft, c.otherRight)
    && hs.node(c.left, c.right) == hs.node(c.otherLeft, c.otherRight)
  }

  ghost predicate CollisionFree<H(!new)>(hs: Hashing<H>) {
    forall a, b, c, d :: hs.node(a, b) == hs.node(c, d) ==> a == c && b == d
  }

  function Pow2(e: nat): (p: nat)
    ensures p >= 1
  {
    if e == 0 then 1 else 2 * Pow2(e - 1)
  }

  /** `p` doubled for as long as that stays below `n`. */
  function DoubleBelow(n: nat, p: nat): (k: nat)
    requires 0 < p < n
    ensures p <= k < n <= 2 * k
    decreases n - p
  {
    if 2 * p < n then DoubleBelow(n, 2 * p) else p
  }

  /** The largest power of two strictly below `n`: where RFC 6962 splits a tree of `n` leaves. */
  function SplitPoint(n: nat): (k: nat)
    requires n >= 2
    ensures 0 < k < n <= 2 * k
  {
    DoubleBelow(n, 1)
  }

  /** The height of a tree of `n` leaves: the least `e` with `n <= 2^e`. */
  function CeilLog2(n: nat): (e: nat)
    requires n >= 1
  {
    if n == 1 then 0 else 1 + CeilLog2(SplitPoint(n))
  }

  lemma {:induction false} DoubleBelowIsPowerOfTwo(n: nat, d: nat, e: nat)
    requires Pow2(d) < n && Pow2(e) < n <= Pow2(e + 1)
    ensures DoubleBelow(n, Pow2(d)) == Pow2(e)
    decreases n - Pow2(d)
  {
    if d < e {
      Pow2Monotone(d + 1, e);
      DoubleBelowIsPowerOfTwo(n, d + 1, e);
    } else if e < d {
      Pow2Monotone(e + 1, d);
    }
  }

  /** The split is the power of two with `2^e < n <= 2^(e + 1)`, and `e` is one below the height. */
  lemma SplitIsPowerOfTwo(n: nat, e: nat)
    requires n >= 2 && Pow2(e) < n <= Pow2(e + 1)
    ensures SplitPoint(n) == Pow2(e) && CeilLog2(n) == e + 1
    decreases e
  {
    DoubleBelowIsPowerOfTwo(n, 0, e);
    if e > 0 {
      SplitIsPowerOfTwo(Pow2(e), e - 1);
    }
  }

  lemma HeightExists(n: nat)
    requires n >= 1
    ensures n <= Pow2(CeilLog2(n))
    ensures n >= 2 ==> CeilLog2(n) >= 1 && SplitPoint(n) == Pow2(CeilLog2(n) - 1)
  {
    if n >= 2 {
      var k := SplitPoint(n);
      SplitReachesPower(n, 0);
      var e: nat :| DoubleBelow(n, Pow2(0)) == Pow2(e);
      assert k == Pow2(e) && k < n <= 2 * k;
      SplitIsPowerOfTwo(n, e);
    }
  }

  lemma {:induction false} SplitReachesPower(n: nat, d: nat)
    requires Pow2(d) < n
    ensures exists e :: d <= e && DoubleBelow(n, Pow2(d)) == Pow2(e)
    decreases n - Pow2(d)
  {
    if 2 * Pow2(d) < n {
      assert Pow2(d + 1) == 2 * Pow2(d);
      SplitReachesPower(n, d + 1);
    }
  }

  lemma {:induction false} CeilLog2Monotone(m: nat, n: nat)
    requires 1 <= m <= n
    ensures CeilLog2(m) <= CeilLog2(n)
  {
    HeightExists(m);
    HeightExists(n);
    if CeilLog2(m) > CeilLog2(n) {
      Pow2Monotone(CeilLog2(n), CeilLog2(m) - 1);
      assert false;
    }
  }

  lemma {:induction false} Pow2Monotone(d: nat, e: nat)
    requires d <= e
    ensures Pow2(d) <= Pow2(e)
    decreases e
  {
    if d < e {
      Pow2Monotone(d, e - 1);
    }
  }

  lemma {:induction false} Pow2Sum(d: nat, e: nat)
    ensures Pow2(d + e) == Pow2(d) * Pow2(e)
    decreases e
  {
    if e > 0 {
      Pow2Sum(d, e - 1);
      assert Pow2(d + e) == 2 * Pow2(d + (e - 1));
      assert Pow2(d) * (2 * Pow2(e - 1)) == 2 * (Pow2(d) * Pow2(e - 1));
    }
  }

  /** The root of the subtree over `leaves[lo..lo + size]` (MTH of RFC 6962). */
  function SpanRoot<H>(hs: Hashing<H>, leaves: seq<H>, lo: nat, size: nat): H
    requires lo + size <= |leaves|
    decreases size
  {
    if size == 0 then hs.empty
    else if size == 1 then leaves[lo]
    else
      var k := SplitPoint(size);
      hs.node(SpanRoot(hs, leaves, lo, k), SpanRoot(hs, leaves, lo + k, size - k))
  }

  /** The tree root over leaf hashes. */
  function ComputeRoot<H>(hs: Hashing<H>, leaves: seq<H>): H {
    SpanRoot(hs, leaves, 0, |leaves|)
  }

  ghost predicate SameSpan<H>(a: seq<H>, lo: nat, b: seq<H>, lo': nat, size: nat)
    requires lo + size <= |a| && lo' + size <= |b|
  {
    a[lo..lo + size] == b[lo'..lo' + size]
  }

  lemma SameSpanSplit<H>(a: seq<H>, lo: nat, b: seq<H>, lo': nat, k: nat, size: nat)
    requires k <= size && lo + size <= |a| && lo' + size <= |b|
    ensures SameSpan(a, lo, b, lo', size) <==>
              SameSpan(a, lo, b, lo', k) && SameSpan(a, lo + k, b, lo' + k, size - k)
  {
    var s, t := a[lo..lo + size], b[lo'..lo' + size];
    assert s == a[lo..lo + k] + a[lo + k..lo + size] && t == b[lo'..lo' + k] + b[lo' + k..lo' + size];
    assert s[..k] == a[lo..lo + k] && s[k..] == a[lo + k..lo + size];
    assert t[..k] == b[lo'..lo' + k] && t[k..] == b[lo' + k..lo' + size];
  }

  /** The root of a span depends on nothing but the leaves in it. */
  lemma {:induction false} SpanRootLocal<H>(hs: Hashing<H>, a: seq<H>, lo: nat, b: seq<H>, lo': nat, size: nat)
    requires lo + size <= |a| && lo' + size <= |b| && SameSpan(a, lo, b, lo', size)
    ensures SpanRoot(hs, a, lo, size) == SpanRoot(hs, b, lo', size)
    decreases size
  {
    if size == 1 {
      assert a[lo] == a[lo..lo + 1][0] == b[lo'..lo' + 1][0];
    } else if size >= 2 {
      var k := SplitPoint(size);
      SameSpanSplit(a, lo, b, lo', k, size);
      SpanRootLocal(hs, a, lo, b, lo', k);
      SpanRootLocal(hs, a, lo + k, b, lo' + k, size - k);
    }
  }

  lemma SpanRootIsRootOfSlice<H>(hs: Hashing<H>, leaves: seq<H>, lo: nat, size: nat)
    requires lo + size <= |leaves|
    ensures SpanRoot(hs, leaves, lo, size) == ComputeRoot(hs, leaves[lo..lo + size])
  {
    SpanRootLocal(hs, leaves, lo, leaves[lo..lo + size], 0, size);
  }

  /** The tree of RFC 6962: nothing, a leaf, or a node over the first `2^e` leaves and the rest. */
  lemma RootSplits<H>(hs: Hashing<H>, leaves: seq<H>, e: nat)
    ensures ComputeRoot(hs, []) == hs.empty
    ensures |leaves| == 1 ==> ComputeRoot(hs, leaves) == leaves[0]
    ensures Pow2(e) < |leaves| <= Pow2(e + 1) ==>
              ComputeRoot(hs, leaves) ==
                hs.node(ComputeRoot(hs, leaves[..Pow2(e)]), ComputeRoot(hs, leaves[Pow2(e)..]))
  {
    var n := |leaves|;
    if Pow2(e) < n <= Pow2(e + 1) {
      var k := Pow2(e);
      SplitIsPowerOfTwo(n, e);
      SpanRootIsRootOfSlice(hs, leaves, 0, k);
      SpanRootIsRootOfSlice(hs, leaves, k, n - k);
      assert leaves[0..k] == leaves[..k] && leaves[k..k + (n - k)] == leaves[k..];
    }
  }

  /** Two spans of one size with one root and different leaves hash two different pairs to one node. */
  ghost function SpanCollision<H(!new)>(hs: Hashing<H>, a: seq<H>, lo: nat, b: seq<H>, lo': nat, size: nat)
    : (c: Collision<H>)
    requires lo + size <= |a| && lo' + size <= |b|
    requires SpanRoot(hs, a, lo, size) == SpanRoot(hs, b, lo', size)
    requires !SameSpan(a, lo, b, lo', size)
    ensures IsCollision(hs, c)
    decreases size
  {
    var k := SplitPoint(size);
    var (l, r) := (SpanRoot(hs, a, lo, k), SpanRoot(hs, a, lo + k, size - k));
    var (l', r') := (SpanRoot(hs, b, lo', k), SpanRoot(hs, b, lo' + k, size - k));
    SameSpanSplit(a, lo, b, lo', k, size);
    if (l, r) != (l', r') then Collision(l, r, l', r')
    else if !SameSpan(a, lo, b, lo', k) then SpanCollision(hs, a, lo, b, lo', k)
    else SpanCollision(hs, a, lo + k, b, lo' + k, size - k)
  }

  /** A root and a leaf count fix the leaf list. */
  lemma RootFixesLeaves<H(!new)>(hs: Hashing<H>, a: seq<H>, b: seq<H>)
    requires CollisionFree(hs)
    requires |a| == |b| && ComputeRoot(hs, a) == ComputeRoot(hs, b)
    ensures a == b
  {
    if !SameSpan(a, 0, b, 0, |a|) {
      var c := SpanCollision(hs, a, 0, b, 0, |a|);
      assert false;
    }
    assert a[0..|a|] == a && b[0..|b|] == b;
  }
}
