/** Inclusion proofs: RFC 6962 audit paths and the verification loop of RFC 9162, section 2.1.3.2. */
module Inclusion {
  import opened Basics
  import opened Merkle

  /** The audit path of leaf `index` of `leaves[lo..lo + size]`, leaf to root (RFC 6962, section 2.1.1). */
  function AuditPath<H>(hs: Hashing<H>, leaves: seq<H>, lo: nat, size: nat, index: nat): seq<H>
    requires index < size && lo + size <= |leaves|
    decreases size
  {
    if size == 1 then []
    else
      var k := SplitPoint(size);
      if index < k
      then AuditPath(hs, leaves, lo, k, index) + [SpanRoot(hs, leaves, lo + k, size - k)]
      else AuditPath(hs, leaves, lo + k, size - k, index - k) + [SpanRoot(hs, leaves, lo, k)]
  }

  /** The state of the verification loop: `fn`, `sn` and `r` in the text of RFC 9162. */
  datatype Climb<H> = Climb(fn: nat, sn: nat, hash: H)

  /** Both counters shifted right until `fn` is odd or zero. */
  function SkipLevels(fn: nat, sn: nat): (nat, nat)
    decreases fn
  {
    if fn == 0 || fn % 2 == 1 then (fn, sn) else SkipLevels(fn / 2, sn / 2)
  }

  function ClimbOne<H>(hs: Hashing<H>, c: Climb<H>, sibling: H): Climb<H> {
    if c.fn % 2 == 1 || c.fn == c.sn then
      var (fn, sn) := SkipLevels(c.fn, c.sn);
      Climb(fn / 2, sn / 2, hs.node(sibling, c.hash))
    else
      Climb(c.fn / 2, c.sn / 2, hs.node(c.hash, sibling))
  }

  /** The loop over the path; `None` where it finds `sn` exhausted with path left over. */
  function ClimbPath<H>(hs: Hashing<H>, c: Climb<H>, path: seq<H>): Option<Climb<H>>
    decreases |path|
  {
    if path == [] then Some(c)
    else if c.sn == 0 then None
    else ClimbPath(hs, ClimbOne(hs, c, path[0]), path[1..])
  }

  function VerifyInclusion<H(==)>(hs: Hashing<H>, leaf: H, index: nat, size: nat, path: seq<H>, root: H): bool {
    index < size &&
    var end := ClimbPath(hs, Climb(index, size - 1, leaf), path);
    end.Some? && end.value.sn == 0 && end.value.hash == root
  }

  // ---------------------------------------------------------------------------
  // The loop follows the tree
  // ---------------------------------------------------------------------------

  /** The sides a leaf's path meets its siblings on, leaf to root: `true` where the sibling is on the left. */
  function Sides(size: nat, index: nat): seq<bool>
    requires index < size
    decreases size
  {
    if size == 1 then []
    else
      var k := SplitPoint(size);
      if index < k then Sides(k, index) + [false] else Sides(size - k, index - k) + [true]
  }

  /** A leaf hash combined with its siblings, each on its own side. */
  function Fold<H>(hs: Hashing<H>, leaf: H, sides: seq<bool>, path: seq<H>): H
    requires |sides| == |path|
    decreases |path|
  {
    if path == [] then leaf
    else
      var last := |path| - 1;
      var below := Fold(hs, leaf, sides[..last], path[..last]);
      if sides[last] then hs.node(path[last], below) else hs.node(below, path[last])
  }

  lemma {:induction false} ClimbPathAppend<H>(hs: Hashing<H>, c: Climb<H>, path: seq<H>, sibling: H)
    ensures var before := ClimbPath(hs, c, path);
      ClimbPath(hs, c, path + [sibling]) ==
        if before.None? || before.value.sn == 0 then None else Some(ClimbOne(hs, before.value, sibling))
    decreases |path|
  {
    if path == [] {
      assert ([] + [sibling])[1..] == [];
    } else if c.sn != 0 {
      assert (path + [sibling])[1..] == path[1..] + [sibling];
      ClimbPathAppend(hs, ClimbOne(hs, c, path[0]), path[1..], sibling);
    }
  }

  /** In a full left subtree of `2^e` leaves the loop runs as it would in the subtree alone. */
  lemma {:induction false} ClimbInLeft<H>(hs: Hashing<H>, e: nat, fn: nat, sn: nat, hash: H, path: seq<H>)
    requires fn < Pow2(e) <= sn < 2 * Pow2(e)
    ensures var alone := ClimbPath(hs, Climb(fn, Pow2(e) - 1, hash), path);
      alone.Some? && alone.value.sn == 0 ==>
        alone.value.fn == 0 && ClimbPath(hs, Climb(fn, sn, hash), path) == Some(Climb(0, 1, alone.value.hash))
    decreases e
  {
    if e > 0 && path != [] {
      var c := Climb(fn, Pow2(e) - 1, hash);
      assert Pow2(e) == 2 * Pow2(e - 1);
      var up, up' := ClimbOne(hs, c, path[0]), ClimbOne(hs, Climb(fn, sn, hash), path[0]);
      assert up.fn == up'.fn == fn / 2 && up.hash == up'.hash;
      ClimbInLeft(hs, e - 1, fn / 2, sn / 2, up.hash, path[1..]);
    }
  }

  /** `sn` and `fn` of a state with `2^j` more leaves to the left of everything it sees. */
  function Shifted<H>(c: Climb<H>, j: nat): Climb<H> {
    Climb(c.fn + Pow2(j), c.sn + Pow2(j), c.hash)
  }

  lemma HalveShifted(x: nat, j: nat)
    requires j > 0
    ensures (x + Pow2(j)) / 2 == x / 2 + Pow2(j - 1) && (x + Pow2(j)) % 2 == x % 2
  {
    assert Pow2(j) == 2 * Pow2(j - 1);
  }

  lemma {:induction false} SkipInRight(j: nat, fn: nat, sn: nat) returns (i: nat)
    requires 0 < fn <= sn < Pow2(j)
    ensures var (f, s) := SkipLevels(fn, sn);
      0 < f <= s < Pow2(i) && SkipLevels(fn + Pow2(j), sn + Pow2(j)) == (f + Pow2(i), s + Pow2(i))
    decreases fn
  {
    i := j;
    HalveShifted(fn, j);
    HalveShifted(sn, j);
    if fn % 2 == 0 {
      assert Pow2(j) == 2 * Pow2(j - 1);
      i := SkipInRight(j - 1, fn / 2, sn / 2);
    }
  }

  /** The step that first skips levels: the leaf is the last of its part, at an even position. */
  lemma SkippingStep<H>(hs: Hashing<H>, j: nat, n: nat, hash: H, sibling: H) returns (i: nat)
    requires 0 < n < Pow2(j) && n % 2 == 0
    ensures var up := ClimbOne(hs, Climb(n, n, hash), sibling);
      up.fn <= up.sn < Pow2(i) && ClimbOne(hs, Climb(n + Pow2(j), n + Pow2(j), hash), sibling) == Shifted(up, i)
  {
    var m := SkipInRight(j, n, n);
    var (f, s) := SkipLevels(n, n);
    HalveShifted(f, m);
    HalveShifted(s, m);
    assert Pow2(m) == 2 * Pow2(m - 1);
    i := m - 1;
  }

  lemma StepInRight<H>(hs: Hashing<H>, j: nat, c: Climb<H>, sibling: H) returns (i: nat)
    requires c.fn <= c.sn < Pow2(j) && c.sn > 0
    ensures ClimbOne(hs, c, sibling).fn <= ClimbOne(hs, c, sibling).sn < Pow2(i)
    ensures ClimbOne(hs, Shifted(c, j), sibling) == Shifted(ClimbOne(hs, c, sibling), i)
  {
    if c.fn == c.sn && c.fn % 2 == 0 {
      i := SkippingStep(hs, j, c.fn, c.hash, sibling);
    } else {
      i := j - 1;
      HalveShifted(c.fn, j);
      HalveShifted(c.sn, j);
    }
  }

  /** In the right part of a tree the loop keeps step with the run over that part alone. */
  lemma {:induction false} ClimbInRight<H>(hs: Hashing<H>, j: nat, c: Climb<H>, path: seq<H>) returns (i: nat)
    requires c.fn <= c.sn < Pow2(j)
    ensures var alone := ClimbPath(hs, c, path);
      alone.Some? && alone.value.sn == 0 ==>
        alone.value.fn == 0 && ClimbPath(hs, Shifted(c, j), path) == Some(Climb(Pow2(i), Pow2(i), alone.value.hash))
    decreases |path|
  {
    i := j;
    if path != [] && c.sn > 0 {
      var m := StepInRight(hs, j, c, path[0]);
      i := ClimbInRight(hs, m, ClimbOne(hs, c, path[0]), path[1..]);
    }
  }

  lemma {:induction false} SkipPowerOfTwo(i: nat)
    ensures SkipLevels(Pow2(i), Pow2(i)) == (1, 1)
  {
    if i > 0 {
      SkipPowerOfTwo(i - 1);
    }
  }

  /** The loop's end over a left subtree, and the step from there to the root. */
  lemma ClimbFromLeft<H>(hs: Hashing<H>, leaf: H, index: nat, size: nat, below: seq<H>, hash: H, sibling: H)
    requires size >= 2 && index < SplitPoint(size)
    requires ClimbPath(hs, Climb(index, SplitPoint(size) - 1, leaf), below) == Some(Climb(0, 0, hash))
    ensures ClimbPath(hs, Climb(index, size - 1, leaf), below + [sibling]) == Some(Climb(0, 0, hs.node(hash, sibling)))
  {
    HeightExists(size);
    ClimbPathAppend(hs, Climb(index, size - 1, leaf), below, sibling);
    ClimbInLeft(hs, CeilLog2(size) - 1, index, size - 1, leaf, below);
  }

  /** The loop's end over a right subtree, and the step from there to the root. */
  lemma ClimbFromRight<H>(hs: Hashing<H>, leaf: H, index: nat, size: nat, below: seq<H>, hash: H, sibling: H)
    requires size >= 2 && SplitPoint(size) <= index < size
    requires var k := SplitPoint(size);
      ClimbPath(hs, Climb(index - k, size - k - 1, leaf), below) == Some(Climb(0, 0, hash))
    ensures ClimbPath(hs, Climb(index, size - 1, leaf), below + [sibling]) == Some(Climb(0, 0, hs.node(sibling, hash)))
  {
    var k := SplitPoint(size);
    HeightExists(size);
    var part := Climb(index - k, size - k - 1, leaf);
    var i := ClimbInRight(hs, CeilLog2(size) - 1, part, below);
    assert Shifted(part, CeilLog2(size) - 1) == Climb(index, size - 1, leaf);
    ClimbPathAppend(hs, Climb(index, size - 1, leaf), below, sibling);
    SkipPowerOfTwo(i);
  }

  /** A path of the right length ends the loop at the top, on the fold of the path. */
  lemma {:induction false} ClimbFolds<H>(hs: Hashing<H>, leaf: H, index: nat, size: nat, path: seq<H>)
    requires index < size && |path| == |Sides(size, index)|
    ensures ClimbPath(hs, Climb(index, size - 1, leaf), path) ==
      Some(Climb(0, 0, Fold(hs, leaf, Sides(size, index), path)))
    decreases size
  {
    if size > 1 {
      var k, last := SplitPoint(size), |path| - 1;
      var below, sibling := path[..last], path[last];
      assert path == below + [sibling];
      if index < k {
        var sides := Sides(k, index);
        ClimbFolds(hs, leaf, index, k, below);
        ClimbFromLeft(hs, leaf, index, size, below, Fold(hs, leaf, sides, below), sibling);
      } else {
        var sides := Sides(size - k, index - k);
        ClimbFolds(hs, leaf, index - k, size - k, below);
        ClimbFromRight(hs, leaf, index, size, below, Fold(hs, leaf, sides, below), sibling);
      }
    }
  }

  lemma {:induction false} ClimbPathConcat<H>(hs: Hashing<H>, c: Climb<H>, path: seq<H>, more: seq<H>)
    ensures var before := ClimbPath(hs, c, path);
      ClimbPath(hs, c, path + more) == if before.None? then None else ClimbPath(hs, before.value, more)
    decreases |path|
  {
    if path == [] {
      assert path + more == more;
    } else if c.sn != 0 {
      assert (path + more)[1..] == path[1..] + more;
      ClimbPathConcat(hs, ClimbOne(hs, c, path[0]), path[1..], more);
    }
  }

  /** The loop accepts exactly the paths of the tree's own length that fold to the root. */
  lemma VerifiesIffFolds<H>(hs: Hashing<H>, leaf: H, index: nat, size: nat, path: seq<H>, root: H)
    requires index < size
    ensures VerifyInclusion(hs, leaf, index, size, path, root) <==>
              |path| == |Sides(size, index)| && Fold(hs, leaf, Sides(size, index), path) == root
  {
    var start, n := Climb(index, size - 1, leaf), |Sides(size, index)|;
    if |path| == n {
      ClimbFolds(hs, leaf, index, size, path);
    } else if |path| > n {
      assert path == path[..n] + path[n..];
      ClimbFolds(hs, leaf, index, size, path[..n]);
      ClimbPathConcat(hs, start, path[..n], path[n..]);
    } else {
      var pad := seq(n - |path|, _ => leaf);
      ClimbFolds(hs, leaf, index, size, path + pad);
      ClimbPathConcat(hs, start, path, pad);
    }
  }

  // ---------------------------------------------------------------------------
  // What an accepted inclusion proof means
  // ---------------------------------------------------------------------------

  /** The audit path is as long as the leaf is deep, and folds to the span's root. */
  ghost predicate PathFolds<H(!new)>(hs: Hashing<H>, leaves: seq<H>, lo: nat, size: nat, index: nat)
    requires index < size && lo + size <= |leaves|
  {
    var path, sides := AuditPath(hs, leaves, lo, size, index), Sides(size, index);
    |path| == |sides| && Fold(hs, leaves[lo + index], sides, path) == SpanRoot(hs, leaves, lo, size)
  }

  lemma {:induction false} AuditPathFolds<H(!new)>(hs: Hashing<H>, leaves: seq<H>, lo: nat, size: nat, index: nat)
    requires index < size && lo + size <= |leaves|
    ensures PathFolds(hs, leaves, lo, size, index)
    decreases size
  {
    if size > 1 {
      var k := SplitPoint(size);
      if index < k {
        AuditPathFolds(hs, leaves, lo, k, index);
      } else {
        AuditPathFolds(hs, leaves, lo + k, size - k, index - k);
      }
    }
  }

  /** Not the tree's own leaf with its own audit path. */
  ghost predicate Foreign<H(!new)>(
      hs: Hashing<H>, leaf: H, path: seq<H>, leaves: seq<H>, lo: nat, size: nat, index: nat)
    requires index < size && lo + size <= |leaves|
  {
    leaf != leaves[lo + index] || path != AuditPath(hs, leaves, lo, size, index)
  }

  /** A foreign path with the right sibling at its top is foreign below it. */
  lemma ForeignOnLeft<H(!new)>(
      hs: Hashing<H>, leaf: H, up: seq<H>, sibling: H, leaves: seq<H>, lo: nat, size: nat, index: nat)
    requires 1 < size && index < SplitPoint(size) && lo + size <= |leaves|
    requires Foreign(hs, leaf, up + [sibling], leaves, lo, size, index)
    requires sibling == SpanRoot(hs, leaves, lo + SplitPoint(size), size - SplitPoint(size))
    ensures Foreign(hs, leaf, up, leaves, lo, SplitPoint(size), index)
  {
  }

  lemma ForeignOnRight<H(!new)>(
      hs: Hashing<H>, leaf: H, up: seq<H>, sibling: H, leaves: seq<H>, lo: nat, size: nat, index: nat)
    requires 1 < size && SplitPoint(size) <= index < size && lo + size <= |leaves|
    requires Foreign(hs, leaf, up + [sibling], leaves, lo, size, index)
    requires sibling == SpanRoot(hs, leaves, lo, SplitPoint(size))
    ensures Foreign(hs, leaf, up, leaves, lo + SplitPoint(size), size - SplitPoint(size), index - SplitPoint(size))
  {
  }

  /** The fold of a path one hash longer than the sides below it. */
  lemma FoldTop<H(!new)>(hs: Hashing<H>, leaf: H, path: seq<H>, sides: seq<bool>, below: seq<bool>, side: bool)
      returns (up: seq<H>, sibling: H)
    requires sides == below + [side] && |path| == |sides|
    ensures path == up + [sibling] && |up| == |below|
    ensures var under := Fold(hs, leaf, below, up);
      Fold(hs, leaf, sides, path) == if side then hs.node(sibling, under) else hs.node(under, sibling)
  {
    up, sibling := path[..|path| - 1], path[|path| - 1];
  }

  /** A path folding to the tree's root, other than the audit path over the tree's leaf, exhibits a collision. */
  lemma {:induction false} FoldCollision<H(!new)>(
      hs: Hashing<H>, leaf: H, path: seq<H>, leaves: seq<H>, lo: nat, size: nat, index: nat)
      returns (c: Collision<H>)
    requires index < size && lo + size <= |leaves| && |path| == |Sides(size, index)|
    requires Fold(hs, leaf, Sides(size, index), path) == SpanRoot(hs, leaves, lo, size)
    requires Foreign(hs, leaf, path, leaves, lo, size, index)
    ensures IsCollision(hs, c)
    decreases size
  {
    if size > 1 {
      var k := SplitPoint(size);
      var (l, r) := (SpanRoot(hs, leaves, lo, k), SpanRoot(hs, leaves, lo + k, size - k));
      if index < k {
        var sides := Sides(k, index);
        var up, sibling := FoldTop(hs, leaf, path, Sides(size, index), sides, false);
        var below := Fold(hs, leaf, sides, up);
        if below != l || sibling != r {
          c := Collision(below, sibling, l, r);
        } else {
          ForeignOnLeft(hs, leaf, up, sibling, leaves, lo, size, index);
          c := FoldCollision(hs, leaf, up, leaves, lo, k, index);
        }
      } else {
        var sides := Sides(size - k, index - k);
        var up, sibling := FoldTop(hs, leaf, path, Sides(size, index), sides, true);
        var below := Fold(hs, leaf, sides, up);
        if below != r || sibling != l {
          c := Collision(sibling, below, l, r);
        } else {
          ForeignOnRight(hs, leaf, up, sibling, leaves, lo, size, index);
          c := FoldCollision(hs, leaf, up, leaves, lo + k, size - k, index - k);
        }
      }
    }
  }

  /** Under a collision-free hash, only the tree's own leaf with its own audit path is accepted. */
  lemma IncludedIffAuditPath<H(!new)>(hs: Hashing<H>, leaf: H, index: nat, path: seq<H>, leaves: seq<H>)
    requires CollisionFree(hs) && index < |leaves|
    ensures VerifyInclusion(hs, leaf, index, |leaves|, path, ComputeRoot(hs, leaves)) <==>
              leaf == leaves[index] && path == AuditPath(hs, leaves, 0, |leaves|, index)
  {
    VerifiesIffFolds(hs, leaf, index, |leaves|, path, ComputeRoot(hs, leaves));
    AuditPathFolds(hs, leaves, 0, |leaves|, index);
    if && VerifyInclusion(hs, leaf, index, |leaves|, path, ComputeRoot(hs, leaves))
       && (leaf != leaves[index] || path != AuditPath(hs, leaves, 0, |leaves|, index)) {
      var c := FoldCollision(hs, leaf, path, leaves, 0, |leaves|, index);
      assert false;
    }
  }
}
