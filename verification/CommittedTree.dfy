/** Committed leaf sets: when untrusted leaves open an anchored commitment, and how a producer orders them. */
module CommittedTree {
  import opened Basics
  import opened Merkle
  import opened Sorting

  /**
   * A leaf of a committed tree. `rest` stands for every member not named here, so two leaves are
   * equal exactly when their canonical JSON is.
   */
  datatype Leaf = Leaf(dataset: Option<string>, record: Option<string>, inputs: Option<Inputs>, rest: string)

  /** An `inputs` member: the inputs themselves, or the commitment to an input set. */
  datatype Inputs =
    | Listed(members: seq<Leaf>)
    | InputSet(root: Option<string>, count: Option<u64>)

  datatype AhlError =
    | Field(name: string)
    | Timestamp
    | InvalidCommitment(record: string)
    | DuplicateRecord(record: string)
    | TreeCountMismatch(declared: nat, got: nat)
    | TreeUnsorted(index: nat, record: string)
    | TreeRootMismatch(recomputed: string)
    | MissingTreeMaterial(root: string)

  /** How trees are hashed: leaf hash over canonical JSON, node hash, both rendered as root strings are. */
  datatype TreeHash = TreeHash(nodes: Hashing<string>, leaf: Leaf -> string)

  ghost predicate Collisionless(th: TreeHash) {
    && CollisionFree(th.nodes)
    && (forall a, b :: th.leaf(a) == th.leaf(b) ==> a == b)
  }

  function LeafHashes(th: TreeHash, leaves: seq<Leaf>): (hashes: seq<string>)
    ensures |hashes| == |leaves|
    ensures forall i :: 0 <= i < |leaves| ==> hashes[i] == th.leaf(leaves[i])
  {
    seq(|leaves|, i requires 0 <= i < |leaves| => th.leaf(leaves[i]))
  }

  function TreeRoot(th: TreeHash, leaves: seq<Leaf>): string {
    ComputeRoot(th.nodes, LeafHashes(th, leaves))
  }

  /** The root of a leaf list: of nothing, of a leaf's hash, or of a node over the first `2^e` leaves and the rest. */
  lemma TreeRootSplits(th: TreeHash, leaves: seq<Leaf>, e: nat)
    ensures TreeRoot(th, []) == th.nodes.empty
    ensures |leaves| == 1 ==> TreeRoot(th, leaves) == th.leaf(leaves[0])
    ensures Pow2(e) < |leaves| <= Pow2(e + 1) ==>
              TreeRoot(th, leaves) ==
                th.nodes.node(TreeRoot(th, leaves[..Pow2(e)]), TreeRoot(th, leaves[Pow2(e)..]))
  {
    var hashes := LeafHashes(th, leaves);
    RootSplits(th.nodes, hashes, e);
    assert LeafHashes(th, []) == [];
    if Pow2(e) < |leaves| <= Pow2(e + 1) {
      assert LeafHashes(th, leaves[..Pow2(e)]) == hashes[..Pow2(e)];
      assert LeafHashes(th, leaves[Pow2(e)..]) == hashes[Pow2(e)..];
    }
  }

  /** A root and a count fix the leaves, under a collision-free hash. */
  lemma RootFixesLeafList(th: TreeHash, a: seq<Leaf>, b: seq<Leaf>)
    requires Collisionless(th) && |a| == |b| && TreeRoot(th, a) == TreeRoot(th, b)
    ensures a == b
  {
    RootFixesLeaves(th.nodes, LeafHashes(th, a), LeafHashes(th, b));
    forall i | 0 <= i < |a| ensures a[i] == b[i] {
      assert th.leaf(a[i]) == LeafHashes(th, a)[i] == LeafHashes(th, b)[i] == th.leaf(b[i]);
    }
  }

  // ---------------------------------------------------------------------------
  // Commitment strings
  // ---------------------------------------------------------------------------

  const FAMILIES: set<string> := {"sha256", "hmac-sha256"}

  predicate IsLowerHex(c: char) {
    '0' <= c <= '9' || 'a' <= c <= 'f'
  }

  /** The text before and after the first colon. */
  function SplitAtColon(value: string): Option<(string, string)> {
    if value == [] then None
    else if value[0] == ':' then Some(([], value[1..]))
    else
      var rest := SplitAtColon(value[1..]);
      if rest.None? then None else Some(([value[0]] + rest.value.0, rest.value.1))
  }

  predicate IsCanonicalCommitment(value: string) {
    var parts := SplitAtColon(value);
    && parts.Some? && parts.value.0 in FAMILIES
    && |parts.value.1| == 64 && (forall c :: c in parts.value.1 ==> IsLowerHex(c))
  }

  lemma {:induction false} SplitAtColonOf(before: string, after: string)
    requires ':' !in before
    ensures SplitAtColon(before + ":" + after) == Some((before, after))
  {
    var value := before + ":" + after;
    if before == [] {
      assert value[1..] == after;
    } else {
      assert value[1..] == before[1..] + ":" + after;
      assert value[0] == before[0] && before == [before[0]] + before[1..];
      SplitAtColonOf(before[1..], after);
    }
  }

  lemma {:induction false} SplitAtColonRejoins(value: string)
    requires SplitAtColon(value).Some?
    ensures var (before, after) := SplitAtColon(value).value; value == before + ":" + after && ':' !in before
  {
    if value[0] == ':' {
      assert value == [] + ":" + value[1..];
    } else {
      SplitAtColonRejoins(value[1..]);
      var (before, after) := SplitAtColon(value[1..]).value;
      assert value == [value[0]] + (before + ":" + after);
    }
  }

  /** A canonical commitment is a family name, a colon and sixty-four lower-case hex digits. */
  lemma CanonicalForm(value: string)
    ensures IsCanonicalCommitment(value) <==>
      exists family, digits :: family in FAMILIES && |digits| == 64 && (forall c :: c in digits ==> IsLowerHex(c))
        && value == family + ":" + digits
  {
    if IsCanonicalCommitment(value) {
      SplitAtColonRejoins(value);
    }
    forall family, digits | family in FAMILIES && value == family + ":" + digits
      ensures SplitAtColon(value) == Some((family, digits))
    {
      SplitAtColonOf(family, digits);
    }
  }

  /** Strict ascending order of the bytes of a string. Commitment strings are US-ASCII: one byte a character. */
  predicate Before(a: string, b: string)
    decreases |a|
  {
    b != [] && (a == [] || a[0] < b[0] || (a[0] == b[0] && Before(a[1..], b[1..])))
  }

  lemma {:induction false} BeforeIsTotal(a: string, b: string)
    ensures Before(a, b) ==> !Before(b, a)
    ensures !Before(a, b) && !Before(b, a) <==> a == b
  {
    if a != [] && b != [] {
      BeforeIsTotal(a[1..], b[1..]);
      assert a == [a[0]] + a[1..] && b == [b[0]] + b[1..];
    }
  }

  lemma {:induction false} BeforeIsTransitive(a: string, b: string, c: string)
    requires Before(a, b) && Before(b, c)
    ensures Before(a, c)
  {
    if a != [] && a[0] == b[0] == c[0] {
      BeforeIsTransitive(a[1..], b[1..], c[1..]);
    }
  }

  /** At the first place two strings differ, `a` has ended or has the lesser character: ascending order of bytes. */
  ghost predicate Ascends(a: string, b: string) {
    exists k: nat :: k <= |a| && k < |b| && a[..k] == b[..k] && (k == |a| || a[k] < b[k])
  }

  lemma {:induction false} BeforeIff(a: string, b: string)
    ensures Before(a, b) <==> Ascends(a, b)
    decreases |a|
  {
    if a == [] {
      assert b != [] ==> a[..0] == b[..0];
    } else if b != [] {
      if a[0] == b[0] {
        BeforeIff(a[1..], b[1..]);
        if Ascends(a[1..], b[1..]) {
          var k: nat :| k <= |a[1..]| && k < |b[1..]| && a[1..][..k] == b[1..][..k]
            && (k == |a[1..]| || a[1..][k] < b[1..][k]);
          assert a[..k + 1] == [a[0]] + a[1..][..k] && b[..k + 1] == [b[0]] + b[1..][..k];
        }
        if Ascends(a, b) {
          var k: nat :| k <= |a| && k < |b| && a[..k] == b[..k] && (k == |a| || a[k] < b[k]);
          assert a[1..][..k - 1] == a[..k][1..] && b[1..][..k - 1] == b[..k][1..];
        }
      } else {
        assert a[..0] == b[..0];
        assert forall k :: 0 < k <= |a| && k < |b| ==> a[..k][0] == a[0] && b[..k][0] == b[0];
      }
    }
  }

  /** The families and the digits of a commitment, spelled out. */
  lemma CommitmentAlphabet(family: string, c: char)
    ensures family in FAMILIES <==> family == "sha256" || family == "hmac-sha256"
    ensures IsLowerHex(c) <==> c in "0123456789abcdef"
  {
    assert '0' <= c <= '9' ==> c in ['0', '1', '2', '3', '4', '5', '6', '7', '8', '9'];
    assert 'a' <= c <= 'f' ==> c in ['a', 'b', 'c', 'd', 'e', 'f'];
    assert "0123456789abcdef"
        == ['0', '1', '2', '3', '4', '5', '6', '7', '8', '9', 'a', 'b', 'c', 'd', 'e', 'f'];
  }

  // ---------------------------------------------------------------------------
  // Opening a commitment
  // ---------------------------------------------------------------------------

  /** Leaves that were checked against an anchored root and count. */
  datatype ValidatedLeafSet = ValidatedLeafSet(root: string, leaves: seq<Leaf>)

  /** What is wrong with leaf `i`, given the leaf before it. */
  function LeafDefect(leaves: seq<Leaf>, i: nat): Option<AhlError>
    requires i < |leaves|
  {
    var record := leaves[i].record;
    if record.None? then Some(Field("record"))
    else if !IsCanonicalCommitment(record.value) then Some(InvalidCommitment(record.value))
    else if i > 0 && leaves[i - 1].record.Some? && !Before(leaves[i - 1].record.value, record.value)
    then Some(TreeUnsorted(i, record.value))
    else None
  }

  /** The first defect among the first `n` leaves. */
  function FirstDefect(leaves: seq<Leaf>, n: nat): (defect: Option<AhlError>)
    requires n <= |leaves|
    ensures defect.None? <==> forall i :: 0 <= i < n ==> LeafDefect(leaves, i).None?
  {
    if n == 0 then None
    else
      var earlier := FirstDefect(leaves, n - 1);
      if earlier.Some? then earlier else LeafDefect(leaves, n - 1)
  }

  /** What opening decides: count first, then the leaves in order, then the root. */
  function OpenResult(th: TreeHash, root: string, declared: nat, leaves: seq<Leaf>)
    : Result<ValidatedLeafSet, AhlError>
  {
    if |leaves| != declared then Err(TreeCountMismatch(declared, |leaves|))
    else
      var defect := FirstDefect(leaves, |leaves|);
      if defect.Some? then Err(defect.value)
      else
        var recomputed := TreeRoot(th, leaves);
        if recomputed != root then Err(TreeRootMismatch(recomputed)) else Ok(ValidatedLeafSet(root, leaves))
  }

  method Open(th: TreeHash, root: string, declaredCount: u64, leaves: seq<Leaf>)
    returns (r: Result<ValidatedLeafSet, AhlError>)
    ensures r == OpenResult(th, root, declaredCount, leaves)
  {
    if |leaves| != declaredCount {
      return Err(TreeCountMismatch(declaredCount, |leaves|));
    }
    var previous: Option<string> := None;
    for index := 0 to |leaves|
      invariant FirstDefect(leaves, index).None?
      invariant if index == 0 then previous.None? else previous == leaves[index - 1].record && previous.Some?
    {
      var record := leaves[index].record;
      if record.None? {
        DefectDecides(leaves, index);
        return Err(Field("record"));
      }
      if !IsCanonicalCommitment(record.value) {
        DefectDecides(leaves, index);
        return Err(InvalidCommitment(record.value));
      }
      if previous.Some? && !Before(previous.value, record.value) {
        DefectDecides(leaves, index);
        return Err(TreeUnsorted(index, record.value));
      }
      previous := record;
    }
    var recomputed := TreeRoot(th, leaves);
    if recomputed != root {
      return Err(TreeRootMismatch(recomputed));
    }
    return Ok(ValidatedLeafSet(root, leaves));
  }

  lemma DefectDecides(leaves: seq<Leaf>, i: nat)
    requires i < |leaves| && FirstDefect(leaves, i).None? && LeafDefect(leaves, i).Some?
    ensures FirstDefect(leaves, |leaves|) == LeafDefect(leaves, i)
  {
    DefectSticks(leaves, i + 1, |leaves|);
  }

  lemma {:induction false} DefectSticks(leaves: seq<Leaf>, m: nat, n: nat)
    requires m <= n <= |leaves| && FirstDefect(leaves, m).Some?
    ensures FirstDefect(leaves, n) == FirstDefect(leaves, m)
    decreases n
  {
    if m < n {
      DefectSticks(leaves, m, n - 1);
    }
  }

  /** Every leaf names a canonical commitment, each strictly after the one before it. */
  ghost predicate WellOrdered(leaves: seq<Leaf>) {
    && (forall leaf :: leaf in leaves ==> leaf.record.Some? && IsCanonicalCommitment(leaf.record.value))
    && StrictlySorted(leaves, RecordOrder())
  }

  /** `leaves` open the commitment to `declared` leaves under `root`. */
  ghost predicate Opens(th: TreeHash, root: string, declared: nat, leaves: seq<Leaf>) {
    |leaves| == declared && WellOrdered(leaves) && TreeRoot(th, leaves) == root
  }

  function RecordKey(leaf: Leaf): string {
    if leaf.record.Some? then leaf.record.value else ""
  }

  function RecordOrder(): (Leaf, Leaf) -> bool {
    (a: Leaf, b: Leaf) => Before(RecordKey(a), RecordKey(b))
  }

  lemma RecordOrderIsOrder()
    ensures StrictWeakOrder(RecordOrder())
  {
    var less := RecordOrder();
    forall a, b ensures less(a, b) ==> !less(b, a) {
      BeforeIsTotal(RecordKey(a), RecordKey(b));
    }
    forall a, b, c ensures less(a, b) && less(b, c) ==> less(a, c) {
      if less(a, b) && less(b, c) {
        BeforeIsTransitive(RecordKey(a), RecordKey(b), RecordKey(c));
      }
    }
    forall a, b, c ensures less(a, c) ==> less(a, b) || less(b, c) {
      BeforeIsTotal(RecordKey(a), RecordKey(b));
      BeforeIsTotal(RecordKey(b), RecordKey(c));
      if less(a, c) && !less(a, b) && less(b, a) {
        BeforeIsTransitive(RecordKey(b), RecordKey(a), RecordKey(c));
      }
    }
  }

  /** Comparing neighbours is enough: no defect means the whole list is in order. */
  lemma {:induction false} NoDefectMeansSorted(leaves: seq<Leaf>, i: nat, j: nat)
    requires i < j < |leaves|
    requires forall k :: 0 <= k < |leaves| ==> LeafDefect(leaves, k).None?
    ensures RecordOrder()(leaves[i], leaves[j])
    decreases j
  {
    assert LeafDefect(leaves, j).None? && LeafDefect(leaves, j - 1).None?;
    if i < j - 1 {
      NoDefectMeansSorted(leaves, i, j - 1);
      BeforeIsTransitive(RecordKey(leaves[i]), RecordKey(leaves[j - 1]), RecordKey(leaves[j]));
    }
  }

  /** The leaf has a canonical record, after that of the leaf before it. */
  ghost predicate InPlace(leaves: seq<Leaf>, i: nat)
    requires i < |leaves|
  {
    && leaves[i].record.Some? && IsCanonicalCommitment(leaves[i].record.value)
    && (i > 0 && leaves[i - 1].record.Some? ==> Before(leaves[i - 1].record.value, leaves[i].record.value))
  }

  /** What is said of a leaf that is not: no record, or one that is not canonical, or not after the one before. */
  ghost predicate SaidOf(leaves: seq<Leaf>, i: nat, error: AhlError)
    requires i < |leaves|
  {
    match leaves[i].record
    case None => error == Field("record")
    case Some(record) =>
      error == if IsCanonicalCommitment(record) then TreeUnsorted(i, record) else InvalidCommitment(record)
  }

  /** Which error refuses a leaf list: its count, else the first leaf that is not in its place, else its root. */
  lemma OpenErrors(th: TreeHash, root: string, declared: nat, leaves: seq<Leaf>) returns (i: nat)
    ensures |leaves| != declared ==>
      OpenResult(th, root, declared, leaves) == Err(TreeCountMismatch(declared, |leaves|))
    ensures i <= |leaves| && forall j :: 0 <= j < i ==> InPlace(leaves, j)
    ensures |leaves| == declared && i < |leaves| ==>
      && !InPlace(leaves, i) && OpenResult(th, root, declared, leaves).Err?
      && SaidOf(leaves, i, OpenResult(th, root, declared, leaves).error)
    ensures |leaves| == declared && i == |leaves| && TreeRoot(th, leaves) != root ==>
      OpenResult(th, root, declared, leaves) == Err(TreeRootMismatch(TreeRoot(th, leaves)))
  {
    i := FirstOutOfPlace(leaves, |leaves|);
  }

  lemma {:induction false} FirstOutOfPlace(leaves: seq<Leaf>, n: nat) returns (i: nat)
    requires n <= |leaves|
    ensures i <= n && forall j :: 0 <= j < i ==> InPlace(leaves, j)
    ensures i == n ==> FirstDefect(leaves, n).None?
    ensures i < n ==>
      !InPlace(leaves, i) && FirstDefect(leaves, n).Some? && SaidOf(leaves, i, FirstDefect(leaves, n).value)
  {
    if n == 0 {
      i := 0;
    } else {
      i := FirstOutOfPlace(leaves, n - 1);
      if i == n - 1 && InPlace(leaves, n - 1) {
        i := n;
      }
    }
  }

  /** Opening succeeds exactly on well-ordered leaves with the anchored count and root. */
  lemma OpensIff(th: TreeHash, root: string, declared: nat, leaves: seq<Leaf>)
    ensures OpenResult(th, root, declared, leaves).Ok? <==> Opens(th, root, declared, leaves)
    ensures Opens(th, root, declared, leaves) ==>
      OpenResult(th, root, declared, leaves) == Ok(ValidatedLeafSet(root, leaves))
  {
    if FirstDefect(leaves, |leaves|).None? {
      forall i, j | 0 <= i < j < |leaves| ensures RecordOrder()(leaves[i], leaves[j]) {
        NoDefectMeansSorted(leaves, i, j);
      }
      forall leaf | leaf in leaves ensures leaf.record.Some? && IsCanonicalCommitment(leaf.record.value) {
        var i :| 0 <= i < |leaves| && leaves[i] == leaf;
        assert LeafDefect(leaves, i).None?;
      }
    }
    if WellOrdered(leaves) {
      forall i | 0 <= i < |leaves| ensures LeafDefect(leaves, i).None? {
        assert leaves[i] in leaves;
        if i > 0 {
          assert RecordOrder()(leaves[i - 1], leaves[i]);
        }
      }
    }
  }

  /** Two lists that open one commitment are one list. */
  lemma OpeningIsUnique(th: TreeHash, root: string, declared: nat, a: seq<Leaf>, b: seq<Leaf>)
    requires Collisionless(th)
    requires OpenResult(th, root, declared, a).Ok? && OpenResult(th, root, declared, b).Ok?
    ensures a == b
  {
    RootFixesLeafList(th, a, b);
  }

  // ---------------------------------------------------------------------------
  // Producing a committed order
  // ---------------------------------------------------------------------------

  ghost predicate AllCanonical(leaves: seq<Leaf>) {
    forall leaf :: leaf in leaves ==> leaf.record.Some? && IsCanonicalCommitment(leaf.record.value)
  }

  ghost predicate DistinctRecords(leaves: seq<Leaf>) {
    forall i, j :: 0 <= i < j < |leaves| ==> RecordKey(leaves[i]) != RecordKey(leaves[j])
  }

  /** Rearranging neither makes nor hides a pair of leaves with one record. */
  lemma SharedRecordSurvives(leaves: seq<Leaf>, rearranged: seq<Leaf>, i: nat, j: nat)
    requires multiset(leaves) == multiset(rearranged)
    requires i < j < |rearranged| && RecordKey(rearranged[i]) == RecordKey(rearranged[j])
    ensures !DistinctRecords(leaves)
  {
    var k, l;
    if rearranged[i] == rearranged[j] {
      k, l := RepeatSurvives(leaves, rearranged, i, j);
    } else {
      MultisetMembers(leaves, rearranged);
      assert rearranged[i] in leaves && rearranged[j] in leaves;
      k :| 0 <= k < |leaves| && leaves[k] == rearranged[i];
      l :| 0 <= l < |leaves| && leaves[l] == rearranged[j];
    }
    assert RecordKey(leaves[k]) == RecordKey(leaves[l]) && k != l;
  }

  lemma {:induction false} NeighboursDiffer(sorted: seq<Leaf>, i: nat, j: nat)
    requires Sorted(sorted, RecordOrder())
    requires forall k :: 0 < k < |sorted| ==> RecordKey(sorted[k - 1]) != RecordKey(sorted[k])
    requires i < j < |sorted|
    ensures RecordOrder()(sorted[i], sorted[j])
    decreases j
  {
    var less := RecordOrder();
    assert !less(sorted[j], sorted[j - 1]);
    BeforeIsTotal(RecordKey(sorted[j - 1]), RecordKey(sorted[j]));
    if i < j - 1 {
      NeighboursDiffer(sorted, i, j - 1);
      BeforeIsTransitive(RecordKey(sorted[i]), RecordKey(sorted[j - 1]), RecordKey(sorted[j]));
    }
  }

  /** The first leaf that no tree may hold, by the error it raises. */
  method RecordDefect(leaves: seq<Leaf>) returns (defect: Option<AhlError>)
    ensures defect.None? <==> AllCanonical(leaves)
    ensures defect.Some? ==> !defect.value.DuplicateRecord?
  {
    for i := 0 to |leaves|
      invariant forall k :: 0 <= k < i ==> leaves[k].record.Some? && IsCanonicalCommitment(leaves[k].record.value)
    {
      var record := leaves[i].record;
      assert leaves[i] in leaves;
      if record.None? {
        return Some(Field("record"));
      }
      if !IsCanonicalCommitment(record.value) {
        return Some(InvalidCommitment(record.value));
      }
    }
    return None;
  }

  /** The first place in a sorted list whose record is the one before it; the length where there is none. */
  method FirstRepeat(sorted: seq<Leaf>) returns (i: nat)
    ensures 0 < i < |sorted| ==> RecordKey(sorted[i - 1]) == RecordKey(sorted[i])
    ensures i == 0 || i >= |sorted| ==>
      forall k :: 0 < k < |sorted| ==> RecordKey(sorted[k - 1]) != RecordKey(sorted[k])
  {
    i := 1;
    while i < |sorted|
      invariant i >= 1
      invariant forall k :: 0 < k < i && k < |sorted| ==> RecordKey(sorted[k - 1]) != RecordKey(sorted[k])
    {
      if RecordKey(sorted[i - 1]) == RecordKey(sorted[i]) {
        return;
      }
      i := i + 1;
    }
  }

  lemma SortOrders(leaves: seq<Leaf>, sorted: seq<Leaf>)
    requires sorted == StableSort(leaves, RecordOrder())
    ensures multiset(sorted) == multiset(leaves) && Sorted(sorted, RecordOrder())
    ensures AllCanonical(leaves) ==> AllCanonical(sorted)
  {
    RecordOrderIsOrder();
    SortSorts(leaves, RecordOrder());
    MultisetMembers(sorted, leaves);
  }

  /** Sorted canonical leaves, no two neighbours of one record: the order a tree commits, and no record twice. */
  lemma SortedWithoutRepeat(leaves: seq<Leaf>, sorted: seq<Leaf>)
    requires multiset(sorted) == multiset(leaves) && Sorted(sorted, RecordOrder()) && AllCanonical(sorted)
    requires forall k :: 0 < k < |sorted| ==> RecordKey(sorted[k - 1]) != RecordKey(sorted[k])
    ensures WellOrdered(sorted) && DistinctRecords(leaves)
  {
    forall i, j | 0 <= i < j < |sorted| ensures RecordOrder()(sorted[i], sorted[j]) {
      NeighboursDiffer(sorted, i, j);
    }
    CommittedOrderIsDistinct(leaves, sorted);
  }

  /** The producer's sort: rejects what no order can commit, and otherwise rearranges into that order. */
  method RecordSorted(leaves: seq<Leaf>) returns (r: Result<seq<Leaf>, AhlError>)
    ensures r.Ok? ==> multiset(r.value) == multiset(leaves) && WellOrdered(r.value)
    ensures r.Ok? <==> AllCanonical(leaves) && DistinctRecords(leaves)
    ensures r.Err? ==> (r.error.DuplicateRecord? <==> AllCanonical(leaves))
  {
    var defect := RecordDefect(leaves);
    if defect.Some? {
      return Err(defect.value);
    }
    var sorted := StableSort(leaves, RecordOrder());
    SortOrders(leaves, sorted);
    var i := FirstRepeat(sorted);
    if 0 < i < |sorted| {
      SharedRecordSurvives(leaves, sorted, i - 1, i);
      return Err(DuplicateRecord(RecordKey(sorted[i])));
    }
    SortedWithoutRepeat(leaves, sorted);
    return Ok(sorted);
  }

  /** What the sort returns is the only arrangement of the leaves that any commitment opens with. */
  lemma SortedOrderIsTheOnlyOne(leaves: seq<Leaf>, sorted: seq<Leaf>, other: seq<Leaf>, th: TreeHash, root: string)
    requires multiset(sorted) == multiset(leaves) == multiset(other) && WellOrdered(sorted)
    ensures OpenResult(th, root, |other|, other).Ok? ==> other == sorted
    ensures OpenResult(th, TreeRoot(th, sorted), |leaves|, sorted).Ok?
  {
    MultisetMembers(sorted, leaves);
    OpensIff(th, root, |other|, other);
    OpensIff(th, TreeRoot(th, sorted), |sorted|, sorted);
    if WellOrdered(other) {
      RecordOrderIsOrder();
      SortFindsStrictOrder(leaves, other, RecordOrder());
      SortFindsStrictOrder(leaves, sorted, RecordOrder());
    }
  }

  lemma StrictOrderHasDistinctRecords(leaves: seq<Leaf>)
    requires StrictlySorted(leaves, RecordOrder())
    ensures DistinctRecords(leaves)
  {
    forall i, j | 0 <= i < j < |leaves| ensures RecordKey(leaves[i]) != RecordKey(leaves[j]) {
      assert RecordOrder()(leaves[i], leaves[j]);
      BeforeIsTotal(RecordKey(leaves[i]), RecordKey(leaves[j]));
    }
  }

  lemma DistinctSortedIsStrict(leaves: seq<Leaf>, order: seq<Leaf>, i: nat, j: nat)
    requires multiset(order) == multiset(leaves) && DistinctRecords(leaves)
    requires Sorted(order, RecordOrder()) && i < j < |order|
    ensures RecordOrder()(order[i], order[j])
  {
    assert !RecordOrder()(order[j], order[i]);
    if RecordKey(order[i]) == RecordKey(order[j]) {
      SharedRecordSurvives(leaves, order, i, j);
      assert false;
    }
    BeforeIsTotal(RecordKey(order[i]), RecordKey(order[j]));
  }

  lemma CommittedOrderIsDistinct(leaves: seq<Leaf>, order: seq<Leaf>)
    requires multiset(order) == multiset(leaves) && WellOrdered(order)
    ensures AllCanonical(leaves) && DistinctRecords(leaves)
  {
    MultisetMembers(order, leaves);
    StrictOrderHasDistinctRecords(order);
    forall i, j | 0 <= i < j < |leaves| ensures RecordKey(leaves[i]) != RecordKey(leaves[j]) {
      if RecordKey(leaves[i]) == RecordKey(leaves[j]) {
        SharedRecordSurvives(order, leaves, i, j);
        assert false;
      }
    }
  }

  lemma DistinctHasCommittedOrder(leaves: seq<Leaf>)
    requires AllCanonical(leaves) && DistinctRecords(leaves)
    ensures multiset(StableSort(leaves, RecordOrder())) == multiset(leaves) &&
      WellOrdered(StableSort(leaves, RecordOrder()))
  {
    var order := StableSort(leaves, RecordOrder());
    RecordOrderIsOrder();
    SortSorts(leaves, RecordOrder());
    MultisetMembers(order, leaves);
    forall i, j | 0 <= i < j < |order| ensures RecordOrder()(order[i], order[j]) {
      DistinctSortedIsStrict(leaves, order, i, j);
    }
  }

  /**
   * Leaves have an order that opens against its own root and count exactly when their records are canonical and
   * distinct.
   */
  lemma CommittableIff(th: TreeHash, leaves: seq<Leaf>)
    ensures (exists order :: multiset(order) == multiset(leaves) && Opens(th, TreeRoot(th, order), |order|, order))
      <==> AllCanonical(leaves) && DistinctRecords(leaves)
  {
    if order :| multiset(order) == multiset(leaves) && Opens(th, TreeRoot(th, order), |order|, order) {
      CommittedOrderIsDistinct(leaves, order);
    }
    if AllCanonical(leaves) && DistinctRecords(leaves) {
      DistinctHasCommittedOrder(leaves);
      var order := StableSort(leaves, RecordOrder());
      assert Opens(th, TreeRoot(th, order), |order|, order);
    }
  }
}
