/** The stable sort of the standard library, as a function, and what fixes its result. */
module Sorting {

  /** `x` placed before the first element that is not strictly smaller. */
  function Insert<T>(x: T, s: seq<T>, less: (T, T) -> bool): seq<T>
  {
    if s == [] || !less(s[0], x) then [x] + s else [s[0]] + Insert(x, s[1..], less)
  }

  function StableSort<T>(s: seq<T>, less: (T, T) -> bool): (r: seq<T>)
  {
    if s == [] then [] else Insert(s[0], StableSort(s[1..], less), less)
  }

  /** `less` is transitive, and so is being no smaller: a strict weak order. */
  ghost predicate StrictWeakOrder<T(!new)>(less: (T, T) -> bool) {
    && (forall a, b :: less(a, b) ==> !less(b, a))
    && (forall a, b, c :: less(a, b) && less(b, c) ==> less(a, c))
    && (forall a, b, c :: less(a, c) ==> less(a, b) || less(b, c))
  }

  ghost predicate Sorted<T>(s: seq<T>, less: (T, T) -> bool) {
    forall i, j :: 0 <= i < j < |s| ==> !less(s[j], s[i])
  }

  ghost predicate StrictlySorted<T>(s: seq<T>, less: (T, T) -> bool) {
    forall i, j :: 0 <= i < j < |s| ==> less(s[i], s[j])
  }

  lemma {:induction false} InsertRearranges<T>(x: T, s: seq<T>, less: (T, T) -> bool)
    ensures multiset(Insert(x, s, less)) == multiset{x} + multiset(s)
  {
    if s != [] && less(s[0], x) {
      InsertRearranges(x, s[1..], less);
      assert s == [s[0]] + s[1..];
    }
  }

  lemma {:induction false} InsertSorts<T(!new)>(x: T, s: seq<T>, less: (T, T) -> bool)
    requires StrictWeakOrder(less) && Sorted(s, less)
    ensures Sorted(Insert(x, s, less), less)
  {
    if s != [] && less(s[0], x) {
      InsertSorts(x, s[1..], less);
      InsertRearranges(x, s[1..], less);
      ConsSorts(s[0], Insert(x, s[1..], less), multiset{x} + multiset(s[1..]), less);
    } else if s != [] {
      ConsSorts(x, s, multiset(s), less);
    }
  }

  lemma ConsSorts<T(!new)>(x: T, s: seq<T>, members: multiset<T>, less: (T, T) -> bool)
    requires Sorted(s, less) && multiset(s) == members
    requires forall y :: y in members ==> !less(y, x)
    ensures Sorted([x] + s, less)
  {
    forall j | 0 <= j < |s| ensures !less(s[j], x) {
      assert s[j] in multiset(s);
    }
  }

  /** The result is the input rearranged, in order. */
  lemma {:induction false} SortSorts<T(!new)>(s: seq<T>, less: (T, T) -> bool)
    ensures multiset(StableSort(s, less)) == multiset(s)
    ensures StrictWeakOrder(less) ==> Sorted(StableSort(s, less), less)
  {
    if s != [] {
      SortSorts(s[1..], less);
      InsertRearranges(s[0], StableSort(s[1..], less), less);
      if StrictWeakOrder(less) {
        InsertSorts(s[0], StableSort(s[1..], less), less);
      }
      assert s == [s[0]] + s[1..];
    }
  }

  lemma MultisetMembers<T>(a: seq<T>, b: seq<T>)
    requires multiset(a) == multiset(b)
    ensures |a| == |b|
    ensures forall x :: x in a <==> x in b
  {
    assert |multiset(a)| == |a| && |multiset(b)| == |b|;
    forall x ensures x in a <==> x in b {
      assert x in a <==> x in multiset(a);
      assert x in b <==> x in multiset(b);
    }
  }

  lemma SameHead<T(!new)>(a: seq<T>, b: seq<T>, less: (T, T) -> bool)
    requires multiset(a) == multiset(b) && a != [] && b != []
    requires StrictlySorted(a, less) && Sorted(b, less)
    ensures a[0] == b[0]
  {
    MultisetMembers(a, b);
    assert b[0] in a && a[0] in b;
    var i :| 0 <= i < |a| && a[i] == b[0];
    var j :| 0 <= j < |b| && b[j] == a[0];
  }

  lemma SameTail<T>(a: seq<T>, b: seq<T>)
    requires multiset(a) == multiset(b) && a != [] && b != [] && a[0] == b[0]
    ensures multiset(a[1..]) == multiset(b[1..])
  {
    assert a == [a[0]] + a[1..] && b == [b[0]] + b[1..];
    assert multiset(a[1..]) == multiset(a) - multiset{a[0]};
    assert multiset(b[1..]) == multiset(b) - multiset{b[0]};
  }

  /** A strictly sorted arrangement is the only sorted one. */
  lemma {:induction false} StrictlySortedUnique<T(!new)>(a: seq<T>, b: seq<T>, less: (T, T) -> bool)
    requires multiset(a) == multiset(b)
    requires StrictlySorted(a, less) && Sorted(b, less)
    ensures a == b
    decreases |a|
  {
    MultisetMembers(a, b);
    if a != [] {
      SameHead(a, b, less);
      SameTail(a, b);
      StrictlySortedUnique(a[1..], b[1..], less);
      assert a == [a[0]] + a[1..] && b == [b[0]] + b[1..];
    }
  }

  /** The stable sort finds the strictly sorted arrangement whenever there is one. */
  lemma SortFindsStrictOrder<T(!new)>(s: seq<T>, sorted: seq<T>, less: (T, T) -> bool)
    requires StrictWeakOrder(less)
    requires multiset(s) == multiset(sorted) && StrictlySorted(sorted, less)
    ensures StableSort(s, less) == sorted
  {
    SortSorts(s, less);
    StrictlySortedUnique(sorted, StableSort(s, less), less);
  }

  lemma SplitAround<T>(s: seq<T>, i: nat)
    requires i < |s|
    ensures multiset(s) == multiset(s[..i]) + multiset{s[i]} + multiset(s[i + 1..])
  {
    assert s == s[..i] + [s[i]] + s[i + 1..];
  }

  /** A rearrangement that holds one value in two places comes from a list that does. */
  lemma RepeatSurvives<T>(s: seq<T>, r: seq<T>, i: nat, j: nat) returns (k: nat, l: nat)
    requires multiset(s) == multiset(r) && i < j < |r| && r[i] == r[j]
    ensures k < |s| && l < |s| && k != l && s[k] == s[l] == r[i]
  {
    var x := r[i];
    SplitAround(r, j);
    assert x in r[..j] by { assert r[..j][i] == x; }
    assert multiset(s)[x] >= 2;
    assert x in multiset(s);
    k :| 0 <= k < |s| && s[k] == x;
    SplitAround(s, k);
    if x in multiset(s[..k]) {
      l :| 0 <= l < k && s[..k][l] == x;
    } else {
      var m :| 0 <= m < |s| - k - 1 && s[k + 1..][m] == x;
      l := k + 1 + m;
    }
  }
}
