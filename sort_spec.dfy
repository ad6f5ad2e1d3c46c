/** Pure specifications the producers are proved against: ascending order,
    the number of pairs and of inversions of a sequence, and the merge of two
    runs that takes ties from the left run. */
module SortSpec {

  predicate IsSorted(s: seq<int>) {
    forall i, j :: 0 <= i < j < |s| ==> s[i] <= s[j]
  }

  /** s[a] <= s[b]; named so that ordering facts stated with it are only
      instantiated where a proof mentions the pair. */
  ghost predicate InOrder(s: seq<int>, a: int, b: int)
    requires 0 <= a < |s| && 0 <= b < |s|
  {
    s[a] <= s[b]
  }

  /** Every element of s is at least x. */
  predicate AllAtLeast(x: int, s: seq<int>) {
    forall k :: 0 <= k < |s| ==> x <= s[k]
  }

  /** Every element of s is at most x. */
  predicate AllAtMost(s: seq<int>, x: int) {
    forall k :: 0 <= k < |s| ==> s[k] <= x
  }

  /** Number of index pairs i < j below k, i.e. k * (k - 1) / 2. */
  function Pairs(k: nat): nat {
    if k == 0 then 0 else Pairs(k - 1) + (k - 1)
  }

  lemma {:induction false} PairsClosedForm(k: nat)
    ensures 2 * Pairs(k) == k * (k - 1)
  {
    if k > 0 {
      PairsClosedForm(k - 1);
      assert 2 * Pairs(k) == (k - 1) * (k - 2) + 2 * (k - 1);
    }
  }

  /** How many elements of s are strictly greater than x. */
  function CountAbove(x: int, s: seq<int>): nat
  {
    if s == [] then 0 else (if s[0] > x then 1 else 0) + CountAbove(x, s[1..])
  }

  lemma {:induction false} CountAboveBound(x: int, s: seq<int>)
    ensures CountAbove(x, s) <= |s|
  {
    if s != [] {
      CountAboveBound(x, s[1..]);
    }
  }

  lemma {:induction false} CountAboveConcat(x: int, a: seq<int>, b: seq<int>)
    ensures CountAbove(x, a + b) == CountAbove(x, a) + CountAbove(x, b)
  {
    if a != [] {
      assert (a + b)[1..] == a[1..] + b;
      CountAboveConcat(x, a[1..], b);
    } else {
      assert a + b == b;
    }
  }

  /** Removing the element at k lowers the count by that element's share. */
  lemma CountAboveRemove(x: int, b: seq<int>, k: nat)
    requires k < |b|
    ensures CountAbove(x, b) == CountAbove(x, b[..k] + b[k + 1..]) + (if b[k] > x then 1 else 0)
  {
    assert b == b[..k] + ([b[k]] + b[k + 1..]);
    CountAboveConcat(x, b[..k], [b[k]] + b[k + 1..]);
    CountAboveConcat(x, [b[k]], b[k + 1..]);
    CountAboveConcat(x, b[..k], b[k + 1..]);
  }

  /** Taking the head of a off both sides of a multiset equation: what is
      left of b once one occurrence of a[0] (at k) is removed matches a[1..]. */
  lemma MultisetRemoveHead(a: seq<int>, b: seq<int>, k: nat)
    requires multiset(a) == multiset(b) && a != [] && k < |b| && b[k] == a[0]
    ensures multiset(a[1..]) == multiset(b[..k] + b[k + 1..])
  {
    assert b == b[..k] + [b[k]] + b[k + 1..];
    assert multiset(b) == multiset(b[..k]) + multiset{a[0]} + multiset(b[k + 1..]);
    assert multiset(b[..k] + b[k + 1..]) == multiset(b[..k]) + multiset(b[k + 1..]);
    assert a == [a[0]] + a[1..];
    assert multiset(a) == multiset{a[0]} + multiset(a[1..]);
    assert multiset(a[1..]) == multiset(a) - multiset{a[0]};
    assert multiset(b[..k] + b[k + 1..]) == multiset(b) - multiset{a[0]};
  }

  /** CountAbove depends only on the multiset of the sequence. */
  lemma {:induction false} CountAbovePermutation(x: int, a: seq<int>, b: seq<int>)
    requires multiset(a) == multiset(b)
    ensures CountAbove(x, a) == CountAbove(x, b)
    decreases |a|
  {
    if a == [] {
      assert |multiset(b)| == 0;
    } else {
      assert a[0] in multiset(b);
      var k :| 0 <= k < |b| && b[k] == a[0];
      MultisetRemoveHead(a, b, k);
      CountAbovePermutation(x, a[1..], b[..k] + b[k + 1..]);
      CountAboveRemove(x, b, k);
    }
  }

  /** No element exceeds x exactly when the count is zero. */
  lemma {:induction false} CountAboveZero(x: int, s: seq<int>)
    ensures CountAbove(x, s) == 0 <==> AllAtMost(s, x)
  {
    if s != [] {
      CountAboveZero(x, s[1..]);
      assert forall k :: 1 <= k < |s| ==> s[k] == s[1..][k - 1];
    }
  }

  /** Every element exceeds x exactly when the count is the length. */
  lemma {:induction false} CountAboveAll(x: int, s: seq<int>)
    ensures CountAbove(x, s) == |s| <==> forall k :: 0 <= k < |s| ==> s[k] > x
  {
    if s != [] {
      CountAboveAll(x, s[1..]);
      CountAboveBound(x, s[1..]);
      assert forall k :: 1 <= k < |s| ==> s[k] == s[1..][k - 1];
    }
  }

  /** Number of pairs i < j with s[i] > s[j]: each element is charged with
      the elements before it that are larger. */
  function Inversions(s: seq<int>): nat
  {
    if s == [] then 0
    else Inversions(s[..|s| - 1]) + CountAbove(s[|s| - 1], s[..|s| - 1])
  }

  /** There are no more inversions than pairs. */
  lemma {:induction false} InversionsBound(s: seq<int>)
    ensures Inversions(s) <= Pairs(|s|)
  {
    if s != [] {
      InversionsBound(s[..|s| - 1]);
      CountAboveBound(s[|s| - 1], s[..|s| - 1]);
    }
  }

  /** Appending x adds the inversions x forms with the elements before it. */
  lemma InversionsSnoc(p: seq<int>, x: int)
    ensures Inversions(p + [x]) == Inversions(p) + CountAbove(x, p)
  {
    assert (p + [x])[..|p|] == p;
  }

  /** Exchanging the out-of-order last two elements removes one inversion. */
  lemma InversionsSwapLast(p: seq<int>, x: int, y: int)
    requires x > y
    ensures Inversions(p + [y] + [x]) + 1 == Inversions(p + [x] + [y])
  {
    InversionsSnoc(p + [x], y);
    InversionsSnoc(p + [y], x);
    InversionsSnoc(p, x);
    InversionsSnoc(p, y);
    CountAboveConcat(y, p, [x]);
    CountAboveConcat(x, p, [y]);
  }

  /** Exchanging an adjacent out-of-order pair removes exactly one inversion. */
  lemma {:induction false} InversionsSwapAdjacent(s: seq<int>, j: nat)
    requires j + 1 < |s| && s[j] > s[j + 1]
    ensures Inversions(s[j := s[j + 1]][j + 1 := s[j]]) + 1 == Inversions(s)
  {
    var t := s[j := s[j + 1]][j + 1 := s[j]];
    var m := |s| - 1;
    if j + 1 == m {
      var p := s[..j];
      assert s == p + [s[j]] + [s[m]];
      assert t == p + [s[m]] + [s[j]];
      InversionsSwapLast(p, s[j], s[m]);
    } else {
      var u := t[..m];
      assert u == s[..m][j := s[j + 1]][j + 1 := s[j]];
      InversionsSwapAdjacent(s[..m], j);
      assert multiset(u) == multiset(s[..m]);
      CountAbovePermutation(s[m], u, s[..m]);
      assert s == s[..m] + [s[m]];
      assert t == u + [s[m]];
      InversionsSnoc(s[..m], s[m]);
      InversionsSnoc(u, s[m]);
    }
  }

  /** A sequence is ascending exactly when it has no inversion. */
  lemma {:induction false} InversionsZeroIffSorted(s: seq<int>)
    ensures Inversions(s) == 0 <==> IsSorted(s)
  {
    if s != [] {
      var m := |s| - 1;
      var p := s[..m];
      InversionsZeroIffSorted(p);
      CountAboveZero(s[m], p);
      assert s == p + [s[m]];
      if IsSorted(p) && AllAtMost(p, s[m]) {
        assert IsSorted(s);
      }
    }
  }

  /** An ascending sequence stays ascending with a new smallest head. */
  lemma SortedPrepend(x: int, t: seq<int>)
    requires IsSorted(t) && AllAtLeast(x, t)
    ensures IsSorted([x] + t)
  {
  }

  /** Merge of two runs; on equal heads the left run goes first. */
  function Merged(a: seq<int>, b: seq<int>): (r: seq<int>)
    ensures |r| == |a| + |b|
    decreases |a| + |b|
  {
    if a == [] then b
    else if b == [] then a
    else if a[0] <= b[0] then [a[0]] + Merged(a[1..], b)
    else [b[0]] + Merged(a, b[1..])
  }

  /** The merge holds every element of both runs, and nothing else. */
  lemma {:induction false} MergedPermutation(a: seq<int>, b: seq<int>)
    ensures multiset(Merged(a, b)) == multiset(a) + multiset(b)
    decreases |a| + |b|
  {
    if a != [] && b != [] {
      if a[0] <= b[0] {
        var rest := Merged(a[1..], b);
        MergedPermutation(a[1..], b);
        assert Merged(a, b) == [a[0]] + rest;
        assert multiset([a[0]] + rest) == multiset{a[0]} + multiset(rest);
        assert a == [a[0]] + a[1..];
        assert multiset(a) == multiset{a[0]} + multiset(a[1..]);
      } else {
        var rest := Merged(a, b[1..]);
        MergedPermutation(a, b[1..]);
        assert Merged(a, b) == [b[0]] + rest;
        assert multiset([b[0]] + rest) == multiset{b[0]} + multiset(rest);
        assert b == [b[0]] + b[1..];
        assert multiset(b) == multiset{b[0]} + multiset(b[1..]);
      }
    }
  }

  /** A lower bound on both runs bounds their merge. */
  lemma {:induction false} MergedAtLeast(x: int, a: seq<int>, b: seq<int>)
    requires AllAtLeast(x, a) && AllAtLeast(x, b)
    ensures AllAtLeast(x, Merged(a, b))
    decreases |a| + |b|
  {
    if a != [] && b != [] {
      if a[0] <= b[0] {
        assert AllAtLeast(x, a[1..]);
        MergedAtLeast(x, a[1..], b);
      } else {
        assert AllAtLeast(x, b[1..]);
        MergedAtLeast(x, a, b[1..]);
      }
    }
  }

  /** Merging two ascending runs gives an ascending sequence. */
  lemma {:induction false} MergedSorted(a: seq<int>, b: seq<int>)
    requires IsSorted(a) && IsSorted(b)
    ensures IsSorted(Merged(a, b))
    decreases |a| + |b|
  {
    if a != [] && b != [] {
      if a[0] <= b[0] {
        assert AllAtLeast(a[0], a[1..]);
        assert AllAtLeast(a[0], b);
        MergedSorted(a[1..], b);
        MergedAtLeast(a[0], a[1..], b);
        SortedPrepend(a[0], Merged(a[1..], b));
      } else {
        assert AllAtLeast(b[0], a);
        assert AllAtLeast(b[0], b[1..]);
        MergedSorted(a, b[1..]);
        MergedAtLeast(b[0], a, b[1..]);
        SortedPrepend(b[0], Merged(a, b[1..]));
      }
    }
  }

  /** An element between an ascending run of smaller-or-equal values and an
      ascending run of larger-or-equal values keeps the whole ascending. */
  lemma SortedAround(a: seq<int>, x: int, b: seq<int>)
    requires IsSorted(a) && IsSorted(b)
    requires AllAtMost(a, x) && AllAtLeast(x, b)
    ensures IsSorted(a + [x] + b)
  {
  }

  /** a and b agree outside lo..hi - 1. */
  ghost predicate SameOutside(a: seq<int>, b: seq<int>, lo: int, hi: int)
    requires |a| == |b|
  {
    forall p :: 0 <= p < |a| && !(lo <= p < hi) ==> a[p] == b[p]
  }

  /** a[l..r] is ascending, stated pair by pair so that the ordering facts
      are only used where a proof names the pair. */
  ghost predicate SortedRun(a: seq<int>, l: nat, r: int)
    requires r < |a|
  {
    forall i, j :: l <= i < j <= r ==> InOrder(a, i, j)
  }

  /** SortedRun is IsSorted of the slice. */
  lemma SortedRunSlice(a: seq<int>, l: nat, r: int)
    requires l <= r + 1 <= |a|
    ensures SortedRun(a, l, r) <==> IsSorted(a[l..r + 1])
  {
    var t := a[l..r + 1];
    if SortedRun(a, l, r) {
      forall i, j | 0 <= i < j < |t| ensures t[i] <= t[j] {
        assert InOrder(a, l + i, l + j);
      }
    }
    if IsSorted(t) {
      forall i, j | l <= i < j <= r ensures InOrder(a, i, j) {
        assert t[i - l] <= t[j - l];
      }
    }
  }

  /** The array after sort(arr, l, r), from the array before: l..r is
      ascending, the values are a rearrangement of the old ones, and the
      cells outside l..r keep their values. */
  ghost predicate SortedInto(a: seq<int>, b: seq<int>, l: nat, r: int)
    requires l <= r + 1 <= |a| == |b|
  {
    SortedRun(a, l, r) && multiset(a) == multiset(b) && SameOutside(a, b, l, r + 1)
  }

  /** A range of at most one value is sorted by doing nothing. */
  lemma SortedIntoShort(a: seq<int>, l: nat, r: int)
    requires l <= r + 1 <= |a| && r <= l
    ensures SortedInto(a, a, l, r)
  {
  }

  /** Two ascending rearrangements of the same values start with the same
      value, their least one. */
  lemma SortedHeads(a: seq<int>, b: seq<int>)
    requires IsSorted(a) && IsSorted(b) && multiset(a) == multiset(b) && a != []
    ensures b != [] && a[0] == b[0]
  {
    assert a[0] in multiset(b);
    var i :| 0 <= i < |b| && b[i] == a[0];
    assert b[0] in multiset(a);
    var j :| 0 <= j < |a| && a[j] == b[0];
    assert b[0] <= b[i] && a[0] <= a[j];
  }

  /** An ascending sequence is determined by its multiset: two ascending
      rearrangements of the same values are equal. */
  lemma {:induction false} SortedUnique(a: seq<int>, b: seq<int>)
    requires IsSorted(a) && IsSorted(b) && multiset(a) == multiset(b)
    ensures a == b
    decreases |a|
  {
    assert |a| == |multiset(a)| == |multiset(b)| == |b|;
    if a != [] {
      SortedHeads(a, b);
      MultisetRemoveHead(a, b, 0);
      var ta, tb := a[1..], b[1..];
      assert b[..0] + tb == tb;
      SortedUnique(ta, tb);
      forall k | 0 < k < |a| ensures a[k] == b[k] {
        assert a[k] == ta[k - 1] && b[k] == tb[k - 1];
      }
    }
  }
}
