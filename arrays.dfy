/** In-place operations on the producers' working arrays. */
module Arrays {

  /** The destructuring exchange of two cells of the value array. */
  method Swap(a: array<int>, i: int, j: int)
    requires 0 <= i < a.Length && 0 <= j < a.Length
    modifies a
    ensures a[i] == old(a[j]) && a[j] == old(a[i])
    ensures a[..] == old(a[..])[i := old(a[j])][j := old(a[i])]
    ensures multiset(a[..]) == old(multiset(a[..]))
  {
    a[i], a[j] := a[j], a[i];
  }

  /** Copy of the input into a fresh array (the spread copy every producer
      starts from). */
  method CopyOf(input: seq<int>) returns (a: array<int>)
    ensures fresh(a) && a[..] == input
  {
    a := new int[|input|](k requires 0 <= k < |input| => input[k]);
    assert a[..] == input;
  }
}
