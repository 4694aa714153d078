/** Updates of a vector. */
module Seqs {

  /** std::vector::insert */
  method InsertAt<T>(s: seq<T>, p: nat, x: T) returns (r: seq<T>)
    requires p <= |s|
    ensures |r| == |s| + 1 && r[p] == x
    ensures forall i :: 0 <= i < p ==> r[i] == s[i]
    ensures forall i :: p < i < |r| ==> r[i] == s[i - 1]
    ensures forall y :: y in r <==> y in s || y == x
  {
    r := s[..p] + [x] + s[p..];
    assert s == s[..p] + s[p..];
  }
}
