/**
  `DataFrame.drop_duplicates()` with its default `keep='first'`: a row is
  dropped exactly when an equal row occurs earlier, and the survivors keep
  their order.
*/
module Dedup {

  /** No two positions hold equal values. */
  predicate Distinct<T(==)>(s: seq<T>) {
    forall i, j :: 0 <= i < j < |s| ==> s[i] != s[j]
  }

  /** Position `i` holds a value that no earlier position holds. */
  predicate IsFirst<T(==)>(s: seq<T>, i: int) {
    0 <= i < |s| && forall j :: 0 <= j < i ==> s[j] != s[i]
  }

  /** The position of the first occurrence of `x` in `s`. */
  function FirstIndex<T(==)>(s: seq<T>, x: T): (k: nat)
    requires x in s
    ensures IsFirst(s, k) && s[k] == x
  {
    if s[0] == x then 0 else 1 + FirstIndex(s[1..], x)
  }

  /** A position whose value does not occur earlier is the first index of that value. */
  lemma FirstIndexUnique<T>(s: seq<T>, k: nat)
    requires IsFirst(s, k)
    ensures FirstIndex(s, s[k]) == k
  {
  }

  /** Keeps the first occurrence of every value, in order of first occurrence. */
  function DropDuplicates<T(==)>(s: seq<T>): (r: seq<T>)
    ensures Distinct(r)
    ensures forall i :: 0 <= i < |s| ==> s[i] in r
    ensures forall k :: 0 <= k < |r| ==> r[k] in s
    ensures |r| <= |s|
    decreases |s|
  {
    if |s| == 0 then []
    else
      var n := |s| - 1;
      var init := DropDuplicates(s[..n]);
      assert s == s[..n] + [s[n]];
      if s[n] in s[..n] then init else init + [s[n]]
  }

  /** Appending a value leaves the first index of every earlier value alone. */
  lemma FirstIndexAppend<T>(p: seq<T>, x: T, y: T)
    requires y in p
    ensures FirstIndex(p + [x], y) == FirstIndex(p, y)
  {
    var f := FirstIndex(p, y);
    assert (p + [x])[f] == y;
    FirstIndexUnique(p + [x], f);
  }

  /** Survivors appear in the order of their first occurrences in the input. */
  lemma {:induction false} DropDuplicatesOrder<T>(s: seq<T>)
    ensures forall a, b :: 0 <= a < b < |DropDuplicates(s)| ==>
      FirstIndex(s, DropDuplicates(s)[a]) < FirstIndex(s, DropDuplicates(s)[b])
    decreases |s|
  {
    if |s| > 0 {
      var n := |s| - 1;
      var p, x := s[..n], s[n];
      assert s == p + [x];
      DropDuplicatesOrder(p);
      var r, init := DropDuplicates(s), DropDuplicates(p);
      forall a, b | 0 <= a < b < |r|
        ensures FirstIndex(s, r[a]) < FirstIndex(s, r[b])
      {
        assert r[a] == init[a];
        FirstIndexAppend(p, x, r[a]);
        if b < |init| {
          assert r[b] == init[b];
          FirstIndexAppend(p, x, r[b]);
        } else {
          assert r[b] == x && x !in p;
          assert IsFirst(s, n);
          FirstIndexUnique(s, n);
        }
      }
    }
  }

  /** Exactly the positions whose value does not occur earlier, in increasing order. */
  function FirstOccurrences<T(==)>(s: seq<T>): (idx: seq<nat>)
    ensures forall k :: 0 <= k < |idx| ==> IsFirst(s, idx[k])
    ensures forall a, b :: 0 <= a < b < |idx| ==> idx[a] < idx[b]
    ensures forall i :: IsFirst(s, i) ==> i in idx
    decreases |s|
  {
    if |s| == 0 then []
    else
      var n := |s| - 1;
      var init := FirstOccurrences(s[..n]);
      assert forall i :: IsFirst(s[..n], i) <==> 0 <= i < n && IsFirst(s, i);
      if s[n] in s[..n] then init else init + [n]
  }

  /** The survivors are the rows at the first occurrences: the first copy of each row is the one kept. */
  lemma {:induction false} DropDuplicatesKeepsFirst<T>(s: seq<T>)
    ensures |DropDuplicates(s)| == |FirstOccurrences(s)|
    ensures forall k :: 0 <= k < |DropDuplicates(s)| ==> DropDuplicates(s)[k] == s[FirstOccurrences(s)[k]]
    decreases |s|
  {
    if |s| > 0 {
      var n := |s| - 1;
      DropDuplicatesKeepsFirst(s[..n]);
    }
  }

  /** A sequence without duplicates is left as it is. */
  lemma {:induction false} DropDuplicatesOfDistinct<T>(s: seq<T>)
    requires Distinct(s)
    ensures DropDuplicates(s) == s
    decreases |s|
  {
    if |s| > 0 {
      var n := |s| - 1;
      assert s[n] !in s[..n];
      DropDuplicatesOfDistinct(s[..n]);
      assert s == s[..n] + [s[n]];
    }
  }

  /** Dropping duplicates twice is the same as dropping them once. */
  lemma DropDuplicatesIdempotent<T>(s: seq<T>)
    ensures DropDuplicates(DropDuplicates(s)) == DropDuplicates(s)
  {
    DropDuplicatesOfDistinct(DropDuplicates(s));
  }
}
