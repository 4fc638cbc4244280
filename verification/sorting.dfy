/** Ascending order on integer sequences: the result of `Array.prototype.sort`
    with the comparator `(a, b) => a - b`. */
module Sorting {

  predicate Sorted(s: seq<int>)
  {
    forall i, j :: 0 <= i < j < |s| ==> s[i] <= s[j]
  }

  function Insert(x: int, s: seq<int>): (r: seq<int>)
    requires Sorted(s)
    ensures Sorted(r)
    ensures multiset(r) == multiset(s) + multiset{x}
    ensures |r| == |s| + 1
  {
    if |s| == 0 then [x]
    else if x <= s[0] then [x] + s
    else
      var rest := Insert(x, s[1..]);
      assert s == [s[0]] + s[1..];
      LeastOfInsert(s[0], x, s[1..], rest);
      ConsSorted(s[0], rest);
      [s[0]] + rest
  }

  /** An element no larger than anything in a sorted tail can head it. */
  lemma ConsSorted(h: int, t: seq<int>)
    requires Sorted(t)
    requires forall y :: y in t ==> h <= y
    ensures Sorted([h] + t)
  {
    forall i, j | 0 <= i < j < |[h] + t|
      ensures ([h] + t)[i] <= ([h] + t)[j]
    {
      assert ([h] + t)[j] == t[j - 1];
      if i > 0 {
        assert ([h] + t)[i] == t[i - 1];
      } else {
        assert t[j - 1] in t;
      }
    }
  }

  lemma LeastOfInsert(h: int, x: int, t: seq<int>, rest: seq<int>)
    requires Sorted([h] + t) && h < x
    requires multiset(rest) == multiset(t) + multiset{x}
    ensures forall y :: y in rest ==> h <= y
  {
    forall y | y in rest
      ensures h <= y
    {
      assert y in multiset(rest);
      if y != x {
        assert y in t;
        var k :| 0 <= k < |t| && t[k] == y;
        assert ([h] + t)[0] == h;
        assert ([h] + t)[k + 1] == y;
        assert ([h] + t)[0] <= ([h] + t)[k + 1];
      }
    }
  }

  /** The values of `s` in ascending order. */
  function SortAscending(s: seq<int>): (r: seq<int>)
    ensures Sorted(r)
    ensures multiset(r) == multiset(s)
    ensures |r| == |s|
  {
    if |s| == 0 then []
    else
      assert s == s[..|s| - 1] + [s[|s| - 1]];
      Insert(s[|s| - 1], SortAscending(s[..|s| - 1]))
  }

  lemma HeadIsLeast(a: seq<int>)
    requires Sorted(a) && |a| > 0
    ensures forall x :: x in multiset(a) ==> a[0] <= x
  {
    forall x | x in multiset(a)
      ensures a[0] <= x
    {
      assert x in a;
    }
  }

  /** A sorted permutation is unique, so any sorting algorithm the runtime uses
      produces exactly `SortAscending`'s result. */
  lemma {:induction false} SortedPermutationsEqual(a: seq<int>, b: seq<int>)
    requires Sorted(a) && Sorted(b)
    requires multiset(a) == multiset(b)
    ensures a == b
  {
    assert |a| == |multiset(a)| == |multiset(b)| == |b|;
    if |a| > 0 {
      HeadIsLeast(a);
      HeadIsLeast(b);
      assert a[0] in multiset(b) by { assert a[0] in a; }
      assert b[0] in multiset(a) by { assert b[0] in b; }
      assert a[0] == b[0];
      assert a == [a[0]] + a[1..];
      assert b == [b[0]] + b[1..];
      assert multiset(a) == multiset{a[0]} + multiset(a[1..]);
      assert multiset(b) == multiset{a[0]} + multiset(b[1..]);
      assert multiset(a[1..]) == multiset(a) - multiset{a[0]};
      assert multiset(b[1..]) == multiset(b) - multiset{a[0]};
      assert multiset(a[1..]) == multiset(b[1..]);
      SortedPermutationsEqual(a[1..], b[1..]);
    }
  }
}
