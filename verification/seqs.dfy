/** Order-preserving filtering of table rows, the shape of every LINQ `Where` in the model. */
module Seqs {

  /** The elements of `s` that satisfy `p`, in their original order. */
  function Filter<T(!new)>(s: seq<T>, p: T -> bool): (r: seq<T>)
    ensures |r| <= |s|
    ensures forall x :: x in r <==> x in s && p(x)
    ensures forall i :: 0 <= i < |r| ==> p(r[i])
  {
    if s == [] then []
    else if p(s[0]) then [s[0]] + Filter(s[1..], p)
    else Filter(s[1..], p)
  }

  /** Filtering distributes over concatenation. */
  lemma {:induction false} FilterAppend<T(!new)>(a: seq<T>, b: seq<T>, p: T -> bool)
    ensures Filter(a + b, p) == Filter(a, p) + Filter(b, p)
  {
    if a == [] {
      assert a + b == b;
    } else {
      assert (a + b)[0] == a[0];
      assert (a + b)[1..] == a[1..] + b;
      FilterAppend(a[1..], b, p);
    }
  }

  /** A filter that every element passes keeps the whole sequence. */
  lemma {:induction false} FilterKeepsAll<T(!new)>(s: seq<T>, p: T -> bool)
    requires forall i :: 0 <= i < |s| ==> p(s[i])
    ensures Filter(s, p) == s
  {
    if s != [] {
      FilterKeepsAll(s[1..], p);
    }
  }

  /** A filter that no element passes yields the empty sequence. */
  lemma {:induction false} FilterDropsAll<T(!new)>(s: seq<T>, p: T -> bool)
    requires forall i :: 0 <= i < |s| ==> !p(s[i])
    ensures Filter(s, p) == []
  {
    if s != [] {
      FilterDropsAll(s[1..], p);
    }
  }

  /** The position in `s` of the `k`-th element kept by the filter. */
  function FilterPos<T(!new)>(s: seq<T>, p: T -> bool, k: nat): (a: nat)
    requires k < |Filter(s, p)|
    ensures a < |s| && s[a] == Filter(s, p)[k]
  {
    if p(s[0]) then
      assert Filter(s, p) == [s[0]] + Filter(s[1..], p);
      if k == 0 then 0 else 1 + FilterPos(s[1..], p, k - 1)
    else 1 + FilterPos(s[1..], p, k)
  }

  /** Later kept elements come from later positions. */
  lemma {:induction false} FilterPosIncreasing<T(!new)>(s: seq<T>, p: T -> bool, i: nat, j: nat)
    requires i < j < |Filter(s, p)|
    ensures FilterPos(s, p, i) < FilterPos(s, p, j)
  {
    if p(s[0]) {
      assert |Filter(s, p)| == 1 + |Filter(s[1..], p)|;
      assert FilterPos(s, p, j) == 1 + FilterPos(s[1..], p, j - 1);
      if i > 0 {
        assert FilterPos(s, p, i) == 1 + FilterPos(s[1..], p, i - 1);
        FilterPosIncreasing(s[1..], p, i - 1, j - 1);
      } else {
        assert FilterPos(s, p, i) == 0;
      }
    } else {
      assert |Filter(s, p)| == |Filter(s[1..], p)|;
      assert FilterPos(s, p, i) == 1 + FilterPos(s[1..], p, i);
      assert FilterPos(s, p, j) == 1 + FilterPos(s[1..], p, j);
      FilterPosIncreasing(s[1..], p, i, j);
    }
  }

  /** Two elements kept by a filter come from increasing positions of the original sequence. */
  lemma FilterKeepsOrder<T(!new)>(s: seq<T>, p: T -> bool, i: int, j: int)
    requires 0 <= i < j < |Filter(s, p)|
    ensures exists a, b :: 0 <= a < b < |s| && s[a] == Filter(s, p)[i] && s[b] == Filter(s, p)[j]
  {
    FilterPosIncreasing(s, p, i, j);
    var a, b := FilterPos(s, p, i), FilterPos(s, p, j);
    assert 0 <= a < b < |s| && s[a] == Filter(s, p)[i] && s[b] == Filter(s, p)[j];
  }
}
