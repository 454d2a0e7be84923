/**
 * Python's `sorted()` on a list of pairs: ascending in the lexicographic
 * order of tuples, first component first, the second breaking ties.
 */
module PairSort {

  type Pair = (int, int)

  /** Python's `<=` on two-element tuples. */
  predicate Le(a: Pair, b: Pair) {
    a.0 < b.0 || (a.0 == b.0 && a.1 <= b.1)
  }

  predicate Sorted(s: seq<Pair>) {
    forall i, j :: 0 <= i < j < |s| ==> Le(s[i], s[j])
  }

  /** Insert x into a sorted sequence, before the first element it does not exceed. */
  function Insert(x: Pair, s: seq<Pair>): (r: seq<Pair>)
    requires Sorted(s)
    ensures Sorted(r)
    ensures |r| == |s| + 1
    ensures multiset(r) == multiset(s) + multiset{x}
  {
    if s == [] || Le(x, s[0]) then
      ConsSorted(x, s);
      [x] + s
    else
      var tail := Insert(x, s[1..]);
      assert s == [s[0]] + s[1..];
      HeadBound(s[0], x, s[1..], tail);
      ConsSorted(s[0], tail);
      [s[0]] + tail
  }

  /** Putting a lower bound of a sorted sequence in front keeps it sorted. */
  lemma ConsSorted(h: Pair, t: seq<Pair>)
    requires Sorted(t)
    requires t != [] ==> Le(h, t[0])
    ensures Sorted([h] + t)
  {
  }

  /** A bound of x and of every element of s bounds every element of tail. */
  lemma HeadBound(h: Pair, x: Pair, s: seq<Pair>, tail: seq<Pair>)
    requires Le(h, x)
    requires forall k :: 0 <= k < |s| ==> Le(h, s[k])
    requires multiset(tail) == multiset(s) + multiset{x}
    ensures forall k :: 0 <= k < |tail| ==> Le(h, tail[k])
  {
    forall k | 0 <= k < |tail| ensures Le(h, tail[k]) {
      assert tail[k] in multiset(tail);
      if tail[k] != x {
        assert tail[k] in multiset(s);
      }
    }
  }

  /** The sorted permutation of s (insertion sort). */
  function Sort(s: seq<Pair>): (r: seq<Pair>)
    ensures Sorted(r)
    ensures |r| == |s|
    ensures multiset(r) == multiset(s)
  {
    if s == [] then []
    else
      assert s == [s[0]] + s[1..];
      Insert(s[0], Sort(s[1..]))
  }

  /** A multiset has exactly one sorted arrangement, because Le is a total order. */
  lemma {:induction false} SortedUnique(a: seq<Pair>, b: seq<Pair>)
    requires Sorted(a) && Sorted(b)
    requires multiset(a) == multiset(b)
    ensures a == b
  {
    if a != [] {
      SameHead(a, b);
      TailMultiset(a);
      TailMultiset(b);
      SortedUnique(a[1..], b[1..]);
      assert a == [a[0]] + a[1..];
      assert b == [b[0]] + b[1..];
    }
  }

  /** Two sorted arrangements of one multiset start with the same element. */
  lemma SameHead(a: seq<Pair>, b: seq<Pair>)
    requires Sorted(a) && Sorted(b) && a != []
    requires multiset(a) == multiset(b)
    ensures b != [] && a[0] == b[0]
  {
    assert a[0] in multiset(b);
    assert b[0] in multiset(a);
    var i :| 0 <= i < |a| && a[i] == b[0];
    var j :| 0 <= j < |b| && b[j] == a[0];
    assert Le(a[0], b[0]) && Le(b[0], a[0]);
  }

  lemma TailMultiset(a: seq<Pair>)
    requires a != []
    ensures multiset(a[1..]) == multiset(a) - multiset{a[0]}
  {
    assert a == [a[0]] + a[1..];
  }

  /** Sorting depends only on the multiset of its input, not on the input's order. */
  lemma SortPermutationInvariant(s: seq<Pair>, t: seq<Pair>)
    requires multiset(s) == multiset(t)
    ensures Sort(s) == Sort(t)
  {
    SortedUnique(Sort(s), Sort(t));
  }
}
