/**
 * Ordering by a numeric key, largest first, as `ORDER BY … DESC` yields
 * it. Rows with equal keys keep their relative order; the database leaves
 * that order open, and this is one of the orders it may return.
 */
module Ordering {

  predicate SortedDesc<T>(s: seq<T>, key: T -> int) {
    forall i, j | 0 <= i < j < |s| :: key(s[i]) >= key(s[j])
  }

  /** An element whose key bounds every key of a sorted sequence can be put
      in front of it. */
  lemma ConsSorted<T>(y: T, t: seq<T>, key: T -> int)
    requires SortedDesc(t, key)
    requires forall z | z in multiset(t) :: key(z) <= key(y)
    ensures SortedDesc([y] + t, key)
  {
    forall j | 0 <= j < |t| ensures key(t[j]) <= key(y) {
      assert t[j] in multiset(t);
    }
  }

  /** Below the head of a sorted sequence, and below anything smaller than
      it, every key is at most the head's. */
  lemma TailBelowHead<T>(x: T, s: seq<T>, key: T -> int)
    requires SortedDesc(s, key) && s != [] && key(x) < key(s[0])
    ensures forall z | z in multiset(s[1..]) + multiset{x} :: key(z) <= key(s[0])
  {
    forall z | z in multiset(s[1..]) + multiset{x} ensures key(z) <= key(s[0]) {
      if z != x {
        assert z in s[1..];
        var j :| 0 <= j < |s[1..]| && s[1..][j] == z;
        assert s[j + 1] == z;
      }
    }
  }

  /** Inserts `x` before the first element whose key is not larger. */
  function Insert<T>(x: T, s: seq<T>, key: T -> int): (r: seq<T>)
    requires SortedDesc(s, key)
    ensures SortedDesc(r, key)
    ensures multiset(r) == multiset(s) + multiset{x}
  {
    if s == [] || key(x) >= key(s[0]) then
      ConsSorted(x, s, key);
      [x] + s
    else
      var tail := Insert(x, s[1..], key);
      assert s == [s[0]] + s[1..];
      TailBelowHead(x, s, key);
      ConsSorted(s[0], tail, key);
      [s[0]] + tail
  }

  /** Insertion sort: the elements of `s`, largest key first. */
  function SortDesc<T>(s: seq<T>, key: T -> int): (r: seq<T>)
    ensures SortedDesc(r, key)
    ensures multiset(r) == multiset(s)
    ensures |r| == |s|
  {
    if s == [] then []
    else
      assert s == [s[0]] + s[1..];
      Insert(s[0], SortDesc(s[1..], key), key)
  }
}
