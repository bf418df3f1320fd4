// Key-value and key-NodeID pairs, and the binary searches of the standard library on them.
// Keys and values are integers: the tree only compares keys by order and values by equality.
module Pairs {
  datatype Pair<+T> = Pair(first: int, second: T)

  type NodeID = nat
  type KeyValuePair = Pair<int>
  type KeyNodeIDPair = Pair<NodeID>

  // Marks the last node of a level as the next NodeID of a high key: the key is +Inf.
  const INVALID_NODE_ID: NodeID := 0

  predicate BelowHigh(high: KeyNodeIDPair, key: int) {
    high.second == INVALID_NODE_ID || key < high.first
  }

  // Leaves mark a low key of -Inf the same way (bwtree.h:2670).
  predicate AboveLow(low: KeyNodeIDPair, key: int) {
    low.second == INVALID_NODE_ID || low.first <= key
  }

  ghost predicate Sorted<T>(s: seq<Pair<T>>) {
    forall i, j :: 0 <= i < j < |s| ==> s[i].first <= s[j].first
  }

  ghost predicate StrictlySorted<T>(s: seq<Pair<T>>) {
    forall i, j :: 0 <= i < j < |s| ==> s[i].first < s[j].first
  }

  ghost predicate NoDuplicates<T(!new)>(s: seq<T>) {
    forall i, j :: 0 <= i < j < |s| ==> s[i] != s[j]
  }

  // std::lower_bound: the first position whose key is >= key, comparing keys only.
  function LowerBound<T>(s: seq<Pair<T>>, key: int): (i: nat)
    ensures i <= |s|
    ensures forall j :: 0 <= j < i ==> s[j].first < key
    ensures i < |s| ==> s[i].first >= key
  {
    if s == [] || s[0].first >= key then 0 else 1 + LowerBound(s[1..], key)
  }

  // std::upper_bound: the first position whose key is > key.
  function UpperBound<T>(s: seq<Pair<T>>, key: int): (i: nat)
    ensures i <= |s|
    ensures forall j :: 0 <= j < i ==> s[j].first <= key
    ensures i < |s| ==> s[i].first > key
  {
    if s == [] || s[0].first > key then 0 else 1 + UpperBound(s[1..], key)
  }

  // The same searches on the range [start, end) of an array.
  function LowerBoundIn<T>(s: seq<Pair<T>>, start: nat, end: nat, key: int): (i: nat)
    requires start <= end <= |s|
    ensures start <= i <= end
    ensures forall j :: start <= j < i ==> s[j].first < key
    ensures i < end ==> s[i].first >= key
    decreases end - start
  {
    if start == end || s[start].first >= key then start else LowerBoundIn(s, start + 1, end, key)
  }

  function UpperBoundIn<T>(s: seq<Pair<T>>, start: nat, end: nat, key: int): (i: nat)
    requires start <= end <= |s|
    ensures start <= i <= end
    ensures forall j :: start <= j < i ==> s[j].first <= key
    ensures i < end ==> s[i].first > key
    decreases end - start
  {
    if start == end || s[start].first > key then start else UpperBoundIn(s, start + 1, end, key)
  }

  function ToSet<T(!new)>(s: seq<T>): (r: set<T>)
    ensures forall x :: x in r <==> x in s
  {
    set x | x in s
  }

  lemma {:induction false} DistinctSize<T(!new)>(s: seq<T>)
    requires NoDuplicates(s)
    ensures |ToSet(s)| == |s|
  {
    if s != [] {
      var last := |s| - 1;
      DistinctSize(s[..last]);
      assert ToSet(s) == ToSet(s[..last]) + {s[last]};
    }
  }

  // A duplicate-free list of members of `all` is no longer than `all`.
  lemma DistinctFits<T(!new)>(s: seq<T>, all: set<T>)
    requires NoDuplicates(s) && forall x :: x in s ==> x in all
    ensures |s| <= |all|
    ensures |s| == |all| ==> ToSet(s) == all
  {
    DistinctSize(s);
    SubsetSize(ToSet(s), all);
  }

  lemma {:induction false} SubsetSize<T(!new)>(a: set<T>, b: set<T>)
    requires a <= b
    ensures |a| <= |b|
    ensures |a| == |b| ==> a == b
  {
    if a != {} {
      var x :| x in a;
      SubsetSize(a - {x}, b - {x});
      assert a == a - {x} + {x} && b == b - {x} + {x};
    }
  }
}
