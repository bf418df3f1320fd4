// The sorted window used by every consolidation: project3/sourcefile/bwtree/include/sorted_small_set.h.
module SortedSmallSets {

  // std::upper_bound: the first position whose element is greater than `value`.
  function UpperBoundBy<T>(less: (T, T) -> bool, s: seq<T>, value: T): (i: nat)
    ensures i <= |s|
    ensures forall j :: 0 <= j < i ==> !less(value, s[j])
    ensures i < |s| ==> less(value, s[i])
  {
    if s == [] || less(value, s[0]) then 0 else 1 + UpperBoundBy(less, s[1..], value)
  }

  // The first position whose element is not less than `value`.
  function LowerBoundBy<T>(less: (T, T) -> bool, s: seq<T>, value: T): (i: nat)
    ensures i <= |s|
    ensures forall j :: 0 <= j < i ==> less(s[j], value)
    ensures i < |s| ==> !less(s[i], value)
  {
    if s == [] || !less(s[0], value) then 0 else 1 + LowerBoundBy(less, s[1..], value)
  }

  function InsertAt<T>(s: seq<T>, i: nat, value: T): (r: seq<T>)
    requires i <= |s|
    ensures |r| == |s| + 1
  {
    s[..i] + [value] + s[i..]
  }

  lemma InsertAtElements<T>(s: seq<T>, p: nat, value: T)
    requires p <= |s|
    ensures var r := InsertAt(s, p, value);
            && r[p] == value
            && (forall i :: 0 <= i < p ==> r[i] == s[i])
            && (forall i :: p <= i < |s| ==> r[i + 1] == s[i])
            && (forall i :: p < i < |r| ==> r[i] == s[i - 1])
  {
  }

  // Insert() keeps the element that is already there.
  function InsertDedup<T>(less: (T, T) -> bool, eq: (T, T) -> bool, s: seq<T>, value: T): seq<T> {
    var i := LowerBoundBy(less, s, value);
    if i < |s| && eq(s[i], value) then s else InsertAt(s, i, value)
  }

  lemma LowerBoundByIsUnique<T>(less: (T, T) -> bool, s: seq<T>, value: T, i: nat)
    requires i <= |s|
    requires forall j :: 0 <= j < i ==> less(s[j], value)
    requires i < |s| ==> !less(s[i], value)
    ensures LowerBoundBy(less, s, value) == i
  {
  }

  // std::copy_backward of a[from..to] by one slot.
  method CopyBackward<T>(a: array<T>, from: nat, to: nat)
    requires from <= to < a.Length
    modifies a
    ensures a[..from] == old(a[..from])
    ensures a[from + 1..to + 1] == old(a[from..to])
  {
    var i := to;
    while i > from
      invariant from <= i <= to
      invariant forall j :: 0 <= j < i ==> a[j] == old(a[j])
      invariant forall j :: i < j <= to ==> a[j] == old(a[j - 1])
    {
      a[i] := a[i - 1];
      i := i - 1;
    }
  }

  class SortedSmallSet<T(!new)> {
    const data: array<T>
    const less: (T, T) -> bool
    const eq: (T, T) -> bool
    var start: nat
    var end: nat

    ghost predicate Valid()
      reads this
    {
      start <= end <= data.Length
    }

    ghost function Contents(): (s: seq<T>)
      requires Valid()
      reads this, data
      ensures |s| == end - start
    {
      data[start..end]
    }

    constructor (data: array<T>, less: (T, T) -> bool, eq: (T, T) -> bool)
      ensures Valid() && this.data == data && this.less == less && this.eq == eq
      ensures start == end == 0
    {
      this.data := data;
      this.less := less;
      this.eq := eq;
      start, end := 0, 0;
    }

    method ShiftIn(at: nat, value: T)
      requires Valid() && start <= at <= end < data.Length
      modifies this, data
      ensures Valid() && start == old(start) && end == old(end) + 1
      ensures Contents() == InsertAt(old(Contents()), at - start, value)
    {
      ghost var s, k := Contents(), at - start;
      CopyBackward(data, at, end);
      data[at] := value;
      end := end + 1;
      assert data[start..at] == s[..k] by {
        assert data[..at][start..] == old(data[..at])[start..];
      }
      assert data[at + 1..end] == s[k..];
      assert data[start..end] == data[start..at] + [data[at]] + data[at + 1..end];
    }

    method Insert(value: T)
      requires Valid() && end < data.Length
      modifies this, data
      ensures Valid() && start == old(start)
      ensures old(end) <= end <= old(end) + 1
      ensures Contents() == InsertDedup(less, eq, old(Contents()), value)
    {
      ghost var s := Contents();
      var it := start;
      while it < end
        invariant start <= it <= end
        invariant forall j :: 0 <= j < it - start ==> less(s[j], value)
      {
        if !less(data[it], value) {
          assert data[it] == s[it - start];
          LowerBoundByIsUnique(less, s, value, it - start);
          if !eq(data[it], value) {
            ShiftIn(it, value);
          }
          return;
        }
        assert data[it] == s[it - start];
        it := it + 1;
      }
      LowerBoundByIsUnique(less, s, value, |s|);
      data[end] := value;
      end := end + 1;
      assert Contents() == InsertAt(s, |s|, value);
    }

    method InsertNoDedup(value: T)
      requires Valid() && end < data.Length
      modifies this, data
      ensures Valid() && start == old(start) && end == old(end) + 1
      ensures Contents() == InsertAt(old(Contents()), UpperBoundBy(less, old(Contents()), value), value)
    {
      var it := UpperBoundBy(less, data[start..end], value);
      ShiftIn(start + it, value);
    }

    method PopFront() returns (value: T)
      requires Valid() && start < end
      modifies this`start
      ensures Valid() && start == old(start) + 1
      ensures value == old(Contents())[0] && Contents() == old(Contents())[1..]
    {
      value := data[start];
      start := start + 1;
    }

    method Invalidate()
      requires Valid()
      modifies this`end
      ensures Valid() && start == old(start) && Contents() == []
    {
      end := start;
    }
  }

  // ---------- what the two insertions mean for a sorted window ----------

  ghost predicate StrictOrder<T(!new)>(less: (T, T) -> bool) {
    && (forall x, y, z :: less(x, y) && less(y, z) ==> less(x, z))
    && (forall x, y, z :: !less(x, y) && !less(y, z) ==> !less(x, z))
    && (forall x, y :: less(x, y) ==> !less(y, x))
  }

  ghost predicate SortedBy<T(!new)>(less: (T, T) -> bool, s: seq<T>) {
    forall i, j :: 0 <= i < j < |s| ==> !less(s[j], s[i])
  }

  lemma OrderFacts<T(!new)>(less: (T, T) -> bool, x: T, y: T, z: T)
    requires StrictOrder(less)
    ensures less(x, y) && less(y, z) ==> less(x, z)
    ensures !less(x, y) && !less(y, z) ==> !less(x, z)
    ensures less(x, y) ==> !less(y, x)
  {
  }

  lemma InsertAtKeepsElements<T(!new)>(s: seq<T>, p: nat, value: T)
    requires p <= |s|
    ensures multiset(InsertAt(s, p, value)) == multiset(s) + multiset{value}
  {
    assert s == s[..p] + s[p..];
  }

  // An element at or behind the upper bound is not less than the new one.
  lemma BehindUpperBound<T(!new)>(less: (T, T) -> bool, s: seq<T>, value: T, j: nat)
    requires StrictOrder(less) && SortedBy(less, s) && UpperBoundBy(less, s, value) <= j < |s|
    ensures !less(s[j], value)
  {
    hide StrictOrder;
    var p := UpperBoundBy(less, s, value);
    OrderFacts(less, value, s[p], value);
    OrderFacts(less, s[j], s[p], value);
  }

  lemma InsertNoDedupKeepsOrder<T(!new)>(less: (T, T) -> bool, s: seq<T>, value: T)
    requires StrictOrder(less) && SortedBy(less, s)
    ensures SortedBy(less, InsertAt(s, UpperBoundBy(less, s, value), value))
    ensures multiset(InsertAt(s, UpperBoundBy(less, s, value), value)) == multiset(s) + multiset{value}
  {
    hide StrictOrder;
    var p := UpperBoundBy(less, s, value);
    InsertAtKeepsElements(s, p, value);
    InsertAtElements(s, p, value);
    forall j | p <= j < |s| ensures !less(s[j], value) {
      BehindUpperBound(less, s, value, j);
    }
    InsertAtSorted(less, s, p, value);
  }

  lemma InsertAtSorted<T(!new)>(less: (T, T) -> bool, s: seq<T>, p: nat, value: T)
    requires SortedBy(less, s) && p <= |s|
    requires forall j :: 0 <= j < p ==> !less(value, s[j])
    requires forall j :: p <= j < |s| ==> !less(s[j], value)
    ensures SortedBy(less, InsertAt(s, p, value))
  {
    InsertAtElements(s, p, value);
  }

  // No two elements are equivalent, and a new equivalent one is dropped.
  ghost predicate StrictlySortedBy<T(!new)>(less: (T, T) -> bool, s: seq<T>) {
    forall i, j :: 0 <= i < j < |s| ==> less(s[i], s[j])
  }

  lemma InsertDedupKeepsOrder<T(!new)>(less: (T, T) -> bool, eq: (T, T) -> bool, s: seq<T>, value: T)
    requires StrictOrder(less) && StrictlySortedBy(less, s)
    requires forall x, y :: eq(x, y) <==> !less(x, y) && !less(y, x)
    ensures var r := InsertDedup(less, eq, s, value);
            && StrictlySortedBy(less, r)
            && (r == s <==> exists i :: 0 <= i < |s| && eq(s[i], value))
            && (r != s ==> multiset(r) == multiset(s) + multiset{value})
  {
    hide StrictOrder;
    var p := LowerBoundBy(less, s, value);
    if p == |s| || !eq(s[p], value) {
      forall j | p <= j < |s| ensures less(value, s[j]) {
        OrderFacts(less, value, s[p], s[j]);
      }
      forall j | 0 <= j < |s| ensures !eq(s[j], value) {
      }
      InsertAtKeepsElements(s, p, value);
      InsertAtElements(s, p, value);
      assert |InsertAt(s, p, value)| == |s| + 1;
    }
  }
}
