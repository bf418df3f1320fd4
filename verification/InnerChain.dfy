// Logical inner nodes of the Bw-tree: delta records over an array of separators (class InnerNode
// and the Inner*Node records of bwtree.h), and the map from keys to children they stand for.
module InnerChain {
  import opened Options
  import opened Pairs

  // The first item of a base array is the low key of the node; on the leftmost node of a level its
  // key is a placeholder for -Inf and is never read. `location` is an index into the base array.
  datatype Chain =
    | Inner(low: KeyNodeIDPair, high: KeyNodeIDPair, items: seq<KeyNodeIDPair>, depth: nat)
    | Insert(item: KeyNodeIDPair, next: KeyNodeIDPair, location: nat, child: Chain)
    | Delete(item: KeyNodeIDPair, prev: KeyNodeIDPair, next: KeyNodeIDPair, location: nat, child: Chain)
    | Split(insertItem: KeyNodeIDPair, siblingItemCount: int, child: Chain)
    | Merge(deleteItem: KeyNodeIDPair, right: Chain, child: Chain)
  {
    function Low(): KeyNodeIDPair {
      match this
      case Inner(low, _, _, _) => low
      case Insert(_, _, _, child) => child.Low()
      case Delete(_, _, _, _, child) => child.Low()
      case Split(_, _, child) => child.Low()
      case Merge(_, _, child) => child.Low()
    }

    function High(): KeyNodeIDPair {
      match this
      case Inner(_, high, _, _) => high
      case Insert(_, _, _, child) => child.High()
      case Delete(_, _, _, _, child) => child.High()
      case Split(insertItem, _, _) => insertItem
      case Merge(_, right, _) => right.High()
    }

    function Depth(): nat {
      match this
      case Inner(_, _, _, depth) => depth
      case Insert(_, _, _, child) => child.Depth() + 1
      case Delete(_, _, _, _, child) => child.Depth() + 1
      case Split(_, _, child) => child.Depth()
      case Merge(_, right, child) => child.Depth() + right.Depth()
    }

    function ItemCount(): int {
      match this
      case Inner(_, _, items, _) => |items|
      case Insert(_, _, _, child) => child.ItemCount() + 1
      case Delete(_, _, _, _, child) => child.ItemCount() - 1
      case Split(_, siblingItemCount, child) => child.ItemCount() - siblingItemCount
      case Merge(_, right, child) => child.ItemCount() + right.ItemCount()
    }

    // GetNodeHeader(&GetLowKeyPair()): the array that the low key of the chain lives in.
    function LeftmostItems(): seq<KeyNodeIDPair> {
      match this
      case Inner(_, _, items, _) => items
      case Insert(_, _, _, child) => child.LeftmostItems()
      case Delete(_, _, _, _, child) => child.LeftmostItems()
      case Split(_, _, child) => child.LeftmostItems()
      case Merge(_, _, child) => child.LeftmostItems()
    }
  }

  // The separators among the first n items of a base array.
  function FirstSeps(items: seq<KeyNodeIDPair>, n: nat): (r: set<KeyNodeIDPair>)
    requires n <= |items|
    ensures forall x :: x in r <==> exists i :: 1 <= i < n && items[i] == x
  {
    if n <= 1 then {} else FirstSeps(items, n - 1) + {items[n - 1]}
  }

  function BaseSeps(items: seq<KeyNodeIDPair>): set<KeyNodeIDPair> {
    FirstSeps(items, |items|)
  }

  // The meaning of a chain: the separators that replaying its records leaves, next to the low key.
  function Seps(c: Chain): set<KeyNodeIDPair> {
    match c
    case Inner(_, _, items, _) => BaseSeps(items)
    case Insert(item, _, _, child) => Seps(child) + {item}
    case Delete(item, _, _, _, child) => Seps(child) - {item}
    case Split(insertItem, _, child) => set x | x in Seps(child) && x.first < insertItem.first
    case Merge(_, right, child) => Seps(child) + {right.Low()} + Seps(right)
  }

  // The greatest separator <= key, or the low key if there is none.
  ghost predicate IsFloor(seps: set<KeyNodeIDPair>, lowId: NodeID, key: int, id: NodeID) {
    if exists x :: x in seps && x.first <= key
    then exists x :: x in seps && x.first <= key && x.second == id && forall y :: y in seps && y.first <= key ==> y.first <= x.first
    else id == lowId
  }

  ghost predicate KeyUnique(seps: set<KeyNodeIDPair>) {
    forall x, y :: x in seps && y in seps && x.first == y.first ==> x == y
  }

  // ---------- the existence check, bwtree.h:6383-6499 ----------

  datatype Found = Found(item: Option<KeyNodeIDPair>, location: nat)

  function BaseFind(lowId: NodeID, items: seq<KeyNodeIDPair>, key: int): Found {
    var start := if |items| > 0 && items[0].second == lowId then 1 else 0;
    var at := LowerBoundIn(items, start, |items|, key);
    Found(if at == |items| || items[at].first != key then None else Some(items[at]), at)
  }

  // `lowId` is the low key NodeID of the whole chain: it tells the leftmost branch.
  function Find(c: Chain, lowId: NodeID, key: int): Found {
    match c
    case Inner(_, _, items, _) => BaseFind(lowId, items, key)
    case Insert(item, _, location, child) =>
      if item.first == key then Found(Some(item), location) else Find(child, lowId, key)
    case Delete(item, _, _, location, child) =>
      if item.first == key then Found(None, location) else Find(child, lowId, key)
    case Split(_, _, child) => Find(child, lowId, key)
    case Merge(deleteItem, right, child) => Find(if key >= deleteItem.first then right else child, lowId, key)
  }

  method NavigateInnerNode(c: Chain, searchKey: int) returns (r: Found)
    ensures r == Find(c, c.Low().second, searchKey)
  {
    var lowId := c.Low().second;
    var node := c;
    while !node.Inner?
      invariant Find(c, lowId, searchKey) == Find(node, lowId, searchKey)
      decreases node
    {
      match node {
        case Inner(_, _, _, _) =>
        case Insert(item, _, location, child) =>
          if item.first == searchKey {
            return Found(Some(item), location);
          }
          node := child;
        case Delete(item, _, _, location, child) =>
          if item.first == searchKey {
            return Found(None, location);
          }
          node := child;
        case Split(_, _, child) => node := child;
        case Merge(deleteItem, right, child) => node := if searchKey >= deleteItem.first then right else child;
      }
    }
    var start := if |node.items| > 0 && lowId == node.items[0].second then 1 else 0;
    var it := LowerBoundIn(node.items, start, |node.items|, searchKey);
    if it == |node.items| {
      return Found(None, it);
    }
    if node.items[it].first != searchKey {
      return Found(None, it);
    }
    return Found(Some(node.items[it]), it);
  }

  // ---------- well-formed chains ----------

  // `bounded`: the low key is a key and not -Inf.
  ghost predicate BaseOk(low: KeyNodeIDPair, high: KeyNodeIDPair, items: seq<KeyNodeIDPair>, bounded: bool) {
    && |items| > 0 && items[0] == low
    && (forall i, j :: 1 <= i < j < |items| ==> items[i].first < items[j].first)
    && (forall i :: 1 <= i < |items| ==> BelowHigh(high, items[i].first) && items[i].second != low.second)
    && (bounded ==> BelowHigh(high, low.first) && forall i :: 1 <= i < |items| ==> low.first < items[i].first)
  }

  // `next` is the separator behind `key`, or the high key; an invalid NodeID stands for +Inf.
  ghost predicate NextOf(c: Chain, key: int, next: KeyNodeIDPair) {
    if next.second == INVALID_NODE_ID then forall x :: x in Seps(c) ==> x.first <= key
    else
      && key < next.first
      && (forall x :: x in Seps(c) ==> x.first <= key || next.first <= x.first)
      && ((exists x :: x in Seps(c) && x.first == next.first)
          || (c.High().second != INVALID_NODE_ID && c.High().first == next.first))
  }

  // `prev` is the separator before `key`; the NodeID of the low key stands for the low end.
  ghost predicate PrevOf(c: Chain, key: int, prev: KeyNodeIDPair) {
    if prev.second == c.Low().second then forall x :: x in Seps(c) ==> key <= x.first
    else prev in Seps(c) && prev.first < key && forall x :: x in Seps(c) ==> x.first <= prev.first || key <= x.first
  }

  // No right branch starts with the given child.
  predicate RightsDiffer(c: Chain, id: NodeID) {
    match c
    case Inner(_, _, _, _) => true
    case Insert(_, _, _, child) => RightsDiffer(child, id)
    case Delete(_, _, _, _, child) => RightsDiffer(child, id)
    case Split(_, _, child) => RightsDiffer(child, id)
    case Merge(_, right, child) => right.Low().second != id && RightsDiffer(right, id) && RightsDiffer(child, id)
  }

  // Records are posted with the neighbours of their key and with the location the existence check
  // reports (bwtree.h:5607, 5770); a split record is only posted on a base node.
  ghost predicate WellFormed(c: Chain, bounded: bool) {
    match c
    case Inner(low, high, items, _) => BaseOk(low, high, items, bounded)
    case Insert(item, next, location, child) =>
      && WellFormed(child, bounded)
      && BelowHigh(child.High(), item.first) && (bounded ==> child.Low().first < item.first)
      && item.second != child.Low().second
      && Find(child, child.Low().second, item.first) == Found(None, location)
      && NextOf(child, item.first, next)
    case Delete(item, prev, next, location, child) =>
      && WellFormed(child, bounded)
      && BelowHigh(child.High(), item.first) && (bounded ==> child.Low().first < item.first)
      && Find(child, child.Low().second, item.first) == Found(Some(item), location)
      && NextOf(child, item.first, next) && PrevOf(child, item.first, prev)
    case Split(insertItem, siblingItemCount, child) =>
      && WellFormed(child, bounded) && child.Inner?
      && insertItem.second != INVALID_NODE_ID && BelowHigh(child.high, insertItem.first)
      && (bounded ==> child.low.first < insertItem.first)
      && siblingItemCount == |child.items| - LowerBoundIn(child.items, 1, |child.items|, insertItem.first)
    case Merge(deleteItem, right, child) =>
      && WellFormed(child, bounded) && WellFormed(right, true)
      && child.High() == deleteItem && deleteItem.second != INVALID_NODE_ID
      && right.Low().first == deleteItem.first
      && right.Low().second != child.Low().second && RightsDiffer(right, child.Low().second)
      && forall x :: x in Seps(right) ==> x.second != child.Low().second
  }

  // ---------- what holds of well-formed chains ----------

  lemma {:induction false} SepsInRange(c: Chain, bounded: bool)
    requires WellFormed(c, bounded)
    ensures bounded ==> BelowHigh(c.High(), c.Low().first)
    ensures forall x :: x in Seps(c) ==> BelowHigh(c.High(), x.first) && (bounded ==> c.Low().first < x.first)
    ensures forall x :: x in Seps(c) ==> x.second != c.Low().second
  {
    match c {
      case Inner(_, _, _, _) =>
      case Insert(_, _, _, child) => SepsInRange(child, bounded);
      case Delete(_, _, _, _, child) => SepsInRange(child, bounded);
      case Split(_, _, child) => SepsInRange(child, bounded);
      case Merge(_, right, child) =>
        SepsInRange(child, bounded);
        SepsInRange(right, true);
    }
  }

  lemma {:induction false} LeftmostIsLow(c: Chain, bounded: bool)
    requires WellFormed(c, bounded)
    ensures |c.LeftmostItems()| > 0 && c.LeftmostItems()[0] == c.Low()
    ensures RightsDiffer(c, c.Low().second)
  {
    match c {
      case Inner(_, _, _, _) =>
      case Insert(_, _, _, child) => LeftmostIsLow(child, bounded);
      case Delete(_, _, _, _, child) => LeftmostIsLow(child, bounded);
      case Split(_, _, child) => LeftmostIsLow(child, bounded);
      case Merge(_, _, child) => LeftmostIsLow(child, bounded);
    }
  }

  // The separators of a branch of a chain whose low key NodeID is lowId: those of its records and,
  // unless it is the leftmost branch, its own low key.
  function Items(c: Chain, lowId: NodeID): set<KeyNodeIDPair> {
    if c.Low().second == lowId then Seps(c) else Seps(c) + {c.Low()}
  }

  lemma BaseFindMeaning(low: KeyNodeIDPair, high: KeyNodeIDPair, items: seq<KeyNodeIDPair>, bounded: bool,
                        lowId: NodeID, key: int)
    requires BaseOk(low, high, items, bounded) && (bounded || low.second == lowId)
    ensures var f := BaseFind(lowId, items, key);
            && f.location <= |items| && (low.second == lowId ==> f.location >= 1)
            && (forall j :: 1 <= j < f.location ==> items[j].first < key)
            && (forall j :: f.location <= j < |items| && 1 <= j ==> items[j].first >= key)
            && (f.item.Some? ==> f.item.value.first == key)
            && (forall x: KeyNodeIDPair :: x.first == key ==>
                  (x in BaseSeps(items) || (low.second != lowId && x == low) <==> f.item == Some(x)))
  {
  }

  // A merge record: the left branch holds what is below the merge key, the right one the rest.
  lemma MergeParts(c: Chain, bounded: bool, lowId: NodeID)
    requires WellFormed(c, bounded) && c.Merge? && RightsDiffer(c, lowId)
    requires bounded || c.Low().second == lowId
    ensures Items(c, lowId) == Items(c.child, lowId) + Items(c.right, lowId)
    ensures forall x :: x in Items(c.child, lowId) ==> x.first < c.deleteItem.first
    ensures forall x :: x in Items(c.right, lowId) ==> x.first >= c.deleteItem.first
  {
    SepsInRange(c.child, bounded);
    SepsInRange(c.right, true);
  }

  // The existence check is exact: it finds the separator of the key, in any branch, if there is one.
  lemma {:induction false} FindIsExact(c: Chain, bounded: bool, lowId: NodeID, key: int)
    requires WellFormed(c, bounded) && RightsDiffer(c, lowId)
    requires BelowHigh(c.High(), key) && (bounded || c.Low().second == lowId)
    ensures forall x :: x in Items(c, lowId) && x.first == key <==> Find(c, lowId, key).item == Some(x)
    decreases c, 1
  {
    match c {
      case Inner(low, high, items, _) => BaseFindMeaning(low, high, items, bounded, lowId, key);
      case Insert(item, _, _, child) =>
        if key == item.first {
          FindInChild(c, bounded);
        } else {
          FindIsExact(child, bounded, lowId, key);
        }
      case Delete(item, _, _, _, child) =>
        if key == item.first {
          FindInChild(c, bounded);
        } else {
          FindIsExact(child, bounded, lowId, key);
        }
      case Split(_, _, child) => FindIsExact(child, bounded, lowId, key);
      case Merge(deleteItem, right, child) =>
        MergeParts(c, bounded, lowId);
        if key >= deleteItem.first {
          FindIsExact(right, true, lowId, key);
        } else {
          FindIsExact(child, bounded, lowId, key);
        }
    }
  }

  // What the existence check promised when a record was posted.
  lemma {:induction false} FindInChild(c: Chain, bounded: bool)
    requires WellFormed(c, bounded) && (c.Insert? || c.Delete?)
    ensures c.Insert? ==> forall x :: x in Seps(c.child) ==> x.first != c.item.first
    ensures c.Delete? ==> forall x :: x in Seps(c.child) && x.first == c.item.first <==> x == c.item
    decreases c, 0
  {
    LeftmostIsLow(c.child, bounded);
    FindIsExact(c.child, bounded, c.child.Low().second, c.item.first);
  }

  lemma JoinUnique(left: set<KeyNodeIDPair>, middle: KeyNodeIDPair, right: set<KeyNodeIDPair>)
    requires KeyUnique(left) && KeyUnique(right)
    requires forall x :: x in left ==> x.first < middle.first
    requires forall x :: x in right ==> middle.first < x.first
    ensures KeyUnique(left + {middle} + right)
    ensures |left + {middle} + right| == |left| + 1 + |right|
  {
    assert left !! {middle} && left + {middle} !! right;
  }

  lemma {:induction false} SepsAreUnique(c: Chain, bounded: bool)
    requires WellFormed(c, bounded)
    ensures KeyUnique(Seps(c))
  {
    hide Find, NextOf, PrevOf, RightsDiffer;
    match c {
      case Inner(_, _, _, _) =>
      case Insert(_, _, _, child) =>
        FindInChild(c, bounded);
        SepsAreUnique(child, bounded);
      case Delete(_, _, _, _, child) => SepsAreUnique(child, bounded);
      case Split(_, _, child) => SepsAreUnique(child, bounded);
      case Merge(_, right, child) =>
        SepsAreUnique(child, bounded);
        SepsAreUnique(right, true);
        SepsInRange(child, bounded);
        SepsInRange(right, true);
        JoinUnique(Seps(child), right.Low(), Seps(right));
    }
  }

  lemma {:induction false} FirstSepsSize(items: seq<KeyNodeIDPair>, n: nat)
    requires 1 <= n <= |items| && forall i, j :: 1 <= i < j < |items| ==> items[i].first < items[j].first
    ensures |FirstSeps(items, n)| == n - 1
    decreases n
  {
    if n > 1 {
      FirstSepsSize(items, n - 1);
      LastIsNew(items, n);
    }
  }

  lemma LastIsNew(items: seq<KeyNodeIDPair>, n: nat)
    requires 1 < n <= |items| && forall i, j :: 1 <= i < j < |items| ==> items[i].first < items[j].first
    ensures items[n - 1] !in FirstSeps(items, n - 1)
  {
  }

  lemma SplitCount(c: Chain, bounded: bool)
    requires WellFormed(c, bounded) && c.Split?
    ensures c.ItemCount() == |Seps(c)| + 1
  {
    hide Find, NextOf, PrevOf, RightsDiffer, FirstSeps, LowerBoundIn;
    var items := c.child.items;
    var p := LowerBoundIn(items, 1, |items|, c.insertItem.first);
    FirstSepsSize(items, p);
    SepsBelow(items, c.insertItem.first);
  }

  lemma SepsBelow(items: seq<KeyNodeIDPair>, key: int)
    requires |items| > 0 && forall i, j :: 1 <= i < j < |items| ==> items[i].first < items[j].first
    ensures (set x | x in BaseSeps(items) && x.first < key) == FirstSeps(items, LowerBoundIn(items, 1, |items|, key))
  {
    var p := LowerBoundIn(items, 1, |items|, key);
    hide LowerBoundIn;
    forall x ensures x in BaseSeps(items) && x.first < key <==> x in FirstSeps(items, p) {
      if x in BaseSeps(items) && x.first < key {
        var i :| 1 <= i < |items| && items[i] == x;
        assert i < p;
      }
    }
  }

  // The counter that the record constructors maintain is the number of separators and the low key.
  lemma {:induction false} ItemCountIsExact(c: Chain, bounded: bool)
    requires WellFormed(c, bounded)
    ensures c.ItemCount() == |Seps(c)| + 1
  {
    hide Find, NextOf, PrevOf, RightsDiffer, KeyUnique, FirstSeps;
    match c {
      case Inner(_, _, items, _) =>
        FirstSepsSize(items, |items|);
      case Insert(_, _, _, child) =>
        ItemCountIsExact(child, bounded);
        FindInChild(c, bounded);
      case Delete(_, _, _, _, child) =>
        ItemCountIsExact(child, bounded);
        FindInChild(c, bounded);
      case Split(_, _, _) => SplitCount(c, bounded);
      case Merge(_, right, child) =>
        ItemCountIsExact(child, bounded);
        ItemCountIsExact(right, true);
        SepsInRange(child, bounded);
        SepsInRange(right, true);
        SepsAreUnique(child, bounded);
        SepsAreUnique(right, true);
        JoinUnique(Seps(child), right.Low(), Seps(right));
    }
  }
}
