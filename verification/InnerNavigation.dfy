// The descent through one inner node: NavigateInnerNode, bwtree.h:3298-3461. It leaves the chain
// at the first record that decides, and narrows the search in the base array on the way.
module InnerNavigation {
  import opened Options
  import opened Pairs
  import opened InnerChain

  predicate MergeFree(c: Chain) {
    match c
    case Inner(_, _, _, _) => true
    case Insert(_, _, _, child) => MergeFree(child)
    case Delete(_, _, _, _, child) => MergeFree(child)
    case Split(_, _, child) => MergeFree(child)
    case Merge(_, _, _) => false
  }

  // [start, end) of the base array still holds the place of the key.
  ghost predicate Brackets(items: seq<KeyNodeIDPair>, start: nat, end: nat, key: int) {
    && 1 <= start <= end <= |items|
    && (forall j :: 1 <= j < start ==> items[j].first <= key)
    && (forall j :: end <= j < |items| ==> items[j].first > key)
  }

  // Below the last merge record the window is about the array the search ends in; above it, it is
  // about some other array, and the merge record resets it.
  ghost predicate WindowOk(c: Chain, start: nat, end: nat, key: int) {
    MergeFree(c) ==> Brackets(c.LeftmostItems(), start, end, key)
  }

  // The location in a record divides the base array at the key of the record.
  lemma {:induction false} LocationDivides(c: Chain, bounded: bool, key: int)
    requires WellFormed(c, bounded) && MergeFree(c)
    ensures var items := c.LeftmostItems();
            var at := Find(c, c.Low().second, key).location;
            && 1 <= at <= |items|
            && (forall j :: 1 <= j < at ==> items[j].first < key)
            && (forall j :: at <= j < |items| ==> items[j].first >= key)
  {
    match c {
      case Inner(low, high, items, _) => BaseFindMeaning(low, high, items, bounded, low.second, key);
      case Insert(item, _, _, child) => LocationDivides(child, bounded, key);
      case Delete(item, _, _, _, child) => LocationDivides(child, bounded, key);
      case Split(_, _, child) => LocationDivides(child, bounded, key);
    }
  }

  lemma RecordNarrows(c: Chain, bounded: bool, start: nat, end: nat, key: int)
    requires WellFormed(c, bounded) && (c.Insert? || c.Delete?) && WindowOk(c, start, end, key)
    ensures WindowOk(c.child, if key >= c.item.first && c.location > start then c.location else start,
                     if key < c.item.first && c.location < end then c.location else end, key)
  {
    if MergeFree(c) {
      var items := c.child.LeftmostItems();
      LocationDivides(c.child, bounded, c.item.first);
      assert end < c.location ==> items[end].first < c.item.first;
      assert c.location < start ==> items[c.location].first >= c.item.first;
    }
  }

  // ---------- what passing a record keeps ----------

  // The two chains send the key to the same child.
  ghost predicate SameFloor(a: set<KeyNodeIDPair>, aLow: NodeID, b: set<KeyNodeIDPair>, bLow: NodeID, key: int) {
    forall id :: IsFloor(a, aLow, key, id) <==> IsFloor(b, bLow, key, id)
  }

  lemma SameBelow(a: set<KeyNodeIDPair>, b: set<KeyNodeIDPair>, lowId: NodeID, key: int)
    requires forall x: KeyNodeIDPair :: x.first <= key ==> (x in a <==> x in b)
    ensures SameFloor(a, lowId, b, lowId, key)
  {
    forall id ensures IsFloor(a, lowId, key, id) <==> IsFloor(b, lowId, key, id) {
      if x :| x in a && x.first <= key { assert x in b; }
      if x :| x in b && x.first <= key { assert x in a; }
    }
  }

  // An item with a greater neighbour that is still <= key does not matter.
  lemma ShadowedItem(seps: set<KeyNodeIDPair>, item: KeyNodeIDPair, next: KeyNodeIDPair, lowId: NodeID, key: int)
    requires next in seps && item.first < next.first <= key
    ensures SameFloor(seps + {item}, lowId, seps, lowId, key)
  {
    forall id ensures IsFloor(seps + {item}, lowId, key, id) <==> IsFloor(seps, lowId, key, id) {
      assert next in seps + {item};
    }
  }

  // The shortcut of an insert record.
  lemma InsertDecides(c: Chain, bounded: bool, key: int)
    requires WellFormed(c, bounded) && c.Insert?
    requires key >= c.item.first && (c.next.second == INVALID_NODE_ID || key < c.next.first)
    ensures IsFloor(Seps(c), c.Low().second, key, c.item.second)
  {
    assert c.item in Seps(c);
  }

  // The shortcut of a delete record.
  lemma DeleteDecides(c: Chain, bounded: bool, key: int)
    requires WellFormed(c, bounded) && c.Delete?
    requires c.Low().second == c.prev.second || key >= c.prev.first
    requires c.next.second == INVALID_NODE_ID || key < c.next.first
    ensures IsFloor(Seps(c), c.Low().second, key, c.prev.second)
  {
    FindInChild(c, bounded);
    if c.Low().second != c.prev.second {
      assert c.prev in Seps(c);
    }
  }

  // A record that does not decide can be passed.
  lemma PassRecord(c: Chain, bounded: bool, key: int)
    requires WellFormed(c, bounded) && (c.Insert? || c.Delete?) && BelowHigh(c.High(), key)
    requires key < c.item.first || (c.next.second != INVALID_NODE_ID && key >= c.next.first)
    ensures SameFloor(Seps(c), c.Low().second, Seps(c.child), c.child.Low().second, key)
  {
    var lowId := c.Low().second;
    if key < c.item.first {
      SameBelow(Seps(c), Seps(c.child), lowId, key);
    } else {
      assert exists x :: x in Seps(c.child) && x.first == c.next.first;
      var next :| next in Seps(c.child) && next.first == c.next.first;
      if c.Insert? {
        ShadowedItem(Seps(c.child), c.item, next, lowId, key);
      } else {
        FindInChild(c, bounded);
        ShadowedItem(Seps(c), c.item, next, lowId, key);
        assert Seps(c) + {c.item} == Seps(c.child);
      }
    }
  }

  lemma DeleteNotDecided(c: Chain, bounded: bool, key: int)
    requires WellFormed(c, bounded) && c.Delete?
    requires !(c.Low().second == c.prev.second || key >= c.prev.first)
    ensures key < c.item.first
  {
  }

  lemma PassSplit(c: Chain, bounded: bool, key: int)
    requires WellFormed(c, bounded) && c.Split? && BelowHigh(c.High(), key)
    ensures SameFloor(Seps(c), c.Low().second, Seps(c.child), c.child.Low().second, key)
  {
    SameBelow(Seps(c), Seps(c.child), c.Low().second, key);
  }

  lemma BranchFloor(left: set<KeyNodeIDPair>, mid: KeyNodeIDPair, right: set<KeyNodeIDPair>, lowId: NodeID, key: int)
    requires forall x :: x in left ==> x.first < mid.first
    requires forall x :: x in right ==> mid.first < x.first
    ensures key < mid.first ==> SameFloor(left + {mid} + right, lowId, left, lowId, key)
    ensures key >= mid.first ==> SameFloor(left + {mid} + right, lowId, right, mid.second, key)
  {
    var all := left + {mid} + right;
    if key < mid.first {
      SameBelow(all, left, lowId, key);
    } else {
      assert mid in all;
      if y :| y in right && y.first <= key {
        assert y in all;
        forall id ensures IsFloor(all, lowId, key, id) <==> IsFloor(right, mid.second, key, id) {}
      } else {
        forall id ensures IsFloor(all, lowId, key, id) <==> id == mid.second {}
      }
    }
  }

  lemma PassMerge(c: Chain, bounded: bool, key: int)
    requires WellFormed(c, bounded) && c.Merge?
    ensures var branch := if key >= c.deleteItem.first then c.right else c.child;
            SameFloor(Seps(c), c.Low().second, Seps(branch), branch.Low().second, key)
  {
    SepsInRange(c.child, bounded);
    SepsInRange(c.right, true);
    BranchFloor(Seps(c.child), c.right.Low(), Seps(c.right), c.Low().second, key);
  }

  lemma StartWindow(c: Chain, bounded: bool, key: int)
    requires WellFormed(c, bounded)
    ensures WindowOk(c, 1, |c.LeftmostItems()|, key)
  {
    LeftmostIsLow(c, bounded);
  }

  lemma BaseDecides(c: Chain, bounded: bool, start: nat, end: nat, key: int)
    requires WellFormed(c, bounded) && c.Inner? && Brackets(c.items, start, end, key)
    ensures IsFloor(Seps(c), c.low.second, key, c.items[UpperBoundIn(c.items, start, end, key) - 1].second)
  {
    hide Seps, IsFloor;
    var at := UpperBoundIn(c.items, start, end, key);
    hide UpperBoundIn;
    assert Brackets(c.items, at, at, key);
    FloorAt(c, bounded, at, key);
  }

  lemma FloorAt(c: Chain, bounded: bool, at: nat, key: int)
    requires WellFormed(c, bounded) && c.Inner? && Brackets(c.items, at, at, key)
    ensures IsFloor(Seps(c), c.low.second, key, c.items[at - 1].second)
  {
    var seps := Seps(c);
    forall y | y in seps && y.first <= key
      ensures at > 1 && y.first <= c.items[at - 1].first
    {
      var i :| 1 <= i < |c.items| && c.items[i] == y;
      assert i < at;
    }
    assert at > 1 ==> c.items[at - 1] in seps;
  }

  // A floor search: early exits, narrowing and the choice of merge branches return the child that
  // the greatest separator <= key leads to once all records are replayed.
  method NavigateInnerNode(c: Chain, searchKey: int, ghost bounded: bool) returns (targetId: NodeID)
    requires WellFormed(c, bounded) && BelowHigh(c.High(), searchKey)
    ensures IsFloor(Seps(c), c.Low().second, searchKey, targetId)
  {
    hide WellFormed, WindowOk, Seps, IsFloor, Find, Brackets;
    StartWindow(c, bounded, searchKey);
    var start: nat, end: nat := 1, |c.LeftmostItems()|;
    var node := c;
    ghost var nodeBounded := bounded;
    while true
      invariant WellFormed(node, nodeBounded) && BelowHigh(node.High(), searchKey)
      invariant SameFloor(Seps(c), c.Low().second, Seps(node), node.Low().second, searchKey)
      invariant WindowOk(node, start, end, searchKey)
      decreases node
    {
      match node {
        case Inner(_, _, items, _) =>
          WindowOnBase(node, start, end, searchKey);
          BaseDecides(node, nodeBounded, start, end, searchKey);
          return items[UpperBoundIn(items, start, end, searchKey) - 1].second;
        case Insert(item, next, location, child) =>
          if searchKey >= item.first && (next.second == INVALID_NODE_ID || searchKey < next.first) {
            InsertDecides(node, nodeBounded, searchKey);
            return item.second;
          }
          PassRecord(node, nodeBounded, searchKey);
          RecordNarrows(node, nodeBounded, start, end, searchKey);
          if searchKey >= item.first {
            start := if location > start then location else start;
          } else {
            end := if location < end then location else end;
          }
          ChildIsOk(node, nodeBounded);
          node := child;
        case Delete(item, prev, next, location, child) =>
          if node.Low().second == prev.second || searchKey >= prev.first {
            if next.second == INVALID_NODE_ID || searchKey < next.first {
              DeleteDecides(node, nodeBounded, searchKey);
              return prev.second;
            }
          } else {
            DeleteNotDecided(node, nodeBounded, searchKey);
          }
          PassRecord(node, nodeBounded, searchKey);
          RecordNarrows(node, nodeBounded, start, end, searchKey);
          if searchKey >= item.first {
            start := if location > start then location else start;
          } else {
            end := if location < end then location else end;
          }
          ChildIsOk(node, nodeBounded);
          node := child;
        case Split(insertItem, _, child) =>
          PassSplit(node, nodeBounded, searchKey);
          ChildIsOk(node, nodeBounded);
          SplitKeepsWindow(node, start, end, searchKey);
          node := child;
        case Merge(deleteItem, right, child) =>
          PassMerge(node, nodeBounded, searchKey);
          ChildIsOk(node, nodeBounded);
          if searchKey >= deleteItem.first {
            node, nodeBounded := right, true;
          } else {
            node := child;
          }
          StartWindow(node, nodeBounded, searchKey);
          start, end := 1, |node.LeftmostItems()|;
      }
    }
  }

  lemma WindowOnBase(c: Chain, start: nat, end: nat, key: int)
    requires c.Inner? && WindowOk(c, start, end, key)
    ensures Brackets(c.items, start, end, key) && 1 <= start <= end <= |c.items|
  {
  }

  lemma SplitKeepsWindow(c: Chain, start: nat, end: nat, key: int)
    requires c.Split? && WindowOk(c, start, end, key)
    ensures WindowOk(c.child, start, end, key)
  {
  }

  lemma ChildIsOk(c: Chain, bounded: bool)
    requires WellFormed(c, bounded) && !c.Inner?
    ensures WellFormed(c.child, bounded)
    ensures c.Split? ==> forall key :: BelowHigh(c.High(), key) ==> BelowHigh(c.child.High(), key)
    ensures c.Merge? ==> WellFormed(c.right, true) && c.child.High() == c.deleteItem && c.High() == c.right.High()
  {
  }
}
