// Logical leaf nodes of the Bw-tree: a chain of delta records over a sorted base array
// (class LeafNode and the Leaf*Node records of bwtree.h), and what such a chain means.
module LeafChain {
  import opened Pairs

  // Where an item sits in the base array, and whether the base holds it.
  datatype IndexPair = IndexPair(index: nat, present: bool)

  datatype Chain =
    | Leaf(low: KeyNodeIDPair, high: KeyNodeIDPair, items: seq<KeyValuePair>)
    | Insert(item: KeyValuePair, indexPair: IndexPair, child: Chain)
    | Delete(item: KeyValuePair, indexPair: IndexPair, child: Chain)
    | Split(insertItem: KeyNodeIDPair, siblingItemCount: int, child: Chain)
    | Merge(deleteItem: KeyNodeIDPair, right: Chain, child: Chain)
    | Remove(removedId: NodeID, child: Chain)
  {
    // The metadata every record inherits from the record below it.
    function Low(): KeyNodeIDPair {
      match this
      case Leaf(low, _, _) => low
      case Insert(_, _, child) => child.Low()
      case Delete(_, _, child) => child.Low()
      case Split(_, _, child) => child.Low()
      case Merge(_, _, child) => child.Low()
      case Remove(_, child) => child.Low()
    }

    function High(): KeyNodeIDPair {
      match this
      case Leaf(_, high, _) => high
      case Insert(_, _, child) => child.High()
      case Delete(_, _, child) => child.High()
      case Split(insertItem, _, _) => insertItem
      case Merge(_, right, _) => right.High()
      case Remove(_, child) => child.High()
    }

    function Depth(): nat {
      match this
      case Leaf(_, _, _) => 0
      case Insert(_, _, child) => child.Depth() + 1
      case Delete(_, _, child) => child.Depth() + 1
      case Split(_, _, child) => child.Depth()
      case Merge(_, right, child) => child.Depth() + right.Depth()
      case Remove(_, child) => child.Depth()
    }

    function ItemCount(): int {
      match this
      case Leaf(_, _, items) => |items|
      case Insert(_, _, child) => child.ItemCount() + 1
      case Delete(_, _, child) => child.ItemCount() - 1
      case Split(_, siblingItemCount, child) => child.ItemCount() - siblingItemCount
      case Merge(_, right, child) => child.ItemCount() + right.ItemCount()
      case Remove(_, child) => child.ItemCount()
    }
  }

  predicate InRange(c: Chain, key: int) {
    AboveLow(c.Low(), key) && BelowHigh(c.High(), key)
  }

  // The meaning of a chain: replay its records, oldest first.
  function Contents(c: Chain): set<KeyValuePair> {
    match c
    case Leaf(_, _, items) => ToSet(items)
    case Insert(item, _, child) => Contents(child) + {item}
    case Delete(item, _, child) => Contents(child) - {item}
    case Split(insertItem, _, child) => set x | x in Contents(child) && x.first < insertItem.first
    case Merge(_, right, child) => Contents(child) + Contents(right)
    case Remove(_, child) => Contents(child)
  }

  // ---------- the existence check, bwtree.h:4111-4258 ----------

  datatype Existence = Existence(found: bool, indexPair: IndexPair)

  // The scan over the values of one key in the base array.
  function ScanKey(items: seq<KeyValuePair>, i: nat, item: KeyValuePair): Existence
    requires i <= |items|
    decreases |items| - i
  {
    if i == |items| || items[i].first != item.first then Existence(false, IndexPair(i, false))
    else if items[i].second == item.second then Existence(true, IndexPair(i, true))
    else ScanKey(items, i + 1, item)
  }

  function BaseLocate(items: seq<KeyValuePair>, item: KeyValuePair): Existence {
    ScanKey(items, LowerBound(items, item.first), item)
  }

  // The topmost record on the pair answers; a merge record sends the search to one branch.
  function Locate(c: Chain, item: KeyValuePair): Existence {
    match c
    case Leaf(_, _, items) => BaseLocate(items, item)
    case Insert(x, indexPair, child) => if x == item then Existence(true, indexPair) else Locate(child, item)
    case Delete(x, indexPair, child) => if x == item then Existence(false, indexPair) else Locate(child, item)
    case Split(_, _, child) => Locate(child, item)
    case Merge(deleteItem, right, child) =>
      if item.first >= deleteItem.first then Locate(right, item) else Locate(child, item)
    case Remove(_, child) => Locate(child, item)
  }

  // The loop of NavigateLeafNode.
  method NavigateLeafNode(c: Chain, searchKey: int, searchValue: int) returns (r: Existence)
    ensures r == Locate(c, Pair(searchKey, searchValue))
  {
    var node := c;
    while true
      invariant Locate(c, Pair(searchKey, searchValue)) == Locate(node, Pair(searchKey, searchValue))
      decreases node
    {
      match node {
        case Leaf(_, _, items) =>
          var i := LowerBound(items, searchKey);
          while i < |items| && items[i].first == searchKey
            invariant i <= |items|
            invariant ScanKey(items, i, Pair(searchKey, searchValue)) == BaseLocate(items, Pair(searchKey, searchValue))
          {
            if items[i].second == searchValue {
              return Existence(true, IndexPair(i, true));
            }
            i := i + 1;
          }
          return Existence(false, IndexPair(i, false));
        case Insert(item, indexPair, child) =>
          if item.first == searchKey && item.second == searchValue {
            return Existence(true, indexPair);
          }
          node := child;
        case Delete(item, indexPair, child) =>
          if item.first == searchKey && item.second == searchValue {
            return Existence(false, indexPair);
          }
          node := child;
        case Merge(deleteItem, right, child) =>
          node := if searchKey >= deleteItem.first then right else child;
        case Split(_, _, child) => node := child;
        case Remove(_, child) => node := child;
      }
    }
  }

  // ---------- well-formed chains ----------

  ghost predicate BaseOk(low: KeyNodeIDPair, high: KeyNodeIDPair, items: seq<KeyValuePair>) {
    && (low.second != INVALID_NODE_ID ==> BelowHigh(high, low.first))
    && Sorted(items) && NoDuplicates(items)
    && forall i :: 0 <= i < |items| ==> AboveLow(low, items[i].first) && BelowHigh(high, items[i].first)
  }

  // Insert and Delete post what the existence check allowed, with the index pair it reported.
  // Split and remove records are only posted on a base node (bwtree.h:5958-5965); a merge record
  // joins two chains at the high key of the left one.
  ghost predicate WellFormed(c: Chain) {
    match c
    case Leaf(low, high, items) => BaseOk(low, high, items)
    case Insert(item, indexPair, child) =>
      && WellFormed(child) && !child.Remove? && InRange(child, item.first)
      && Locate(child, item) == Existence(false, indexPair)
    case Delete(item, indexPair, child) =>
      && WellFormed(child) && !child.Remove? && InRange(child, item.first)
      && Locate(child, item) == Existence(true, indexPair)
    case Split(insertItem, siblingItemCount, child) =>
      && WellFormed(child) && child.Leaf?
      && insertItem.second != INVALID_NODE_ID
      && (child.low.second != INVALID_NODE_ID ==> child.low.first < insertItem.first)
      && BelowHigh(child.high, insertItem.first)
      && siblingItemCount == |child.items| - LowerBound(child.items, insertItem.first)
    case Merge(deleteItem, right, child) =>
      && WellFormed(child) && !child.Remove? && WellFormed(right) && !right.Remove?
      && child.High() == deleteItem && deleteItem.second != INVALID_NODE_ID
      && right.Low().second != INVALID_NODE_ID && right.Low().first == deleteItem.first
    case Remove(_, child) => WellFormed(child) && child.Leaf?
  }

  // The base array that a key of the chain's range is searched in.
  function BaseItems(c: Chain, key: int): seq<KeyValuePair> {
    match c
    case Leaf(_, _, items) => items
    case Insert(_, _, child) => BaseItems(child, key)
    case Delete(_, _, child) => BaseItems(child, key)
    case Split(_, _, child) => BaseItems(child, key)
    case Merge(deleteItem, right, child) =>
      if key >= deleteItem.first then BaseItems(right, key) else BaseItems(child, key)
    case Remove(_, child) => BaseItems(child, key)
  }

  // ---------- what the existence check and the metadata say ----------

  lemma {:induction false} ScanKeyMeaning(items: seq<KeyValuePair>, i: nat, item: KeyValuePair)
    requires Sorted(items) && i <= |items|
    requires forall j :: 0 <= j < i ==> items[j].first <= item.first && items[j] != item
    requires i < |items| ==> items[i].first >= item.first
    ensures var r := ScanKey(items, i, item);
            && r.found == r.indexPair.present == (item in items)
            && r.indexPair.index <= |items|
            && (forall j :: 0 <= j < r.indexPair.index ==> items[j].first <= item.first && items[j] != item)
            && (forall j :: r.indexPair.index <= j < |items| ==> items[j].first >= item.first)
            && (r.found ==> r.indexPair.index < |items| && items[r.indexPair.index] == item)
            && (!r.found ==> forall j :: r.indexPair.index <= j < |items| ==> items[j].first > item.first)
    decreases |items| - i
  {
    if i < |items| && items[i].first == item.first && items[i].second != item.second {
      ScanKeyMeaning(items, i + 1, item);
    }
  }

  lemma BaseLocateMeaning(items: seq<KeyValuePair>, item: KeyValuePair)
    requires Sorted(items)
    ensures var r := BaseLocate(items, item);
            && r.found == r.indexPair.present == (item in items)
            && r.indexPair.index <= |items|
            && (forall j :: 0 <= j < r.indexPair.index ==> items[j].first <= item.first && items[j] != item)
            && (forall j :: r.indexPair.index <= j < |items| ==> items[j].first >= item.first)
            && (r.found ==> r.indexPair.index < |items| && items[r.indexPair.index] == item)
            && (!r.found ==> forall j :: r.indexPair.index <= j < |items| ==> items[j].first > item.first)
  {
    ScanKeyMeaning(items, LowerBound(items, item.first), item);
  }

  lemma {:induction false} ContentsInRange(c: Chain)
    requires WellFormed(c)
    ensures c.Low().second != INVALID_NODE_ID ==> BelowHigh(c.High(), c.Low().first)
    ensures forall x :: x in Contents(c) ==> InRange(c, x.first)
  {
    match c {
      case Leaf(_, _, _) =>
      case Insert(_, _, child) => ContentsInRange(child);
      case Delete(_, _, child) => ContentsInRange(child);
      case Split(_, _, child) => ContentsInRange(child);
      case Merge(_, right, child) =>
        ContentsInRange(child);
        ContentsInRange(right);
      case Remove(_, child) => ContentsInRange(child);
    }
  }

  // The existence check is exact, and the index pair it reports is the item's place in the base
  // array, however many records are in between.
  lemma {:induction false} LocateIsExact(c: Chain, item: KeyValuePair)
    requires WellFormed(c) && InRange(c, item.first)
    ensures Locate(c, item).found <==> item in Contents(c)
    ensures Locate(c, item).indexPair == BaseLocate(BaseItems(c, item.first), item).indexPair
  {
    match c {
      case Leaf(_, _, items) => BaseLocateMeaning(items, item);
      case Insert(x, _, child) => LocateIsExact(child, item);
      case Delete(x, _, child) => LocateIsExact(child, item);
      case Split(_, _, child) => LocateIsExact(child, item);
      case Merge(deleteItem, right, child) =>
        ContentsInRange(child);
        ContentsInRange(right);
        if item.first >= deleteItem.first { LocateIsExact(right, item); } else { LocateIsExact(child, item); }
      case Remove(_, child) => LocateIsExact(child, item);
    }
  }

  lemma BaseIsSorted(c: Chain, key: int)
    requires WellFormed(c)
    ensures Sorted(BaseItems(c, key)) && NoDuplicates(BaseItems(c, key))
  {
  }

  // The counter that the record constructors maintain is the number of logical items.
  lemma {:induction false} ItemCountIsExact(c: Chain)
    requires WellFormed(c)
    ensures c.ItemCount() == |Contents(c)|
  {
    match c {
      case Leaf(_, _, items) => DistinctSize(items);
      case Insert(item, _, child) =>
        ItemCountIsExact(child);
        LocateIsExact(child, item);
      case Delete(item, _, child) =>
        ItemCountIsExact(child);
        LocateIsExact(child, item);
      case Split(insertItem, _, child) =>
        var p := LowerBound(child.items, insertItem.first);
        DistinctSize(child.items[..p]);
        assert Contents(c) == ToSet(child.items[..p]);
      case Merge(_, right, child) =>
        ItemCountIsExact(child);
        ItemCountIsExact(right);
        ContentsInRange(child);
        ContentsInRange(right);
        assert Contents(child) !! Contents(right);
      case Remove(_, child) => ItemCountIsExact(child);
    }
  }
}
