// The point lookup: NavigateLeafNode collecting all values of one key, bwtree.h:3916-4084.
module LeafRead {
  import opened Options
  import opened Pairs
  import opened LeafChain
  import opened BloomFilters

  // start_index and end_index; an end of -1 stands for the end of the base array.
  datatype Window = Window(start: nat, end: int)

  const WHOLE_ARRAY := Window(0, -1)

  function EndOf(w: Window, items: seq<KeyValuePair>): int {
    if w.end == -1 then |items| else w.end
  }

  // std::lower_bound is only defined on a range inside the array.
  predicate IsRange(w: Window, items: seq<KeyValuePair>) {
    w.start <= EndOf(w, items) <= |items|
  }

  // A record on another key overwrites one end of the window.
  function Narrow(w: Window, key: int, item: KeyValuePair, indexPair: IndexPair): Window {
    if key == item.first then w
    else if key > item.first then w.(start := indexPair.index)
    else w.(end := indexPair.index)
  }

  // The values of the base array from position i on, as far as no record has decided them.
  function ScanValues(items: seq<KeyValuePair>, i: nat, key: int, present: seq<int>, deleted: seq<int>): seq<int>
    requires i <= |items|
    decreases |items| - i
  {
    if i == |items| || items[i].first != key then []
    else
      var v := items[i].second;
      (if v !in deleted && v !in present then [v] else []) + ScanValues(items, i + 1, key, present, deleted)
  }

  // What the loop returns from a given record on; None when the window is not a range.
  function ReadFrom(c: Chain, key: int, w: Window, present: seq<int>, deleted: seq<int>): Option<seq<int>> {
    match c
    case Leaf(_, _, items) =>
      if !IsRange(w, items) then None
      else
        Some(present + ScanValues(items, LowerBoundIn(items, w.start, EndOf(w, items), key), key, present, deleted))
    case Insert(item, indexPair, child) =>
      ReadFrom(child, key, Narrow(w, key, item, indexPair),
               if item.first == key && item.second !in deleted && item.second !in present
               then present + [item.second] else present, deleted)
    case Delete(item, indexPair, child) =>
      ReadFrom(child, key, Narrow(w, key, item, indexPair), present,
               if item.first == key && item.second !in present then deleted + [item.second] else deleted)
    case Split(_, _, child) => ReadFrom(child, key, w, present, deleted)
    case Merge(deleteItem, right, child) =>
      ReadFrom(if key >= deleteItem.first then right else child, key, w, present, deleted)
    case Remove(_, child) => ReadFrom(child, key, w, present, deleted)
  }

  // Values of the base array are not put into the present set: they are distinct.
  method CopyValues(items: seq<KeyValuePair>, copyStart: nat, searchKey: int, present: BloomFilter<int>,
                    deleted: BloomFilter<int>)
    returns (values: seq<int>)
    requires copyStart <= |items| && present.Valid() && deleted.Valid()
    ensures values == ScanValues(items, copyStart, searchKey, present.Values(), deleted.Values())
  {
    hide BloomFilter.Valid, BloomFilter.BitSet;
    values := [];
    var i := copyStart;
    while i != |items| && searchKey == items[i].first
      invariant copyStart <= i <= |items|
      invariant ScanValues(items, copyStart, searchKey, present.Values(), deleted.Values())
             == values + ScanValues(items, i, searchKey, present.Values(), deleted.Values())
      decreases |items| - i
    {
      var v := items[i].second;
      var isDeleted := deleted.Exists(v);
      var isPresent := present.Exists(v);
      ghost var rest := ScanValues(items, i + 1, searchKey, present.Values(), deleted.Values());
      if !isDeleted && !isPresent {
        assert values + ([v] + rest) == values + [v] + rest;
        values := values + [v];
      } else {
        assert [] + rest == rest;
      }
      i := i + 1;
    }
    assert values + [] == values;
  }

  // The two filters of one lookup do not share memory, and have room for every record below.
  ghost predicate Filters(present: BloomFilter<int>, deleted: BloomFilter<int>, depth: nat)
    reads present, present.bits, present.data, deleted, deleted.bits, deleted.data
  {
    && present.Valid() && deleted.Valid()
    && present != deleted && present.bits != deleted.bits && present.data != deleted.data
    && present.bits as object != deleted.data && deleted.bits as object != present.data
    && present.count + depth <= present.data.Length && deleted.count + depth <= deleted.data.Length
  }

  // A record on the search key: the topmost one for its value decides.
  method Decide(record: Chain, present: BloomFilter<int>, deleted: BloomFilter<int>, valueList: seq<int>)
    returns (values: seq<int>)
    requires record.Insert? || record.Delete?
    requires Filters(present, deleted, record.Depth()) && valueList == present.Values()
    modifies present, present.bits, present.data, deleted, deleted.bits, deleted.data
    ensures Filters(present, deleted, record.child.Depth()) && values == present.Values()
    ensures var v := record.item.second;
            && values == (if record.Insert? && v !in old(deleted.Values()) && v !in valueList
                          then valueList + [v] else valueList)
            && deleted.Values() == (if record.Delete? && v !in valueList
                                    then old(deleted.Values()) + [v] else old(deleted.Values()))
  {
    hide BloomFilter.Valid, BloomFilter.BitSet;
    values := valueList;
    var v := record.item.second;
    var isPresent := present.Exists(v);
    if record.Insert? {
      var isDeleted := deleted.Exists(v);
      if !isDeleted && !isPresent {
        present.Insert(v);
        values := values + [v];
      }
    } else if !isPresent {
      deleted.Insert(v);
    }
  }

  // Every value pushed by a record is also put into the present set, so the result starts with it.
  method NavigateLeafNode(c: Chain, searchKey: int, hash: int -> bv64) returns (r: Option<seq<int>>)
    requires !c.Remove?
    ensures r == ReadFrom(c, searchKey, WHOLE_ARRAY, [], [])
  {
    hide BloomFilter.Valid, BloomFilter.BitSet, LowerBound, ScanValues, Filters;
    var presentData, deletedData := new int[c.Depth()], new int[c.Depth()];
    var present := new BloomFilter<int>(presentData, hash);
    var deleted := new BloomFilter<int>(deletedData, hash);
    EmptyFilters(present, deleted, c.Depth());
    var valueList: seq<int> := [];
    var startIndex: nat, endIndex: int := 0, -1;
    var node := c;
    while !node.Leaf?
      invariant fresh({present, present.bits, present.data, deleted, deleted.bits, deleted.data})
      invariant Filters(present, deleted, node.Depth()) && present.Valid() && deleted.Valid()
      invariant valueList == present.Values()
      invariant ReadFrom(c, searchKey, WHOLE_ARRAY, [], [])
             == ReadFrom(node, searchKey, Window(startIndex, endIndex), valueList, deleted.Values())
      decreases node
    {
      match node {
        case Leaf(_, _, _) =>
        case Insert(item, indexPair, child) =>
          if searchKey == item.first {
            valueList := Decide(node, present, deleted, valueList);
          } else if searchKey > item.first {
            startIndex := indexPair.index;
          } else {
            endIndex := indexPair.index;
          }
          FiltersFit(present, deleted, node.Depth(), child.Depth());
          node := child;
        case Delete(item, indexPair, child) =>
          if searchKey == item.first {
            valueList := Decide(node, present, deleted, valueList);
          } else if searchKey > item.first {
            startIndex := indexPair.index;
          } else {
            endIndex := indexPair.index;
          }
          FiltersFit(present, deleted, node.Depth(), child.Depth());
          node := child;
        case Split(_, _, child) =>
          node := child;
        case Merge(deleteItem, right, child) =>
          FiltersFit(present, deleted, node.Depth(), right.Depth());
          FiltersFit(present, deleted, node.Depth(), child.Depth());
          node := if searchKey >= deleteItem.first then right else child;
        case Remove(_, child) =>
          node := child;
      }
    }
    var items := node.items;
    if !IsRange(Window(startIndex, endIndex), items) {
      return None;
    }
    var copyStart := LowerBoundIn(items, startIndex, EndOf(Window(startIndex, endIndex), items), searchKey);
    var copied := CopyValues(items, copyStart, searchKey, present, deleted);
    return Some(valueList + copied);
  }

  lemma EmptyFilters(present: BloomFilter<int>, deleted: BloomFilter<int>, depth: nat)
    requires present.Valid() && deleted.Valid() && present.count == 0 == deleted.count
    requires present != deleted && present.bits != deleted.bits && present.data != deleted.data
    requires present.bits as object != deleted.data && deleted.bits as object != present.data
    requires depth == present.data.Length == deleted.data.Length
    ensures Filters(present, deleted, depth)
  {
  }

  lemma FiltersFit(present: BloomFilter<int>, deleted: BloomFilter<int>, depth: nat, depth': nat)
    requires Filters(present, deleted, depth) || Filters(present, deleted, depth')
    requires depth' <= depth
    ensures Filters(present, deleted, depth') && present.Valid() && deleted.Valid()
  {
  }

  // ---------- what the lookup returns ----------

  // A record on the way to the base array decides the pair.
  predicate Decided(c: Chain, item: KeyValuePair) {
    match c
    case Leaf(_, _, _) => false
    case Insert(x, _, child) => x == item || Decided(child, item)
    case Delete(x, _, child) => x == item || Decided(child, item)
    case Split(_, _, child) => Decided(child, item)
    case Merge(deleteItem, right, child) => Decided(if item.first >= deleteItem.first then right else child, item)
    case Remove(_, child) => Decided(child, item)
  }

  // The window that reaches the base array.
  function FinalWindow(c: Chain, key: int, w: Window): Window {
    match c
    case Leaf(_, _, _) => w
    case Insert(item, indexPair, child) => FinalWindow(child, key, Narrow(w, key, item, indexPair))
    case Delete(item, indexPair, child) => FinalWindow(child, key, Narrow(w, key, item, indexPair))
    case Split(_, _, child) => FinalWindow(child, key, w)
    case Merge(deleteItem, right, child) => FinalWindow(if key >= deleteItem.first then right else child, key, w)
    case Remove(_, child) => FinalWindow(child, key, w)
  }

  // The scan starts in the window and runs over the copies of the key behind its start.
  ghost predicate Scanned(w: Window, items: seq<KeyValuePair>, item: KeyValuePair)
    requires IsRange(w, items)
  {
    exists j :: w.start <= j < |items| && items[j] == item && LowerBound(items, item.first) <= EndOf(w, items)
  }

  lemma {:induction false} ScanValuesMeaning(items: seq<KeyValuePair>, i: nat, key: int, present: seq<int>,
                                             deleted: seq<int>)
    requires Sorted(items) && NoDuplicates(items) && i <= |items|
    requires i < |items| ==> items[i].first >= key
    ensures var r := ScanValues(items, i, key, present, deleted);
            && NoDuplicates(r)
            && forall v :: v in r <==> v !in present && v !in deleted && Pair(key, v) in items[i..]
    decreases |items| - i
  {
    if i < |items| {
      assert items[i..] == [items[i]] + items[i + 1..];
      if items[i].first == key {
        ScanValuesMeaning(items, i + 1, key, present, deleted);
      }
    }
  }

  // The values read from the base array are those whose copies lie in the window.
  lemma BaseReadMeaning(items: seq<KeyValuePair>, key: int, w: Window, present: seq<int>, deleted: seq<int>)
    requires Sorted(items) && NoDuplicates(items) && IsRange(w, items)
    ensures var r := ScanValues(items, LowerBoundIn(items, w.start, EndOf(w, items), key), key, present, deleted);
            && NoDuplicates(r)
            && forall v :: v in r <==> v !in present && v !in deleted && Scanned(w, items, Pair(key, v))
  {
    hide LowerBound, LowerBoundIn;
    var at := LowerBoundIn(items, w.start, EndOf(w, items), key);
    if EndOf(w, items) >= LowerBound(items, key) {
      hide NoDuplicates, Sorted;
      ScanValuesMeaning(items, at, key, present, deleted);
      forall v
        ensures Pair(key, v) in items[at..] <==> Scanned(w, items, Pair(key, v))
      {
        ScannedBehind(items, w, key, at, v);
      }
    }
  }

  lemma ScannedBehind(items: seq<KeyValuePair>, w: Window, key: int, at: nat, v: int)
    requires IsRange(w, items) && w.start <= at <= EndOf(w, items)
    requires forall j :: w.start <= j < at ==> items[j].first < key
    requires LowerBound(items, key) <= EndOf(w, items) || at == |items|
    ensures Pair(key, v) in items[at..] <==> Scanned(w, items, Pair(key, v))
  {
    if Pair(key, v) in items[at..] {
      var j :| 0 <= j < |items| - at && items[at..][j] == Pair(key, v);
      assert items[at + j] == Pair(key, v);
    }
    if Scanned(w, items, Pair(key, v)) {
      var j :| w.start <= j < |items| && items[j] == Pair(key, v);
      assert items[at..][j - at] == Pair(key, v);
    }
  }

  // The topmost record on a pair decides, and an undecided pair is read from the base array.
  ghost predicate Reads(c: Chain, key: int, w: Window, v: int)
    requires IsRange(FinalWindow(c, key, w), BaseItems(c, key))
  {
    if Decided(c, Pair(key, v)) then Locate(c, Pair(key, v)).found
    else Scanned(FinalWindow(c, key, w), BaseItems(c, key), Pair(key, v))
  }

  lemma JoinDistinct(present: seq<int>, copied: seq<int>)
    requires NoDuplicates(present) && NoDuplicates(copied) && forall v :: v in copied ==> v !in present
    ensures NoDuplicates(present + copied)
  {
    var both := present + copied;
    forall i, j | 0 <= i < j < |both| ensures both[i] != both[j] {
      if j >= |present| {
        assert both[j] == copied[j - |present|];
        if i >= |present| {
          assert both[i] == copied[i - |present|];
        } else {
          assert both[i] == present[i] && both[i] in present && both[j] in copied;
        }
      }
    }
  }

  lemma Append(present: seq<int>, v: int)
    requires NoDuplicates(present) && v !in present
    ensures NoDuplicates(present + [v])
  {
  }

  lemma {:induction false} ReadMeaning(c: Chain, key: int, w: Window, present: seq<int>, deleted: seq<int>)
    requires WellFormed(c) && NoDuplicates(present)
    requires IsRange(FinalWindow(c, key, w), BaseItems(c, key))
    ensures var r := ReadFrom(c, key, w, present, deleted);
            && r.Some? && NoDuplicates(r.value)
            && forall v :: v in r.value <==> v in present || (v !in deleted && Reads(c, key, w, v))
  {
    hide LowerBound, NoDuplicates, Sorted, ScanValues, LowerBoundIn, Scanned, Narrow;
    match c {
      case Leaf(_, _, items) =>
        BaseReadMeaning(items, key, w, present, deleted);
        JoinDistinct(present, ScanValues(items, LowerBoundIn(items, w.start, EndOf(w, items), key), key, present, deleted));
      case Insert(item, indexPair, child) =>
        var v := item.second;
        var present' := if item.first == key && v !in deleted && v !in present then present + [v] else present;
        if v !in present { Append(present, v); }
        ReadMeaning(child, key, Narrow(w, key, item, indexPair), present', deleted);
      case Delete(item, indexPair, child) =>
        var deleted' := if item.first == key && item.second !in present then deleted + [item.second] else deleted;
        ReadMeaning(child, key, Narrow(w, key, item, indexPair), present, deleted');
      case Split(_, _, child) => ReadMeaning(child, key, w, present, deleted);
      case Merge(deleteItem, right, child) =>
        ReadMeaning(if key >= deleteItem.first then right else child, key, w, present, deleted);
      case Remove(_, child) => ReadMeaning(child, key, w, present, deleted);
    }
  }

  lemma {:induction false} NotARangeReadsNothing(c: Chain, key: int, w: Window, present: seq<int>, deleted: seq<int>)
    requires !IsRange(FinalWindow(c, key, w), BaseItems(c, key))
    ensures ReadFrom(c, key, w, present, deleted) == None
  {
    match c {
      case Leaf(_, _, _) =>
      case Insert(item, indexPair, child) =>
        NotARangeReadsNothing(child, key, Narrow(w, key, item, indexPair),
          if item.first == key && item.second !in deleted && item.second !in present
          then present + [item.second] else present, deleted);
      case Delete(item, indexPair, child) =>
        NotARangeReadsNothing(child, key, Narrow(w, key, item, indexPair), present,
          if item.first == key && item.second !in present then deleted + [item.second] else deleted);
      case Split(_, _, child) => NotARangeReadsNothing(child, key, w, present, deleted);
      case Merge(deleteItem, right, child) =>
        NotARangeReadsNothing(if key >= deleteItem.first then right else child, key, w, present, deleted);
      case Remove(_, child) => NotARangeReadsNothing(child, key, w, present, deleted);
    }
  }

  lemma {:induction false} UndecidedIsInBase(c: Chain, item: KeyValuePair)
    requires WellFormed(c) && !Decided(c, item)
    ensures Locate(c, item).found <==> item in BaseItems(c, item.first)
  {
    match c {
      case Leaf(_, _, items) => BaseLocateMeaning(items, item);
      case Insert(_, _, child) => UndecidedIsInBase(child, item);
      case Delete(_, _, child) => UndecidedIsInBase(child, item);
      case Split(_, _, child) => UndecidedIsInBase(child, item);
      case Merge(deleteItem, right, child) =>
        UndecidedIsInBase(if item.first >= deleteItem.first then right else child, item);
      case Remove(_, child) => UndecidedIsInBase(child, item);
    }
  }

  // The values of a key, each exactly once.
  ghost predicate ReadsExactly(r: Option<seq<int>>, c: Chain, key: int) {
    && r.Some? && NoDuplicates(r.value)
    && forall v :: v in r.value <==> Pair(key, v) in Contents(c)
  }

  // ---------- where the window comes from ----------

  // The item of the lowest record with a smaller (greater) key on the way to the base array.
  function LastRecord(c: Chain, key: int, smaller: bool): Option<KeyValuePair> {
    match c
    case Leaf(_, _, _) => None
    case Insert(item, _, child) => Lower(item, LastRecord(child, key, smaller), key, smaller)
    case Delete(item, _, child) => Lower(item, LastRecord(child, key, smaller), key, smaller)
    case Split(_, _, child) => LastRecord(child, key, smaller)
    case Merge(deleteItem, right, child) => LastRecord(if key >= deleteItem.first then right else child, key, smaller)
    case Remove(_, child) => LastRecord(child, key, smaller)
  }

  function Lower(item: KeyValuePair, below: Option<KeyValuePair>, key: int, smaller: bool): Option<KeyValuePair> {
    if below.None? && (if smaller then item.first < key else item.first > key) then Some(item) else below
  }

  // The position of an item in the base array of its own key.
  function Place(c: Chain, item: KeyValuePair): nat {
    BaseLocate(BaseItems(c, item.first), item).indexPair.index
  }

  // The places of the lowest records on both sides of the key, each in the array of that record.
  function Places(c: Chain, key: int, w: Window): Window {
    var (left, right) := (LastRecord(c, key, true), LastRecord(c, key, false));
    Window(if left.Some? then Place(c, left.value) else w.start, if right.Some? then Place(c, right.value) else w.end)
  }

  lemma {:induction false} LastRecordInRange(c: Chain, key: int, smaller: bool)
    requires WellFormed(c)
    ensures LastRecord(c, key, smaller).Some? ==> InRange(c, LastRecord(c, key, smaller).value.first)
  {
    match c {
      case Leaf(_, _, _) =>
      case Insert(_, _, child) => LastRecordInRange(child, key, smaller);
      case Delete(_, _, child) => LastRecordInRange(child, key, smaller);
      case Split(_, _, child) =>
      case Merge(deleteItem, right, child) =>
        ContentsInRange(child);
        ContentsInRange(right);
        LastRecordInRange(if key >= deleteItem.first then right else child, key, smaller);
      case Remove(_, child) =>
    }
  }

  // A record in one branch of a merge record has its place in the array of that branch.
  lemma BranchPlaces(c: Chain, key: int, w: Window)
    requires WellFormed(c) && c.Merge?
    ensures Places(c, key, w) == Places(if key >= c.deleteItem.first then c.right else c.child, key, w)
  {
    var branch := if key >= c.deleteItem.first then c.right else c.child;
    LastRecordInRange(branch, key, true);
    LastRecordInRange(branch, key, false);
    hide LowerBound;
  }

  // The window that the lookup ends with, however it has been overwritten on the way.
  lemma {:induction false} WindowIsPlaces(c: Chain, key: int, w: Window)
    requires WellFormed(c)
    ensures FinalWindow(c, key, w) == Places(c, key, w)
  {
    hide LowerBound;
    match c {
      case Leaf(_, _, _) =>
      case Insert(item, indexPair, child) =>
        WindowIsPlaces(child, key, Narrow(w, key, item, indexPair));
        LocateIsExact(child, item);
      case Delete(item, indexPair, child) =>
        WindowIsPlaces(child, key, Narrow(w, key, item, indexPair));
        LocateIsExact(child, item);
      case Split(_, _, child) => WindowIsPlaces(child, key, w);
      case Merge(deleteItem, right, child) =>
        WindowIsPlaces(if key >= deleteItem.first then right else child, key, w);
        BranchPlaces(c, key, w);
      case Remove(_, child) => WindowIsPlaces(child, key, w);
    }
  }

  // The places of the lowest records beside the key, taken in the arrays of those records, form a
  // range of the array of the key, and leave out no copy of the key that no record decides.
  ghost predicate WindowCovers(c: Chain, key: int) {
    var w := Places(c, key, WHOLE_ARRAY);
    var items := BaseItems(c, key);
    && IsRange(w, items)
    && forall j :: 0 <= j < |items| && items[j].first == key && !Decided(c, items[j]) ==>
         w.start <= j && LowerBound(items, key) <= EndOf(w, items)
  }

  // What a lookup returns: a value is returned, once, exactly if the topmost record on it inserts it, or
  // no record decides it and its copy lies between those places; nothing if they are not a range.
  lemma LookupMeaning(c: Chain, key: int)
    requires WellFormed(c)
    ensures var r, w, items := ReadFrom(c, key, WHOLE_ARRAY, [], []), Places(c, key, WHOLE_ARRAY), BaseItems(c, key);
            if !IsRange(w, items) then r == None
            else
              && r.Some? && NoDuplicates(r.value)
              && forall v :: v in r.value <==> if Decided(c, Pair(key, v)) then Locate(c, Pair(key, v)).found
                                               else Scanned(w, items, Pair(key, v))
  {
    WindowIsPlaces(c, key, WHOLE_ARRAY);
    hide WellFormed, LowerBound, FinalWindow, Places, BaseItems, ReadFrom, Decided, Locate, Scanned;
    if IsRange(Places(c, key, WHOLE_ARRAY), BaseItems(c, key)) {
      ReadMeaning(c, key, WHOLE_ARRAY, [], []);
    } else {
      NotARangeReadsNothing(c, key, WHOLE_ARRAY, [], []);
    }
  }

  // A value of the node is missed if no record decides it and the scan passes its copy by.
  ghost predicate Missed(c: Chain, key: int, v: int)
    requires IsRange(Places(c, key, WHOLE_ARRAY), BaseItems(c, key))
  {
    && !Decided(c, Pair(key, v)) && Pair(key, v) in BaseItems(c, key)
    && !Scanned(Places(c, key, WHOLE_ARRAY), BaseItems(c, key), Pair(key, v))
  }

  // A value of the node is read or missed.
  lemma ReadOrMissed(c: Chain, key: int, v: int)
    requires WellFormed(c) && InRange(c, key) && IsRange(Places(c, key, WHOLE_ARRAY), BaseItems(c, key))
    ensures var read := if Decided(c, Pair(key, v)) then Locate(c, Pair(key, v)).found
                        else Scanned(Places(c, key, WHOLE_ARRAY), BaseItems(c, key), Pair(key, v));
            (Pair(key, v) in Contents(c) <==> read || Missed(c, key, v)) && !(read && Missed(c, key, v))
  {
    hide WellFormed, LowerBound, Places, BaseItems, Contents, Locate;
    LocateIsExact(c, Pair(key, v));
    if !Decided(c, Pair(key, v)) { UndecidedIsInBase(c, Pair(key, v)); }
  }

  lemma ScannedAt(w: Window, items: seq<KeyValuePair>, j: nat)
    requires NoDuplicates(items) && IsRange(w, items) && j < |items|
    ensures Scanned(w, items, items[j]) <==> w.start <= j && LowerBound(items, items[j].first) <= EndOf(w, items)
  {
    hide LowerBound;
  }

  lemma CoveredIsRead(c: Chain, key: int, v: int)
    requires WellFormed(c) && WindowCovers(c, key)
    ensures !Missed(c, key, v)
  {
    BaseIsSorted(c, key);
    hide WellFormed, LowerBound, Places, BaseItems, Decided, Scanned, NoDuplicates, Sorted;
    var w, items := Places(c, key, WHOLE_ARRAY), BaseItems(c, key);
    if !Decided(c, Pair(key, v)) && Pair(key, v) in items {
      var j :| 0 <= j < |items| && items[j] == Pair(key, v);
      ScannedAt(w, items, j);
    }
  }

  lemma UncoveredIsMissed(c: Chain, key: int) returns (v: int)
    requires WellFormed(c) && IsRange(Places(c, key, WHOLE_ARRAY), BaseItems(c, key)) && !WindowCovers(c, key)
    ensures Missed(c, key, v)
  {
    BaseIsSorted(c, key);
    hide WellFormed, LowerBound, Places, BaseItems, Decided, Scanned, NoDuplicates, Sorted;
    var w, items := Places(c, key, WHOLE_ARRAY), BaseItems(c, key);
    var j :| 0 <= j < |items| && items[j].first == key && !Decided(c, items[j])
             && !(w.start <= j && LowerBound(items, key) <= EndOf(w, items));
    ScannedAt(w, items, j);
    v := items[j].second;
    assert items[j] == Pair(key, v);
  }

  lemma NothingMissed(c: Chain, key: int)
    requires WellFormed(c) && IsRange(Places(c, key, WHOLE_ARRAY), BaseItems(c, key))
    ensures WindowCovers(c, key) <==> forall v :: !Missed(c, key, v)
  {
    hide WellFormed, WindowCovers, Missed, IsRange;
    if WindowCovers(c, key) {
      forall v ensures !Missed(c, key, v) { CoveredIsRead(c, key, v); }
    } else {
      var v := UncoveredIsMissed(c, key);
    }
  }

  // The lookup is exact for exactly the chains in which those places cover the key.
  lemma LeafReadIsExactExactlyWhen(c: Chain, key: int)
    requires WellFormed(c) && InRange(c, key)
    ensures ReadsExactly(ReadFrom(c, key, WHOLE_ARRAY, [], []), c, key) <==> WindowCovers(c, key)
  {
    LookupMeaning(c, key);
    hide WellFormed, LowerBound, Places, BaseItems, Contents, ReadFrom, Decided, Locate, Scanned, Missed;
    if IsRange(Places(c, key, WHOLE_ARRAY), BaseItems(c, key)) {
      forall v
        ensures var read := if Decided(c, Pair(key, v)) then Locate(c, Pair(key, v)).found
                            else Scanned(Places(c, key, WHOLE_ARRAY), BaseItems(c, key), Pair(key, v));
                (Pair(key, v) in Contents(c) <==> read || Missed(c, key, v)) && !(read && Missed(c, key, v))
      {
        ReadOrMissed(c, key, v);
      }
      NothingMissed(c, key);
    }
  }

  // ---------- records that go the way of the key ----------

  // The two keys take the same branch of every merge record on the way of the second one.
  predicate SameWay(c: Chain, other: int, key: int) {
    match c
    case Leaf(_, _, _) => true
    case Insert(_, _, child) => SameWay(child, other, key)
    case Delete(_, _, child) => SameWay(child, other, key)
    case Split(_, _, child) => SameWay(child, other, key)
    case Merge(deleteItem, right, child) =>
      && (other >= deleteItem.first <==> key >= deleteItem.first)
      && SameWay(if key >= deleteItem.first then right else child, other, key)
    case Remove(_, child) => SameWay(child, other, key)
  }

  // So does every record on the way of the key with each merge record below it.
  predicate RecordsGoTheWay(c: Chain, key: int) {
    match c
    case Leaf(_, _, _) => true
    case Insert(item, _, child) => SameWay(child, item.first, key) && RecordsGoTheWay(child, key)
    case Delete(item, _, child) => SameWay(child, item.first, key) && RecordsGoTheWay(child, key)
    case Split(_, _, child) => RecordsGoTheWay(child, key)
    case Merge(deleteItem, right, child) => RecordsGoTheWay(if key >= deleteItem.first then right else child, key)
    case Remove(_, child) => RecordsGoTheWay(child, key)
  }

  // Every copy of the key lies between the two ends.
  ghost predicate Brackets(w: Window, items: seq<KeyValuePair>, key: int) {
    w.start <= LowerBound(items, key) <= UpperBound(items, key) <= EndOf(w, items) <= |items|
  }

  lemma {:induction false} WindowBrackets(c: Chain, key: int, w: Window)
    requires WellFormed(c) && RecordsGoTheWay(c, key) && Brackets(w, BaseItems(c, key), key)
    ensures Brackets(FinalWindow(c, key, w), BaseItems(c, key), key)
  {
    hide LowerBound, UpperBound, Brackets;
    match c {
      case Leaf(_, _, _) =>
      case Insert(item, indexPair, child) =>
        RecordBrackets(child, key, w, item);
        WindowBrackets(child, key, Narrow(w, key, item, indexPair));
      case Delete(item, indexPair, child) =>
        RecordBrackets(child, key, w, item);
        WindowBrackets(child, key, Narrow(w, key, item, indexPair));
      case Split(_, _, child) => WindowBrackets(child, key, w);
      case Merge(deleteItem, right, child) => WindowBrackets(if key >= deleteItem.first then right else child, key, w);
      case Remove(_, child) => WindowBrackets(child, key, w);
    }
  }

  lemma {:induction false} OneBase(c: Chain, other: int, key: int)
    requires SameWay(c, other, key)
    ensures BaseItems(c, other) == BaseItems(c, key)
  {
    if c.Merge? && key >= c.deleteItem.first {
      OneBase(c.right, other, key);
    } else if !c.Leaf? {
      OneBase(c.child, other, key);
    }
  }

  lemma RecordBrackets(child: Chain, key: int, w: Window, item: KeyValuePair)
    requires WellFormed(child) && SameWay(child, item.first, key) && InRange(child, item.first)
    requires Brackets(w, BaseItems(child, key), key)
    ensures Brackets(Narrow(w, key, item, Locate(child, item).indexPair), BaseItems(child, key), key)
  {
    var items := BaseItems(child, key);
    OneBase(child, item.first, key);
    BaseIsSorted(child, key);
    LocateIsExact(child, item);
    BaseLocateMeaning(items, item);
  }

  // The lookup is exact if each record above a merge record has its key on the same side of it as
  // the search key, although each record overwrites the window.
  lemma LeafReadIsExactOnItsWay(c: Chain, key: int)
    requires WellFormed(c) && InRange(c, key) && RecordsGoTheWay(c, key)
    ensures ReadsExactly(ReadFrom(c, key, WHOLE_ARRAY, [], []), c, key)
  {
    BaseIsSorted(c, key);
    WindowBrackets(c, key, WHOLE_ARRAY);
    WindowIsPlaces(c, key, WHOLE_ARRAY);
    LeafReadIsExactExactlyWhen(c, key);
  }

  // ---------- chains without merge records, or with none below a record on another key ----------

  predicate MergeFree(c: Chain) {
    match c
    case Leaf(_, _, _) => true
    case Insert(_, _, child) => MergeFree(child)
    case Delete(_, _, child) => MergeFree(child)
    case Split(_, _, child) => MergeFree(child)
    case Merge(_, _, _) => false
    case Remove(_, child) => MergeFree(child)
  }

  // No record on another key lies above a merge record on the way of the key, so that the window is
  // still the whole array when the lookup enters its last branch.
  predicate Unnarrowed(c: Chain, key: int) {
    match c
    case Leaf(_, _, _) => true
    case Insert(item, _, child) => if item.first == key then Unnarrowed(child, key) else MergeFree(child)
    case Delete(item, _, child) => if item.first == key then Unnarrowed(child, key) else MergeFree(child)
    case Split(_, _, child) => Unnarrowed(child, key)
    case Merge(deleteItem, right, child) => Unnarrowed(if key >= deleteItem.first then right else child, key)
    case Remove(_, child) => Unnarrowed(child, key)
  }

  lemma {:induction false} KeyGoesItsWay(c: Chain, other: int, key: int)
    requires other == key || MergeFree(c)
    ensures SameWay(c, other, key)
  {
    if c.Merge? && key >= c.deleteItem.first {
      KeyGoesItsWay(c.right, other, key);
    } else if !c.Leaf? {
      KeyGoesItsWay(c.child, other, key);
    }
  }

  lemma {:induction false} MergeFreeIsUnnarrowed(c: Chain, key: int)
    requires MergeFree(c)
    ensures Unnarrowed(c, key)
  {
    if !c.Leaf? { MergeFreeIsUnnarrowed(c.child, key); }
  }

  lemma {:induction false} UnnarrowedGoesTheWay(c: Chain, key: int)
    requires Unnarrowed(c, key)
    ensures RecordsGoTheWay(c, key)
    decreases c, 2
  {
    match c {
      case Leaf(_, _, _) =>
      case Insert(item, _, child) => RecordGoesTheWay(child, item.first, key);
      case Delete(item, _, child) => RecordGoesTheWay(child, item.first, key);
      case Split(_, _, child) => UnnarrowedGoesTheWay(child, key);
      case Merge(deleteItem, right, child) => UnnarrowedGoesTheWay(if key >= deleteItem.first then right else child, key);
      case Remove(_, child) => UnnarrowedGoesTheWay(child, key);
    }
  }

  lemma RecordGoesTheWay(child: Chain, other: int, key: int)
    requires if other == key then Unnarrowed(child, key) else MergeFree(child)
    ensures SameWay(child, other, key) && RecordsGoTheWay(child, key)
    decreases child, 3
  {
    KeyGoesItsWay(child, other, key);
    if other != key { MergeFreeIsUnnarrowed(child, key); }
    UnnarrowedGoesTheWay(child, key);
  }

  // Without merge records the lookup is exact, although each record overwrites the window.
  lemma LeafReadIsExact(c: Chain, key: int)
    requires WellFormed(c) && InRange(c, key) && MergeFree(c)
    ensures ReadsExactly(ReadFrom(c, key, WHOLE_ARRAY, [], []), c, key)
  {
    MergeFreeIsUnnarrowed(c, key);
    LeafReadIsExactWhenUnnarrowed(c, key);
  }

  lemma LeafReadIsExactWhenUnnarrowed(c: Chain, key: int)
    requires WellFormed(c) && InRange(c, key) && Unnarrowed(c, key)
    ensures ReadsExactly(ReadFrom(c, key, WHOLE_ARRAY, [], []), c, key)
  {
    UnnarrowedGoesTheWay(c, key);
    LeafReadIsExactOnItsWay(c, key);
  }

  // Otherwise it can miss values: here the position of 15 in the left array shuts out all of the
  // right one. LeafReadCounterexample shows how the tree gets to this chain.
  const LEFT := Leaf(Pair(0, INVALID_NODE_ID), Pair(20, 3), [Pair(10, 1)])
  const RIGHT := Leaf(Pair(20, 0xFFFF_FFFF_FFFF_FFFF), Pair(0, INVALID_NODE_ID), [Pair(20, 7)])
  const MERGED := Insert(Pair(15, 5), IndexPair(1, false), Merge(Pair(20, 3), RIGHT, LEFT))

  lemma LeafReadMissesBehindAMerge()
    ensures WellFormed(MERGED) && InRange(MERGED, 20) && Pair(20, 7) in Contents(MERGED)
    ensures ReadFrom(MERGED, 20, WHOLE_ARRAY, [], []) == Some([])
  {
    assert Locate(MERGED.child, Pair(15, 5)) == Existence(false, IndexPair(1, false)) by {
      assert LowerBound(LEFT.items, 15) == 1;
    }
    assert Pair(20, 7) in RIGHT.items;
    assert ReadFrom(RIGHT, 20, Window(1, -1), [], []) == Some([]) by {
      assert IsRange(Window(1, -1), RIGHT.items) && LowerBoundIn(RIGHT.items, 1, 1, 20) == 1;
      var none: seq<int> := [];
      assert ScanValues(RIGHT.items, 1, 20, none, none) == none && none + none == none;
    }
    assert ReadFrom(MERGED.child, 20, Window(1, -1), [], []) == Some([]);
  }
}
