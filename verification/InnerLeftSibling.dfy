// The search for the left sibling of a removed child: FindLeftSibling, bwtree.h:6521-6684. Two
// cursors walk down from the low key of the child, one through the base array and one through the
// records sorted from big to small, and the second separator they meet is the left sibling.
module InnerLeftSibling {
  import opened Options
  import opened Pairs
  import opened InnerChain
  import opened SortedSmallSets
  import opened ElasticNodes
  import InnerConsolidation

  function KeyOf(record: Chain): int {
    InnerConsolidation.KeyOf(record)
  }

  predicate Before(a: Chain, b: Chain) {
    KeyOf(b) < KeyOf(a)
  }

  predicate SameKey(a: Chain, b: Chain) {
    KeyOf(a) == KeyOf(b)
  }

  // Records, one a key, from big to small.
  ghost predicate Descending(deltas: seq<Chain>) {
    (forall d :: d in deltas ==> d.Insert? || d.Delete?) && StrictlySortedBy(Before, deltas)
  }

  ghost predicate Decides(deltas: seq<Chain>, key: int) {
    exists d :: d in deltas && KeyOf(d) == key
  }

  ghost predicate Inserts(deltas: seq<Chain>, x: KeyNodeIDPair) {
    exists d :: d in deltas && d.Insert? && d.item == x
  }

  ghost predicate Live(present: bool, deltas: seq<Chain>, x: KeyNodeIDPair) {
    if Decides(deltas, x.first) then Inserts(deltas, x) else present
  }

  // ---------- the two cursors ----------

  function Inserted(record: Chain): seq<KeyNodeIDPair> {
    if record.Insert? then [record.item] else []
  }

  // The separators met from position i of the array and the front of the window on.
  function WalkDown(items: seq<KeyNodeIDPair>, i: nat, deltas: seq<Chain>): seq<KeyNodeIDPair>
    requires i < |items|
    decreases i + |deltas|
  {
    if deltas == [] then if i == 0 then [] else [items[i]] + WalkDown(items, i - 1, [])
    else if i == 0 || KeyOf(deltas[0]) > items[i].first then Inserted(deltas[0]) + WalkDown(items, i, deltas[1..])
    else if KeyOf(deltas[0]) < items[i].first then [items[i]] + WalkDown(items, i - 1, deltas)
    else Inserted(deltas[0]) + WalkDown(items, i - 1, deltas[1..])
  }

  // The low key comes last; i == -1 means that it has been met.
  function Rest(items: seq<KeyNodeIDPair>, i: int, deltas: seq<Chain>): seq<KeyNodeIDPair>
    requires -1 <= i < |items|
  {
    if i == -1 then [] else WalkDown(items, i, deltas) + [items[0]]
  }

  lemma RestUnfolds(items: seq<KeyNodeIDPair>, i: nat, deltas: seq<Chain>)
    requires i < |items|
    ensures Rest(items, i, deltas) ==
      if deltas == [] then [items[i]] + Rest(items, i - 1, [])
      else if i == 0 || KeyOf(deltas[0]) > items[i].first then Inserted(deltas[0]) + Rest(items, i, deltas[1..])
      else if KeyOf(deltas[0]) < items[i].first then [items[i]] + Rest(items, i - 1, deltas)
      else Inserted(deltas[0]) + Rest(items, i - 1, deltas[1..])
  {
  }

  // One round of the loop: at most one separator is met.
  method WalkStep(items: seq<KeyNodeIDPair>, i: nat, sss: SortedSmallSet<Chain>, leftItem0: KeyNodeIDPair)
    returns (it: int, leftItem: KeyNodeIDPair, met: nat)
    requires i < |items| && sss.Valid()
    modifies sss`start
    ensures -1 <= it < |items| && sss.Valid() && met <= 1
    ensures it + 1 + (sss.end - sss.start) < i + 1 + (sss.end - old(sss.start))
    ensures it == -1 ==> sss.start == sss.end
    ensures met == 0 ==> leftItem == leftItem0
    ensures old(Rest(items, i, sss.Contents()))
         == (if met == 1 then [leftItem] else []) + Rest(items, it, sss.Contents())
  {
    hide Rest, WalkDown, KeyOf;
    RestUnfolds(items, i, sss.Contents());
    it, leftItem, met := i, leftItem0, 0;
    if sss.start == sss.end {
      leftItem := items[it];
      it := it - 1;
      met := 1;
      return;
    }
    assert sss.data[sss.start] == sss.Contents()[0];
    var front := sss.data[sss.start];
    if it != 0 && KeyOf(front) < items[it].first {
      leftItem := items[it];
      it := it - 1;
      met := 1;
      return;
    }
    if it != 0 && KeyOf(front) == items[it].first {
      it := it - 1;
    }
    if front.Insert? {
      leftItem := front.item;
      met := 1;
    }
    var _ := sss.PopFront();
  }

  // The loop at bwtree.h:6587-6651. None: it would read before the array.
  method SecondGreatest(items: seq<KeyNodeIDPair>, i: nat, sss: SortedSmallSet<Chain>)
    returns (r: Option<KeyNodeIDPair>)
    requires i < |items| && sss.Valid()
    modifies sss`start
    ensures var all := old(Rest(items, i, sss.Contents()));
            r == if |all| >= 2 then Some(all[1]) else None
  {
    hide Rest;
    ghost var all := Rest(items, i, sss.Contents());
    var leftItem := items[0];
    var counter := 0;
    var it: int := i;
    while counter < 2
      invariant 0 <= counter <= 2 && counter <= |all| && -1 <= it < |items| && sss.Valid()
      invariant it == -1 ==> sss.start == sss.end
      invariant Rest(items, it, sss.Contents()) == all[counter..]
      invariant counter > 0 ==> leftItem == all[counter - 1]
      decreases it + 1 + (sss.end - sss.start)
    {
      if it == -1 {
        assert Rest(items, it, sss.Contents()) == [] by { NothingLeft(items, sss.Contents()); }
        return None;
      }
      var met;
      it, leftItem, met := WalkStep(items, it, sss, leftItem);
      counter := counter + met;
    }
    return Some(leftItem);
  }

  lemma NothingLeft(items: seq<KeyNodeIDPair>, deltas: seq<Chain>)
    requires items != []
    ensures Rest(items, -1, deltas) == []
  {
  }

  // ---------- what the cursors meet ----------

  ghost predicate StrictlyDescending(s: seq<KeyNodeIDPair>) {
    forall i, j :: 0 <= i < j < |s| ==> s[j].first < s[i].first
  }

  lemma PrependGreater(x: KeyNodeIDPair, rest: seq<KeyNodeIDPair>)
    requires StrictlyDescending(rest) && forall y :: y in rest ==> y.first < x.first
    ensures StrictlyDescending([x] + rest)
  {
    forall i | 0 <= i < |rest| ensures rest[i].first < x.first { assert rest[i] in rest; }
  }

  lemma TailOf(deltas: seq<Chain>)
    requires Descending(deltas) && deltas != []
    ensures Descending(deltas[1..]) && (deltas[0].Insert? || deltas[0].Delete?)
    ensures forall k :: Decides(deltas, k) <==> k == KeyOf(deltas[0]) || Decides(deltas[1..], k)
    ensures forall x :: Inserts(deltas, x) <==> (deltas[0].Insert? && x == deltas[0].item) || Inserts(deltas[1..], x)
    ensures forall k :: Decides(deltas[1..], k) ==> k < KeyOf(deltas[0])
    ensures forall x :: Inserts(deltas[1..], x) ==> Decides(deltas[1..], x.first)
  {
    var rest := deltas[1..];
    assert forall d :: d in deltas <==> d == deltas[0] || d in rest;
    forall d | d in rest ensures Before(deltas[0], d) {
      var i :| 0 <= i < |rest| && rest[i] == d;
      assert deltas[i + 1] == d;
    }
  }

  // The sequence holds what the records leave of the base items, from big to small.
  ghost predicate Meets(r: seq<KeyNodeIDPair>, base: set<KeyNodeIDPair>, deltas: seq<Chain>) {
    StrictlyDescending(r) && forall x :: x in r <==> Live(x in base, deltas, x)
  }

  ghost predicate AllBelow(base: set<KeyNodeIDPair>, key: int) {
    forall x :: x in base ==> x.first < key
  }

  // A record is met above everything else.
  lemma RecordFirst(base: set<KeyNodeIDPair>, deltas: seq<Chain>, rest: seq<KeyNodeIDPair>)
    requires Descending(deltas) && deltas != []
    requires AllBelow(base, KeyOf(deltas[0]))
    requires Meets(rest, base, deltas[1..])
    ensures Meets(Inserted(deltas[0]) + rest, base, deltas)
  {
    var d := deltas[0];
    TailOf(deltas);
    hide Descending, Decides, Inserts;
    forall y | y in rest ensures y.first < KeyOf(d) {
      assert Live(y in base, deltas[1..], y);
    }
    if d.Insert? { PrependGreater(d.item, rest); }
  }

  // An array item is met above everything else.
  lemma ItemFirst(item: KeyNodeIDPair, base: set<KeyNodeIDPair>, deltas: seq<Chain>, rest: seq<KeyNodeIDPair>)
    requires Descending(deltas) && (deltas != [] ==> KeyOf(deltas[0]) < item.first)
    requires AllBelow(base, item.first)
    requires Meets(rest, base, deltas)
    ensures Meets([item] + rest, base + {item}, deltas)
  {
    if deltas != [] { TailOf(deltas); }
    assert forall k :: Decides(deltas, k) ==> k < item.first;
    assert forall x :: Inserts(deltas, x) ==> Decides(deltas, x.first);
    hide Decides, Inserts, Descending;
    forall y | y in rest ensures y.first < item.first {
      assert Live(y in base, deltas, y);
    }
    PrependGreater(item, rest);
  }

  // A record on the key of an array item overrides it.
  lemma ItemOverridden(item: KeyNodeIDPair, base: set<KeyNodeIDPair>, deltas: seq<Chain>, r: seq<KeyNodeIDPair>)
    requires deltas != [] && KeyOf(deltas[0]) == item.first && Meets(r, base, deltas)
    ensures Meets(r, base + {item}, deltas)
  {
    assert Decides(deltas, item.first);
  }

  ghost predicate SortedTail(items: seq<KeyNodeIDPair>) {
    forall a, b :: 1 <= a < b < |items| ==> items[a].first < items[b].first
  }

  lemma BelowItem(items: seq<KeyNodeIDPair>, i: nat)
    requires 1 <= i < |items| && SortedTail(items)
    ensures AllBelow(FirstSeps(items, i), items[i].first)
    ensures FirstSeps(items, i + 1) == FirstSeps(items, i) + {items[i]}
  {
  }

  lemma UpToItem(items: seq<KeyNodeIDPair>, i: nat, key: int)
    requires i < |items| && SortedTail(items) && (i == 0 || items[i].first < key)
    ensures AllBelow(FirstSeps(items, i + 1), key)
  {
  }

  lemma TailDescends(deltas: seq<Chain>)
    requires Descending(deltas) && deltas != []
    ensures Descending(deltas[1..])
  {
  }

  lemma {:induction false} WalkDownMeaning(items: seq<KeyNodeIDPair>, i: nat, deltas: seq<Chain>)
    requires i < |items| && SortedTail(items) && Descending(deltas)
    ensures Meets(WalkDown(items, i, deltas), FirstSeps(items, i + 1), deltas)
    decreases i + |deltas|
  {
    hide Descending, FirstSeps, SortedTail, Meets, AllBelow, Inserted, WalkDown;
    WalkDownUnfolds(items, i, deltas);
    if deltas != [] && (i == 0 || KeyOf(deltas[0]) >= items[i].first) {
      var key := KeyOf(deltas[0]);
      var i' := if i > 0 && key == items[i].first then i - 1 else i;
      TailDescends(deltas);
      if i' != i { BelowItem(items, i); } else { UpToItem(items, i, key); }
      WalkDownMeaning(items, i', deltas[1..]);
      RecordFirst(FirstSeps(items, i' + 1), deltas, WalkDown(items, i', deltas[1..]));
      if i' != i {
        ItemOverridden(items[i], FirstSeps(items, i), deltas, WalkDown(items, i, deltas));
      }
    } else if i > 0 {
      BelowItem(items, i);
      WalkDownMeaning(items, i - 1, deltas);
      ItemFirst(items[i], FirstSeps(items, i), deltas, WalkDown(items, i - 1, deltas));
    } else {
      NoSeparators(items);
    }
  }

  lemma WalkDownUnfolds(items: seq<KeyNodeIDPair>, i: nat, deltas: seq<Chain>)
    requires i < |items|
    ensures WalkDown(items, i, deltas) ==
      if deltas != [] && (i == 0 || KeyOf(deltas[0]) >= items[i].first) then
        Inserted(deltas[0]) + WalkDown(items, if i > 0 && KeyOf(deltas[0]) == items[i].first then i - 1 else i, deltas[1..])
      else if i > 0 then [items[i]] + WalkDown(items, i - 1, deltas)
      else []
  {
  }

  lemma NoSeparators(items: seq<KeyNodeIDPair>)
    requires items != []
    ensures FirstSeps(items, 1) == {} && Meets([], {}, [])
  {
  }

  // ---------- gathering the records up to the search key ----------

  // On keys up to the search key, the gathered records on top of `node` mean what the chain means.
  ghost predicate Gathered(c: Chain, node: Chain, key: int, deltas: seq<Chain>) {
    && Descending(deltas) && (forall d :: d in deltas ==> KeyOf(d) <= key)
    && forall x: KeyNodeIDPair :: x.first <= key ==> (x in Seps(c) <==> Live(x in Seps(node), deltas, x))
  }

  function Gather(deltas: seq<Chain>, record: Chain): seq<Chain> {
    InsertDedup(Before, SameKey, deltas, record)
  }

  lemma GatherMembers(deltas: seq<Chain>, record: Chain)
    requires Descending(deltas) && (record.Insert? || record.Delete?)
    ensures Descending(Gather(deltas, record))
    ensures forall d :: d in Gather(deltas, record) <==>
              d in deltas || (d == record && !Decides(deltas, KeyOf(record)))
  {
    var r := Gather(deltas, record);
    InsertDedupKeepsOrder(Before, SameKey, deltas, record);
    hide InsertDedup, StrictOrder, StrictlySortedBy;
    if Decides(deltas, KeyOf(record)) {
      var d :| d in deltas && KeyOf(d) == KeyOf(record);
      assert exists i :: 0 <= i < |deltas| && SameKey(deltas[i], record);
    } else {
      forall i | 0 <= i < |deltas| ensures !SameKey(deltas[i], record) {
        assert deltas[i] in deltas;
      }
      OneMore(deltas, record, r);
    }
  }

  lemma OneMore(deltas: seq<Chain>, record: Chain, r: seq<Chain>)
    requires multiset(r) == multiset(deltas) + multiset{record}
    ensures forall d :: d in r <==> d in deltas || d == record
  {
    forall d ensures d in r <==> d in deltas || d == record {
      assert d in r <==> multiset(r)[d] > 0;
      assert d in deltas <==> multiset(deltas)[d] > 0;
    }
  }

  lemma PassRecord(c: Chain, node: Chain, bounded: bool, key: int, deltas: seq<Chain>)
    requires WellFormed(node, bounded) && (node.Insert? || node.Delete?) && Gathered(c, node, key, deltas)
    ensures node.item.first <= key ==> Gathered(c, node.child, key, Gather(deltas, node))
    ensures node.item.first > key ==> Gathered(c, node.child, key, deltas)
  {
    hide Descending, WellFormed, Gather, Live, Seps, Decides;
    if node.item.first <= key {
      GatherMembers(deltas, node);
      forall x: KeyNodeIDPair | x.first <= key
        ensures x in Seps(c) <==> Live(x in Seps(node.child), Gather(deltas, node), x)
      {
        GatherKeepsMeaning(node, bounded, deltas, x);
      }
    } else {
      forall x: KeyNodeIDPair | x.first <= key ensures x in Seps(node) <==> x in Seps(node.child) {
        OtherKeys(node, x);
      }
    }
  }

  lemma OtherKeys(node: Chain, x: KeyNodeIDPair)
    requires (node.Insert? || node.Delete?) && x.first != node.item.first
    ensures x in Seps(node) <==> x in Seps(node.child)
  {
  }

  lemma GatherKeepsMeaning(node: Chain, bounded: bool, deltas: seq<Chain>, x: KeyNodeIDPair)
    requires WellFormed(node, bounded) && (node.Insert? || node.Delete?) && Descending(deltas)
    ensures Live(x in Seps(node), deltas, x) <==> Live(x in Seps(node.child), Gather(deltas, node), x)
  {
    FindInChild(node, bounded);
    hide Descending, WellFormed, Gather, Decides, Inserts;
    GatherMembers(deltas, node);
    GatherDecides(deltas, node, Gather(deltas, node), x);
    InsertsDecides(deltas, x);
    if x.first != node.item.first { OtherKeys(node, x); }
  }

  lemma InsertsDecides(deltas: seq<Chain>, x: KeyNodeIDPair)
    requires forall d :: d in deltas ==> d.Insert? || d.Delete?
    ensures Inserts(deltas, x) ==> Decides(deltas, x.first)
  {
  }

  lemma GatherDecides(deltas: seq<Chain>, record: Chain, deltas': seq<Chain>, x: KeyNodeIDPair)
    requires forall d :: d in deltas' <==> d in deltas || (d == record && !Decides(deltas, KeyOf(record)))
    requires record.Insert? || record.Delete?
    ensures Decides(deltas', x.first) <==> Decides(deltas, x.first) || x.first == record.item.first
    ensures Inserts(deltas', x) <==>
              Inserts(deltas, x) || (record.Insert? && x == record.item && !Decides(deltas, x.first))
  {
    if Decides(deltas, x.first) {
      var d :| d in deltas && KeyOf(d) == x.first;
      assert d in deltas';
    }
    if !Decides(deltas, KeyOf(record)) { assert record in deltas'; }
    if Inserts(deltas, x) {
      var d :| d in deltas && d.Insert? && d.item == x;
      assert d in deltas';
    }
    if Inserts(deltas', x) {
      var d :| d in deltas' && d.Insert? && d.item == x;
      assert d in deltas ==> Inserts(deltas, x);
    }
    if Decides(deltas', x.first) {
      var d :| d in deltas' && KeyOf(d) == x.first;
      assert d in deltas ==> Decides(deltas, x.first);
    }
  }

  // ---------- the result ----------

  // The second-greatest separator <= key, where the low key counts as the least separator.
  ghost predicate IsLeftSibling(seps: set<KeyNodeIDPair>, lowId: NodeID, key: int, id: NodeID) {
    exists x :: x in seps && x.first <= key && (forall y :: y in seps && y.first <= key ==> y.first <= x.first)
      && IsFloor(seps, lowId, x.first - 1, id)
  }

  ghost predicate HasSeparator(seps: set<KeyNodeIDPair>, key: int) {
    exists x :: x in seps && x.first <= key
  }

  // r lists the separators up to the key from big to small.
  lemma SecondIsLeft(seps: set<KeyNodeIDPair>, low: KeyNodeIDPair, key: int, r: seq<KeyNodeIDPair>)
    requires StrictlyDescending(r) && forall x :: x in r <==> x in seps && x.first <= key
    ensures r == [] <==> !HasSeparator(seps, key)
    ensures r != [] ==> IsLeftSibling(seps, low.second, key, (r + [low])[1].second)
  {
    if r != [] {
      var x, id := r[0], (r + [low])[1].second;
      assert x in r;
      forall y | y in seps && y.first <= key ensures y.first <= x.first {
        assert y in r;
      }
      assert IsFloor(seps, low.second, x.first - 1, id) by {
        if |r| > 1 {
          assert r[1] in r;
          forall y | y in seps && y.first <= x.first - 1 ensures y.first <= r[1].first {
            assert y in r;
          }
        }
      }
    } else {
      forall x | x in seps ensures x.first > key { assert x !in r; }
    }
  }

  lemma GatheredDescends(c: Chain, node: Chain, key: int, deltas: seq<Chain>)
    requires Gathered(c, node, key, deltas)
    ensures Descending(deltas)
  {
  }

  lemma BaseMeets(c: Chain, node: Chain, bounded: bool, key: int, deltas: seq<Chain>)
    requires WellFormed(node, bounded) && node.Inner? && Gathered(c, node, key, deltas)
    ensures |node.items| > 0 && node.items[0] == node.low
    ensures var r := WalkDown(node.items, UpperBoundIn(node.items, 1, |node.items|, key) - 1, deltas);
            StrictlyDescending(r) && forall x :: x in r <==> x in Seps(c) && x.first <= key
  {
    hide WalkDown, UpperBoundIn, FirstSeps, Gathered, Live, Meets, Seps, StrictlyDescending;
    var items := node.items;
    var i := UpperBoundIn(items, 1, |items|, key) - 1;
    assert Descending(deltas) by { GatheredDescends(c, node, key, deltas); }
    WalkDownMeaning(items, i, deltas);
    UpToKey(node, bounded, key);
    MeetsUpToKey(c, node, key, deltas, FirstSeps(items, i + 1), WalkDown(items, i, deltas));
  }

  lemma MeetsUpToKey(c: Chain, node: Chain, key: int, deltas: seq<Chain>, base: set<KeyNodeIDPair>,
                     r: seq<KeyNodeIDPair>)
    requires Gathered(c, node, key, deltas) && Meets(r, base, deltas)
    requires forall x :: x in base <==> x in Seps(node) && x.first <= key
    ensures StrictlyDescending(r) && forall x :: x in r <==> x in Seps(c) && x.first <= key
  {
    hide Seps, Descending, Decides, Inserts, StrictlyDescending;
    forall x ensures x in r <==> x in Seps(c) && x.first <= key {
      assert x in r <==> Live(x in base, deltas, x);
      BeyondKey(deltas, key, x);
    }
  }

  lemma BeyondKey(deltas: seq<Chain>, key: int, x: KeyNodeIDPair)
    requires forall d :: d in deltas ==> KeyOf(d) <= key
    ensures x.first > key ==> !Decides(deltas, x.first)
  {
  }

  lemma UpToKey(node: Chain, bounded: bool, key: int)
    requires WellFormed(node, bounded) && node.Inner?
    ensures forall x :: x in FirstSeps(node.items, UpperBoundIn(node.items, 1, |node.items|, key))
                   <==> x in Seps(node) && x.first <= key
  {
    var items := node.items;
    var at := UpperBoundIn(items, 1, |items|, key);
    hide UpperBoundIn;
    forall x | x in Seps(node) && x.first <= key ensures x in FirstSeps(items, at) {
      var i :| 1 <= i < |items| && items[i] == x;
      assert i < at;
    }
  }

  // bwtree.h:6521-6684. The search is exact; it never reads before the base array exactly when some
  // separator is <= the search key, that is, when the child is not the leftmost one. A chain with a
  // merge record is consolidated first.
  method FindLeftSibling(c: Chain, searchKey: int, ghost bounded: bool) returns (r: Option<NodeID>)
    requires WellFormed(c, bounded) && BelowHigh(c.High(), searchKey)
    ensures r.Some? <==> HasSeparator(Seps(c), searchKey)
    ensures r.Some? ==> IsLeftSibling(Seps(c), c.Low().second, searchKey, r.value)
  {
    hide WellFormed, Gathered, InsertDedup, UpperBoundIn, WalkDown, Seps, HasSeparator, IsLeftSibling;
    var list := new Chain[c.Depth()];
    var sss := new SortedSmallSet<Chain>(list, Before, SameKey);
    var node := c;
    StartGathering(c, searchKey, sss.Contents());
    while !node.Inner?
      invariant fresh(sss) && sss.Valid() && sss.data == list && sss.less == Before && sss.eq == SameKey
      invariant sss.start == 0 && (!node.Inner? ==> sss.end + node.Depth() <= list.Length)
      invariant WellFormed(node, bounded) && node.Low() == c.Low()
      invariant node.High() == c.High() || node.Inner?
      invariant Gathered(c, node, searchKey, sss.Contents())
      decreases !node.Inner?, node
    {
      InnerConsolidation.ChildIsOk(node, bounded);
      match node {
        case Inner(_, _, _, _) =>
        case Insert(item, _, _, child) =>
          PassRecord(c, node, bounded, searchKey, sss.Contents());
          if item.first <= searchKey {
            sss.Insert(node);
          }
          node := child;
        case Delete(item, _, _, _, child) =>
          PassRecord(c, node, bounded, searchKey, sss.Contents());
          if item.first <= searchKey {
            sss.Insert(node);
          }
          node := child;
        case Split(_, _, child) =>
          PassSplit(c, node, searchKey, sss.Contents());
          node := child;
        case Merge(_, _, _) =>
          var inner := InnerConsolidation.CollectAllSepsOnInner(c, bounded);
          var items := inner.data[..inner.end];
          InnerConsolidation.ConsolidatedChain(c, bounded, items, c.Depth() + 1);
          node := Inner(c.Low(), c.High(), items, c.Depth() + 1);
          sss.Invalidate();
          StartGathering(c, searchKey, sss.Contents());
          SameMeaning(c, c, node, searchKey, sss.Contents());
      }
    }
    var items := node.items;
    BaseMeets(c, node, bounded, searchKey, sss.Contents());
    var it := UpperBoundIn(items, 1, |items|, searchKey) - 1;
    SecondIsLeft(Seps(c), c.Low(), searchKey, WalkDown(items, it, sss.Contents()));
    var leftItem := SecondGreatest(items, it, sss);
    return if leftItem.Some? then Some(leftItem.value.second) else None;
  }

  lemma StartGathering(c: Chain, key: int, deltas: seq<Chain>)
    requires deltas == []
    ensures Gathered(c, c, key, deltas)
  {
  }

  lemma SameMeaning(c: Chain, node: Chain, node': Chain, key: int, deltas: seq<Chain>)
    requires Gathered(c, node, key, deltas) && Seps(node) == Seps(node')
    ensures Gathered(c, node', key, deltas)
  {
  }

  lemma PassSplit(c: Chain, node: Chain, key: int, deltas: seq<Chain>)
    requires Gathered(c, node, key, deltas) && node.Split? && BelowHigh(node.High(), key)
    requires node.insertItem.second != INVALID_NODE_ID
    ensures Gathered(c, node.child, key, deltas)
  {
  }
}
