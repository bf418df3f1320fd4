// Inner consolidation: CollectAllSepsOnInner and its recursive core, bwtree.h:3597-3882.
module InnerConsolidation {
  import opened Pairs
  import opened InnerChain
  import opened SortedSmallSets
  import opened ElasticNodes

  // The window holds insert and delete records, ordered by key, one record a key.
  ghost predicate AreDeltas(deltas: seq<Chain>) {
    && (forall i :: 0 <= i < |deltas| ==> deltas[i].Insert? || deltas[i].Delete?)
    && (forall i, j :: 0 <= i < j < |deltas| ==> deltas[i].item.first < deltas[j].item.first)
  }

  function KeyOf(record: Chain): int {
    if record.Insert? || record.Delete? then record.item.first else 0
  }

  predicate KeyLess(a: Chain, b: Chain) {
    KeyOf(a) < KeyOf(b)
  }

  predicate KeyEqual(a: Chain, b: Chain) {
    KeyOf(a) == KeyOf(b)
  }

  ghost predicate Decides(deltas: seq<Chain>, key: int)
    requires AreDeltas(deltas)
  {
    exists i :: 0 <= i < |deltas| && deltas[i].item.first == key
  }

  ghost predicate Inserts(deltas: seq<Chain>, x: KeyNodeIDPair)
    requires AreDeltas(deltas)
  {
    exists i :: 0 <= i < |deltas| && deltas[i].Insert? && deltas[i].item == x
  }

  // The topmost record of a key wins over what is below.
  ghost predicate Live(present: bool, deltas: seq<Chain>, x: KeyNodeIDPair)
    requires AreDeltas(deltas)
  {
    if Decides(deltas, x.first) then Inserts(deltas, x) else present
  }

  // ---------- merging the window into the array ----------

  function Inserted(record: Chain): (r: seq<KeyNodeIDPair>) {
    if record.Insert? then [record.item] else []
  }

  // The merge loop: what it pushes from a position of the array and of the window on.
  function MergeByKey(items: seq<KeyNodeIDPair>, deltas: seq<Chain>): seq<KeyNodeIDPair>
    decreases |items| + |deltas|
  {
    if deltas == [] then items
    else if items == [] || KeyOf(deltas[0]) < items[0].first then
      Inserted(deltas[0]) + MergeByKey(items, deltas[1..])
    else if items[0].first < KeyOf(deltas[0]) then [items[0]] + MergeByKey(items[1..], deltas)
    else Inserted(deltas[0]) + MergeByKey(items[1..], deltas[1..])
  }

  // Nothing in the rest is below the key.
  ghost predicate AllAbove(items: seq<KeyNodeIDPair>, deltas: seq<Chain>, key: int)
    requires AreDeltas(deltas)
  {
    && (forall i :: 0 <= i < |items| ==> key < items[i].first)
    && (forall i :: 0 <= i < |deltas| ==> key < deltas[i].item.first)
  }

  lemma Concat(a: seq<Chain>, b: seq<Chain>)
    requires AreDeltas(a + b)
    ensures AreDeltas(a) && AreDeltas(b)
    ensures forall key :: Decides(a + b, key) <==> Decides(a, key) || Decides(b, key)
    ensures forall x :: Inserts(a + b, x) <==> Inserts(a, x) || Inserts(b, x)
  {
    var all := a + b;
    assert forall i :: 0 <= i < |a| ==> a[i] == all[i];
    assert forall i :: 0 <= i < |b| ==> b[i] == all[|a| + i];
    assert forall i :: |a| <= i < |all| ==> all[i] == b[i - |a|];
  }

  lemma Join(a: seq<Chain>, b: seq<Chain>)
    requires AreDeltas(a) && AreDeltas(b)
    requires a != [] && b != [] ==> a[|a| - 1].item.first < b[0].item.first
    ensures AreDeltas(a + b)
  {
    var all := a + b;
    forall i, j | 0 <= i < j < |all| ensures all[i].item.first < all[j].item.first {
      if i < |a| <= j {
        assert all[i].item.first <= a[|a| - 1].item.first;
        assert b[0].item.first <= all[j].item.first;
      }
    }
  }

  lemma Single(record: Chain)
    requires record.Insert? || record.Delete?
    ensures AreDeltas([record])
    ensures forall key :: Decides([record], key) <==> key == record.item.first
    ensures forall x :: Inserts([record], x) <==> record.Insert? && x == record.item
  {
    assert [record][0] == record;
  }

  lemma TailOf(deltas: seq<Chain>)
    requires AreDeltas(deltas) && deltas != []
    ensures AreDeltas(deltas[1..])
    ensures forall key :: Decides(deltas, key) <==> key == deltas[0].item.first || Decides(deltas[1..], key)
    ensures forall x :: Inserts(deltas, x) <==> (deltas[0].Insert? && x == deltas[0].item) || Inserts(deltas[1..], x)
    ensures AllAbove([], deltas[1..], deltas[0].item.first)
  {
    assert deltas == [deltas[0]] + deltas[1..];
    Single(deltas[0]);
    Concat([deltas[0]], deltas[1..]);
  }

  lemma Prepend(x: KeyNodeIDPair, rest: seq<KeyNodeIDPair>)
    requires StrictlySorted(rest) && forall y :: y in rest ==> x.first < y.first
    ensures StrictlySorted([x] + rest)
  {
    forall i | 0 <= i < |rest| ensures x.first < rest[i].first { assert rest[i] in rest; }
  }

  // Merging by key applies the records to the array.
  lemma {:induction false} MergeByKeyMeaning(items: seq<KeyNodeIDPair>, deltas: seq<Chain>)
    requires AreDeltas(deltas) && StrictlySorted(items)
    ensures var r := MergeByKey(items, deltas);
            && StrictlySorted(r)
            && forall x :: x in r <==> Live(x in items, deltas, x)
    decreases |items| + |deltas|
  {
    if deltas != [] {
      var d := deltas[0];
      TailOf(deltas);
      hide AreDeltas, Decides, Inserts;
      if items == [] || d.item.first < items[0].first {
        MergeByKeyMeaning(items, deltas[1..]);
        KeepsOrder(items, deltas[1..], d);
      } else {
        assert items == [items[0]] + items[1..];
        if items[0].first < d.item.first {
          MergeByKeyMeaning(items[1..], deltas);
          FirstItem(items, deltas);
        } else {
          MergeByKeyMeaning(items[1..], deltas[1..]);
          KeepsOrder(items[1..], deltas[1..], d);
        }
      }
    }
  }

  // What is pushed for a record comes before the rest.
  lemma KeepsOrder(items: seq<KeyNodeIDPair>, deltas: seq<Chain>, d: Chain)
    requires AreDeltas(deltas) && AllAbove(items, deltas, KeyOf(d))
    requires StrictlySorted(MergeByKey(items, deltas))
    requires forall x :: x in MergeByKey(items, deltas) <==> Live(x in items, deltas, x)
    requires d.Insert? || d.Delete?
    ensures StrictlySorted(Inserted(d) + MergeByKey(items, deltas))
    ensures forall x :: x in Inserted(d) + MergeByKey(items, deltas)
                   <==> (d.Insert? && x == d.item) || Live(x in items, deltas, x)
    ensures !Decides(deltas, d.item.first) && forall x :: x in items ==> x.first != d.item.first
  {
    var rest := MergeByKey(items, deltas);
    forall y | y in rest ensures KeyOf(d) < y.first {
      if Decides(deltas, y.first) {
        var i :| 0 <= i < |deltas| && deltas[i].Insert? && deltas[i].item == y;
      }
    }
    if d.Insert? { Prepend(d.item, rest); }
  }

  lemma FirstItem(items: seq<KeyNodeIDPair>, deltas: seq<Chain>)
    requires AreDeltas(deltas) && deltas != [] && items != [] && StrictlySorted(items)
    requires items[0].first < deltas[0].item.first
    requires StrictlySorted(MergeByKey(items[1..], deltas))
    requires forall x :: x in MergeByKey(items[1..], deltas) <==> Live(x in items[1..], deltas, x)
    ensures StrictlySorted([items[0]] + MergeByKey(items[1..], deltas))
    ensures forall x :: x in [items[0]] + MergeByKey(items[1..], deltas) <==> Live(x in items, deltas, x)
  {
    var rest := MergeByKey(items[1..], deltas);
    forall y | y in rest ensures items[0].first < y.first {
      if Decides(deltas, y.first) {
        var i :| 0 <= i < |deltas| && deltas[i].Insert? && deltas[i].item == y;
      } else {
        var i :| 0 <= i < |items| - 1 && items[1..][i] == y;
        assert items[i + 1] == y;
      }
    }
    Prepend(items[0], rest);
    assert items == [items[0]] + items[1..];
    assert !Decides(deltas, items[0].first);
  }

  // ---------- the loops over one base array ----------

  // The number of leading records below the high key.
  function CountBelow(high: KeyNodeIDPair, deltas: seq<Chain>): (k: nat)
    ensures k <= |deltas|
    ensures forall i :: 0 <= i < k ==> BelowHigh(high, KeyOf(deltas[i]))
    ensures k < |deltas| ==> !BelowHigh(high, KeyOf(deltas[k]))
  {
    if deltas == [] || !BelowHigh(high, KeyOf(deltas[0])) then 0 else 1 + CountBelow(high, deltas[1..])
  }

  lemma CountBelowDivides(high: KeyNodeIDPair, deltas: seq<Chain>, i: nat)
    requires AreDeltas(deltas) && i < |deltas|
    ensures BelowHigh(high, KeyOf(deltas[i])) <==> i < CountBelow(high, deltas)
  {
    var k := CountBelow(high, deltas);
    if k < i {
      assert deltas[k].item.first < deltas[i].item.first;
    }
  }

  // The objects a consolidation works on do not share memory.
  ghost predicate Separate(sss: SortedSmallSet<Chain>, out: ElasticNode<KeyNodeIDPair>) {
    sss as object != out && sss.data as object != out.data
  }

  method FindWindowEnd(high: KeyNodeIDPair, sss: SortedSmallSet<Chain>) returns (sssEnd: nat)
    requires sss.Valid() && AreDeltas(sss.Contents())
    ensures sssEnd == sss.start + CountBelow(high, sss.Contents())
  {
    hide AreDeltas;
    ghost var deltas := sss.Contents();
    sssEnd := sss.end;
    if high.second != INVALID_NODE_ID {
      while sssEnd > sss.start
        invariant sss.start + CountBelow(high, deltas) <= sssEnd <= sss.end
      {
        assert sss.data[sssEnd - 1] == deltas[sssEnd - 1 - sss.start];
        CountBelowDivides(high, deltas, sssEnd - 1 - sss.start);
        if KeyOf(sss.data[sssEnd - 1]) < high.first {
          break;
        }
        sssEnd := sssEnd - 1;
      }
    }
  }

  // Pop one record, and push its item if it is an insert.
  method PushRecord(sss: SortedSmallSet<Chain>, out: ElasticNode<KeyNodeIDPair>)
    requires sss.Valid() && out.Valid() && Separate(sss, out) && sss.start < sss.end
    requires out.end + |Inserted(sss.Contents()[0])| <= out.data.Length
    modifies sss`start, out, out.data
    ensures sss.Valid() && out.Valid() && sss.start == old(sss.start) + 1
    ensures sss.Contents() == old(sss.Contents())[1..]
    ensures out.Contents() == old(out.Contents()) + Inserted(old(sss.Contents())[0])
  {
    var record := sss.PopFront();
    if record.Insert? {
      out.PushBack(record.item);
    } else {
      assert out.Contents() + [] == out.Contents();
    }
  }

  // What the merge loop has still to push.
  ghost function Pending(items: seq<KeyNodeIDPair>, c: nat, e: nat, sss: SortedSmallSet<Chain>, sssEnd: nat):
    seq<KeyNodeIDPair>
    requires sss.Valid() && c <= e <= |items| && sss.start <= sssEnd <= sss.end
    reads sss, sss.data
  {
    MergeByKey(items[c..e], sss.Contents()[..sssEnd - sss.start])
  }

  lemma Popped(deltas: seq<Chain>, m: nat)
    requires 0 < m <= |deltas|
    ensures deltas[..m] != [] && deltas[..m][0] == deltas[0] && deltas[..m][1..] == deltas[1..][..m - 1]
  {
  }

  // One round of the merge loop.
  lemma MergeStep(done: seq<KeyNodeIDPair>, items: seq<KeyNodeIDPair>, c: nat, e: nat, deltas: seq<Chain>, m: nat)
    requires c < e <= |items| && 0 < m <= |deltas|
    ensures var all := done + MergeByKey(items[c..e], deltas[..m]);
            var key := KeyOf(deltas[0]);
            if items[c].first < key then all == done + [items[c]] + MergeByKey(items[c + 1..e], deltas[..m])
            else var c' := if key < items[c].first then c else c + 1;
                 all == done + Inserted(deltas[0]) + MergeByKey(items[c'..e], deltas[1..][..m - 1])
  {
    Popped(deltas, m);
    assert items[c..e][1..] == items[c + 1..e];
    var x := items[c];
    if x.first < KeyOf(deltas[0]) {
      Associate(done, [x], MergeByKey(items[c + 1..e], deltas[..m]));
    } else {
      var c' := if KeyOf(deltas[0]) < x.first then c else c + 1;
      Associate(done, Inserted(deltas[0]), MergeByKey(items[c'..e], deltas[1..][..m - 1]));
    }
  }

  lemma Associate<T>(a: seq<T>, b: seq<T>, c: seq<T>)
    ensures a + (b + c) == a + b + c
  {
  }

  // The smaller leading element is pushed; a record overrides an equal array item.
  method MergeRound(items: seq<KeyNodeIDPair>, c: nat, copyEnd: nat, sss: SortedSmallSet<Chain>, sssEnd: nat,
                    out: ElasticNode<KeyNodeIDPair>)
    returns (copyStart: nat)
    requires c < copyEnd <= |items|
    requires sss.Valid() && out.Valid() && Separate(sss, out) && sss.start < sssEnd <= sss.end
    requires out.end + |Pending(items, c, copyEnd, sss, sssEnd)| <= out.data.Length
    modifies sss`start, out, out.data
    ensures c <= copyStart <= copyEnd && old(sss.start) <= sss.start <= sssEnd
    ensures copyStart + sss.start > c + old(sss.start)
    ensures sss.Valid() && out.Valid()
    ensures sss.Contents() == old(sss.Contents())[sss.start - old(sss.start)..]
    ensures out.Contents() + Pending(items, copyStart, copyEnd, sss, sssEnd)
         == old(out.Contents()) + old(Pending(items, c, copyEnd, sss, sssEnd))
  {
    hide MergeByKey, Inserted;
    MergeStep(out.Contents(), items, c, copyEnd, sss.Contents(), sssEnd - sss.start);
    assert sss.data[sss.start] == sss.Contents()[0];
    copyStart := c;
    var key := KeyOf(sss.data[sss.start]);
    if items[copyStart].first < key {
      out.PushBack(items[copyStart]);
      copyStart := copyStart + 1;
    } else {
      PushRecord(sss, out);
      if !(key < items[copyStart].first) {
        copyStart := copyStart + 1;
      }
    }
  }

  // bwtree.h:3717-3797
  method MergeLoop(items: seq<KeyNodeIDPair>, start: nat, copyEnd: nat, sss: SortedSmallSet<Chain>, sssEnd: nat,
                   out: ElasticNode<KeyNodeIDPair>)
    requires start <= copyEnd <= |items|
    requires sss.Valid() && out.Valid() && Separate(sss, out) && sss.start <= sssEnd <= sss.end
    requires out.end + |Pending(items, start, copyEnd, sss, sssEnd)| <= out.data.Length
    modifies sss`start, out, out.data
    ensures sss.Valid() && out.Valid() && sss.start == sssEnd
    ensures sss.Contents() == old(sss.Contents())[sssEnd - old(sss.start)..]
    ensures out.Contents() == old(out.Contents()) + old(Pending(items, start, copyEnd, sss, sssEnd))
  {
    hide MergeByKey, Inserted, Pending;
    var copyStart := start;
    ghost var all := out.Contents() + Pending(items, start, copyEnd, sss, sssEnd);
    while sss.start != sssEnd && copyStart != copyEnd
      invariant start <= copyStart <= copyEnd && old(sss.start) <= sss.start <= sssEnd <= sss.end
      invariant sss.Valid() && out.Valid()
      invariant sss.Contents() == old(sss.Contents())[sss.start - old(sss.start)..]
      invariant out.Contents() + Pending(items, copyStart, copyEnd, sss, sssEnd) == all
      decreases copyEnd - copyStart + (sssEnd - sss.start)
    {
      copyStart := MergeRound(items, copyStart, copyEnd, sss, sssEnd, out);
    }
    if sss.start == sssEnd {
      WindowDrained(items, copyStart, copyEnd, sss, sssEnd);
      out.PushBackRange(items, copyStart, copyEnd);
    } else {
      ArrayDrained(items, copyEnd, sss, sssEnd);
      DrainWindow(sss, sssEnd, out);
    }
  }

  lemma WindowDrained(items: seq<KeyNodeIDPair>, c: nat, e: nat, sss: SortedSmallSet<Chain>, sssEnd: nat)
    requires sss.Valid() && c <= e <= |items| && sss.start == sssEnd
    ensures Pending(items, c, e, sss, sssEnd) == items[c..e]
  {
  }

  lemma ArrayDrained(items: seq<KeyNodeIDPair>, e: nat, sss: SortedSmallSet<Chain>, sssEnd: nat)
    requires sss.Valid() && e <= |items| && sss.start <= sssEnd <= sss.end
    ensures Pending(items, e, e, sss, sssEnd) == MergeByKey([], sss.Contents()[..sssEnd - sss.start])
  {
    assert items[e..e] == [];
  }

  // The array is drained: push what is left in the window.
  method DrainWindow(sss: SortedSmallSet<Chain>, sssEnd: nat, out: ElasticNode<KeyNodeIDPair>)
    requires sss.Valid() && out.Valid() && Separate(sss, out) && sss.start <= sssEnd <= sss.end
    requires out.end + |MergeByKey([], sss.Contents()[..sssEnd - sss.start])| <= out.data.Length
    modifies sss`start, out, out.data
    ensures sss.Valid() && out.Valid() && sss.start == sssEnd
    ensures sss.Contents() == old(sss.Contents())[sssEnd - old(sss.start)..]
    ensures out.Contents() == old(out.Contents()) + MergeByKey([], old(sss.Contents())[..sssEnd - old(sss.start)])
  {
    ghost var all := out.Contents() + MergeByKey([], sss.Contents()[..sssEnd - sss.start]);
    while sss.start != sssEnd
      invariant old(sss.start) <= sss.start <= sssEnd <= sss.end
      invariant sss.Valid() && out.Valid()
      invariant sss.Contents() == old(sss.Contents())[sss.start - old(sss.start)..]
      invariant out.Contents() + MergeByKey([], sss.Contents()[..sssEnd - sss.start]) == all
      invariant |all| <= out.data.Length
      decreases sssEnd - sss.start
    {
      ghost var done, deltas, m := out.Contents(), sss.Contents(), sssEnd - sss.start;
      Popped(deltas, m);
      assert done + (Inserted(deltas[0]) + MergeByKey([], deltas[1..][..m - 1]))
          == done + Inserted(deltas[0]) + MergeByKey([], deltas[1..][..m - 1]);
      PushRecord(sss, out);
    }
    assert sss.Contents()[..0] == [];
    assert out.Contents() + [] == all;
  }

  // ---------- gathering the records of a chain ----------

  // The consolidated content of one branch: what the records leave of `items` below the high key.
  ghost predicate Leaves(high: KeyNodeIDPair, items: set<KeyNodeIDPair>, deltas: seq<Chain>, result: set<KeyNodeIDPair>)
    requires AreDeltas(deltas)
  {
    forall x :: x in result <==> BelowHigh(high, x.first) && Live(x in items, deltas, x)
  }

  function Gather(deltas: seq<Chain>, record: Chain): seq<Chain> {
    InsertDedup(KeyLess, KeyEqual, deltas, record)
  }

  // The record is added between the smaller and the greater keys, unless its key is there already.
  lemma GatherPlace(deltas: seq<Chain>, record: Chain) returns (a: seq<Chain>, b: seq<Chain>)
    requires AreDeltas(deltas) && (record.Insert? || record.Delete?)
    ensures deltas == a + b && AreDeltas(a) && AreDeltas(b)
    ensures forall i :: 0 <= i < |a| ==> a[i].item.first < record.item.first
    ensures Decides(deltas, record.item.first) ==> Gather(deltas, record) == deltas
    ensures !Decides(deltas, record.item.first) ==>
              && Gather(deltas, record) == a + [record] + b
              && forall i :: 0 <= i < |b| ==> record.item.first < b[i].item.first
  {
    var p := LowerBoundBy(KeyLess, deltas, record);
    GatherUnfolds(deltas, record);
    hide Gather, InsertDedup, LowerBoundBy, Decides;
    a, b := deltas[..p], deltas[p..];
    assert deltas == a + b;
    Concat(a, b);
    forall i | 0 <= i < p ensures a[i].item.first < record.item.first {
      assert KeyLess(deltas[i], record);
    }
    FirstIsLeast(b);
    NotBelow(a, record);
    if b != [] {
      assert b[0] == deltas[p] && !KeyLess(b[0], record);
      if KeyEqual(b[0], record) { DecidedByFirst(b); } else { NotAbove(b, record); }
    } else {
      NotAbove(b, record);
    }
  }

  lemma GatherUnfolds(deltas: seq<Chain>, record: Chain)
    ensures var p := LowerBoundBy(KeyLess, deltas, record);
            Gather(deltas, record) ==
              if p < |deltas| && KeyEqual(deltas[p], record) then deltas else deltas[..p] + [record] + deltas[p..]
  {
  }

  lemma NotBelow(deltas: seq<Chain>, record: Chain)
    requires AreDeltas(deltas) && (record.Insert? || record.Delete?)
    requires forall i :: 0 <= i < |deltas| ==> deltas[i].item.first < record.item.first
    ensures !Decides(deltas, record.item.first)
  {
  }

  lemma NotAbove(deltas: seq<Chain>, record: Chain)
    requires AreDeltas(deltas) && (record.Insert? || record.Delete?)
    requires deltas != [] ==> record.item.first < deltas[0].item.first
    ensures !Decides(deltas, record.item.first)
  {
    FirstIsLeast(deltas);
  }

  lemma DecidedByFirst(deltas: seq<Chain>)
    requires AreDeltas(deltas) && deltas != []
    ensures Decides(deltas, deltas[0].item.first)
  {
  }

  lemma FirstIsLeast(deltas: seq<Chain>)
    requires AreDeltas(deltas)
    ensures forall i :: 0 <= i < |deltas| ==> deltas[0].item.first <= deltas[i].item.first
  {
  }

  lemma GatherMeaning(deltas: seq<Chain>, record: Chain)
    requires AreDeltas(deltas) && (record.Insert? || record.Delete?)
    ensures AreDeltas(Gather(deltas, record))
    ensures forall key :: Decides(Gather(deltas, record), key) <==> Decides(deltas, key) || key == record.item.first
    ensures forall x :: Inserts(Gather(deltas, record), x)
                   <==> Inserts(deltas, x) || (record.Insert? && x == record.item && !Decides(deltas, x.first))
  {
    var a, b := GatherPlace(deltas, record);
    if !Decides(deltas, record.item.first) {
      hide AreDeltas, Decides, Inserts, Gather;
      Single(record);
      Join(a, [record]);
      Join(a + [record], b);
      Concat(a, b);
      Concat(a, [record]);
      Concat(a + [record], b);
    }
  }

  lemma CountBelowJoined(high: KeyNodeIDPair, a: seq<Chain>, b: seq<Chain>)
    requires forall i :: 0 <= i < |a| ==> BelowHigh(high, KeyOf(a[i]))
    ensures CountBelow(high, a + b) == |a| + CountBelow(high, b)
  {
    if a == [] {
      assert a + b == b;
    } else {
      CountBelowJoined(high, a[1..], b);
      assert (a + b)[1..] == a[1..] + b;
    }
  }

  lemma JoinedRest(high: KeyNodeIDPair, a: seq<Chain>, b: seq<Chain>)
    requires forall i :: 0 <= i < |a| ==> BelowHigh(high, KeyOf(a[i]))
    ensures (a + b)[CountBelow(high, a + b)..] == b[CountBelow(high, b)..]
  {
    CountBelowJoined(high, a, b);
  }

  lemma GatherKeepsRest(high: KeyNodeIDPair, deltas: seq<Chain>, record: Chain)
    requires AreDeltas(deltas) && (record.Insert? || record.Delete?) && BelowHigh(high, record.item.first)
    ensures Gather(deltas, record)[CountBelow(high, Gather(deltas, record))..] == deltas[CountBelow(high, deltas)..]
  {
    var a, b := GatherPlace(deltas, record);
    if !Decides(deltas, record.item.first) {
      hide Gather, CountBelow, AreDeltas, Decides;
      JoinedRest(high, a, b);
      JoinedRest(high, a + [record], b);
    }
  }

  // The items of a branch above and below a record.
  lemma RecordChangesOneKey(node: Chain, bounded: bool, lowId: NodeID, x: KeyNodeIDPair)
    requires WellFormed(node, bounded) && (node.Insert? || node.Delete?) && (bounded || node.Low().second == lowId)
    ensures x.first != node.item.first ==> (x in Items(node, lowId) <==> x in Items(node.child, lowId))
    ensures x.first == node.item.first ==> (x in Items(node, lowId) <==> node.Insert? && x == node.item)
  {
    FindInChild(node, bounded);
  }

  lemma PassRecord(high: KeyNodeIDPair, node: Chain, bounded: bool, lowId: NodeID, deltas: seq<Chain>,
                   result: set<KeyNodeIDPair>)
    requires WellFormed(node, bounded) && (node.Insert? || node.Delete?) && (bounded || node.Low().second == lowId)
    requires node.High() == high
    requires AreDeltas(deltas) && Leaves(high, Items(node, lowId), deltas, result)
    ensures var deltas' := Gather(deltas, node);
            && AreDeltas(deltas') && Leaves(high, Items(node.child, lowId), deltas', result)
            && deltas'[CountBelow(high, deltas')..] == deltas[CountBelow(high, deltas)..]
  {
    GatherKeepsRest(high, deltas, node);
    GatherMeaning(deltas, node);
    hide AreDeltas, LowerBoundBy, InsertDedup, Gather, Decides, Inserts, CountBelow, WellFormed, Items;
    forall x
      ensures x in result
         <==> BelowHigh(high, x.first) && Live(x in Items(node.child, lowId), Gather(deltas, node), x)
    {
      RecordChangesOneKey(node, bounded, lowId, x);
      InsertsDecides(deltas, x);
    }
  }

  lemma InsertsDecides(deltas: seq<Chain>, x: KeyNodeIDPair)
    requires AreDeltas(deltas)
    ensures Inserts(deltas, x) ==> Decides(deltas, x.first)
  {
  }

  lemma PassSplit(node: Chain, bounded: bool, lowId: NodeID, deltas: seq<Chain>, result: set<KeyNodeIDPair>)
    requires WellFormed(node, bounded) && node.Split? && AreDeltas(deltas)
    requires bounded || node.Low().second == lowId
    requires Leaves(node.High(), Items(node, lowId), deltas, result)
    ensures Leaves(node.High(), Items(node.child, lowId), deltas, result)
  {
    forall x: KeyNodeIDPair | BelowHigh(node.High(), x.first)
      ensures x in Items(node, lowId) <==> x in Items(node.child, lowId)
    {
    }
  }

  // ---------- the base node of a branch ----------

  function CopyStart(lowId: NodeID, items: seq<KeyNodeIDPair>): nat {
    if |items| > 0 && items[0].second == lowId then 1 else 0
  }

  function CopyEnd(high: KeyNodeIDPair, items: seq<KeyNodeIDPair>): (e: nat)
    requires |items| > 0
    ensures 1 <= e <= |items|
  {
    if high.second == INVALID_NODE_ID then |items| else LowerBoundIn(items, 1, |items|, high.first)
  }

  // The range of the base array that is merged.
  function Copied(high: KeyNodeIDPair, lowId: NodeID, items: seq<KeyNodeIDPair>): seq<KeyNodeIDPair>
    requires |items| > 0
  {
    items[CopyStart(lowId, items)..CopyEnd(high, items)]
  }

  lemma BaseSepsAreTail(items: seq<KeyNodeIDPair>)
    requires |items| > 0
    ensures BaseSeps(items) == ToSet(items[1..])
  {
    forall x ensures x in BaseSeps(items) <==> x in items[1..] {
      if i :| 1 <= i < |items| && items[i] == x {
        assert items[1..][i - 1] == x;
      }
    }
  }

  lemma ItemsOfBase(node: Chain, bounded: bool, lowId: NodeID)
    requires WellFormed(node, bounded) && node.Inner? && (bounded || node.Low().second == lowId)
    ensures |node.items| > 0 && StrictlySorted(node.items[CopyStart(lowId, node.items)..])
    ensures forall x :: x in Items(node, lowId) <==> x in node.items[CopyStart(lowId, node.items)..]
  {
    var items := node.items;
    BaseSepsAreTail(items);
    BaseIsSorted(node, bounded, lowId);
    hide StrictlySorted, FirstSeps, BaseOk;
    assert items == [items[0]] + items[1..];
    assert items[0..] == items;
  }

  lemma BaseIsSorted(node: Chain, bounded: bool, lowId: NodeID)
    requires WellFormed(node, bounded) && node.Inner? && (bounded || node.Low().second == lowId)
    ensures StrictlySorted(node.items[CopyStart(lowId, node.items)..])
  {
    hide FirstSeps, Seps;
    var s := CopyStart(lowId, node.items);
    var all := node.items[s..];
    forall i, j | 0 <= i < j < |all| ensures all[i].first < all[j].first {
      assert all[i] == node.items[s + i] && all[j] == node.items[s + j];
    }
  }

  lemma CopiedMeaning(high: KeyNodeIDPair, node: Chain, bounded: bool, lowId: NodeID)
    requires WellFormed(node, bounded) && node.Inner? && (bounded || node.Low().second == lowId)
    requires bounded ==> BelowHigh(high, node.low.first)
    ensures StrictlySorted(Copied(high, lowId, node.items))
    ensures forall x :: x in Copied(high, lowId, node.items) <==> x in Items(node, lowId) && BelowHigh(high, x.first)
  {
    hide WellFormed, Items, CopyEnd, Copied, StrictlySorted, BelowHigh;
    ItemsOfBase(node, bounded, lowId);
    EndDivides(high, node, bounded, lowId);
    var s, e := CopyStart(lowId, node.items), CopyEnd(high, node.items);
    SortedPrefix(high, node.items[s..], e - s);
  }

  lemma EndDivides(high: KeyNodeIDPair, node: Chain, bounded: bool, lowId: NodeID)
    requires WellFormed(node, bounded) && node.Inner? && (bounded || node.Low().second == lowId)
    requires bounded ==> BelowHigh(high, node.low.first)
    ensures var s, e := CopyStart(lowId, node.items), CopyEnd(high, node.items);
            var all := node.items[s..];
            && e - s <= |all| && Copied(high, lowId, node.items) == all[..e - s]
            && (forall j :: 0 <= j < e - s ==> BelowHigh(high, all[j].first))
            && (e - s < |all| ==> !BelowHigh(high, all[e - s].first))
  {
    var s, e := CopyStart(lowId, node.items), CopyEnd(high, node.items);
    assert forall j :: s <= j < e ==> BelowHigh(high, node.items[j].first);
    hide WellFormed, LowerBoundIn;
    assert node.items[s..][..e - s] == node.items[s..e];
  }

  lemma SortedPrefix(high: KeyNodeIDPair, all: seq<KeyNodeIDPair>, n: nat)
    requires StrictlySorted(all) && n <= |all|
    requires forall j :: 0 <= j < n ==> BelowHigh(high, all[j].first)
    requires n < |all| ==> !BelowHigh(high, all[n].first)
    ensures StrictlySorted(all[..n])
    ensures forall x :: x in all[..n] <==> x in all && BelowHigh(high, x.first)
  {
    forall x | x in all && BelowHigh(high, x.first) ensures x in all[..n] {
      var j :| 0 <= j < |all| && all[j] == x;
      assert j < n;
      assert all[..n][j] == x;
    }
  }

  lemma BaseResult(high: KeyNodeIDPair, node: Chain, bounded: bool, lowId: NodeID, deltas: seq<Chain>,
                   result: set<KeyNodeIDPair>)
    requires WellFormed(node, bounded) && node.Inner? && (bounded || node.Low().second == lowId)
    requires bounded ==> BelowHigh(high, node.low.first)
    requires AreDeltas(deltas) && Leaves(high, Items(node, lowId), deltas, result)
    ensures var r := MergeByKey(Copied(high, lowId, node.items), deltas[..CountBelow(high, deltas)]);
            StrictlySorted(r) && ToSet(r) == result && |r| == |result|
  {
    var k := CountBelow(high, deltas);
    var part := Copied(high, lowId, node.items);
    CopiedMeaning(high, node, bounded, lowId);
    PrefixDecides(high, deltas);
    hide WellFormed, Copied, Items, AreDeltas, Decides, Inserts, CountBelow;
    MergeByKeyMeaning(part, deltas[..k]);
    var r := MergeByKey(part, deltas[..k]);
    forall x ensures x in r <==> x in result {
      InsertsDecides(deltas[..k], x);
    }
    DistinctSize(r);
    assert ToSet(r) == result;
  }

  lemma PrefixDecides(high: KeyNodeIDPair, deltas: seq<Chain>)
    requires AreDeltas(deltas)
    ensures var below := deltas[..CountBelow(high, deltas)];
            && AreDeltas(below)
            && (forall key :: Decides(below, key) <==> Decides(deltas, key) && BelowHigh(high, key))
            && (forall x :: Inserts(below, x) <==> Inserts(deltas, x) && BelowHigh(high, x.first))
  {
    var k := CountBelow(high, deltas);
    assert deltas == deltas[..k] + deltas[k..];
    Concat(deltas[..k], deltas[k..]);
    forall i | k <= i < |deltas| ensures !BelowHigh(high, deltas[i].item.first) {
      CountBelowDivides(high, deltas, i);
    }
  }

  // ---------- merge records ----------

  function LeftPart(key: int, result: set<KeyNodeIDPair>): set<KeyNodeIDPair> {
    set x | x in result && x.first < key
  }

  function RightPart(key: int, result: set<KeyNodeIDPair>): set<KeyNodeIDPair> {
    set x | x in result && x.first >= key
  }

  lemma PartsAddUp(key: int, result: set<KeyNodeIDPair>)
    ensures |LeftPart(key, result)| + |RightPart(key, result)| == |result|
  {
    assert LeftPart(key, result) !! RightPart(key, result);
    assert LeftPart(key, result) + RightPart(key, result) == result;
  }

  lemma PartsConcatenate(key: int, left: seq<KeyNodeIDPair>, right: seq<KeyNodeIDPair>, result: set<KeyNodeIDPair>)
    requires StrictlySorted(left) && ToSet(left) == LeftPart(key, result)
    requires StrictlySorted(right) && ToSet(right) == RightPart(key, result)
    ensures StrictlySorted(left + right) && ToSet(left + right) == result
  {
    var both := left + right;
    forall i | 0 <= i < |left| ensures left[i].first < key { assert left[i] in ToSet(left); }
    forall i | 0 <= i < |right| ensures right[i].first >= key { assert right[i] in ToSet(right); }
    forall x ensures x in both <==> x in result {
      assert x in both <==> x in ToSet(left) || x in ToSet(right);
    }
  }

  // The left branch sees the records below the merge key, the right one the others.
  lemma EnterBranches(node: Chain, bounded: bool, lowId: NodeID, deltas: seq<Chain>, result: set<KeyNodeIDPair>)
    requires WellFormed(node, bounded) && node.Merge? && RightsDiffer(node, lowId)
    requires bounded || node.Low().second == lowId
    requires AreDeltas(deltas) && Leaves(node.High(), Items(node, lowId), deltas, result)
    ensures Leaves(node.child.High(), Items(node.child, lowId), deltas, LeftPart(node.deleteItem.first, result))
    ensures var rest := deltas[CountBelow(node.child.High(), deltas)..];
            && AreDeltas(rest)
            && Leaves(node.right.High(), Items(node.right, lowId), rest, RightPart(node.deleteItem.first, result))
            && rest[CountBelow(node.High(), rest)..] == deltas[CountBelow(node.High(), deltas)..]
  {
    var key := node.deleteItem;
    MergeParts(node, bounded, lowId);
    SepsInRange(node.right, true);
    SuffixDecides(key, deltas);
    var k := CountBelow(key, deltas);
    RestOfRest(key, node.High(), deltas);
    hide AreDeltas, Decides, Inserts, CountBelow, RightsDiffer, Items;
    forall x: KeyNodeIDPair
      ensures x in LeftPart(key.first, result) <==> BelowHigh(key, x.first) && Live(x in Items(node.child, lowId), deltas, x)
    {
    }
    forall x: KeyNodeIDPair
      ensures x in RightPart(key.first, result)
         <==> BelowHigh(node.right.High(), x.first) && Live(x in Items(node.right, lowId), deltas[k..], x)
    {
      InsertsDecides(deltas[k..], x);
    }
  }

  lemma SuffixDecides(key: KeyNodeIDPair, deltas: seq<Chain>)
    requires AreDeltas(deltas)
    ensures var above := deltas[CountBelow(key, deltas)..];
            && AreDeltas(above)
            && (forall k :: Decides(above, k) <==> Decides(deltas, k) && !BelowHigh(key, k))
            && (forall x :: Inserts(above, x) <==> Inserts(deltas, x) && !BelowHigh(key, x.first))
  {
    var k := CountBelow(key, deltas);
    assert deltas == deltas[..k] + deltas[k..];
    Concat(deltas[..k], deltas[k..]);
    forall i | k <= i < |deltas| ensures !BelowHigh(key, deltas[i].item.first) {
      CountBelowDivides(key, deltas, i);
    }
  }

  lemma RestOfRest(key: KeyNodeIDPair, high: KeyNodeIDPair, deltas: seq<Chain>)
    requires key.second != INVALID_NODE_ID && BelowHigh(high, key.first)
    ensures var rest := deltas[CountBelow(key, deltas)..];
            rest[CountBelow(high, rest)..] == deltas[CountBelow(high, deltas)..]
  {
    var k := CountBelow(key, deltas);
    assert deltas == deltas[..k] + deltas[k..];
    JoinedRest(high, deltas[..k], deltas[k..]);
  }

  // ---------- the consolidation itself ----------

  // The scratch objects of one consolidation: memory apart, and room for every record below.
  ghost predicate Scratch(sss: SortedSmallSet<Chain>, out: ElasticNode<KeyNodeIDPair>, depth: nat)
    reads sss, out
  {
    && sss.Valid() && out.Valid() && sss.less == KeyLess && sss.eq == KeyEqual
    && Separate(sss, out) && sss.end + depth <= sss.data.Length
  }

  method GatherRecord(node: Chain, sss: SortedSmallSet<Chain>, out: ElasticNode<KeyNodeIDPair>, ghost lowId: NodeID,
                      ghost bounded: bool, ghost high: KeyNodeIDPair, ghost result: set<KeyNodeIDPair>)
    requires WellFormed(node, bounded) && (node.Insert? || node.Delete?) && (bounded || node.Low().second == lowId)
    requires node.High() == high && Scratch(sss, out, node.Depth())
    requires AreDeltas(sss.Contents()) && Leaves(high, Items(node, lowId), sss.Contents(), result)
    modifies sss, sss.data
    ensures Scratch(sss, out, node.child.Depth()) && sss.start == old(sss.start)
    ensures sss.end + node.child.Depth() <= old(sss.end) + node.Depth()
    ensures AreDeltas(sss.Contents()) && Leaves(high, Items(node.child, lowId), sss.Contents(), result)
    ensures sss.Contents()[CountBelow(high, sss.Contents())..]
         == old(sss.Contents()[CountBelow(high, sss.Contents())..])
  {
    hide WellFormed, Leaves, AreDeltas, Items, CountBelow, InsertDedup;
    PassRecord(high, node, bounded, lowId, sss.Contents(), result);
    sss.Insert(node);
  }

  // A base node: merge the window below the high key into the array.
  method CollectBase(node: Chain, high: KeyNodeIDPair, lowId: NodeID, sss: SortedSmallSet<Chain>,
                     out: ElasticNode<KeyNodeIDPair>, ghost bounded: bool, ghost result: set<KeyNodeIDPair>)
    returns (ghost ext: seq<KeyNodeIDPair>)
    requires WellFormed(node, bounded) && node.Inner? && (bounded || node.Low().second == lowId)
    requires bounded ==> BelowHigh(high, node.low.first)
    requires Scratch(sss, out, node.Depth())
    requires AreDeltas(sss.Contents()) && Leaves(high, Items(node, lowId), sss.Contents(), result)
    requires out.end + |result| <= out.data.Length
    modifies sss`start, out, out.data
    ensures Scratch(sss, out, node.Depth()) && sss.end == old(sss.end)
    ensures sss.Contents() == old(sss.Contents()[CountBelow(high, sss.Contents())..])
    ensures out.Contents() == old(out.Contents()) + ext
    ensures StrictlySorted(ext) && ToSet(ext) == result && |ext| == |result|
  {
    BaseNotEmpty(node, bounded);
    BaseResult(high, node, bounded, lowId, sss.Contents(), result);
    hide WellFormed, Leaves, AreDeltas, Items, CountBelow, MergeByKey, StrictlySorted, LowerBoundIn;
    var items := node.items;
    var copyEnd := if high.second == INVALID_NODE_ID then |items| else LowerBoundIn(items, 1, |items|, high.first);
    var copyStart := if items[0].second == lowId then 1 else 0;
    var sssEnd := FindWindowEnd(high, sss);
    ext := Pending(items, copyStart, copyEnd, sss, sssEnd);
    MergeLoop(items, copyStart, copyEnd, sss, sssEnd, out);
  }

  lemma BaseNotEmpty(node: Chain, bounded: bool)
    requires WellFormed(node, bounded) && node.Inner?
    ensures |node.items| > 0
  {
  }

  // bwtree.h:3647-3882
  method CollectAllSepsOnInnerRecursive(c: Chain, lowId: NodeID, sss: SortedSmallSet<Chain>,
                                        out: ElasticNode<KeyNodeIDPair>, ghost bounded: bool,
                                        ghost result: set<KeyNodeIDPair>)
    returns (ghost ext: seq<KeyNodeIDPair>)
    requires WellFormed(c, bounded) && RightsDiffer(c, lowId) && (bounded || c.Low().second == lowId)
    requires Scratch(sss, out, c.Depth())
    requires AreDeltas(sss.Contents()) && Leaves(c.High(), Items(c, lowId), sss.Contents(), result)
    requires out.end + |result| <= out.data.Length
    modifies sss, sss.data, out, out.data
    ensures Scratch(sss, out, 0) && sss.end <= old(sss.end) + c.Depth()
    ensures sss.Contents() == old(sss.Contents()[CountBelow(c.High(), sss.Contents())..])
    ensures out.Contents() == old(out.Contents()) + ext
    ensures StrictlySorted(ext) && ToSet(ext) == result && |ext| == |result|
    decreases c, 1
  {
    hide WellFormed, Leaves, AreDeltas, Items, CountBelow, StrictlySorted, ToSet, LeftPart, RightPart;
    var high := c.High();
    var node := c;
    ghost var rest := sss.Contents()[CountBelow(high, sss.Contents())..];
    SepsInRange(c, bounded);
    while true
      invariant WellFormed(node, bounded) && RightsDiffer(node, lowId) && node.Low() == c.Low()
      invariant node.High() == high || node.Inner?
      invariant node == c || node < c
      invariant Scratch(sss, out, node.Depth()) && unchanged(out) && unchanged(out.data)
      invariant sss.end + node.Depth() <= old(sss.end) + c.Depth()
      invariant AreDeltas(sss.Contents()) && Leaves(high, Items(node, lowId), sss.Contents(), result)
      invariant sss.Contents()[CountBelow(high, sss.Contents())..] == rest
      decreases node
    {
      match node {
        case Inner(_, _, _, _) =>
          ext := CollectBase(node, high, lowId, sss, out, bounded, result);
          return;
        case Insert(_, _, _, child) =>
          ChildIsOk(node, bounded);
          GatherRecord(node, sss, out, lowId, bounded, high, result);
          node := child;
        case Delete(_, _, _, _, child) =>
          ChildIsOk(node, bounded);
          GatherRecord(node, sss, out, lowId, bounded, high, result);
          node := child;
        case Split(_, _, child) =>
          ChildIsOk(node, bounded);
          PassSplit(node, bounded, lowId, sss.Contents(), result);
          node := child;
        case Merge(_, _, _) =>
          ext := CollectBothBranches(node, lowId, sss, out, bounded, result);
          return;
      }
    }
  }

  // A merge record: the left branch first, then the right one (bwtree.h:3862-3875).
  method CollectBothBranches(node: Chain, lowId: NodeID, sss: SortedSmallSet<Chain>, out: ElasticNode<KeyNodeIDPair>,
                             ghost bounded: bool, ghost result: set<KeyNodeIDPair>)
    returns (ghost ext: seq<KeyNodeIDPair>)
    requires WellFormed(node, bounded) && node.Merge? && RightsDiffer(node, lowId)
    requires bounded || node.Low().second == lowId
    requires Scratch(sss, out, node.Depth())
    requires AreDeltas(sss.Contents()) && Leaves(node.High(), Items(node, lowId), sss.Contents(), result)
    requires out.end + |result| <= out.data.Length
    modifies sss, sss.data, out, out.data
    ensures Scratch(sss, out, 0) && sss.end <= old(sss.end) + node.Depth()
    ensures sss.Contents() == old(sss.Contents()[CountBelow(node.High(), sss.Contents())..])
    ensures out.Contents() == old(out.Contents()) + ext
    ensures StrictlySorted(ext) && ToSet(ext) == result && |ext| == |result|
    decreases node, 0
  {
    hide WellFormed, Leaves, AreDeltas, Items, CountBelow, StrictlySorted, ToSet, LeftPart, RightPart;
    ghost var key := node.deleteItem.first;
    ChildIsOk(node, bounded);
    EnterBranches(node, bounded, lowId, sss.Contents(), result);
    PartsAddUp(key, result);
    ghost var before := out.Contents();
    ghost var left := CollectAllSepsOnInnerRecursive(node.child, lowId, sss, out, bounded, LeftPart(key, result));
    ghost var right := CollectAllSepsOnInnerRecursive(node.right, lowId, sss, out, true, RightPart(key, result));
    PartsConcatenate(key, left, right, result);
    Associate(before, left, right);
    ext := left + right;
  }

  lemma ChildIsOk(c: Chain, bounded: bool)
    requires WellFormed(c, bounded) && !c.Inner?
    ensures WellFormed(c.child, bounded) && c.child.Low() == c.Low()
    ensures c.Split? ==> c.child.Inner? && c.insertItem.second != INVALID_NODE_ID
    ensures c.Merge? ==> WellFormed(c.right, true)
    ensures c.Insert? || c.Delete? ==> c.child.High() == c.High()
  {
  }

  // What replaces a chain: a base node whose array is the low key and then the separators.
  ghost predicate Consolidates(c: Chain, items: seq<KeyNodeIDPair>) {
    |items| > 0 && items[0] == c.Low() && StrictlySorted(items[1..]) && ToSet(items[1..]) == Seps(c)
  }

  // Inner consolidation is log replay, bwtree.h:3597-3645: for every well-formed chain the new array
  // is the low key followed by the logical separators in increasing order, it fills the allocated
  // node exactly, and the window never needs more slots than the depth of the chain.
  method CollectAllSepsOnInner(c: Chain, ghost bounded: bool) returns (inner: ElasticNode<KeyNodeIDPair>)
    requires WellFormed(c, bounded)
    ensures fresh(inner) && fresh(inner.data) && inner.Valid()
    ensures inner.data.Length == inner.end == c.ItemCount()
    ensures Consolidates(c, inner.Contents())
  {
    hide WellFormed, Leaves, AreDeltas, Items, StrictlySorted, ToSet, Consolidates;
    ItemCountIsExact(c, bounded);
    LeftmostIsLow(c, bounded);
    inner := new ElasticNode<KeyNodeIDPair>(c.ItemCount());
    var list := new Chain[c.Depth()];
    var sss := new SortedSmallSet<Chain>(list, KeyLess, KeyEqual);
    inner.PushBack(c.Low());
    StartGathering(c, bounded, sss.Contents());
    ghost var seps := CollectAllSepsOnInnerRecursive(c, c.Low().second, sss, inner, bounded, Seps(c));
    AreConsolidated(c, seps);
  }

  lemma StartGathering(c: Chain, bounded: bool, deltas: seq<Chain>)
    requires WellFormed(c, bounded) && deltas == []
    ensures AreDeltas(deltas) && Leaves(c.High(), Items(c, c.Low().second), deltas, Seps(c))
  {
    SepsInRange(c, bounded);
  }

  lemma AreConsolidated(c: Chain, seps: seq<KeyNodeIDPair>)
    requires StrictlySorted(seps) && ToSet(seps) == Seps(c)
    ensures Consolidates(c, [] + [c.Low()] + seps)
  {
    assert ([] + [c.Low()] + seps)[1..] == seps;
  }

  // Consolidation does not change what the node means, and every navigation can go on from it.
  lemma ConsolidatedChain(c: Chain, bounded: bool, items: seq<KeyNodeIDPair>, depth: nat)
    requires WellFormed(c, bounded) && Consolidates(c, items)
    ensures var inner := Inner(c.Low(), c.High(), items, depth);
            && WellFormed(inner, bounded) && Seps(inner) == Seps(c)
            && inner.Low() == c.Low() && inner.High() == c.High() && inner.ItemCount() == c.ItemCount()
  {
    SepsInRange(c, bounded);
    ItemCountIsExact(c, bounded);
    BaseSepsAreTail(items);
    var inner := Inner(c.Low(), c.High(), items, depth);
    ConsolidatedBase(c, bounded, items);
    hide WellFormed, BaseOk, Consolidates, FirstSeps;
    BaseIsOk(inner, bounded);
    ItemCountIsExact(inner, bounded);
  }

  lemma ConsolidatedBase(c: Chain, bounded: bool, items: seq<KeyNodeIDPair>)
    requires Consolidates(c, items)
    requires bounded ==> BelowHigh(c.High(), c.Low().first)
    requires forall x :: x in Seps(c) ==> BelowHigh(c.High(), x.first) && (bounded ==> c.Low().first < x.first)
    requires forall x :: x in Seps(c) ==> x.second != c.Low().second
    ensures BaseOk(c.Low(), c.High(), items, bounded)
  {
    var tail := items[1..];
    hide Seps;
    forall i | 1 <= i < |items| ensures items[i] in Seps(c) {
      assert items[i] == tail[i - 1] && tail[i - 1] in ToSet(tail);
    }
    forall i, j | 1 <= i < j < |items| ensures items[i].first < items[j].first {
      assert tail[i - 1].first < tail[j - 1].first;
    }
  }

  lemma BaseIsOk(inner: Chain, bounded: bool)
    requires inner.Inner? && BaseOk(inner.low, inner.high, inner.items, bounded)
    ensures WellFormed(inner, bounded)
  {
  }
}
