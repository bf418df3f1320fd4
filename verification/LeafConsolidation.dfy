// Leaf consolidation: CollectAllValuesOnLeaf and its recursive core, bwtree.h:4455-4736.
module LeafConsolidation {
  import opened Pairs
  import opened LeafChain
  import opened SortedSmallSets
  import opened BloomFilters
  import opened ElasticNodes
  import opened LeafMerge

  // The number of leading records below the high key.
  function CountBelow(high: KeyNodeIDPair, deltas: seq<Chain>): (k: nat)
    requires AreDeltas(deltas)
    ensures k <= |deltas|
    ensures forall i :: 0 <= i < k ==> BelowHigh(high, deltas[i].item.first)
    ensures k < |deltas| ==> !BelowHigh(high, deltas[k].item.first)
  {
    if deltas == [] || !BelowHigh(high, deltas[0].item.first) then 0
    else
      assert AreDeltas(deltas[1..]);
      1 + CountBelow(high, deltas[1..])
  }

  lemma AboveStaysAbove(high: KeyNodeIDPair, deltas: seq<Chain>, i: nat)
    requires AreDeltas(deltas) && SortedBy(DeltaLess, deltas)
    requires CountBelow(high, deltas) <= i < |deltas|
    ensures !BelowHigh(high, deltas[i].item.first)
  {
    var k := CountBelow(high, deltas);
    if k < i {
      assert !DeltaLess(deltas[i], deltas[k]);
    }
  }

  lemma BelowMeansCounted(high: KeyNodeIDPair, deltas: seq<Chain>, i: nat)
    requires AreDeltas(deltas) && SortedBy(DeltaLess, deltas)
    requires i < |deltas| && BelowHigh(high, deltas[i].item.first)
    ensures i < CountBelow(high, deltas)
  {
    if CountBelow(high, deltas) <= i {
      AboveStaysAbove(high, deltas, i);
    }
  }

  // The consolidated content of one branch: what the records leave of `base` below the high key.
  ghost predicate Leaves(high: KeyNodeIDPair, base: set<KeyValuePair>, deltas: seq<Chain>, result: set<KeyValuePair>)
    requires AreDeltas(deltas)
  {
    forall x :: x in result <==> BelowHigh(high, x.first) && Live(x in base, deltas, x)
  }

  function CopyEnd(high: KeyNodeIDPair, items: seq<KeyValuePair>): (e: nat)
    ensures e <= |items|
  {
    if high.second == INVALID_NODE_ID then |items| else LowerBound(items, high.first)
  }

  // A record not drained yet does not concern what has been merged.
  lemma LaterRecordsAreElsewhere(high: KeyNodeIDPair, items: seq<KeyValuePair>, deltas: seq<Chain>, p: nat, c: nat,
                                 i: nat)
    requires AreDeltas(deltas) && Mergeable(items, deltas, CountBelow(high, deltas))
    requires p <= CountBelow(high, deltas) && i < c <= CopyEnd(high, items)
    requires p < CountBelow(high, deltas) ==> c <= deltas[p].indexPair.index
    requires !OverridesUpTo(deltas, p, items[i])
    ensures BelowHigh(high, items[i].first) && !Overrides(deltas, items[i])
  {
    var k := CountBelow(high, deltas);
    if high.second != INVALID_NODE_ID {
      assert items[i].first < high.first;
    }
    if Overrides(deltas, items[i]) {
      var q :| 0 <= q < |deltas| && deltas[q].item == items[i];
      if q >= k {
        AboveStaysAbove(high, deltas, q);
      } else {
        IndexGrows(items, deltas, k, p, q);
        BaseLocateMeaning(items, items[i]);
      }
    }
  }

  // What has been merged so far is part of the final result, so it fits the allocated array.
  lemma PartOfResult(high: KeyNodeIDPair, items: seq<KeyValuePair>, deltas: seq<Chain>, p: nat, c: nat, over: bool,
                     out: seq<KeyValuePair>, result: set<KeyValuePair>)
    requires AreDeltas(deltas) && Mergeable(items, deltas, CountBelow(high, deltas))
    requires Merged(items, deltas, CountBelow(high, deltas), p, c, over, out) && c <= CopyEnd(high, items)
    requires Leaves(high, ToSet(items), deltas, result)
    ensures |out| <= |result|
  {
    forall x | x in out
      ensures x in result
    {
      if OverridesUpTo(deltas, p, x) {
        var q :| 0 <= q < p && deltas[q].item == x && deltas[q].Insert?;
        assert Live(x in ToSet(items), deltas, x);
      } else {
        var i :| 0 <= i < c && items[i] == x;
        LaterRecordsAreElsewhere(high, items, deltas, p, c, i);
      }
    }
    DistinctFits(out, result);
  }

  lemma CopiedIsBelow(high: KeyNodeIDPair, items: seq<KeyValuePair>)
    requires Sorted(items)
    ensures forall x :: x in items[..CopyEnd(high, items)] <==> x in items && BelowHigh(high, x.first)
  {
  }

  // And at the end it is all of it.
  lemma WholeResult(high: KeyNodeIDPair, items: seq<KeyValuePair>, deltas: seq<Chain>, out: seq<KeyValuePair>,
                    result: set<KeyValuePair>)
    requires AreDeltas(deltas) && Mergeable(items, deltas, CountBelow(high, deltas))
    requires Merged(items, deltas, CountBelow(high, deltas), CountBelow(high, deltas), CopyEnd(high, items), false, out)
    requires Leaves(high, ToSet(items), deltas, result)
    ensures ToSet(out) == result
  {
    var k := CountBelow(high, deltas);
    hide CountBelow, CopyEnd, SortedBy, IndexedIn;
    CopiedIsBelow(high, items);
    forall x: KeyValuePair | BelowHigh(high, x.first)
      ensures OverridesUpTo(deltas, k, x) <==> Overrides(deltas, x)
      ensures InsertsUpTo(deltas, k, x) <==> InsertsUpTo(deltas, |deltas|, x)
    {
      forall q | k <= q < |deltas|
        ensures deltas[q].item != x
      {
        AboveStaysAbove(high, deltas, q);
      }
    }
    forall x
      ensures x in out <==> x in result
    {
      if InsertsUpTo(deltas, k, x) {
        assert BelowHigh(high, x.first);
      }
    }
  }

  lemma IndexBelowCopyEnd(high: KeyNodeIDPair, items: seq<KeyValuePair>, deltas: seq<Chain>, q: nat)
    requires AreDeltas(deltas) && Mergeable(items, deltas, CountBelow(high, deltas)) && q < CountBelow(high, deltas)
    ensures var at := deltas[q].indexPair;
            at.index <= CopyEnd(high, items) && (at.present ==> at.index < CopyEnd(high, items))
  {
    BaseLocateMeaning(items, deltas[q].item);
  }

  lemma OverwrittenIsBelow(high: KeyNodeIDPair, items: seq<KeyValuePair>, deltas: seq<Chain>, p: nat, c: nat,
                           out: seq<KeyValuePair>)
    requires AreDeltas(deltas) && Mergeable(items, deltas, CountBelow(high, deltas))
    requires Merged(items, deltas, CountBelow(high, deltas), p, c, true, out) && c <= CopyEnd(high, items)
    ensures c < CopyEnd(high, items)
  {
    var q :| 0 <= q < p && deltas[q].item == items[c];
    assert BelowHigh(high, items[c].first);
  }

  // The objects a consolidation works on do not share memory.
  ghost predicate Separate(sss: SortedSmallSet<Chain>, out: ElasticNode<KeyValuePair>) {
    sss as object != out && sss.data as object != out.data
  }

  // The end of the window below the high key, found by scanning from the back.
  method FindWindowEnd(high: KeyNodeIDPair, sss: SortedSmallSet<Chain>) returns (sssEnd: nat)
    requires sss.Valid() && AreDeltas(sss.Contents()) && SortedBy(DeltaLess, sss.Contents())
    ensures sssEnd == sss.start + CountBelow(high, sss.Contents())
  {
    ghost var deltas := sss.Contents();
    sssEnd := sss.end;
    if high.second != INVALID_NODE_ID {
      while sssEnd > sss.start
        invariant sss.start + CountBelow(high, deltas) <= sssEnd <= sss.end
      {
        assert sss.data[sssEnd - 1] == deltas[sssEnd - 1 - sss.start];
        if sss.data[sssEnd - 1].item.first < high.first {
          BelowMeansCounted(high, deltas, sssEnd - 1 - sss.start);
          break;
        }
        sssEnd := sssEnd - 1;
      }
    }
  }

  // The objects at work between two rounds of the merge loop: p records are drained, and `ext` has
  // been pushed behind `before`.
  ghost predicate AtRecord(sss: SortedSmallSet<Chain>, out: ElasticNode<KeyValuePair>, deltas: seq<Chain>, p: nat,
                           before: seq<KeyValuePair>, ext: seq<KeyValuePair>)
    reads sss, sss.data, out, out.data
  {
    && sss.Valid() && out.Valid() && Separate(sss, out)
    && p <= |deltas| && sss.Contents() == deltas[p..]
    && out.Contents() == before + ext
  }

  lemma NextPosition(items: seq<KeyValuePair>, deltas: seq<Chain>, k: nat, p: nat, c: nat, over: bool,
                     out: seq<KeyValuePair>)
    requires AreDeltas(deltas) && Merged(items, deltas, k, p, c, over, out) && p < k
    ensures (deltas[p].Insert? || deltas[p].Delete?) && c <= deltas[p].indexPair.index
  {
  }

  lemma MergeStart(items: seq<KeyValuePair>, deltas: seq<Chain>, k: nat)
    requires AreDeltas(deltas) && Mergeable(items, deltas, k)
    ensures SortedBy(DeltaLess, deltas) && Merged(items, deltas, k, 0, 0, false, [])
  {
  }

  // Pop one record, and push its item if it is an insert.
  method DrainRecord(items: seq<KeyValuePair>, high: KeyNodeIDPair, sss: SortedSmallSet<Chain>,
                     out: ElasticNode<KeyValuePair>, ghost deltas: seq<Chain>, ghost p: nat, ghost currentIndex: nat,
                     overwrittenBefore: bool, ghost before: seq<KeyValuePair>, ghost ext0: seq<KeyValuePair>,
                     ghost result: set<KeyValuePair>)
    returns (itemOverwritten: bool, ghost ext: seq<KeyValuePair>)
    requires AreDeltas(deltas) && Mergeable(items, deltas, CountBelow(high, deltas))
    requires AtRecord(sss, out, deltas, p, before, ext0)
    requires p < CountBelow(high, deltas) && deltas[p].indexPair.index == currentIndex <= CopyEnd(high, items)
    requires Merged(items, deltas, CountBelow(high, deltas), p, currentIndex, overwrittenBefore, ext0)
    requires Leaves(high, ToSet(items), deltas, result) && |before| + |result| <= out.data.Length
    modifies sss`start, out, out.data
    ensures AtRecord(sss, out, deltas, p + 1, before, ext) && sss.end == old(sss.end) && sss.start == old(sss.start) + 1
    ensures Merged(items, deltas, CountBelow(high, deltas), p + 1, currentIndex, itemOverwritten, ext)
  {
    hide Merged, Mergeable, Leaves, CountBelow, AreDeltas, Sorted, NoDuplicates, ToSet, CopyEnd;
    ghost var k := CountBelow(high, deltas);
    DrainOne(items, deltas, k, p, currentIndex, overwrittenBefore, ext0);
    NextPosition(items, deltas, k, p, currentIndex, overwrittenBefore, ext0);
    assert deltas[p..][0] == deltas[p] && deltas[p..][1..] == deltas[p + 1..];
    var node := sss.PopFront();
    itemOverwritten := overwrittenBefore || node.indexPair.present;
    ext := ext0;
    if node.Insert? {
      ext := ext0 + [node.item];
      PartOfResult(high, items, deltas, p + 1, currentIndex, itemOverwritten, ext, result);
      out.PushBack(node.item);
      assert before + ext0 + [node.item] == before + ext;
    }
  }

  // Drain all records that sit at one position of the base array (bwtree.h:4645-4666).
  method DrainPosition(items: seq<KeyValuePair>, high: KeyNodeIDPair, sss: SortedSmallSet<Chain>, sssEnd: nat,
                       out: ElasticNode<KeyValuePair>, ghost deltas: seq<Chain>, ghost p0: nat, currentIndex: nat,
                       ghost before: seq<KeyValuePair>, ghost ext0: seq<KeyValuePair>, ghost result: set<KeyValuePair>)
    returns (itemOverwritten: bool, ghost p: nat, ghost ext: seq<KeyValuePair>)
    requires AreDeltas(deltas) && Mergeable(items, deltas, CountBelow(high, deltas))
    requires AtRecord(sss, out, deltas, p0, before, ext0)
    requires sssEnd == sss.start + CountBelow(high, deltas) - p0
    requires p0 < CountBelow(high, deltas) && deltas[p0].indexPair.index == currentIndex <= CopyEnd(high, items)
    requires Merged(items, deltas, CountBelow(high, deltas), p0, currentIndex, false, ext0)
    requires Leaves(high, ToSet(items), deltas, result) && |before| + |result| <= out.data.Length
    modifies sss`start, out, out.data
    ensures p0 < p && AtRecord(sss, out, deltas, p, before, ext) && sss.end == old(sss.end)
    ensures sss.start == old(sss.start) + (p - p0)
    ensures p <= CountBelow(high, deltas)
    ensures Merged(items, deltas, CountBelow(high, deltas), p, currentIndex, itemOverwritten, ext)
    ensures p < CountBelow(high, deltas) ==> currentIndex < deltas[p].indexPair.index
  {
    hide Merged, Mergeable, Leaves, CountBelow, AreDeltas, Sorted, NoDuplicates, ToSet, CopyEnd;
    ghost var k := CountBelow(high, deltas);
    itemOverwritten := false;
    p, ext := p0, ext0;
    FrontRecord(items, high, sss, out, deltas, p, currentIndex, false, before, ext);
    while sss.data[sss.start].indexPair.index == currentIndex
      invariant p0 <= p < k && AtRecord(sss, out, deltas, p, before, ext) && sss.end == old(sss.end)
      invariant sss.start == old(sss.start) + (p - p0)
      invariant (deltas[p].Insert? || deltas[p].Delete?) && sss.start < sss.end && sss.data[sss.start] == deltas[p]
      invariant currentIndex <= deltas[p].indexPair.index
      invariant p == p0 ==> deltas[p].indexPair.index == currentIndex
      invariant Merged(items, deltas, k, p, currentIndex, itemOverwritten, ext)
      decreases k - p
    {
      itemOverwritten, ext :=
        DrainRecord(items, high, sss, out, deltas, p, currentIndex, itemOverwritten, before, ext, result);
      p := p + 1;
      if sss.start == sssEnd {
        break;
      }
      FrontRecord(items, high, sss, out, deltas, p, currentIndex, itemOverwritten, before, ext);
    }
  }

  lemma FrontRecord(items: seq<KeyValuePair>, high: KeyNodeIDPair, sss: SortedSmallSet<Chain>,
                    out: ElasticNode<KeyValuePair>, deltas: seq<Chain>, p: nat, c: nat, over: bool,
                    before: seq<KeyValuePair>, ext: seq<KeyValuePair>)
    requires AreDeltas(deltas) && AtRecord(sss, out, deltas, p, before, ext) && p < CountBelow(high, deltas)
    requires Merged(items, deltas, CountBelow(high, deltas), p, c, over, ext)
    ensures sss.start < sss.end && sss.data[sss.start] == deltas[p]
    ensures (deltas[p].Insert? || deltas[p].Delete?) && c <= deltas[p].indexPair.index
  {
    assert sss.data[sss.start] == sss.Contents()[0] == deltas[p..][0];
  }

  // One round of the merge loop: copy up to the next position, drain it, skip what is overwritten.
  method MergePosition(items: seq<KeyValuePair>, high: KeyNodeIDPair, sss: SortedSmallSet<Chain>, sssEnd: nat,
                       out: ElasticNode<KeyValuePair>, ghost deltas: seq<Chain>, ghost p0: nat, copyStart0: nat,
                       ghost before: seq<KeyValuePair>, ghost ext0: seq<KeyValuePair>, ghost result: set<KeyValuePair>)
    returns (copyStart: nat, ghost p: nat, ghost ext: seq<KeyValuePair>)
    requires AreDeltas(deltas) && Mergeable(items, deltas, CountBelow(high, deltas))
    requires AtRecord(sss, out, deltas, p0, before, ext0)
    requires sssEnd == sss.start + CountBelow(high, deltas) - p0 && p0 < CountBelow(high, deltas)
    requires copyStart0 <= CopyEnd(high, items)
    requires Merged(items, deltas, CountBelow(high, deltas), p0, copyStart0, false, ext0)
    requires Leaves(high, ToSet(items), deltas, result) && |before| + |result| <= out.data.Length
    modifies sss`start, out, out.data
    ensures p0 < p <= CountBelow(high, deltas) && AtRecord(sss, out, deltas, p, before, ext)
    ensures sss.end == old(sss.end) && sss.start == old(sss.start) + (p - p0)
    ensures copyStart <= CopyEnd(high, items)
    ensures Merged(items, deltas, CountBelow(high, deltas), p, copyStart, false, ext)
  {
    hide Merged, Mergeable, Leaves, CountBelow, AreDeltas, SortedBy, Sorted, NoDuplicates, ToSet, CopyEnd;
    ghost var k := CountBelow(high, deltas);
    NextPosition(items, deltas, k, p0, copyStart0, false, ext0);
    assert deltas[p0..][0] == deltas[p0];
    assert sss.data[sss.start] == sss.Contents()[0] == deltas[p0];
    var currentIndex := sss.data[sss.start].indexPair.index;
    IndexBelowCopyEnd(high, items, deltas, p0);
    CopyRange(items, deltas, k, p0, copyStart0, currentIndex, ext0);
    ghost var copied := ext0 + items[copyStart0..currentIndex];
    assert before + ext0 + items[copyStart0..currentIndex] == before + copied;
    PartOfResult(high, items, deltas, p0, currentIndex, false, copied, result);
    out.PushBackRange(items, copyStart0, currentIndex);
    copyStart := currentIndex;

    var itemOverwritten;
    itemOverwritten, p, ext :=
      DrainPosition(items, high, sss, sssEnd, out, deltas, p0, currentIndex, before, copied, result);
    if itemOverwritten {
      SkipOne(items, deltas, k, p, copyStart, ext);
      OverwrittenIsBelow(high, items, deltas, p, copyStart, ext);
      copyStart := copyStart + 1;
    }
  }

  // bwtree.h:4574-4679
  method CopyBase(items: seq<KeyValuePair>, high: KeyNodeIDPair, sss: SortedSmallSet<Chain>,
                  out: ElasticNode<KeyValuePair>, ghost result: set<KeyValuePair>)
    returns (ghost ext: seq<KeyValuePair>)
    requires sss.Valid() && out.Valid() && Separate(sss, out)
    requires AreDeltas(sss.Contents())
    requires Mergeable(items, sss.Contents(), CountBelow(high, sss.Contents()))
    requires Leaves(high, ToSet(items), sss.Contents(), result)
    requires out.end + |result| <= out.data.Length
    modifies sss`start, out, out.data
    ensures sss.Valid() && out.Valid() && sss.end == old(sss.end)
    ensures sss.Contents() == old(sss.Contents()[CountBelow(high, sss.Contents())..])
    ensures out.Contents() == old(out.Contents()) + ext
    ensures Sorted(ext) && NoDuplicates(ext) && ToSet(ext) == result
  {
    hide Merged, Mergeable, Leaves, CountBelow, AreDeltas, SortedBy, Sorted, NoDuplicates, ToSet, CopyEnd;
    ghost var deltas, before := sss.Contents(), out.Contents();
    ghost var k := CountBelow(high, deltas);
    MergeStart(items, deltas, k);
    var copyEnd := CopyEnd(high, items);
    var copyStart: nat := 0;
    var sssEnd := FindWindowEnd(high, sss);
    ext := [];
    ghost var p: nat := 0;
    while sss.start != sssEnd
      invariant p <= k && sss.start == sssEnd - (k - p) && sss.end == old(sss.end)
      invariant AtRecord(sss, out, deltas, p, before, ext)
      invariant Merged(items, deltas, k, p, copyStart, false, ext) && copyStart <= copyEnd
      decreases k - p
    {
      copyStart, p, ext := MergePosition(items, high, sss, sssEnd, out, deltas, p, copyStart, before, ext, result);
    }
    CopyRange(items, deltas, k, k, copyStart, copyEnd, ext);
    PartOfResult(high, items, deltas, k, copyEnd, false, ext + items[copyStart..copyEnd], result);
    out.PushBackRange(items, copyStart, copyEnd);
    assert before + ext + items[copyStart..copyEnd] == before + (ext + items[copyStart..copyEnd]);
    ext := ext + items[copyStart..copyEnd];
    WholeResult(high, items, deltas, ext, result);
  }

  // ---------- gathering the records of a chain ----------

  // What the window S and the list D of seen pairs hold when the walk has reached `node` in a
  // branch with high key `high`: the topmost records of the branch's pairs, each with its place in
  // the base array the branch leads to, and records that belong to branches further right.
  ghost predicate Gathered(high: KeyNodeIDPair, node: Chain, S: seq<Chain>, D: seq<KeyValuePair>) {
    && AreDeltas(S) && SortedBy(DeltaLess, S)
    && (forall i :: 0 <= i < |S| ==> AboveLow(node.Low(), S[i].item.first))
    && (forall i :: 0 <= i < |S| && BelowHigh(high, S[i].item.first) ==>
          S[i].indexPair == BaseLocate(BaseItems(node, S[i].item.first), S[i].item).indexPair)
    && forall x: KeyValuePair :: AboveLow(node.Low(), x.first) && BelowHigh(high, x.first) ==>
         (x in D <==> Overrides(S, x))
  }

  // One record enters the window.
  lemma EnterKeepsDeltas(S: seq<Chain>, d: Chain)
    requires AreDeltas(S) && SortedBy(DeltaLess, S) && (d.Insert? || d.Delete?) && !Overrides(S, d.item)
    ensures var S' := InsertAt(S, UpperBoundBy(DeltaLess, S, d), d);
            AreDeltas(S') && SortedBy(DeltaLess, S')
  {
    DeltaLessIsStrict();
    InsertNoDedupKeepsOrder(DeltaLess, S, d);
    EnterKeepsDistinct(S, UpperBoundBy(DeltaLess, S, d), d);
  }

  lemma EnterKeepsDistinct(S: seq<Chain>, p: nat, d: Chain)
    requires AreDeltas(S) && p <= |S| && (d.Insert? || d.Delete?) && !Overrides(S, d.item)
    ensures AreDeltas(InsertAt(S, p, d))
  {
    InsertAtElements(S, p, d);
  }

  lemma EnterOverrides(S: seq<Chain>, p: nat, d: Chain, x: KeyValuePair)
    requires AreDeltas(S) && p <= |S| && AreDeltas(InsertAt(S, p, d)) && (d.Insert? || d.Delete?)
    ensures var S' := InsertAt(S, p, d);
            && (Overrides(S', x) <==> Overrides(S, x) || x == d.item)
            && (InsertsUpTo(S', |S'|, x) <==> InsertsUpTo(S, |S|, x) || (x == d.item && d.Insert?))
  {
    var S' := InsertAt(S, p, d);
    InsertAtElements(S, p, d);
    hide InsertAt;
    if Overrides(S, x) {
      var i :| 0 <= i < |S| && S[i].item == x;
      assert S'[if i < p then i else i + 1].item == x;
    }
    if InsertsUpTo(S, |S|, x) {
      var i :| 0 <= i < |S| && S[i].item == x && S[i].Insert?;
      assert S'[if i < p then i else i + 1] == S[i];
    }
    if x == d.item {
      assert S'[p].item == x;
    }
  }

  // The part of the window that belongs further right is not touched.
  lemma EnterKeepsTheRest(high: KeyNodeIDPair, S: seq<Chain>, d: Chain)
    requires AreDeltas(S) && SortedBy(DeltaLess, S) && (d.Insert? || d.Delete?) && !Overrides(S, d.item)
    requires BelowHigh(high, d.item.first)
    ensures var S' := InsertAt(S, UpperBoundBy(DeltaLess, S, d), d);
            AreDeltas(S') && S'[CountBelow(high, S')..] == S[CountBelow(high, S)..]
  {
    EnterKeepsDistinct(S, UpperBoundBy(DeltaLess, S, d), d);
    var p, k := UpperBoundBy(DeltaLess, S, d), CountBelow(high, S);
    var S' := InsertAt(S, p, d);
    assert p <= k by {
      assert k < |S| ==> DeltaLess(d, S[k]);
    }
    EnterCount(high, S, p, d);
  }

  lemma EnterCount(high: KeyNodeIDPair, S: seq<Chain>, p: nat, d: Chain)
    requires AreDeltas(S) && (d.Insert? || d.Delete?) && BelowHigh(high, d.item.first)
    requires p <= CountBelow(high, S) && AreDeltas(InsertAt(S, p, d))
    ensures var S' := InsertAt(S, p, d); S'[CountBelow(high, S')..] == S[CountBelow(high, S)..]
  {
    var k := CountBelow(high, S);
    var S' := InsertAt(S, p, d);
    InsertAtElements(S, p, d);
    CountBelowIs(high, S', k + 1);
  }

  lemma CountBelowIs(high: KeyNodeIDPair, S: seq<Chain>, k: nat)
    requires AreDeltas(S) && k <= |S|
    requires forall i :: 0 <= i < k ==> BelowHigh(high, S[i].item.first)
    requires k < |S| ==> !BelowHigh(high, S[k].item.first)
    ensures CountBelow(high, S) == k
  {
  }

  // Passing an insert or delete record: the topmost record of a pair decides.
  lemma PassRecord(high: KeyNodeIDPair, node: Chain, S: seq<Chain>, D: seq<KeyValuePair>,
                   result: set<KeyValuePair>, S': seq<Chain>, D': seq<KeyValuePair>)
    requires WellFormed(node) && (node.Insert? || node.Delete?) && node.High() == high
    requires Gathered(high, node, S, D) && Leaves(high, Contents(node), S, result)
    requires if node.item in D then S' == S && D' == D
             else S' == InsertAt(S, UpperBoundBy(DeltaLess, S, node), node) && D' == D + [node.item]
    ensures Gathered(high, node.child, S', D') && AreDeltas(S') && Leaves(high, Contents(node.child), S', result)
    ensures S'[CountBelow(high, S')..] == S[CountBelow(high, S)..]
  {
    hide UpperBoundBy, InsertAt, SortedBy, CountBelow, BaseLocate, Locate, Contents, Live, OverridesUpTo, WellFormed;
    RecordParts(node);
    if node.item in D {
      assert Overrides(S, node.item);
      forall x: KeyValuePair ensures Live(x in Contents(node), S, x) == Live(x in Contents(node.child), S, x) {
        KnownKeepsLive(node, S, x);
      }
    } else {
      EnterKeepsDeltas(S, node);
      EnterKeepsTheRest(high, S, node);
      EnterKeepsIndexes(high, node, S, UpperBoundBy(DeltaLess, S, node));
      forall x: KeyValuePair
        ensures Overrides(S', x) <==> Overrides(S, x) || x == node.item
        ensures Live(x in Contents(node), S, x) == Live(x in Contents(node.child), S', x)
      {
        EnterOverrides(S, UpperBoundBy(DeltaLess, S, node), node, x);
        EnterKeepsLive(node, S, S', x);
      }
    }
  }

  lemma RecordParts(node: Chain)
    requires WellFormed(node) && (node.Insert? || node.Delete?)
    ensures node.Low() == node.child.Low() && node.High() == node.child.High() && InRange(node, node.item.first)
    ensures forall key :: BaseItems(node, key) == BaseItems(node.child, key)
  {
  }

  lemma KnownKeepsLive(node: Chain, S: seq<Chain>, x: KeyValuePair)
    requires (node.Insert? || node.Delete?) && AreDeltas(S) && Overrides(S, node.item)
    ensures Live(x in Contents(node), S, x) == Live(x in Contents(node.child), S, x)
  {
  }

  lemma EnterKeepsLive(node: Chain, S: seq<Chain>, S': seq<Chain>, x: KeyValuePair)
    requires (node.Insert? || node.Delete?) && AreDeltas(S) && AreDeltas(S') && !Overrides(S, node.item)
    requires Overrides(S', x) <==> Overrides(S, x) || x == node.item
    requires InsertsUpTo(S', |S'|, x) <==> InsertsUpTo(S, |S|, x) || (x == node.item && node.Insert?)
    ensures Live(x in Contents(node), S, x) == Live(x in Contents(node.child), S', x)
  {
  }

  lemma EnterKeepsIndexes(high: KeyNodeIDPair, node: Chain, S: seq<Chain>, p: nat)
    requires WellFormed(node) && (node.Insert? || node.Delete?) && AreDeltas(S) && p <= |S|
    requires AreDeltas(InsertAt(S, p, node))
    requires forall i :: 0 <= i < |S| ==> AboveLow(node.Low(), S[i].item.first)
    requires forall i :: 0 <= i < |S| && BelowHigh(high, S[i].item.first) ==>
               S[i].indexPair == BaseLocate(BaseItems(node, S[i].item.first), S[i].item).indexPair
    ensures var S' := InsertAt(S, p, node);
            forall i :: 0 <= i < |S'| ==>
              && AboveLow(node.child.Low(), S'[i].item.first)
              && (BelowHigh(high, S'[i].item.first) ==>
                    S'[i].indexPair == BaseLocate(BaseItems(node.child, S'[i].item.first), S'[i].item).indexPair)
  {
    InsertAtElements(S, p, node);
    LocateIsExact(node.child, node.item);
    var S' := InsertAt(S, p, node);
    hide InsertAt, BaseLocate, Locate, Contents;
    forall i | 0 <= i < |S'|
      ensures AboveLow(node.child.Low(), S'[i].item.first)
      ensures BelowHigh(high, S'[i].item.first) ==>
        S'[i].indexPair == BaseLocate(BaseItems(node.child, S'[i].item.first), S'[i].item).indexPair
    {
      assert S'[i] == if i < p then S[i] else if i == p then node else S[i - 1];
    }
  }

  lemma PassSplit(high: KeyNodeIDPair, node: Chain, S: seq<Chain>, D: seq<KeyValuePair>, result: set<KeyValuePair>)
    requires WellFormed(node) && node.Split? && node.High() == high
    requires Gathered(high, node, S, D) && Leaves(high, Contents(node), S, result)
    ensures Gathered(high, node.child, S, D) && Leaves(high, Contents(node.child), S, result)
  {
  }

  lemma ReadyToMerge(high: KeyNodeIDPair, node: Chain, S: seq<Chain>, D: seq<KeyValuePair>)
    requires WellFormed(node) && node.Leaf? && Gathered(high, node, S, D)
    ensures AreDeltas(S) && Mergeable(node.items, S, CountBelow(high, S))
    ensures Contents(node) == ToSet(node.items)
  {
  }

  lemma GatheredDeltas(high: KeyNodeIDPair, node: Chain, S: seq<Chain>, D: seq<KeyValuePair>)
    requires Gathered(high, node, S, D)
    ensures AreDeltas(S)
  {
  }

  // ---------- merge records ----------

  function LeftPart(key: int, result: set<KeyValuePair>): set<KeyValuePair> {
    set x | x in result && x.first < key
  }

  function RightPart(key: int, result: set<KeyValuePair>): set<KeyValuePair> {
    set x | x in result && x.first >= key
  }

  lemma PartsAddUp(key: int, result: set<KeyValuePair>)
    ensures |LeftPart(key, result)| + |RightPart(key, result)| == |result|
  {
    assert result == LeftPart(key, result) + RightPart(key, result);
  }

  // The left branch of a merge record can be collected on its own.
  lemma EnterLeft(node: Chain, S: seq<Chain>, D: seq<KeyValuePair>, result: set<KeyValuePair>)
    requires WellFormed(node) && node.Merge?
    requires Gathered(node.High(), node, S, D) && Leaves(node.High(), Contents(node), S, result)
    ensures Gathered(node.child.High(), node.child, S, D)
    ensures Leaves(node.child.High(), Contents(node.child), S, LeftPart(node.deleteItem.first, result))
  {
    ContentsInRange(node);
    ContentsInRange(node.child);
    ContentsInRange(node.right);
  }

  // And then the right branch, with what the left branch left over.
  lemma EnterRight(node: Chain, S: seq<Chain>, D: seq<KeyValuePair>, result: set<KeyValuePair>,
                   S': seq<Chain>, D': seq<KeyValuePair>)
    requires WellFormed(node) && node.Merge?
    requires Gathered(node.High(), node, S, D) && Leaves(node.High(), Contents(node), S, result)
    requires S' == S[CountBelow(node.child.High(), S)..]
    requires forall x: KeyValuePair :: !InRange(node.child, x.first) ==> (x in D' <==> x in D)
    ensures Gathered(node.right.High(), node.right, S', D')
    ensures Leaves(node.right.High(), Contents(node.right), S', RightPart(node.deleteItem.first, result))
    ensures S'[CountBelow(node.High(), S')..] == S[CountBelow(node.High(), S)..]
  {
    var key := node.deleteItem;
    ContentsInRange(node.child);
    ContentsInRange(node.right);
    RightOf(key, S);
    forall x: KeyValuePair | x.first >= key.first
      ensures Overrides(S', x) <==> Overrides(S, x)
      ensures InsertsUpTo(S', |S'|, x) <==> InsertsUpTo(S, |S|, x)
    {
      OverridesRightOf(key, S, x);
    }
    CountBelowRightOf(key, node.High(), S);
    RightGathered(node, S, D, S', D');
    RightLeaves(node, S, result, S');
  }

  lemma RightGathered(node: Chain, S: seq<Chain>, D: seq<KeyValuePair>, S': seq<Chain>, D': seq<KeyValuePair>)
    requires node.Merge? && node.right.Low().second != INVALID_NODE_ID
    requires node.child.High() == node.deleteItem && node.deleteItem.second != INVALID_NODE_ID
    requires node.right.Low().first == node.deleteItem.first
    requires node.Low().second != INVALID_NODE_ID ==> node.Low().first < node.deleteItem.first
    requires Gathered(node.High(), node, S, D)
    requires exists k :: 0 <= k <= |S| && S' == S[k..]
    requires AreDeltas(S') && SortedBy(DeltaLess, S')
    requires forall i :: 0 <= i < |S'| ==> S'[i].item.first >= node.deleteItem.first
    requires forall x: KeyValuePair :: x.first >= node.deleteItem.first ==> (Overrides(S', x) <==> Overrides(S, x))
    requires forall x: KeyValuePair :: !InRange(node.child, x.first) ==> (x in D' <==> x in D)
    ensures Gathered(node.right.High(), node.right, S', D')
  {
    hide SortedBy, AreDeltas, LiveUpTo, OverridesUpTo;
    var k :| 0 <= k <= |S| && S' == S[k..];
    forall i | 0 <= i < |S'| ensures S'[i] == S[k + i] {}
  }

  lemma RightLeaves(node: Chain, S: seq<Chain>, result: set<KeyValuePair>, S': seq<Chain>)
    requires node.Merge? && node.deleteItem.second != INVALID_NODE_ID
    requires AreDeltas(S) && AreDeltas(S') && Leaves(node.High(), Contents(node), S, result)
    requires forall x :: x in Contents(node.child) ==> x.first < node.deleteItem.first
    requires forall x :: x in Contents(node.right) ==> x.first >= node.deleteItem.first
    requires forall x: KeyValuePair :: x.first >= node.deleteItem.first ==>
      (Overrides(S', x) <==> Overrides(S, x)) && (InsertsUpTo(S', |S'|, x) <==> InsertsUpTo(S, |S|, x))
    requires forall i :: 0 <= i < |S'| ==> S'[i].item.first >= node.deleteItem.first
    ensures Leaves(node.right.High(), Contents(node.right), S', RightPart(node.deleteItem.first, result))
  {
    forall x: KeyValuePair
      ensures x in RightPart(node.deleteItem.first, result)
         <==> BelowHigh(node.right.High(), x.first) && Live(x in Contents(node.right), S', x)
    {
    }
  }

  lemma RightOf(key: KeyNodeIDPair, S: seq<Chain>)
    requires AreDeltas(S) && SortedBy(DeltaLess, S) && key.second != INVALID_NODE_ID
    ensures var S' := S[CountBelow(key, S)..];
            && AreDeltas(S') && SortedBy(DeltaLess, S')
            && forall i :: 0 <= i < |S'| ==> S'[i].item.first >= key.first
  {
    var k := CountBelow(key, S);
    forall i | 0 <= i < |S| - k
      ensures S[k..][i].item.first >= key.first
    {
      AboveStaysAbove(key, S, k + i);
    }
  }

  lemma OverridesRightOf(key: KeyNodeIDPair, S: seq<Chain>, x: KeyValuePair)
    requires AreDeltas(S) && SortedBy(DeltaLess, S) && key.second != INVALID_NODE_ID && x.first >= key.first
    ensures var S' := S[CountBelow(key, S)..];
            && AreDeltas(S')
            && (Overrides(S', x) <==> Overrides(S, x))
            && (InsertsUpTo(S', |S'|, x) <==> InsertsUpTo(S, |S|, x))
  {
    hide CountBelow, SortedBy, DeltaLess, AreDeltas, Overrides, InsertsUpTo;
    SuffixKeeps(S, CountBelow(key, S), x);
  }

  lemma SuffixKeeps(S: seq<Chain>, k: nat, x: KeyValuePair)
    requires AreDeltas(S) && k <= |S| && forall i :: 0 <= i < k ==> S[i].item != x
    ensures AreDeltas(S[k..]) && (Overrides(S[k..], x) <==> Overrides(S, x))
    ensures InsertsUpTo(S[k..], |S[k..]|, x) <==> InsertsUpTo(S, |S|, x)
  {
    var S' := S[k..];
    SuffixIsDeltas(S, k);
    hide AreDeltas;
    if Overrides(S, x) {
      var i :| 0 <= i < |S| && S[i].item == x;
      assert S'[i - k] == S[i];
    }
    if InsertsUpTo(S, |S|, x) {
      var i :| 0 <= i < |S| && S[i].item == x && S[i].Insert?;
      assert S'[i - k] == S[i];
    }
  }

  lemma SuffixIsDeltas(S: seq<Chain>, k: nat)
    requires AreDeltas(S) && k <= |S|
    ensures AreDeltas(S[k..])
  {
  }

  lemma CountBelowRightOf(key: KeyNodeIDPair, high: KeyNodeIDPair, S: seq<Chain>)
    requires AreDeltas(S) && SortedBy(DeltaLess, S) && key.second != INVALID_NODE_ID && BelowHigh(high, key.first)
    ensures var S' := S[CountBelow(key, S)..];
            AreDeltas(S') && S'[CountBelow(high, S')..] == S[CountBelow(high, S)..]
  {
    var k := CountBelow(key, S);
    var S' := S[k..];
    var m, m' := CountBelow(high, S), CountBelow(high, S');
    assert k <= m;
    assert m < |S| ==> S[m] == S'[m - k];
    assert m' < |S'| ==> S'[m'] == S[k + m'];
    assert m == k + m';
  }

  lemma PartsConcatenate(key: int, left: seq<KeyValuePair>, right: seq<KeyValuePair>, result: set<KeyValuePair>)
    requires Sorted(left) && NoDuplicates(left) && ToSet(left) == LeftPart(key, result)
    requires Sorted(right) && NoDuplicates(right) && ToSet(right) == RightPart(key, result)
    ensures Sorted(left + right) && NoDuplicates(left + right) && ToSet(left + right) == result
  {
    var both := left + right;
    forall i | 0 <= i < |left| ensures left[i].first < key { assert left[i] in ToSet(left); }
    forall i | 0 <= i < |right| ensures right[i].first >= key { assert right[i] in ToSet(right); }
    forall x ensures x in both <==> x in result {
      assert x in both <==> x in ToSet(left) || x in ToSet(right);
    }
  }

  // ---------- the consolidation itself ----------

  // The scratch objects of one consolidation: memory apart, and room for every record below.
  ghost predicate Scratch(sss: SortedSmallSet<Chain>, seen: BloomFilter<KeyValuePair>, out: ElasticNode<KeyValuePair>,
                          depth: nat)
    reads sss, seen, seen.bits, seen.data, out
  {
    && sss.Valid() && seen.Valid() && out.Valid() && sss.less == DeltaLess
    && Separate(sss, out) && sss as object != seen && out as object != seen
    && sss.data as object !in {seen.bits, seen.data}
    && out.data != seen.data && out.data as object != seen.bits
    && sss.end + depth <= sss.data.Length && seen.count + depth <= seen.data.Length
  }

  // A record that is the topmost one for its pair enters the window.
  method Gather(node: Chain, sss: SortedSmallSet<Chain>, seen: BloomFilter<KeyValuePair>,
                out: ElasticNode<KeyValuePair>, ghost high: KeyNodeIDPair, ghost result: set<KeyValuePair>)
    requires WellFormed(node) && (node.Insert? || node.Delete?) && node.High() == high
    requires Scratch(sss, seen, out, node.Depth())
    requires Gathered(high, node, sss.Contents(), seen.Values())
    requires Leaves(high, Contents(node), sss.Contents(), result)
    modifies sss, sss.data, seen, seen.bits, seen.data
    ensures Scratch(sss, seen, out, node.child.Depth()) && sss.start == old(sss.start)
    ensures sss.end + node.child.Depth() <= old(sss.end) + node.Depth()
    ensures Gathered(high, node.child, sss.Contents(), seen.Values())
    ensures AreDeltas(sss.Contents()) && Leaves(high, Contents(node.child), sss.Contents(), result)
    ensures sss.Contents()[CountBelow(high, sss.Contents())..]
         == old(sss.Contents()[CountBelow(high, sss.Contents())..])
    ensures seen.Values() == old(seen.Values()) || seen.Values() == old(seen.Values()) + [node.item]
  {
    hide Gathered, Leaves, CountBelow, Contents, WellFormed;
    ghost var S, D := sss.Contents(), seen.Values();
    var exists_ := seen.Exists(node.item);
    if !exists_ {
      seen.Insert(node.item);
      sss.InsertNoDedup(node);
    }
    PassRecord(high, node, S, D, result, sss.Contents(), seen.Values());
  }

  // bwtree.h:4562-4736
  method CollectAllValuesOnLeafRecursive(c: Chain, sss: SortedSmallSet<Chain>, seen: BloomFilter<KeyValuePair>,
                                         out: ElasticNode<KeyValuePair>, ghost result: set<KeyValuePair>)
    returns (ghost ext: seq<KeyValuePair>)
    requires WellFormed(c) && !c.Remove?
    requires Scratch(sss, seen, out, c.Depth())
    requires Gathered(c.High(), c, sss.Contents(), seen.Values())
    requires Leaves(c.High(), Contents(c), sss.Contents(), result)
    requires out.end + |result| <= out.data.Length
    modifies sss, sss.data, seen, seen.bits, seen.data, out, out.data
    ensures Scratch(sss, seen, out, 0)
    ensures sss.end <= old(sss.end) + c.Depth() && seen.count <= old(seen.count) + c.Depth()
    ensures sss.Contents() == old(sss.Contents()[CountBelow(c.High(), sss.Contents())..])
    ensures forall x: KeyValuePair :: !InRange(c, x.first) ==> (x in seen.Values() <==> x in old(seen.Values()))
    ensures out.Contents() == old(out.Contents()) + ext
    ensures Sorted(ext) && NoDuplicates(ext) && ToSet(ext) == result
    decreases c, 2
  {
    hide Gathered, Leaves, CountBelow, Contents, Sorted, NoDuplicates, ToSet, AreDeltas;
    var high := c.High();
    var node := c;
    GatheredDeltas(high, c, sss.Contents(), seen.Values());
    ghost var rest := sss.Contents()[CountBelow(high, sss.Contents())..];
    while true
      invariant WellFormed(node) && !node.Remove? && node.Low() == c.Low()
      invariant node.High() == high || node.Leaf?
      invariant node == c || node < c
      invariant Scratch(sss, seen, out, node.Depth()) && unchanged(out) && unchanged(out.data)
      invariant sss.end + node.Depth() <= old(sss.end) + c.Depth()
      invariant seen.count + node.Depth() <= old(seen.count) + c.Depth()
      invariant Gathered(high, node, sss.Contents(), seen.Values())
      invariant AreDeltas(sss.Contents()) && Leaves(high, Contents(node), sss.Contents(), result)
      invariant sss.Contents()[CountBelow(high, sss.Contents())..] == rest
      invariant forall x: KeyValuePair :: !InRange(c, x.first) ==> (x in seen.Values() <==> x in old(seen.Values()))
      decreases node
    {
      match node {
        case Leaf(_, _, items) =>
          ReadyToMerge(high, node, sss.Contents(), seen.Values());
          ext := CopyBase(items, high, sss, out, result);
          return;
        case Insert(_, _, child) =>
          Gather(node, sss, seen, out, high, result);
          node := child;
        case Delete(_, _, child) =>
          Gather(node, sss, seen, out, high, result);
          node := child;
        case Split(_, _, child) =>
          PassSplit(high, node, sss.Contents(), seen.Values(), result);
          GatheredDeltas(high, child, sss.Contents(), seen.Values());
          node := child;
        case Merge(_, _, _) =>
          ext := CollectBothBranches(node, sss, seen, out, result);
          return;
      }
    }
  }

  // A merge record: the left branch first, then the right one (bwtree.h:4719-4728).
  method CollectBothBranches(node: Chain, sss: SortedSmallSet<Chain>, seen: BloomFilter<KeyValuePair>,
                             out: ElasticNode<KeyValuePair>, ghost result: set<KeyValuePair>)
    returns (ghost ext: seq<KeyValuePair>)
    requires WellFormed(node) && node.Merge?
    requires Scratch(sss, seen, out, node.Depth())
    requires Gathered(node.High(), node, sss.Contents(), seen.Values())
    requires AreDeltas(sss.Contents()) && Leaves(node.High(), Contents(node), sss.Contents(), result)
    requires out.end + |result| <= out.data.Length
    modifies sss, sss.data, seen, seen.bits, seen.data, out, out.data
    ensures Scratch(sss, seen, out, 0)
    ensures sss.end <= old(sss.end) + node.Depth() && seen.count <= old(seen.count) + node.Depth()
    ensures sss.Contents() == old(sss.Contents()[CountBelow(node.High(), sss.Contents())..])
    ensures forall x: KeyValuePair :: !InRange(node, x.first) ==> (x in seen.Values() <==> x in old(seen.Values()))
    ensures out.Contents() == old(out.Contents()) + ext
    ensures Sorted(ext) && NoDuplicates(ext) && ToSet(ext) == result
    decreases node, 1
  {
    hide Gathered, Leaves, CountBelow, Contents, Sorted, NoDuplicates, ToSet, AreDeltas, InRange, LeftPart, RightPart;
    var key := node.deleteItem.first;
    ghost var before := out.Contents();
    MergeRange(node);
    ghost var left := CollectLeftBranch(node, sss, seen, out, result);
    ghost var right := CollectAllValuesOnLeafRecursive(node.right, sss, seen, out, RightPart(key, result));
    PartsConcatenate(key, left, right, result);
    assert before + left + right == before + (left + right);
    ext := left + right;
  }

  method CollectLeftBranch(node: Chain, sss: SortedSmallSet<Chain>, seen: BloomFilter<KeyValuePair>,
                           out: ElasticNode<KeyValuePair>, ghost result: set<KeyValuePair>)
    returns (ghost ext: seq<KeyValuePair>)
    requires WellFormed(node) && node.Merge?
    requires Scratch(sss, seen, out, node.Depth())
    requires Gathered(node.High(), node, sss.Contents(), seen.Values())
    requires AreDeltas(sss.Contents()) && Leaves(node.High(), Contents(node), sss.Contents(), result)
    requires out.end + |result| <= out.data.Length
    modifies sss, sss.data, seen, seen.bits, seen.data, out, out.data
    ensures Scratch(sss, seen, out, node.right.Depth())
    ensures sss.end <= old(sss.end) + node.child.Depth() && seen.count <= old(seen.count) + node.child.Depth()
    ensures Gathered(node.right.High(), node.right, sss.Contents(), seen.Values())
    ensures AreDeltas(sss.Contents())
    ensures Leaves(node.right.High(), Contents(node.right), sss.Contents(), RightPart(node.deleteItem.first, result))
    ensures sss.Contents()[CountBelow(node.High(), sss.Contents())..]
         == old(sss.Contents()[CountBelow(node.High(), sss.Contents())..])
    ensures out.end + |RightPart(node.deleteItem.first, result)| <= out.data.Length
    ensures forall x: KeyValuePair :: !InRange(node.child, x.first) ==> (x in seen.Values() <==> x in old(seen.Values()))
    ensures out.Contents() == old(out.Contents()) + ext
    ensures Sorted(ext) && NoDuplicates(ext) && ToSet(ext) == LeftPart(node.deleteItem.first, result)
    decreases node, 0
  {
    hide Gathered, Leaves, CountBelow, Contents, Sorted, NoDuplicates, ToSet, AreDeltas, InRange, LeftPart, RightPart;
    var key := node.deleteItem.first;
    ghost var S, D := sss.Contents(), seen.Values();
    EnterLeft(node, S, D, result);
    PartsAddUp(key, result);
    ext := CollectAllValuesOnLeafRecursive(node.child, sss, seen, out, LeftPart(key, result));
    DistinctSize(ext);
    EnterRight(node, S, D, result, sss.Contents(), seen.Values());
    GatheredDeltas(node.right.High(), node.right, sss.Contents(), seen.Values());
  }

  lemma MergeRange(node: Chain)
    requires WellFormed(node) && node.Merge?
    ensures forall k :: InRange(node.child, k) || InRange(node.right, k) ==> InRange(node, k)
  {
    ContentsInRange(node.child);
    ContentsInRange(node.right);
  }

  // What replaces a chain: a base node over the consolidated items.
  ghost predicate Consolidates(c: Chain, items: seq<KeyValuePair>) {
    Sorted(items) && NoDuplicates(items) && ToSet(items) == Contents(c)
  }

  // Consolidation is log replay, bwtree.h:4455-4540: for every well-formed chain and every hash
  // function the new array holds exactly the logical items, sorted and without duplicates, fills
  // the allocated node exactly, and needs no more scratch space than the depth of the chain.
  method CollectAllValuesOnLeaf(c: Chain, hash: KeyValuePair -> bv64) returns (leaf: ElasticNode<KeyValuePair>)
    requires WellFormed(c) && !c.Remove?
    ensures fresh(leaf) && fresh(leaf.data) && leaf.Valid()
    ensures leaf.data.Length == leaf.end == c.ItemCount()
    ensures Consolidates(c, leaf.Contents())
  {
    ItemCountIsExact(c);
    leaf := new ElasticNode<KeyValuePair>(c.ItemCount());
    var seenData := new KeyValuePair[c.Depth()];
    var seen := new BloomFilter<KeyValuePair>(seenData, hash);
    var sssData := new Chain[c.Depth()];
    var sss := new SortedSmallSet<Chain>(sssData, DeltaLess, (a, b) => false);
    StartGathering(c, sss.Contents(), seen.Values());
    ghost var items := CollectAllValuesOnLeafRecursive(c, sss, seen, leaf, Contents(c));
    DistinctSize(items);
    assert leaf.Contents() == items;
  }

  lemma StartGathering(c: Chain, S: seq<Chain>, D: seq<KeyValuePair>)
    requires WellFormed(c) && S == [] && D == []
    ensures Gathered(c.High(), c, S, D) && Leaves(c.High(), Contents(c), S, Contents(c))
  {
    ContentsInRange(c);
  }

  // Consolidation does not change what the node means.
  lemma ConsolidatedChain(c: Chain, items: seq<KeyValuePair>)
    requires WellFormed(c) && !c.Remove? && Consolidates(c, items)
    ensures var leaf := Leaf(c.Low(), c.High(), items);
            && WellFormed(leaf) && Contents(leaf) == Contents(c)
            && leaf.Low() == c.Low() && leaf.High() == c.High() && leaf.ItemCount() == c.ItemCount()
  {
    ContentsInRange(c);
    ItemCountIsExact(c);
    DistinctSize(items);
    forall i | 0 <= i < |items| ensures InRange(c, items[i].first) { assert items[i] in ToSet(items); }
  }
}
