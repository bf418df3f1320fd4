// The inner loop of leaf consolidation: merging the sorted window of delta records into the base
// array by index (bwtree.h:4574-4679).
module LeafMerge {
  import opened Pairs
  import opened LeafChain
  import opened SortedSmallSets
  import opened ElasticNodes

  // The delta records gathered from a chain, topmost record of each pair only.
  ghost predicate AreDeltas(deltas: seq<Chain>) {
    && (forall i :: 0 <= i < |deltas| ==> deltas[i].Insert? || deltas[i].Delete?)
    && (forall i, j :: 0 <= i < j < |deltas| ==> deltas[i].item != deltas[j].item)
  }

  // The order the window is kept in: by key, then by position in the base array (bwtree.h:4497-4510).
  predicate DeltaLess(a: Chain, b: Chain) {
    if (a.Insert? || a.Delete?) && (b.Insert? || b.Delete?) then
      a.item.first < b.item.first || (a.item.first == b.item.first && a.indexPair.index < b.indexPair.index)
    else
      (b.Insert? || b.Delete?) && !(a.Insert? || a.Delete?)
  }

  ghost predicate OverridesUpTo(deltas: seq<Chain>, p: nat, x: KeyValuePair)
    requires AreDeltas(deltas) && p <= |deltas|
  {
    exists i :: 0 <= i < p && deltas[i].item == x
  }

  ghost predicate InsertsUpTo(deltas: seq<Chain>, p: nat, x: KeyValuePair)
    requires AreDeltas(deltas) && p <= |deltas|
  {
    exists i :: 0 <= i < p && deltas[i].item == x && deltas[i].Insert?
  }

  // Whether a pair is there once the first p records have been applied on top of `present`.
  ghost predicate LiveUpTo(present: bool, deltas: seq<Chain>, p: nat, x: KeyValuePair)
    requires AreDeltas(deltas) && p <= |deltas|
  {
    if OverridesUpTo(deltas, p, x) then InsertsUpTo(deltas, p, x) else present
  }

  ghost predicate Overrides(deltas: seq<Chain>, x: KeyValuePair)
    requires AreDeltas(deltas)
  {
    OverridesUpTo(deltas, |deltas|, x)
  }

  ghost predicate Live(present: bool, deltas: seq<Chain>, x: KeyValuePair)
    requires AreDeltas(deltas)
  {
    LiveUpTo(present, deltas, |deltas|, x)
  }

  // Each of the first p records knows the place of its item in the base array.
  ghost predicate IndexedIn(items: seq<KeyValuePair>, deltas: seq<Chain>, p: nat)
    requires AreDeltas(deltas) && p <= |deltas|
  {
    forall i :: 0 <= i < p ==> deltas[i].indexPair == BaseLocate(items, deltas[i].item).indexPair
  }

  ghost predicate Mergeable(items: seq<KeyValuePair>, deltas: seq<Chain>, k: nat) {
    && Sorted(items) && NoDuplicates(items)
    && AreDeltas(deltas) && SortedBy(DeltaLess, deltas) && k <= |deltas| && IndexedIn(items, deltas, k)
  }

  lemma DeltaLessIsStrict()
    ensures StrictOrder(DeltaLess)
  {
  }

  // Positions grow along the window.
  lemma IndexGrows(items: seq<KeyValuePair>, deltas: seq<Chain>, k: nat, i: nat, j: nat)
    requires Mergeable(items, deltas, k) && i <= j < k
    ensures deltas[i].item.first <= deltas[j].item.first
    ensures deltas[i].indexPair.index <= deltas[j].indexPair.index <= |items|
    ensures i < j && deltas[i].indexPair.present && deltas[i].indexPair.index == deltas[j].indexPair.index ==>
              !deltas[j].indexPair.present
  {
    BaseLocateMeaning(items, deltas[i].item);
    BaseLocateMeaning(items, deltas[j].item);
    if i < j {
      assert !DeltaLess(deltas[j], deltas[i]);
    }
  }

  // The output after p records and base positions below c holds exactly what they leave.
  ghost predicate Holds(items: seq<KeyValuePair>, deltas: seq<Chain>, p: nat, c: nat, out: seq<KeyValuePair>)
    requires AreDeltas(deltas) && p <= |deltas| && c <= |items|
  {
    forall x :: x in out <==> LiveUpTo(x in items[..c], deltas, p, x)
  }

  // It is sorted and not above anything still to come. `over` tells that base position c is
  // overwritten by a record already drained.
  ghost predicate Merged(items: seq<KeyValuePair>, deltas: seq<Chain>, k: nat, p: nat, c: nat, over: bool,
                         out: seq<KeyValuePair>)
    requires AreDeltas(deltas)
  {
    && p <= k <= |deltas| && c <= |items|
    && Sorted(out) && NoDuplicates(out) && Holds(items, deltas, p, c, out)
    && (|out| > 0 && c < |items| ==> out[|out| - 1].first <= items[c].first)
    && (|out| > 0 && p < k ==> out[|out| - 1].first <= deltas[p].item.first)
    && (p < k ==> c <= deltas[p].indexPair.index)
    && (forall q :: 0 <= q < p && deltas[q].indexPair.present ==>
          deltas[q].indexPair.index < c || (over && deltas[q].indexPair.index == c))
    && (over ==> c < |items| && OverridesUpTo(deltas, p, items[c]))
  }

  lemma AppendKeepsOrder(out: seq<KeyValuePair>, x: KeyValuePair)
    requires Sorted(out) && NoDuplicates(out) && x !in out
    requires |out| > 0 ==> out[|out| - 1].first <= x.first
    ensures Sorted(out + [x]) && NoDuplicates(out + [x])
  {
  }

  // A base item that no drained record overwrites.
  lemma NotOverridden(items: seq<KeyValuePair>, deltas: seq<Chain>, k: nat, p: nat, c: nat)
    requires Mergeable(items, deltas, k) && p <= k && c < |items|
    requires forall q :: 0 <= q < p && deltas[q].indexPair.present ==> deltas[q].indexPair.index < c
    ensures !OverridesUpTo(deltas, p, items[c])
  {
    if OverridesUpTo(deltas, p, items[c]) {
      var q :| 0 <= q < p && deltas[q].item == items[c];
      BaseLocateMeaning(items, items[c]);
    }
  }

  lemma CopyHolds(items: seq<KeyValuePair>, deltas: seq<Chain>, p: nat, c: nat, out: seq<KeyValuePair>)
    requires NoDuplicates(items) && AreDeltas(deltas) && p <= |deltas| && c < |items|
    requires Holds(items, deltas, p, c, out) && !OverridesUpTo(deltas, p, items[c])
    ensures Holds(items, deltas, p, c + 1, out + [items[c]])
    ensures items[c] !in out
  {
    assert items[..c + 1] == items[..c] + [items[c]];
    assert items[c] !in items[..c];
  }

  // Copying one base item that lies before the position of the next record.
  lemma CopyOne(items: seq<KeyValuePair>, deltas: seq<Chain>, k: nat, p: nat, c: nat, out: seq<KeyValuePair>)
    requires Mergeable(items, deltas, k)
    requires Merged(items, deltas, k, p, c, false, out)
    requires c < |items| && (p < k ==> c < deltas[p].indexPair.index)
    ensures Merged(items, deltas, k, p, c + 1, false, out + [items[c]])
  {
    NotOverridden(items, deltas, k, p, c);
    CopyHolds(items, deltas, p, c, out);
    AppendKeepsOrder(out, items[c]);
    if p < k {
      BaseLocateMeaning(items, deltas[p].item);
    }
  }

  // Copying base items up to the position of the next record, or to the end.
  lemma {:induction false} CopyRange(items: seq<KeyValuePair>, deltas: seq<Chain>, k: nat, p: nat, c: nat, c': nat,
                                     out: seq<KeyValuePair>)
    requires Mergeable(items, deltas, k)
    requires Merged(items, deltas, k, p, c, false, out)
    requires c <= c' <= |items| && (p < k ==> c' <= deltas[p].indexPair.index)
    ensures Merged(items, deltas, k, p, c', false, out + items[c..c'])
    decreases c' - c
  {
    if c < c' {
      CopyOne(items, deltas, k, p, c, out);
      CopyRange(items, deltas, k, p, c + 1, c', out + [items[c]]);
      assert out + items[c..c'] == out + [items[c]] + items[c + 1..c'];
    } else {
      assert out + items[c..c'] == out;
    }
  }

  lemma DrainHolds(items: seq<KeyValuePair>, deltas: seq<Chain>, p: nat, c: nat, out: seq<KeyValuePair>)
    requires AreDeltas(deltas) && p < |deltas| && c <= |items|
    requires Holds(items, deltas, p, c, out) && deltas[p].item !in items[..c]
    ensures Holds(items, deltas, p + 1, c, if deltas[p].Insert? then out + [deltas[p].item] else out)
    ensures deltas[p].item !in out
  {
    var x := deltas[p].item;
    assert !OverridesUpTo(deltas, p, x) && !InsertsUpTo(deltas, p, x);
    forall y | y != x
      ensures OverridesUpTo(deltas, p + 1, y) <==> OverridesUpTo(deltas, p, y)
      ensures InsertsUpTo(deltas, p + 1, y) <==> InsertsUpTo(deltas, p, y)
    {
    }
    assert OverridesUpTo(deltas, p + 1, x);
  }

  // Draining one record at base position c.
  lemma DrainOne(items: seq<KeyValuePair>, deltas: seq<Chain>, k: nat, p: nat, c: nat, over: bool,
                 out: seq<KeyValuePair>)
    requires Mergeable(items, deltas, k)
    requires Merged(items, deltas, k, p, c, over, out)
    requires p < k && deltas[p].indexPair.index == c
    ensures Merged(items, deltas, k, p + 1, c, over || deltas[p].indexPair.present,
                   if deltas[p].Insert? then out + [deltas[p].item] else out)
  {
    var x := deltas[p].item;
    BaseLocateMeaning(items, x);
    DrainHolds(items, deltas, p, c, out);
    AppendKeepsOrder(out, x);
    if p + 1 < k {
      IndexGrows(items, deltas, k, p, p + 1);
    }
  }

  // Skipping the base item that the drained records overwrite.
  lemma SkipOne(items: seq<KeyValuePair>, deltas: seq<Chain>, k: nat, p: nat, c: nat, out: seq<KeyValuePair>)
    requires Mergeable(items, deltas, k)
    requires Merged(items, deltas, k, p, c, true, out)
    requires p < k ==> c < deltas[p].indexPair.index
    ensures Merged(items, deltas, k, p, c + 1, false, out)
  {
    assert items[..c + 1] == items[..c] + [items[c]];
  }
}
