// Where a leaf is split: LeafNode::FindSplitPoint and GetSplitSibling, bwtree.h:2165-2283.
module LeafSplit {
  import opened Options
  import opened Pairs
  import opened LeafChain
  import opened ElasticNodes
  import opened Levels
  import opened LeafLevel

  // Before the keys equal to the central one, if that leaves enough on the left; else behind them,
  // if that leaves enough on the right.
  function SplitPoint(items: seq<KeyValuePair>, lowerThreshold: int): int
    requires |items| > 0
  {
    var key := items[|items| / 2].first;
    if LowerBound(items, key) > lowerThreshold then LowerBound(items, key)
    else if |items| - UpperBound(items, key) > lowerThreshold then UpperBound(items, key)
    else -1
  }

  // The first and the last position of the central key.
  lemma KeyRange(items: seq<KeyValuePair>, i: nat, p: nat, q: nat)
    requires Sorted(items) && p <= i < q <= |items|
    requires forall j :: p <= j < q ==> items[j].first == items[i].first
    ensures p == 0 || items[p - 1].first != items[i].first ==> LowerBound(items, items[i].first) == p
    ensures q == |items| || items[q].first != items[i].first ==> UpperBound(items, items[i].first) == q
  {
    var key := items[i].first;
    var a, b := LowerBound(items, key), UpperBound(items, key);
    assert items[p].first == key && items[q - 1].first == key;
    if p > 0 { assert items[p - 1].first <= key; }
    if q < |items| { assert items[q].first >= key; }
  }

  // Where the backward scan from position i ends, and where the forward scan does.
  ghost predicate LeftEndOf(items: seq<KeyValuePair>, i: nat, p: nat)
    requires i < |items|
  {
    && 1 <= p <= i && (p == 1 || items[p - 1].first != items[i].first)
    && forall j :: p <= j <= i ==> items[j].first == items[i].first
  }

  ghost predicate RightEndOf(items: seq<KeyValuePair>, i: nat, q: nat)
    requires i < |items|
  {
    && i < q <= |items| && (q == |items| || items[q].first != items[i].first)
    && forall j :: i <= j < q ==> items[j].first == items[i].first
  }

  // The backward scan stops at the front even if the first key is the central one.
  lemma LeftEnd(items: seq<KeyValuePair>, i: nat, p: nat)
    requires Sorted(items) && i < |items| && LeftEndOf(items, i, p)
    ensures IsSplitPoint(items, p) <==> items[0].first != items[i].first
    ensures LowerBound(items, items[i].first) == if items[0].first != items[i].first then p else 0
    ensures items[0].first == items[i].first ==> p == 1
  {
    assert items[0].first <= items[p - 1].first <= items[p].first;
    if items[p - 1].first == items[i].first {
      KeyRange(items, i, 0, i + 1);
    } else {
      KeyRange(items, i, p, i + 1);
    }
  }

  lemma RightEnd(items: seq<KeyValuePair>, i: nat, q: nat)
    requires Sorted(items) && i < |items| && RightEndOf(items, i, q)
    ensures UpperBound(items, items[i].first) == q
    ensures q < |items| ==> IsSplitPoint(items, q)
  {
    KeyRange(items, i, i, q);
    if q < |items| { assert items[q - 1].first <= items[q].first; }
  }

  ghost predicate IsResult(items: seq<KeyValuePair>, lowerThreshold: int, p: int)
    requires |items| >= 4
  {
    var central := items[|items| / 2].first;
    && (lowerThreshold >= 1 ==> p == SplitPoint(items, lowerThreshold))
    && (lowerThreshold < 1 ==> p == if items[0].first != central then LowerBound(items, central) else 1)
    && (p == -1 || (p >= 0 && IsSplitPoint(items, p)) <==> lowerThreshold >= 1 || items[0].first != central)
  }

  lemma LeftResult(items: seq<KeyValuePair>, lowerThreshold: int, p: nat)
    requires Sorted(items) && |items| >= 4 && LeftEndOf(items, |items| / 2, p) && p > lowerThreshold
    ensures IsResult(items, lowerThreshold, p)
  {
    LeftEnd(items, |items| / 2, p);
    hide Sorted, IsSplitPoint, LowerBound;
  }

  lemma RightResult(items: seq<KeyValuePair>, lowerThreshold: int, p: nat, q: nat)
    requires Sorted(items) && |items| >= 4 && LeftEndOf(items, |items| / 2, p) && RightEndOf(items, |items| / 2, q)
    requires p <= lowerThreshold
    ensures IsResult(items, lowerThreshold, if |items| - q > lowerThreshold then q else -1)
  {
    LeftEnd(items, |items| / 2, p);
    RightEnd(items, |items| / 2, q);
    hide Sorted, IsSplitPoint, LowerBound;
  }

  // The result is a split point or -1 exactly when the threshold is at least 1 or the central key is
  // not the first one; with a threshold of 0 and only copies of one key up to the middle, the loop
  // stops at the front and 1 is returned.
  method FindSplitPoint(items: seq<KeyValuePair>, lowerThreshold: int) returns (p: int)
    requires Sorted(items) && |items| >= 4
    ensures lowerThreshold >= 1 ==> p == SplitPoint(items, lowerThreshold)
    ensures var central := items[|items| / 2].first;
            lowerThreshold < 1 ==> p == if items[0].first != central then LowerBound(items, central) else 1
    ensures (p == -1 || (p >= 0 && IsSplitPoint(items, p)))
       <==> lowerThreshold >= 1 || items[0].first != items[|items| / 2].first
  {
    hide Sorted, SplitPoint, IsSplitPoint;
    var centralIndex := |items| / 2;
    var central := items[centralIndex].first;
    var it := centralIndex - 1;
    while it != 0 && items[it].first == central
      invariant 0 <= it < centralIndex
      invariant forall j :: it < j <= centralIndex ==> items[j].first == central
      decreases it
    {
      it := it - 1;
    }
    it := it + 1;
    var leftSiblingSize := it;
    if leftSiblingSize > lowerThreshold {
      LeftResult(items, lowerThreshold, it);
      return leftSiblingSize;
    }
    it := centralIndex + 1;
    while it != |items| && items[it].first == central
      invariant centralIndex < it <= |items|
      invariant forall j :: centralIndex <= j < it ==> items[j].first == central
      decreases |items| - it
    {
      it := it + 1;
    }
    RightResult(items, lowerThreshold, leftSiblingSize, it);
    var rightSiblingSize := |items| - it;
    if rightSiblingSize > lowerThreshold {
      return it;
    }
    return -1;
  }

  // A threshold of 0 is not sound: this leaf has no split point, but one is returned.
  const ONE_KEY: seq<KeyValuePair> := [Pair(7, 0), Pair(7, 1), Pair(7, 2), Pair(7, 3)]

  method ThresholdZeroSplitsAKey() returns (p: int)
    ensures p == 1 && Sorted(ONE_KEY) && |ONE_KEY| >= 4
    ensures forall q :: 0 <= q < |ONE_KEY| ==> !IsSplitPoint(ONE_KEY, q)
  {
    p := FindSplitPoint(ONE_KEY, 0);
    forall q | 0 <= q < |ONE_KEY| ensures !IsSplitPoint(ONE_KEY, q) {
      assert ONE_KEY[q].first == 7 && (q > 0 ==> ONE_KEY[q - 1].first == 7);
    }
  }

  // Both halves are larger than the threshold when half of the leaf is.
  lemma SplitIsBalanced(items: seq<KeyValuePair>, lowerThreshold: int)
    requires Sorted(items) && |items| >= 4 && lowerThreshold >= 1
    ensures var p := SplitPoint(items, lowerThreshold);
            p != -1 ==>
              && 0 <= p && IsSplitPoint(items, p)
              && (|items| / 2 > lowerThreshold ==> p > lowerThreshold && |items| - p > lowerThreshold)
  {
    var key := items[|items| / 2].first;
    var a, b := LowerBound(items, key), UpperBound(items, key);
    assert a <= |items| / 2 < b;
  }

  // -1 is only returned when no split point leaves more than the threshold on both sides.
  lemma NoBalancedSplitIsMissed(items: seq<KeyValuePair>, lowerThreshold: int, p: nat)
    requires Sorted(items) && |items| >= 4 && lowerThreshold >= 1 && SplitPoint(items, lowerThreshold) == -1
    requires IsSplitPoint(items, p)
    ensures p <= lowerThreshold || |items| - p <= lowerThreshold
  {
    var key := items[|items| / 2].first;
    assert LowerBound(items, key) < p ==> items[p - 1].first >= key;
    assert p < UpperBound(items, key) ==> items[p].first <= key;
  }

  // The new right sibling holds the items from the split point on, and nothing is lost: the items
  // that the split record leaves and those of the sibling are exactly the items of the leaf.
  method GetSplitSibling(c: Chain, lowerThreshold: int, newId: NodeID) returns (r: Option<Chain>)
    requires c.Leaf? && WellFormed(c) && |c.items| >= 4 && lowerThreshold >= 1 && newId != INVALID_NODE_ID
    ensures r.None? <==> SplitPoint(c.items, lowerThreshold) == -1
    ensures r.Some? ==>
              var p := SplitPoint(c.items, lowerThreshold);
              && 0 <= p < |c.items| && r.value == SplitSibling(c, p) && WellFormed(r.value)
              && WellFormed(SplitRecord(c, p, newId))
              && Contents(SplitRecord(c, p, newId)) + Contents(r.value) == Contents(c)
              && Contents(SplitRecord(c, p, newId)) !! Contents(r.value)
  {
    var p := FindSplitPoint(c.items, lowerThreshold);
    if p == -1 {
      return None;
    }
    var sibling := new ElasticNode<KeyValuePair>(|c.items| - p);
    sibling.PushBackRange(c.items, p, |c.items|);
    assert sibling.data[..sibling.end] == c.items[p..];
    SplitLeafIsExact(c, p, newId);
    r := Some(Leaf(Pair(c.items[p].first, VALID_LOW), c.high, sibling.data[..sibling.end]));
  }
}
