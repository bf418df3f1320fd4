// The index term of a half-finished split: why the neighbours recorded in it are the logical ones,
// even when other index terms are still missing.
module TreeTerms {
  import opened Options
  import opened Pairs
  import opened Levels
  import opened InnerChain
  import opened InnerLevel

  // A node refers to keys of its own range only.
  lemma ReferenceInRange(path: seq<NodeID>, nodes: seq<Chain>, m: nat, x: KeyNodeIDPair)
    requires LevelOk(path, nodes) && m < |nodes| && RefersAt(nodes, m, x)
    ensures Covers(Spans(path, nodes), m, x.first)
  {
    assert NodeOk(nodes, m);
    SepsInRange(nodes[m], m > 0);
  }

  // The setting: node i below has a split record on top, and node m above covers the split key.
  ghost predicate Pending(path: seq<NodeID>, nodes: seq<Chain>, below: seq<Span>, half: seq<Option<KeyNodeIDPair>>,
                          i: nat, m: nat)
  {
    && LevelOk(path, nodes) && Chained(below) && Indexed(nodes, below, half)
    && (forall j, k :: 0 <= j < k < |below| ==> below[j].id != below[k].id)
    && i + 1 < |below| && m < |nodes|
    && Covers(Spans(path, nodes), m, below[i + 1].low) && (m > 0 ==> nodes[m].Low().first < below[i + 1].low)
    && Find(nodes[m], nodes[m].Low().second, below[i + 1].low).item == None
  }

  // If the covering node has no such separator, no node refers to the right half at all.
  lemma NotKnownYet(path: seq<NodeID>, nodes: seq<Chain>, below: seq<Span>, half: seq<Option<KeyNodeIDPair>>,
                    i: nat, m: nat)
    requires Pending(path, nodes, below, half, i, m)
    ensures !Refers(nodes, PairOf(below[i + 1]))
    ensures half[i] == Some(below[i + 1].high) && half[i + 1] == None
  {
    var x := PairOf(below[i + 1]);
    if Refers(nodes, x) {
      var k :| 0 <= k < |nodes| && RefersAt(nodes, k, x);
      ReferenceInRange(path, nodes, k, x);
      CoverIsUnique(Spans(path, nodes), k, m, x.first);
      assert NodeOk(nodes, m);
      LeftmostIsLow(nodes[m], m > 0);
      FindIsExact(nodes[m], m > 0, nodes[m].Low().second, x.first);
    }
    assert KnownOrHalf(nodes, below, half, i + 1);
  }

  lemma SeparatorBelow(nodes: seq<Chain>, below: seq<Span>, half: seq<Option<KeyNodeIDPair>>, m: nat, x: KeyNodeIDPair)
    returns (j: nat)
    requires Indexed(nodes, below, half) && m < |nodes| && RefersAt(nodes, m, x)
    ensures 1 <= j < |below| && PairOf(below[j]) == x
  {
    assert Refers(nodes, x);
    assert BehindFirst(below, x);
    j :| 1 <= j < |below| && PairOf(below[j]) == x;
  }

  // Separators of a node lie at the low keys below, so none lies strictly between two neighbours.
  lemma NoSeparatorBetween(nodes: seq<Chain>, below: seq<Span>, half: seq<Option<KeyNodeIDPair>>, m: nat, i: nat,
                           x: KeyNodeIDPair)
    requires Chained(below) && Indexed(nodes, below, half) && m < |nodes| && 1 <= i < |below| && x in Seps(nodes[m])
    ensures x.first <= below[i].low || (i + 1 < |below| && below[i + 1].low <= x.first)
  {
    var j := SeparatorBelow(nodes, below, half, m, x);
    assert j < i ==> below[j].low < below[i].low;
    assert i + 1 < j ==> below[i + 1].low < below[j].low;
  }

  // The next node below is a separator of the same node, or its low key is the high key of the node.
  lemma NextIsSeparatorOrHigh(path: seq<NodeID>, nodes: seq<Chain>, below: seq<Span>, half: seq<Option<KeyNodeIDPair>>,
                              i: nat, m: nat)
    requires Pending(path, nodes, below, half, i, m) && i + 2 < |below|
    ensures (exists x :: x in Seps(nodes[m]) && x.first == below[i + 2].low)
         || (nodes[m].High().second != INVALID_NODE_ID && nodes[m].High().first == below[i + 2].low)
  {
    NotKnownYet(path, nodes, below, half, i, m);
    var y, k := PairOf(below[i + 2]), below[i + 1].low;
    var above := Spans(path, nodes);
    assert KnownOrHalf(nodes, below, half, i + 2);
    var m' :| 0 <= m' < |nodes| && RefersAt(nodes, m', y);
    ReferenceInRange(path, nodes, m', y);
    assert k < y.first;
    if m' == m {
      assert y in Seps(nodes[m]);
    } else if m' < m {
      NotBeyond(above, m', m, y.first);
      assert false;
    } else {
      HighIsNext(path, nodes, below, half, i, m, m');
    }
  }

  lemma HighIsNext(path: seq<NodeID>, nodes: seq<Chain>, below: seq<Span>, half: seq<Option<KeyNodeIDPair>>,
                   i: nat, m: nat, m': nat)
    requires Pending(path, nodes, below, half, i, m) && i + 2 < |below| && m < m' < |nodes|
    requires Covers(Spans(path, nodes), m', below[i + 2].low)
    ensures nodes[m].High().second != INVALID_NODE_ID && nodes[m].High().first == below[i + 2].low
  {
    var above := Spans(path, nodes);
    assert Linked(above[m], above[m + 1]) && above[m + 1].id != INVALID_NODE_ID;
    assert RefersAt(nodes, m + 1, nodes[m + 1].Low());
    var j := SeparatorBelow(nodes, below, half, m + 1, nodes[m + 1].Low());
    assert below[i + 1].low < below[j].low == above[m + 1].low;
    LowOrder(below, j, i + 1);
    LowOrder(below, i + 2, j);
    LowOrder(above, m + 1, m');
  }

  // The index term is well-formed: its next item is the high key below the split record.
  lemma TermIsWellFormed(path: seq<NodeID>, nodes: seq<Chain>, below: seq<Span>, half: seq<Option<KeyNodeIDPair>>,
                         i: nat, m: nat)
    requires Pending(path, nodes, below, half, i, m) && half[i].Some?
    ensures var p, item := nodes[m], PairOf(below[i + 1]);
            WellFormed(Insert(item, half[i].value, Find(p, p.Low().second, item.first).location, p), m > 0)
  {
    NotKnownYet(path, nodes, below, half, i, m);
    var p, item, next := nodes[m], PairOf(below[i + 1]), below[i + 1].high;
    assert NodeOk(nodes, m);
    ChildIsNotLow(path, nodes, below, half, i, m);
    assert NextOf(p, item.first, next) by {
      forall x | x in Seps(p) ensures x.first <= item.first || (i + 2 < |below| && below[i + 2].low <= x.first) {
        NoSeparatorBetween(nodes, below, half, m, i + 1, x);
      }
      if i + 2 < |below| {
        assert Linked(below[i + 1], below[i + 2]) && below[i + 2].id != INVALID_NODE_ID;
        NextIsSeparatorOrHigh(path, nodes, below, half, i, m);
      }
    }
    assert Find(p, p.Low().second, item.first) == Found(None, Find(p, p.Low().second, item.first).location);
  }

  lemma IdsDiffer(below: seq<Span>, j: nat, k: nat)
    requires forall a, b :: 0 <= a < b < |below| ==> below[a].id != below[b].id
    ensures j < |below| && k < |below| && j != k ==> below[j].id != below[k].id
  {
  }

  lemma ChildIsNotLow(path: seq<NodeID>, nodes: seq<Chain>, below: seq<Span>, half: seq<Option<KeyNodeIDPair>>,
                      i: nat, m: nat)
    requires Pending(path, nodes, below, half, i, m)
    ensures below[i + 1].id != nodes[m].Low().second
  {
    if m > 0 {
      assert RefersAt(nodes, m, nodes[m].Low());
      var j := SeparatorBelow(nodes, below, half, m, nodes[m].Low());
      assert j != i + 1;
      IdsDiffer(below, j, i + 1);
    }
  }
}
