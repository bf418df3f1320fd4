// The leaf level of the tree: what the sibling-linked leaves hold together, and what splitting and
// merging a leaf does to them.
module LeafLevel {
  import opened Pairs
  import opened LeafChain
  import opened Levels

  // A split point divides the base array between two different keys.
  predicate IsSplitPoint(items: seq<KeyValuePair>, at: nat) {
    0 < at < |items| && items[at - 1].first < items[at].first
  }

  // The sibling's low key carries ~INVALID_NODE_ID: for leaves only validity matters.
  const VALID_LOW: NodeID := 0xFFFF_FFFF_FFFF_FFFF

  // LeafNode::GetSplitSibling, bwtree.h:2235-2283.
  function SplitSibling(c: Chain, at: nat): Chain
    requires c.Leaf? && at < |c.items|
  {
    Leaf(Pair(c.items[at].first, VALID_LOW), c.high, c.items[at..])
  }

  function SplitRecord(c: Chain, at: nat, newId: NodeID): Chain
    requires c.Leaf? && at < |c.items|
  {
    Split(Pair(c.items[at].first, newId), |c.items| - at, c)
  }

  // ---------- the leaves on the path ----------

  function Spans(path: seq<NodeID>, nodes: seq<Chain>): (level: seq<Span>)
    requires |path| == |nodes|
    ensures |level| == |path|
    ensures forall i :: 0 <= i < |path| ==> level[i] == Span(path[i], nodes[i].Low().first, nodes[i].High())
  {
    seq(|path|, i requires 0 <= i < |path| => Span(path[i], nodes[i].Low().first, nodes[i].High()))
  }

  // A reachable leaf is well-formed, and only the first one has no low key.
  ghost predicate LeafOk(nodes: seq<Chain>, i: nat)
    requires i < |nodes|
  {
    WellFormed(nodes[i]) && (nodes[i].Low().second == INVALID_NODE_ID <==> i == 0)
  }

  ghost predicate LevelOk(path: seq<NodeID>, nodes: seq<Chain>) {
    && |path| == |nodes| && Chained(Spans(path, nodes))
    && forall i :: 0 <= i < |nodes| ==> LeafOk(nodes, i)
  }

  // The pairs of a level.
  function PairsOf(nodes: seq<Chain>): set<KeyValuePair> {
    set i, x | 0 <= i < |nodes| && x in Contents(nodes[i]) :: x
  }

  lemma CoverOf(path: seq<NodeID>, nodes: seq<Chain>, key: int) returns (i: nat)
    requires LevelOk(path, nodes)
    ensures i < |nodes| && Covers(Spans(path, nodes), i, key)
  {
    i := CoverIsReached(Spans(path, nodes), 0, key);
  }

  lemma CoversIsInRange(path: seq<NodeID>, nodes: seq<Chain>, i: nat, key: int)
    requires LevelOk(path, nodes) && i < |nodes|
    ensures Covers(Spans(path, nodes), i, key) <==> InRange(nodes[i], key)
  {
    assert LeafOk(nodes, i);
  }

  // A pair is in the level exactly if it is in the leaf that covers its key.
  lemma PairInCover(path: seq<NodeID>, nodes: seq<Chain>, i: nat, x: KeyValuePair)
    requires LevelOk(path, nodes) && i < |nodes| && Covers(Spans(path, nodes), i, x.first)
    ensures x in PairsOf(nodes) <==> x in Contents(nodes[i])
  {
    if x in PairsOf(nodes) {
      var j :| 0 <= j < |nodes| && x in Contents(nodes[j]);
      assert LeafOk(nodes, j);
      ContentsInRange(nodes[j]);
      CoversIsInRange(path, nodes, j, x.first);
      CoverIsUnique(Spans(path, nodes), i, j, x.first);
    }
  }

  // Replacing a leaf by one with the same range.
  lemma ReplaceLeaf(path: seq<NodeID>, nodes: seq<Chain>, i: nat, c: Chain)
    requires LevelOk(path, nodes) && i < |nodes| && WellFormed(c)
    requires c.Low() == nodes[i].Low() && c.High() == nodes[i].High()
    ensures LevelOk(path, nodes[i := c])
  {
    hide WellFormed, Chained;
    var nodes' := nodes[i := c];
    assert Spans(path, nodes') == Spans(path, nodes);
    forall j | 0 <= j < |nodes'| ensures LeafOk(nodes', j) {
      assert LeafOk(nodes, j);
    }
  }

  lemma ReplaceLeafPairs(path: seq<NodeID>, nodes: seq<Chain>, i: nat, c: Chain)
    requires LevelOk(path, nodes) && i < |nodes| && WellFormed(c)
    requires c.Low() == nodes[i].Low() && c.High() == nodes[i].High()
    ensures forall x :: x in PairsOf(nodes[i := c]) <==>
                          if InRange(c, x.first) then x in Contents(c) else x in PairsOf(nodes)
    ensures forall x: KeyValuePair :: InRange(c, x.first) ==> (x in PairsOf(nodes) <==> x in Contents(nodes[i]))
  {
    var nodes' := nodes[i := c];
    ReplaceLeaf(path, nodes, i, c);
    assert Spans(path, nodes') == Spans(path, nodes);
    hide WellFormed, Contents, PairsOf, LevelOk, Covers;
    forall x: KeyValuePair
      ensures x in PairsOf(nodes') <==> if InRange(c, x.first) then x in Contents(c) else x in PairsOf(nodes)
      ensures InRange(c, x.first) ==> (x in PairsOf(nodes) <==> x in Contents(nodes[i]))
    {
      var j := CoverOf(path, nodes, x.first);
      PairInCover(path, nodes, j, x);
      PairInCover(path, nodes', j, x);
      CoversIsInRange(path, nodes', i, x.first);
      if InRange(c, x.first) {
        OneCover(path, nodes, i, j, x.first);
      }
    }
  }

  // The leaves partition the keys.
  lemma OneCover(path: seq<NodeID>, nodes: seq<Chain>, i: nat, j: nat, key: int)
    requires LevelOk(path, nodes) && i < |nodes| && j < |nodes|
    requires Covers(Spans(path, nodes), i, key) && Covers(Spans(path, nodes), j, key)
    ensures i == j
  {
    CoverIsUnique(Spans(path, nodes), i, j, key);
  }

  // ---------- split ----------

  lemma SplitPointIsLowerBound(items: seq<KeyValuePair>, at: nat)
    requires Sorted(items) && IsSplitPoint(items, at)
    ensures LowerBound(items, items[at].first) == at
  {
    var p := LowerBound(items, items[at].first);
    assert items[at - 1].first < items[at].first;
  }

  // Both halves are well-formed, and the split record and the sibling together hold exactly the
  // pairs of the leaf.
  lemma SplitLeafIsExact(c: Chain, at: nat, newId: NodeID)
    requires WellFormed(c) && c.Leaf? && IsSplitPoint(c.items, at) && newId != INVALID_NODE_ID
    ensures var key := c.items[at].first;
            && WellFormed(SplitRecord(c, at, newId)) && WellFormed(SplitSibling(c, at))
            && (c.low.second != INVALID_NODE_ID ==> c.low.first < key) && BelowHigh(c.high, key)
            && (forall x :: x in Contents(SplitRecord(c, at, newId)) <==> x in Contents(c) && x.first < key)
            && (forall x :: x in Contents(SplitSibling(c, at)) <==> x in Contents(c) && x.first >= key)
  {
    var items, key := c.items, c.items[at].first;
    SplitPointIsLowerBound(items, at);
    var rest := items[at..];
    assert forall i :: 0 <= i < |rest| ==> rest[i] == items[at + i];
    forall x ensures x in rest <==> x in items && x.first >= key {
      if x in items && x.first >= key {
        var i :| 0 <= i < |items| && items[i] == x;
        assert i >= at;
        assert rest[i - at] == x;
      }
    }
  }

  // Two leaves that share the range of a third at a key.
  ghost predicate Halves(c: Chain, key: int, newId: NodeID, left: Chain, right: Chain) {
    && left.Low() == c.Low() && left.High() == Pair(key, newId)
    && right.Low().first == key && right.Low().second != INVALID_NODE_ID && right.High() == c.High()
    && (c.Low().second != INVALID_NODE_ID ==> c.Low().first < key) && BelowHigh(c.High(), key)
  }

  ghost predicate ShareContents(c: Chain, key: int, left: Chain, right: Chain) {
    && (forall x :: x in Contents(left) <==> x in Contents(c) && x.first < key)
    && (forall x :: x in Contents(right) <==> x in Contents(c) && x.first >= key)
  }

  lemma SplitSpans(path: seq<NodeID>, nodes: seq<Chain>, i: nat, key: int, newId: NodeID, left: Chain, right: Chain)
    requires |path| == |nodes| && i < |nodes| && Halves(nodes[i], key, newId, left, right)
    ensures var nodes' := InsertBehind(nodes[i := left], i, right);
            |nodes'| == |nodes| + 1
            && Spans(InsertBehind(path, i, newId), nodes') == SplitAt(Spans(path, nodes), i, key, newId)
  {
    InsertBehindElements(path, i, newId);
    InsertBehindElements(nodes[i := left], i, right);
    SplitElements(Spans(path, nodes), i, key, newId);
  }

  lemma SplitLevelOk(path: seq<NodeID>, nodes: seq<Chain>, i: nat, key: int, newId: NodeID, left: Chain, right: Chain)
    requires LevelOk(path, nodes) && i < |nodes| && newId != INVALID_NODE_ID
    requires WellFormed(left) && WellFormed(right) && Halves(nodes[i], key, newId, left, right)
    ensures LevelOk(InsertBehind(path, i, newId), InsertBehind(nodes[i := left], i, right))
  {
    hide WellFormed, Chained, SplitAt;
    var nodes' := InsertBehind(nodes[i := left], i, right);
    assert LeafOk(nodes, i);
    SplitSpans(path, nodes, i, key, newId, left, right);
    SplitKeepsChain(Spans(path, nodes), i, key, newId);
    InsertBehindElements(nodes[i := left], i, right);
    forall j | 0 <= j < |nodes'| ensures LeafOk(nodes', j) {
      if j < i { assert LeafOk(nodes, j); } else if j > i + 1 { assert LeafOk(nodes, j - 1); }
    }
  }

  lemma SplitLevelPairs(nodes: seq<Chain>, i: nat, key: int, left: Chain, right: Chain)
    requires i < |nodes| && ShareContents(nodes[i], key, left, right)
    ensures PairsOf(InsertBehind(nodes[i := left], i, right)) == PairsOf(nodes)
  {
    hide Contents;
    var nodes' := InsertBehind(nodes[i := left], i, right);
    InsertBehindElements(nodes[i := left], i, right);
    forall x ensures x in PairsOf(nodes') <==> x in PairsOf(nodes) {
      if x in PairsOf(nodes) {
        var j :| 0 <= j < |nodes| && x in Contents(nodes[j]);
        assert x in Contents(nodes'[if j < i || (j == i && x.first < key) then j else j + 1]);
      }
      if x in PairsOf(nodes') {
        var j :| 0 <= j < |nodes'| && x in Contents(nodes'[j]);
        assert x in Contents(nodes[if j <= i then j else j - 1]);
      }
    }
  }

  // Splitting a leaf keeps the level in order and its pairs.
  lemma SplitLeafLevel(path: seq<NodeID>, nodes: seq<Chain>, i: nat, at: nat, newId: NodeID)
    requires LevelOk(path, nodes) && i < |nodes| && newId != INVALID_NODE_ID
    requires nodes[i].Leaf? && IsSplitPoint(nodes[i].items, at)
    ensures var nodes' := InsertBehind(nodes[i := SplitRecord(nodes[i], at, newId)], i, SplitSibling(nodes[i], at));
            LevelOk(InsertBehind(path, i, newId), nodes') && PairsOf(nodes') == PairsOf(nodes)
  {
    assert LeafOk(nodes, i);
    SplitLeafIsExact(nodes[i], at, newId);
    hide LevelOk, WellFormed, PairsOf, Contents;
    var key, left, right := nodes[i].items[at].first, SplitRecord(nodes[i], at, newId), SplitSibling(nodes[i], at);
    SplitLevelOk(path, nodes, i, key, newId, left, right);
    SplitLevelPairs(nodes, i, key, left, right);
  }

  // ---------- merge ----------

  function MergedLeaf(left: Chain, removed: Chain, removedId: NodeID): Chain
    requires removed.Remove?
  {
    Merge(Pair(left.High().first, removedId), removed.child, left)
  }

  lemma MergeLeafIsExact(left: Chain, removed: Chain, removedId: NodeID)
    requires WellFormed(left) && !left.Remove? && WellFormed(removed) && removed.Remove?
    requires removedId != INVALID_NODE_ID && left.High() == Pair(removed.Low().first, removedId)
    requires removed.Low().second != INVALID_NODE_ID
    ensures var c := MergedLeaf(left, removed, removedId);
            && WellFormed(c) && c.Low() == left.Low() && c.High() == removed.High()
            && Contents(c) == Contents(left) + Contents(removed)
  {
  }

  lemma MergeSpans(path: seq<NodeID>, nodes: seq<Chain>, i: nat, merged: Chain)
    requires |path| == |nodes| && i + 1 < |nodes|
    requires merged.Low() == nodes[i].Low() && merged.High() == nodes[i + 1].High()
    ensures var nodes' := DropBehind(nodes[i := merged], i);
            |nodes'| == |nodes| - 1 && Spans(DropBehind(path, i), nodes') == MergeAt(Spans(path, nodes), i)
  {
    DropBehindElements(path, i);
    DropBehindElements(nodes[i := merged], i);
    MergeElements(Spans(path, nodes), i);
  }

  lemma MergeLevelOk(path: seq<NodeID>, nodes: seq<Chain>, i: nat, merged: Chain)
    requires LevelOk(path, nodes) && i + 1 < |nodes| && WellFormed(merged)
    requires merged.Low() == nodes[i].Low() && merged.High() == nodes[i + 1].High()
    ensures LevelOk(DropBehind(path, i), DropBehind(nodes[i := merged], i))
  {
    hide WellFormed, Chained, MergeAt;
    var nodes' := DropBehind(nodes[i := merged], i);
    MergeSpans(path, nodes, i, merged);
    MergeKeepsChain(Spans(path, nodes), i);
    DropBehindElements(nodes[i := merged], i);
    forall j | 0 <= j < |nodes'| ensures LeafOk(nodes', j) {
      assert LeafOk(nodes, if j <= i then j else j + 1);
    }
  }

  lemma MergeLevelPairs(path: seq<NodeID>, nodes: seq<Chain>, i: nat, merged: Chain)
    requires LevelOk(path, nodes) && i + 1 < |nodes|
    requires merged.Low() == nodes[i].Low() && merged.High() == nodes[i + 1].High()
    requires LevelOk(DropBehind(path, i), DropBehind(nodes[i := merged], i))
    requires Contents(merged) == Contents(nodes[i]) + Contents(nodes[i + 1])
    ensures PairsOf(DropBehind(nodes[i := merged], i)) == PairsOf(nodes)
  {
    hide LevelOk, Contents;
    var nodes' := DropBehind(nodes[i := merged], i);
    DropBehindElements(nodes[i := merged], i);
    forall x ensures x in PairsOf(nodes') <==> x in PairsOf(nodes) {
      if x in PairsOf(nodes) {
        var j :| 0 <= j < |nodes| && x in Contents(nodes[j]);
        assert x in Contents(nodes'[if j <= i then j else j - 1]);
      }
      if x in PairsOf(nodes') {
        var j :| 0 <= j < |nodes'| && x in Contents(nodes'[j]);
        assert x in Contents(nodes[if j < i then j else if j > i then j + 1 else if x in Contents(nodes[i]) then i else i + 1]);
      }
    }
  }

  // Merging a removed leaf into its left neighbour keeps the level in order and its pairs.
  lemma MergeLeafLevel(path: seq<NodeID>, nodes: seq<Chain>, i: nat)
    requires LevelOk(path, nodes) && i + 1 < |nodes| && !nodes[i].Remove? && nodes[i + 1].Remove?
    ensures var nodes' := DropBehind(nodes[i := MergedLeaf(nodes[i], nodes[i + 1], path[i + 1])], i);
            LevelOk(DropBehind(path, i), nodes') && PairsOf(nodes') == PairsOf(nodes)
  {
    var level := Spans(path, nodes);
    assert LeafOk(nodes, i) && LeafOk(nodes, i + 1) && Linked(level[i], level[i + 1]);
    assert level[i + 1].id != INVALID_NODE_ID;
    MergeLeafIsExact(nodes[i], nodes[i + 1], path[i + 1]);
    hide LevelOk, WellFormed, PairsOf, Contents;
    var merged := MergedLeaf(nodes[i], nodes[i + 1], path[i + 1]);
    MergeLevelOk(path, nodes, i, merged);
    MergeLevelPairs(path, nodes, i, merged);
  }
}
