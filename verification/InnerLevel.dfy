// One inner level of the tree: its nodes, the references they hold to the level below, and which
// nodes of the level below have no reference yet because their split is half finished.
module InnerLevel {
  import opened Options
  import opened Pairs
  import opened InnerChain
  import opened Levels

  function Spans(path: seq<NodeID>, nodes: seq<Chain>): (level: seq<Span>)
    requires |path| == |nodes|
    ensures |level| == |path|
    ensures forall i :: 0 <= i < |path| ==> level[i] == Span(path[i], nodes[i].Low().first, nodes[i].High())
  {
    seq(|path|, i requires 0 <= i < |path| => Span(path[i], nodes[i].Low().first, nodes[i].High()))
  }

  // Only the first node of a level has the low key -Inf.
  ghost predicate NodeOk(nodes: seq<Chain>, i: nat)
    requires i < |nodes|
  {
    WellFormed(nodes[i], i > 0)
  }

  ghost predicate LevelOk(path: seq<NodeID>, nodes: seq<Chain>) {
    && |path| == |nodes| && Chained(Spans(path, nodes))
    && forall i :: 0 <= i < |nodes| ==> NodeOk(nodes, i)
  }

  // ---------- references between two levels ----------

  // The separators of a level together with the low keys of all but its first node: what it knows
  // about the nodes below, except for the first one.
  ghost predicate Refers(nodes: seq<Chain>, x: KeyNodeIDPair) {
    exists i :: 0 <= i < |nodes| && RefersAt(nodes, i, x)
  }

  ghost predicate RefersAt(nodes: seq<Chain>, i: nat, x: KeyNodeIDPair)
    requires i < |nodes|
  {
    x in Seps(nodes[i]) || (i > 0 && x == nodes[i].Low())
  }

  function PairOf(span: Span): KeyNodeIDPair {
    Pair(span.low, span.id)
  }

  // Some node of the level other than the first.
  ghost predicate BehindFirst(level: seq<Span>, x: KeyNodeIDPair) {
    exists j :: 1 <= j < |level| && PairOf(level[j]) == x
  }

  // `half[j]` is the high key below the split record on top of node j, if there is one. A node that
  // the upper level does not refer to is the right half of such a split, and has not been split
  // itself.
  ghost predicate KnownOrHalf(parents: seq<Chain>, level: seq<Span>, half: seq<Option<KeyNodeIDPair>>, j: nat)
    requires 1 <= j < |level| == |half|
  {
    Refers(parents, PairOf(level[j])) || (half[j - 1] == Some(level[j].high) && half[j] == None)
  }

  ghost predicate Indexed(parents: seq<Chain>, level: seq<Span>, half: seq<Option<KeyNodeIDPair>>) {
    && |half| == |level| > 0
    && (forall x :: Refers(parents, x) ==> BehindFirst(level, x))
    && (|parents| > 0 ==> parents[0].Low().second == level[0].id)
    && forall j :: 1 <= j < |level| ==> KnownOrHalf(parents, level, half, j)
  }

  // ---------- changes of the lower level ----------

  // A record may cover a split record once the split is known above.
  lemma SettleKeepsIndex(parents: seq<Chain>, level: seq<Span>, half: seq<Option<KeyNodeIDPair>>, i: nat)
    requires Indexed(parents, level, half) && i < |level|
    requires half[i].Some? && i + 1 < |level| ==> Refers(parents, PairOf(level[i + 1]))
    ensures Indexed(parents, level, half[i := None])
  {
    hide Refers;
    var half' := half[i := None];
    forall j | 1 <= j < |level| ensures KnownOrHalf(parents, level, half', j) {
      assert KnownOrHalf(parents, level, half, j);
    }
  }

  lemma SplitKeepsIndex(parents: seq<Chain>, level: seq<Span>, half: seq<Option<KeyNodeIDPair>>, i: nat, key: int,
                        newId: NodeID)
    requires Indexed(parents, level, half) && i < |level| && half[i] == None
    requires i == 0 || Refers(parents, PairOf(level[i]))
    ensures Indexed(parents, SplitAt(level, i, key, newId), InsertBehind(half[i := Some(level[i].high)], i, None))
  {
    hide Refers;
    var level', half' := SplitAt(level, i, key, newId), InsertBehind(half[i := Some(level[i].high)], i, None);
    SplitElements(level, i, key, newId);
    InsertBehindElements(half[i := Some(level[i].high)], i, None);
    forall j | 1 <= j < |level'| ensures KnownOrHalf(parents, level', half', j) {
      if j <= i {
        assert KnownOrHalf(parents, level, half, j);
      } else if j > i + 1 {
        assert KnownOrHalf(parents, level, half, j - 1);
      }
    }
    forall x | Refers(parents, x) ensures BehindFirst(level', x) {
      assert BehindFirst(level, x);
      var j :| 1 <= j < |level| && PairOf(level[j]) == x;
      assert PairOf(level'[if j <= i then j else j + 1]) == x;
    }
  }

  // ---------- changes of the upper level ----------

  // The upper level keeps its references, and gains at most one to an existing node.
  lemma ReferencesKeepIndex(parents: seq<Chain>, parents': seq<Chain>, level: seq<Span>,
                            half: seq<Option<KeyNodeIDPair>>, j: nat)
    requires Indexed(parents, level, half) && |parents| > 0 && |parents'| > 0
    requires parents'[0].Low() == parents[0].Low()
    requires forall x :: Refers(parents, x) ==> Refers(parents', x)
    requires forall x :: Refers(parents', x) ==> Refers(parents, x) || (1 <= j < |level| && x == PairOf(level[j]))
    ensures Indexed(parents', level, half)
  {
    hide Refers;
    forall k | 1 <= k < |level| ensures KnownOrHalf(parents', level, half, k) {
      assert KnownOrHalf(parents, level, half, k);
    }
  }

  lemma ReplaceNodeRefers(nodes: seq<Chain>, i: nat, c: Chain, x: KeyNodeIDPair)
    requires i < |nodes| && c.Low() == nodes[i].Low()
    requires x in Seps(nodes[i]) ==> x in Seps(c)
    ensures Refers(nodes, x) ==> Refers(nodes[i := c], x)
    ensures Refers(nodes[i := c], x) ==> Refers(nodes, x) || x in Seps(c)
  {
    var nodes' := nodes[i := c];
    if k :| 0 <= k < |nodes| && RefersAt(nodes, k, x) { assert RefersAt(nodes', k, x); }
    if k :| 0 <= k < |nodes'| && RefersAt(nodes', k, x) {
      if k != i || x !in Seps(c) { assert RefersAt(nodes, k, x); }
    }
  }

  // ---------- split of an inner node, bwtree.h:2089-2128 and 6118-6184 ----------

  function SplitSibling(c: Chain, at: nat): Chain
    requires c.Inner? && at < |c.items|
  {
    Inner(c.items[at], c.high, c.items[at..], 0)
  }

  function SplitRecord(c: Chain, at: nat, newId: NodeID): Chain
    requires c.Inner? && at < |c.items|
  {
    Split(Pair(c.items[at].first, newId), |c.items| - at, c)
  }

  // No two separators lead to the same child.
  ghost predicate ChildrenDiffer(c: Chain) {
    forall x, y :: x in Seps(c) && y in Seps(c) && x.second == y.second ==> x == y
  }

  lemma SplitInnerIsExact(c: Chain, bounded: bool, at: nat, newId: NodeID)
    requires WellFormed(c, bounded) && c.Inner? && 1 <= at < |c.items| && newId != INVALID_NODE_ID
    requires ChildrenDiffer(c)
    ensures var key, left, right := c.items[at].first, SplitRecord(c, at, newId), SplitSibling(c, at);
            && WellFormed(left, bounded) && WellFormed(right, true)
            && (bounded ==> c.low.first < key) && BelowHigh(c.high, key)
            && Seps(c) == Seps(left) + {right.low} + Seps(right)
  {
    SplitSeps(c, at, newId);
    LowerBoundOfItem(c.items, at);
    hide LowerBoundIn;
    SiblingIsOk(c, bounded, at);
  }

  lemma LowerBoundOfItem(items: seq<KeyNodeIDPair>, at: nat)
    requires 1 <= at < |items| && forall i, j :: 1 <= i < j < |items| ==> items[i].first < items[j].first
    ensures LowerBoundIn(items, 1, |items|, items[at].first) == at
  {
    var p := LowerBoundIn(items, 1, |items|, items[at].first);
    ItemOrder(items, p, at);
  }

  lemma ItemOrder(items: seq<KeyNodeIDPair>, i: nat, j: nat)
    requires forall a, b :: 1 <= a < b < |items| ==> items[a].first < items[b].first
    ensures 1 <= i < j < |items| ==> items[i].first < items[j].first
  {
  }

  lemma SiblingIsOk(c: Chain, bounded: bool, at: nat)
    requires WellFormed(c, bounded) && c.Inner? && 1 <= at < |c.items| && ChildrenDiffer(c)
    ensures WellFormed(SplitSibling(c, at), true)
  {
    var items, rest := c.items, c.items[at..];
    assert forall i :: 0 <= i < |rest| ==> rest[i] == items[at + i];
    forall i | 1 <= i < |rest| ensures rest[i].second != items[at].second {
      assert items[at + i] in Seps(c) && items[at] in Seps(c);
      assert items[at].first < items[at + i].first;
    }
    hide FirstSeps;
  }

  lemma SplitSeps(c: Chain, at: nat, newId: NodeID)
    requires c.Inner? && 1 <= at < |c.items|
    requires forall i, j :: 1 <= i < j < |c.items| ==> c.items[i].first < c.items[j].first
    ensures Seps(c) == Seps(SplitRecord(c, at, newId)) + {c.items[at]} + Seps(SplitSibling(c, at))
  {
    hide FirstSeps;
    var items, rest := c.items, c.items[at..];
    var key := items[at].first;
    assert forall i :: 0 <= i < |rest| ==> rest[i] == items[at + i];
    forall x ensures x in BaseSeps(items) <==> (x in BaseSeps(items) && x.first < key) || x == items[at] || x in BaseSeps(rest) {
      if x in BaseSeps(items) && x.first >= key {
        var i :| 1 <= i < |items| && items[i] == x;
        assert i >= at && rest[i - at] == x;
      }
      if x in BaseSeps(rest) {
        var i :| 1 <= i < |rest| && rest[i] == x;
        assert items[at + i] == x;
      }
    }
  }
}
