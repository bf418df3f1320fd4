// Iterating forward over a tree that nobody changes: ForwardIterator::LowerBound and MoveAheadByOne,
// bwtree.h:8580-8649 and 8755-8780.
module ForwardIterators {
  import opened Options
  import opened Pairs
  import opened Levels
  import opened TreeMachine
  import I = InnerChain
  import IL = InnerLevel
  import L = LeafChain
  import LL = LeafLevel
  import LeafConsolidation
  import TreeProofs
  import TreeResults

  ghost function From(pairs: set<KeyValuePair>, key: int): set<KeyValuePair> {
    set x | x in pairs && x.first >= key
  }

  ghost function Beyond(pairs: set<KeyValuePair>, high: KeyNodeIDPair): set<KeyValuePair> {
    set x | x in pairs && !BelowHigh(high, x.first)
  }

  // No leaf is being removed.
  ghost predicate NoRemovals(s: State) {
    forall id :: id in s.leaves ==> !s.leaves[id].Remove?
  }

  // Every tree that the steps of TreeMachine reach can be iterated over.
  lemma {:induction false} NeverRemoved(acts: seq<Action>, run: seq<State>, j: nat)
    requires IsRun(acts, run) && j <= |acts|
    ensures Inv(run[j]) && NoRemovals(run[j])
  {
    TreeResults.InvAlways(acts, run, j);
    if j > 0 {
      NeverRemoved(acts, run, j - 1);
      StepKeepsLeaves(run[j - 1], acts[j - 1]);
    }
  }

  lemma StepKeepsLeaves(s: State, a: Action)
    requires NoRemovals(s)
    ensures NoRemovals(Step(s, a))
  {
    hide AllResolve, ViewOf, Settled, Known, L.Locate, I.Find;
  }

  // No key spans two leaves: the pairs from a key on are those of its leaf from that key on, and
  // everything at or above the high key.
  lemma PairsFromKey(s: State, id: NodeID, key: int, items: seq<KeyValuePair>)
    requires Inv(s) && TreeResults.CoveringLeaf(s, key, id) && LeafConsolidation.Consolidates(s.leaves[id], items)
    ensures var high := s.leaves[id].High();
            && From(PairsIn(s), key) == ToSet(items[LowerBound(items, key)..]) + Beyond(PairsIn(s), high)
            && (forall x :: x in items ==> x in PairsIn(s) && BelowHigh(high, x.first))
  {
    hide Inv, TreeResults.CoveringLeaf, LeafConsolidation.Consolidates, LL.PairsOf;
    LeafItems(s, id, key, items);
    var c := s.leaves[id];
    forall x ensures x in items[LowerBound(items, key)..] <==> x in items && x.first >= key {
      InTail(items, key, x);
    }
    forall x: KeyValuePair | x.first >= key ensures L.InRange(c, x.first) <==> BelowHigh(c.High(), x.first) {}
  }

  // The consolidated leaf holds exactly the pairs of its range.
  lemma LeafItems(s: State, id: NodeID, key: int, items: seq<KeyValuePair>)
    requires Inv(s) && TreeResults.CoveringLeaf(s, key, id) && LeafConsolidation.Consolidates(s.leaves[id], items)
    ensures id in s.leaves && Sorted(items) && L.InRange(s.leaves[id], key)
    ensures forall x :: x in items ==> L.InRange(s.leaves[id], x.first)
    ensures forall x: KeyValuePair :: L.InRange(s.leaves[id], x.first) ==> (x in PairsIn(s) <==> x in items)
  {
    var path, nodes := s.leafPath, Nodes(s.leaves, s.leafPath);
    var i :| 0 <= i < |path| && path[i] == id;
    assert LL.LeafOk(nodes, i);
    L.ContentsInRange(nodes[i]);
    assert forall x :: x in items <==> x in ToSet(items);
    hide L.WellFormed, L.Contents, LL.PairsOf, ToSet, NoDuplicates, IL.Indexed;
    forall x: KeyValuePair | L.InRange(nodes[i], x.first) ensures x in PairsIn(s) <==> x in items {
      LL.CoversIsInRange(path, nodes, i, x.first);
      LL.PairInCover(path, nodes, i, x);
    }
  }

  lemma InTail(items: seq<KeyValuePair>, key: int, x: KeyValuePair)
    requires Sorted(items)
    ensures x in items[LowerBound(items, key)..] <==> x in items && x.first >= key
  {
    var kv := LowerBound(items, key);
    if x in items && x.first >= key {
      var j :| 0 <= j < |items| && items[j] == x;
      assert items[kv..][j - kv] == x;
    }
    if x in items[kv..] {
      var j :| 0 <= j < |items| - kv && items[kv..][j] == x;
      assert items[kv + j] == x && items[kv].first <= items[kv + j].first;
    }
  }

  class ForwardIterator {
    // The cached leaf, consolidated, and the position in it.
    var items: seq<KeyValuePair>
    var high: KeyNodeIDPair
    var kv: nat

    // Everything that the iterator has still to visit.
    ghost function Remaining(s: State): set<KeyValuePair>
      requires Inv(s) && kv <= |items|
      reads this
    {
      ToSet(items[kv..]) + Beyond(PairsIn(s), high)
    }

    ghost predicate Valid(s: State)
      requires Inv(s)
      reads this
    {
      && kv <= |items| && Sorted(items) && NoDuplicates(items)
      && (forall x :: x in items ==> x in PairsIn(s) && BelowHigh(high, x.first))
    }

    predicate IsEnd()
      reads this
    {
      high.second == INVALID_NODE_ID && kv == |items|
    }

    // Either there is a current pair, or nothing is left.
    ghost predicate OnPairOrEnd()
      reads this
    {
      kv < |items| || IsEnd()
    }

    constructor Begin(s: State, startKey: int, hash: KeyValuePair -> bv64)
      requires Inv(s) && NoRemovals(s)
      ensures Valid(s) && OnPairOrEnd() && Remaining(s) == From(PairsIn(s), startKey)
    {
      items, high, kv := [], Pair(0, INVALID_NODE_ID), 0;
      new;
      LowerBound(s, startKey, hash);
    }

    // Loads the leaf of the start key and goes on over empty rests of leaves.
    method LowerBound(s: State, startKey0: int, hash: KeyValuePair -> bv64)
      requires Inv(s) && NoRemovals(s)
      modifies this
      ensures Valid(s) && OnPairOrEnd() && Remaining(s) == From(PairsIn(s), startKey0)
    {
      hide Inv, NoRemovals;
      var startKey := startKey0;
      ghost var i: nat := 0;
      ghost var loaded := false;
      while true
        invariant From(PairsIn(s), startKey) == From(PairsIn(s), startKey0)
        invariant i <= Width(s) && (!loaded ==> i == 0)
        invariant loaded ==> i < Width(s) && HighOf(s, i).first == startKey && HighOf(s, i).second != INVALID_NODE_ID
        decreases Width(s) - i, !loaded
      {
        i := Load(s, startKey, hash, i, loaded);
        loaded := true;
        if kv != |items| {
          break;
        }
        if IsEnd() {
          break;
        }
        RestIsBeyond(s, startKey);
        startKey := high.first;
      }
    }

    // One traversal: the leaf lies behind the one loaded before.
    method Load(s: State, startKey: int, hash: KeyValuePair -> bv64, ghost before: nat, ghost loaded: bool)
      returns (ghost i: nat)
      requires Inv(s) && NoRemovals(s)
      requires loaded ==> before < Width(s) && HighOf(s, before).second != INVALID_NODE_ID && HighOf(s, before).first == startKey
      modifies this
      ensures Valid(s) && Remaining(s) == From(PairsIn(s), startKey)
      ensures kv < |items| ==> items[kv].first >= startKey
      ensures i < Width(s) && high == HighOf(s, i) && (loaded ==> i > before)
    {
      var id := TreeResults.Traverse(s, startKey);
      LeafIsCollectable(s, startKey, id);
      var leaf := LeafConsolidation.CollectAllValuesOnLeaf(s.leaves[id], hash);
      items := leaf.data[..leaf.end];
      high := s.leaves[id].High();
      kv := Pairs.LowerBound(items, startKey);
      PairsFromKey(s, id, startKey, items);
      i := CoverBehind(s, startKey, id, before, loaded);
    }

    lemma RestIsBeyond(s: State, startKey: int)
      requires Inv(s) && Valid(s) && kv == |items| && !IsEnd() && Remaining(s) == From(PairsIn(s), startKey)
      ensures From(PairsIn(s), high.first) == From(PairsIn(s), startKey)
    {
      assert items[kv..] == [];
    }

    // Steps to the next pair, on the next leaf if this one is drained.
    method MoveAheadByOne(s: State, hash: KeyValuePair -> bv64)
      requires Inv(s) && NoRemovals(s) && Valid(s) && kv < |items|
      modifies this
      ensures Valid(s) && OnPairOrEnd()
      ensures Remaining(s) == old(Remaining(s)) - {old(items[kv])}
      ensures old(items[kv]) in old(Remaining(s))
    {
      hide Inv, NoRemovals;
      CurrentIsLeast(s);
      kv := kv + 1;
      if kv == |items| {
        if IsEnd() {
          return;
        }
        assert items[kv..] == [];
        BeyondIsFrom(PairsIn(s), high);
        LowerBound(s, high.first, hash);
      }
    }

    lemma Position(s: State)
      requires Inv(s) && Valid(s) && OnPairOrEnd()
      ensures kv <= |items| && (!IsEnd() ==> kv < |items|)
    {
    }

    lemma NothingRemains(s: State)
      requires Inv(s) && Valid(s) && IsEnd()
      ensures Remaining(s) == {}
    {
      assert items[kv..] == [];
    }

    // The current pair comes before everything else that remains.
    lemma CurrentIsLeast(s: State)
      requires Inv(s) && Valid(s) && kv < |items|
      ensures items[kv] in Remaining(s)
      ensures forall x :: x in Remaining(s) ==> items[kv].first <= x.first
      ensures ToSet(items[kv + 1..]) + Beyond(PairsIn(s), high) == Remaining(s) - {items[kv]}
    {
      hide Inv;
      assert items[kv..] == [items[kv]] + items[kv + 1..];
      assert items[kv] in items;
      forall x | x in items[kv + 1..] ensures x != items[kv] && items[kv].first <= x.first {
        var j :| 0 <= j < |items| - kv - 1 && items[kv + 1..][j] == x;
        assert items[kv + 1 + j] == x;
      }
    }
  }

  lemma BeyondIsFrom(pairs: set<KeyValuePair>, high: KeyNodeIDPair)
    requires high.second != INVALID_NODE_ID
    ensures Beyond(pairs, high) == From(pairs, high.first)
  {
  }

  ghost function Width(s: State): nat {
    |s.leafPath|
  }

  ghost function HighOf(s: State, i: nat): KeyNodeIDPair
    requires Inv(s) && i < Width(s)
  {
    LeavesResolve(s);
    s.leaves[s.leafPath[i]].High()
  }

  lemma LeavesResolve(s: State)
    requires Inv(s)
    ensures forall i :: 0 <= i < |s.leafPath| ==> s.leafPath[i] in s.leaves
  {
  }

  lemma LeafIsCollectable(s: State, key: int, id: NodeID)
    requires Inv(s) && NoRemovals(s) && TreeResults.CoveringLeaf(s, key, id)
    ensures id in s.leaves && L.WellFormed(s.leaves[id]) && !s.leaves[id].Remove?
  {
    var i :| 0 <= i < |s.leafPath| && s.leafPath[i] == id;
    assert LL.LeafOk(Nodes(s.leaves, s.leafPath), i);
  }

  // The leaf that covers the high key of another one lies behind it.
  lemma CoverBehind(s: State, key: int, id: NodeID, before: nat, loaded: bool) returns (i: nat)
    requires Inv(s) && TreeResults.CoveringLeaf(s, key, id)
    requires loaded ==> before < Width(s) && HighOf(s, before).second != INVALID_NODE_ID && HighOf(s, before).first == key
    ensures i < Width(s) && s.leafPath[i] == id && id in s.leaves && s.leaves[id].High() == HighOf(s, i)
    ensures loaded ==> i > before
  {
    i :| 0 <= i < |s.leafPath| && s.leafPath[i] == id;
    var nodes := Nodes(s.leaves, s.leafPath);
    var level := LL.Spans(s.leafPath, nodes);
    LL.CoversIsInRange(s.leafPath, nodes, i, key);
    if loaded && i < before {
      assert LL.LeafOk(nodes, before);
      L.ContentsInRange(nodes[before]);
      NotBeyond(level, i, before, key);
    }
  }

  // What has been visited comes before what remains, and both together are the target.
  ghost predicate Progress(visited: seq<KeyValuePair>, remaining: set<KeyValuePair>, target: set<KeyValuePair>) {
    && Sorted(visited) && NoDuplicates(visited)
    && ToSet(visited) !! remaining && ToSet(visited) + remaining == target
    && forall x, y :: x in visited && y in remaining ==> x.first <= y.first
  }

  lemma VisitNext(visited: seq<KeyValuePair>, x: KeyValuePair, remaining: set<KeyValuePair>, target: set<KeyValuePair>)
    requires Progress(visited, remaining, target) && x in remaining
    requires forall y :: y in remaining ==> x.first <= y.first
    ensures Progress(visited + [x], remaining - {x}, target) && |remaining - {x}| < |remaining|
  {
    var r := visited + [x];
    forall i | 0 <= i < |visited| ensures visited[i] in visited && visited[i].first <= x.first && visited[i] != x {
      assert visited[i] in ToSet(visited);
    }
    assert ToSet(r) == ToSet(visited) + {x};
  }

  // Iterating from a start key visits every pair with a key >= start key exactly once, in
  // non-decreasing key order, and then reaches the end.
  method Enumerate(s: State, startKey: int, hash: KeyValuePair -> bv64) returns (visited: seq<KeyValuePair>)
    requires Inv(s) && NoRemovals(s)
    ensures Sorted(visited) && NoDuplicates(visited) && ToSet(visited) == From(PairsIn(s), startKey)
  {
    hide Inv, NoRemovals, Progress, Beyond, From, ForwardIterator.Valid, ForwardIterator.OnPairOrEnd, ForwardIterator.Remaining;
    var it := new ForwardIterator.Begin(s, startKey, hash);
    visited := [];
    ghost var target := From(PairsIn(s), startKey);
    it.Position(s);
    NothingVisited(target);
    while !it.IsEnd()
      invariant fresh(it) && it.kv <= |it.items| && it.Valid(s) && it.OnPairOrEnd()
      invariant !it.IsEnd() ==> it.kv < |it.items|
      invariant Progress(visited, it.Remaining(s), target)
      decreases |it.Remaining(s)|
    {
      it.CurrentIsLeast(s);
      VisitNext(visited, it.items[it.kv], it.Remaining(s), target);
      visited := visited + [it.items[it.kv]];
      it.MoveAheadByOne(s, hash);
      it.Position(s);
    }
    it.NothingRemains(s);
    AllVisited(visited, it.Remaining(s), target);
  }

  lemma NothingVisited(target: set<KeyValuePair>)
    ensures Progress([], target, target)
  {
  }

  lemma AllVisited(visited: seq<KeyValuePair>, remaining: set<KeyValuePair>, target: set<KeyValuePair>)
    requires Progress(visited, remaining, target) && remaining == {}
    ensures Sorted(visited) && NoDuplicates(visited) && ToSet(visited) == target
  {
  }
}
