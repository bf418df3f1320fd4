// What each step of the leaf level does to the leaves, in terms of what they hold.
module LeafSteps {
  import opened Pairs
  import opened LeafChain
  import opened LeafConsolidation
  import opened LeafLevel
  import opened LeafMachine
  import opened Levels

  // Nothing but the named entries has changed, except for fresh ones.
  ghost predicate OnlyChanges(s: State, s': State, ids: set<NodeID>) {
    forall id :: id in s.table && id !in ids ==> id in s'.table && s'.table[id] == s.table[id]
  }

  // Consolidation turns the entry into a base node with the same pairs, as many as its counter says.
  lemma ConsolidationTakesEffect(acts: seq<Action>, run: seq<State>, j: nat)
    requires IsRun(acts, run) && j < |acts| && acts[j].Consolidate? && Enabled(run[j], acts[j])
    ensures var s, s', id := run[j], run[j + 1], acts[j].id;
            && id in s'.table && s'.table[id].Leaf? && Contents(s'.table[id]) == Contents(s.table[id])
            && |s'.table[id].items| == s.table[id].ItemCount()
            && s'.table[id].Low() == s.table[id].Low() && s'.table[id].High() == s.table[id].High()
            && s'.path == s.path && s'.table.Keys == s.table.Keys && OnlyChanges(s, s', {id})
  {
    InvAlways(acts, run, j);
    var i := LiveIsReachable(run[j], acts[j].id);
    ConsolidatedChain(run[j].table[acts[j].id], acts[j].items);
    ItemCountIsExact(run[j].table[acts[j].id]);
    hide Inv, WellFormed, Consolidates;
  }

  lemma HalvesAreNotEmpty(c: Chain, at: nat, newId: NodeID)
    requires WellFormed(c) && c.Leaf? && IsSplitPoint(c.items, at) && newId != INVALID_NODE_ID
    ensures Contents(SplitRecord(c, at, newId)) != {} && Contents(SplitSibling(c, at)) != {}
    ensures ShareContents(c, c.items[at].first, SplitRecord(c, at, newId), SplitSibling(c, at))
  {
    SplitLeafIsExact(c, at, newId);
    assert c.items[at] in c.items && c.items[at - 1] in c.items;
    assert c.items[at] in Contents(SplitSibling(c, at)) && c.items[at - 1] in Contents(SplitRecord(c, at, newId));
  }

  lemma SplitIs(s: State, id: NodeID, at: nat, i: nat)
    requires Enabled(s, SplitLeaf(id, at)) && i == IndexOf(s.path, id) && i < |s.path| && s.path[i] == id
    ensures id in s.table && s.table[id].Leaf? && at < |s.table[id].items|
    ensures Step(s, SplitLeaf(id, at)) == Splitted(s, i, at)
  {
    hide IndexOf, InsertBehind, SplitSibling, SplitRecord;
  }

  // The leaf `id` has given the pairs from a key on to a fresh leaf on its right.
  ghost predicate IsSplit(s: State, s': State, id: NodeID, newId: NodeID) {
    && newId !in s.table && id in s.table && id in s'.table && newId in s'.table && OnlyChanges(s, s', {id})
    && var c, left, right := s.table[id], s'.table[id], s'.table[newId];
       && left.Low() == c.Low() && left.High() == Pair(right.Low().first, newId) && right.High() == c.High()
       && ShareContents(c, right.Low().first, left, right) && Contents(left) != {} && Contents(right) != {}
  }

  lemma SplittedIsSplit(s: State, i: nat, at: nat)
    requires i < |s.path| && s.path[i] in s.table && s.nextId !in s.table && s.nextId != INVALID_NODE_ID
    requires var c := s.table[s.path[i]]; WellFormed(c) && c.Leaf? && IsSplitPoint(c.items, at)
    ensures IsSplit(s, Splitted(s, i, at), s.path[i], s.nextId)
  {
    HalvesAreNotEmpty(s.table[s.path[i]], at, s.nextId);
    hide WellFormed, Contents, InsertBehind, ShareContents, IsSplitPoint;
  }

  // A split moves the pairs from the split key on to a fresh leaf on its right; neither half is empty.
  lemma SplitTakesEffect(acts: seq<Action>, run: seq<State>, j: nat) returns (i: nat)
    requires IsRun(acts, run) && j < |acts| && acts[j].SplitLeaf? && Enabled(run[j], acts[j])
    ensures i < |run[j].path| && run[j].path[i] == acts[j].id
    ensures run[j + 1].path == InsertBehind(run[j].path, i, run[j].nextId)
    ensures IsSplit(run[j], run[j + 1], acts[j].id, run[j].nextId)
  {
    InvAlways(acts, run, j);
    i := LiveIsReachable(run[j], acts[j].id);
    FreshIsNew(run[j]);
    SplitIs(run[j], acts[j].id, acts[j].at, i);
    SplittedIsSplit(run[j], i, acts[j].at) by { EnabledSplit(run[j], acts[j].id, acts[j].at); }
    hide Inv, WellFormed, InsertBehind, IsSplit, IsSplitPoint, Step, Enabled;
  }

  lemma EnabledSplit(s: State, id: NodeID, at: nat)
    requires Enabled(s, SplitLeaf(id, at))
    ensures id in s.table && s.table[id].Leaf? && IsSplitPoint(s.table[id].items, at)
  {
  }

  // A removed leaf keeps its pairs, but takes no more records until it is merged.
  lemma RemovalTakesEffect(acts: seq<Action>, run: seq<State>, j: nat)
    requires IsRun(acts, run) && j < |acts| && acts[j].RemoveLeaf? && Enabled(run[j], acts[j])
    ensures var s, s', id := run[j], run[j + 1], acts[j].id;
            && id in s'.table && s'.table[id].Remove? && Contents(s'.table[id]) == Contents(s.table[id])
            && s'.path == s.path && OnlyChanges(s, s', {id})
            && forall item :: !Enabled(s', InsertItem(id, item)) && !Enabled(s', DeleteItem(id, item))
  {
    hide WellFormed, Locate;
  }

  // A merge takes the removed leaf off the level: its left neighbour has its pairs and its range.
  lemma MergeTakesEffect(acts: seq<Action>, run: seq<State>, j: nat) returns (i: nat)
    requires IsRun(acts, run) && j < |acts| && acts[j].MergeLeaf? && Enabled(run[j], acts[j])
    ensures i + 1 < |run[j].path| && run[j].path[i] == acts[j].left && run[j].path[i + 1] == acts[j].removed
    ensures var s, s', left, removed := run[j], run[j + 1], acts[j].left, acts[j].removed;
            && left in s'.table && OnlyChanges(s, s', {left}) && s'.path == DropBehind(s.path, i)
            && Contents(s'.table[left]) == Contents(s.table[left]) + Contents(s.table[removed])
            && s'.table[left].High() == s.table[removed].High()
  {
    InvAlways(acts, run, j);
    i := MergePartners(run[j], acts[j].left, acts[j].removed);
    hide Inv, WellFormed, Contents, DropBehind;
    MergedContents(run[j].table[acts[j].left], run[j].table[acts[j].removed], acts[j].removed);
  }

  lemma MergedContents(left: Chain, removed: Chain, id: NodeID)
    requires removed.Remove?
    ensures Contents(MergedLeaf(left, removed, id)) == Contents(left) + Contents(removed)
    ensures MergedLeaf(left, removed, id).High() == removed.High()
  {
  }
}
