// The leaf level as a transition system: every successful compare-and-swap on the mapping table is
// one step. A failed one changes nothing, and so does a disabled action.
module LeafMachine {
  import opened Pairs
  import opened LeafChain
  import opened LeafConsolidation
  import opened LeafLevel
  import opened Levels

  const FIRST_LEAF_NODE_ID: NodeID := 2

  // `path` is history: the leaves that can be reached over the sibling links, in key order. No step
  // branches on it. NodeIDs are fresh: recycling them is left out.
  datatype State = State(table: map<NodeID, Chain>, path: seq<NodeID>, nextId: NodeID)

  datatype Action =
    | InsertItem(id: NodeID, item: KeyValuePair)
    | DeleteItem(id: NodeID, item: KeyValuePair)
    | Consolidate(id: NodeID, items: seq<KeyValuePair>)
    | SplitLeaf(id: NodeID, at: nat)
    | RemoveLeaf(id: NodeID)
    | MergeLeaf(left: NodeID, removed: NodeID)

  function Initial(): State {
    var first := Leaf(Pair(0, INVALID_NODE_ID), Pair(0, INVALID_NODE_ID), []);
    State(map[FIRST_LEAF_NODE_ID := first], [FIRST_LEAF_NODE_ID], FIRST_LEAF_NODE_ID + 1)
  }

  ghost predicate Enabled(s: State, a: Action) {
    match a
    case InsertItem(id, item) =>
      id in s.table && !s.table[id].Remove? && InRange(s.table[id], item.first) && !Locate(s.table[id], item).found
    case DeleteItem(id, item) =>
      id in s.table && !s.table[id].Remove? && InRange(s.table[id], item.first) && Locate(s.table[id], item).found
    case Consolidate(id, items) =>
      id in s.table && !s.table[id].Remove? && !s.table[id].Leaf? && Consolidates(s.table[id], items)
    case SplitLeaf(id, at) => id in s.table && s.table[id].Leaf? && IsSplitPoint(s.table[id].items, at)
    // The first leaf is the leftmost child of its parent, which AdjustNodeSize never removes.
    case RemoveLeaf(id) => id in s.table && s.table[id].Leaf? && s.table[id].low.second != INVALID_NODE_ID
    // JumpToLeftSibling compares the next NodeID before the merge record is posted.
    case MergeLeaf(left, removed) =>
      && left in s.table && removed in s.table
      && !s.table[left].Remove? && s.table[removed].Remove? && s.table[left].High().second == removed
  }

  function IndexOf(path: seq<NodeID>, id: NodeID): (i: nat)
    ensures i <= |path| && (i < |path| ==> path[i] == id)
    ensures forall j :: 0 <= j < i ==> path[j] != id
  {
    if path == [] || path[0] == id then 0 else 1 + IndexOf(path[1..], id)
  }

  ghost function Step(s: State, a: Action): State {
    if !Enabled(s, a) then s
    else match a
      case InsertItem(id, item) =>
        s.(table := s.table[id := Insert(item, Locate(s.table[id], item).indexPair, s.table[id])])
      case DeleteItem(id, item) =>
        s.(table := s.table[id := Delete(item, Locate(s.table[id], item).indexPair, s.table[id])])
      case Consolidate(id, items) =>
        s.(table := s.table[id := Leaf(s.table[id].Low(), s.table[id].High(), items)])
      case SplitLeaf(id, at) =>
        State(s.table[s.nextId := SplitSibling(s.table[id], at)][id := SplitRecord(s.table[id], at, s.nextId)],
              var i := IndexOf(s.path, id);
              if i < |s.path| then InsertBehind(s.path, i, s.nextId) else s.path, s.nextId + 1)
      case RemoveLeaf(id) => s.(table := s.table[id := Remove(id, s.table[id])])
      case MergeLeaf(left, removed) =>
        var merge := MergedLeaf(s.table[left], s.table[removed], removed);
        var i := IndexOf(s.path, left);
        s.(table := s.table[left := merge], path := if i + 1 < |s.path| then DropBehind(s.path, i) else s.path)
  }

  ghost predicate IsRun(acts: seq<Action>, run: seq<State>) {
    && |run| == |acts| + 1 && run[0] == Initial()
    && forall j :: 0 <= j < |acts| ==> run[j + 1] == Step(run[j], acts[j])
  }

  // ---------- the invariant ----------

  // NodeIDs are handed out in order, and what cannot be reached any more has been removed.
  ghost predicate IdsOk(s: State) {
    && (forall id :: id in s.table ==> id < s.nextId)
    && (forall id :: id in s.table && id !in s.path ==> s.table[id].Remove?)
    && s.nextId > FIRST_LEAF_NODE_ID && INVALID_NODE_ID !in s.table
  }

  ghost predicate Inv(s: State) {
    Resolves(s.table, s.path) && LevelOk(s.path, Nodes(s.table, s.path)) && IdsOk(s)
  }

  // The pairs of the tree.
  ghost function Contained(s: State): set<KeyValuePair>
    requires Inv(s)
  {
    PairsOf(Nodes(s.table, s.path))
  }

  // Leaves that are not being removed can be reached.
  lemma LiveIsReachable(s: State, id: NodeID) returns (i: nat)
    requires Inv(s) && id in s.table && !s.table[id].Remove?
    ensures i == IndexOf(s.path, id) && i < |s.path| && s.path[i] == id
    ensures i < |Nodes(s.table, s.path)| && Nodes(s.table, s.path)[i] == s.table[id] && WellFormed(s.table[id])
    ensures s.table[id].Low().second == INVALID_NODE_ID <==> i == 0
  {
    i := IndexOf(s.path, id);
    assert LeafOk(Nodes(s.table, s.path), i);
  }

  lemma InitialInv()
    ensures Inv(Initial()) && Contained(Initial()) == {}
  {
    var s := Initial();
    var nodes := Nodes(s.table, s.path);
    assert LeafOk(nodes, 0);
    assert Chained(Spans(s.path, nodes));
  }

  lemma InvParts(s: State)
    requires Inv(s)
    ensures Resolves(s.table, s.path) && LevelOk(s.path, Nodes(s.table, s.path)) && IdsOk(s)
    ensures Contained(s) == PairsOf(Nodes(s.table, s.path))
  {
  }

  // ---------- data steps ----------

  lemma ReplaceKeepsInv(s: State, i: nat, c: Chain)
    requires Inv(s) && i < |s.path| && WellFormed(c)
    requires c.Low() == s.table[s.path[i]].Low() && c.High() == s.table[s.path[i]].High()
    ensures var s' := s.(table := s.table[s.path[i] := c]);
            && Inv(s') && Contained(s') == PairsOf(Nodes(s.table, s.path)[i := c])
  {
    hide WellFormed, LevelOk, NoDuplicates;
    ReplaceNode(s.table, s.path, i, c);
    ReplaceLeaf(s.path, Nodes(s.table, s.path), i, c);
  }

  // An insert adds its pair, which was absent, and a delete takes its pair away, which was present.
  lemma DataStep(s: State, a: Action)
    requires Inv(s) && Enabled(s, a) && (a.InsertItem? || a.DeleteItem?)
    ensures Inv(Step(s, a))
    ensures a.InsertItem? ==> a.item !in Contained(s) && Contained(Step(s, a)) == Contained(s) + {a.item}
    ensures a.DeleteItem? ==> a.item in Contained(s) && Contained(Step(s, a)) == Contained(s) - {a.item}
  {
    hide WellFormed, Inv, Locate, PairsOf, Step, Enabled, Contained, IdsOk, LevelOk;
    DataStepUnfolds(s, a);
    var i := LiveIsReachable(s, a.id);
    var c := s.table[a.id];
    LocateIsExact(c, a.item);
    PostedIsWellFormed(c, a.item);
    InvParts(s);
    ReplaceKeepsInv(s, i, Posted(c, a));
    ReplaceRecordPairs(s.path, Nodes(s.table, s.path), i, Posted(c, a), a.item);
  }

  function Posted(c: Chain, a: Action): Chain
    requires a.InsertItem? || a.DeleteItem?
  {
    var indexPair := Locate(c, a.item).indexPair;
    if a.InsertItem? then Insert(a.item, indexPair, c) else Delete(a.item, indexPair, c)
  }

  lemma DataStepUnfolds(s: State, a: Action)
    requires Enabled(s, a) && (a.InsertItem? || a.DeleteItem?)
    ensures a.id in s.table && !s.table[a.id].Remove? && InRange(s.table[a.id], a.item.first)
    ensures Locate(s.table[a.id], a.item).found == a.DeleteItem?
    ensures Step(s, a) == s.(table := s.table[a.id := Posted(s.table[a.id], a)])
  {
  }

  // Posting what the existence check allows keeps a chain well-formed.
  lemma PostedIsWellFormed(c: Chain, item: KeyValuePair)
    requires WellFormed(c) && !c.Remove? && InRange(c, item.first)
    ensures var found := Locate(c, item);
            && (!found.found ==> WellFormed(Insert(item, found.indexPair, c)))
            && (found.found ==> WellFormed(Delete(item, found.indexPair, c)))
  {
  }

  lemma ReplaceRecordPairs(path: seq<NodeID>, nodes: seq<Chain>, i: nat, c: Chain, item: KeyValuePair)
    requires LevelOk(path, nodes) && i < |nodes| && WellFormed(c) && InRange(c, item.first)
    requires c.Low() == nodes[i].Low() && c.High() == nodes[i].High()
    requires forall x :: x != item ==> (x in Contents(c) <==> x in Contents(nodes[i]))
    ensures item in PairsOf(nodes) <==> item in Contents(nodes[i])
    ensures PairsOf(nodes[i := c])
         == if item in Contents(c) then PairsOf(nodes) + {item} else PairsOf(nodes) - {item}
  {
    ReplaceLeafPairs(path, nodes, i, c);
  }

  lemma SamePairs(path: seq<NodeID>, nodes: seq<Chain>, i: nat, c: Chain)
    requires i < |nodes| && Contents(c) == Contents(nodes[i])
    ensures PairsOf(nodes[i := c]) == PairsOf(nodes)
  {
    hide Contents;
    var nodes' := nodes[i := c];
    forall x ensures x in PairsOf(nodes') <==> x in PairsOf(nodes) {
      if x in PairsOf(nodes) {
        var j :| 0 <= j < |nodes| && x in Contents(nodes[j]);
        assert x in Contents(nodes'[j]);
      }
    }
  }

  // ---------- structure changes ----------

  predicate IsStructureChange(a: Action) {
    !a.InsertItem? && !a.DeleteItem?
  }

  lemma ConsolidateStep(s: State, id: NodeID, items: seq<KeyValuePair>)
    requires Inv(s) && Enabled(s, Consolidate(id, items))
    ensures Inv(Step(s, Consolidate(id, items)))
    ensures Contained(Step(s, Consolidate(id, items))) == Contained(s)
  {
    var i := LiveIsReachable(s, id);
    var c' := Leaf(s.table[id].Low(), s.table[id].High(), items);
    ConsolidatedChain(s.table[id], items);
    hide WellFormed, LevelOk, Resolves, Consolidates, PairsOf;
    ReplaceKeepsInv(s, i, c');
    SamePairs(s.path, Nodes(s.table, s.path), i, c');
  }

  lemma RemoveStep(s: State, id: NodeID)
    requires Inv(s) && Enabled(s, RemoveLeaf(id))
    ensures Inv(Step(s, RemoveLeaf(id))) && Contained(Step(s, RemoveLeaf(id))) == Contained(s)
  {
    var i := LiveIsReachable(s, id);
    var c' := Remove(id, s.table[id]);
    assert WellFormed(c');
    hide WellFormed, LevelOk, Resolves, PairsOf;
    ReplaceKeepsInv(s, i, c');
    SamePairs(s.path, Nodes(s.table, s.path), i, c');
  }

  // The state after the split of the leaf at position i of the path.
  function Splitted(s: State, i: nat, at: nat): State
    requires i < |s.path| && s.path[i] in s.table && s.table[s.path[i]].Leaf? && at < |s.table[s.path[i]].items|
  {
    var c := s.table[s.path[i]];
    State(s.table[s.nextId := SplitSibling(c, at)][s.path[i] := SplitRecord(c, at, s.nextId)],
          InsertBehind(s.path, i, s.nextId), s.nextId + 1)
  }

  lemma SplitKeepsInv(s: State, i: nat, at: nat)
    requires Inv(s) && i < |s.path| && s.table[s.path[i]].Leaf? && IsSplitPoint(s.table[s.path[i]].items, at)
    ensures var s' := Splitted(s, i, at); Inv(s') && Contained(s') == Contained(s)
  {
    var c, nodes := s.table[s.path[i]], Nodes(s.table, s.path);
    FreshIsNew(s);
    hide WellFormed, LevelOk, PairsOf, IsSplitPoint, NoDuplicates, InsertBehind, IdsOk;
    SplitLeafLevel(s.path, nodes, i, at, s.nextId);
    SplitNode(s.table, s.path, i, s.nextId, SplitRecord(c, at, s.nextId), SplitSibling(c, at));
    SplitKeepsIds(s, i, at);
  }

  lemma SplitKeepsIds(s: State, i: nat, at: nat)
    requires IdsOk(s) && i < |s.path| && s.path[i] in s.table
    requires s.table[s.path[i]].Leaf? && at < |s.table[s.path[i]].items|
    ensures IdsOk(Splitted(s, i, at))
  {
    InsertBehindMembers(s.path, i, s.nextId);
    hide InsertBehind;
  }

  lemma SplitStep(s: State, id: NodeID, at: nat)
    requires Inv(s) && Enabled(s, SplitLeaf(id, at))
    ensures Inv(Step(s, SplitLeaf(id, at)))
    ensures Contained(Step(s, SplitLeaf(id, at))) == Contained(s)
  {
    var i := LiveIsReachable(s, id);
    assert Step(s, SplitLeaf(id, at)) == Splitted(s, i, at);
    hide Inv, Contained, WellFormed, Step, Splitted;
    SplitKeepsInv(s, i, at);
  }

  lemma FreshIsNew(s: State)
    requires Inv(s)
    ensures s.nextId !in s.path && s.nextId !in s.table && s.nextId != INVALID_NODE_ID
  {
    forall j | 0 <= j < |s.path| ensures s.path[j] != s.nextId {
      assert s.path[j] in s.table;
    }
  }

  // The left neighbour on the path of the leaf that a merge takes over.
  lemma MergePartners(s: State, left: NodeID, removed: NodeID) returns (i: nat)
    requires Inv(s) && Enabled(s, MergeLeaf(left, removed))
    ensures i == IndexOf(s.path, left) && i + 1 < |s.path| && s.path[i] == left && s.path[i + 1] == removed
    ensures i + 1 < |Nodes(s.table, s.path)|
    ensures Nodes(s.table, s.path)[i] == s.table[left] && Nodes(s.table, s.path)[i + 1] == s.table[removed]
  {
    i := LiveIsReachable(s, left);
    var level := Spans(s.path, Nodes(s.table, s.path));
    assert level[i].high.second == removed;
    assert level[|level| - 1].high.second == INVALID_NODE_ID;
    assert Linked(level[i], level[i + 1]);
  }

  lemma MergeKeepsInv(s: State, i: nat)
    requires Inv(s) && i + 1 < |s.path| && !s.table[s.path[i]].Remove? && s.table[s.path[i + 1]].Remove?
    ensures var merged := MergedLeaf(s.table[s.path[i]], s.table[s.path[i + 1]], s.path[i + 1]);
            var s' := s.(table := s.table[s.path[i] := merged], path := DropBehind(s.path, i));
            Inv(s') && Contained(s') == Contained(s) && s.path[i + 1] !in s'.path
  {
    hide WellFormed, LevelOk, PairsOf, DropBehind;
    MergeLeafLevel(s.path, Nodes(s.table, s.path), i);
    DropNode(s.table, s.path, i, MergedLeaf(s.table[s.path[i]], s.table[s.path[i + 1]], s.path[i + 1]));
    DropBehindMembers(s.path, i);
  }

  lemma MergeStep(s: State, left: NodeID, removed: NodeID)
    requires Inv(s) && Enabled(s, MergeLeaf(left, removed))
    ensures Inv(Step(s, MergeLeaf(left, removed)))
    ensures Contained(Step(s, MergeLeaf(left, removed))) == Contained(s)
    ensures removed in s.path && removed !in Step(s, MergeLeaf(left, removed)).path
  {
    var i := MergePartners(s, left, removed);
    hide Inv, Contained, WellFormed;
    MergeKeepsInv(s, i);
  }

  // ---------- main results ----------

  lemma StepKeepsInv(s: State, a: Action)
    requires Inv(s)
    ensures Inv(Step(s, a))
    ensures IsStructureChange(a) ==> Contained(Step(s, a)) == Contained(s)
  {
    if Enabled(s, a) {
      hide Inv, Contained, WellFormed, Step, Enabled;
      match a {
        case InsertItem(_, _) => DataStep(s, a);
        case DeleteItem(_, _) => DataStep(s, a);
        case Consolidate(id, items) => ConsolidateStep(s, id, items);
        case SplitLeaf(id, at) => SplitStep(s, id, at);
        case RemoveLeaf(id) => RemoveStep(s, id);
        case MergeLeaf(left, removed) => MergeStep(s, left, removed);
      }
    }
  }

  // In every reachable state the leaves linked by their high keys are in order.
  lemma {:induction false} InvAlways(acts: seq<Action>, run: seq<State>, j: nat)
    requires IsRun(acts, run) && j <= |acts|
    ensures Inv(run[j])
  {
    if j == 0 {
      InitialInv();
    } else {
      InvAlways(acts, run, j - 1);
      StepKeepsInv(run[j - 1], acts[j - 1]);
    }
  }

  // In every reachable state the leaves partition the key space: exactly one covers a key, and a
  // pair is contained in the tree exactly if it is contained in that leaf.
  lemma LeavesPartitionTheKeys(acts: seq<Action>, run: seq<State>, j: nat, key: int) returns (i: nat)
    requires IsRun(acts, run) && j <= |acts|
    ensures var s := run[j];
            && Inv(s) && i < |s.path| && InRange(s.table[s.path[i]], key)
            && (forall k :: 0 <= k < |s.path| && InRange(s.table[s.path[k]], key) ==> k == i)
            && (forall v :: Pair(key, v) in Contained(s) <==> Pair(key, v) in Contents(s.table[s.path[i]]))
  {
    InvAlways(acts, run, j);
    var s := run[j];
    var nodes := Nodes(s.table, s.path);
    i := CoverOf(s.path, nodes, key);
    CoversIsInRange(s.path, nodes, i, key);
    forall k | 0 <= k < |s.path| && InRange(s.table[s.path[k]], key) ensures k == i {
      CoversIsInRange(s.path, nodes, k, key);
      OneCover(s.path, nodes, i, k, key);
    }
    forall v ensures Pair(key, v) in Contained(s) <==> Pair(key, v) in Contents(s.table[s.path[i]]) {
      PairInCover(s.path, nodes, i, Pair(key, v));
    }
  }

  // No split, remove, merge or consolidation ever changes the pairs of the tree.
  lemma StructureChangesKeepThePairs(acts: seq<Action>, run: seq<State>, j: nat)
    requires IsRun(acts, run) && j < |acts| && IsStructureChange(acts[j])
    ensures Inv(run[j]) && Inv(run[j + 1]) && Contained(run[j + 1]) == Contained(run[j])
  {
    InvAlways(acts, run, j);
    StepKeepsInv(run[j], acts[j]);
  }

  // Each NodeID keeps its low key for life.
  lemma StepKeepsLowKeys(s: State, a: Action, id: NodeID)
    requires Inv(s) && id in s.table
    ensures id in Step(s, a).table && Step(s, a).table[id].Low() == s.table[id].Low()
  {
    FreshIsNew(s);
  }

  lemma {:induction false} LowKeysAreForLife(acts: seq<Action>, run: seq<State>, j: nat, k: nat, id: NodeID)
    requires IsRun(acts, run) && j <= k <= |acts| && id in run[j].table
    ensures id in run[k].table && run[k].table[id].Low() == run[j].table[id].Low()
    decreases k - j
  {
    if j < k {
      LowKeysAreForLife(acts, run, j, k - 1, id);
      InvAlways(acts, run, k - 1);
      StepKeepsLowKeys(run[k - 1], acts[k - 1], id);
    }
  }

  // A leaf that has left the path stays outside, as a removed leaf.
  lemma OutsideStaysOutside(s: State, a: Action, id: NodeID)
    requires Inv(s) && id in s.table && id !in s.path
    ensures id in Step(s, a).table && id !in Step(s, a).path
  {
    FreshIsNew(s);
    if Enabled(s, a) {
      match a {
        case SplitLeaf(other, _) =>
          var i := LiveIsReachable(s, other);
          InsertBehindMembers(s.path, i, s.nextId);
        case MergeLeaf(left, removed) =>
          var i := MergePartners(s, left, removed);
          DropBehindMembers(s.path, i);
        case _ =>
      }
    }
  }

  // A removed leaf is merged at most once, whoever tries again.
  lemma {:induction false} MergedAtMostOnce(acts: seq<Action>, run: seq<State>, j: nat, k: nat, left: NodeID,
                                            left': NodeID, removed: NodeID)
    requires IsRun(acts, run) && j < k <= |acts|
    requires acts[j] == MergeLeaf(left, removed) && Enabled(run[j], acts[j])
    ensures removed in run[k].table && removed !in run[k].path
    ensures !Enabled(run[k], MergeLeaf(left', removed))
    decreases k
  {
    if k == j + 1 {
      InvAlways(acts, run, j);
      MergeStep(run[j], left, removed);
      StepKeepsLowKeys(run[j], acts[j], removed);
    } else {
      MergedAtMostOnce(acts, run, j, k - 1, left, left', removed);
      InvAlways(acts, run, k - 1);
      OutsideStaysOutside(run[k - 1], acts[k - 1], removed);
    }
    InvAlways(acts, run, k);
    if Enabled(run[k], MergeLeaf(left', removed)) {
      var i := MergePartners(run[k], left', removed);
    }
  }

  // The leaf before position i of the path names the leaf there as its right neighbour.
  ghost predicate NamesNext(s: State, i: nat)
    requires 0 < i < |s.path|
  {
    && s.path[i - 1] in s.table && s.path[i] in s.table
    && s.table[s.path[i - 1]].High() == Pair(s.table[s.path[i]].Low().first, s.path[i])
  }

  // Until then exactly one leaf can take it over: its left neighbour, which keeps naming it.
  lemma RemovedLeafHasOneMergePartner(acts: seq<Action>, run: seq<State>, j: nat, removed: NodeID)
    requires IsRun(acts, run) && j <= |acts| && removed in run[j].path
    ensures var s := run[j];
            && removed in s.table
            && (removed != s.path[0] ==> exists i :: 0 < i < |s.path| && s.path[i] == removed && NamesNext(s, i))
            && (s.path[0] == removed ==> !s.table[removed].Remove?)
  {
    InvAlways(acts, run, j);
    FirstLeafStays(acts, run, j);
    var s := run[j];
    var i :| 0 <= i < |s.path| && s.path[i] == removed;
    var level := Spans(s.path, Nodes(s.table, s.path));
    if i > 0 {
      assert Linked(level[i - 1], level[i]);
      assert NamesNext(s, i);
    }
  }

  lemma {:induction false} FirstLeafStays(acts: seq<Action>, run: seq<State>, j: nat)
    requires IsRun(acts, run) && j <= |acts|
    ensures Inv(run[j]) && run[j].path[0] == FIRST_LEAF_NODE_ID && !run[j].table[FIRST_LEAF_NODE_ID].Remove?
  {
    InvAlways(acts, run, j);
    assert Inv(run[j]) && j == 0 ==> run[j].path[0] == FIRST_LEAF_NODE_ID;
    if j > 0 {
      FirstLeafStays(acts, run, j - 1);
      hide Inv, Step;
      FirstLeafStep(run[j - 1], acts[j - 1]);
    }
  }

  lemma FirstLeafStep(s: State, a: Action)
    requires Inv(s) && s.path[0] == FIRST_LEAF_NODE_ID && !s.table[FIRST_LEAF_NODE_ID].Remove?
    requires Inv(Step(s, a))
    ensures Step(s, a).path[0] == FIRST_LEAF_NODE_ID && !Step(s, a).table[FIRST_LEAF_NODE_ID].Remove?
  {
    assert LeafOk(Nodes(s.table, s.path), 0);
    FreshIsNew(s);
  }
}
