// The whole tree as a transition system: leaf data, leaf and inner splits, index-term inserts, root
// replacement and consolidations. Each step is one successful compare-and-swap.
module TreeMachine {
  import opened Options
  import opened Pairs
  import opened Levels
  import L = LeafChain
  import LL = LeafLevel
  import I = InnerChain
  import IL = InnerLevel
  import LeafConsolidation
  import InnerConsolidation

  const ROOT_NODE_ID: NodeID := 1
  const FIRST_LEAF_NODE_ID: NodeID := 2

  // A NodeID never changes its level, so the mapping table is kept level by level. The paths are
  // history: the NodeIDs of a level in key order. No step branches on them.
  datatype Upper = Upper(table: map<NodeID, I.Chain>, path: seq<NodeID>)

  datatype State = State(leaves: map<NodeID, L.Chain>, leafPath: seq<NodeID>, uppers: seq<Upper>, rootId: NodeID,
                         nextId: NodeID)

  function Initial(): State {
    var none := Pair(0, INVALID_NODE_ID);
    var first := Pair(0, FIRST_LEAF_NODE_ID);
    State(map[FIRST_LEAF_NODE_ID := L.Leaf(none, none, [])], [FIRST_LEAF_NODE_ID],
          [Upper(map[ROOT_NODE_ID := I.Inner(first, none, [first], 0)], [ROOT_NODE_ID])],
          ROOT_NODE_ID, FIRST_LEAF_NODE_ID + 1)
  }

  // ---------- levels: 0 is the leaf level, h + 1 is that of uppers[h] ----------

  ghost predicate LeavesOk(s: State) {
    Resolves(s.leaves, s.leafPath) && LL.LevelOk(s.leafPath, Nodes(s.leaves, s.leafPath))
  }

  ghost predicate UpperOk(u: Upper) {
    Resolves(u.table, u.path) && IL.LevelOk(u.path, Nodes(u.table, u.path))
  }

  // The high key below a split record on top of a node.
  function LeafHalf(c: L.Chain): Option<KeyNodeIDPair> {
    if c.Split? then Some(c.child.High()) else None
  }

  function InnerHalf(c: I.Chain): Option<KeyNodeIDPair> {
    if c.Split? then Some(c.child.High()) else None
  }

  datatype View = View(spans: seq<Span>, half: seq<Option<KeyNodeIDPair>>)

  function LeafView(path: seq<NodeID>, nodes: seq<L.Chain>): (v: View)
    requires |path| == |nodes|
    ensures |v.spans| == |v.half| == |path|
  {
    View(LL.Spans(path, nodes), seq(|nodes|, i requires 0 <= i < |nodes| => LeafHalf(nodes[i])))
  }

  function UpperView(path: seq<NodeID>, nodes: seq<I.Chain>): (v: View)
    requires |path| == |nodes|
    ensures |v.spans| == |v.half| == |path|
  {
    View(IL.Spans(path, nodes), seq(|nodes|, i requires 0 <= i < |nodes| => InnerHalf(nodes[i])))
  }

  ghost predicate AllResolve(s: State) {
    Resolves(s.leaves, s.leafPath) && forall h :: 0 <= h < |s.uppers| ==> Resolves(s.uppers[h].table, s.uppers[h].path)
  }

  ghost function ViewOf(s: State, h: nat): (v: View)
    requires AllResolve(s) && h <= |s.uppers|
    ensures |v.spans| == |v.half|
  {
    if h == 0 then LeafView(s.leafPath, Nodes(s.leaves, s.leafPath))
    else
      var u := s.uppers[h - 1];
      UpperView(u.path, Nodes(u.table, u.path))
  }

  // The nodes of the level above; none above the root level.
  ghost function Parents(s: State, h: nat): seq<I.Chain>
    requires AllResolve(s) && h <= |s.uppers|
  {
    if h == |s.uppers| then [] else Nodes(s.uppers[h].table, s.uppers[h].path)
  }

  ghost predicate LevelInv(s: State, h: nat)
    requires AllResolve(s) && h <= |s.uppers|
  {
    IL.Indexed(Parents(s, h), ViewOf(s, h).spans, ViewOf(s, h).half)
  }

  ghost predicate IdsOk(s: State) {
    && s.nextId > FIRST_LEAF_NODE_ID
    && (forall id :: id in s.leafPath ==> id < s.nextId)
    && (forall h, id :: 0 <= h < |s.uppers| && id in s.uppers[h].path ==> id < s.nextId)
  }

  ghost predicate Inv(s: State) {
    && LeavesOk(s) && |s.uppers| > 0 && IdsOk(s)
    && (forall h :: 0 <= h < |s.uppers| ==> UpperOk(s.uppers[h]))
    && (forall h :: 0 <= h <= |s.uppers| ==> LevelInv(s, h))
    && |s.uppers[|s.uppers| - 1].path| > 0 && s.rootId == s.uppers[|s.uppers| - 1].path[0]
  }

  // The pairs of the tree.
  ghost function PairsIn(s: State): set<KeyValuePair>
    requires Inv(s)
  {
    LL.PairsOf(Nodes(s.leaves, s.leafPath))
  }

  // ---------- what writers wait for ----------

  // A writer runs FinishPartialSMO on every node it loads (bwtree.h:5013 and 5039) before it posts
  // anything on it: if a split record is on top, its index term has been posted. That this guard and
  // the next two hold whenever a compare-and-swap succeeds is TreeRefinement.WritersRefineTheTree.
  ghost predicate Settled(s: State, h: nat, i: nat)
    requires AllResolve(s) && h <= |s.uppers| && i < |ViewOf(s, h).spans|
  {
    var v := ViewOf(s, h);
    v.half[i].Some? && i + 1 < |v.spans| ==> IL.Refers(Parents(s, h), IL.PairOf(v.spans[i + 1]))
  }

  // It only gets to a node over an index term, or as the first node of its level.
  ghost predicate Known(s: State, h: nat, i: nat)
    requires AllResolve(s) && h <= |s.uppers| && i < |ViewOf(s, h).spans|
  {
    i == 0 || IL.Refers(Parents(s, h), IL.PairOf(ViewOf(s, h).spans[i]))
  }

  // ---------- steps ----------

  // Nodes are named by their level and their position on its path.
  datatype Action =
    | InsertItem(i: nat, item: KeyValuePair)
    | DeleteItem(i: nat, item: KeyValuePair)
    | ConsolidateLeaf(i: nat, leafItems: seq<KeyValuePair>)
    | SplitLeaf(i: nat, at: nat)
    | ConsolidateInner(h: nat, i: nat, innerItems: seq<KeyNodeIDPair>, depth: nat)
    | SplitInner(h: nat, i: nat)
    | PostTerm(h: nat, i: nat, parent: nat)
    | GrowRoot

  function LeafAt(s: State, i: nat): L.Chain
    requires i < |s.leafPath| && s.leafPath[i] in s.leaves
  {
    s.leaves[s.leafPath[i]]
  }

  function InnerAt(s: State, h: nat, i: nat): I.Chain
    requires h < |s.uppers| && i < |s.uppers[h].path| && s.uppers[h].path[i] in s.uppers[h].table
  {
    s.uppers[h].table[s.uppers[h].path[i]]
  }

  // The parent was reached before the child, and its range holds the split key (bwtree.h:5754).
  ghost predicate ReachedThrough(above: seq<Span>, m: nat, below: seq<Span>, i: nat)
    requires m < |above| && i < |below|
  {
    (m > 0 ==> i > 0 && above[m].low <= below[i].low) && BelowHigh(above[m].high, below[i].high.first)
  }

  ghost predicate Enabled(s: State, a: Action) {
    && AllResolve(s) && |s.uppers| > 0
    && match a
       case InsertItem(i, item) =>
         i < |s.leafPath| && Settled(s, 0, i) && !LeafAt(s, i).Remove? && L.InRange(LeafAt(s, i), item.first)
           && !L.Locate(LeafAt(s, i), item).found
       case DeleteItem(i, item) =>
         i < |s.leafPath| && Settled(s, 0, i) && !LeafAt(s, i).Remove? && L.InRange(LeafAt(s, i), item.first)
           && L.Locate(LeafAt(s, i), item).found
       case ConsolidateLeaf(i, items) =>
         i < |s.leafPath| && Settled(s, 0, i) && !LeafAt(s, i).Remove?
           && LeafConsolidation.Consolidates(LeafAt(s, i), items)
       case SplitLeaf(i, at) =>
         i < |s.leafPath| && Known(s, 0, i) && LeafAt(s, i).Leaf? && LL.IsSplitPoint(LeafAt(s, i).items, at)
       case ConsolidateInner(h, i, items, _) =>
         h < |s.uppers| && i < |s.uppers[h].path| && Settled(s, h + 1, i)
           && InnerConsolidation.Consolidates(InnerAt(s, h, i), items)
       case SplitInner(h, i) =>
         h < |s.uppers| && i < |s.uppers[h].path| && Known(s, h + 1, i) && InnerAt(s, h, i).Inner?
           && |InnerAt(s, h, i).items| >= 2
       case PostTerm(h, i, parent) =>
         h < |s.uppers| && i < |ViewOf(s, h).spans| && ViewOf(s, h).half[i].Some?
           && parent < |s.uppers[h].path| && Settled(s, h + 1, parent)
           && ReachedThrough(ViewOf(s, h + 1).spans, parent, ViewOf(s, h).spans, i)
           && I.Find(InnerAt(s, h, parent), InnerAt(s, h, parent).Low().second, ViewOf(s, h).spans[i].high.first).item == None
       case GrowRoot =>
         var root := s.uppers[|s.uppers| - 1];
         |root.path| > 0 && root.path[0] == s.rootId && InnerAt(s, |s.uppers| - 1, 0).Split?
  }

  function WithLeaf(s: State, i: nat, c: L.Chain): State
    requires i < |s.leafPath|
  {
    s.(leaves := s.leaves[s.leafPath[i] := c])
  }

  function WithInner(s: State, h: nat, i: nat, c: I.Chain): State
    requires h < |s.uppers| && i < |s.uppers[h].path|
  {
    var u := s.uppers[h];
    s.(uppers := s.uppers[h := u.(table := u.table[u.path[i] := c])])
  }

  // The index term of the half-finished split of node i of level h: the high key of that node, with
  // the high key below the split record as its neighbour.
  ghost function Term(s: State, h: nat, i: nat, parent: nat): I.Chain
    requires AllResolve(s) && h < |s.uppers| && i < |ViewOf(s, h).spans| && ViewOf(s, h).half[i].Some?
    requires parent < |s.uppers[h].path|
  {
    var p, item := InnerAt(s, h, parent), ViewOf(s, h).spans[i].high;
    I.Insert(item, ViewOf(s, h).half[i].value, I.Find(p, p.Low().second, item.first).location, p)
  }

  ghost function Step(s: State, a: Action): State {
    if !Enabled(s, a) then s
    else match a
      case InsertItem(i, item) =>
        WithLeaf(s, i, L.Insert(item, L.Locate(LeafAt(s, i), item).indexPair, LeafAt(s, i)))
      case DeleteItem(i, item) =>
        WithLeaf(s, i, L.Delete(item, L.Locate(LeafAt(s, i), item).indexPair, LeafAt(s, i)))
      case ConsolidateLeaf(i, items) =>
        WithLeaf(s, i, L.Leaf(LeafAt(s, i).Low(), LeafAt(s, i).High(), items))
      case SplitLeaf(i, at) =>
        var c := LeafAt(s, i);
        s.(leaves := s.leaves[s.nextId := LL.SplitSibling(c, at)][s.leafPath[i] := LL.SplitRecord(c, at, s.nextId)],
           leafPath := InsertBehind(s.leafPath, i, s.nextId), nextId := s.nextId + 1)
      case ConsolidateInner(h, i, items, depth) =>
        WithInner(s, h, i, I.Inner(InnerAt(s, h, i).Low(), InnerAt(s, h, i).High(), items, depth))
      case SplitInner(h, i) =>
        var c, u := InnerAt(s, h, i), s.uppers[h];
        var at := |c.items| / 2;
        var u' := Upper(u.table[s.nextId := IL.SplitSibling(c, at)][u.path[i] := IL.SplitRecord(c, at, s.nextId)],
                        InsertBehind(u.path, i, s.nextId));
        s.(uppers := s.uppers[h := u'], nextId := s.nextId + 1)
      case PostTerm(h, i, parent) => WithInner(s, h, parent, Term(s, h, i, parent))
      case GrowRoot =>
        var first := Pair(0, s.rootId);
        var root := I.Inner(first, Pair(0, INVALID_NODE_ID), [first, InnerAt(s, |s.uppers| - 1, 0).insertItem], 0);
        s.(uppers := s.uppers + [Upper(map[s.nextId := root], [s.nextId])], rootId := s.nextId, nextId := s.nextId + 1)
  }

  ghost predicate IsRun(acts: seq<Action>, run: seq<State>) {
    && |run| == |acts| + 1 && run[0] == Initial()
    && forall j :: 0 <= j < |acts| ==> run[j + 1] == Step(run[j], acts[j])
  }
}
