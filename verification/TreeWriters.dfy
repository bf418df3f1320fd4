// Writers of the tree as threads, with the control flow of Traverse, FinishPartialSMO,
// TryConsolidateNode and AdjustNodeSize (bwtree.h:2814-2947, 3144-3178, 5003-5060 and 5469-5815). A
// writer only knows the two snapshots it has taken and its key; what it installs is decided by a
// compare-and-swap on one entry of the mapping table, or on the root NodeID.
module TreeWriters {
  import opened Options
  import opened Pairs
  import opened Levels
  import L = LeafChain
  import LL = LeafLevel
  import I = InnerChain
  import IL = InnerLevel
  import T = TreeMachine
  import LeafConsolidation
  import InnerConsolidation
  import LeafMachine

  datatype Node = LeafNode(leaf: L.Chain) | InnerNode(inner: I.Chain)
  {
    function Low(): KeyNodeIDPair {
      if LeafNode? then leaf.Low() else inner.Low()
    }

    function High(): KeyNodeIDPair {
      if LeafNode? then leaf.High() else inner.High()
    }

    // The high key below a split record on top; the item of that record is High().
    function Half(): Option<KeyNodeIDPair> {
      if LeafNode? then T.LeafHalf(leaf) else T.InnerHalf(inner)
    }
  }

  // NodeSnapshot. `first` is history: the node was the first one of its level.
  datatype Snapshot = Snapshot(level: nat, id: NodeID, node: Node, first: bool)

  // current_snapshot and parent_snapshot of the Context; without a parent the node counts as the
  // root. `finished`: FinishPartialSMO() has returned without an abort.
  datatype Writer = Out | At(key: int, node: Snapshot, parent: Option<Snapshot>, finished: bool)

  datatype State = State(tree: T.State, writers: seq<Writer>)

  datatype Action =
    | LoadRoot(w: nat, key: int)
    | Finish(w: nat)
    | Right(w: nat)
    | Down(w: nat, child: NodeID)
    | InsertItem(w: nat, value: int)
    | DeleteItem(w: nat, value: int)
    | Consolidate(w: nat, leafItems: seq<KeyValuePair>, innerItems: seq<KeyNodeIDPair>, depth: nat)
    | Split(w: nat, at: nat)
    | Restart(w: nat)

  ghost function Initial(n: nat): State {
    State(T.Initial(), seq(n, _ => Out))
  }

  // ---------- the mapping table ----------

  predicate Maps(s: T.State, level: nat, id: NodeID) {
    if level == 0 then id in s.leaves else level <= |s.uppers| && id in s.uppers[level - 1].table
  }

  function Load(s: T.State, level: nat, id: NodeID): Node
    requires Maps(s, level, id)
  {
    if level == 0 then LeafNode(s.leaves[id]) else InnerNode(s.uppers[level - 1].table[id])
  }

  function PathOf(s: T.State, level: nat): seq<NodeID>
    requires level <= |s.uppers|
  {
    if level == 0 then s.leafPath else s.uppers[level - 1].path
  }

  function Take(s: T.State, level: nat, id: NodeID): Snapshot
    requires Maps(s, level, id)
  {
    Snapshot(level, id, Load(s, level, id), [id] <= PathOf(s, level))
  }

  // The entry still is what the snapshot says.
  predicate Unchanged(s: T.State, p: Snapshot) {
    Maps(s, p.level, p.id) && Load(s, p.level, p.id) == p.node
  }

  function Install(s: T.State, level: nat, id: NodeID, node: Node): T.State
    requires Maps(s, level, id) && (level == 0 <==> node.LeafNode?)
  {
    if level == 0 then s.(leaves := s.leaves[id := node.leaf])
    else
      var u := s.uppers[level - 1];
      s.(uppers := s.uppers[level - 1 := u.(table := u.table[id := node.inner])])
  }

  function Behind(path: seq<NodeID>, id: NodeID, newId: NodeID): seq<NodeID> {
    var i := LeafMachine.IndexOf(path, id);
    if i < |path| then InsertBehind(path, i, newId) else path
  }

  // The sibling gets a fresh NodeID, then the split record is installed; the path is history.
  function InstallLeafSplit(s: T.State, id: NodeID, c: L.Chain, at: nat): T.State
    requires c.Leaf? && at < |c.items|
  {
    s.(leaves := s.leaves[s.nextId := LL.SplitSibling(c, at)][id := LL.SplitRecord(c, at, s.nextId)],
       leafPath := Behind(s.leafPath, id, s.nextId), nextId := s.nextId + 1)
  }

  function InstallInnerSplit(s: T.State, h: nat, id: NodeID, c: I.Chain): T.State
    requires h < |s.uppers| && c.Inner? && |c.items| >= 2
  {
    var u, at := s.uppers[h], |c.items| / 2;
    var u' := T.Upper(u.table[s.nextId := IL.SplitSibling(c, at)][id := IL.SplitRecord(c, at, s.nextId)],
                      Behind(u.path, id, s.nextId));
    s.(uppers := s.uppers[h := u'], nextId := s.nextId + 1)
  }

  function InstallRoot(s: T.State, id: NodeID, item: KeyNodeIDPair): T.State {
    var first := Pair(0, id);
    var root := I.Inner(first, Pair(0, INVALID_NODE_ID), [first, item], 0);
    s.(uppers := s.uppers + [T.Upper(map[s.nextId := root], [s.nextId])], rootId := s.nextId, nextId := s.nextId + 1)
  }

  // ---------- FinishPartialSMO(), bwtree.h:5469-5815 ----------

  // A split record on the root: a new root is installed if the root NodeID has not changed, and the
  // traversal starts over in any case (5670-5728).
  function FinishRoot(s: T.State, x: Writer): (r: (T.State, Writer))
    requires x.At?
  {
    (if s.rootId == x.node.id then InstallRoot(s, x.node.id, x.node.node.High()) else s, Out)
  }

  // A split record below a parent: nothing to do if the split key is not in the range of the parent
  // snapshot (5754) or is found in it (5774-5799); otherwise the index term is posted (5809).
  function FinishChild(s: T.State, x: Writer, p: Snapshot): (r: (T.State, Writer))
    requires x.At? && x.node.node.Half().Some? && p.node.InnerNode? && p.level > 0
  {
    var item, c := x.node.node.High(), p.node.inner;
    if !BelowHigh(c.High(), item.first) then (s, x.(finished := true))
    else
      var f := I.Find(c, c.Low().second, item.first);
      if f.item.Some? then (s, if f.item.value == item then x.(finished := true) else Out)
      else if !Unchanged(s, p) then (s, Out)
      else
        var posted := InnerNode(I.Insert(item, x.node.node.Half().value, f.location, c));
        (Install(s, p.level, p.id, posted), x.(parent := Some(p.(node := posted)), finished := true))
  }

  function Finished(s: T.State, x: Writer): (r: (T.State, Writer))
    requires x.At?
  {
    if x.node.node.Half().None? then (s, x.(finished := true))
    else match x.parent
      case None => FinishRoot(s, x)
      case Some(p) => if p.node.InnerNode? && p.level > 0 then FinishChild(s, x, p) else (s, Out)
  }

  // ---------- steps ----------

  ghost predicate CanConsolidate(node: Node, leafItems: seq<KeyValuePair>, innerItems: seq<KeyNodeIDPair>) {
    match node
    case LeafNode(c) => !c.Remove? && LeafConsolidation.Consolidates(c, leafItems)
    case InnerNode(c) => InnerConsolidation.Consolidates(c, innerItems)
  }

  function Consolidated(node: Node, leafItems: seq<KeyValuePair>, innerItems: seq<KeyNodeIDPair>, depth: nat): Node {
    match node
    case LeafNode(c) => LeafNode(L.Leaf(c.Low(), c.High(), leafItems))
    case InnerNode(c) => InnerNode(I.Inner(c.Low(), c.High(), innerItems, depth))
  }

  predicate CanSplit(p: Snapshot, at: nat) {
    match p.node
    case LeafNode(c) => p.level == 0 && c.Leaf? && LL.IsSplitPoint(c.items, at)
    case InnerNode(c) => p.level > 0 && c.Inner? && |c.items| >= 2
  }

  function InstallSplit(s: T.State, p: Snapshot, at: nat): T.State
    requires CanSplit(p, at) && Maps(s, p.level, p.id)
  {
    if p.level == 0 then InstallLeafSplit(s, p.id, p.node.leaf, at) else InstallInnerSplit(s, p.level - 1, p.id, p.node.inner)
  }

  predicate OnLeaf(x: Writer) {
    x.At? && x.finished && x.node.level == 0 && x.node.node.LeafNode? && !x.node.node.leaf.Remove?
      && BelowHigh(x.node.node.High(), x.key)
  }

  ghost predicate Enabled(s: State, a: Action) {
    && a.w < |s.writers|
    && var x := s.writers[a.w];
       match a
       case LoadRoot(_, _) => x.Out? && Maps(s.tree, |s.tree.uppers|, s.tree.rootId)
       case Finish(_) => x.At? && !x.finished
       // NavigateSiblingChain()
       case Right(_) =>
         x.At? && x.finished && !BelowHigh(x.node.node.High(), x.key)
           && Maps(s.tree, x.node.level, x.node.node.High().second)
       // NavigateInnerNode() returns the child of the greatest separator <= key.
       case Down(_, child) =>
         x.At? && x.finished && x.node.level > 0 && x.node.node.InnerNode? && BelowHigh(x.node.node.High(), x.key)
           && I.IsFloor(I.Seps(x.node.node.inner), x.node.node.inner.Low().second, x.key, child)
           && Maps(s.tree, x.node.level - 1, child)
       case InsertItem(_, value) => OnLeaf(x) && !L.Locate(x.node.node.leaf, Pair(x.key, value)).found
       case DeleteItem(_, value) => OnLeaf(x) && L.Locate(x.node.node.leaf, Pair(x.key, value)).found
       case Consolidate(_, leafItems, innerItems, _) =>
         x.At? && x.finished && (x.node.level == 0 <==> x.node.node.LeafNode?)
           && CanConsolidate(x.node.node, leafItems, innerItems)
       case Split(_, at) => x.At? && x.finished && CanSplit(x.node, at)
       case Restart(_) => x.At?
  }

  // The tree and the writer after a step. A failed compare-and-swap leaves the tree alone; after a
  // failed consolidation or split the writer goes on with its snapshot, otherwise it starts over.
  ghost function Acts(s: State, a: Action): (r: (T.State, Writer))
    requires Enabled(s, a)
  {
    var x, tree := s.writers[a.w], s.tree;
    match a
    case LoadRoot(_, key) => (tree, At(key, Take(tree, |tree.uppers|, tree.rootId), None, false))
    case Finish(_) => Finished(tree, x)
    case Right(_) => (tree, x.(node := Take(tree, x.node.level, x.node.node.High().second), finished := false))
    case Down(_, child) => (tree, At(x.key, Take(tree, x.node.level - 1, child), Some(x.node), false))
    case InsertItem(_, value) =>
      var item, c := Pair(x.key, value), x.node.node.leaf;
      (if Unchanged(tree, x.node) then Install(tree, 0, x.node.id, LeafNode(L.Insert(item, L.Locate(c, item).indexPair, c)))
       else tree, Out)
    case DeleteItem(_, value) =>
      var item, c := Pair(x.key, value), x.node.node.leaf;
      (if Unchanged(tree, x.node) then Install(tree, 0, x.node.id, LeafNode(L.Delete(item, L.Locate(c, item).indexPair, c)))
       else tree, Out)
    case Consolidate(_, leafItems, innerItems, depth) =>
      var node := Consolidated(x.node.node, leafItems, innerItems, depth);
      if Unchanged(tree, x.node) then
        (Install(tree, x.node.level, x.node.id, node), x.(node := x.node.(node := node)))
      else (tree, x)
    case Split(_, at) => if Unchanged(tree, x.node) then (InstallSplit(tree, x.node, at), Out) else (tree, x)
    case Restart(_) => (tree, Out)
  }

  ghost function Step(s: State, a: Action): State {
    if !Enabled(s, a) then s
    else
      var (tree, x) := Acts(s, a);
      State(tree, s.writers[a.w := x])
  }

  ghost predicate IsRun(n: nat, acts: seq<Action>, run: seq<State>) {
    && |run| == |acts| + 1 && run[0] == Initial(n)
    && forall j :: 0 <= j < |acts| ==> run[j + 1] == Step(run[j], acts[j])
  }
}
