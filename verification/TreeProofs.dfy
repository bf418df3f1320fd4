// What every step of the tree keeps: each level is a chain of ranges, and every node but a fresh
// right half of a split is known to the level above.
module TreeProofs {
  import opened Options
  import opened Pairs
  import opened Levels
  import opened TreeMachine
  import L = LeafChain
  import LL = LeafLevel
  import I = InnerChain
  import IL = InnerLevel
  import LeafConsolidation
  import InnerConsolidation
  import TreeTerms

  // ---------- replacing one leaf ----------

  lemma InvResolves(s: State)
    requires Inv(s)
    ensures AllResolve(s)
    ensures forall h :: 0 <= h < |s.uppers| ==> UpperOk(s.uppers[h])
    ensures forall h :: 0 <= h <= |s.uppers| ==> LevelInv(s, h)
  {
  }

  lemma LeafViewReplace(path: seq<NodeID>, nodes: seq<L.Chain>, i: nat, c: L.Chain)
    requires |path| == |nodes| && i < |nodes| && c.Low() == nodes[i].Low() && c.High() == nodes[i].High()
    ensures LeafView(path, nodes[i := c]).spans == LeafView(path, nodes).spans
    ensures LeafView(path, nodes[i := c]).half == LeafView(path, nodes).half[i := LeafHalf(c)]
  {
  }

  // A record or a consolidation on a leaf.
  lemma ReplaceLeaf(s: State, i: nat, c: L.Chain)
    requires Inv(s) && i < |s.leafPath| && L.WellFormed(c) && !c.Split? && Settled(s, 0, i)
    requires c.Low() == LeafAt(s, i).Low() && c.High() == LeafAt(s, i).High()
    ensures Inv(WithLeaf(s, i, c))
  {
    hide L.WellFormed, Chained, IL.Indexed, IL.Refers, NoDuplicates, I.WellFormed;
    InvResolves(s);
    var s' := WithLeaf(s, i, c);
    var nodes := Nodes(s.leaves, s.leafPath);
    ReplaceNode(s.leaves, s.leafPath, i, c);
    LL.ReplaceLeaf(s.leafPath, nodes, i, c);
    LeafViewReplace(s.leafPath, nodes, i, c);
    assert LevelInv(s, 0);
    IL.SettleKeepsIndex(Parents(s, 0), ViewOf(s, 0).spans, ViewOf(s, 0).half, i);
    forall h | 0 <= h <= |s'.uppers| ensures LevelInv(s', h) {
      assert LevelInv(s, h);
    }
  }

  // ---------- splitting a leaf ----------

  lemma LeafViewSplit(path: seq<NodeID>, nodes: seq<L.Chain>, i: nat, at: nat, newId: NodeID)
    requires |path| == |nodes| && i < |nodes| && nodes[i].Leaf? && at < |nodes[i].items|
    ensures var left, right := LL.SplitRecord(nodes[i], at, newId), LL.SplitSibling(nodes[i], at);
            var path', nodes' := InsertBehind(path, i, newId), InsertBehind(nodes[i := left], i, right);
            var v := LeafView(path, nodes);
            && |path'| == |nodes'|
            && LeafView(path', nodes').spans == SplitAt(v.spans, i, nodes[i].items[at].first, newId)
            && LeafView(path', nodes').half == InsertBehind(v.half[i := Some(v.spans[i].high)], i, None)
  {
    var left, right := LL.SplitRecord(nodes[i], at, newId), LL.SplitSibling(nodes[i], at);
    var v := LeafView(path, nodes);
    InsertBehindElements(path, i, newId);
    InsertBehindElements(nodes[i := left], i, right);
    SplitElements(v.spans, i, nodes[i].items[at].first, newId);
    InsertBehindElements(v.half[i := Some(v.spans[i].high)], i, None);
  }

  lemma FreshIsNew(s: State)
    requires IdsOk(s)
    ensures s.nextId !in s.leafPath && s.nextId != INVALID_NODE_ID
    ensures forall h :: 0 <= h < |s.uppers| ==> s.nextId !in s.uppers[h].path
  {
  }

  lemma SplitLeafStep(s: State, i: nat, at: nat)
    requires Inv(s) && Enabled(s, SplitLeaf(i, at))
    ensures Inv(Step(s, SplitLeaf(i, at)))
  {
    hide L.WellFormed, Chained, IL.Indexed, IL.Refers, NoDuplicates, I.WellFormed, InsertBehind, LL.LevelOk, IdsOk;
    InvResolves(s);
    FreshIsNew(s);
    var s' := Step(s, SplitLeaf(i, at));
    var c, nodes := LeafAt(s, i), Nodes(s.leaves, s.leafPath);
    LL.SplitLeafLevel(s.leafPath, nodes, i, at, s.nextId);
    SplitNode(s.leaves, s.leafPath, i, s.nextId, LL.SplitRecord(c, at, s.nextId), LL.SplitSibling(c, at));
    LeafViewSplit(s.leafPath, nodes, i, at, s.nextId);
    assert LevelInv(s, 0);
    IL.SplitKeepsIndex(Parents(s, 0), ViewOf(s, 0).spans, ViewOf(s, 0).half, i, c.items[at].first, s.nextId);
    SplitLeafIds(s, i, at);
    forall h | 0 <= h <= |s'.uppers| ensures LevelInv(s', h) {
      assert LevelInv(s, h);
    }
  }

  lemma SplitLeafIds(s: State, i: nat, at: nat)
    requires IdsOk(s) && Enabled(s, SplitLeaf(i, at))
    ensures IdsOk(Step(s, SplitLeaf(i, at)))
  {
    InsertBehindMembers(s.leafPath, i, s.nextId);
  }

  // ---------- replacing one inner node ----------

  lemma UpperViewReplace(path: seq<NodeID>, nodes: seq<I.Chain>, i: nat, c: I.Chain)
    requires |path| == |nodes| && i < |nodes| && c.Low() == nodes[i].Low() && c.High() == nodes[i].High()
    ensures UpperView(path, nodes[i := c]).spans == UpperView(path, nodes).spans
    ensures UpperView(path, nodes[i := c]).half == UpperView(path, nodes).half[i := InnerHalf(c)]
  {
  }

  lemma ReplaceUpperOk(u: Upper, i: nat, c: I.Chain)
    requires UpperOk(u) && i < |u.path| && I.WellFormed(c, i > 0)
    requires c.Low() == u.table[u.path[i]].Low() && c.High() == u.table[u.path[i]].High()
    ensures UpperOk(u.(table := u.table[u.path[i] := c]))
  {
    hide I.WellFormed, Chained, NoDuplicates;
    var nodes := Nodes(u.table, u.path);
    ReplaceNode(u.table, u.path, i, c);
    UpperViewReplace(u.path, nodes, i, c);
    assert IL.Spans(u.path, nodes[i := c]) == IL.Spans(u.path, nodes);
    var nodes' := nodes[i := c];
    forall j | 0 <= j < |nodes| ensures IL.NodeOk(nodes', j) {
      assert IL.NodeOk(nodes, j);
    }
  }

  // An inner level between the one below and the one above.
  ghost predicate Meets(u: Upper, below: View, above: seq<I.Chain>) {
    && UpperOk(u) && |below.spans| == |below.half|
    && IL.Indexed(Nodes(u.table, u.path), below.spans, below.half)
    && var v := UpperView(u.path, Nodes(u.table, u.path));
       IL.Indexed(above, v.spans, v.half)
  }

  ghost predicate SameFirst(u: Upper, u': Upper, nextId: NodeID) {
    u.path != [] && u'.path != [] && u'.path[0] == u.path[0] && forall id :: id in u'.path ==> id < nextId
  }

  lemma LevelMeets(s: State, h: nat)
    requires Inv(s) && h < |s.uppers|
    ensures Meets(s.uppers[h], ViewOf(s, h), Parents(s, h + 1)) && SameFirst(s.uppers[h], s.uppers[h], s.nextId)
    ensures s.nextId !in s.uppers[h].path && s.nextId != INVALID_NODE_ID
  {
    hide Inv, IL.Indexed, UpperOk, UpperView, LeafView, SameFirst;
    InvResolves(s);
    assert LevelInv(s, h) && LevelInv(s, h + 1) && UpperOk(s.uppers[h]);
    LevelIds(s, h);
  }

  lemma LevelIds(s: State, h: nat)
    requires Inv(s) && h < |s.uppers|
    ensures SameFirst(s.uppers[h], s.uppers[h], s.nextId)
    ensures s.nextId !in s.uppers[h].path && s.nextId != INVALID_NODE_ID
  {
    assert LevelInv(s, h + 1);
    FreshIsNew(s);
  }

  // Changing one inner level concerns the index of that level and of the one below.
  lemma ChangeUpper(s: State, h: nat, u: Upper, nextId: NodeID)
    requires Inv(s) && h < |s.uppers| && Meets(u, ViewOf(s, h), Parents(s, h + 1)) && SameFirst(s.uppers[h], u, nextId)
    requires nextId >= s.nextId
    ensures Inv(s.(uppers := s.uppers[h := u], nextId := nextId))
  {
    hide IL.Indexed, IL.LevelOk, NoDuplicates, LL.LevelOk;
    var s' := s.(uppers := s.uppers[h := u], nextId := nextId);
    forall k | 0 <= k < |s'.uppers| ensures UpperOk(s'.uppers[k]) {
      assert UpperOk(s.uppers[k]);
    }
    assert AllResolve(s) && AllResolve(s');
    forall k | 0 <= k <= |s'.uppers| ensures LevelInv(s', k) {
      assert LevelInv(s, k);
    }
  }

  // A record or a consolidation on an inner node. It may gain one reference, to node j below.
  lemma ReplaceInner(s: State, h: nat, i: nat, c: I.Chain, j: nat)
    requires Inv(s) && h < |s.uppers| && i < |s.uppers[h].path| && I.WellFormed(c, i > 0)
    requires !c.Split? && Settled(s, h + 1, i)
    requires c.Low() == InnerAt(s, h, i).Low() && c.High() == InnerAt(s, h, i).High()
    requires forall x :: x in I.Seps(InnerAt(s, h, i)) ==> x in I.Seps(c)
    requires var below := ViewOf(s, h).spans;
             forall x :: x in I.Seps(c) ==>
               x in I.Seps(InnerAt(s, h, i)) || (1 <= j < |below| && x == IL.PairOf(below[j]))
    ensures Inv(WithInner(s, h, i, c))
  {
    LevelMeets(s, h);
    var u := s.uppers[h];
    ReplaceMeets(u, i, c, j, ViewOf(s, h), Parents(s, h + 1));
    hide Inv, Meets;
    ChangeUpper(s, h, u.(table := u.table[u.path[i] := c]), s.nextId);
  }

  lemma ReplaceMeets(u: Upper, i: nat, c: I.Chain, j: nat, below: View, above: seq<I.Chain>)
    requires Meets(u, below, above) && i < |u.path| && I.WellFormed(c, i > 0) && !c.Split?
    requires c.Low() == u.table[u.path[i]].Low() && c.High() == u.table[u.path[i]].High()
    requires var v := UpperView(u.path, Nodes(u.table, u.path));
             v.half[i].Some? && i + 1 < |v.spans| ==> IL.Refers(above, IL.PairOf(v.spans[i + 1]))
    requires forall x :: x in I.Seps(u.table[u.path[i]]) ==> x in I.Seps(c)
    requires forall x :: x in I.Seps(c) ==>
               x in I.Seps(u.table[u.path[i]]) || (1 <= j < |below.spans| && x == IL.PairOf(below.spans[j]))
    ensures Meets(u.(table := u.table[u.path[i] := c]), below, above)
  {
    hide I.WellFormed, I.Seps, Chained, IL.Indexed, IL.Refers, NoDuplicates, IL.LevelOk;
    var nodes := Nodes(u.table, u.path);
    var v := UpperView(u.path, nodes);
    ReplaceUpperOk(u, i, c);
    ReplaceNode(u.table, u.path, i, c);
    UpperViewReplace(u.path, nodes, i, c);
    IL.SettleKeepsIndex(above, v.spans, v.half, i);
    ReplaceReferences(nodes, i, c, j, below);
  }

  lemma ReplaceReferences(nodes: seq<I.Chain>, i: nat, c: I.Chain, j: nat, below: View)
    requires i < |nodes| && IL.Indexed(nodes, below.spans, below.half) && c.Low() == nodes[i].Low()
    requires forall x :: x in I.Seps(nodes[i]) ==> x in I.Seps(c)
    requires forall x :: x in I.Seps(c) ==>
               x in I.Seps(nodes[i]) || (1 <= j < |below.spans| && x == IL.PairOf(below.spans[j]))
    ensures IL.Indexed(nodes[i := c], below.spans, below.half)
  {
    hide I.Seps, IL.Indexed, IL.Refers;
    var nodes' := nodes[i := c];
    forall x
      ensures IL.Refers(nodes, x) ==> IL.Refers(nodes', x)
      ensures IL.Refers(nodes', x) ==>
                IL.Refers(nodes, x) || (1 <= j < |below.spans| && x == IL.PairOf(below.spans[j]))
    {
      IL.ReplaceNodeRefers(nodes, i, c, x);
      SepIsReference(nodes, i, x);
    }
    IL.ReferencesKeepIndex(nodes, nodes', below.spans, below.half, j);
  }

  lemma SepIsReference(nodes: seq<I.Chain>, i: nat, x: KeyNodeIDPair)
    requires i < |nodes|
    ensures x in I.Seps(nodes[i]) ==> IL.Refers(nodes, x)
    ensures i > 0 && x == nodes[i].Low() ==> IL.Refers(nodes, x)
  {
    if x in I.Seps(nodes[i]) || (i > 0 && x == nodes[i].Low()) { assert IL.RefersAt(nodes, i, x); }
  }

  // ---------- splitting an inner node ----------

  // Each separator leads to another child: children are named once on their path.
  lemma ReferencesDiffer(s: State, h: nat, i: nat)
    requires Inv(s) && h < |s.uppers| && i < |s.uppers[h].path|
    ensures IL.ChildrenDiffer(InnerAt(s, h, i))
  {
    InvResolves(s);
    assert LevelInv(s, h);
    var nodes, below := Parents(s, h), ViewOf(s, h).spans;
    PathsAreDistinct(s, h);
    hide I.Seps, I.WellFormed, Inv;
    forall x, y | x in I.Seps(nodes[i]) && y in I.Seps(nodes[i]) && x.second == y.second ensures x == y {
      SepIsReference(nodes, i, x);
      SepIsReference(nodes, i, y);
      assert IL.BehindFirst(below, x) && IL.BehindFirst(below, y);
      var j :| 1 <= j < |below| && IL.PairOf(below[j]) == x;
      var k :| 1 <= k < |below| && IL.PairOf(below[k]) == y;
      assert below[j].id == below[k].id;
    }
  }

  lemma PathsAreDistinct(s: State, h: nat)
    requires AllResolve(s) && h <= |s.uppers|
    ensures var below := ViewOf(s, h).spans;
            forall j, k :: 0 <= j < k < |below| ==> below[j].id != below[k].id
  {
  }

  lemma UpperViewSplit(path: seq<NodeID>, nodes: seq<I.Chain>, i: nat, at: nat, newId: NodeID)
    requires |path| == |nodes| && i < |nodes| && nodes[i].Inner? && at < |nodes[i].items|
    ensures var left, right := IL.SplitRecord(nodes[i], at, newId), IL.SplitSibling(nodes[i], at);
            var path', nodes' := InsertBehind(path, i, newId), InsertBehind(nodes[i := left], i, right);
            var v := UpperView(path, nodes);
            && |path'| == |nodes'|
            && UpperView(path', nodes').spans == SplitAt(v.spans, i, nodes[i].items[at].first, newId)
            && UpperView(path', nodes').half == InsertBehind(v.half[i := Some(v.spans[i].high)], i, None)
  {
    var left, right := IL.SplitRecord(nodes[i], at, newId), IL.SplitSibling(nodes[i], at);
    var v := UpperView(path, nodes);
    InsertBehindElements(path, i, newId);
    InsertBehindElements(nodes[i := left], i, right);
    SplitElements(v.spans, i, nodes[i].items[at].first, newId);
    InsertBehindElements(v.half[i := Some(v.spans[i].high)], i, None);
  }

  // Two nodes that share the separators of a third; the right one starts with its low key.
  ghost predicate ShareSeps(c: I.Chain, left: I.Chain, right: I.Chain) {
    left.Low() == c.Low() && forall x :: x in I.Seps(c) <==> x in I.Seps(left) || x == right.Low() || x in I.Seps(right)
  }

  lemma SplitRefers(nodes: seq<I.Chain>, i: nat, left: I.Chain, right: I.Chain, x: KeyNodeIDPair)
    requires i < |nodes| && ShareSeps(nodes[i], left, right)
    ensures IL.Refers(InsertBehind(nodes[i := left], i, right), x) <==> IL.Refers(nodes, x)
  {
    hide I.Seps;
    var nodes' := InsertBehind(nodes[i := left], i, right);
    InsertBehindElements(nodes[i := left], i, right);
    if k :| 0 <= k < |nodes| && IL.RefersAt(nodes, k, x) {
      assert IL.RefersAt(nodes', if k < i || (k == i && IL.RefersAt(nodes', i, x)) then k else k + 1, x);
    }
    if k :| 0 <= k < |nodes'| && IL.RefersAt(nodes', k, x) {
      assert IL.RefersAt(nodes, if k <= i then k else k - 1, x);
    }
  }

  lemma SplitNodesOk(nodes: seq<I.Chain>, i: nat, left: I.Chain, right: I.Chain)
    requires i < |nodes| && I.WellFormed(left, i > 0) && I.WellFormed(right, true)
    requires forall j :: 0 <= j < |nodes| ==> IL.NodeOk(nodes, j)
    ensures var nodes' := InsertBehind(nodes[i := left], i, right);
            |nodes'| == |nodes| + 1 && forall j :: 0 <= j < |nodes'| ==> IL.NodeOk(nodes', j)
  {
    hide I.WellFormed;
    var nodes' := InsertBehind(nodes[i := left], i, right);
    InsertBehindElements(nodes[i := left], i, right);
    forall j | 0 <= j < |nodes'| ensures IL.NodeOk(nodes', j) {
      if j < i { assert IL.NodeOk(nodes, j); } else if j > i + 1 { assert IL.NodeOk(nodes, j - 1); }
    }
  }

  // What the split of node i of an inner level at item `at` needs to know about its halves.
  ghost predicate HalvesOk(u: Upper, i: nat, at: nat, newId: NodeID)
    requires i < |u.path| && u.path[i] in u.table
  {
    var c := u.table[u.path[i]];
    && c.Inner? && at < |c.items|
    && I.WellFormed(IL.SplitRecord(c, at, newId), i > 0) && I.WellFormed(IL.SplitSibling(c, at), true)
    && ShareSeps(c, IL.SplitRecord(c, at, newId), IL.SplitSibling(c, at))
    && (i > 0 ==> c.Low().first < c.items[at].first) && BelowHigh(c.High(), c.items[at].first)
  }

  lemma SplitHalves(s: State, h: nat, i: nat, at: nat)
    requires Inv(s) && h < |s.uppers| && i < |s.uppers[h].path|
    requires InnerAt(s, h, i).Inner? && 1 <= at < |InnerAt(s, h, i).items|
    ensures s.uppers[h].path[i] in s.uppers[h].table && HalvesOk(s.uppers[h], i, at, s.nextId)
  {
    hide Inv, I.WellFormed, I.Seps, IL.ChildrenDiffer;
    InvResolves(s);
    ReferencesDiffer(s, h, i);
    InnerIsOk(s, h, i);
    var c := InnerAt(s, h, i);
    IL.SplitInnerIsExact(c, i > 0, at, s.nextId);
  }

  lemma InnerIsOk(s: State, h: nat, i: nat)
    requires Inv(s) && h < |s.uppers| && i < |s.uppers[h].path|
    ensures s.uppers[h].path[i] in s.uppers[h].table && I.WellFormed(InnerAt(s, h, i), i > 0)
    ensures s.nextId != INVALID_NODE_ID
  {
    var u := s.uppers[h];
    assert UpperOk(u) && IL.NodeOk(Nodes(u.table, u.path), i);
  }

  lemma SplitUpperOk(u: Upper, i: nat, at: nat, newId: NodeID)
    requires UpperOk(u) && i < |u.path| && newId !in u.path && newId != INVALID_NODE_ID
    requires var c := u.table[u.path[i]];
             && c.Inner? && at < |c.items|
             && I.WellFormed(IL.SplitRecord(c, at, newId), i > 0) && I.WellFormed(IL.SplitSibling(c, at), true)
             && (i > 0 ==> c.Low().first < c.items[at].first) && BelowHigh(c.High(), c.items[at].first)
    ensures var c := u.table[u.path[i]];
            var left, right := IL.SplitRecord(c, at, newId), IL.SplitSibling(c, at);
            var u' := Halved(u, i, at, newId);
            && UpperOk(u')
            && Nodes(u'.table, u'.path) == InsertBehind(Nodes(u.table, u.path)[i := left], i, right)
  {
    hide I.WellFormed, InsertBehind, Chained, NoDuplicates;
    var c, nodes := u.table[u.path[i]], Nodes(u.table, u.path);
    SplitNode(u.table, u.path, i, newId, IL.SplitRecord(c, at, newId), IL.SplitSibling(c, at));
    SplitNodesOk(nodes, i, IL.SplitRecord(c, at, newId), IL.SplitSibling(c, at));
    UpperViewSplit(u.path, nodes, i, at, newId);
    SplitKeepsChain(IL.Spans(u.path, nodes), i, c.items[at].first, newId);
  }

  function Halved(u: Upper, i: nat, at: nat, newId: NodeID): Upper
    requires i < |u.path| && u.path[i] in u.table && u.table[u.path[i]].Inner? && at < |u.table[u.path[i]].items|
  {
    var c := u.table[u.path[i]];
    Upper(u.table[newId := IL.SplitSibling(c, at)][u.path[i] := IL.SplitRecord(c, at, newId)],
          InsertBehind(u.path, i, newId))
  }

  // Seen from above, the level has a new half-known node; seen from below, nothing changes.
  lemma SplitMeets(u: Upper, i: nat, at: nat, newId: NodeID, below: View, above: seq<I.Chain>)
    requires Meets(u, below, above) && i < |u.path| && HalvesOk(u, i, at, newId)
    requires newId !in u.path && newId != INVALID_NODE_ID
    requires i == 0 || IL.Refers(above, IL.PairOf(UpperView(u.path, Nodes(u.table, u.path)).spans[i]))
    ensures Meets(Halved(u, i, at, newId), below, above)
  {
    hide I.WellFormed, I.Seps, IL.Indexed, IL.Refers, NoDuplicates, IL.LevelOk, InsertBehind, ShareSeps, SplitAt;
    var c, nodes := u.table[u.path[i]], Nodes(u.table, u.path);
    var v := UpperView(u.path, nodes);
    SplitUpperOk(u, i, at, newId);
    UpperViewSplit(u.path, nodes, i, at, newId);
    IL.SplitKeepsIndex(above, v.spans, v.half, i, c.items[at].first, newId);
    SplitReferences(nodes, i, IL.SplitRecord(c, at, newId), IL.SplitSibling(c, at), below.spans, below.half);
  }

  lemma HalvedIds(u: Upper, i: nat, at: nat, newId: NodeID)
    requires SameFirst(u, u, newId) && i < |u.path| && u.path[i] in u.table && HalvesOk(u, i, at, newId)
    ensures SameFirst(u, Halved(u, i, at, newId), newId + 1)
  {
    InsertBehindMembers(u.path, i, newId);
    InsertBehindElements(u.path, i, newId);
  }

  lemma SplitInnerKeepsInv(s: State, h: nat, i: nat, at: nat)
    requires Inv(s) && h < |s.uppers| && i < |s.uppers[h].path| && Known(s, h + 1, i)
    requires InnerAt(s, h, i).Inner? && at < |InnerAt(s, h, i).items| && HalvesOk(s.uppers[h], i, at, s.nextId)
    ensures Inv(s.(uppers := s.uppers[h := Halved(s.uppers[h], i, at, s.nextId)], nextId := s.nextId + 1))
  {
    hide Inv, HalvesOk, Meets, SameFirst, Known;
    var u := s.uppers[h];
    InvResolves(s);
    LevelMeets(s, h);
    KnownAbove(s, h, i);
    SplitMeets(u, i, at, s.nextId, ViewOf(s, h), Parents(s, h + 1));
    HalvedIds(u, i, at, s.nextId);
    ChangeUpper(s, h, Halved(u, i, at, s.nextId), s.nextId + 1);
  }

  lemma KnownAbove(s: State, h: nat, i: nat)
    requires Inv(s) && h < |s.uppers| && i < |s.uppers[h].path| && Known(s, h + 1, i)
    ensures var u := s.uppers[h];
            && Resolves(u.table, u.path)
            && (i == 0 || IL.Refers(Parents(s, h + 1), IL.PairOf(UpperView(u.path, Nodes(u.table, u.path)).spans[i])))
  {
  }

  lemma SplitInnerUnfolds(s: State, h: nat, i: nat)
    requires AllResolve(s) && Enabled(s, SplitInner(h, i))
    ensures h < |s.uppers| && i < |s.uppers[h].path| && Known(s, h + 1, i) && InnerAt(s, h, i).Inner?
    ensures var at := |InnerAt(s, h, i).items| / 2;
            && 1 <= at < |InnerAt(s, h, i).items|
            && Step(s, SplitInner(h, i))
            == s.(uppers := s.uppers[h := Halved(s.uppers[h], i, at, s.nextId)], nextId := s.nextId + 1)
  {
  }

  lemma SplitInnerStep(s: State, h: nat, i: nat)
    requires Inv(s) && Enabled(s, SplitInner(h, i))
    ensures Inv(Step(s, SplitInner(h, i)))
  {
    hide Inv, Step, Enabled, HalvesOk;
    InvResolves(s);
    SplitInnerUnfolds(s, h, i);
    SplitHalves(s, h, i, |InnerAt(s, h, i).items| / 2);
    SplitInnerKeepsInv(s, h, i, |InnerAt(s, h, i).items| / 2);
  }

  lemma SplitReferences(nodes: seq<I.Chain>, i: nat, left: I.Chain, right: I.Chain, below: seq<Span>,
                        half: seq<Option<KeyNodeIDPair>>)
    requires i < |nodes| && ShareSeps(nodes[i], left, right) && IL.Indexed(nodes, below, half)
    ensures IL.Indexed(InsertBehind(nodes[i := left], i, right), below, half)
  {
    hide IL.Indexed, IL.Refers, InsertBehind;
    var nodes' := InsertBehind(nodes[i := left], i, right);
    FirstStays(nodes, i, left, right);
    forall x ensures IL.Refers(nodes', x) <==> IL.Refers(nodes, x) {
      SplitRefers(nodes, i, left, right, x);
    }
    IL.ReferencesKeepIndex(nodes, nodes', below, half, 0);
  }

  lemma FirstStays(nodes: seq<I.Chain>, i: nat, left: I.Chain, right: I.Chain)
    requires i < |nodes| && left.Low() == nodes[i].Low()
    ensures var nodes' := InsertBehind(nodes[i := left], i, right); |nodes'| > 0 && nodes'[0].Low() == nodes[0].Low()
  {
    InsertBehindElements(nodes[i := left], i, right);
  }

  // ---------- posting an index term ----------

  lemma HalfHasNext(s: State, h: nat, i: nat)
    requires Inv(s) && h <= |s.uppers| && i < |ViewOf(s, h).spans| && ViewOf(s, h).half[i].Some?
    ensures ViewOf(s, h).spans[i].high.second != INVALID_NODE_ID
  {
    if h == 0 {
      assert LL.LeafOk(Nodes(s.leaves, s.leafPath), i);
    } else {
      InnerIsOk(s, h - 1, i);
    }
  }

  lemma LevelIsChained(s: State, h: nat)
    requires Inv(s) && h <= |s.uppers|
    ensures Chained(ViewOf(s, h).spans)
  {
    if h > 0 { assert UpperOk(s.uppers[h - 1]); }
  }

  // The split node has a right neighbour, which its high key names.
  lemma RightHalf(s: State, h: nat, i: nat)
    requires Inv(s) && h <= |s.uppers| && i < |ViewOf(s, h).spans| && ViewOf(s, h).half[i].Some?
    ensures var below := ViewOf(s, h).spans;
            i + 1 < |below| && below[i].high == IL.PairOf(below[i + 1]) && (i > 0 ==> below[i].low < below[i + 1].low)
  {
    hide Inv;
    InvResolves(s);
    LevelIsChained(s, h);
    HalfHasNext(s, h, i);
    var below := ViewOf(s, h).spans;
    if i + 1 < |below| { assert Linked(below[i], below[i + 1]); }
  }

  lemma TermIsPending(s: State, h: nat, i: nat, m: nat)
    requires Inv(s) && h < |s.uppers| && i < |ViewOf(s, h).spans| && ViewOf(s, h).half[i].Some?
    requires m < |s.uppers[h].path| && ReachedThrough(ViewOf(s, h + 1).spans, m, ViewOf(s, h).spans, i)
    requires var p := InnerAt(s, h, m); I.Find(p, p.Low().second, ViewOf(s, h).spans[i].high.first).item == None
    ensures var u := s.uppers[h];
            && Resolves(u.table, u.path)
            && TreeTerms.Pending(u.path, Nodes(u.table, u.path), ViewOf(s, h).spans, ViewOf(s, h).half, i, m)
  {
    LevelMeets(s, h);
    LevelIsChained(s, h);
    RightHalf(s, h, i);
    PathsAreDistinct(s, h);
  }

  lemma PostTermUnfolds(s: State, h: nat, i: nat, m: nat)
    requires AllResolve(s) && Enabled(s, PostTerm(h, i, m))
    ensures h < |s.uppers| && i < |ViewOf(s, h).spans| && ViewOf(s, h).half[i].Some?
    ensures m < |s.uppers[h].path| && Settled(s, h + 1, m)
    ensures ReachedThrough(ViewOf(s, h + 1).spans, m, ViewOf(s, h).spans, i)
    ensures var p := InnerAt(s, h, m); I.Find(p, p.Low().second, ViewOf(s, h).spans[i].high.first).item == None
    ensures Step(s, PostTerm(h, i, m)) == WithInner(s, h, m, Term(s, h, i, m))
  {
  }

  lemma PostTermStep(s: State, h: nat, i: nat, m: nat)
    requires Inv(s) && Enabled(s, PostTerm(h, i, m))
    ensures Inv(Step(s, PostTerm(h, i, m)))
  {
    hide Inv, Enabled, Step, Settled, ReachedThrough, TreeTerms.Pending, I.WellFormed;
    InvResolves(s);
    PostTermUnfolds(s, h, i, m);
    TermIsPending(s, h, i, m);
    RightHalf(s, h, i);
    var u := s.uppers[h];
    TreeTerms.TermIsWellFormed(u.path, Nodes(u.table, u.path), ViewOf(s, h).spans, ViewOf(s, h).half, i, m);
    ReplaceInner(s, h, m, Term(s, h, i, m), i + 1);
  }

  // ---------- consolidations and leaf data ----------

  lemma ConsolidateInnerUnfolds(s: State, h: nat, i: nat, items: seq<KeyNodeIDPair>, depth: nat)
    requires AllResolve(s) && Enabled(s, ConsolidateInner(h, i, items, depth))
    ensures h < |s.uppers| && i < |s.uppers[h].path| && Settled(s, h + 1, i)
    ensures InnerConsolidation.Consolidates(InnerAt(s, h, i), items)
    ensures var c := InnerAt(s, h, i);
            Step(s, ConsolidateInner(h, i, items, depth)) == WithInner(s, h, i, I.Inner(c.Low(), c.High(), items, depth))
  {
  }

  lemma ConsolidateInnerStep(s: State, h: nat, i: nat, items: seq<KeyNodeIDPair>, depth: nat)
    requires Inv(s) && Enabled(s, ConsolidateInner(h, i, items, depth))
    ensures Inv(Step(s, ConsolidateInner(h, i, items, depth)))
  {
    hide Inv, Step, Enabled, Settled, I.WellFormed, I.Seps, InnerConsolidation.Consolidates;
    InvResolves(s);
    ConsolidateInnerUnfolds(s, h, i, items, depth);
    InnerIsOk(s, h, i);
    var c := InnerAt(s, h, i);
    InnerConsolidation.ConsolidatedChain(c, i > 0, items, depth);
    ReplaceInner(s, h, i, I.Inner(c.Low(), c.High(), items, depth), 0);
  }

  lemma LeafIsOk(s: State, i: nat)
    requires Inv(s) && i < |s.leafPath|
    ensures s.leafPath[i] in s.leaves && L.WellFormed(LeafAt(s, i))
  {
    assert LL.LeafOk(Nodes(s.leaves, s.leafPath), i);
  }

  lemma LeafRecordStep(s: State, a: Action)
    requires Inv(s) && Enabled(s, a) && (a.InsertItem? || a.DeleteItem? || a.ConsolidateLeaf?)
    ensures Inv(Step(s, a))
  {
    LeafIsOk(s, a.i);
    var c := LeafAt(s, a.i);
    assert Settled(s, 0, a.i);
    match a {
      case InsertItem(i, item) =>
        assert Step(s, a) == WithLeaf(s, i, L.Insert(item, L.Locate(c, item).indexPair, c));
        hide Inv, Step, Settled;
        ReplaceLeaf(s, i, L.Insert(item, L.Locate(c, item).indexPair, c));
      case DeleteItem(i, item) =>
        assert Step(s, a) == WithLeaf(s, i, L.Delete(item, L.Locate(c, item).indexPair, c));
        hide Inv, Step, Settled;
        ReplaceLeaf(s, i, L.Delete(item, L.Locate(c, item).indexPair, c));
      case ConsolidateLeaf(i, items) =>
        assert Step(s, a) == WithLeaf(s, i, L.Leaf(c.Low(), c.High(), items));
        hide Inv, Step, Settled, L.WellFormed;
        LeafConsolidation.ConsolidatedChain(c, items);
        ReplaceLeaf(s, i, L.Leaf(c.Low(), c.High(), items));
    }
  }

  // ---------- a new root ----------

  function NewRoot(s: State, key: KeyNodeIDPair): I.Chain {
    var first := Pair(0, s.rootId);
    I.Inner(first, Pair(0, INVALID_NODE_ID), [first, key], 0)
  }

  lemma RootSeps(s: State, key: KeyNodeIDPair)
    ensures I.Seps(NewRoot(s, key)) == {key}
    ensures forall x :: IL.Refers([NewRoot(s, key)], x) <==> x == key
  {
    var root := NewRoot(s, key);
    assert I.FirstSeps(root.items, 1) == {};
    assert I.FirstSeps(root.items, 2) == {key};
    assert IL.RefersAt([root], 0, key);
    assert [root][0] == root;
  }

  lemma UnknownIsHalf(level: seq<Span>, half: seq<Option<KeyNodeIDPair>>, j: int)
    requires IL.Indexed([], level, half)
    ensures 1 <= j < |level| ==> half[j - 1] == Some(level[j].high) && half[j] == None
  {
    assert 1 <= j < |level| ==> IL.KnownOrHalf([], level, half, j);
  }

  // Above the root level nothing is known, so it is the root and, after a split, its right half.
  lemma RootLevel(s: State)
    requires Inv(s) && InnerAt(s, |s.uppers| - 1, 0).Split?
    ensures var v := ViewOf(s, |s.uppers|);
            && |v.spans| == 2 && v.spans[0].id == s.rootId && v.spans[1].id != s.rootId
            && v.spans[0].high == IL.PairOf(v.spans[1]) && v.half[1] == None
            && InnerAt(s, |s.uppers| - 1, 0).insertItem == IL.PairOf(v.spans[1])
  {
    var n := |s.uppers|;
    var v := ViewOf(s, n);
    assert LevelInv(s, n);
    RightHalf(s, n, 0);
    PathsAreDistinct(s, n);
    hide Inv, IL.RefersAt;
    UnknownIsHalf(v.spans, v.half, 1);
    UnknownIsHalf(v.spans, v.half, 2);
  }

  lemma GrowRootStep(s: State)
    requires Inv(s) && Enabled(s, GrowRoot)
    ensures Inv(Step(s, GrowRoot))
  {
    InvResolves(s);
    RootLevel(s);
    FreshIsNew(s);
    var key := InnerAt(s, |s.uppers| - 1, 0).insertItem;
    var root := NewRoot(s, key);
    var u := Upper(map[s.nextId := root], [s.nextId]);
    assert Step(s, GrowRoot) == s.(uppers := s.uppers + [u], rootId := s.nextId, nextId := s.nextId + 1);
    hide Step, Enabled;
    NewRootOk(s, key);
    RootSeps(s, key);
    assert Nodes(u.table, u.path) == [root];
    AddLevel(s, u);
  }

  lemma NewRootOk(s: State, key: KeyNodeIDPair)
    requires s.nextId != INVALID_NODE_ID && key.second != s.rootId
    ensures UpperOk(Upper(map[s.nextId := NewRoot(s, key)], [s.nextId]))
  {
    var u := Upper(map[s.nextId := NewRoot(s, key)], [s.nextId]);
    var nodes := Nodes(u.table, u.path);
    assert nodes == [NewRoot(s, key)];
    assert IL.NodeOk(nodes, 0);
  }

  lemma AddLevel(s: State, u: Upper)
    requires Inv(s) && UpperOk(u) && u.path == [s.nextId]
    requires var nodes, v := Nodes(u.table, u.path), ViewOf(s, |s.uppers|);
             && nodes[0].Low().second == v.spans[0].id && !nodes[0].Split?
             && |v.spans| == 2 && forall x :: IL.Refers(nodes, x) <==> x == IL.PairOf(v.spans[1])
    ensures Inv(s.(uppers := s.uppers + [u], rootId := s.nextId, nextId := s.nextId + 1))
  {
    hide IL.LevelOk, NoDuplicates, LL.LevelOk, IL.Refers;
    var s' := s.(uppers := s.uppers + [u], rootId := s.nextId, nextId := s.nextId + 1);
    var n := |s.uppers|;
    forall k | 0 <= k < |s'.uppers| ensures UpperOk(s'.uppers[k]) {
      if k < n { assert UpperOk(s.uppers[k]); }
    }
    assert AllResolve(s) && AllResolve(s');
    var v := ViewOf(s, n);
    assert ViewOf(s', n) == v && Parents(s', n) == Nodes(u.table, u.path);
    assert LevelInv(s', n) by {
      assert LevelInv(s, n);
      assert IL.KnownOrHalf(Parents(s', n), v.spans, v.half, 1);
      forall x | IL.Refers(Parents(s', n), x) ensures IL.BehindFirst(v.spans, x) {
        assert IL.PairOf(v.spans[1]) == x;
      }
    }
    NothingKnown();
    assert LevelInv(s', n + 1);
    forall k | 0 <= k <= |s'.uppers| ensures LevelInv(s', k) {
      if k < n { assert LevelInv(s, k); }
    }
  }

  lemma NothingKnown()
    ensures forall x :: !IL.Refers([], x)
  {
  }
}
