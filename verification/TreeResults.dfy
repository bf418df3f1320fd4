// Main results about the tree: the descent from the root ends at the leaf that covers the key, in
// every reachable state and also while the tree changes underneath.
module TreeResults {
  import opened Options
  import opened Pairs
  import opened Levels
  import opened TreeMachine
  import opened TreeProofs
  import L = LeafChain
  import LL = LeafLevel
  import I = InnerChain
  import IL = InnerLevel
  import InnerConsolidation
  import InnerNavigation

  // ---------- every reachable state is in order ----------

  lemma InitialInv()
    ensures Inv(Initial())
  {
    var s := Initial();
    var leaves, inners := Nodes(s.leaves, s.leafPath), Nodes(s.uppers[0].table, s.uppers[0].path);
    assert LL.LeafOk(leaves, 0) && IL.NodeOk(inners, 0);
    forall x ensures !IL.Refers(inners, x) {
      assert forall i :: 0 <= i < |inners| ==> !IL.RefersAt(inners, i, x);
    }
    NothingKnown();
    assert AllResolve(s) && UpperOk(s.uppers[0]);
    assert LevelInv(s, 0) && LevelInv(s, 1);
  }

  lemma StepKeepsInv(s: State, a: Action)
    requires Inv(s)
    ensures Inv(Step(s, a))
  {
    if Enabled(s, a) {
      hide Inv, Step, Enabled;
      match a {
        case InsertItem(_, _) => LeafRecordStep(s, a);
        case DeleteItem(_, _) => LeafRecordStep(s, a);
        case ConsolidateLeaf(_, _) => LeafRecordStep(s, a);
        case SplitLeaf(i, at) => SplitLeafStep(s, i, at);
        case ConsolidateInner(h, i, items, depth) => ConsolidateInnerStep(s, h, i, items, depth);
        case SplitInner(h, i) => SplitInnerStep(s, h, i);
        case PostTerm(h, i, parent) => PostTermStep(s, h, i, parent);
        case GrowRoot => GrowRootStep(s);
      }
    }
  }

  lemma {:induction false} InvAlways(acts: seq<Action>, run: seq<State>, j: nat)
    requires IsRun(acts, run) && j <= |acts|
    ensures Inv(run[j])
  {
    if j == 0 {
      InitialInv();
    } else {
      InvAlways(acts, run, j - 1);
      StepKeepsInv(run[j - 1], acts[j - 1]);
    }
  }

  // ---------- one step of a descent ----------

  // The node at position i of a level may lead to the key by moving right or down.
  ghost predicate Reaches(level: seq<Span>, i: nat, key: int)
    requires i < |level|
  {
    i == 0 || level[i].low <= key
  }

  // The floor child of a covering node reaches the key on the level below.
  lemma FloorReaches(s: State, h: nat, i: nat, key: int, child: NodeID) returns (j: nat)
    requires Inv(s) && h < |s.uppers| && i < |s.uppers[h].path| && Reaches(ViewOf(s, h + 1).spans, i, key)
    requires I.IsFloor(I.Seps(InnerAt(s, h, i)), InnerAt(s, h, i).Low().second, key, child)
    ensures j < |ViewOf(s, h).spans| && ViewOf(s, h).spans[j].id == child && Reaches(ViewOf(s, h).spans, j, key)
    ensures j == 0 || IL.Refers(Parents(s, h), IL.PairOf(ViewOf(s, h).spans[j]))
  {
    InvResolves(s);
    assert LevelInv(s, h);
    var nodes, below := Parents(s, h), ViewOf(s, h).spans;
    var c := nodes[i];
    hide Inv, I.WellFormed, I.Seps;
    if exists x :: x in I.Seps(c) && x.first <= key {
      var x :| x in I.Seps(c) && x.first <= key && x.second == child;
      SepIsReference(nodes, i, x);
      assert IL.BehindFirst(below, x);
      j :| 1 <= j < |below| && IL.PairOf(below[j]) == x;
    } else if i == 0 {
      j := 0;
    } else {
      SepIsReference(nodes, i, c.Low());
      assert IL.BehindFirst(below, c.Low());
      j :| 1 <= j < |below| && IL.PairOf(below[j]) == c.Low();
    }
  }

  // The right neighbour of a node that does not cover the key reaches it too.
  lemma RightReaches(level: seq<Span>, i: nat, key: int)
    requires Chained(level) && i < |level| && !BelowHigh(level[i].high, key)
    ensures i + 1 < |level| && level[i].high.second == level[i + 1].id && Reaches(level, i + 1, key)
  {
    assert i + 1 < |level| ==> Linked(level[i], level[i + 1]);
  }

  // ---------- the descent in one state: bwtree.h:2814-2947 and 3144-3178 ----------

  method NavigateUpper(s: State, h: nat, start: NodeID, key: int, ghost i0: nat) returns (id: NodeID, ghost i: nat)
    requires Inv(s) && h < |s.uppers| && i0 < |s.uppers[h].path| && s.uppers[h].path[i0] == start
    requires Reaches(ViewOf(s, h + 1).spans, i0, key)
    ensures i0 <= i < |s.uppers[h].path| && s.uppers[h].path[i] == id && Covers(ViewOf(s, h + 1).spans, i, key)
    ensures id in s.uppers[h].table
  {
    LevelIsChained(s, h + 1);
    hide Inv, Chained;
    InvResolves(s);
    var table := s.uppers[h].table;
    id, i := start, i0;
    while !BelowHigh(table[id].High(), key)
      invariant i0 <= i < |s.uppers[h].path| && s.uppers[h].path[i] == id && id in table
      invariant Reaches(ViewOf(s, h + 1).spans, i, key)
      decreases |s.uppers[h].path| - i
    {
      RightReaches(ViewOf(s, h + 1).spans, i, key);
      id := table[id].High().second;
      i := i + 1;
    }
  }

  method NavigateLeaf(s: State, start: NodeID, key: int, ghost i0: nat) returns (id: NodeID, ghost i: nat)
    requires Inv(s) && i0 < |s.leafPath| && s.leafPath[i0] == start && Reaches(ViewOf(s, 0).spans, i0, key)
    ensures i0 <= i < |s.leafPath| && s.leafPath[i] == id && Covers(ViewOf(s, 0).spans, i, key)
  {
    LevelIsChained(s, 0);
    hide Inv, Chained;
    InvResolves(s);
    id, i := start, i0;
    while !BelowHigh(s.leaves[id].High(), key)
      invariant i0 <= i < |s.leafPath| && s.leafPath[i] == id && id in s.leaves
      invariant Reaches(ViewOf(s, 0).spans, i, key)
      decreases |s.leafPath| - i
    {
      RightReaches(ViewOf(s, 0).spans, i, key);
      id := s.leaves[id].High().second;
      i := i + 1;
    }
  }

  // The leaf of a state that covers the key.
  ghost predicate CoveringLeaf(s: State, key: int, id: NodeID)
    requires Inv(s)
  {
    && id in s.leafPath && id in s.leaves && L.InRange(s.leaves[id], key)
    && forall other :: other in s.leafPath && other in s.leaves && L.InRange(s.leaves[other], key) ==> other == id
  }

  lemma CoverIsTheLeaf(s: State, i: nat, key: int)
    requires Inv(s) && i < |s.leafPath| && Covers(ViewOf(s, 0).spans, i, key)
    ensures CoveringLeaf(s, key, s.leafPath[i])
  {
    var nodes := Nodes(s.leaves, s.leafPath);
    LL.CoversIsInRange(s.leafPath, nodes, i, key);
    forall other | other in s.leafPath && other in s.leaves && L.InRange(s.leaves[other], key)
      ensures other == s.leafPath[i]
    {
      var k :| 0 <= k < |s.leafPath| && s.leafPath[k] == other;
      LL.CoversIsInRange(s.leafPath, nodes, k, key);
      LL.OneCover(s.leafPath, nodes, i, k, key);
    }
  }

  // From the root, the descent ends at the one leaf whose range holds the key, whichever index
  // terms are still missing.
  method Traverse(s: State, key: int) returns (id: NodeID)
    requires Inv(s)
    ensures CoveringLeaf(s, key, id)
  {
    InvResolves(s);
    RootIsFirst(s);
    hide Inv, I.WellFormed, I.IsFloor, Chained;
    var h := |s.uppers|;
    id := s.rootId;
    ghost var i: nat := 0;
    while h > 0
      invariant 0 <= h <= |s.uppers| && i < |ViewOf(s, h).spans| && ViewOf(s, h).spans[i].id == id
      invariant Reaches(ViewOf(s, h).spans, i, key)
    {
      h := h - 1;
      id, i := NavigateUpper(s, h, id, key, i);
      InnerIsOk(s, h, i);
      var child := InnerNavigation.NavigateInnerNode(s.uppers[h].table[id], key, i > 0);
      i := FloorReaches(s, h, i, key, child);
      id := child;
    }
    id, i := NavigateLeaf(s, id, key, i);
    CoverIsTheLeaf(s, i, key);
  }

  lemma RootIsFirst(s: State)
    requires Inv(s)
    ensures var level := ViewOf(s, |s.uppers|).spans; |level| > 0 && level[0].id == s.rootId
    ensures |s.uppers| > 0
  {
  }

  // ---------- writers ----------

  ghost predicate KnownNode(above: seq<I.Chain>, level: seq<Span>, id: NodeID) {
    exists i :: 0 <= i < |level| && level[i].id == id && (i == 0 || IL.Refers(above, IL.PairOf(level[i])))
  }

  // A writer that starts at the root, goes down, or moves right from a node whose split has been
  // finished only ever gets to nodes that are known to the level above.
  lemma RootIsKnown(s: State)
    requires Inv(s)
    ensures KnownNode(Parents(s, |s.uppers|), ViewOf(s, |s.uppers|).spans, s.rootId)
  {
    RootIsFirst(s);
  }

  lemma FloorIsKnown(s: State, h: nat, i: nat, key: int, child: NodeID)
    requires Inv(s) && h < |s.uppers| && i < |s.uppers[h].path| && Reaches(ViewOf(s, h + 1).spans, i, key)
    requires I.IsFloor(I.Seps(InnerAt(s, h, i)), InnerAt(s, h, i).Low().second, key, child)
    ensures KnownNode(Parents(s, h), ViewOf(s, h).spans, child)
  {
    hide Inv, I.IsFloor, I.Seps;
    InvResolves(s);
    var j := FloorReaches(s, h, i, key, child);
  }

  lemma NextIsKnown(s: State, h: nat, i: nat)
    requires Inv(s) && h <= |s.uppers| && i + 1 < |ViewOf(s, h).spans| && Settled(s, h, i)
    ensures Known(s, h, i + 1)
  {
    assert LevelInv(s, h);
    assert IL.KnownOrHalf(Parents(s, h), ViewOf(s, h).spans, ViewOf(s, h).half, i + 1);
  }

  // ---------- a descent while the tree changes ----------

  // Where a traversing thread is: a node and its level.
  datatype Cursor = Cursor(level: nat, id: NodeID)

  ghost predicate ReachesNode(level: seq<Span>, id: NodeID, key: int) {
    exists i :: 0 <= i < |level| && level[i].id == id && Reaches(level, i, key)
  }

  ghost predicate OnTheWay(s: State, c: Cursor, key: int)
    requires Inv(s)
  {
    c.level <= |s.uppers| && ReachesNode(ViewOf(s, c.level).spans, c.id, key)
  }

  // One load of the thread: over the sibling link, or down to the floor child.
  ghost predicate CursorMove(s: State, key: int, c: Cursor, c': Cursor) {
    && c.level <= |s.uppers|
    && if c.level == 0 then
         c.id in s.leaves && !BelowHigh(s.leaves[c.id].High(), key)
           && c' == Cursor(0, s.leaves[c.id].High().second)
       else
         var table := s.uppers[c.level - 1].table;
         c.id in table
           && if BelowHigh(table[c.id].High(), key)
              then c'.level == c.level - 1 && I.IsFloor(I.Seps(table[c.id]), table[c.id].Low().second, key, c'.id)
              else c' == Cursor(c.level, table[c.id].High().second)
  }

  lemma MoveStaysOnTheWay(s: State, key: int, c: Cursor, c': Cursor)
    requires Inv(s) && OnTheWay(s, c, key) && CursorMove(s, key, c, c')
    ensures OnTheWay(s, c', key)
  {
    InvResolves(s);
    var level := ViewOf(s, c.level).spans;
    var i :| 0 <= i < |level| && level[i].id == c.id && Reaches(level, i, key);
    hide Inv, Chained, I.Seps, I.IsFloor, ReachesNode;
    if BelowHigh(level[i].high, key) {
      MoveDown(s, key, c, c', i);
    } else {
      LevelIsChained(s, c.level);
      RightReaches(level, i, key);
      MoveRight(s, key, c, c', i);
      ReachesNodeAt(level, i + 1, key);
    }
  }

  lemma ReachesNodeAt(level: seq<Span>, i: nat, key: int)
    requires i < |level| && Reaches(level, i, key)
    ensures ReachesNode(level, level[i].id, key)
  {
  }

  lemma MoveRight(s: State, key: int, c: Cursor, c': Cursor, i: nat)
    requires Inv(s) && CursorMove(s, key, c, c') && i < |ViewOf(s, c.level).spans|
    requires ViewOf(s, c.level).spans[i].id == c.id && !BelowHigh(ViewOf(s, c.level).spans[i].high, key)
    ensures c' == Cursor(c.level, ViewOf(s, c.level).spans[i].high.second)
  {
    InvResolves(s);
    hide Inv, Chained, I.Seps, I.IsFloor;
  }

  lemma MoveDown(s: State, key: int, c: Cursor, c': Cursor, i: nat)
    requires Inv(s) && CursorMove(s, key, c, c') && i < |ViewOf(s, c.level).spans|
    requires ViewOf(s, c.level).spans[i].id == c.id && BelowHigh(ViewOf(s, c.level).spans[i].high, key)
    requires Reaches(ViewOf(s, c.level).spans, i, key)
    ensures OnTheWay(s, c', key)
  {
    hide Inv, Chained, I.Seps, I.IsFloor, ReachesNode, UpperOk, LevelInv;
    InvResolves(s);
    var j := FloorReaches(s, c.level - 1, i, key, c'.id);
    ReachesNodeAt(ViewOf(s, c.level - 1).spans, j, key);
  }

  // Every node keeps its level, its low key and its place behind -Inf.
  ghost predicate Grows(level: seq<Span>, level': seq<Span>) {
    && |level| > 0 && |level'| > 0 && level'[0].id == level[0].id
    && forall x :: IL.BehindFirst(level, x) ==> IL.BehindFirst(level', x)
  }

  lemma GrownLevelReaches(level: seq<Span>, level': seq<Span>, id: NodeID, key: int)
    requires Grows(level, level') && ReachesNode(level, id, key)
    ensures ReachesNode(level', id, key)
  {
    var i :| 0 <= i < |level| && level[i].id == id && Reaches(level, i, key);
    if i > 0 {
      assert IL.BehindFirst(level, IL.PairOf(level[i]));
      var j :| 1 <= j < |level'| && IL.PairOf(level'[j]) == IL.PairOf(level[i]);
      assert Reaches(level', j, key);
    } else {
      assert Reaches(level', 0, key);
    }
  }

  lemma SplitGrows(level: seq<Span>, i: nat, key: int, newId: NodeID)
    requires i < |level|
    ensures Grows(level, SplitAt(level, i, key, newId))
  {
    var r := SplitAt(level, i, key, newId);
    SplitElements(level, i, key, newId);
    forall x | IL.BehindFirst(level, x) ensures IL.BehindFirst(r, x) {
      var j :| 1 <= j < |level| && IL.PairOf(level[j]) == x;
      assert IL.PairOf(r[if j <= i then j else j + 1]) == x;
    }
  }

  // ---------- every step lets the levels grow only ----------

  lemma WithLeafSpans(s: State, i: nat, c: L.Chain)
    requires AllResolve(s) && i < |s.leafPath| && c.Low() == LeafAt(s, i).Low() && c.High() == LeafAt(s, i).High()
    ensures var s' := WithLeaf(s, i, c);
            AllResolve(s') && forall h :: 0 <= h <= |s.uppers| ==> ViewOf(s', h).spans == ViewOf(s, h).spans
  {
    ReplaceNode(s.leaves, s.leafPath, i, c);
    LeafViewReplace(s.leafPath, Nodes(s.leaves, s.leafPath), i, c);
  }

  lemma WithInnerSpans(s: State, h: nat, i: nat, c: I.Chain)
    requires AllResolve(s) && h < |s.uppers| && i < |s.uppers[h].path|
    requires c.Low() == InnerAt(s, h, i).Low() && c.High() == InnerAt(s, h, i).High()
    ensures var s' := WithInner(s, h, i, c);
            AllResolve(s') && forall k :: 0 <= k <= |s.uppers| ==> ViewOf(s', k).spans == ViewOf(s, k).spans
  {
    var u := s.uppers[h];
    ReplaceNode(u.table, u.path, i, c);
    UpperViewReplace(u.path, Nodes(u.table, u.path), i, c);
    hide NoDuplicates, UpperView, Nodes;
  }

  // The ranges of a level after a step: a split divides one of them, and nothing else changes any.
  ghost function SpansAfter(s: State, a: Action, h: nat): seq<Span>
    requires AllResolve(s) && h <= |s.uppers|
  {
    var level := ViewOf(s, h).spans;
    if Enabled(s, a) && a.SplitLeaf? && h == 0 then SplitAt(level, a.i, LeafAt(s, a.i).items[a.at].first, s.nextId)
    else if Enabled(s, a) && a.SplitInner? && h == a.h + 1 then
      var items := InnerAt(s, a.h, a.i).items;
      SplitAt(level, a.i, items[|items| / 2].first, s.nextId)
    else level
  }

  // The level has those ranges after the step.
  ghost predicate HasSpansAfter(s: State, a: Action, h: nat)
    requires AllResolve(s) && AllResolve(Step(s, a)) && h <= |s.uppers|
  {
    h <= |Step(s, a).uppers| && ViewOf(Step(s, a), h).spans == SpansAfter(s, a, h)
  }

  lemma SplitLeafSpans(s: State, i: nat, at: nat, h: nat)
    requires Inv(s) && Enabled(s, SplitLeaf(i, at)) && Inv(Step(s, SplitLeaf(i, at))) && h <= |s.uppers|
    ensures AllResolve(s) && AllResolve(Step(s, SplitLeaf(i, at))) && HasSpansAfter(s, SplitLeaf(i, at), h)
  {
    InvResolves(s);
    InvResolves(Step(s, SplitLeaf(i, at)));
    if h == 0 {
      var c := LeafAt(s, i);
      FreshIsNew(s);
      hide Inv, Known, L.WellFormed;
      SplitNode(s.leaves, s.leafPath, i, s.nextId, LL.SplitRecord(c, at, s.nextId), LL.SplitSibling(c, at));
      LeafViewSplit(s.leafPath, Nodes(s.leaves, s.leafPath), i, at, s.nextId);
    }
  }

  lemma HalvedSpans(u: Upper, i: nat, at: nat, newId: NodeID)
    requires Resolves(u.table, u.path) && i < |u.path| && newId !in u.path
    requires u.table[u.path[i]].Inner? && at < |u.table[u.path[i]].items|
    ensures var u' := Halved(u, i, at, newId);
            && Resolves(u'.table, u'.path)
            && UpperView(u'.path, Nodes(u'.table, u'.path)).spans
            == SplitAt(UpperView(u.path, Nodes(u.table, u.path)).spans, i, u.table[u.path[i]].items[at].first, newId)
  {
    var c := u.table[u.path[i]];
    SplitNode(u.table, u.path, i, newId, IL.SplitRecord(c, at, newId), IL.SplitSibling(c, at));
    UpperViewSplit(u.path, Nodes(u.table, u.path), i, at, newId);
  }

  lemma SplitInnerSpans(s: State, k: nat, i: nat, h: nat)
    requires Inv(s) && Enabled(s, SplitInner(k, i)) && Inv(Step(s, SplitInner(k, i))) && h <= |s.uppers|
    ensures AllResolve(s) && AllResolve(Step(s, SplitInner(k, i))) && HasSpansAfter(s, SplitInner(k, i), h)
  {
    hide Inv, Step, Enabled, Known, UpperOk, LevelInv, I.WellFormed, Meets, SameFirst, Halved, UpperView, Nodes;
    InvResolves(s);
    InvResolves(Step(s, SplitInner(k, i)));
    SplitInnerUnfolds(s, k, i);
    LevelMeets(s, k);
    if h == k + 1 { HalvedSpans(s.uppers[k], i, |InnerAt(s, k, i).items| / 2, s.nextId); }
  }

  lemma LeafRecordSpans(s: State, a: Action, h: nat)
    requires Inv(s) && Enabled(s, a) && Inv(Step(s, a)) && h <= |s.uppers|
    requires a.InsertItem? || a.DeleteItem? || a.ConsolidateLeaf?
    ensures AllResolve(s) && AllResolve(Step(s, a)) && HasSpansAfter(s, a, h)
  {
    hide Inv, Step, Enabled, UpperOk, LevelInv;
    InvResolves(s);
    InvResolves(Step(s, a));
    LeafRecordUnfolds(s, a);
    WithLeafSpans(s, a.i, Step(s, a).leaves[s.leafPath[a.i]]);
  }

  lemma LeafRecordUnfolds(s: State, a: Action)
    requires AllResolve(s) && Enabled(s, a) && (a.InsertItem? || a.DeleteItem? || a.ConsolidateLeaf?)
    ensures a.i < |s.leafPath| && s.leafPath[a.i] in Step(s, a).leaves
    ensures var c := Step(s, a).leaves[s.leafPath[a.i]];
            c.Low() == LeafAt(s, a.i).Low() && c.High() == LeafAt(s, a.i).High() && Step(s, a) == WithLeaf(s, a.i, c)
  {
    hide Settled, L.Locate;
  }

  lemma ConsolidateInnerUnchanged(s: State, a: Action)
    requires Inv(s) && Enabled(s, a) && a.ConsolidateInner?
    ensures AllResolve(s) && a.h < |s.uppers| && a.i < |s.uppers[a.h].path|
    ensures s.uppers[a.h].path[a.i] in s.uppers[a.h].table
    ensures var c := InnerAt(s, a.h, a.i);
            var c' := I.Inner(c.Low(), c.High(), a.innerItems, a.depth);
            Step(s, a) == WithInner(s, a.h, a.i, c') && c'.Low() == c.Low() && c'.High() == c.High()
  {
    InvResolves(s);
    ConsolidateInnerUnfolds(s, a.h, a.i, a.innerItems, a.depth);
    hide Inv, UpperOk, Step, Enabled, AllResolve, ViewOf, I.WellFormed, I.Seps;
    InnerIsOk(s, a.h, a.i);
    InnerConsolidation.ConsolidatedChain(InnerAt(s, a.h, a.i), a.i > 0, a.innerItems, a.depth);
  }

  lemma ConsolidateInnerSpans(s: State, a: Action, h: nat)
    requires Inv(s) && Enabled(s, a) && a.ConsolidateInner? && h <= |s.uppers|
    ensures AllResolve(s) && AllResolve(Step(s, a)) && HasSpansAfter(s, a, h)
  {
    ConsolidateInnerUnchanged(s, a);
    var c := InnerAt(s, a.h, a.i);
    hide Inv, Step, Enabled, AllResolve, ViewOf;
    WithInnerSpans(s, a.h, a.i, I.Inner(c.Low(), c.High(), a.innerItems, a.depth));
  }

  lemma PostTermSpans(s: State, a: Action, h: nat)
    requires Inv(s) && Enabled(s, a) && a.PostTerm? && h <= |s.uppers|
    ensures AllResolve(s) && AllResolve(Step(s, a)) && HasSpansAfter(s, a, h)
  {
    InvResolves(s);
    PostTermUnfolds(s, a.h, a.i, a.parent);
    hide Inv, UpperOk, Step, Enabled, AllResolve, ViewOf;
    WithInnerSpans(s, a.h, a.parent, Term(s, a.h, a.i, a.parent));
  }

  lemma GrowRootSpans(s: State, h: nat)
    requires Inv(s) && Enabled(s, GrowRoot) && Inv(Step(s, GrowRoot)) && h <= |s.uppers|
    ensures AllResolve(s) && AllResolve(Step(s, GrowRoot)) && HasSpansAfter(s, GrowRoot, h)
  {
    hide Inv, UpperOk, LevelInv;
    InvResolves(s);
    InvResolves(Step(s, GrowRoot));
  }

  lemma LevelsAfter(s: State, a: Action)
    requires |s.uppers| > 0
    ensures |Step(s, a).uppers| == |s.uppers| + (if a.GrowRoot? && Enabled(s, a) then 1 else 0)
    ensures Step(s, a).rootId == if a.GrowRoot? && Enabled(s, a) then s.nextId else s.rootId
  {
    hide AllResolve, ViewOf, Settled, Known, Parents, ReachedThrough, L.Locate, I.Find;
  }

  // A split divides the range of its node at the split key; no other step changes a range, and the tree
  // gets a level, with a new root, exactly when its root is replaced.
  lemma StepSpans(s: State, a: Action, h: nat)
    requires Inv(s) && Inv(Step(s, a)) && h <= |s.uppers|
    ensures AllResolve(s) && AllResolve(Step(s, a)) && HasSpansAfter(s, a, h)
    ensures |Step(s, a).uppers| == |s.uppers| + (if a.GrowRoot? && Enabled(s, a) then 1 else 0)
    ensures Step(s, a).rootId == if a.GrowRoot? && Enabled(s, a) then s.nextId else s.rootId
  {
    InvResolves(s);
    InvResolves(Step(s, a));
    RootIsFirst(s);
    LevelsAfter(s, a);
    if Enabled(s, a) {
      hide Inv, Step, Enabled, HasSpansAfter, LevelInv, UpperOk, AllResolve;
      match a {
        case InsertItem(_, _) => LeafRecordSpans(s, a, h);
        case DeleteItem(_, _) => LeafRecordSpans(s, a, h);
        case ConsolidateLeaf(_, _) => LeafRecordSpans(s, a, h);
        case SplitLeaf(i, at) => SplitLeafSpans(s, i, at, h);
        case ConsolidateInner(_, _, _, _) => ConsolidateInnerSpans(s, a, h);
        case SplitInner(k, i) => SplitInnerSpans(s, k, i, h);
        case PostTerm(_, _, _) => PostTermSpans(s, a, h);
        case GrowRoot => GrowRootSpans(s, h);
      }
    }
  }

  // Both states have the level, and every node of it is still there.
  ghost predicate LevelGrows(s: State, s': State, h: nat)
    requires AllResolve(s) && AllResolve(s') && h <= |s.uppers|
  {
    h <= |s'.uppers| && Grows(ViewOf(s, h).spans, ViewOf(s', h).spans)
  }

  lemma SpansGrow(s: State, a: Action, h: nat)
    requires AllResolve(s) && h <= |s.uppers| && |ViewOf(s, h).spans| > 0
    ensures Grows(ViewOf(s, h).spans, SpansAfter(s, a, h))
  {
    var level := ViewOf(s, h).spans;
    hide ViewOf, Grows, Known, AllResolve;
    if Enabled(s, a) && a.SplitLeaf? && h == 0 {
      SplitGrows(level, a.i, LeafAt(s, a.i).items[a.at].first, s.nextId);
    } else if Enabled(s, a) && a.SplitInner? && h == a.h + 1 {
      var items := InnerAt(s, a.h, a.i).items;
      SplitGrows(level, a.i, items[|items| / 2].first, s.nextId);
    } else {
      SameGrows(level);
    }
  }

  lemma SameGrows(level: seq<Span>)
    requires |level| > 0
    ensures Grows(level, level)
  {
  }

  lemma StepGrows(s: State, a: Action, h: nat)
    requires Inv(s) && Inv(Step(s, a)) && h <= |s.uppers|
    ensures AllResolve(s) && AllResolve(Step(s, a)) && LevelGrows(s, Step(s, a), h)
  {
    LevelIsChained(s, h);
    StepSpans(s, a, h);
    hide Inv, Step, Enabled, AllResolve, SpansAfter, ViewOf, Grows;
    SpansGrow(s, a, h);
  }

  // ---------- a traversal interleaved with any steps ----------

  datatype Event = Tree(a: Action) | Load(c: Cursor)

  ghost predicate IsTraversal(key: int, events: seq<Event>, run: seq<State>, cursors: seq<Cursor>) {
    && |run| == |cursors| == |events| + 1
    && Inv(run[0]) && cursors[0] == Cursor(|run[0].uppers|, run[0].rootId)
    && forall j :: 0 <= j < |events| ==>
         Interleaves(key, events[j], run[j], run[j + 1], cursors[j], cursors[j + 1])
  }

  // Either some thread changes the tree, or this one loads its next node, if the load is possible.
  ghost predicate Interleaves(key: int, e: Event, s: State, s': State, c: Cursor, c': Cursor) {
    match e
    case Tree(a) => s' == Step(s, a) && c' == c
    case Load(next) => s' == s && c' == if CursorMove(s, key, c, next) then next else c
  }

  lemma EventStaysOnTheWay(key: int, e: Event, s: State, s': State, c: Cursor, c': Cursor)
    requires Inv(s) && OnTheWay(s, c, key) && Interleaves(key, e, s, s', c, c')
    ensures Inv(s') && OnTheWay(s', c', key)
  {
    match e {
      case Tree(a) =>
        StepKeepsInv(s, a);
        StepGrows(s, a, c.level);
        hide Inv, Step;
        InvResolves(s);
        InvResolves(s');
        GrownLevelReaches(ViewOf(s, c.level).spans, ViewOf(s', c.level).spans, c.id, key);
      case Load(next) =>
        if CursorMove(s, key, c, next) {
          MoveStaysOnTheWay(s, key, c, next);
        }
    }
  }

  lemma {:induction false} TraversalStaysOnTheWay(key: int, events: seq<Event>, run: seq<State>, cursors: seq<Cursor>,
                                                  j: nat)
    requires IsTraversal(key, events, run, cursors) && j <= |events|
    ensures Inv(run[j]) && OnTheWay(run[j], cursors[j], key)
  {
    if j == 0 {
      InvResolves(run[0]);
      RootIsFirst(run[0]);
      ReachesNodeAt(ViewOf(run[0], |run[0].uppers|).spans, 0, key);
    } else {
      TraversalStaysOnTheWay(key, events, run, cursors, j - 1);
      EventStaysOnTheWay(key, events[j - 1], run[j - 1], run[j], cursors[j - 1], cursors[j]);
    }
  }

  // Whatever other threads do meanwhile, a traversal that stands on a leaf whose high key is above
  // the search key stands on the leaf that covers it at that moment.
  lemma ConcurrentTraversalIsExact(key: int, events: seq<Event>, run: seq<State>, cursors: seq<Cursor>, j: nat)
    requires IsTraversal(key, events, run, cursors) && j <= |events|
    requires cursors[j].level == 0 && cursors[j].id in run[j].leaves
    requires BelowHigh(run[j].leaves[cursors[j].id].High(), key)
    ensures Inv(run[j]) && CoveringLeaf(run[j], key, cursors[j].id)
  {
    TraversalStaysOnTheWay(key, events, run, cursors, j);
    var s := run[j];
    InvResolves(s);
    var level := ViewOf(s, 0).spans;
    var i :| 0 <= i < |level| && level[i].id == cursors[j].id && Reaches(level, i, key);
    CoverIsTheLeaf(s, i, key);
  }
}
