// What writers know stays true while the tree changes, so that every compare-and-swap of theirs that
// succeeds is a step of TreeMachine: its guards follow from the control flow of the writers.
module TreeWriterProofs {
  import opened Options
  import opened Pairs
  import opened Levels
  import opened TreeWriters
  import L = LeafChain
  import LL = LeafLevel
  import I = InnerChain
  import IL = InnerLevel
  import T = TreeMachine
  import InnerConsolidation
  import TreeTerms
  import TreeEffects
  import TreeProofs
  import TreeResults

  // ---------- what a snapshot knows ----------

  // How the level above names the node: by its low key and NodeID.
  function PlaceOf(p: Snapshot): KeyNodeIDPair {
    Pair(p.node.Low().first, p.id)
  }

  ghost predicate Placed(s: T.State, p: Snapshot) {
    && T.AllResolve(s) && p.level <= |s.uppers|
    && var level := T.ViewOf(s, p.level).spans;
       if p.first then |level| > 0 && level[0].id == p.id
       else IL.BehindFirst(level, PlaceOf(p)) && IL.Refers(T.Parents(s, p.level), PlaceOf(p))
  }

  // The node was well-formed and holds no key above the search key.
  ghost predicate ChainOk(p: Snapshot, key: int) {
    && (p.first || p.node.Low().first <= key)
    && match p.node
       case LeafNode(c) => p.level == 0 && L.WellFormed(c) && (c.Low().second == INVALID_NODE_ID <==> p.first)
       case InnerNode(c) => p.level > 0 && I.WellFormed(c, !p.first)
  }

  // Its next node exists, and the level above names it unless the node still has its split record on top.
  ghost predicate NextOk(s: T.State, p: Snapshot)
    requires T.AllResolve(s) && p.level <= |s.uppers|
  {
    var next := p.node.High();
    next.second != INVALID_NODE_ID ==>
      && IL.BehindFirst(T.ViewOf(s, p.level).spans, next)
      && (IL.Refers(T.Parents(s, p.level), next) || (p.node.Half().Some? && Unchanged(s, p)))
  }

  // What an inner node referred to is still referred to.
  ghost predicate BelowOk(s: T.State, p: Snapshot)
    requires T.AllResolve(s) && p.level <= |s.uppers|
  {
    p.node.InnerNode? && p.level > 0 ==>
      && (forall x :: x in I.Seps(p.node.inner) ==> IL.Refers(T.Parents(s, p.level - 1), x))
      && var level, low := T.ViewOf(s, p.level - 1).spans, p.node.inner.Low();
         if p.first then |level| > 0 && level[0].id == low.second else IL.Refers(T.Parents(s, p.level - 1), low)
  }

  ghost predicate SnapOk(s: T.State, p: Snapshot, key: int) {
    Placed(s, p) && ChainOk(p, key) && NextOk(s, p) && BelowOk(s, p)
  }

  // The index term of the split record on top, if there is one, has been posted.
  ghost predicate FinishedOk(s: T.State, p: Snapshot) {
    T.AllResolve(s) && p.level <= |s.uppers| && (p.node.Half().Some? ==> IL.Refers(T.Parents(s, p.level), p.node.High()))
  }

  // ---------- levels ----------

  lemma LevelFacts(s: T.State, h: nat)
    requires T.Inv(s) && h <= |s.uppers|
    ensures T.AllResolve(s)
    ensures var v := T.ViewOf(s, h);
            && Chained(v.spans) && IL.Indexed(T.Parents(s, h), v.spans, v.half) && |v.spans| == |PathOf(s, h)|
            && forall j, k :: 0 <= j < k < |v.spans| ==> v.spans[j].id != v.spans[k].id
  {
    TreeProofs.InvResolves(s);
    TreeProofs.LevelIsChained(s, h);
    assert T.LevelInv(s, h);
    TreeProofs.PathsAreDistinct(s, h);
    hide T.Inv, Chained, IL.Indexed, NoDuplicates;
  }

  lemma Width(s: T.State, h: nat)
    requires T.AllResolve(s) && h <= |s.uppers|
    ensures |T.ViewOf(s, h).spans| == |PathOf(s, h)|
  {
  }

  lemma Resolved(s: T.State, h: nat, i: nat)
    requires T.AllResolve(s) && h < |s.uppers| && i < |s.uppers[h].path|
    ensures s.uppers[h].path[i] in s.uppers[h].table
  {
    assert Resolves(s.uppers[h].table, s.uppers[h].path);
  }

  lemma NodeAt(s: T.State, h: nat, i: nat)
    requires T.AllResolve(s) && h <= |s.uppers| && i < |T.ViewOf(s, h).spans|
    ensures var span := T.ViewOf(s, h).spans[i];
            && i < |PathOf(s, h)| && PathOf(s, h)[i] == span.id && Maps(s, h, span.id)
            && var node := Load(s, h, span.id);
               && (node.LeafNode? <==> h == 0)
               && span == Span(span.id, node.Low().first, node.High()) && T.ViewOf(s, h).half[i] == node.Half()
  {
  }

  // The position of a snapshot's node.
  lemma PositionOf(s: T.State, p: Snapshot) returns (i: nat)
    requires T.Inv(s) && Placed(s, p)
    ensures T.AllResolve(s) && p.level <= |s.uppers| && i < |T.ViewOf(s, p.level).spans|
    ensures T.ViewOf(s, p.level).spans[i].id == p.id && (i == 0 <==> p.first) && T.Known(s, p.level, i)
    ensures !p.first ==> IL.PairOf(T.ViewOf(s, p.level).spans[i]) == PlaceOf(p)
  {
    hide T.Inv, T.ViewOf, T.Parents, IL.Refers;
    var level := T.ViewOf(s, p.level).spans;
    if p.first {
      i := 0;
    } else {
      i :| 1 <= i < |level| && IL.PairOf(level[i]) == PlaceOf(p);
    }
  }

  // ---------- a fresh snapshot ----------

  lemma TakenIsOk(s: T.State, h: nat, i: nat, key: int)
    requires T.Inv(s) && h <= |s.uppers| && T.AllResolve(s) && i < |T.ViewOf(s, h).spans|
    requires T.Known(s, h, i) && TreeResults.Reaches(T.ViewOf(s, h).spans, i, key)
    ensures var id := T.ViewOf(s, h).spans[i].id;
            && Maps(s, h, id) && SnapOk(s, Take(s, h, id), key) && (Take(s, h, id).first <==> i == 0)
            && Unchanged(s, Take(s, h, id))
  {
    hide T.Inv, T.AllResolve, T.ViewOf, T.Parents, IL.Refers, Load, NextOk, BelowOk, I.WellFormed, L.WellFormed, PathOf, Chained;
    NodeAt(s, h, i);
    TakenFirst(s, h, i);
    TakenChain(s, h, i);
    TakenNext(s, h, i);
    TakenBelow(s, h, i);
  }

  lemma TakenFirst(s: T.State, h: nat, i: nat)
    requires T.Inv(s) && h <= |s.uppers| && T.AllResolve(s) && i < |T.ViewOf(s, h).spans|
    ensures [T.ViewOf(s, h).spans[i].id] <= PathOf(s, h) <==> i == 0
  {
    LevelFacts(s, h);
    NodeAt(s, h, i);
    NodeAt(s, h, 0);
    hide T.Inv, T.ViewOf, T.Parents, PathOf;
  }

  lemma TakenChain(s: T.State, h: nat, i: nat)
    requires T.Inv(s) && h <= |s.uppers| && T.AllResolve(s) && i < |T.ViewOf(s, h).spans|
    ensures var id := T.ViewOf(s, h).spans[i].id;
            && Maps(s, h, id)
            && match Load(s, h, id)
               case LeafNode(c) => h == 0 && L.WellFormed(c) && (c.Low().second == INVALID_NODE_ID <==> i == 0)
               case InnerNode(c) => h > 0 && I.WellFormed(c, i > 0)
  {
    NodeAt(s, h, i);
    if h == 0 {
      assert LL.LeafOk(Nodes(s.leaves, s.leafPath), i);
    } else {
      TreeProofs.InnerIsOk(s, h - 1, i);
    }
  }

  lemma TakenNext(s: T.State, h: nat, i: nat)
    requires T.Inv(s) && h <= |s.uppers| && T.AllResolve(s) && i < |T.ViewOf(s, h).spans|
    ensures Maps(s, h, T.ViewOf(s, h).spans[i].id) && NextOk(s, Take(s, h, T.ViewOf(s, h).spans[i].id))
  {
    LevelFacts(s, h);
    NodeAt(s, h, i);
    var v := T.ViewOf(s, h);
    hide T.Inv, T.ViewOf, T.Parents, IL.Refers, Load;
    if v.spans[i].high.second != INVALID_NODE_ID {
      assert i + 1 < |v.spans| && Linked(v.spans[i], v.spans[i + 1]);
      assert IL.PairOf(v.spans[i + 1]) == v.spans[i].high;
      assert IL.KnownOrHalf(T.Parents(s, h), v.spans, v.half, i + 1);
    }
  }

  lemma ParentAt(s: T.State, h: nat, i: nat)
    requires T.Inv(s) && 0 < h <= |s.uppers| && T.AllResolve(s) && i < |T.ViewOf(s, h).spans|
    ensures |T.ViewOf(s, h - 1).spans| > 0 && i < |T.Parents(s, h - 1)|
    ensures Maps(s, h, T.ViewOf(s, h).spans[i].id)
    ensures InnerNode(T.Parents(s, h - 1)[i]) == Load(s, h, T.ViewOf(s, h).spans[i].id)
    ensures i == 0 ==> T.Parents(s, h - 1)[i].Low().second == T.ViewOf(s, h - 1).spans[0].id
  {
    NodeAt(s, h, i);
    LevelFacts(s, h - 1);
    hide T.Inv, Chained;
  }

  lemma TakenBelow(s: T.State, h: nat, i: nat)
    requires T.Inv(s) && h <= |s.uppers| && T.AllResolve(s) && i < |T.ViewOf(s, h).spans|
    ensures Maps(s, h, T.ViewOf(s, h).spans[i].id) && BelowOk(s, Take(s, h, T.ViewOf(s, h).spans[i].id))
  {
    hide T.Inv, T.AllResolve, T.ViewOf, T.Parents, IL.Refers, Load, I.Seps, PathOf, Chained;
    NodeAt(s, h, i);
    if h > 0 {
      ParentAt(s, h, i);
      TakenFirst(s, h, i);
      var nodes := T.Parents(s, h - 1);
      forall x | x in I.Seps(nodes[i]) ensures IL.Refers(nodes, x) { TreeProofs.SepIsReference(nodes, i, x); }
      TreeProofs.SepIsReference(nodes, i, nodes[i].Low());
    }
  }

  // ---------- what stays true ----------

  // No step takes a reference away.
  lemma ReferencesStay(s: T.State, a: T.Action, h: nat, x: KeyNodeIDPair)
    requires T.Inv(s) && h <= |s.uppers| && T.AllResolve(s) && T.AllResolve(T.Step(s, a))
    requires IL.Refers(T.Parents(s, h), x)
    ensures h <= |T.Step(s, a).uppers| && IL.Refers(T.Parents(T.Step(s, a), h), x)
  {
    hide T.Inv, T.AllResolve, T.Parents, IL.Refers, T.Step, TreeEffects.AddsReference;
    TreeEffects.StepReferences(s, a, h, x);
  }

  // Node i of level h has a split record on top, and its index term is missing.
  ghost predicate Unfinished(s: T.State, h: nat, i: nat) {
    && T.AllResolve(s) && h <= |s.uppers| && i + 1 < |T.ViewOf(s, h).spans|
    && T.ViewOf(s, h).half[i].Some? && !T.Settled(s, h, i)
  }

  // The entry of node i of inner level h is the same in both states.
  predicate EntryStays(s: T.State, s': T.State, h: nat, i: nat) {
    && h < |s.uppers| && i < |s.uppers[h].path| && s.uppers[h].path[i] in s.uppers[h].table
    && h < |s'.uppers| && s.uppers[h].path[i] in s'.uppers[h].table
    && s'.uppers[h].table[s.uppers[h].path[i]] == s.uppers[h].table[s.uppers[h].path[i]]
  }

  lemma OtherEntry(s: T.State, k: nat, j: nat, c: I.Chain, h: nat, i: nat)
    requires k < |s.uppers| && j < |s.uppers[k].path| && h < |s.uppers| && i < |s.uppers[h].path|
    requires T.AllResolve(s) && (k != h || j != i)
    ensures EntryStays(s, T.WithInner(s, k, j, c), h, i)
  {
    assert Resolves(s.uppers[h].table, s.uppers[h].path);
  }

  lemma OtherHalved(s: T.State, k: nat, j: nat, h: nat, i: nat)
    requires T.AllResolve(s) && T.Enabled(s, T.SplitInner(k, j)) && h < |s.uppers| && i < |s.uppers[h].path|
    requires (k != h || j != i) && s.uppers[h].path[i] != s.nextId
    ensures EntryStays(s, T.Step(s, T.SplitInner(k, j)), h, i)
  {
    TreeProofs.SplitInnerUnfolds(s, k, j);
    hide T.Step, T.Enabled, T.Known;
    assert Resolves(s.uppers[h].table, s.uppers[h].path);
  }

  // Nobody may touch such a node.
  lemma InnerUnfinished(s: T.State, a: T.Action, h: nat, i: nat)
    requires h < |s.uppers| && Unfinished(s, h + 1, i) && T.Enabled(s, a) && i < |s.uppers[h].path|
    requires s.uppers[h].path[i] != s.nextId && !T.InnerAt(s, h, i).Inner?
    ensures EntryStays(s, T.Step(s, a), h, i)
  {
    hide T.AllResolve, T.Settled, T.ViewOf, T.Parents, EntryStays, T.ReachedThrough, T.Known;
    match a {
      case ConsolidateInner(k, j, items, depth) =>
        TreeProofs.ConsolidateInnerUnfolds(s, k, j, items, depth);
        hide T.Step, T.Enabled;
        Resolved(s, k, j);
        var c := T.InnerAt(s, k, j);
        OtherEntry(s, k, j, I.Inner(c.Low(), c.High(), items, depth), h, i);
      case SplitInner(k, j) =>
        TreeProofs.SplitInnerUnfolds(s, k, j);
        hide T.Step, T.Enabled;
        OtherHalved(s, k, j, h, i);
      case PostTerm(k, j, m) =>
        TreeProofs.PostTermUnfolds(s, k, j, m);
        hide T.Step, T.Enabled;
        OtherEntry(s, k, m, T.Term(s, k, j, m), h, i);
      case _ => OtherUppers(s, a, h, i);
    }
  }

  lemma OtherUppers(s: T.State, a: T.Action, h: nat, i: nat)
    requires T.AllResolve(s) && h < |s.uppers| && i < |s.uppers[h].path| && T.Enabled(s, a)
    requires !a.ConsolidateInner? && !a.SplitInner? && !a.PostTerm?
    ensures EntryStays(s, T.Step(s, a), h, i)
  {
    assert Resolves(s.uppers[h].table, s.uppers[h].path);
    hide T.Settled, T.Known, T.ViewOf, T.Parents, T.AllResolve;
  }

  lemma LeafUnfinished(s: T.State, a: T.Action, i: nat)
    requires Unfinished(s, 0, i) && T.Enabled(s, a) && i < |s.leafPath| && s.leafPath[i] != s.nextId
    requires !T.LeafAt(s, i).Leaf?
    ensures s.leafPath[i] in s.leaves && s.leafPath[i] in T.Step(s, a).leaves
    ensures T.Step(s, a).leaves[s.leafPath[i]] == s.leaves[s.leafPath[i]]
  {
    Width(s, 0);
    hide IL.Refers, T.ViewOf, T.Parents;
    if a.InsertItem? || a.DeleteItem? || a.ConsolidateLeaf? {
      assert T.Settled(s, 0, a.i);
      TreeResults.LeafRecordUnfolds(s, a);
    }
  }

  lemma UnfinishedStays(s: T.State, a: T.Action, h: nat, i: nat)
    requires Unfinished(s, h, i) && T.Enabled(s, a) && T.ViewOf(s, h).spans[i].id != s.nextId
    ensures var id := T.ViewOf(s, h).spans[i].id;
            Maps(s, h, id) && Maps(T.Step(s, a), h, id) && Load(T.Step(s, a), h, id) == Load(s, h, id)
  {
    NodeAt(s, h, i);
    hide T.ViewOf, T.Enabled, T.Step, T.Settled;
    if h == 0 { LeafUnfinished(s, a, i); } else { InnerUnfinished(s, a, h - 1, i); }
  }

  // ---------- a snapshot outlives every step ----------

  lemma PlaceStays(s: T.State, a: T.Action, p: Snapshot)
    requires T.Inv(s) && T.Inv(T.Step(s, a)) && Placed(s, p)
    ensures Placed(T.Step(s, a), p)
  {
    var s' := T.Step(s, a);
    TreeProofs.InvResolves(s');
    TreeResults.StepGrows(s, a, p.level);
    hide T.Inv, T.AllResolve, T.ViewOf, T.Parents, IL.Refers, T.Step, IL.BehindFirst;
    if !p.first { ReferencesStay(s, a, p.level, PlaceOf(p)); }
  }

  lemma NextStays(s: T.State, a: T.Action, p: Snapshot)
    requires T.Inv(s) && T.Inv(T.Step(s, a)) && Placed(s, p) && NextOk(s, p)
    ensures T.AllResolve(T.Step(s, a)) && p.level <= |T.Step(s, a).uppers| && NextOk(T.Step(s, a), p)
  {
    var s', next := T.Step(s, a), p.node.High();
    TreeProofs.InvResolves(s');
    TreeResults.StepGrows(s, a, p.level);
    hide T.Inv, T.AllResolve, T.ViewOf, T.Parents, IL.Refers, T.Step, IL.BehindFirst, Placed, T.Enabled, Unchanged;
    if next.second != INVALID_NODE_ID {
      if IL.Refers(T.Parents(s, p.level), next) {
        ReferencesStay(s, a, p.level, next);
      } else if T.Enabled(s, a) {
        SplitStays(s, a, p);
      } else {
        DisabledStays(s, a);
      }
    }
  }

  lemma DisabledStays(s: T.State, a: T.Action)
    requires !T.Enabled(s, a)
    ensures T.Step(s, a) == s
  {
  }

  lemma SplitStays(s: T.State, a: T.Action, p: Snapshot)
    requires T.Inv(s) && T.Enabled(s, a) && Placed(s, p) && Unchanged(s, p) && p.node.Half().Some?
    requires p.node.High().second != INVALID_NODE_ID && !IL.Refers(T.Parents(s, p.level), p.node.High())
    ensures Unchanged(T.Step(s, a), p)
  {
    var i := PositionOf(s, p);
    var h := p.level;
    LevelFacts(s, h);
    NodeAt(s, h, i);
    FreshId(s, h, i);
    var v := T.ViewOf(s, h);
    hide T.Inv, T.AllResolve, T.ViewOf, T.Parents, IL.Refers, T.Step, Load, IL.Indexed, T.Known;
    assert Linked(v.spans[i], v.spans[i + 1]);
    UnfinishedStays(s, a, h, i);
  }

  lemma FreshId(s: T.State, h: nat, i: nat)
    requires T.Inv(s) && h <= |s.uppers| && T.AllResolve(s) && i < |T.ViewOf(s, h).spans|
    ensures T.ViewOf(s, h).spans[i].id < s.nextId
  {
    NodeAt(s, h, i);
    assert PathOf(s, h)[i] in PathOf(s, h);
  }

  lemma FirstStays(s: T.State, a: T.Action, h: nat)
    requires T.Inv(s) && T.Inv(T.Step(s, a)) && T.AllResolve(s) && h <= |s.uppers|
    ensures T.AllResolve(T.Step(s, a)) && h <= |T.Step(s, a).uppers|
    ensures var level, level' := T.ViewOf(s, h).spans, T.ViewOf(T.Step(s, a), h).spans;
            |level| > 0 && |level'| > 0 && level'[0].id == level[0].id
  {
    TreeProofs.InvResolves(T.Step(s, a));
    TreeResults.StepGrows(s, a, h);
  }

  lemma BelowStays(s: T.State, a: T.Action, p: Snapshot)
    requires T.Inv(s) && T.Inv(T.Step(s, a)) && T.AllResolve(s) && p.level <= |s.uppers| && BelowOk(s, p)
    ensures T.AllResolve(T.Step(s, a)) && p.level <= |T.Step(s, a).uppers| && BelowOk(T.Step(s, a), p)
  {
    hide T.Inv, T.AllResolve, T.ViewOf, T.Parents, IL.Refers, T.Step, IL.BehindFirst, I.Seps;
    FirstStays(s, a, p.level);
    if p.node.InnerNode? && p.level > 0 {
      FirstStays(s, a, p.level - 1);
      forall x | x in I.Seps(p.node.inner) ensures IL.Refers(T.Parents(T.Step(s, a), p.level - 1), x) {
        ReferencesStay(s, a, p.level - 1, x);
      }
      if !p.first { ReferencesStay(s, a, p.level - 1, p.node.inner.Low()); }
    }
  }

  lemma SnapStays(s: T.State, a: T.Action, p: Snapshot, key: int)
    requires T.Inv(s) && T.Inv(T.Step(s, a)) && SnapOk(s, p, key)
    ensures SnapOk(T.Step(s, a), p, key)
    ensures FinishedOk(s, p) ==> FinishedOk(T.Step(s, a), p)
  {
    hide T.Inv, NextOk, BelowOk, ChainOk, T.Step;
    PlaceStays(s, a, p);
    NextStays(s, a, p);
    BelowStays(s, a, p);
    hide Placed;
    PlacedParts(s, p);
    if p.node.Half().Some? && FinishedOk(s, p) { ReferencesStay(s, a, p.level, p.node.High()); }
  }

  lemma PlacedParts(s: T.State, p: Snapshot)
    requires Placed(s, p)
    ensures T.AllResolve(s) && p.level <= |s.uppers|
  {
  }

  // ---------- where the next node lies ----------

  lemma ReferenceLies(s: T.State, h: nat, x: KeyNodeIDPair) returns (j: nat)
    requires T.Inv(s) && T.AllResolve(s) && h <= |s.uppers| && IL.Refers(T.Parents(s, h), x)
    ensures 1 <= j < |T.ViewOf(s, h).spans| && IL.PairOf(T.ViewOf(s, h).spans[j]) == x && T.Known(s, h, j)
  {
    LevelFacts(s, h);
    var level := T.ViewOf(s, h).spans;
    hide T.Inv, T.AllResolve, T.ViewOf, T.Parents, IL.Refers, Chained;
    assert IL.BehindFirst(level, x);
    j :| 1 <= j < |level| && IL.PairOf(level[j]) == x;
  }

  // Node j of level h is `id`, it is known and reaches the key, and does not lie before the snapshot.
  ghost predicate Lies(s: T.State, h: nat, j: nat, id: NodeID, key: int, p: Snapshot) {
    && T.AllResolve(s) && h <= |s.uppers| && j < |T.ViewOf(s, h).spans| && T.ViewOf(s, h).spans[j].id == id
    && T.Known(s, h, j) && TreeResults.Reaches(T.ViewOf(s, h).spans, j, key)
    && (!p.first ==> j > 0 && p.node.Low().first <= T.ViewOf(s, h).spans[j].low)
  }

  // The floor child comes from a separator, or from the low key.
  lemma FloorItem(p: Snapshot, key: int, child: NodeID) returns (x: KeyNodeIDPair)
    requires ChainOk(p, key) && p.node.InnerNode?
    requires I.IsFloor(I.Seps(p.node.inner), p.node.inner.Low().second, key, child)
    ensures x.second == child && (x in I.Seps(p.node.inner) || x == p.node.inner.Low())
    ensures x in I.Seps(p.node.inner) || !p.first ==> x.first <= key && (!p.first ==> p.node.Low().first <= x.first)
  {
    var c := p.node.inner;
    I.SepsInRange(c, !p.first);
    hide I.Seps, I.WellFormed;
    if exists y :: y in I.Seps(c) && y.first <= key {
      x :| x in I.Seps(c) && x.first <= key && x.second == child;
    } else {
      x := c.Low();
      assert x !in I.Seps(c);
    }
  }

  lemma BelowParts(s: T.State, p: Snapshot, x: KeyNodeIDPair)
    requires Placed(s, p) && BelowOk(s, p)
    requires p.node.InnerNode? && p.level > 0 && (x in I.Seps(p.node.inner) || x == p.node.inner.Low())
    ensures T.AllResolve(s) && p.level <= |s.uppers|
    ensures x in I.Seps(p.node.inner) || !p.first ==> IL.Refers(T.Parents(s, p.level - 1), x)
    ensures x !in I.Seps(p.node.inner) && p.first ==>
              |T.ViewOf(s, p.level - 1).spans| > 0 && T.ViewOf(s, p.level - 1).spans[0].id == x.second
  {
    hide T.AllResolve, T.ViewOf, T.Parents, IL.Refers, I.Seps, ChainOk, NextOk;
  }

  // The floor child of an inner snapshot, however old, reaches the key.
  lemma FloorLies(s: T.State, p: Snapshot, key: int, child: NodeID) returns (j: nat)
    requires T.Inv(s) && SnapOk(s, p, key) && p.node.InnerNode? && p.level > 0
    requires I.IsFloor(I.Seps(p.node.inner), p.node.inner.Low().second, key, child)
    ensures Lies(s, p.level - 1, j, child, key, p)
  {
    hide T.Inv, T.AllResolve, T.ViewOf, T.Parents, IL.Refers, I.Seps, I.IsFloor, ChainOk, BelowOk, NextOk, Placed;
    var x := FloorItem(p, key, child);
    BelowParts(s, p, x);
    if x in I.Seps(p.node.inner) || !p.first {
      j := ReferenceLies(s, p.level - 1, x);
    } else {
      j := 0;
    }
  }

  lemma LowBelowHigh(p: Snapshot, key: int)
    requires ChainOk(p, key) && !p.first
    ensures BelowHigh(p.node.High(), p.node.Low().first)
  {
    match p.node {
      case LeafNode(c) => L.ContentsInRange(c);
      case InnerNode(c) => I.SepsInRange(c, true);
    }
  }

  // So does the next node of a finished snapshot that does not cover the key.
  lemma NextLies(s: T.State, p: Snapshot, key: int) returns (j: nat)
    requires T.Inv(s) && SnapOk(s, p, key) && !BelowHigh(p.node.High(), key) && FinishedOk(s, p)
    ensures Lies(s, p.level, j, p.node.High().second, key, p) && j > 0
  {
    PlacedParts(s, p);
    if !p.first { LowBelowHigh(p, key); }
    hide T.Inv, T.AllResolve, T.ViewOf, T.Parents, IL.Refers, ChainOk, Placed, BelowOk;
    j := ReferenceLies(s, p.level, p.node.High());
  }

  // ---------- the exits of FinishPartialSMO() ----------

  // The setting: a snapshot with a split record on top, and the snapshot of its parent.
  ghost predicate Below(s: T.State, p: Snapshot, q: Snapshot, key: int) {
    && SnapOk(s, p, key) && SnapOk(s, q, key) && q.level == p.level + 1 && q.node.InnerNode?
    && BelowHigh(q.node.High(), key) && (!q.first ==> !p.first && q.node.Low().first <= p.node.Low().first)
  }

  lemma SplitItem(p: Snapshot, key: int)
    requires ChainOk(p, key) && p.node.Half().Some?
    ensures p.node.High().second != INVALID_NODE_ID && (!p.first ==> p.node.Low().first < p.node.High().first)
  {
    match p.node {
      case LeafNode(c) => assert c.Split? && c.Low() == c.child.low;
      case InnerNode(c) => assert c.Split? && c.Low() == c.child.low;
    }
  }

  // The node still has the split record on top if its term is missing, so the split item is next.
  lemma SplitIsNext(s: T.State, p: Snapshot, key: int) returns (i: nat)
    requires T.Inv(s) && SnapOk(s, p, key) && p.node.Half().Some?
    ensures T.AllResolve(s) && p.level <= |s.uppers|
    ensures IL.Refers(T.Parents(s, p.level), p.node.High())
         || (i + 1 < |T.ViewOf(s, p.level).spans| && T.ViewOf(s, p.level).spans[i].id == p.id
             && (i == 0 <==> p.first) && (!p.first ==> T.ViewOf(s, p.level).spans[i].low == p.node.Low().first)
             && IL.PairOf(T.ViewOf(s, p.level).spans[i + 1]) == p.node.High()
             && T.ViewOf(s, p.level).half[i] == p.node.Half() && Unchanged(s, p))
  {
    SplitItem(p, key);
    i := PositionOf(s, p);
    LevelFacts(s, p.level);
    NodeAt(s, p.level, i);
    var level := T.ViewOf(s, p.level).spans;
    hide T.Inv, T.AllResolve, T.ViewOf, T.Parents, IL.Refers, ChainOk, Placed, BelowOk, Load, IL.Indexed, T.Known;
    if Unchanged(s, p) { assert Linked(level[i], level[i + 1]); }
  }

  // bwtree.h:5754: if the split key is not in the range of the parent snapshot, its index term has
  // been posted, on a node further right.
  lemma OutOfRangeIsKnown(s: T.State, p: Snapshot, q: Snapshot, key: int)
    requires T.Inv(s) && Below(s, p, q, key) && p.node.Half().Some? && !BelowHigh(q.node.High(), p.node.High().first)
    ensures T.AllResolve(s) && p.level <= |s.uppers| && IL.Refers(T.Parents(s, p.level), p.node.High())
  {
    hide T.Inv, T.AllResolve, T.ViewOf, T.Parents, IL.Refers, Placed, BelowOk, NextOk, IL.Indexed, I.WellFormed, L.WellFormed,
      Chained, Unchanged;
    var i := SplitIsNext(s, p, key);
    var j := NodeStartsAt(s, q);
    LevelFacts(s, p.level);
    var level := T.ViewOf(s, p.level).spans;
    LowOrder(level, j, i);
    LowOrder(level, i + 1, j);
  }

  lemma NextPosition(s: T.State, q: Snapshot) returns (m: nat)
    requires Placed(s, q) && NextOk(s, q) && q.node.High().second != INVALID_NODE_ID
    ensures T.AllResolve(s) && q.level <= |s.uppers|
    ensures 1 <= m < |T.ViewOf(s, q.level).spans| && IL.PairOf(T.ViewOf(s, q.level).spans[m]) == q.node.High()
  {
    var above := T.ViewOf(s, q.level).spans;
    m :| 1 <= m < |above| && IL.PairOf(above[m]) == q.node.High();
  }

  // The high key of an inner snapshot is the low key of a node of its level, and so of a child.
  lemma NodeStartsAt(s: T.State, q: Snapshot) returns (j: nat)
    requires T.Inv(s) && Placed(s, q) && NextOk(s, q) && q.level > 0 && q.node.High().second != INVALID_NODE_ID
    ensures T.AllResolve(s) && 1 <= j < |T.ViewOf(s, q.level - 1).spans|
    ensures T.ViewOf(s, q.level - 1).spans[j].low == q.node.High().first
    ensures IL.Refers(T.Parents(s, q.level - 1), IL.PairOf(T.ViewOf(s, q.level - 1).spans[j]))
  {
    hide T.Inv, T.AllResolve, T.ViewOf, T.Parents, IL.Refers, Placed, NextOk, Load, Chained;
    var m := NextPosition(s, q);
    NodeAt(s, q.level, m);
    ParentAt(s, q.level, m);
    var nodes := T.Parents(s, q.level - 1);
    TreeProofs.SepIsReference(nodes, m, nodes[m].Low());
    j := ReferenceLies(s, q.level - 1, nodes[m].Low());
  }

  // bwtree.h:5774: if the parent snapshot has the split item, its index term has been posted.
  lemma FoundIsKnown(s: T.State, p: Snapshot, q: Snapshot, key: int)
    requires T.Inv(s) && Below(s, p, q, key) && BelowHigh(q.node.High(), p.node.High().first)
    requires I.Find(q.node.inner, q.node.inner.Low().second, p.node.High().first).item == Some(p.node.High())
    ensures T.AllResolve(s) && p.level <= |s.uppers| && IL.Refers(T.Parents(s, p.level), p.node.High())
  {
    PlacedParts(s, p);
    var c := q.node.inner;
    I.LeftmostIsLow(c, !q.first);
    I.FindIsExact(c, !q.first, c.Low().second, p.node.High().first);
    hide T.Inv, T.AllResolve, T.ViewOf, T.Parents, IL.Refers, Placed, NextOk, I.WellFormed, I.Seps, I.Find;
  }
}
