// Main results about writers: every step of theirs changes the tree as a step of TreeMachine does, so
// all that holds of runs of TreeMachine holds of the tree under any number of interleaved writers.
module TreeRefinement {
  import opened Options
  import opened Pairs
  import opened Levels
  import opened TreeWriters
  import opened TreeWriterProofs
  import L = LeafChain
  import LL = LeafLevel
  import I = InnerChain
  import IL = InnerLevel
  import T = TreeMachine
  import LeafConsolidation
  import InnerConsolidation
  import LeafMachine
  import TreeTerms
  import TreeProofs
  import TreeResults

  // ---------- a compare-and-swap on a finished snapshot ----------

  // The place of a snapshot that still is the entry of its node.
  ghost predicate Current(s: T.State, p: Snapshot, i: nat) {
    && T.AllResolve(s) && p.level <= |s.uppers| && i < |T.ViewOf(s, p.level).spans| && i < |PathOf(s, p.level)|
    && PathOf(s, p.level)[i] == p.id && (i == 0 <==> p.first)
    && Maps(s, p.level, p.id) && Load(s, p.level, p.id) == p.node && (p.node.LeafNode? <==> p.level == 0)
    && T.ViewOf(s, p.level).spans[i] == Span(p.id, p.node.Low().first, p.node.High())
    && T.ViewOf(s, p.level).half[i] == p.node.Half()
    && T.Known(s, p.level, i) && T.Settled(s, p.level, i)
  }

  lemma CurrentPosition(s: T.State, p: Snapshot) returns (i: nat)
    requires T.Inv(s) && Placed(s, p) && Unchanged(s, p) && FinishedOk(s, p)
    ensures Current(s, p, i)
  {
    i := PositionOf(s, p);
    NodeAt(s, p.level, i);
    LevelFacts(s, p.level);
    var level := T.ViewOf(s, p.level).spans;
    hide T.Inv, T.AllResolve, T.ViewOf, T.Parents, IL.Refers, Placed, Load, IL.Indexed, T.Known;
    if p.node.Half().Some? && i + 1 < |level| {
      assert Linked(level[i], level[i + 1]);
    }
  }

  // ---------- posting an index term ----------

  lemma UpperFacts(s: T.State, h: nat, m: nat)
    requires T.Inv(s) && h < |s.uppers| && T.AllResolve(s) && m < |s.uppers[h].path|
    ensures var u := s.uppers[h];
            && IL.LevelOk(u.path, T.Parents(s, h)) && T.ViewOf(s, h + 1).spans == IL.Spans(u.path, T.Parents(s, h))
            && Maps(s, h + 1, u.path[m]) && Load(s, h + 1, u.path[m]) == InnerNode(T.Parents(s, h)[m])
            && T.InnerAt(s, h, m) == T.Parents(s, h)[m]
  {
    TreeProofs.InvResolves(s);
    assert T.UpperOk(s.uppers[h]);
  }

  // The index term is missing if the parent snapshot does not have it and still is the entry.
  lemma TermIsMissing(s: T.State, p: Snapshot, q: Snapshot, key: int, m: nat)
    requires T.Inv(s) && Below(s, p, q, key) && p.node.Half().Some? && Current(s, q, m)
    requires BelowHigh(q.node.High(), p.node.High().first)
    requires I.Find(q.node.inner, q.node.inner.Low().second, p.node.High().first).item == None
    ensures T.AllResolve(s) && p.level <= |s.uppers| && !IL.Refers(T.Parents(s, p.level), p.node.High())
  {
    hide T.Inv, T.AllResolve, T.ViewOf, T.Parents, IL.Refers, Placed, NextOk, BelowOk, IL.Indexed, IL.LevelOk, T.Known,
      T.Settled, Chained, I.Find, I.WellFormed, L.WellFormed, Load;
    SplitItem(p, key);
    var j := NextPosition(s, p);
    LevelFacts(s, p.level);
    UpperFacts(s, p.level, m);
    var u, below, nodes := s.uppers[p.level], T.ViewOf(s, p.level), T.Parents(s, p.level);
    assert TreeTerms.Pending(u.path, nodes, below.spans, below.half, j - 1, m);
    TreeTerms.NotKnownYet(u.path, nodes, below.spans, below.half, j - 1, m);
  }

  lemma PostTermIsEnabled(s: T.State, h: nat, i: nat, m: nat)
    requires T.AllResolve(s) && h < |s.uppers| && i < |T.ViewOf(s, h).spans| && T.ViewOf(s, h).half[i].Some?
    requires m < |s.uppers[h].path| && m < |T.ViewOf(s, h + 1).spans| && T.Settled(s, h + 1, m)
    requires T.ReachedThrough(T.ViewOf(s, h + 1).spans, m, T.ViewOf(s, h).spans, i)
    requires s.uppers[h].path[m] in s.uppers[h].table
    requires var c := T.InnerAt(s, h, m); I.Find(c, c.Low().second, T.ViewOf(s, h).spans[i].high.first).item == None
    ensures T.Enabled(s, T.PostTerm(h, i, m))
  {
    hide T.AllResolve, T.ViewOf, T.Settled, T.ReachedThrough, I.Find;
  }

  lemma InstallInner(s: T.State, h: nat, m: nat, c: I.Chain)
    requires h < |s.uppers| && m < |s.uppers[h].path| && Maps(s, h + 1, s.uppers[h].path[m])
    ensures Install(s, h + 1, s.uppers[h].path[m], InnerNode(c)) == T.WithInner(s, h, m, c)
  {
  }

  lemma PostIsEnabled(s: T.State, p: Snapshot, q: Snapshot, key: int, m: nat) returns (a: T.Action)
    requires T.Inv(s) && Below(s, p, q, key) && p.node.Half().Some? && Current(s, q, m)
    requires BelowHigh(q.node.High(), p.node.High().first)
    requires I.Find(q.node.inner, q.node.inner.Low().second, p.node.High().first).item == None
    ensures T.Enabled(s, a) && a.PostTerm? && a.parent == m && a.h == p.level
    ensures a.i < |PathOf(s, p.level)| && PathOf(s, p.level)[a.i] == p.id
    ensures var c := q.node.inner;
            var f := I.Find(c, c.Low().second, p.node.High().first);
            T.Step(s, a) == Install(s, q.level, q.id, InnerNode(I.Insert(p.node.High(), p.node.Half().value, f.location, c)))
  {
    hide T.Inv, T.AllResolve, T.ViewOf, T.Parents, IL.Refers, Placed, NextOk, BelowOk, IL.Indexed, IL.LevelOk, T.Known,
      T.Settled, Chained, I.Find, ChainOk, Load, T.Enabled, T.Step, Install;
    TermIsMissing(s, p, q, key, m);
    var i := SplitIsNext(s, p, key);
    UpperFacts(s, p.level, m);
    NodeAt(s, p.level, i);
    PostTermIsEnabled(s, p.level, i, m);
    a := T.PostTerm(p.level, i, m);
    TreeProofs.PostTermUnfolds(s, p.level, i, m);
    InstallInner(s, p.level, m, T.Term(s, p.level, i, m));
  }

  // ---------- the other compare-and-swaps ----------

  lemma LeafFacts(s: T.State, p: Snapshot, i: nat)
    requires Current(s, p, i) && p.level == 0
    ensures i < |s.leafPath| && s.leafPath[i] == p.id && p.id in s.leaves && T.LeafAt(s, i) == p.node.leaf
  {
    hide T.AllResolve, T.ViewOf, T.Settled, T.Known;
  }

  lemma InsertIsEnabled(s: T.State, p: Snapshot, key: int, i: nat, value: int)
    requires Current(s, p, i) && ChainOk(p, key) && OnLeaf(At(key, p, None, true))
    requires !L.Locate(p.node.leaf, Pair(key, value)).found && |s.uppers| > 0
    ensures var c, item, a := p.node.leaf, Pair(key, value), T.InsertItem(i, Pair(key, value));
            && T.Enabled(s, a) && Maps(s, 0, p.id)
            && T.Step(s, a) == Install(s, 0, p.id, LeafNode(L.Insert(item, L.Locate(c, item).indexPair, c)))
  {
    LeafFacts(s, p, i);
    hide T.AllResolve, T.ViewOf, T.Settled, T.Known, L.Locate, L.WellFormed;
  }

  lemma DeleteIsEnabled(s: T.State, p: Snapshot, key: int, i: nat, value: int)
    requires Current(s, p, i) && ChainOk(p, key) && OnLeaf(At(key, p, None, true))
    requires L.Locate(p.node.leaf, Pair(key, value)).found && |s.uppers| > 0
    ensures var c, item, a := p.node.leaf, Pair(key, value), T.DeleteItem(i, Pair(key, value));
            && T.Enabled(s, a) && Maps(s, 0, p.id)
            && T.Step(s, a) == Install(s, 0, p.id, LeafNode(L.Delete(item, L.Locate(c, item).indexPair, c)))
  {
    LeafFacts(s, p, i);
    hide T.AllResolve, T.ViewOf, T.Settled, T.Known, L.Locate, L.WellFormed;
  }

  // The step consolidates the node of the snapshot.
  predicate Consolidates(s: T.State, p: Snapshot, b: T.Action) {
    if p.level == 0 then b.ConsolidateLeaf? && b.i < |s.leafPath| && s.leafPath[b.i] == p.id
    else
      && b.ConsolidateInner? && b.h == p.level - 1 && b.h < |s.uppers|
      && b.i < |s.uppers[b.h].path| && s.uppers[b.h].path[b.i] == p.id
  }

  // The step splits it.
  predicate Splits(s: T.State, p: Snapshot, at: nat, b: T.Action) {
    if p.level == 0 then b.SplitLeaf? && b.at == at && b.i < |s.leafPath| && s.leafPath[b.i] == p.id
    else
      && b.SplitInner? && b.h == p.level - 1 && b.h < |s.uppers|
      && b.i < |s.uppers[b.h].path| && s.uppers[b.h].path[b.i] == p.id
  }

  lemma LeafConsolidationIsEnabled(s: T.State, p: Snapshot, i: nat, items: seq<KeyValuePair>)
    requires Current(s, p, i) && p.level == 0 && |s.uppers| > 0
    requires !p.node.leaf.Remove? && LeafConsolidation.Consolidates(p.node.leaf, items)
    ensures var c, a := p.node.leaf, T.ConsolidateLeaf(i, items);
            && T.Enabled(s, a) && Maps(s, 0, p.id) && Consolidates(s, p, a)
            && T.Step(s, a) == Install(s, 0, p.id, LeafNode(L.Leaf(c.Low(), c.High(), items)))
  {
    LeafFacts(s, p, i);
    hide T.AllResolve, T.ViewOf, T.Settled, T.Known, LeafConsolidation.Consolidates;
  }

  lemma InnerConsolidationIsEnabled(s: T.State, p: Snapshot, i: nat, items: seq<KeyNodeIDPair>, depth: nat)
    requires Current(s, p, i) && p.level > 0 && InnerConsolidation.Consolidates(p.node.inner, items)
    ensures var c, a := p.node.inner, T.ConsolidateInner(p.level - 1, i, items, depth);
            && T.Enabled(s, a) && Maps(s, p.level, p.id) && Consolidates(s, p, a)
            && T.Step(s, a) == Install(s, p.level, p.id, InnerNode(I.Inner(c.Low(), c.High(), items, depth)))
  {
    InnerFacts(s, p, i);
    hide T.AllResolve, T.ViewOf, T.Settled, T.Known, InnerConsolidation.Consolidates;
    assert T.Enabled(s, T.ConsolidateInner(p.level - 1, i, items, depth));
    TreeProofs.ConsolidateInnerUnfolds(s, p.level - 1, i, items, depth);
    hide T.Enabled, T.Step;
    InstallInner(s, p.level - 1, i, I.Inner(p.node.inner.Low(), p.node.inner.High(), items, depth));
  }

  lemma ConsolidateIsEnabled(s: T.State, p: Snapshot, i: nat, leafItems: seq<KeyValuePair>,
                             innerItems: seq<KeyNodeIDPair>,
                             depth: nat)
    returns (a: T.Action)
    requires T.Inv(s) && Current(s, p, i) && CanConsolidate(p.node, leafItems, innerItems)
    ensures T.Enabled(s, a) && Maps(s, p.level, p.id) && Consolidates(s, p, a)
    ensures T.Step(s, a) == Install(s, p.level, p.id, Consolidated(p.node, leafItems, innerItems, depth))
  {
    TreeResults.RootIsFirst(s);
    hide T.Inv, T.AllResolve, T.ViewOf, T.Settled, T.Known, LeafConsolidation.Consolidates, InnerConsolidation.Consolidates,
      T.Enabled, T.Step, Install, Load, Consolidates;
    if p.level == 0 {
      LeafConsolidationIsEnabled(s, p, i, leafItems);
      a := T.ConsolidateLeaf(i, leafItems);
    } else {
      InnerConsolidationIsEnabled(s, p, i, innerItems, depth);
      a := T.ConsolidateInner(p.level - 1, i, innerItems, depth);
    }
  }

  lemma InnerFacts(s: T.State, p: Snapshot, i: nat)
    requires Current(s, p, i) && p.level > 0
    ensures i < |s.uppers[p.level - 1].path| && s.uppers[p.level - 1].path[i] == p.id
    ensures p.id in s.uppers[p.level - 1].table && T.InnerAt(s, p.level - 1, i) == p.node.inner
  {
    hide T.AllResolve, T.ViewOf, T.Settled, T.Known;
  }

  lemma BehindIs(s: T.State, p: Snapshot, i: nat)
    requires T.Inv(s) && Current(s, p, i)
    ensures Behind(PathOf(s, p.level), p.id, s.nextId) == InsertBehind(PathOf(s, p.level), i, s.nextId)
  {
    LevelFacts(s, p.level);
    var path, k := PathOf(s, p.level), LeafMachine.IndexOf(PathOf(s, p.level), p.id);
    NodeAt(s, p.level, i);
    if k < |path| { NodeAt(s, p.level, k); }
    hide T.Inv, T.AllResolve, T.ViewOf, T.Settled, T.Known, LeafMachine.IndexOf, PathOf, InsertBehind;
    assert k == i;
  }

  lemma LeafSplitIsEnabled(s: T.State, p: Snapshot, i: nat, at: nat)
    requires T.Inv(s) && Current(s, p, i) && CanSplit(p, at) && p.level == 0
    ensures T.Enabled(s, T.SplitLeaf(i, at)) && T.Step(s, T.SplitLeaf(i, at)) == InstallLeafSplit(s, p.id, p.node.leaf, at)
  {
    BehindIs(s, p, i);
    LeafFacts(s, p, i);
    TreeResults.RootIsFirst(s);
    hide T.Inv, T.AllResolve, T.ViewOf, T.Settled, T.Known, Behind, InsertBehind;
  }

  lemma InstallsHalved(s: T.State, h: nat, i: nat, id: NodeID, c: I.Chain)
    requires h < |s.uppers| && i < |s.uppers[h].path| && s.uppers[h].path[i] == id && id in s.uppers[h].table
    requires s.uppers[h].table[id] == c && c.Inner? && |c.items| >= 2
    requires Behind(s.uppers[h].path, id, s.nextId) == InsertBehind(s.uppers[h].path, i, s.nextId)
    ensures InstallInnerSplit(s, h, id, c)
         == s.(uppers := s.uppers[h := TreeProofs.Halved(s.uppers[h], i, |c.items| / 2, s.nextId)], nextId := s.nextId + 1)
  {
    hide Behind, InsertBehind, IL.SplitSibling, IL.SplitRecord;
  }

  lemma SplitInnerEnabled(s: T.State, h: nat, i: nat)
    requires T.AllResolve(s) && h < |s.uppers| && i < |s.uppers[h].path| && s.uppers[h].path[i] in s.uppers[h].table
    requires i < |T.ViewOf(s, h + 1).spans| && T.Known(s, h + 1, i)
    requires T.InnerAt(s, h, i).Inner? && |T.InnerAt(s, h, i).items| >= 2
    ensures T.Enabled(s, T.SplitInner(h, i))
  {
    hide T.AllResolve, T.ViewOf, T.Known;
  }

  lemma InnerSplitIsEnabled(s: T.State, p: Snapshot, i: nat, at: nat)
    requires T.Inv(s) && Current(s, p, i) && CanSplit(p, at) && p.level > 0
    ensures T.Enabled(s, T.SplitInner(p.level - 1, i))
    ensures T.Step(s, T.SplitInner(p.level - 1, i)) == InstallInnerSplit(s, p.level - 1, p.id, p.node.inner)
  {
    hide T.Inv, T.AllResolve, T.ViewOf, T.Settled, T.Known, T.Enabled, T.Step, Behind, InsertBehind, Load, InstallInnerSplit,
      T.Parents, TreeProofs.Halved;
    BehindIs(s, p, i);
    InnerFacts(s, p, i);
    SplitInnerEnabled(s, p.level - 1, i);
    TreeProofs.SplitInnerUnfolds(s, p.level - 1, i);
    InstallsHalved(s, p.level - 1, i, p.id, p.node.inner);
  }

  lemma SplitIsEnabled(s: T.State, p: Snapshot, i: nat, at: nat) returns (a: T.Action)
    requires T.Inv(s) && Current(s, p, i) && CanSplit(p, at)
    ensures T.Enabled(s, a) && Maps(s, p.level, p.id) && T.Step(s, a) == InstallSplit(s, p, at) && Splits(s, p, at, a)
  {
    hide T.Inv, T.AllResolve, T.ViewOf, T.Settled, T.Known, T.Enabled, T.Step, InstallLeafSplit, InstallInnerSplit, Load;
    if p.level == 0 {
      LeafSplitIsEnabled(s, p, i, at);
      LeafFacts(s, p, i);
      a := T.SplitLeaf(i, at);
    } else {
      InnerSplitIsEnabled(s, p, i, at);
      InnerFacts(s, p, i);
      a := T.SplitInner(p.level - 1, i);
    }
  }

  // While the root NodeID is that of the snapshot, the root still has its split record on top.
  lemma RootIsEnabled(s: T.State, p: Snapshot, key: int)
    requires T.Inv(s) && SnapOk(s, p, key) && p.node.Half().Some? && p.level == |s.uppers| && s.rootId == p.id
    ensures T.Enabled(s, T.GrowRoot) && T.Step(s, T.GrowRoot) == InstallRoot(s, p.id, p.node.High())
  {
    var i := SplitIsNext(s, p, key);
    TreeProofs.NothingKnown();
    TreeResults.RootIsFirst(s);
    LevelFacts(s, p.level);
    NodeAt(s, p.level, 0);
    var level := T.ViewOf(s, p.level).spans;
    hide T.Inv, T.AllResolve, T.ViewOf, IL.Refers, Placed, NextOk, BelowOk, ChainOk, IL.Indexed, Chained;
    assert i == 0;
  }

  // ---------- what a writer knows between its steps ----------

  // A node above the highest level that a traversal started on is not the root any more.
  ghost predicate RootApart(s: T.State, h: nat) {
    h <= |s.uppers| && (h == |s.uppers| || s.rootId !in PathOf(s, h))
  }

  ghost predicate WriterOk(s: T.State, x: Writer) {
    x.At? ==>
      && SnapOk(s, x.node, x.key) && (x.finished ==> FinishedOk(s, x.node))
      && match x.parent
         case None => RootApart(s, x.node.level)
         case Some(q) => Below(s, x.node, q, x.key) && FinishedOk(s, q)
  }

  // Only the fresh NodeID may join a path.
  ghost predicate PathGrows(s: T.State, s': T.State, h: nat) {
    && h <= |s.uppers| == |s'.uppers| && s'.rootId == s.rootId
    && forall id :: id in PathOf(s', h) ==> id in PathOf(s, h) || id == s.nextId
  }

  lemma LeafSplitPaths(s: T.State, i: nat, at: nat, h: nat)
    requires T.Enabled(s, T.SplitLeaf(i, at)) && h <= |s.uppers|
    ensures PathGrows(s, T.Step(s, T.SplitLeaf(i, at)), h)
  {
    InsertBehindMembers(s.leafPath, i, s.nextId);
    hide T.AllResolve, T.ViewOf, T.Known, InsertBehind;
  }

  lemma InnerSplitPaths(s: T.State, k: nat, i: nat, h: nat)
    requires T.AllResolve(s) && T.Enabled(s, T.SplitInner(k, i)) && h <= |s.uppers|
    ensures PathGrows(s, T.Step(s, T.SplitInner(k, i)), h)
  {
    hide T.AllResolve, T.ViewOf, T.Known, T.Step, T.Enabled, InsertBehind;
    TreeProofs.SplitInnerUnfolds(s, k, i);
    InsertBehindMembers(s.uppers[k].path, i, s.nextId);
  }

  lemma GrowRootApart(s: T.State, h: nat)
    requires T.Inv(s) && RootApart(s, h) && T.Enabled(s, T.GrowRoot)
    ensures RootApart(T.Step(s, T.GrowRoot), h)
  {
    FreshOnPath(s, h);
    hide T.Inv, T.AllResolve, T.ViewOf;
  }

  lemma RootApartStays(s: T.State, a: T.Action, h: nat)
    requires T.Inv(s) && RootApart(s, h)
    ensures RootApart(T.Step(s, a), h)
  {
    TreeProofs.InvResolves(s);
    RootIsOld(s);
    hide T.Inv, T.AllResolve, T.Step, T.Enabled;
    if !T.Enabled(s, a) {
      DisabledStays(s, a);
    } else {
      match a {
        case SplitLeaf(i, at) => LeafSplitPaths(s, i, at, h);
        case SplitInner(k, i) => InnerSplitPaths(s, k, i, h);
        case GrowRoot => GrowRootApart(s, h);
        case _ => OtherPaths(s, a, h);
      }
    }
  }

  lemma RootIsOld(s: T.State)
    requires T.Inv(s)
    ensures s.rootId < s.nextId
  {
    assert s.rootId in s.uppers[|s.uppers| - 1].path;
  }

  lemma FreshOnPath(s: T.State, h: nat)
    requires T.Inv(s) && h <= |s.uppers|
    ensures s.nextId !in PathOf(s, h)
  {
    TreeProofs.FreshIsNew(s);
  }

  lemma WithNodePaths(s: T.State, s': T.State, h: nat)
    requires h <= |s.uppers|
    requires (exists i: nat, c :: i < |s.leafPath| && s' == T.WithLeaf(s, i, c))
          || (exists k: nat, i: nat, c :: k < |s.uppers| && i < |s.uppers[k].path| && s' == T.WithInner(s, k, i, c))
    ensures |s'.uppers| == |s.uppers| && PathOf(s', h) == PathOf(s, h) && s'.rootId == s.rootId
  {
  }

  lemma OtherPaths(s: T.State, a: T.Action, h: nat)
    requires T.Inv(s) && h <= |s.uppers| && T.Enabled(s, a) && !a.SplitLeaf? && !a.SplitInner? && !a.GrowRoot?
    ensures |T.Step(s, a).uppers| == |s.uppers| && PathOf(T.Step(s, a), h) == PathOf(s, h)
    ensures T.Step(s, a).rootId == s.rootId
  {
    TreeProofs.InvResolves(s);
    hide T.Inv, T.AllResolve, T.Step, T.Enabled, PathOf, T.Settled, T.ReachedThrough, T.ViewOf;
    match a {
      case ConsolidateInner(k, i, items, depth) => TreeProofs.ConsolidateInnerUnfolds(s, k, i, items, depth);
      case PostTerm(k, i, m) => TreeProofs.PostTermUnfolds(s, k, i, m);
      case _ => TreeResults.LeafRecordUnfolds(s, a);
    }
    WithNodePaths(s, T.Step(s, a), h);
  }

  lemma BelowStaysBelow(s: T.State, a: T.Action, p: Snapshot, q: Snapshot, key: int)
    requires T.Inv(s) && T.Inv(T.Step(s, a)) && Below(s, p, q, key)
    ensures Below(T.Step(s, a), p, q, key)
  {
    hide T.Inv, SnapOk, T.Step;
    SnapStays(s, a, p, key);
    SnapStays(s, a, q, key);
  }

  // Every step of the tree leaves the writers as they are.
  lemma WriterStays(s: T.State, a: T.Action, x: Writer)
    requires T.Inv(s) && T.Inv(T.Step(s, a)) && WriterOk(s, x)
    ensures WriterOk(T.Step(s, a), x)
  {
    hide T.Inv, SnapOk, FinishedOk, Below, RootApart, T.Step;
    if x.At? {
      SnapStays(s, a, x.node, x.key);
      match x.parent {
        case None => RootApartStays(s, a, x.node.level);
        case Some(q) =>
          BelowStaysBelow(s, a, x.node, q, x.key);
          BelowSnaps(s, x.node, q, x.key);
          SnapStays(s, a, q, x.key);
      }
    }
  }

  lemma BelowSnaps(s: T.State, p: Snapshot, q: Snapshot, key: int)
    requires Below(s, p, q, key)
    ensures SnapOk(s, p, key) && SnapOk(s, q, key)
  {
  }

  // A disabled action: nothing happens to the tree.
  function Nothing(s: T.State): T.Action {
    T.InsertItem(|s.leafPath|, Pair(0, 0))
  }

  lemma NothingHappens(s: T.State)
    ensures !T.Enabled(s, Nothing(s)) && T.Step(s, Nothing(s)) == s
  {
  }

  // ---------- the steps of a writer ----------

  lemma TakenAt(s: T.State, h: nat, j: nat, id: NodeID, key: int, p: Snapshot)
    requires T.Inv(s) && Lies(s, h, j, id, key, p)
    ensures Maps(s, h, id) && SnapOk(s, Take(s, h, id), key) && (Take(s, h, id).first <==> j == 0)
    ensures !p.first ==> !Take(s, h, id).first && p.node.Low().first <= Take(s, h, id).node.Low().first
  {
    TakenIsOk(s, h, j, key);
    NodeAt(s, h, j);
    hide T.Inv, T.AllResolve, T.ViewOf, T.Known, SnapOk, Load, PathOf;
  }

  lemma LoadRootIsOk(s: T.State, key: int)
    requires T.Inv(s) && Maps(s, |s.uppers|, s.rootId)
    ensures WriterOk(s, At(key, Take(s, |s.uppers|, s.rootId), None, false))
  {
    TreeProofs.InvResolves(s);
    TreeResults.RootIsFirst(s);
    hide T.Inv, T.AllResolve, T.ViewOf, SnapOk, Load, PathOf;
    TakenIsOk(s, |s.uppers|, 0, key);
  }

  lemma RightIsOk(s: T.State, x: Writer)
    requires T.Inv(s) && x.At? && WriterOk(s, x) && x.finished && !BelowHigh(x.node.node.High(), x.key)
    requires Maps(s, x.node.level, x.node.node.High().second)
    ensures WriterOk(s, x.(node := Take(s, x.node.level, x.node.node.High().second), finished := false))
  {
    hide T.Inv, T.AllResolve, SnapOk, FinishedOk, Load, PathOf, RootApart, Lies;
    var j := NextLies(s, x.node, x.key);
    TakenAt(s, x.node.level, j, x.node.node.High().second, x.key, x.node);
  }

  lemma DownIsOk(s: T.State, x: Writer, child: NodeID)
    requires T.Inv(s) && x.At? && WriterOk(s, x) && x.finished && x.node.level > 0 && x.node.node.InnerNode?
    requires BelowHigh(x.node.node.High(), x.key) && Maps(s, x.node.level - 1, child)
    requires I.IsFloor(I.Seps(x.node.node.inner), x.node.node.inner.Low().second, x.key, child)
    ensures WriterOk(s, At(x.key, Take(s, x.node.level - 1, child), Some(x.node), false))
  {
    hide T.Inv, T.AllResolve, SnapOk, FinishedOk, Load, PathOf, RootApart, Lies, I.IsFloor, I.Seps;
    var j := FloorLies(s, x.node, x.key, child);
    TakenAt(s, x.node.level - 1, j, child, x.key, x.node);
  }

  // A snapshot that has been brought up to date after a compare-and-swap.
  lemma RetakenIsOk(s: T.State, p: Snapshot, node: Node, key: int)
    requires T.Inv(s) && Placed(s, p) && ChainOk(p, key) && Maps(s, p.level, p.id) && Load(s, p.level, p.id) == node
    ensures SnapOk(s, p.(node := node), key)
  {
    var i := PositionOf(s, p);
    hide T.Inv, T.AllResolve, T.ViewOf, T.Parents, Placed, Load, PathOf, T.Known, SnapOk, L.WellFormed, I.WellFormed;
    TakenIsOk(s, p.level, i, key);
    assert Take(s, p.level, p.id) == p.(node := node);
  }

  // After the index term has been posted the child is finished, and the parent snapshot up to date.
  lemma PostedIsOk(s: T.State, a: T.Action, x: Writer, q: Snapshot, location: nat)
    requires T.Inv(s) && T.Inv(T.Step(s, a)) && x.At? && WriterOk(s, x) && x.parent == Some(q) && x.node.node.Half().Some?
    requires q.node.InnerNode? && q.level > 0 && Maps(s, q.level, q.id)
    requires var posted := InnerNode(I.Insert(x.node.node.High(), x.node.node.Half().value, location, q.node.inner));
             T.Step(s, a) == Install(s, q.level, q.id, posted)
    ensures var posted := InnerNode(I.Insert(x.node.node.High(), x.node.node.Half().value, location, q.node.inner));
            WriterOk(T.Step(s, a), x.(parent := Some(q.(node := posted)), finished := true))
  {
    var posted := InnerNode(I.Insert(x.node.node.High(), x.node.node.Half().value, location, q.node.inner));
    var s', q' := T.Step(s, a), q.(node := posted);
    hide T.Inv, T.Step, T.AllResolve, T.ViewOf, T.Parents, IL.Refers, I.Seps, I.WellFormed, L.WellFormed, NextOk, BelowOk, Placed,
      Install, Load, PathOf, Maps, ChainOk;
    Installed(s, q.level, q.id, posted);
    HasItem(posted.inner);
    hide Below, SnapOk, FinishedOk;
    WriterBelow(s, x, q);
    BelowStaysBelow(s, a, x.node, q, x.key);
    BelowSnaps(s', x.node, q, x.key);
    SnapParts(s', q, x.key);
    RetakenIsOk(s', q, posted, x.key);
    PostedParent(s', x.node, q, q', x.key);
  }

  lemma WriterBelow(s: T.State, x: Writer, q: Snapshot)
    requires x.At? && WriterOk(s, x) && x.parent == Some(q)
    ensures Below(s, x.node, q, x.key) && FinishedOk(s, q)
  {
    hide SnapOk, FinishedOk, Below, RootApart;
  }

  lemma PostedParent(s: T.State, p: Snapshot, q: Snapshot, q': Snapshot, key: int)
    requires Below(s, p, q, key) && SnapOk(s, q', key) && q' == q.(node := q'.node) && p.node.Half().Some?
    requires q'.node.InnerNode? && q'.node.inner.Insert? && q'.node.inner.item == p.node.High()
    requires q.node.InnerNode? && q'.node.inner.child == q.node.inner
    ensures Below(s, p, q', key) && FinishedOk(s, q') && FinishedOk(s, p)
  {
    hide T.AllResolve, T.ViewOf, T.Parents, IL.Refers, I.Seps, I.WellFormed, L.WellFormed, NextOk, BelowOk, Placed, ChainOk;
    HasItem(q'.node.inner);
    BelowParts(s, q', p.node.High());
    PlacedParts(s, q');
  }

  lemma Installed(s: T.State, level: nat, id: NodeID, node: Node)
    requires Maps(s, level, id) && (level == 0 <==> node.LeafNode?)
    ensures var s' := Install(s, level, id, node); Maps(s', level, id) && Load(s', level, id) == node
  {
  }

  lemma HasItem(c: I.Chain)
    requires c.Insert?
    ensures c.item in I.Seps(c)
  {
  }

  // The node of the snapshot has a split record on top whose index term has not been posted.
  ghost predicate TermMissing(s: T.State, p: Snapshot) {
    T.AllResolve(s) && p.level <= |s.uppers| && p.node.Half().Some? && !IL.Refers(T.Parents(s, p.level), p.node.High())
  }

  // The step posts the missing index term of the node, or replaces the root that it is.
  ghost predicate Finishes(s: T.State, x: Writer, b: T.Action)
    requires x.At?
  {
    && TermMissing(s, x.node)
    && if b.PostTerm? then b.h == x.node.level && b.i < |PathOf(s, b.h)| && PathOf(s, b.h)[b.i] == x.node.id
       else b.GrowRoot? && x.node.level == |s.uppers| && x.node.id == s.rootId
  }

  lemma FinishPosts(s: T.State, x: Writer, q: Snapshot) returns (a: T.Action)
    requires T.Inv(s) && x.At? && !x.finished && WriterOk(s, x) && x.parent == Some(q) && x.node.node.Half().Some?
    requires q.node.InnerNode? && q.level > 0 && Unchanged(s, q) && BelowHigh(q.node.High(), x.node.node.High().first)
    requires I.Find(q.node.inner, q.node.inner.Low().second, x.node.node.High().first).item == None
    ensures T.Inv(T.Step(s, a)) && FinishChild(s, x, q).0 == T.Step(s, a)
    ensures WriterOk(T.Step(s, a), FinishChild(s, x, q).1)
    ensures a.PostTerm? && Finishes(s, x, a)
  {
    var p, c := x.node, q.node.inner;
    WriterBelow(s, x, q);
    hide T.Inv, T.Step, T.Enabled, T.AllResolve, T.ViewOf, T.Parents, IL.Refers, SnapOk, I.Find, Install, Load, PathOf, Current,
      RootApart, Below, WriterOk, FinishedOk;
    BelowSnaps(s, p, q, x.key);
    SnapParts(s, q, x.key);
    var m := CurrentPosition(s, q);
    a := PostIsEnabled(s, p, q, x.key, m);
    TermIsMissing(s, p, q, x.key, m);
    TreeResults.StepKeepsInv(s, a);
    CurrentMaps(s, q, m);
    PostedIsOk(s, a, x, q, I.Find(c, c.Low().second, p.node.High().first).location);
  }

  lemma CurrentMaps(s: T.State, p: Snapshot, i: nat)
    requires Current(s, p, i)
    ensures Maps(s, p.level, p.id)
  {
    hide T.AllResolve, T.ViewOf, T.Known, T.Settled;
  }

  lemma FinishChildIsOk(s: T.State, x: Writer, q: Snapshot) returns (a: T.Action)
    requires T.Inv(s) && x.At? && !x.finished && WriterOk(s, x) && x.parent == Some(q) && x.node.node.Half().Some?
    requires q.node.InnerNode? && q.level > 0
    ensures T.Inv(T.Step(s, a)) && FinishChild(s, x, q).0 == T.Step(s, a)
    ensures WriterOk(T.Step(s, a), FinishChild(s, x, q).1)
    ensures T.Enabled(s, a) ==> a.PostTerm? && Finishes(s, x, a)
  {
    var item, c, p := x.node.node.High(), q.node.inner, x.node;
    a := Nothing(s);
    NothingHappens(s);
    hide T.Inv, T.Step, T.Enabled, T.AllResolve, T.ViewOf, T.Parents, IL.Refers, SnapOk, I.Find, Install, Load, PathOf, RootApart,
      Finishes;
    if !BelowHigh(c.High(), item.first) {
      OutOfRangeIsKnown(s, p, q, x.key);
    } else if I.Find(c, c.Low().second, item.first).item.Some? {
      if I.Find(c, c.Low().second, item.first).item.value == item { FoundIsKnown(s, p, q, x.key); }
    } else if Unchanged(s, q) {
      a := FinishPosts(s, x, q);
    }
  }

  lemma SnapParts(s: T.State, p: Snapshot, key: int)
    requires SnapOk(s, p, key)
    ensures Placed(s, p) && ChainOk(p, key)
  {
  }

  lemma FinishRootIsOk(s: T.State, x: Writer) returns (a: T.Action)
    requires T.Inv(s) && x.At? && WriterOk(s, x) && x.parent == None && x.node.node.Half().Some?
    ensures T.Inv(T.Step(s, a)) && FinishRoot(s, x).0 == T.Step(s, a)
    ensures T.Enabled(s, a) ==> a.GrowRoot? && Finishes(s, x, a)
  {
    a := Nothing(s);
    NothingHappens(s);
    if s.rootId == x.node.id {
      SnapParts(s, x.node, x.key);
      var i := PositionOf(s, x.node);
      NodeAt(s, x.node.level, i);
      assert x.node.id in PathOf(s, x.node.level);
      hide T.Inv, T.Step, T.Enabled, T.AllResolve, T.ViewOf, SnapOk, PathOf, T.Known;
      RootIsEnabled(s, x.node, x.key);
      a := T.GrowRoot;
      TreeResults.StepKeepsInv(s, a);
      NothingAbove(s, x.node);
    }
  }

  lemma NothingAbove(s: T.State, p: Snapshot)
    requires Placed(s, p) && p.level == |s.uppers| && p.node.Half().Some?
    ensures TermMissing(s, p)
  {
    TreeProofs.NothingKnown();
    hide T.AllResolve, T.ViewOf, IL.Refers;
  }

  lemma FinishIsOk(s: T.State, x: Writer) returns (a: T.Action)
    requires T.Inv(s) && x.At? && !x.finished && WriterOk(s, x)
    ensures T.Inv(T.Step(s, a)) && Finished(s, x).0 == T.Step(s, a) && WriterOk(T.Step(s, a), Finished(s, x).1)
    ensures T.Enabled(s, a) ==> Finishes(s, x, a)
  {
    hide T.Inv, T.Step, T.AllResolve, T.Enabled, SnapOk, FinishChild, InstallRoot, RootApart, TermMissing;
    if x.node.node.Half().None? {
      a := Nothing(s);
      NothingHappens(s);
      NoHalf(s, x.node, x.key);
    } else {
      match x.parent {
        case None => a := FinishRootIsOk(s, x);
        case Some(q) => a := FinishChildIsOk(s, x, q);
      }
    }
  }

  lemma NoHalf(s: T.State, p: Snapshot, key: int)
    requires SnapOk(s, p, key) && p.node.Half().None?
    ensures FinishedOk(s, p)
  {
  }

  // ---------- the compare-and-swaps of a finished writer ----------

  // The step posts a record on the pair.
  predicate Records(b: T.Action, item: KeyValuePair, insert: bool) {
    if insert then b.InsertItem? && b.item == item else b.DeleteItem? && b.item == item
  }

  lemma RecordIsOk(s: T.State, x: Writer, value: int, insert: bool) returns (a: T.Action)
    requires T.Inv(s) && x.At? && WriterOk(s, x) && OnLeaf(x) && Unchanged(s, x.node)
    requires L.Locate(x.node.node.leaf, Pair(x.key, value)).found != insert
    ensures T.Inv(T.Step(s, a)) && Maps(s, 0, x.node.id)
    ensures var item, c := Pair(x.key, value), x.node.node.leaf;
            T.Step(s, a) == Install(s, 0, x.node.id, LeafNode(
              if insert then L.Insert(item, L.Locate(c, item).indexPair, c) else L.Delete(item, L.Locate(c, item).indexPair, c)))
    ensures T.Enabled(s, a) && Records(a, Pair(x.key, value), insert)
  {
    SnapParts(s, x.node, x.key);
    TreeResults.RootIsFirst(s);
    hide T.Inv, T.Step, T.Enabled, T.AllResolve, T.ViewOf, SnapOk, Placed, ChainOk, Current, Install, Load, L.Locate;
    var i := CurrentPosition(s, x.node);
    if insert {
      InsertIsEnabled(s, x.node, x.key, i, value);
      a := T.InsertItem(i, Pair(x.key, value));
    } else {
      DeleteIsEnabled(s, x.node, x.key, i, value);
      a := T.DeleteItem(i, Pair(x.key, value));
    }
    TreeResults.StepKeepsInv(s, a);
  }

  lemma ConsolidateIsOk(s: T.State, x: Writer, leafItems: seq<KeyValuePair>, innerItems: seq<KeyNodeIDPair>, depth: nat)
    returns (a: T.Action)
    requires T.Inv(s) && x.At? && WriterOk(s, x) && x.finished && Unchanged(s, x.node)
    requires CanConsolidate(x.node.node, leafItems, innerItems) && (x.node.level == 0 <==> x.node.node.LeafNode?)
    ensures var node := Consolidated(x.node.node, leafItems, innerItems, depth);
            && Maps(s, x.node.level, x.node.id) && T.Inv(T.Step(s, a))
            && T.Step(s, a) == Install(s, x.node.level, x.node.id, node) && T.Enabled(s, a) && Consolidates(s, x.node, a)
            && WriterOk(T.Step(s, a), x.(node := x.node.(node := node)))
  {
    var node := Consolidated(x.node.node, leafItems, innerItems, depth);
    hide T.Inv, T.Step, T.Enabled, T.AllResolve, T.ViewOf, SnapOk, Placed, ChainOk, Current, CanConsolidate, RootApart, Below,
      Install, Load, Maps, FinishedOk, Consolidated;
    SnapParts(s, x.node, x.key);
    var i := CurrentPosition(s, x.node);
    a := ConsolidateIsEnabled(s, x.node, i, leafItems, innerItems, depth);
    TreeResults.StepKeepsInv(s, a);
    WriterStays(s, a, x);
    WriterSnap(T.Step(s, a), x);
    SnapParts(T.Step(s, a), x.node, x.key);
    ConsolidatedNode(x.node.node, leafItems, innerItems, depth);
    Installed(s, x.node.level, x.node.id, node);
    RetakenIsOk(T.Step(s, a), x.node, node, x.key);
    ConsolidatedParts(T.Step(s, a), x, node);
  }

  lemma WriterSnap(s: T.State, x: Writer)
    requires x.At? && WriterOk(s, x)
    ensures SnapOk(s, x.node, x.key)
  {
    hide SnapOk, FinishedOk, Below, RootApart;
  }

  lemma ConsolidatedNode(node: Node, leafItems: seq<KeyValuePair>, innerItems: seq<KeyNodeIDPair>, depth: nat)
    requires CanConsolidate(node, leafItems, innerItems)
    ensures var node' := Consolidated(node, leafItems, innerItems, depth);
            && node'.Half().None? && (node'.LeafNode? <==> node.LeafNode?)
            && node'.Low() == node.Low() && node'.High() == node.High()
  {
    match node {
      case LeafNode(c) =>
      case InnerNode(c) =>
        hide I.Seps;
        assert innerItems[0] == c.Low();
    }
  }

  lemma ConsolidatedParts(s: T.State, x: Writer, node: Node)
    requires x.At? && WriterOk(s, x) && SnapOk(s, x.node.(node := node), x.key)
    requires node.Low() == x.node.node.Low() && node.Half().None?
    ensures WriterOk(s, x.(node := x.node.(node := node)))
  {
    hide NextOk, BelowOk, ChainOk, T.AllResolve, T.ViewOf, T.Parents, IL.Refers;
  }

  lemma SplitIsOk(s: T.State, x: Writer, at: nat) returns (a: T.Action)
    requires T.Inv(s) && x.At? && WriterOk(s, x) && x.finished && Unchanged(s, x.node) && CanSplit(x.node, at)
    ensures T.Inv(T.Step(s, a)) && Maps(s, x.node.level, x.node.id) && T.Step(s, a) == InstallSplit(s, x.node, at)
    ensures T.Enabled(s, a) && Splits(s, x.node, at, a)
  {
    hide T.Inv, T.Step, T.Enabled, T.AllResolve, T.ViewOf, SnapOk, Placed, ChainOk, Current, CanSplit, InstallSplit;
    SnapParts(s, x.node, x.key);
    var i := CurrentPosition(s, x.node);
    a := SplitIsEnabled(s, x.node, i, at);
    TreeResults.StepKeepsInv(s, a);
  }

  // ---------- main results ----------

  ghost predicate StateOk(s: State) {
    T.Inv(s.tree) && forall w :: 0 <= w < |s.writers| ==> WriterOk(s.tree, s.writers[w])
  }

  // The compare-and-swap of the writer is the step b of the tree. If its snapshot still is the entry,
  // it does what the action is for; a failed one is no step at all, nor is a load.
  ghost predicate Carries(s: State, a: Action, b: T.Action)
    requires Enabled(s, a)
  {
    var x, tree := s.writers[a.w], s.tree;
    match a
    case InsertItem(_, value) =>
      (T.Enabled(tree, b) <==> Unchanged(tree, x.node)) && (T.Enabled(tree, b) ==> Records(b, Pair(x.key, value), true))
    case DeleteItem(_, value) =>
      (T.Enabled(tree, b) <==> Unchanged(tree, x.node)) && (T.Enabled(tree, b) ==> Records(b, Pair(x.key, value), false))
    case Consolidate(_, _, _, _) =>
      (T.Enabled(tree, b) <==> Unchanged(tree, x.node)) && (T.Enabled(tree, b) ==> Consolidates(tree, x.node, b))
    case Split(_, at) =>
      (T.Enabled(tree, b) <==> Unchanged(tree, x.node)) && (T.Enabled(tree, b) ==> Splits(tree, x.node, at, b))
    case Finish(_) => T.Enabled(tree, b) ==> Finishes(tree, x, b)
    case _ => !T.Enabled(tree, b)
  }

  // The step of the writer changes the tree as b does.
  ghost predicate ActsAs(s: State, a: Action, b: T.Action)
    requires Enabled(s, a)
  {
    && T.Inv(T.Step(s.tree, b)) && Acts(s, a).0 == T.Step(s.tree, b) && WriterOk(T.Step(s.tree, b), Acts(s, a).1)
    && Carries(s, a, b)
  }

  lemma LoadsAreSteps(s: State, a: Action)
    requires T.Inv(s.tree) && Enabled(s, a) && WriterOk(s.tree, s.writers[a.w])
    requires a.LoadRoot? || a.Right? || a.Down? || a.Restart?
    ensures ActsAs(s, a, Nothing(s.tree))
  {
    NothingHappens(s.tree);
    hide T.Inv, T.Step, T.Enabled, WriterOk, Load, I.IsFloor, I.Seps, Take, Maps;
    match a {
      case LoadRoot(_, key) => LoadRootIsOk(s.tree, key);
      case Right(_) => RightIsOk(s.tree, s.writers[a.w]);
      case Down(_, child) => DownIsOk(s.tree, s.writers[a.w], child);
      case Restart(_) => OutIsOk(s.tree);
    }
  }

  lemma RecordsAreSteps(s: State, a: Action) returns (b: T.Action)
    requires T.Inv(s.tree) && Enabled(s, a) && WriterOk(s.tree, s.writers[a.w]) && (a.InsertItem? || a.DeleteItem?)
    ensures ActsAs(s, a, b)
  {
    hide T.Inv, T.Step, T.Enabled, WriterOk, Unchanged, Install, Load, L.Locate, Maps;
    b := Nothing(s.tree);
    NothingHappens(s.tree);
    if Unchanged(s.tree, s.writers[a.w].node) {
      b := RecordIsOk(s.tree, s.writers[a.w], a.value, a.InsertItem?);
    }
    OutIsOk(T.Step(s.tree, b));
  }

  lemma ConsolidationsAreSteps(s: State, a: Action) returns (b: T.Action)
    requires T.Inv(s.tree) && Enabled(s, a) && WriterOk(s.tree, s.writers[a.w]) && a.Consolidate?
    ensures ActsAs(s, a, b)
  {
    hide T.Inv, T.Step, T.Enabled, WriterOk, Unchanged, Install, Load, CanConsolidate, Consolidated, Maps;
    b := Nothing(s.tree);
    NothingHappens(s.tree);
    if Unchanged(s.tree, s.writers[a.w].node) {
      b := ConsolidateIsOk(s.tree, s.writers[a.w], a.leafItems, a.innerItems, a.depth);
    }
  }

  lemma SplitsAreSteps(s: State, a: Action) returns (b: T.Action)
    requires T.Inv(s.tree) && Enabled(s, a) && WriterOk(s.tree, s.writers[a.w]) && a.Split?
    ensures ActsAs(s, a, b)
  {
    hide T.Inv, T.Step, T.Enabled, WriterOk, Unchanged, InstallSplit, Load, CanSplit, Maps;
    b := Nothing(s.tree);
    NothingHappens(s.tree);
    if Unchanged(s.tree, s.writers[a.w].node) {
      b := SplitIsOk(s.tree, s.writers[a.w], a.at);
      OutIsOk(T.Step(s.tree, b));
    }
  }

  lemma FinishesAreSteps(s: State, a: Action) returns (b: T.Action)
    requires T.Inv(s.tree) && Enabled(s, a) && WriterOk(s.tree, s.writers[a.w]) && a.Finish?
    ensures ActsAs(s, a, b)
  {
    hide T.Inv, T.Step, T.Enabled, WriterOk, Finished;
    b := FinishIsOk(s.tree, s.writers[a.w]);
  }

  lemma ActsAreSteps(s: State, a: Action) returns (b: T.Action)
    requires T.Inv(s.tree) && Enabled(s, a) && WriterOk(s.tree, s.writers[a.w])
    ensures ActsAs(s, a, b)
  {
    hide T.Inv, WriterOk, ActsAs, Enabled;
    match a {
      case Finish(_) => b := FinishesAreSteps(s, a);
      case InsertItem(_, _) => b := RecordsAreSteps(s, a);
      case DeleteItem(_, _) => b := RecordsAreSteps(s, a);
      case Consolidate(_, _, _, _) => b := ConsolidationsAreSteps(s, a);
      case Split(_, _) => b := SplitsAreSteps(s, a);
      case _ =>
        b := Nothing(s.tree);
        LoadsAreSteps(s, a);
    }
  }

  lemma OutIsOk(s: T.State)
    ensures WriterOk(s, Out)
  {
  }

  lemma EnabledWriter(s: State, a: Action)
    requires Enabled(s, a)
    ensures a.w < |s.writers|
  {
  }

  // Every step of every writer is a step of TreeMachine, and does to the tree what it is for.
  lemma StepRefines(s: State, a: Action) returns (b: T.Action)
    requires StateOk(s)
    ensures StateOk(Step(s, a)) && Step(s, a).tree == T.Step(s.tree, b)
    ensures if Enabled(s, a) then Carries(s, a, b) else !T.Enabled(s.tree, b)
  {
    hide T.Inv, T.Step, WriterOk, Acts, Enabled, Carries, T.Enabled;
    if Enabled(s, a) {
      EnabledWriter(s, a);
      b := ActsAreSteps(s, a);
      forall w | 0 <= w < |s.writers| ensures WriterOk(T.Step(s.tree, b), s.writers[w]) {
        WriterStays(s.tree, b, s.writers[w]);
      }
    } else {
      b := Nothing(s.tree);
      NothingHappens(s.tree);
    }
  }

  // No writer ever follows a dangling NodeID: the root, the next node of a finished snapshot and the
  // floor child of an inner snapshot, however old, have entries in the mapping table.
  lemma LoadsSucceed(s: State, w: nat, child: NodeID)
    requires StateOk(s) && w < |s.writers|
    ensures Maps(s.tree, |s.tree.uppers|, s.tree.rootId)
    ensures var x := s.writers[w];
            x.At? && x.finished && !BelowHigh(x.node.node.High(), x.key) ==>
              Maps(s.tree, x.node.level, x.node.node.High().second)
    ensures var x := s.writers[w];
            x.At? && x.node.level > 0 ==>
              x.node.node.InnerNode?
                && (I.IsFloor(I.Seps(x.node.node.inner), x.node.node.inner.Low().second, x.key, child) ==>
                      Maps(s.tree, x.node.level - 1, child))
  {
    var x := s.writers[w];
    RootMaps(s.tree);
    hide T.Inv, SnapOk, FinishedOk, Below, RootApart, I.IsFloor, I.Seps, Maps;
    if x.At? {
      assert WriterOk(s.tree, x);
      SnapParts(s.tree, x.node, x.key);
      if x.finished && !BelowHigh(x.node.node.High(), x.key) {
        var j := NextLies(s.tree, x.node, x.key);
        LyingMaps(s.tree, x.node.level, j, x.node.node.High().second, x.key, x.node);
      }
      if x.node.level > 0 && I.IsFloor(I.Seps(x.node.node.inner), x.node.node.inner.Low().second, x.key, child) {
        var j := FloorLies(s.tree, x.node, x.key, child);
        LyingMaps(s.tree, x.node.level - 1, j, child, x.key, x.node);
      }
    }
  }

  lemma LyingMaps(s: T.State, h: nat, j: nat, id: NodeID, key: int, p: Snapshot)
    requires Lies(s, h, j, id, key, p)
    ensures Maps(s, h, id)
  {
    NodeAt(s, h, j);
  }

  lemma RootMaps(s: T.State)
    requires T.Inv(s)
    ensures Maps(s, |s.uppers|, s.rootId)
  {
    TreeProofs.InvResolves(s);
    TreeResults.RootIsFirst(s);
    NodeAt(s, |s.uppers|, 0);
  }

  function Trees(run: seq<State>): (trees: seq<T.State>)
    ensures |trees| == |run| && forall j :: 0 <= j < |run| ==> trees[j] == run[j].tree
  {
    seq(|run|, j requires 0 <= j < |run| => run[j].tree)
  }

  lemma RunGrows(steps: seq<T.Action>, trees: seq<T.State>, b: T.Action, tree: T.State)
    requires T.IsRun(steps, trees) && tree == T.Step(trees[|steps|], b)
    ensures T.IsRun(steps + [b], trees + [tree])
  {
    hide T.Step;
    var steps', trees' := steps + [b], trees + [tree];
    forall j | 0 <= j < |steps'| ensures trees'[j + 1] == T.Step(trees'[j], steps'[j]) {
      if j < |steps| { assert trees'[j + 1] == trees[j + 1] && trees'[j] == trees[j]; }
    }
  }

  // Whatever the writers do and however they interleave, the tree goes through a run of TreeMachine:
  // the guards of its steps follow from the control flow of the writers and the success of the
  // compare-and-swap.
  lemma {:induction false} WritersRefineTheTree(n: nat, acts: seq<Action>, run: seq<State>)
    returns (steps: seq<T.Action>)
    requires IsRun(n, acts, run)
    ensures |run| == |acts| + 1 && |steps| == |acts| && T.IsRun(steps, Trees(run)) && StateOk(run[|acts|])
    decreases |acts|
  {
    if acts == [] {
      TreeResults.InitialInv();
      steps := [];
    } else {
      var m := |acts| - 1;
      assert IsRun(n, acts[..m], run[..m + 1]);
      var before := WritersRefineTheTree(n, acts[..m], run[..m + 1]);
      hide StateOk, Step, T.Step, Enabled, T.Enabled, Carries, T.IsRun;
      var b := StepRefines(run[m], acts[m]);
      steps := before + [b];
      RunGrows(before, Trees(run[..m + 1]), b, run[m + 1].tree);
      assert Trees(run) == Trees(run[..m + 1]) + [run[m + 1].tree];
    }
  }
}
