// What each step of the whole tree does, seen from outside: to the pairs that the leaves hc, to the
// ranges of the nodes of each level, and to what each level knows about the one below.
module TreeEffects {
  import opened Options
  import opened Pairs
  import opened Levels
  import opened TreeMachine
  import L = LeafChain
  import LL = LeafLevel
  import I = InnerChain
  import IL = InnerLevel
  import LeafConsolidation
  import InnerConsolidation
  import LeafMachine
  import TreeProofs
  import TreeResults

  // ---------- the pairs ----------

  lemma SameLeaves(s: State, s': State)
    requires Inv(s) && Inv(s') && s'.leaves == s.leaves && s'.leafPath == s.leafPath
    ensures PairsIn(s') == PairsIn(s)
  {
    hide LL.PairsOf;
  }

  lemma LeafOfLevel(s: State, i: nat)
    requires Inv(s) && i < |s.leafPath|
    ensures AllResolve(s) && LL.LevelOk(s.leafPath, Nodes(s.leaves, s.leafPath))
    ensures s.leafPath[i] in s.leaves && L.WellFormed(LeafAt(s, i)) && LeafAt(s, i) == Nodes(s.leaves, s.leafPath)[i]
  {
    TreeProofs.LeafIsOk(s, i);
  }

  lemma WithLeafPairs(s: State, i: nat, c: L.Chain)
    requires Inv(s) && i < |s.leafPath| && Inv(WithLeaf(s, i, c))
    ensures s.leafPath[i] in s.leaves && PairsIn(WithLeaf(s, i, c)) == LL.PairsOf(Nodes(s.leaves, s.leafPath)[i := c])
  {
    hide LL.PairsOf, LL.LevelOk;
    ReplaceNode(s.leaves, s.leafPath, i, c);
  }

  lemma DataPairs(s: State, i: nat, c: L.Chain, item: KeyValuePair)
    requires Inv(s) && i < |s.leafPath| && s.leafPath[i] in s.leaves && c == RecordOn(LeafAt(s, i), item)
    requires !LeafAt(s, i).Remove? && L.InRange(LeafAt(s, i), item.first) && Inv(WithLeaf(s, i, c))
    ensures item in PairsIn(s) <==> c.Delete?
    ensures PairsIn(WithLeaf(s, i, c)) == if c.Insert? then PairsIn(s) + {item} else PairsIn(s) - {item}
  {
    LeafOfLevel(s, i);
    L.LocateIsExact(LeafAt(s, i), item);
    LeafMachine.PostedIsWellFormed(LeafAt(s, i), item);
    WithLeafPairs(s, i, c);
    RecordContents(LeafAt(s, i), item);
    hide Inv, L.WellFormed, LL.LevelOk, LL.PairsOf, L.Locate, L.Contents, L.InRange, RecordOn;
    LeafMachine.ReplaceRecordPairs(s.leafPath, Nodes(s.leaves, s.leafPath), i, c, item);
  }

  // The record that the existence check calls for.
  function RecordOn(c: L.Chain, item: KeyValuePair): L.Chain {
    var found := L.Locate(c, item);
    if found.found then L.Delete(item, found.indexPair, c) else L.Insert(item, found.indexPair, c)
  }

  lemma RecordContents(c: L.Chain, item: KeyValuePair)
    ensures var r := RecordOn(c, item);
            && (if r.Insert? then L.Contents(r) == L.Contents(c) + {item} else r.Delete? && L.Contents(r) == L.Contents(c) - {item})
            && r.Low() == c.Low() && r.High() == c.High() && (r.Delete? <==> L.Locate(c, item).found)
            && L.InRange(r, item.first) == L.InRange(c, item.first)
  {
  }

  lemma DataStepUnfolds(s: State, a: Action)
    requires Enabled(s, a) && (a.InsertItem? || a.DeleteItem?)
    ensures a.i < |s.leafPath| && s.leafPath[a.i] in s.leaves && !LeafAt(s, a.i).Remove?
    ensures L.InRange(LeafAt(s, a.i), a.item.first) && L.Locate(LeafAt(s, a.i), a.item).found == a.DeleteItem?
    ensures Step(s, a) == WithLeaf(s, a.i, RecordOn(LeafAt(s, a.i), a.item))
  {
    hide Settled, L.Locate;
  }

  lemma DataStep(s: State, a: Action)
    requires Inv(s) && Enabled(s, a) && (a.InsertItem? || a.DeleteItem?) && Inv(Step(s, a))
    ensures a.InsertItem? ==> a.item !in PairsIn(s) && PairsIn(Step(s, a)) == PairsIn(s) + {a.item}
    ensures a.DeleteItem? ==> a.item in PairsIn(s) && PairsIn(Step(s, a)) == PairsIn(s) - {a.item}
  {
    DataStepUnfolds(s, a);
    RecordContents(LeafAt(s, a.i), a.item);
    hide Inv, Step, Enabled, PairsIn, RecordOn;
    DataPairs(s, a.i, RecordOn(LeafAt(s, a.i), a.item), a.item);
  }

  lemma ConsolidateLeafPairs(s: State, i: nat, items: seq<KeyValuePair>)
    requires Inv(s) && Enabled(s, ConsolidateLeaf(i, items)) && Inv(Step(s, ConsolidateLeaf(i, items)))
    ensures PairsIn(Step(s, ConsolidateLeaf(i, items))) == PairsIn(s)
  {
    LeafOfLevel(s, i);
    var c := LeafAt(s, i);
    LeafConsolidation.ConsolidatedChain(c, items);
    var c' := L.Leaf(c.Low(), c.High(), items);
    hide Inv, L.WellFormed, LL.PairsOf, L.Contents, Settled, LL.LevelOk;
    WithLeafPairs(s, i, c');
    LeafMachine.SamePairs(s.leafPath, Nodes(s.leaves, s.leafPath), i, c');
  }

  lemma SplitLeafPairs(s: State, i: nat, at: nat)
    requires Inv(s) && Enabled(s, SplitLeaf(i, at)) && Inv(Step(s, SplitLeaf(i, at)))
    ensures PairsIn(Step(s, SplitLeaf(i, at))) == PairsIn(s)
  {
    LeafOfLevel(s, i);
    TreeProofs.FreshIsNew(s);
    var c, nodes := LeafAt(s, i), Nodes(s.leaves, s.leafPath);
    hide Inv, L.WellFormed, LL.PairsOf, Known, LL.LevelOk, InsertBehind, LL.IsSplitPoint, LL.SplitRecord, LL.SplitSibling;
    LL.SplitLeafLevel(s.leafPath, nodes, i, at, s.nextId);
    SplitNode(s.leaves, s.leafPath, i, s.nextId, LL.SplitRecord(c, at, s.nextId), LL.SplitSibling(c, at));
  }

  lemma InnerStepPairs(s: State, a: Action)
    requires Inv(s) && Enabled(s, a) && Inv(Step(s, a))
    requires a.ConsolidateInner? || a.SplitInner? || a.PostTerm? || a.GrowRoot?
    ensures PairsIn(Step(s, a)) == PairsIn(s)
  {
    hide Inv, Settled, Known, ReachedThrough, AllResolve, ViewOf, LL.PairsOf, PairsIn, I.Find;
    SameLeaves(s, Step(s, a));
  }

  // Posting a record adds its pair, which was absent, or takes it away, which was present; no other step
  // of the tree changes its pairs.
  lemma StepPairs(s: State, a: Action)
    requires Inv(s)
    ensures Inv(Step(s, a))
    ensures var before, after := PairsIn(s), PairsIn(Step(s, a));
            if a.InsertItem? && Enabled(s, a) then a.item !in before && after == before + {a.item}
            else if a.DeleteItem? && Enabled(s, a) then a.item in before && after == before - {a.item}
            else after == before
  {
    TreeResults.StepKeepsInv(s, a);
    if Enabled(s, a) {
      hide Inv, Step, Enabled, PairsIn;
      match a {
        case InsertItem(_, _) => DataStep(s, a);
        case DeleteItem(_, _) => DataStep(s, a);
        case ConsolidateLeaf(i, items) => ConsolidateLeafPairs(s, i, items);
        case SplitLeaf(i, at) => SplitLeafPairs(s, i, at);
        case _ => InnerStepPairs(s, a);
      }
    }
  }

  // A consolidation leaves a base node with the same pairs, or the same separators.
  lemma ConsolidationTakesEffect(s: State, a: Action)
    requires Inv(s) && Enabled(s, a) && (a.ConsolidateLeaf? || a.ConsolidateInner?)
    ensures var s' := Step(s, a);
            if a.ConsolidateLeaf? then
              && s'.leafPath == s.leafPath && a.i < |s.leafPath| && s.leafPath[a.i] in s.leaves && s.leafPath[a.i] in s'.leaves
              && LeafAt(s', a.i).Leaf? && L.Contents(LeafAt(s', a.i)) == L.Contents(LeafAt(s, a.i))
            else
              && a.h < |s.uppers| && |s'.uppers| == |s.uppers| && s'.uppers[a.h].path == s.uppers[a.h].path
              && a.i < |s.uppers[a.h].path|
              && s.uppers[a.h].path[a.i] in s.uppers[a.h].table && s.uppers[a.h].path[a.i] in s'.uppers[a.h].table
              && InnerAt(s', a.h, a.i).Inner? && I.Seps(InnerAt(s', a.h, a.i)) == I.Seps(InnerAt(s, a.h, a.i))
  {
    TreeProofs.InvResolves(s);
    if a.ConsolidateLeaf? {
      LeafOfLevel(s, a.i);
      hide Inv, L.WellFormed, Settled, AllResolve;
      LeafConsolidation.ConsolidatedChain(LeafAt(s, a.i), a.leafItems);
    } else {
      TreeProofs.ConsolidateInnerUnfolds(s, a.h, a.i, a.innerItems, a.depth);
      hide Inv, Settled, AllResolve, Enabled, Step, I.WellFormed, I.Seps;
      TreeProofs.InnerIsOk(s, a.h, a.i);
      InnerConsolidation.ConsolidatedChain(InnerAt(s, a.h, a.i), a.i > 0, a.innerItems, a.depth);
    }
  }

  // ---------- what a level knows about the one below ----------

  // The one reference that a step adds: that to the right half of a split, by its index term or by the
  // new root above it.
  ghost predicate AddsReference(s: State, a: Action, h: nat, x: KeyNodeIDPair)
    requires Inv(s) && h <= |s.uppers|
  {
    && Enabled(s, a)
    && var below := ViewOf(s, h).spans;
       || (a.PostTerm? && a.h == h && a.i + 1 < |below| && x == IL.PairOf(below[a.i + 1]))
       || (a.GrowRoot? && h == |s.uppers| && 1 < |below| && x == IL.PairOf(below[1]))
  }

  // The level knows what it knew before, and the reference that the step adds.
  ghost predicate RefersAfter(s: State, a: Action, h: nat, x: KeyNodeIDPair)
    requires Inv(s) && h <= |s.uppers| && AllResolve(s) && AllResolve(Step(s, a))
  {
    && h <= |Step(s, a).uppers|
    && (IL.Refers(Parents(Step(s, a), h), x) <==> IL.Refers(Parents(s, h), x) || AddsReference(s, a, h, x))
  }

  lemma SameUppersRefers(s: State, s': State, h: nat)
    requires AllResolve(s) && AllResolve(s') && s'.uppers == s.uppers && h <= |s.uppers|
    ensures Parents(s', h) == Parents(s, h)
  {
  }

  // A record or a consolidation of node i of a level, in terms of its separators.
  lemma WithInnerRefers(s: State, k: nat, i: nat, c: I.Chain, h: nat, x: KeyNodeIDPair)
    requires AllResolve(s) && k < |s.uppers| && i < |s.uppers[k].path| && h <= |s.uppers|
    requires c.Low() == InnerAt(s, k, i).Low() && (x in I.Seps(InnerAt(s, k, i)) ==> x in I.Seps(c))
    requires AllResolve(WithInner(s, k, i, c))
    ensures IL.Refers(Parents(WithInner(s, k, i, c), h), x)
       <==> IL.Refers(Parents(s, h), x) || (h == k && x in I.Seps(c))
  {
    hide I.Seps, IL.Refers;
    var u := s.uppers[k];
    ReplaceNode(u.table, u.path, i, c);
    if h == k {
      var nodes := Nodes(u.table, u.path);
      IL.ReplaceNodeRefers(nodes, i, c, x);
      TreeProofs.SepIsReference(nodes[i := c], i, x);
    }
  }

  lemma HalvedRefers(s: State, k: nat, i: nat, h: nat, x: KeyNodeIDPair)
    requires Inv(s) && AllResolve(s) && Enabled(s, SplitInner(k, i)) && h <= |s.uppers|
    requires AllResolve(Step(s, SplitInner(k, i)))
    ensures h <= |Step(s, SplitInner(k, i)).uppers|
    ensures IL.Refers(Parents(Step(s, SplitInner(k, i)), h), x) <==> IL.Refers(Parents(s, h), x)
  {
    hide I.Seps, IL.Refers, Step, Enabled, Inv, I.WellFormed, Known, TreeProofs.ShareSeps;
    TreeProofs.SplitInnerUnfolds(s, k, i);
    var c, u := InnerAt(s, k, i), s.uppers[k];
    var at := |c.items| / 2;
    TreeProofs.SplitHalves(s, k, i, at);
    TreeProofs.LevelMeets(s, k);
    var left, right := IL.SplitRecord(c, at, s.nextId), IL.SplitSibling(c, at);
    SplitNode(u.table, u.path, i, s.nextId, left, right);
    if h == k { TreeProofs.SplitRefers(Nodes(u.table, u.path), i, left, right, x); }
  }

  lemma ConsolidatedRefers(s: State, k: nat, i: nat, items: seq<KeyNodeIDPair>, depth: nat, h: nat, x: KeyNodeIDPair)
    requires Inv(s) && Enabled(s, ConsolidateInner(k, i, items, depth)) && h <= |s.uppers|
    requires AllResolve(s) && AllResolve(Step(s, ConsolidateInner(k, i, items, depth)))
    ensures h <= |Step(s, ConsolidateInner(k, i, items, depth)).uppers|
    ensures IL.Refers(Parents(Step(s, ConsolidateInner(k, i, items, depth)), h), x) <==> IL.Refers(Parents(s, h), x)
  {
    TreeProofs.ConsolidateInnerUnfolds(s, k, i, items, depth);
    hide Inv, AllResolve, Parents, IL.Refers, Step, Enabled, Settled, I.WellFormed, I.Seps;
    TreeProofs.InnerIsOk(s, k, i);
    var c := InnerAt(s, k, i);
    InnerConsolidation.ConsolidatedChain(c, i > 0, items, depth);
    WithInnerRefers(s, k, i, I.Inner(c.Low(), c.High(), items, depth), h, x);
    if h == k && x in I.Seps(c) { SeparatorIsReference(s, k, i, x); }
  }

  lemma SeparatorIsReference(s: State, k: nat, i: nat, x: KeyNodeIDPair)
    requires AllResolve(s) && k < |s.uppers| && i < |s.uppers[k].path|
    requires s.uppers[k].path[i] in s.uppers[k].table && x in I.Seps(InnerAt(s, k, i))
    ensures IL.Refers(Parents(s, k), x)
  {
    TreeProofs.SepIsReference(Parents(s, k), i, x);
  }

  lemma PostedRefers(s: State, k: nat, i: nat, m: nat, h: nat, x: KeyNodeIDPair)
    requires Inv(s) && Enabled(s, PostTerm(k, i, m)) && h <= |s.uppers|
    requires AllResolve(s) && AllResolve(Step(s, PostTerm(k, i, m)))
    ensures h <= |Step(s, PostTerm(k, i, m)).uppers| && k < |s.uppers| && i + 1 < |ViewOf(s, k).spans|
    ensures IL.Refers(Parents(Step(s, PostTerm(k, i, m)), h), x)
       <==> IL.Refers(Parents(s, h), x) || (h == k && x == IL.PairOf(ViewOf(s, k).spans[i + 1]))
  {
    TreeProofs.PostTermUnfolds(s, k, i, m);
    TreeProofs.RightHalf(s, k, i);
    hide Inv, AllResolve, Parents, IL.Refers, Step, Enabled, Settled, ReachedThrough, ViewOf, I.Find;
    WithInnerRefers(s, k, m, Term(s, k, i, m), h, x);
    TermResolves(s, k, m);
    if h == k && x in I.Seps(InnerAt(s, k, m)) { SeparatorIsReference(s, k, m, x); }
  }

  lemma TermResolves(s: State, k: nat, m: nat)
    requires AllResolve(s) && k < |s.uppers| && m < |s.uppers[k].path|
    ensures s.uppers[k].path[m] in s.uppers[k].table
  {
    assert Resolves(s.uppers[k].table, s.uppers[k].path);
  }

  lemma RootRefers(s: State, h: nat, x: KeyNodeIDPair)
    requires Inv(s) && Enabled(s, GrowRoot) && h <= |s.uppers| && AllResolve(Step(s, GrowRoot))
    ensures h <= |Step(s, GrowRoot).uppers| && AllResolve(s) && |ViewOf(s, |s.uppers|).spans| == 2
    ensures IL.Refers(Parents(Step(s, GrowRoot), h), x)
       <==> IL.Refers(Parents(s, h), x) || (h == |s.uppers| && x == IL.PairOf(ViewOf(s, h).spans[1]))
  {
    TreeProofs.InvResolves(s);
    TreeProofs.RootLevel(s);
    var key := InnerAt(s, |s.uppers| - 1, 0).insertItem;
    TreeProofs.RootSeps(s, key);
    TreeProofs.NothingKnown();
    var u := Upper(map[s.nextId := TreeProofs.NewRoot(s, key)], [s.nextId]);
    assert Step(s, GrowRoot).uppers == s.uppers + [u];
    assert Nodes(u.table, u.path) == [TreeProofs.NewRoot(s, key)];
    hide Inv, IL.Refers, Enabled, Step, I.Seps;
  }

  // The cases of AddsReference.
  lemma AddsNothing(s: State, a: Action, h: nat, x: KeyNodeIDPair)
    requires Inv(s) && h <= |s.uppers| && !a.PostTerm? && !a.GrowRoot?
    ensures !AddsReference(s, a, h, x)
  {
  }

  lemma AddsByPost(s: State, k: nat, i: nat, m: nat, h: nat, x: KeyNodeIDPair)
    requires Inv(s) && h <= |s.uppers| && Enabled(s, PostTerm(k, i, m)) && k <= |s.uppers| && AllResolve(s)
    requires i + 1 < |ViewOf(s, k).spans|
    ensures AddsReference(s, PostTerm(k, i, m), h, x) <==> h == k && x == IL.PairOf(ViewOf(s, k).spans[i + 1])
  {
    hide Inv, AllResolve, ViewOf, Enabled;
  }

  lemma AddsByRoot(s: State, h: nat, x: KeyNodeIDPair)
    requires Inv(s) && h <= |s.uppers| && Enabled(s, GrowRoot) && AllResolve(s) && |ViewOf(s, |s.uppers|).spans| == 2
    ensures AddsReference(s, GrowRoot, h, x) <==> h == |s.uppers| && x == IL.PairOf(ViewOf(s, h).spans[1])
  {
    hide Inv, AllResolve, ViewOf, Enabled;
  }

  lemma LeafStepRefers(s: State, a: Action, h: nat, x: KeyNodeIDPair)
    requires Inv(s) && h <= |s.uppers| && AllResolve(s) && AllResolve(Step(s, a)) && Enabled(s, a)
    requires a.InsertItem? || a.DeleteItem? || a.ConsolidateLeaf? || a.SplitLeaf?
    ensures RefersAfter(s, a, h, x)
  {
    LeafStepUppers(s, a);
    AddsNothing(s, a, h, x);
    hide Inv, AllResolve, Enabled, Step, Parents, IL.Refers, AddsReference;
    SameUppersRefers(s, Step(s, a), h);
  }

  lemma LeafStepUppers(s: State, a: Action)
    requires Enabled(s, a) && (a.InsertItem? || a.DeleteItem? || a.ConsolidateLeaf? || a.SplitLeaf?)
    ensures Step(s, a).uppers == s.uppers
  {
    hide AllResolve, ViewOf, Settled, Known, L.Locate;
  }

  lemma InnerStepRefers(s: State, a: Action, h: nat, x: KeyNodeIDPair)
    requires Inv(s) && h <= |s.uppers| && AllResolve(s) && AllResolve(Step(s, a)) && Enabled(s, a)
    requires a.ConsolidateInner? || a.SplitInner?
    ensures RefersAfter(s, a, h, x)
  {
    AddsNothing(s, a, h, x);
    hide Inv, AllResolve, Enabled, Step, Parents, IL.Refers, AddsReference;
    match a {
      case ConsolidateInner(k, i, items, depth) => ConsolidatedRefers(s, k, i, items, depth, h, x);
      case SplitInner(k, i) => HalvedRefers(s, k, i, h, x);
    }
  }

  lemma NewReferences(s: State, a: Action, h: nat, x: KeyNodeIDPair)
    requires Inv(s) && h <= |s.uppers| && AllResolve(s) && AllResolve(Step(s, a)) && Enabled(s, a)
    requires a.PostTerm? || a.GrowRoot?
    ensures RefersAfter(s, a, h, x)
  {
    hide Inv, AllResolve, Enabled, Step, Parents, IL.Refers, AddsReference, ViewOf;
    match a {
      case PostTerm(k, i, m) =>
        PostedRefers(s, k, i, m, h, x);
        AddsByPost(s, k, i, m, h, x);
      case GrowRoot =>
        RootRefers(s, h, x);
        AddsByRoot(s, h, x);
    }
  }

  lemma DisabledRefers(s: State, a: Action, h: nat, x: KeyNodeIDPair)
    requires Inv(s) && h <= |s.uppers| && AllResolve(s) && !Enabled(s, a)
    ensures AllResolve(Step(s, a)) && RefersAfter(s, a, h, x)
  {
    hide AllResolve, Inv, Parents;
  }

  // What a level knows about the nodes of the level below changes by posting an index term and by
  // putting a new root above: then the right half of the split becomes known, and nothing else.
  lemma StepReferences(s: State, a: Action, h: nat, x: KeyNodeIDPair)
    requires Inv(s) && h <= |s.uppers|
    ensures Inv(Step(s, a)) && AllResolve(s) && AllResolve(Step(s, a)) && RefersAfter(s, a, h, x)
  {
    TreeResults.StepKeepsInv(s, a);
    TreeProofs.InvResolves(s);
    TreeProofs.InvResolves(Step(s, a));
    hide Inv, Step, Enabled, AllResolve, RefersAfter;
    if !Enabled(s, a) {
      DisabledRefers(s, a, h, x);
    } else {
      match a {
        case ConsolidateInner(_, _, _, _) => InnerStepRefers(s, a, h, x);
        case SplitInner(_, _) => InnerStepRefers(s, a, h, x);
        case PostTerm(_, _, _) => NewReferences(s, a, h, x);
        case GrowRoot => NewReferences(s, a, h, x);
        case _ => LeafStepRefers(s, a, h, x);
      }
    }
  }
}
