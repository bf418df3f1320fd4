// What the steps of writers do to the tree, in every run of any number of them: to the pairs it holds,
// and to splits that are half finished.
module TreeWriterEffects {
  import opened Options
  import opened Pairs
  import opened Levels
  import opened TreeWriters
  import opened TreeWriterProofs
  import opened TreeRefinement
  import L = LeafChain
  import I = InnerChain
  import IL = InnerLevel
  import T = TreeMachine
  import TreeEffects
  import TreeProofs
  import TreeResults

  lemma {:induction false} StatesAreOk(n: nat, acts: seq<Action>, run: seq<State>, j: nat)
    requires IsRun(n, acts, run) && j <= |acts|
    ensures StateOk(run[j]) && |run[j].writers| == n && T.Inv(run[j].tree)
  {
    if j == 0 {
      TreeResults.InitialInv();
    } else {
      StatesAreOk(n, acts, run, j - 1);
      hide StateOk, Acts, Enabled, T.Step, Carries;
      var b := StepRefines(run[j - 1], acts[j - 1]);
    }
    assert StateOk(run[j]);
  }

  // ---------- the pairs ----------

  lemma StepChangesPairs(s: State, a: Action)
    requires StateOk(s) && Enabled(s, a)
    ensures T.Inv(s.tree) && T.Inv(Step(s, a).tree)
    ensures var x, before, after := s.writers[a.w], T.PairsIn(s.tree), T.PairsIn(Step(s, a).tree);
            if a.InsertItem? && Unchanged(s.tree, x.node) then
              Pair(x.key, a.value) !in before && after == before + {Pair(x.key, a.value)}
            else if a.DeleteItem? && Unchanged(s.tree, x.node) then
              Pair(x.key, a.value) in before && after == before - {Pair(x.key, a.value)}
            else after == before
  {
    var b := StepRefines(s, a);
    CarriedRecord(s, a, b);
    hide T.Inv, T.Step, T.Enabled, WriterOk, Acts, Step, T.PairsIn, Unchanged, Enabled, Carries;
    TreeEffects.StepPairs(s.tree, b);
  }

  // Which steps of the tree that a writer makes are records on a pair.
  lemma CarriedRecord(s: State, a: Action, b: T.Action)
    requires StateOk(s) && Enabled(s, a) && Carries(s, a, b)
    ensures T.Inv(s.tree) && a.w < |s.writers|
    ensures a.InsertItem? || a.DeleteItem? ==> s.writers[a.w].At?
    ensures T.Enabled(s.tree, b) && (b.InsertItem? || b.DeleteItem?) ==> a.InsertItem? || a.DeleteItem?
    ensures a.InsertItem? || a.DeleteItem? ==>
              && (T.Enabled(s.tree, b) <==> Unchanged(s.tree, s.writers[a.w].node))
              && (T.Enabled(s.tree, b) ==> Records(b, Pair(s.writers[a.w].key, a.value), a.InsertItem?))
  {
    hide T.Inv, T.Enabled, WriterOk, Unchanged, L.Locate, TermMissing, CanConsolidate, CanSplit, Node.High, I.IsFloor, I.Seps;
  }

  // In every run, an insert whose compare-and-swap finds its snapshot unchanged adds exactly its pair,
  // which was absent from the whole tree; a delete takes exactly its pair away, which was present. With
  // a changed snapshot, and at every other step of any writer, the pairs stay the same.
  lemma WritersChangeThePairs(n: nat, acts: seq<Action>, run: seq<State>, j: nat)
    requires IsRun(n, acts, run) && j < |acts|
    ensures T.Inv(run[j].tree) && T.Inv(run[j + 1].tree) && |run[j].writers| == n
    ensures var a, before, after := acts[j], T.PairsIn(run[j].tree), T.PairsIn(run[j + 1].tree);
            if Enabled(run[j], a) && (a.InsertItem? || a.DeleteItem?) && Unchanged(run[j].tree, run[j].writers[a.w].node) then
              var item := Pair(run[j].writers[a.w].key, a.value);
              if a.InsertItem? then item !in before && after == before + {item}
              else item in before && after == before - {item}
            else after == before
  {
    StatesAreOk(n, acts, run, j);
    hide StateOk, T.Inv, T.PairsIn, Unchanged, Enabled, Acts;
    if Enabled(run[j], acts[j]) { StepChangesPairs(run[j], acts[j]); }
  }

  // A writer on a leaf, ready to post a record, is on the leaf that covers its key if its snapshot is
  // unchanged.
  lemma ReadyWriterIsOnItsLeaf(n: nat, acts: seq<Action>, run: seq<State>, w: nat, j: nat)
    requires IsRun(n, acts, run) && j <= |acts| && w < |run[j].writers|
    requires OnLeaf(run[j].writers[w]) && Unchanged(run[j].tree, run[j].writers[w].node)
    ensures T.Inv(run[j].tree) && TreeResults.CoveringLeaf(run[j].tree, run[j].writers[w].key, run[j].writers[w].node.id)
  {
    StatesAreOk(n, acts, run, j);
    var s, x := run[j], run[j].writers[w];
    WriterParts(s, w);
    var i := PositionOf(s.tree, x.node);
    CoverOfSnapshot(s.tree, x.node, x.key, i);
    TreeResults.CoverIsTheLeaf(s.tree, i, x.key);
  }

  lemma WriterParts(s: State, w: nat)
    requires StateOk(s) && w < |s.writers| && s.writers[w].At?
    ensures T.Inv(s.tree) && WriterOk(s.tree, s.writers[w])
    ensures SnapOk(s.tree, s.writers[w].node, s.writers[w].key)
    ensures Placed(s.tree, s.writers[w].node) && ChainOk(s.writers[w].node, s.writers[w].key)
  {
    hide T.Inv, SnapOk, FinishedOk, Below, RootApart, Placed, ChainOk;
    assert WriterOk(s.tree, s.writers[w]);
    SnapParts(s.tree, s.writers[w].node, s.writers[w].key);
  }

  lemma CoverOfSnapshot(s: T.State, p: Snapshot, key: int, i: nat)
    requires T.Inv(s) && T.AllResolve(s) && p.level == 0 && ChainOk(p, key) && Unchanged(s, p) && BelowHigh(p.node.High(), key)
    requires i < |T.ViewOf(s, 0).spans| && T.ViewOf(s, 0).spans[i].id == p.id && (i == 0 <==> p.first)
    ensures i < |s.leafPath| && s.leafPath[i] == p.id && Covers(T.ViewOf(s, 0).spans, i, key)
  {
    NodeAt(s, 0, i);
    hide T.Inv, T.AllResolve, T.ViewOf, L.WellFormed;
  }

  // ---------- loads ----------

  // A load puts the writer on the node that it asked for, with a snapshot of this moment: the root, the
  // next node, or the child, below the node it came from.
  lemma LoadsAreFresh(s: State, a: Action)
    requires StateOk(s) && Enabled(s, a) && (a.LoadRoot? || a.Right? || a.Down?)
    ensures var s', x, x' := Step(s, a), s.writers[a.w], Step(s, a).writers[a.w];
            && s'.tree == s.tree && x'.At? && !x'.finished && Unchanged(s.tree, x'.node)
            && match a
               case LoadRoot(_, key) =>
                 x'.key == key && x'.node.level == |s.tree.uppers| && x'.node.id == s.tree.rootId && x'.parent == None
               case Right(_) =>
                 && x'.key == x.key && x'.node.level == x.node.level && x'.node.id == x.node.node.High().second
                 && x'.parent == x.parent
               case Down(_, child) =>
                 x'.key == x.key && x'.node.level + 1 == x.node.level && x'.node.id == child && x'.parent == Some(x.node)
  {
    hide T.Inv, WriterOk, I.IsFloor, I.Seps;
  }

  // ---------- FinishPartialSMO ----------

  // No separator of a parent snapshot has the split key but another child.
  lemma FoundIsTheItem(s: T.State, p: Snapshot, q: Snapshot, key: int)
    requires T.Inv(s) && Below(s, p, q, key) && p.node.Half().Some? && BelowHigh(q.node.High(), p.node.High().first)
    requires I.Find(q.node.inner, q.node.inner.Low().second, p.node.High().first).item.Some?
    ensures I.Find(q.node.inner, q.node.inner.Low().second, p.node.High().first).item == Some(p.node.High())
  {
    var c, item := q.node.inner, p.node.High();
    var x := I.Find(c, c.Low().second, item.first).item.value;
    FoundIsSep(q, key, item.first);
    SplitItem(p, key);
    hide T.Inv, T.AllResolve, T.ViewOf, T.Parents, IL.Refers, Placed, NextOk, BelowOk, ChainOk, I.Find, I.Seps, Chained;
    BelowParts(s, q, x);
    var j := ReferenceLies(s, p.level, x);
    var m := NextPosition(s, p);
    LevelFacts(s, p.level);
    SameLow(T.ViewOf(s, p.level).spans, j, m);
  }

  lemma SameLow(level: seq<Span>, j: nat, m: nat)
    requires Chained(level) && 1 <= j < |level| && 1 <= m < |level| && level[j].low == level[m].low
    ensures j == m
  {
    LowOrder(level, j, m);
    LowOrder(level, m, j);
  }

  lemma FoundIsSep(q: Snapshot, key: int, first: int)
    requires ChainOk(q, key) && q.node.InnerNode? && BelowHigh(q.node.High(), first)
    requires I.Find(q.node.inner, q.node.inner.Low().second, first).item.Some?
    ensures var x := I.Find(q.node.inner, q.node.inner.Low().second, first).item.value;
            x in I.Seps(q.node.inner) && x.first == first
  {
    var c := q.node.inner;
    I.LeftmostIsLow(c, !q.first);
    I.FindIsExact(c, !q.first, c.Low().second, first);
  }

  lemma FinishChildGoesOn(s: T.State, x: Writer, q: Snapshot)
    requires T.Inv(s) && x.At? && WriterOk(s, x) && x.parent == Some(q) && x.node.node.Half().Some?
    requires q.node.InnerNode? && q.level > 0 && Unchanged(s, q)
    ensures FinishChild(s, x, q).1.At?
  {
    var item, c := x.node.node.High(), q.node.inner;
    WriterBelow(s, x, q);
    hide T.Inv, Below, WriterOk, I.Find, Install, Load, Unchanged, T.Parents, IL.Refers;
    if BelowHigh(c.High(), item.first) && I.Find(c, c.Low().second, item.first).item.Some? {
      FoundIsTheItem(s, x.node, q, x.key);
    }
  }

  lemma ParentIsInner(s: T.State, x: Writer, q: Snapshot)
    requires x.At? && WriterOk(s, x) && x.parent == Some(q)
    ensures q.node.InnerNode? && q.level > 0
  {
    WriterBelow(s, x, q);
    hide SnapOk, FinishedOk, RootApart;
  }

  lemma FinishGoesOn(s: T.State, x: Writer)
    requires T.Inv(s) && x.At? && WriterOk(s, x)
    requires x.node.node.Half().None? || (x.parent.Some? && Unchanged(s, x.parent.value))
    ensures Finished(s, x).1.At?
  {
    hide T.Inv, WriterOk, FinishChild, Unchanged;
    if x.node.node.Half().Some? {
      ParentIsInner(s, x, x.parent.value);
      FinishChildGoesOn(s, x, x.parent.value);
    }
  }

  lemma FinishKeepsNode(s: T.State, x: Writer)
    requires x.At? && !x.finished
    ensures var x' := Finished(s, x).1; x'.At? ==> x'.finished && x'.node == x.node && x'.key == x.key
  {
    hide I.Find, Install, Unchanged;
  }

  // What FinishPartialSMO() does: when it returns, the index term of the split record on top of the node
  // has been posted. It starts over only if the parent has changed, or after it has replaced the root,
  // and changes the tree only if the term is missing.
  lemma FinishSettles(n: nat, acts: seq<Action>, run: seq<State>, j: nat)
    requires IsRun(n, acts, run) && j < |acts| && acts[j].Finish? && Enabled(run[j], acts[j])
    ensures T.Inv(run[j + 1].tree) && |run[j + 1].writers| == n
    ensures var tree, tree', x, x' := run[j].tree, run[j + 1].tree, run[j].writers[acts[j].w], run[j + 1].writers[acts[j].w];
            && (x'.At? ==> x'.finished && x'.node == x.node && x'.key == x.key && FinishedOk(tree', x.node))
            && (x.node.node.Half().None? || (x.parent.Some? && Unchanged(tree, x.parent.value)) ==> x'.At?)
            && (tree' != tree ==> TermMissing(tree, x.node) && FinishedOk(tree', x.node))
            && (x.node.node.Half().Some? && x.parent.None? && x.node.id == tree.rootId ==>
                  |tree'.uppers| == |tree.uppers| + 1 && FinishedOk(tree', x.node))
  {
    StatesAreOk(n, acts, run, j);
    StatesAreOk(n, acts, run, j + 1);
    FinishStep(run[j], acts[j].w);
    hide StateOk, T.Inv, Finished, FinishedOk, TermMissing, Unchanged, Acts, Enabled;
  }

  lemma FinishStep(s: State, w: nat)
    requires StateOk(s) && Enabled(s, Finish(w)) && StateOk(Step(s, Finish(w)))
    ensures var s', x, x' := Step(s, Finish(w)), s.writers[w], Step(s, Finish(w)).writers[w];
            && (x'.At? ==> x'.finished && x'.node == x.node && x'.key == x.key && FinishedOk(s'.tree, x.node))
            && (x.node.node.Half().None? || (x.parent.Some? && Unchanged(s.tree, x.parent.value)) ==> x'.At?)
            && (s'.tree != s.tree ==> TermMissing(s.tree, x.node) && FinishedOk(s'.tree, x.node))
            && (x.node.node.Half().Some? && x.parent.None? && x.node.id == s.tree.rootId ==>
                  |s'.tree.uppers| == |s.tree.uppers| + 1 && FinishedOk(s'.tree, x.node))
  {
    var s', x := Step(s, Finish(w)), s.writers[w];
    FinishActs(s, w);
    WriterParts(s, w);
    FinishKeepsNode(s.tree, x);
    var b := StepRefines(s, Finish(w));
    hide Step, Enabled, Acts, StateOk, T.Inv, T.Step, T.Enabled, TermMissing, FinishedOk, Finished, Unchanged, WriterOk,
      SnapOk, Placed, ChainOk;
    if x.node.node.Half().None? || (x.parent.Some? && Unchanged(s.tree, x.parent.value)) { FinishGoesOn(s.tree, x); }
    if s'.writers[w].At? { WriterFinished(s', w); }
    if T.Enabled(s.tree, b) { FinishedByStep(s.tree, x, b); }
    if x.node.node.Half().Some? && x.parent.None? && x.node.id == s.tree.rootId { RootIsReplaced(s, w, b); }
  }

  lemma FinishActs(s: State, w: nat)
    requires Enabled(s, Finish(w))
    ensures s.writers[w].At? && !s.writers[w].finished && w < |Step(s, Finish(w)).writers|
    ensures Step(s, Finish(w)).writers[w] == Finished(s.tree, s.writers[w]).1
    ensures Step(s, Finish(w)).tree == Finished(s.tree, s.writers[w]).0
  {
    hide Finished;
  }

  lemma WriterFinished(s: State, w: nat)
    requires StateOk(s) && w < |s.writers| && s.writers[w].At? && s.writers[w].finished
    ensures FinishedOk(s.tree, s.writers[w].node)
  {
    hide T.Inv, SnapOk, FinishedOk, Below, RootApart;
    assert WriterOk(s.tree, s.writers[w]);
  }

  // The step that FinishPartialSMO() makes adds the reference to the right half of its node.
  lemma FinishedByStep(s: T.State, x: Writer, b: T.Action)
    requires T.Inv(s) && x.At? && Finishes(s, x, b) && T.Enabled(s, b) && SnapOk(s, x.node, x.key)
    ensures FinishedOk(T.Step(s, b), x.node)
  {
    hide T.Inv, T.AllResolve, T.ViewOf, T.Parents, IL.Refers, SnapOk, T.Step, T.Enabled, TreeEffects.AddsReference,
      TreeEffects.RefersAfter;
    var h, item := x.node.level, x.node.node.High();
    var i := SplitIsNext(s, x.node, x.key);
    PositionIsOne(s, x.node, if b.PostTerm? then b.i else 0, i);
    TreeEffects.StepReferences(s, b, h, item);
    SplitItemIsAdded(s, x, b, i);
  }

  // Only one node of the level has the NodeID of the snapshot.
  lemma PositionIsOne(s: T.State, p: Snapshot, j: nat, i: nat)
    requires T.Inv(s) && T.AllResolve(s) && p.level <= |s.uppers| && i < |T.ViewOf(s, p.level).spans|
    requires T.ViewOf(s, p.level).spans[i].id == p.id
    ensures j < |PathOf(s, p.level)| && PathOf(s, p.level)[j] == p.id ==> j == i
    ensures p.level == |s.uppers| && p.id == s.rootId ==> i == 0
  {
    LevelFacts(s, p.level);
    Width(s, p.level);
    if j < |PathOf(s, p.level)| { NodeAt(s, p.level, j); }
    TreeResults.RootIsFirst(s);
    hide T.Inv, T.AllResolve, T.ViewOf, Load, PathOf, Chained, IL.Indexed;
  }

  lemma SplitItemIsAdded(s: T.State, x: Writer, b: T.Action, i: nat)
    requires T.Inv(s) && x.At? && Finishes(s, x, b) && T.Enabled(s, b) && T.AllResolve(s)
    requires x.node.level <= |s.uppers| && i + 1 < |T.ViewOf(s, x.node.level).spans|
    requires IL.PairOf(T.ViewOf(s, x.node.level).spans[i + 1]) == x.node.node.High()
    requires if b.PostTerm? then b.i == i else i == 0
    requires T.AllResolve(T.Step(s, b)) && TreeEffects.RefersAfter(s, b, x.node.level, x.node.node.High())
    ensures FinishedOk(T.Step(s, b), x.node)
  {
    hide T.Inv, T.AllResolve, T.ViewOf, T.Parents, IL.Refers, T.Step, T.Enabled;
  }

  lemma RootIsReplaced(s: State, w: nat, b: T.Action)
    requires StateOk(s) && w < |s.writers| && s.writers[w].At?
    requires s.writers[w].node.node.Half().Some? && s.writers[w].parent.None? && s.writers[w].node.id == s.tree.rootId
    requires T.Step(s.tree, b) == Finished(s.tree, s.writers[w]).0
    ensures |T.Step(s.tree, b).uppers| == |s.tree.uppers| + 1
  {
    hide T.Step;
  }
}
