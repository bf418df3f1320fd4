// A writer that nobody disturbs gets its work done: from any reachable state, however many splits other
// writers have left half finished, steps of its own lead it to its leaf and change the set of pairs.
module TreeAlone {
  import opened Options
  import opened Pairs
  import opened Levels
  import opened TreeWriters
  import opened TreeWriterProofs
  import opened TreeRefinement
  import opened TreeWriterEffects
  import opened TreeMissing
  import L = LeafChain
  import I = InnerChain
  import IL = InnerLevel
  import T = TreeMachine
  import ForwardIterators
  import LeafMachine
  import TreeProofs
  import TreeResults

  // Steps of one writer, each of which takes place.
  ghost predicate AloneRun(w: nat, acts: seq<Action>, run: seq<State>) {
    && |run| == |acts| + 1
    && forall j :: 0 <= j < |acts| ==> acts[j].w == w && Enabled(run[j], acts[j]) && run[j + 1] == Step(run[j], acts[j])
  }

  lemma NoSteps(w: nat, s: State)
    ensures AloneRun(w, [], [s])
  {
  }

  lemma OneStep(w: nat, s: State, a: Action)
    requires a.w == w && Enabled(s, a)
    ensures AloneRun(w, [a], [s, Step(s, a)])
  {
    hide Enabled, Step;
  }

  lemma Joined(w: nat, acts: seq<Action>, run: seq<State>, acts': seq<Action>, run': seq<State>)
    requires AloneRun(w, acts, run) && AloneRun(w, acts', run') && run[|acts|] == run'[0]
    ensures var run2 := run[..|acts|] + run';
            AloneRun(w, acts + acts', run2) && run2[0] == run[0] && run2[|acts + acts'|] == run'[|acts'|]
  {
    hide Enabled, Step;
    var acts2, run2 := acts + acts', run[..|acts|] + run';
    forall j | 0 <= j < |acts2|
      ensures acts2[j].w == w && Enabled(run2[j], acts2[j]) && run2[j + 1] == Step(run2[j], acts2[j])
    {
      if j < |acts| { assert run2[j] == run[j] && run2[j + 1] == run[j + 1]; } else { assert run2[j] == run'[j - |acts|]; }
    }
  }

  // ---------- what stays while nobody else moves ----------

  // Both snapshots of the writer are the entries of their nodes; without a parent it is on the root.
  ghost predicate UpToDate(s: State, w: nat) {
    && StateOk(s) && ForwardIterators.NoRemovals(s.tree) && w < |s.writers| && s.writers[w].At?
    && Unchanged(s.tree, s.writers[w].node)
    && match s.writers[w].parent
       case None => s.writers[w].node.level == |s.tree.uppers| && s.writers[w].node.id == s.tree.rootId
       case Some(q) => Unchanged(s.tree, q)
  }

  lemma KeepsRemovals(s: State, a: Action)
    requires StateOk(s) && ForwardIterators.NoRemovals(s.tree)
    ensures StateOk(Step(s, a)) && ForwardIterators.NoRemovals(Step(s, a).tree)
    ensures |Step(s, a).writers| == |s.writers|
  {
    hide T.Inv, T.Step, WriterOk, Carries, T.Enabled, Enabled, Acts, ForwardIterators.NoRemovals, Step;
    var b := StepRefines(s, a);
    ForwardIterators.StepKeepsLeaves(s.tree, b);
    WritersRemain(s, a);
  }

  lemma WritersRemain(s: State, a: Action)
    ensures |Step(s, a).writers| == |s.writers|
  {
    hide Acts;
  }

  // ---------- one step ahead ----------

  lemma LoadedIsUpToDate(s: State, w: nat, key: int)
    requires StateOk(s) && ForwardIterators.NoRemovals(s.tree) && w < |s.writers| && s.writers[w].Out?
    ensures Enabled(s, LoadRoot(w, key))
    ensures UpToDate(Step(s, LoadRoot(w, key)), w) && Step(s, LoadRoot(w, key)).writers[w].key == key
    ensures Step(s, LoadRoot(w, key)).tree == s.tree
  {
    LoadsSucceed(s, w, 0);
    KeepsRemovals(s, LoadRoot(w, key));
    RootEnabled(s, w, key);
    LoadsAreFresh(s, LoadRoot(w, key));
    hide StateOk, Step, Enabled, ForwardIterators.NoRemovals, Unchanged;
  }

  lemma RootEnabled(s: State, w: nat, key: int)
    requires w < |s.writers| && s.writers[w].Out? && Maps(s.tree, |s.tree.uppers|, s.tree.rootId)
    ensures Enabled(s, LoadRoot(w, key))
  {
  }

  // A finished root has no right neighbour.
  lemma RootHasNoNext(s: State, w: nat)
    requires UpToDate(s, w) && s.writers[w].finished && s.writers[w].parent.None?
    ensures BelowHigh(s.writers[w].node.node.High(), s.writers[w].key)
  {
    WriterParts(s, w);
    WriterFinished(s, w);
    TreeProofs.NothingKnown();
    NextParts(s.tree, s.writers[w].node, s.writers[w].key);
    hide StateOk, T.Inv, SnapOk, Placed, ChainOk, T.ViewOf, T.AllResolve, IL.Refers, ForwardIterators.NoRemovals, Unchanged;
  }

  lemma NextParts(s: T.State, p: Snapshot, key: int)
    requires SnapOk(s, p, key)
    ensures T.AllResolve(s) && p.level <= |s.uppers| && NextOk(s, p)
  {
    hide T.AllResolve, NextOk, BelowOk, ChainOk, T.ViewOf, IL.Refers;
  }

  lemma RightEnabled(s: State, w: nat)
    requires UpToDate(s, w) && s.writers[w].finished && !BelowHigh(s.writers[w].node.node.High(), s.writers[w].key)
    ensures Enabled(s, Right(w))
  {
    StateOfUpToDate(s, w);
    hide UpToDate, StateOk, Maps, I.IsFloor, I.Seps, Enabled, Node.High;
    LoadsSucceed(s, w, 0);
    RightIs(s, w);
  }

  lemma RightIs(s: State, w: nat)
    requires w < |s.writers| && s.writers[w].At? && s.writers[w].finished
    requires var x := s.writers[w];
             !BelowHigh(x.node.node.High(), x.key) && Maps(s.tree, x.node.level, x.node.node.High().second)
    ensures Enabled(s, Right(w))
  {
    hide Maps, I.IsFloor, I.Seps, Node.High;
  }

  // The next node lies further right.
  lemma NextIsFurther(s: T.State, p: Snapshot, key: int)
    requires T.Inv(s) && SnapOk(s, p, key) && Unchanged(s, p) && !BelowHigh(p.node.High(), key)
    ensures p.level <= |s.uppers|
    ensures LeafMachine.IndexOf(PathOf(s, p.level), p.node.High().second) > LeafMachine.IndexOf(PathOf(s, p.level), p.id)
  {
    SnapParts(s, p, key);
    var i := PositionOf(s, p);
    LevelFacts(s, p.level);
    NodeAt(s, p.level, i);
    var level := T.ViewOf(s, p.level).spans;
    hide T.Inv, T.AllResolve, T.ViewOf, SnapOk, Placed, ChainOk, T.Known, IL.Indexed, Load, PathOf, LeafMachine.IndexOf;
    assert i + 1 < |level| && Linked(level[i], level[i + 1]) by { LastIsLast(level, i); }
    NodeAt(s, p.level, i + 1);
    IndexIsPosition(s, p.level, i);
    IndexIsPosition(s, p.level, i + 1);
  }

  lemma LastIsLast(level: seq<Span>, i: nat)
    requires Chained(level) && i < |level| && level[i].high.second != INVALID_NODE_ID
    ensures i + 1 < |level| && Linked(level[i], level[i + 1])
  {
  }

  lemma IndexIsPosition(s: T.State, h: nat, i: nat)
    requires T.Inv(s) && h <= |s.uppers| && T.AllResolve(s) && i < |T.ViewOf(s, h).spans|
    ensures LeafMachine.IndexOf(PathOf(s, h), T.ViewOf(s, h).spans[i].id) == i
  {
    LevelFacts(s, h);
    NodeAt(s, h, i);
    var k := LeafMachine.IndexOf(PathOf(s, h), T.ViewOf(s, h).spans[i].id);
    if k < |PathOf(s, h)| { NodeAt(s, h, k); }
    hide T.Inv, T.AllResolve, T.ViewOf, Load, PathOf, LeafMachine.IndexOf;
  }

  // Every inner node has a floor child for every key.
  lemma {:induction false} FloorIn(seps: set<KeyNodeIDPair>, lowId: NodeID, key: int) returns (child: NodeID)
    ensures I.IsFloor(seps, lowId, key, child)
  {
    child := lowId;
    if x :| x in seps && x.first <= key {
      var below := set y | y in seps && y.first <= key;
      assert x in below;
      var m := Greatest(below);
      child := m.second;
    }
  }

  lemma {:induction false} Greatest(items: set<KeyNodeIDPair>) returns (m: KeyNodeIDPair)
    requires items != {}
    ensures m in items && forall y :: y in items ==> y.first <= m.first
  {
    var x :| x in items;
    m := x;
    if items - {x} != {} {
      var r := Greatest(items - {x});
      if r.first > x.first { m := r; }
      assert forall y :: y in items ==> y == x || y in items - {x};
    } else {
      assert forall y :: y in items ==> y == x || y in items - {x};
    }
  }

  lemma DownEnabled(s: State, w: nat) returns (child: NodeID)
    requires UpToDate(s, w) && s.writers[w].finished && BelowHigh(s.writers[w].node.node.High(), s.writers[w].key)
    requires s.writers[w].node.level > 0
    ensures Enabled(s, Down(w, child))
  {
    WriterIsInner(s, w);
    var c := s.writers[w].node.node.inner;
    child := FloorIn(I.Seps(c), c.Low().second, s.writers[w].key);
    StateOfUpToDate(s, w);
    hide UpToDate, StateOk, Maps, I.IsFloor, I.Seps, Enabled, Node.High;
    LoadsSucceed(s, w, child);
    DownIs(s, w, child);
  }

  lemma DownIs(s: State, w: nat, child: NodeID)
    requires w < |s.writers| && s.writers[w].At? && s.writers[w].finished && s.writers[w].node.level > 0
    requires var x := s.writers[w];
             && x.node.node.InnerNode? && BelowHigh(x.node.node.High(), x.key)
             && I.IsFloor(I.Seps(x.node.node.inner), x.node.node.inner.Low().second, x.key, child)
             && Maps(s.tree, x.node.level - 1, child)
    ensures Enabled(s, Down(w, child))
  {
    hide Maps, I.IsFloor, I.Seps, Node.High;
  }

  lemma StateOfUpToDate(s: State, w: nat)
    requires UpToDate(s, w)
    ensures StateOk(s) && w < |s.writers| && s.writers[w].At?
  {
    hide StateOk;
  }

  lemma WriterIsInner(s: State, w: nat)
    requires UpToDate(s, w) && s.writers[w].node.level > 0
    ensures s.writers[w].node.node.InnerNode?
  {
    WriterParts(s, w);
    hide StateOk, SnapOk, Placed, I.WellFormed, Unchanged;
  }

  // A finished writer on a leaf that covers its key can post its record.
  lemma LeafIsReached(s: State, w: nat)
    requires UpToDate(s, w) && s.writers[w].finished && BelowHigh(s.writers[w].node.node.High(), s.writers[w].key)
    requires s.writers[w].node.level == 0
    ensures OnLeaf(s.writers[w])
  {
    WriterParts(s, w);
    hide StateOk, SnapOk, Placed, L.WellFormed;
  }

  // ---------- FinishPartialSMO() ----------

  lemma OtherEntryStays(s: T.State, p: Snapshot, q: Snapshot, node: Node)
    requires Unchanged(s, p) && p.level != q.level && Maps(s, q.level, q.id) && (q.level == 0 <==> node.LeafNode?)
    ensures Unchanged(Install(s, q.level, q.id, node), p)
  {
  }

  lemma FinishedUpToDate(s: T.State, x: Writer, q: Snapshot)
    requires x.At? && x.parent == Some(q) && x.node.node.Half().Some? && q.node.InnerNode? && q.level == x.node.level + 1
    requires Unchanged(s, x.node) && Unchanged(s, q)
    ensures var r := FinishChild(s, x, q);
            r.1.At? ==> Unchanged(r.0, r.1.node) && r.1.parent.Some? && Unchanged(r.0, r.1.parent.value)
  {
    hide I.Find, Install, Load, Maps;
    var item, c := x.node.node.High(), q.node.inner;
    var f := I.Find(c, c.Low().second, item.first);
    var posted := InnerNode(I.Insert(item, x.node.node.Half().value, f.location, c));
    MapsOf(s, q);
    OtherEntryStays(s, x.node, q, posted);
    Installed(s, q.level, q.id, posted);
  }

  lemma MapsOf(s: T.State, p: Snapshot)
    requires Unchanged(s, p)
    ensures Maps(s, p.level, p.id)
  {
  }

  // After FinishPartialSMO() the writer is finished and up to date, with as many terms missing or fewer,
  // or it starts over with fewer terms missing.
  lemma FinishAhead(s: State, w: nat)
    requires UpToDate(s, w) && !s.writers[w].finished
    ensures Enabled(s, Finish(w)) && StateOk(Step(s, Finish(w))) && T.AllResolve(s.tree)
    ensures T.AllResolve(Step(s, Finish(w)).tree) && ForwardIterators.NoRemovals(Step(s, Finish(w)).tree)
    ensures var s', x := Step(s, Finish(w)), s.writers[w];
            && w < |s'.writers|
            && (if s'.writers[w].At? then
                  && UpToDate(s', w) && s'.writers[w].finished && s'.writers[w].node == x.node && s'.writers[w].key == x.key
                  && (s'.tree == s.tree || MissingTerms(s'.tree) < MissingTerms(s.tree))
                else MissingTerms(s'.tree) < MissingTerms(s.tree))
  {
    var x := s.writers[w];
    FinishEnabled(s, w);
    KeepsRemovals(s, Finish(w));
    FinishActs(s, w);
    FinishStep(s, w);
    WriterParts(s, w);
    var b := StepRefines(s, Finish(w));
    ResolvedTrees(s, Finish(w));
    hide StateOk, T.Inv, Step, T.Step, T.Enabled, Enabled, Acts, ForwardIterators.NoRemovals, WriterOk, SnapOk, Placed, ChainOk,
      Finished, FinishedOk, TermMissing, Unchanged, MissingTerms, Finishes;
    if T.Enabled(s.tree, b) { FinishLessens(s.tree, x, b); } else { DisabledStays(s.tree, b); }
    if x.node.node.Half().Some? && x.parent.Some? {
      ParentIsAbove(s.tree, x, x.parent.value);
      FinishIsChild(s.tree, x);
      FinishedUpToDate(s.tree, x, x.parent.value);
    } else if x.node.node.Half().None? {
      FinishIsNothing(s.tree, x);
    }
  }

  lemma FinishEnabled(s: State, w: nat)
    requires w < |s.writers| && s.writers[w].At? && !s.writers[w].finished
    ensures Enabled(s, Finish(w))
  {
  }

  lemma ResolvedTrees(s: State, a: Action)
    requires StateOk(s) && StateOk(Step(s, a))
    ensures T.AllResolve(s.tree) && T.AllResolve(Step(s, a).tree)
  {
    hide WriterOk, Step;
    TreeProofs.InvResolves(s.tree);
    TreeProofs.InvResolves(Step(s, a).tree);
  }

  lemma ParentIsAbove(s: T.State, x: Writer, q: Snapshot)
    requires x.At? && WriterOk(s, x) && x.parent == Some(q)
    ensures q.node.InnerNode? && q.level == x.node.level + 1
  {
    hide SnapOk, FinishedOk, RootApart;
  }

  lemma FinishIsChild(s: T.State, x: Writer)
    requires x.At? && x.node.node.Half().Some? && x.parent.Some? && x.parent.value.node.InnerNode? && x.parent.value.level > 0
    ensures Finished(s, x) == FinishChild(s, x, x.parent.value)
  {
    hide FinishChild;
  }

  lemma FinishIsNothing(s: T.State, x: Writer)
    requires x.At? && x.node.node.Half().None?
    ensures Finished(s, x) == (s, x.(finished := true))
  {
    hide FinishChild, FinishRoot;
  }

  // ---------- to the leaf ----------

  lemma SamePairs(s: State, a: Action)
    requires StateOk(s) && Enabled(s, a) && !a.InsertItem? && !a.DeleteItem?
    ensures T.Inv(s.tree) && T.Inv(Step(s, a).tree) && T.PairsIn(Step(s, a).tree) == T.PairsIn(s.tree)
  {
    hide StateOk, T.Inv, T.PairsIn, Acts, Enabled, Step, Unchanged;
    StepChangesPairs(s, a);
  }

  lemma RightAhead(s: State, w: nat)
    requires UpToDate(s, w) && s.writers[w].finished && !BelowHigh(s.writers[w].node.node.High(), s.writers[w].key)
    ensures Enabled(s, Right(w)) && UpToDate(Step(s, Right(w)), w) && Step(s, Right(w)).tree == s.tree
    ensures var x, x' := s.writers[w], Step(s, Right(w)).writers[w];
            x'.key == x.key && x'.node.level == x.node.level && Rest(Step(s, Right(w)), w) < Rest(s, w)
  {
    if s.writers[w].parent.None? { RootHasNoNext(s, w); }
    RightEnabled(s, w);
    KeepsRemovals(s, Right(w));
    LoadsAreFresh(s, Right(w));
    NextOfWriter(s, w);
    hide StateOk, Step, Enabled, ForwardIterators.NoRemovals, Unchanged, Node.High, PathOf, LeafMachine.IndexOf;
  }

  lemma NextOfWriter(s: State, w: nat)
    requires UpToDate(s, w) && !BelowHigh(s.writers[w].node.node.High(), s.writers[w].key)
    ensures var p := s.writers[w].node;
            && p.level <= |s.tree.uppers|
            && LeafMachine.IndexOf(PathOf(s.tree, p.level), p.node.High().second)
             > LeafMachine.IndexOf(PathOf(s.tree, p.level), p.id)
  {
    WriterParts(s, w);
    hide StateOk, ForwardIterators.NoRemovals, Unchanged, Node.High, PathOf, LeafMachine.IndexOf, T.Inv, SnapOk, Placed, ChainOk,
      WriterOk;
    NextIsFurther(s.tree, s.writers[w].node, s.writers[w].key);
  }

  lemma DownAhead(s: State, w: nat) returns (child: NodeID)
    requires UpToDate(s, w) && s.writers[w].finished && BelowHigh(s.writers[w].node.node.High(), s.writers[w].key)
    requires s.writers[w].node.level > 0
    ensures Enabled(s, Down(w, child)) && UpToDate(Step(s, Down(w, child)), w) && Step(s, Down(w, child)).tree == s.tree
    ensures var x, x' := s.writers[w], Step(s, Down(w, child)).writers[w];
            x'.key == x.key && x'.node.level + 1 == x.node.level
  {
    child := DownEnabled(s, w);
    KeepsRemovals(s, Down(w, child));
    LoadsAreFresh(s, Down(w, child));
    hide StateOk, Step, Enabled, ForwardIterators.NoRemovals, Unchanged, Node.High;
  }

  // The index terms that are still missing, and how far the node of the writer is from the last one of
  // its level.
  ghost function ToFinish(s: State): nat {
    if T.AllResolve(s.tree) then MissingTerms(s.tree) else 0
  }

  function Rest(s: State, w: nat): nat
    requires w < |s.writers| && s.writers[w].At?
  {
    if s.writers[w].node.level <= |s.tree.uppers| then
      var path := PathOf(s.tree, s.writers[w].node.level);
      |path| - LeafMachine.IndexOf(path, s.writers[w].node.id)
    else 0
  }

  lemma InvOf(s: State)
    requires StateOk(s)
    ensures T.Inv(s.tree)
  {
    hide T.Inv, WriterOk;
  }

  lemma FinishMoves(s: State, w: nat)
    requires UpToDate(s, w) && !s.writers[w].finished
    ensures var s' := Step(s, Finish(w));
            && Enabled(s, Finish(w)) && StateOk(s') && ForwardIterators.NoRemovals(s'.tree) && w < |s'.writers|
            && (s'.writers[w].At? ==>
                  && UpToDate(s', w) && s'.writers[w].finished && s'.writers[w].node == s.writers[w].node
                  && s'.writers[w].key == s.writers[w].key && ToFinish(s') <= ToFinish(s)
                  && (ToFinish(s') == ToFinish(s) ==> Rest(s', w) == Rest(s, w)))
            && (s'.writers[w].Out? ==> ToFinish(s') < ToFinish(s))
  {
    FinishAhead(s, w);
    hide UpToDate, StateOk, T.Inv, Enabled, Step, MissingTerms, T.AllResolve, PathOf, LeafMachine.IndexOf,
      ForwardIterators.NoRemovals;
  }

  // Steps of the writer after which it is up to date, still looks for its key, and has not changed the
  // pairs.
  ghost predicate Leads(s: State, w: nat, acts: seq<Action>, run: seq<State>) {
    && AloneRun(w, acts, run) && run[0] == s && w < |s.writers| && s.writers[w].At?
    && UpToDate(run[|acts|], w) && run[|acts|].writers[w].key == s.writers[w].key
    && T.Inv(s.tree) && T.Inv(run[|acts|].tree) && T.PairsIn(run[|acts|].tree) == T.PairsIn(s.tree)
  }

  lemma LeadsFurther(s: State, w: nat, acts: seq<Action>, run: seq<State>, acts': seq<Action>, run': seq<State>)
    requires Leads(s, w, acts, run) && Leads(run[|acts|], w, acts', run')
    ensures |run| == |acts| + 1 && |run'| == |acts'| + 1
    ensures var run2 := run[..|acts|] + run';
            Leads(s, w, acts + acts', run2) && run2[|acts + acts'|] == run'[|acts'|]
  {
    hide UpToDate, T.Inv, T.PairsIn, Enabled, Step;
    Joined(w, acts, run, acts', run');
  }

  lemma OneLeads(s: State, w: nat, a: Action)
    requires StateOk(s) && Enabled(s, a) && !a.InsertItem? && !a.DeleteItem? && a.w == w
    requires w < |s.writers| && s.writers[w].At? && UpToDate(Step(s, a), w) && Step(s, a).writers[w].key == s.writers[w].key
    ensures Leads(s, w, [a], [s, Step(s, a)])
  {
    hide UpToDate, T.Inv, T.PairsIn, Enabled, Step, StateOk, AloneRun;
    SamePairs(s, a);
    OneStep(w, s, a);
    AloneRunLength(w, [a], [s, Step(s, a)]);
  }

  lemma AloneRunLength(w: nat, acts: seq<Action>, run: seq<State>)
    requires AloneRun(w, acts, run)
    ensures |run| == |acts| + 1
  {
    hide Enabled, Step;
  }

  // The root has been replaced: the writer starts over.
  lemma RestartLeads(s: State, w: nat, a: Action) returns (acts: seq<Action>, run: seq<State>)
    requires StateOk(s) && Enabled(s, a) && !a.InsertItem? && !a.DeleteItem? && a.w == w
    requires w < |s.writers| && s.writers[w].At?
    requires StateOk(Step(s, a)) && ForwardIterators.NoRemovals(Step(s, a).tree)
    requires w < |Step(s, a).writers| && Step(s, a).writers[w].Out?
    ensures Leads(s, w, acts, run) && run[|acts|].tree == Step(s, a).tree
  {
    var s1, b := Step(s, a), LoadRoot(w, s.writers[w].key);
    hide UpToDate, T.Inv, T.PairsIn, Enabled, Step, StateOk, AloneRun, ForwardIterators.NoRemovals;
    LoadedIsUpToDate(s1, w, s.writers[w].key);
    SamePairs(s, a);
    SamePairs(s1, b);
    OneStep(w, s, a);
    OneStep(w, s1, b);
    Joined(w, [a], [s, s1], [b], [s1, Step(s1, b)]);
    acts, run := [a] + [b], [s, s1][..1] + [s1, Step(s1, b)];
    AloneRunLength(w, acts, run);
  }

  // The writer has come nearer to its leaf.
  ghost predicate Nearer(s: State, t: State, w: nat) {
    && w < |s.writers| && w < |t.writers| && s.writers[w].At? && t.writers[w].At?
    && var x, y := s.writers[w], t.writers[w];
       || ToFinish(t) < ToFinish(s)
       || (ToFinish(t) == ToFinish(s) && y.node.level < x.node.level)
       || (ToFinish(t) == ToFinish(s) && y.node.level == x.node.level && Rest(t, w) < Rest(s, w))
       || (ToFinish(t) == ToFinish(s) && y.node.level == x.node.level && Rest(t, w) == Rest(s, w) && y.finished && !x.finished)
  }

  ghost predicate AtLeaf(s: State, w: nat) {
    && w < |s.writers| && s.writers[w].At? && s.writers[w].finished && s.writers[w].node.level == 0
    && BelowHigh(s.writers[w].node.node.High(), s.writers[w].key)
  }

  lemma Ahead(s: State, w: nat) returns (acts: seq<Action>, run: seq<State>)
    requires UpToDate(s, w) && !AtLeaf(s, w)
    ensures Leads(s, w, acts, run) && Nearer(s, run[|acts|], w)
  {
    StateOfUpToDate(s, w);
    hide UpToDate, StateOk, T.Inv, T.PairsIn, Enabled, Step, T.AllResolve, Rest, Node.High, MissingTerms, ForwardIterators.NoRemovals,
      Leads;
    var x := s.writers[w];
    if !x.finished {
      FinishMoves(s, w);
      if Step(s, Finish(w)).writers[w].Out? {
        acts, run := RestartLeads(s, w, Finish(w));
        LeadsParts(s, w, acts, run);
        return;
      }
      acts, run := [Finish(w)], [s, Step(s, Finish(w))];
    } else if !BelowHigh(x.node.node.High(), x.key) {
      RightAhead(s, w);
      acts, run := [Right(w)], [s, Step(s, Right(w))];
    } else {
      var child := DownAhead(s, w);
      acts, run := [Down(w, child)], [s, Step(s, Down(w, child))];
    }
    StateOfUpToDate(run[1], w);
    OneLeads(s, w, acts[0]);
  }

  lemma LeadsParts(s: State, w: nat, acts: seq<Action>, run: seq<State>)
    requires Leads(s, w, acts, run)
    ensures |run| == |acts| + 1 && UpToDate(run[|acts|], w) && w < |run[|acts|].writers| && run[|acts|].writers[w].At?
  {
    hide T.Inv, T.PairsIn, Enabled, Step, StateOk, Unchanged, ForwardIterators.NoRemovals;
  }

  // Steps of the writer lead it to the leaf of its key.
  lemma {:induction false} ToLeaf(s: State, w: nat) returns (acts: seq<Action>, run: seq<State>)
    requires UpToDate(s, w)
    ensures Leads(s, w, acts, run) && AtLeaf(run[|acts|], w)
    decreases ToFinish(s), s.writers[w].node.level, Rest(s, w), if s.writers[w].finished then 0 else 1
  {
    if AtLeaf(s, w) {
      acts, run := [], [s];
      NoSteps(w, s);
      StateOfUpToDate(s, w);
      InvOf(s);
    } else {
      hide UpToDate, Leads, AtLeaf, Rest, ToFinish;
      StateOfUpToDate(s, w);
      var acts1, run1 := Ahead(s, w);
      LeadsParts(s, w, acts1, run1);
      var acts2, run2 := ToLeaf(run1[|acts1|], w);
      LeadsFurther(s, w, acts1, run1, acts2, run2);
      acts, run := acts1 + acts2, run1[..|acts1|] + run2;
    }
  }

  // ---------- main result ----------

  lemma AtLeafIsOnLeaf(s: State, w: nat)
    requires UpToDate(s, w) && AtLeaf(s, w)
    ensures OnLeaf(s.writers[w]) && Unchanged(s.tree, s.writers[w].node)
  {
    LeafIsReached(s, w);
    hide StateOk, OnLeaf, ForwardIterators.NoRemovals;
  }

  // On its leaf the writer posts the record, or finds that there is nothing to do.
  lemma LastStep(s: State, w: nat, value: int, insert: bool) returns (acts: seq<Action>, run: seq<State>)
    requires UpToDate(s, w) && AtLeaf(s, w)
    ensures AloneRun(w, acts, run) && run[0] == s && T.Inv(s.tree) && T.Inv(run[|acts|].tree)
    ensures var before, after, item := T.PairsIn(s.tree), T.PairsIn(run[|acts|].tree), Pair(s.writers[w].key, value);
            after == if insert then before + {item} else before - {item}
  {
    hide UpToDate, AtLeaf, StateOk, T.Inv, T.PairsIn, Step, Enabled, AloneRun;
    StateOfUpToDate(s, w);
    var a := RecordThatFits(s, w, value);
    if a.DeleteItem? == insert {
      acts, run := [], [s];
      NoSteps(w, s);
    } else {
      acts, run := [a], [s, Step(s, a)];
      OneStep(w, s, a);
    }
    AloneRunLength(w, acts, run);
  }

  // Either a delete of the pair takes place, and it was present, or an insert, and it was absent.
  lemma RecordThatFits(s: State, w: nat, value: int) returns (a: Action)
    requires UpToDate(s, w) && AtLeaf(s, w)
    ensures (a == InsertItem(w, value) || a == DeleteItem(w, value)) && Enabled(s, a)
    ensures T.Inv(s.tree) && T.Inv(Step(s, a).tree) && w < |s.writers| && s.writers[w].At?
    ensures var before, after, item := T.PairsIn(s.tree), T.PairsIn(Step(s, a).tree), Pair(s.writers[w].key, value);
            if a.InsertItem? then item !in before && after == before + {item} else item in before && after == before - {item}
  {
    AtLeafIsOnLeaf(s, w);
    StateOfUpToDate(s, w);
    hide UpToDate, AtLeaf, StateOk, OnLeaf, Unchanged, T.Inv, T.PairsIn, Step, L.Locate, Enabled;
    if L.Locate(s.writers[w].node.node.leaf, Pair(s.writers[w].key, value)).found {
      a := DeleteItem(w, value);
    } else {
      a := InsertItem(w, value);
    }
    RecordEnabled(s, w, value, a);
    StepChangesPairs(s, a);
  }

  lemma RecordEnabled(s: State, w: nat, value: int, a: Action)
    requires w < |s.writers| && OnLeaf(s.writers[w])
    requires a == if L.Locate(s.writers[w].node.node.leaf, Pair(s.writers[w].key, value)).found then DeleteItem(w, value)
                  else InsertItem(w, value)
    ensures Enabled(s, a)
  {
    hide L.Locate, Node.High;
  }

  lemma StartsOver(s: State, w: nat) returns (acts: seq<Action>, run: seq<State>)
    requires StateOk(s) && ForwardIterators.NoRemovals(s.tree) && w < |s.writers|
    ensures AloneRun(w, acts, run) && run[0] == s
    ensures var t := run[|acts|];
            && StateOk(t) && ForwardIterators.NoRemovals(t.tree) && w < |t.writers| && t.writers[w].Out?
            && T.Inv(s.tree) && T.Inv(t.tree) && T.PairsIn(t.tree) == T.PairsIn(s.tree)
  {
    InvOf(s);
    if s.writers[w].Out? {
      acts, run := [], [s];
      NoSteps(w, s);
    } else {
      var a := Restart(w);
      KeepsRemovals(s, a);
      hide StateOk, ForwardIterators.NoRemovals, T.Inv, T.PairsIn;
      SamePairs(s, a);
      OneStep(w, s, a);
      acts, run := [a], [s, Step(s, a)];
    }
  }

  lemma ReachedState(n: nat, acts: seq<Action>, run: seq<State>)
    requires IsRun(n, acts, run)
    ensures |run| == |acts| + 1 && StateOk(run[|acts|]) && |run[|acts|].writers| == n
    ensures ForwardIterators.NoRemovals(run[|acts|].tree)
  {
    StatesAreOk(n, acts, run, |acts|);
    hide StateOk, T.IsRun, Step, ForwardIterators.NoRemovals;
    var steps := WritersRefineTheTree(n, acts, run);
    LastOfRun(steps, Trees(run));
    ForwardIterators.NeverRemoved(steps, Trees(run), |steps|);
  }

  lemma LastOfRun(steps: seq<T.Action>, trees: seq<T.State>)
    requires T.IsRun(steps, trees)
    ensures |trees| == |steps| + 1
  {
    hide T.Step;
  }

  lemma InsertOrDeleteAlone(s: State, w: nat, item: KeyValuePair, insert: bool)
    returns (more: seq<Action>, states: seq<State>)
    requires StateOk(s) && ForwardIterators.NoRemovals(s.tree) && w < |s.writers|
    ensures AloneRun(w, more, states) && states[0] == s && T.Inv(s.tree) && T.Inv(states[|more|].tree)
    ensures var before, after := T.PairsIn(s.tree), T.PairsIn(states[|more|].tree);
            after == if insert then before + {item} else before - {item}
  {
    hide StateOk, ForwardIterators.NoRemovals, T.Inv, T.PairsIn, AloneRun, Step, Enabled, UpToDate, AtLeaf, Leads;
    var acts1, run1 := StartsOver(s, w);
    AloneRunLength(w, acts1, run1);
    var s1, a := run1[|acts1|], LoadRoot(w, item.first);
    LoadedIsUpToDate(s1, w, item.first);
    SamePairs(s1, a);
    OneStep(w, s1, a);
    Joined(w, acts1, run1, [a], [s1, Step(s1, a)]);
    var acts2, run2 := acts1 + [a], run1[..|acts1|] + [s1, Step(s1, a)];
    AloneRunLength(w, acts2, run2);
    var acts3, run3 := ToLeaf(run2[|acts2|], w);
    LeadsMeans(run2[|acts2|], w, acts3, run3);
    var acts4, run4 := LastStep(run3[|acts3|], w, item.second, insert);
    AloneRunLength(w, acts4, run4);
    Joined(w, acts3, run3, acts4, run4);
    var acts5, run5 := acts3 + acts4, run3[..|acts3|] + run4;
    AloneRunLength(w, acts5, run5);
    Joined(w, acts2, run2, acts5, run5);
    more, states := acts2 + acts5, run2[..|acts2|] + run5;
    AloneRunLength(w, more, states);
  }

  lemma LeadsMeans(s: State, w: nat, acts: seq<Action>, run: seq<State>)
    requires Leads(s, w, acts, run)
    ensures AloneRun(w, acts, run) && |run| == |acts| + 1 && run[0] == s && w < |s.writers| && s.writers[w].At?
    ensures UpToDate(run[|acts|], w) && w < |run[|acts|].writers| && run[|acts|].writers[w].At?
    ensures run[|acts|].writers[w].key == s.writers[w].key
    ensures T.Inv(s.tree) && T.Inv(run[|acts|].tree) && T.PairsIn(run[|acts|].tree) == T.PairsIn(s.tree)
  {
    LeadsParts(s, w, acts, run);
    hide UpToDate, T.Inv, T.PairsIn, AloneRun;
  }

  // From every state that any number of writers reach, with any number of splits half finished, a writer
  // that runs alone gets its insert or delete done: steps of its own, each of which takes place, add
  // exactly its pair to the tree, or take exactly its pair away.
  lemma AWriterAloneGetsItDone(n: nat, acts: seq<Action>, run: seq<State>, w: nat, item: KeyValuePair, insert: bool)
    returns (more: seq<Action>, states: seq<State>)
    requires IsRun(n, acts, run) && w < n
    ensures AloneRun(w, more, states) && states[0] == run[|acts|]
    ensures T.Inv(run[|acts|].tree) && T.Inv(states[|more|].tree)
    ensures var before, after := T.PairsIn(run[|acts|].tree), T.PairsIn(states[|more|].tree);
            after == if insert then before + {item} else before - {item}
  {
    ReachedState(n, acts, run);
    hide StateOk, ForwardIterators.NoRemovals, T.Inv, T.PairsIn, AloneRun, IsRun;
    more, states := InsertOrDeleteAlone(run[|acts|], w, item, insert);
  }
}
