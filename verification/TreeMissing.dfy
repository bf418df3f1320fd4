// How many index terms the tree misses, and that FinishPartialSMO() makes them fewer.
module TreeMissing {
  import opened Options
  import opened Pairs
  import opened Levels
  import opened TreeWriters
  import opened TreeWriterProofs
  import opened TreeRefinement
  import opened TreeWriterEffects
  import I = InnerChain
  import IL = InnerLevel
  import T = TreeMachine
  import TreeEffects
  import TreeProofs
  import TreeResults

  // ---------- counting missing index terms ----------

  // The nodes before position k, other than the first, that the level above does not know.
  ghost function Missing(parents: seq<I.Chain>, level: seq<Span>, k: nat): nat
    requires k <= |level|
  {
    if k <= 1 then 0
    else Missing(parents, level, k - 1) + (if IL.Refers(parents, IL.PairOf(level[k - 1])) then 0 else 1)
  }

  ghost function MissingOn(s: T.State, h: nat): nat
    requires T.AllResolve(s) && h <= |s.uppers|
  {
    var level := T.ViewOf(s, h).spans;
    Missing(T.Parents(s, h), level, |level|)
  }

  // Those of the levels below h.
  ghost function MissingBelow(s: T.State, h: nat): nat
    requires T.AllResolve(s) && h <= |s.uppers| + 1
  {
    if h == 0 then 0 else MissingBelow(s, h - 1) + MissingOn(s, h - 1)
  }

  ghost function MissingTerms(s: T.State): nat
    requires T.AllResolve(s)
  {
    MissingBelow(s, |s.uppers| + 1)
  }

  lemma {:induction false} OneLess(parents: seq<I.Chain>, parents': seq<I.Chain>, level: seq<Span>, k: nat,
                                   x: KeyNodeIDPair, m: nat)
    requires k <= |level| && 1 <= m < |level| && x == IL.PairOf(level[m])
    requires forall i, j :: 0 <= i < j < |level| ==> level[i].id != level[j].id
    requires !IL.Refers(parents, x)
    requires forall y :: IL.Refers(parents', y) <==> IL.Refers(parents, y) || y == x
    ensures Missing(parents, level, k) == Missing(parents', level, k) + (if m < k then 1 else 0)
  {
    hide IL.Refers;
    if k > 1 {
      OneLess(parents, parents', level, k - 1, x, m);
      if k - 1 != m { assert level[k - 1].id != level[m].id; }
    }
  }

  lemma {:induction false} AsMany(parents: seq<I.Chain>, parents': seq<I.Chain>, level: seq<Span>, k: nat)
    requires k <= |level| && forall y :: IL.Refers(parents', y) <==> IL.Refers(parents, y)
    ensures Missing(parents', level, k) == Missing(parents, level, k)
  {
    hide IL.Refers;
    if k > 1 { AsMany(parents, parents', level, k - 1); }
  }

  // The two states differ on level h in that the second one knows the item, if `here`.
  ghost predicate LearnsItem(s: T.State, s': T.State, h: nat, item: KeyNodeIDPair, here: bool) {
    && T.AllResolve(s) && T.AllResolve(s') && h <= |s.uppers| && h <= |s'.uppers|
    && T.ViewOf(s', h).spans == T.ViewOf(s, h).spans
    && forall y :: IL.Refers(T.Parents(s', h), y) <==> IL.Refers(T.Parents(s, h), y) || (here && y == item)
  }

  // The node of the writer is the one whose term is posted.
  lemma FinishPosition(s: T.State, x: Writer, b: T.Action) returns (i: nat)
    requires T.Inv(s) && x.At? && Finishes(s, x, b) && SnapOk(s, x.node, x.key)
    ensures T.AllResolve(s) && x.node.level <= |s.uppers| && i + 1 < |T.ViewOf(s, x.node.level).spans|
    ensures IL.PairOf(T.ViewOf(s, x.node.level).spans[i + 1]) == x.node.node.High()
    ensures if b.PostTerm? then b.i == i else i == 0
  {
    hide T.Inv, T.AllResolve, T.ViewOf, T.Parents, IL.Refers, SnapOk;
    i := SplitIsNext(s, x.node, x.key);
    PositionIsOne(s, x.node, if b.PostTerm? then b.i else 0, i);
  }

  lemma KnownAfter(s: T.State, x: Writer, b: T.Action, i: nat, h: nat, y: KeyNodeIDPair)
    requires T.Inv(s) && x.At? && Finishes(s, x, b) && T.Enabled(s, b) && T.AllResolve(s) && h <= |s.uppers|
    requires x.node.level <= |s.uppers| && i + 1 < |T.ViewOf(s, x.node.level).spans|
    requires IL.PairOf(T.ViewOf(s, x.node.level).spans[i + 1]) == x.node.node.High()
    requires if b.PostTerm? then b.i == i else i == 0
    ensures T.AllResolve(T.Step(s, b)) && h <= |T.Step(s, b).uppers|
    ensures IL.Refers(T.Parents(T.Step(s, b), h), y)
       <==> IL.Refers(T.Parents(s, h), y) || (h == x.node.level && y == x.node.node.High())
  {
    hide T.Inv, T.AllResolve, T.ViewOf, T.Parents, IL.Refers, T.Step, T.Enabled, TreeEffects.RefersAfter, Finishes, Node.High;
    TreeEffects.StepReferences(s, b, h, y);
    AddedItem(s, x, b, i, h, y);
  }

  lemma SpansStay(s: T.State, x: Writer, b: T.Action, h: nat)
    requires T.Inv(s) && x.At? && Finishes(s, x, b) && h <= |s.uppers|
    ensures T.AllResolve(s) && T.AllResolve(T.Step(s, b)) && h <= |T.Step(s, b).uppers|
    ensures T.ViewOf(T.Step(s, b), h).spans == T.ViewOf(s, h).spans
  {
    hide T.Inv, T.AllResolve, T.ViewOf, T.Step, T.Enabled, Finishes, TreeResults.HasSpansAfter;
    TreeResults.StepKeepsInv(s, b);
    TreeResults.StepSpans(s, b, h);
    FinishKeepsSpans(s, x, b, h);
  }

  // What the level knows after the step of FinishPartialSMO().
  lemma FinishReferences(s: T.State, x: Writer, b: T.Action, h: nat) returns (i: nat)
    requires T.Inv(s) && x.At? && Finishes(s, x, b) && T.Enabled(s, b) && SnapOk(s, x.node, x.key) && h <= |s.uppers|
    ensures T.AllResolve(s) && x.node.level <= |s.uppers| && i + 1 < |T.ViewOf(s, x.node.level).spans|
    ensures IL.PairOf(T.ViewOf(s, x.node.level).spans[i + 1]) == x.node.node.High()
    ensures LearnsItem(s, T.Step(s, b), h, x.node.node.High(), h == x.node.level)
  {
    hide T.Inv, T.AllResolve, T.ViewOf, T.Parents, IL.Refers, SnapOk, T.Step, T.Enabled, Finishes, Node.High;
    i := FinishPosition(s, x, b);
    SpansStay(s, x, b, h);
    forall y
      ensures IL.Refers(T.Parents(T.Step(s, b), h), y)
         <==> IL.Refers(T.Parents(s, h), y) || (h == x.node.level && y == x.node.node.High())
    {
      KnownAfter(s, x, b, i, h, y);
    }
  }

  lemma LearnedItem(s: T.State, s': T.State, h: nat, item: KeyNodeIDPair, i: nat)
    requires T.Inv(s) && LearnsItem(s, s', h, item, true) && !IL.Refers(T.Parents(s, h), item)
    requires i + 1 < |T.ViewOf(s, h).spans| && IL.PairOf(T.ViewOf(s, h).spans[i + 1]) == item
    ensures MissingOn(s, h) == MissingOn(s', h) + 1
  {
    LevelFacts(s, h);
    hide T.Inv, T.AllResolve, T.ViewOf, T.Parents, IL.Refers, Chained, IL.Indexed;
    var level := T.ViewOf(s, h).spans;
    OneLess(T.Parents(s, h), T.Parents(s', h), level, |level|, item, i + 1);
  }

  lemma NothingLearned(s: T.State, s': T.State, h: nat, item: KeyNodeIDPair)
    requires LearnsItem(s, s', h, item, false)
    ensures MissingOn(s, h) == MissingOn(s', h)
  {
    hide T.AllResolve, T.ViewOf, T.Parents, IL.Refers;
    var level := T.ViewOf(s, h).spans;
    AsMany(T.Parents(s, h), T.Parents(s', h), level, |level|);
  }

  lemma Learns(s: T.State, s': T.State, h: nat, item: KeyNodeIDPair, here: bool)
    requires LearnsItem(s, s', h, item, here)
    ensures T.AllResolve(s) && T.AllResolve(s') && h <= |s.uppers| && h <= |s'.uppers|
  {
    hide T.AllResolve, IL.Refers;
  }

  // The step of FinishPartialSMO() takes one term of one level off what is missing.
  lemma FinishOnLevel(s: T.State, x: Writer, b: T.Action, h: nat)
    requires T.Inv(s) && x.At? && Finishes(s, x, b) && T.Enabled(s, b) && SnapOk(s, x.node, x.key) && h <= |s.uppers|
    ensures T.AllResolve(s) && T.AllResolve(T.Step(s, b)) && h <= |T.Step(s, b).uppers|
    ensures MissingOn(s, h) == MissingOn(T.Step(s, b), h) + (if h == x.node.level then 1 else 0)
  {
    MissesTheItem(s, x, b);
    hide T.Inv, T.AllResolve, T.ViewOf, T.Parents, IL.Refers, SnapOk, T.Step, T.Enabled, Finishes, MissingOn, LearnsItem;
    var i := FinishReferences(s, x, b, h);
    Learns(s, T.Step(s, b), h, x.node.node.High(), h == x.node.level);
    if h == x.node.level {
      LearnedItem(s, T.Step(s, b), h, x.node.node.High(), i);
    } else {
      NothingLearned(s, T.Step(s, b), h, x.node.node.High());
    }
  }

  lemma MissesTheItem(s: T.State, x: Writer, b: T.Action)
    requires x.At? && Finishes(s, x, b)
    ensures T.AllResolve(s) && x.node.level <= |s.uppers| && !IL.Refers(T.Parents(s, x.node.level), x.node.node.High())
  {
    hide T.AllResolve, T.Parents, IL.Refers;
  }

  lemma FinishKeepsSpans(s: T.State, x: Writer, b: T.Action, h: nat)
    requires T.AllResolve(s) && T.AllResolve(T.Step(s, b)) && x.At? && Finishes(s, x, b) && h <= |s.uppers|
    requires TreeResults.HasSpansAfter(s, b, h)
    ensures h <= |T.Step(s, b).uppers| && T.ViewOf(T.Step(s, b), h).spans == T.ViewOf(s, h).spans
  {
    hide T.AllResolve, T.ViewOf, T.Step, T.Enabled, TermMissing;
  }

  lemma AddedItem(s: T.State, x: Writer, b: T.Action, i: nat, h: nat, y: KeyNodeIDPair)
    requires T.Inv(s) && x.At? && Finishes(s, x, b) && T.Enabled(s, b) && T.AllResolve(s) && h <= |s.uppers|
    requires x.node.level <= |s.uppers| && i + 1 < |T.ViewOf(s, x.node.level).spans|
    requires IL.PairOf(T.ViewOf(s, x.node.level).spans[i + 1]) == x.node.node.High()
    requires if b.PostTerm? then b.i == i else i == 0
    requires T.AllResolve(T.Step(s, b)) && TreeEffects.RefersAfter(s, b, h, y)
    ensures h <= |T.Step(s, b).uppers|
    ensures IL.Refers(T.Parents(T.Step(s, b), h), y)
       <==> IL.Refers(T.Parents(s, h), y) || (h == x.node.level && y == x.node.node.High())
  {
    hide T.Inv, T.AllResolve, T.ViewOf, T.Parents, IL.Refers, T.Step, T.Enabled, TermMissing;
  }

  lemma BothResolve(s: T.State, b: T.Action)
    requires T.Inv(s)
    ensures T.AllResolve(s) && T.AllResolve(T.Step(s, b)) && |s.uppers| <= |T.Step(s, b).uppers|
  {
    TreeProofs.InvResolves(s);
    TreeResults.StepKeepsInv(s, b);
    TreeProofs.InvResolves(T.Step(s, b));
    TreeResults.RootIsFirst(s);
    TreeResults.LevelsAfter(s, b);
  }

  lemma {:induction false} FinishBelow(s: T.State, x: Writer, b: T.Action, h: nat)
    requires T.Inv(s) && x.At? && Finishes(s, x, b) && T.Enabled(s, b) && SnapOk(s, x.node, x.key) && h <= |s.uppers| + 1
    ensures T.AllResolve(s) && T.AllResolve(T.Step(s, b)) && h <= |T.Step(s, b).uppers| + 1
    ensures MissingBelow(s, h) == MissingBelow(T.Step(s, b), h) + (if x.node.level < h then 1 else 0)
  {
    hide T.Inv, T.AllResolve, T.Step, T.Enabled, Finishes, SnapOk, MissingOn;
    BothResolve(s, b);
    if h > 0 {
      FinishBelow(s, x, b, h - 1);
      FinishOnLevel(s, x, b, h - 1);
    }
  }

  lemma NewLevelMissesNothing(s: T.State)
    requires T.Inv(s) && T.Enabled(s, T.GrowRoot) && T.Inv(T.Step(s, T.GrowRoot))
    ensures var s' := T.Step(s, T.GrowRoot);
            T.AllResolve(s') && |s'.uppers| == |s.uppers| + 1 && MissingOn(s', |s'.uppers|) == 0
  {
    var s' := T.Step(s, T.GrowRoot);
    TreeProofs.InvResolves(s');
    Width(s', |s'.uppers|);
    hide T.Inv, T.AllResolve, T.ViewOf, IL.Refers, T.Enabled;
  }

  // A new level misses nothing, so that all that is missing is on the old levels.
  lemma TermsAfter(s: T.State, b: T.Action)
    requires T.Inv(s) && T.Enabled(s, b)
    ensures T.AllResolve(T.Step(s, b)) && |s.uppers| <= |T.Step(s, b).uppers|
    ensures MissingTerms(T.Step(s, b)) == MissingBelow(T.Step(s, b), |s.uppers| + 1)
  {
    BothResolve(s, b);
    hide T.Inv, T.AllResolve, T.Step, T.Enabled, MissingOn;
    TreeResults.RootIsFirst(s);
    TreeResults.LevelsAfter(s, b);
    TreeResults.StepKeepsInv(s, b);
    if b.GrowRoot? { NewLevelMissesNothing(s); }
  }

  lemma FinishLessens(s: T.State, x: Writer, b: T.Action)
    requires T.Inv(s) && x.At? && Finishes(s, x, b) && T.Enabled(s, b) && SnapOk(s, x.node, x.key)
    ensures T.AllResolve(s) && T.AllResolve(T.Step(s, b)) && MissingTerms(T.Step(s, b)) < MissingTerms(s)
  {
    LevelOfWriter(s, x, b);
    hide T.Inv, T.AllResolve, T.Step, T.Enabled, Finishes, SnapOk, MissingOn, MissingBelow;
    TermsAfter(s, b);
    FinishBelow(s, x, b, |s.uppers| + 1);
  }

  lemma LevelOfWriter(s: T.State, x: Writer, b: T.Action)
    requires x.At? && Finishes(s, x, b)
    ensures x.node.level <= |s.uppers|
  {
    hide T.AllResolve, IL.Refers;
  }
}
