// How the tree gets to a leaf whose lookup misses a value (bwtree.h:4049-4067): a leaf is split, its
// right half is removed and merged back, and a key in between is inserted before anybody consolidates.
module LeafReadCounterexample {
  import opened Pairs
  import opened LeafChain
  import opened LeafConsolidation
  import opened LeafLevel
  import opened LeafMachine
  import opened Levels
  import LeafRead
  import opened Options

  const BOTH: seq<KeyValuePair> := [Pair(10, 1), Pair(20, 7)]
  const NONE: KeyNodeIDPair := Pair(0, INVALID_NODE_ID)
  const EMPTY_LEAF := Leaf(NONE, NONE, [])
  const ONE_ITEM := Insert(Pair(10, 1), IndexPair(0, false), EMPTY_LEAF)
  const TWO_ITEMS := Insert(Pair(20, 7), IndexPair(0, false), ONE_ITEM)
  const WHOLE := Leaf(NONE, NONE, BOTH)
  const HALF := Split(Pair(20, 3), 1, WHOLE)
  const JOINED := Merge(Pair(20, 3), LeafRead.RIGHT, LeafRead.LEFT)

  const ACTIONS: seq<Action> :=
    [InsertItem(2, Pair(10, 1)), InsertItem(2, Pair(20, 7)), Consolidate(2, BOTH), SplitLeaf(2, 1),
     Consolidate(2, [Pair(10, 1)]), RemoveLeaf(3), MergeLeaf(2, 3), InsertItem(2, Pair(15, 5))]

  function Alone(c: Chain): State {
    State(map[2 := c], [2], 3)
  }

  function Pairwise(c: Chain, d: Chain, path: seq<NodeID>): State {
    State(map[2 := c, 3 := d], path, 4)
  }

  const RUN: seq<State> :=
    [Alone(EMPTY_LEAF), Alone(ONE_ITEM), Alone(TWO_ITEMS), Alone(WHOLE),
     Pairwise(HALF, LeafRead.RIGHT, [2, 3]), Pairwise(LeafRead.LEFT, LeafRead.RIGHT, [2, 3]),
     Pairwise(LeafRead.LEFT, Remove(3, LeafRead.RIGHT), [2, 3]), Pairwise(JOINED, Remove(3, LeafRead.RIGHT), [2]),
     Pairwise(LeafRead.MERGED, Remove(3, LeafRead.RIGHT), [2])]

  lemma FirstInserts()
    ensures Step(Alone(EMPTY_LEAF), ACTIONS[0]) == Alone(ONE_ITEM)
    ensures Step(Alone(ONE_ITEM), ACTIONS[1]) == Alone(TWO_ITEMS)
  {
  }

  lemma FirstConsolidation()
    ensures Step(Alone(TWO_ITEMS), ACTIONS[2]) == Alone(WHOLE)
  {
    assert ToSet(BOTH) == Contents(TWO_ITEMS);
  }

  lemma SplitStep()
    ensures Step(Alone(WHOLE), ACTIONS[3]) == Pairwise(HALF, LeafRead.RIGHT, [2, 3])
  {
    assert BOTH[1..] == LeafRead.RIGHT.items;
    assert IndexOf([2], 2) == 0;
  }

  lemma SecondConsolidation()
    ensures Step(Pairwise(HALF, LeafRead.RIGHT, [2, 3]), ACTIONS[4]) == Pairwise(LeafRead.LEFT, LeafRead.RIGHT, [2, 3])
  {
    assert BOTH[0] == Pair(10, 1) && BOTH[1] == Pair(20, 7);
    assert ToSet([Pair(10, 1)]) == Contents(HALF);
  }

  lemma RemoveAndMerge()
    ensures var removed := Remove(3, LeafRead.RIGHT);
            && Step(Pairwise(LeafRead.LEFT, LeafRead.RIGHT, [2, 3]), ACTIONS[5]) == Pairwise(LeafRead.LEFT, removed, [2, 3])
            && Step(Pairwise(LeafRead.LEFT, removed, [2, 3]), ACTIONS[6]) == Pairwise(JOINED, removed, [2])
  {
    assert IndexOf([2, 3], 2) == 0;
  }

  lemma LastInsert()
    ensures var removed := Remove(3, LeafRead.RIGHT);
            Step(Pairwise(JOINED, removed, [2]), ACTIONS[7]) == Pairwise(LeafRead.MERGED, removed, [2])
  {
    assert LowerBound(LeafRead.LEFT.items, 15) == 1;
    assert Locate(JOINED, Pair(15, 5)) == Existence(false, IndexPair(1, false));
  }

  // In the last state of this run the tree contains (20, 7), and the lookup of 20 in its leaf returns
  // nothing.
  lemma LookupMissesAValueInARun()
    ensures IsRun(ACTIONS, RUN)
    ensures var s := RUN[|ACTIONS|];
            && Inv(s) && Pair(20, 7) in Contained(s) && s.path == [2]
            && LeafRead.ReadFrom(s.table[2], 20, LeafRead.WHOLE_ARRAY, [], []) == Some([])
  {
    FirstInserts();
    FirstConsolidation();
    SplitStep();
    SecondConsolidation();
    RemoveAndMerge();
    LastInsert();
    hide Step, Inv, Contained;
    assert RUN[0] == Initial();
    forall j | 0 <= j < |ACTIONS| ensures RUN[j + 1] == Step(RUN[j], ACTIONS[j]) {}
    InvAlways(ACTIONS, RUN, |ACTIONS|);
    LeafRead.LeafReadMissesBehindAMerge();
    var s := RUN[|ACTIONS|];
    var i := LeavesPartitionTheKeys(ACTIONS, RUN, |ACTIONS|, 20);
    assert i == 0;
  }
}
