// How calls of Insert() and Delete() proceed, told by the actions of the run alone.
module SetOpsHistory {
  import opened Options
  import opened Pairs
  import opened SetOps
  import L = LeafChain
  import M = LeafMachine
  import Levels
  import LeafLevel

  predicate Moves(a: Action, t: nat) {
    !a.Change? && a.t == t
  }

  // The last step of thread t.
  ghost function LastOwn(acts: seq<Action>, run: seq<State>, t: nat, j: nat): Option<nat>
    requires j <= |acts| && |run| == |acts| + 1
  {
    if j == 0 then None
    else if Moves(acts[j - 1], t) && Enabled(run[j - 1], acts[j - 1]) then Some(j - 1)
    else LastOwn(acts, run, t, j - 1)
  }

  // The pair is in the set, for an insert, or not, for a delete: the call has nothing to do.
  ghost predicate Pointless(s: State, op: Op)
    requires M.Inv(s.tree)
  {
    op.item in M.Contained(s.tree) <==> op.Insert?
  }

  // What a thread is at after a step of its own. A search that finds nothing to do ends the call; a
  // compare-and-swap succeeds exactly if the chain that was read is still the current one.
  ghost predicate After(s: State, a: Action, th: Thread)
    requires M.Inv(s.tree)
  {
    match a
    case Call(_, op) => th.Searching? && th.op == op
    case Look(t, _) =>
      && t < |s.threads| && s.threads[t].Searching?
      && (if Pointless(s, s.threads[t].op) then th.Done? && !th.result else th.Ready?) && th.op == s.threads[t].op
    case Cas(t) =>
      && t < |s.threads| && s.threads[t].Ready? && s.threads[t].id in s.tree.table
      && (if s.tree.table[s.threads[t].id] == s.threads[t].snapshot then th.Counting? else th.Searching?)
      && th.op == s.threads[t].op
    case Retry(t) => t < |s.threads| && s.threads[t].Ready? && th.Searching? && th.op == s.threads[t].op
    case Count(t) => t < |s.threads| && s.threads[t].Counting? && th.Done? && th.result && th.op == s.threads[t].op
    case Return(_) => th.Idle?
    case Change(_) => false
  }

  lemma StepAfter(s: State, a: Action)
    requires Inv(s) && Enabled(s, a) && !a.Change?
    ensures M.Inv(s.tree) && a.t < |Step(s, a).threads| && After(s, a, Step(s, a).threads[a.t])
  {
    if a.Look? { LookIsExact(s.tree, a.id, s.threads[a.t].op.item); }
    hide M.Inv, M.Contained, L.Locate, M.Step, PairsNow;
  }

  lemma OtherThreads(s: State, a: Action, t: nat)
    requires |s.hist| > 0 && t < |s.threads| && (!Moves(a, t) || !Enabled(s, a))
    ensures t < |Step(s, a).threads| && Step(s, a).threads[t] == s.threads[t]
  {
    hide M.Inv, M.Contained, L.Locate, M.Step, PairsNow;
  }

  lemma MoverAfter(s: State, a: Action, t: nat)
    requires Inv(s) && Enabled(s, a) && Moves(a, t)
    ensures M.Inv(s.tree) && t < |Step(s, a).threads| && After(s, a, Step(s, a).threads[t])
  {
    hide Inv, Enabled, After, Step, M.Inv;
    StepAfter(s, a);
  }

  lemma IdleAtFirst(n: nat, acts: seq<Action>, run: seq<State>, t: nat)
    requires IsRun(n, acts, run) && t < n
    ensures |run[0].threads| == n && run[0].threads[t].Idle?
  {
  }

  // The state of a thread is the one that its last step leads to, whatever the others did since.
  lemma {:induction false} ThreadFollowsItsSteps(n: nat, acts: seq<Action>, run: seq<State>, t: nat, j: nat)
    requires IsRun(n, acts, run) && j <= |acts| && t < n
    ensures |run| == |acts| + 1 && |run[j].threads| == n
    ensures var i := LastOwn(acts, run, t, j);
            if i.None? then run[j].threads[t].Idle?
            else
              && i.value < j && M.Inv(run[i.value].tree) && After(run[i.value], acts[i.value], run[j].threads[t])
              && t < |run[i.value + 1].threads| && run[j].threads[t] == run[i.value + 1].threads[t]
  {
    hide Inv, M.Inv, M.Contained, Step, After, Enabled, IsRun, Moves;
    PrefixIsRun(n, acts, run);
    InvAlways(n, acts, run, j);
    if j == 0 {
      IdleAtFirst(n, acts, run, t);
    } else {
      ThreadFollowsItsSteps(n, acts, run, t, j - 1);
      RunStep(n, acts, run, j - 1);
      if Moves(acts[j - 1], t) && Enabled(run[j - 1], acts[j - 1]) {
        MoverAfter(run[j - 1], acts[j - 1], t);
      } else {
        OtherThreads(run[j - 1], acts[j - 1], t);
      }
    }
  }

  // ---------- progress ----------

  // A successful compare-and-swap changes the set as its call promises.
  lemma CasChangesTheSet(n: nat, acts: seq<Action>, run: seq<State>, t: nat, j: nat)
    requires IsRun(n, acts, run) && j < |acts| && acts[j] == Cas(t) && Enabled(run[j], Cas(t))
    requires run[j].tree.table[run[j].threads[t].id] == run[j].threads[t].snapshot
    ensures M.Inv(run[j].tree) && M.Inv(run[j + 1].tree)
    ensures var op, before, after := run[j].threads[t].op, M.Contained(run[j].tree), M.Contained(run[j + 1].tree);
            !Pointless(run[j], op) && after == if op.Insert? then before + {op.item} else before - {op.item}
  {
    InvAlways(n, acts, run, j);
    CasTakesEffect(run[j], t);
    InvTree(run[j]);
    SameTree(run[j], Cas(t));
    hide Inv, M.Inv, M.Contained, Next, Step;
  }

  lemma SameTree(s: State, a: Action)
    requires |s.hist| > 0
    ensures Step(s, a).tree == Next(s, a).tree
    ensures M.Inv(Next(s, a).tree) ==> PairsNow(Next(s, a).tree) == M.Contained(Next(s, a).tree)
  {
    hide Next, M.Inv, M.Contained;
  }

  // The search can go on in every state in which the leaf of the key is not being removed.
  lemma SearchGoesOn(n: nat, acts: seq<Action>, run: seq<State>, t: nat, j: nat) returns (id: NodeID)
    requires IsRun(n, acts, run) && j <= |acts| && t < |run[j].threads| && run[j].threads[t].Searching?
    ensures id in run[j].tree.path && id in run[j].tree.table
    ensures L.InRange(run[j].tree.table[id], run[j].threads[t].op.item.first)
    ensures run[j].tree.table[id].Remove? || Enabled(run[j], Look(t, id))
  {
    InvAlways(n, acts, run, j);
    InvTree(run[j]);
    id := LeafOfKey(run[j].tree, run[j].threads[t].op.item.first);
  }

  lemma LeafOfKey(tree: M.State, key: int) returns (id: NodeID)
    requires M.Inv(tree)
    ensures id in tree.path && id in tree.table && L.InRange(tree.table[id], key)
  {
    var nodes := Levels.Nodes(tree.table, tree.path);
    var i := LeafLevel.CoverOf(tree.path, nodes, key);
    LeafLevel.CoversIsInRange(tree.path, nodes, i, key);
    id := tree.path[i];
  }

  lemma LookStep(s: State, t: nat, id: NodeID)
    requires Inv(s) && Enabled(s, Look(t, id))
    ensures M.Inv(s.tree) && t < |Step(s, Look(t, id)).threads| && Step(s, Look(t, id)).tree == s.tree
    ensures var th, th' := s.threads[t], Step(s, Look(t, id)).threads[t];
            if Pointless(s, th.op) then th'.Done? && !th'.result
            else th' == Ready(th.op, th.begin, id, s.tree.table[id])
  {
    LookIsExact(s.tree, id, s.threads[t].op.item);
    hide M.Inv, M.Contained, L.Locate, M.Step, PairsNow;
  }

  lemma CountStep(s: State, t: nat)
    requires |s.hist| > 0 && Enabled(s, Count(t))
    ensures var s' := Step(s, Count(t));
            t < |s'.threads| && s'.threads[t].Done? && s'.threads[t].result && s'.tree == s.tree
  {
    hide M.Inv, M.Contained, L.Locate, M.Step, PairsNow;
  }

  // A call that is not disturbed returns after at most three steps: false at once if it has nothing to
  // do, and true after it has changed the set as it promises.
  lemma UndisturbedCallReturns(n: nat, acts: seq<Action>, run: seq<State>, t: nat, id: NodeID, j: nat)
    requires IsRun(n, acts, run) && j + 3 <= |acts| && t < n && t < |run[j].threads|
    requires acts[j] == Look(t, id) && acts[j + 1] == Cas(t) && acts[j + 2] == Count(t)
    requires Enabled(run[j], Look(t, id))
    ensures |run[j + 1].threads| == n == |run[j + 3].threads| && M.Inv(run[j].tree) && M.Inv(run[j + 3].tree)
    ensures var op, before, after := run[j].threads[t].op, M.Contained(run[j].tree), M.Contained(run[j + 3].tree);
            if Pointless(run[j], op) then run[j + 1].threads[t].Done? && !run[j + 1].threads[t].result && run[j + 1].tree == run[j].tree
            else
              && run[j + 3].threads[t].Done? && run[j + 3].threads[t].result
              && after == if op.Insert? then before + {op.item} else before - {op.item}
  {
    hide Inv, M.Inv, M.Contained, Step, Pointless, L.Locate;
    RunStep(n, acts, run, j);
    RunStep(n, acts, run, j + 1);
    RunStep(n, acts, run, j + 2);
    InvAlways(n, acts, run, j + 3);
    LookStep(run[j], t, id);
    if !Pointless(run[j], run[j].threads[t].op) {
      CasChangesTheSet(n, acts, run, t, j + 1);
      CasIsCounting(run[j + 1], t);
      CountStep(run[j + 2], t);
    }
  }

  lemma CasIsCounting(s: State, t: nat)
    requires |s.hist| > 0 && Enabled(s, Cas(t)) && s.tree.table[s.threads[t].id] == s.threads[t].snapshot
    ensures t < |Step(s, Cas(t)).threads| && Step(s, Cas(t)).threads[t].Counting?
  {
    hide M.Inv, M.Contained, L.Locate, M.Step, PairsNow;
  }

  // ---------- the counter ----------

  // The calls of one kind that have counted themselves.
  ghost function Calls(acts: seq<Action>, run: seq<State>, insert: bool, j: nat): nat
    requires j <= |acts| && |run| == |acts| + 1
  {
    if j == 0 then 0 else Calls(acts, run, insert, j - 1) + (if Counts(run[j - 1], acts[j - 1], insert) then 1 else 0)
  }

  ghost predicate Counts(s: State, a: Action, insert: bool) {
    a.Count? && Enabled(s, a) && s.threads[a.t].op.Insert? == insert
  }

  lemma CounterStep(s: State, a: Action)
    requires |s.hist| > 0
    ensures Step(s, a).indexSize == if Counts(s, a, true) then (s.indexSize + 1) % TWO_64
                                    else if Counts(s, a, false) then (s.indexSize + TWO_64 - 1) % TWO_64 else s.indexSize
    ensures !(Counts(s, a, true) && Counts(s, a, false))
  {
    hide M.Inv, M.Contained, L.Locate, M.Step, PairsNow;
  }

  // index_size is the number of successful inserts minus that of successful deletes that have counted
  // themselves, modulo 2^64.
  lemma {:induction false} CounterCountsCalls(n: nat, acts: seq<Action>, run: seq<State>, j: nat)
    requires IsRun(n, acts, run) && j <= |acts|
    ensures run[j].indexSize == (Calls(acts, run, true, j) - Calls(acts, run, false, j)) % TWO_64
  {
    hide M.Inv, Step, Counts;
    if j > 0 {
      CounterCountsCalls(n, acts, run, j - 1);
      CounterStep(run[j - 1], acts[j - 1]);
      Modular(Calls(acts, run, true, j - 1) - Calls(acts, run, false, j - 1));
    }
  }

  lemma Modular(x: int)
    ensures (x % TWO_64 + 1) % TWO_64 == (x + 1) % TWO_64
    ensures (x % TWO_64 + TWO_64 - 1) % TWO_64 == (x - 1) % TWO_64
  {
  }
}
