// Insert() and Delete() of the tree as concurrent operations on a set of pairs: bwtree.h:6807-6885 and
// 7088-7153, for keys with several values. Threads interleave freely with each other and with the
// structure changes that any thread may make.
module SetOps {
  import opened Pairs
  import L = LeafChain
  import M = LeafMachine

  const TWO_64: nat := 0x1_0000_0000_0000_0000

  datatype Op = Insert(item: KeyValuePair) | Delete(item: KeyValuePair)

  // `begin` and `at` are history: when the call started, and when it took effect.
  datatype Thread =
    | Idle
    | Searching(op: Op, begin: nat)
    | Ready(op: Op, begin: nat, id: NodeID, snapshot: L.Chain)
    | Counting(op: Op, begin: nat, at: nat)
    | Done(op: Op, result: bool, begin: nat, at: nat)

  // `hist[m]` is history: the pairs of the tree after m steps.
  datatype State = State(tree: M.State, indexSize: nat, threads: seq<Thread>, hist: seq<set<KeyValuePair>>)

  datatype Action =
    | Call(t: nat, op: Op)
    | Look(t: nat, id: NodeID)
    | Cas(t: nat)
    | Retry(t: nat)
    | Count(t: nat)
    | Return(t: nat)
    | Change(a: M.Action)

  ghost function Initial(n: nat): State {
    State(M.Initial(), 0, seq(n, _ => Idle), [{}])
  }

  // The leaf operation that posts the record of an insert or a delete.
  function Posts(op: Op, id: NodeID): M.Action {
    if op.Insert? then M.InsertItem(id, op.item) else M.DeleteItem(id, op.item)
  }

  // The traversal ends on the leaf that covers the key (TreeResults.ConcurrentTraversalIsExact); the
  // existence check works on the chain that was read from the mapping table at that moment.
  ghost function AfterLook(s: State, t: nat, id: NodeID): Thread
    requires t < |s.threads| && s.threads[t].Searching? && id in s.tree.table && |s.hist| > 0
  {
    var th, c := s.threads[t], s.tree.table[id];
    if L.Locate(c, th.op.item).found == th.op.Insert? then Done(th.op, false, th.begin, |s.hist| - 1)
    else Ready(th.op, th.begin, id, c)
  }

  ghost predicate Enabled(s: State, a: Action) {
    match a
    case Call(t, _) => t < |s.threads| && s.threads[t].Idle?
    case Look(t, id) =>
      t < |s.threads| && s.threads[t].Searching? && id in s.tree.table && !s.tree.table[id].Remove?
        && L.InRange(s.tree.table[id], s.threads[t].op.item.first)
    case Cas(t) => t < |s.threads| && s.threads[t].Ready? && s.threads[t].id in s.tree.table
    // The compare-and-swap may also fail on a chain with the same contents at another address.
    case Retry(t) => t < |s.threads| && s.threads[t].Ready?
    case Count(t) => t < |s.threads| && s.threads[t].Counting?
    case Return(t) => t < |s.threads| && s.threads[t].Done?
    // Only inserts and deletes post data records.
    case Change(a) => M.IsStructureChange(a)
  }

  // index_size is an unsigned 64-bit counter.
  function Counted(size: nat, op: Op): nat {
    if op.Insert? then (size + 1) % TWO_64 else (size + TWO_64 - 1) % TWO_64
  }

  ghost function Next(s: State, a: Action): State
    requires |s.hist| > 0
  {
    if !Enabled(s, a) then s
    else match a
      case Call(t, op) => s.(threads := s.threads[t := Searching(op, |s.hist| - 1)])
      case Look(t, id) => s.(threads := s.threads[t := AfterLook(s, t, id)])
      case Cas(t) =>
        var th := s.threads[t];
        if s.tree.table[th.id] == th.snapshot then
          s.(tree := M.Step(s.tree, Posts(th.op, th.id)), threads := s.threads[t := Counting(th.op, th.begin, |s.hist| - 1)])
        else s.(threads := s.threads[t := Searching(th.op, th.begin)])
      case Retry(t) => s.(threads := s.threads[t := Searching(s.threads[t].op, s.threads[t].begin)])
      case Count(t) =>
        var th := s.threads[t];
        s.(indexSize := Counted(s.indexSize, th.op), threads := s.threads[t := Done(th.op, true, th.begin, th.at)])
      case Return(t) => s.(threads := s.threads[t := Idle])
      case Change(a) => s.(tree := M.Step(s.tree, a))
  }

  // The set that the tree stands for; every reachable tree is in order (LeafMachine.InvAlways).
  ghost function PairsNow(tree: M.State): set<KeyValuePair> {
    if M.Inv(tree) then M.Contained(tree) else {}
  }

  // Every step takes one unit of time.
  ghost function Step(s: State, a: Action): State
    requires |s.hist| > 0
  {
    var s' := Next(s, a);
    s'.(hist := s.hist + [PairsNow(s'.tree)])
  }

  ghost predicate IsRun(n: nat, acts: seq<Action>, run: seq<State>) {
    && |run| == |acts| + 1 && run[0] == Initial(n)
    && forall j :: 0 <= j < |acts| ==> |run[j].hist| > 0 && run[j + 1] == Step(run[j], acts[j])
  }

  lemma NextKeepsTree(s: State, a: Action)
    requires M.Inv(s.tree) && |s.hist| > 0
    ensures M.Inv(Next(s, a).tree)
  {
    hide M.Inv, M.Step;
    if Enabled(s, a) {
      if a.Cas? {
        M.StepKeepsInv(s.tree, Posts(s.threads[a.t].op, s.threads[a.t].id));
      } else if a.Change? {
        M.StepKeepsInv(s.tree, a.a);
      }
    }
  }

  // ---------- the invariant ----------

  // A successful call has changed the set at its instant, a failed one has found it as it says.
  ghost predicate Effect(hist: seq<set<KeyValuePair>>, op: Op, begin: nat, at: nat, result: bool) {
    && begin <= at < |hist|
    && if result then
         at + 1 < |hist|
           && if op.Insert? then op.item !in hist[at] && hist[at + 1] == hist[at] + {op.item}
              else op.item in hist[at] && hist[at + 1] == hist[at] - {op.item}
       else op.item in hist[at] <==> op.Insert?
  }

  ghost predicate ThreadOk(hist: seq<set<KeyValuePair>>, th: Thread) {
    match th
    case Idle => true
    case Searching(_, begin) => begin < |hist|
    case Ready(op, begin, _, c) =>
      begin < |hist| && !c.Remove? && L.InRange(c, op.item.first) && L.Locate(c, op.item).found == op.Delete?
    case Counting(op, begin, at) => Effect(hist, op, begin, at, true)
    case Done(op, result, begin, at) => Effect(hist, op, begin, at, result)
  }

  // Calls that have changed the set but not yet the counter.
  function Uncounted(threads: seq<Thread>, insert: bool): nat {
    if threads == [] then 0
    else (if threads[0].Counting? && threads[0].op.Insert? == insert then 1 else 0) + Uncounted(threads[1..], insert)
  }

  ghost predicate Inv(s: State) {
    && M.Inv(s.tree) && |s.hist| > 0 && s.hist[|s.hist| - 1] == PairsNow(s.tree)
    && (forall t :: 0 <= t < |s.threads| ==> ThreadOk(s.hist, s.threads[t]))
    && s.indexSize < TWO_64
    && SizeMatches(|PairsNow(s.tree)|, s.indexSize, Uncounted(s.threads, true), Uncounted(s.threads, false))
  }

  // contents + deletes not yet counted == counter + inserts not yet counted, modulo 2^64.
  predicate SizeMatches(size: nat, counter: nat, inserts: nat, deletes: nat) {
    (size + deletes - counter - inserts) % TWO_64 == 0
  }

  function One(th: Thread, insert: bool): nat {
    if th.Counting? && th.op.Insert? == insert then 1 else 0
  }

  lemma {:induction false} UncountedUpdate(threads: seq<Thread>, t: nat, th: Thread, insert: bool)
    requires t < |threads|
    ensures Uncounted(threads[t := th], insert) == Uncounted(threads, insert) - One(threads[t], insert) + One(th, insert)
  {
    if t == 0 {
      assert threads[t := th][1..] == threads[1..];
    } else {
      UncountedUpdate(threads[1..], t - 1, th, insert);
      assert threads[t := th][1..] == threads[1..][t - 1 := th];
    }
  }

  lemma EffectStays(hist: seq<set<KeyValuePair>>, next: set<KeyValuePair>, th: Thread)
    requires ThreadOk(hist, th)
    ensures ThreadOk(hist + [next], th)
  {
  }

  // The existence check on the covering leaf speaks about the whole tree.
  lemma LookIsExact(s: M.State, id: NodeID, item: KeyValuePair)
    requires M.Inv(s) && id in s.table && !s.table[id].Remove? && L.InRange(s.table[id], item.first)
    ensures L.Locate(s.table[id], item).found <==> item in M.Contained(s)
  {
    var found := L.Locate(s.table[id], item).found;
    var a := if found then M.DeleteItem(id, item) else M.InsertItem(id, item);
    assert M.Enabled(s, a);
    M.DataStep(s, a);
  }

  lemma CasTakesEffect(s: State, t: nat)
    requires Inv(s) && Enabled(s, Cas(t)) && s.tree.table[s.threads[t].id] == s.threads[t].snapshot
    ensures M.Inv(Next(s, Cas(t)).tree)
    ensures var op, before, after := s.threads[t].op, PairsNow(s.tree), PairsNow(Next(s, Cas(t)).tree);
            if op.Insert? then op.item !in before && after == before + {op.item}
            else op.item in before && after == before - {op.item}
  {
    var th := s.threads[t];
    assert ThreadOk(s.hist, th);
    hide M.Inv, M.Contained, M.Step, Inv;
    M.DataStep(s.tree, Posts(th.op, th.id)) by { InvTree(s); }
  }

  lemma InvTree(s: State)
    requires Inv(s)
    ensures M.Inv(s.tree) && |s.hist| > 0 && PairsNow(s.tree) == M.Contained(s.tree)
  {
  }

  lemma InvParts(s: State, t: nat)
    requires Inv(s) && t < |s.threads|
    ensures |s.hist| > 0 && s.hist[|s.hist| - 1] == PairsNow(s.tree) && ThreadOk(s.hist, s.threads[t])
    ensures s.threads[t].Ready? ==> s.threads[t].begin < |s.hist|
    ensures s.indexSize < TWO_64
    ensures SizeMatches(|PairsNow(s.tree)|, s.indexSize, Uncounted(s.threads, true), Uncounted(s.threads, false))
  {
  }

  lemma LookKeepsThread(s: State, t: nat, id: NodeID, next: set<KeyValuePair>)
    requires Inv(s) && Enabled(s, Look(t, id))
    ensures ThreadOk(s.hist + [next], AfterLook(s, t, id))
  {
    var th := s.threads[t];
    assert ThreadOk(s.hist, th);
    LookIsExact(s.tree, id, th.op.item);
    hide M.Inv, L.Locate, M.Contained;
  }

  lemma CasKeepsThread(s: State, t: nat)
    requires Inv(s) && Enabled(s, Cas(t)) && s.tree.table[s.threads[t].id] == s.threads[t].snapshot
    ensures var th := s.threads[t];
            ThreadOk(s.hist + [PairsNow(Next(s, Cas(t)).tree)], Counting(th.op, th.begin, |s.hist| - 1))
  {
    hide Inv, M.Inv, M.Contained, PairsNow, Next, L.Locate;
    InvParts(s, t);
    var th, next := s.threads[t], PairsNow(Next(s, Cas(t)).tree);
    CasTakesEffect(s, t);
    EffectOf(s.hist, next, th.op, th.begin);
  }

  lemma EffectOf(hist: seq<set<KeyValuePair>>, next: set<KeyValuePair>, op: Op, begin: nat)
    requires begin < |hist|
    requires var before := hist[|hist| - 1];
             if op.Insert? then op.item !in before && next == before + {op.item}
             else op.item in before && next == before - {op.item}
    ensures Effect(hist + [next], op, begin, |hist| - 1, true)
  {
  }

  lemma StepKeepsThread(s: State, a: Action, u: nat)
    requires Inv(s) && u < |s.threads|
    ensures |Step(s, a).threads| == |s.threads| && ThreadOk(Step(s, a).hist, Step(s, a).threads[u])
  {
    var next := PairsNow(Next(s, a).tree);
    assert ThreadOk(s.hist, s.threads[u]);
    EffectStays(s.hist, next, s.threads[u]);
    if Enabled(s, a) {
      if a.Look? {
        LookKeepsThread(s, a.t, a.id, next);
      } else if a.Cas? && s.tree.table[s.threads[a.t].id] == s.threads[a.t].snapshot {
        CasKeepsThread(s, a.t);
      }
    }
    hide M.Inv, M.Contained, PairsNow, L.Locate, AfterLook, Effect;
  }

  // ---------- the counter ----------

  lemma SizesOfChange(before: set<KeyValuePair>, after: set<KeyValuePair>, op: Op)
    requires if op.Insert? then op.item !in before && after == before + {op.item}
             else op.item in before && after == before - {op.item}
    ensures |after| == if op.Insert? then |before| + 1 else |before| - 1
  {
  }

  lemma CountedMatches(size: nat, counter: nat, inserts: nat, deletes: nat, op: Op)
    requires SizeMatches(size, counter, inserts, deletes) && (if op.Insert? then inserts > 0 else deletes > 0)
    requires counter < TWO_64
    ensures Counted(counter, op) < TWO_64
    ensures SizeMatches(size, Counted(counter, op), if op.Insert? then inserts - 1 else inserts,
                        if op.Delete? then deletes - 1 else deletes)
  {
    var d := size + deletes - counter - inserts;
    if op.Insert? {
      assert Counted(counter, op) == if counter == TWO_64 - 1 then 0 else counter + 1;
    } else {
      assert Counted(counter, op) == if counter == 0 then TWO_64 - 1 else counter - 1;
    }
    assert (d + TWO_64) % TWO_64 == 0 && (d - TWO_64) % TWO_64 == 0;
  }

  lemma CasKeepsSize(s: State, t: nat)
    requires Inv(s) && Enabled(s, Cas(t)) && s.tree.table[s.threads[t].id] == s.threads[t].snapshot
    ensures var s' := Next(s, Cas(t));
            SizeMatches(|PairsNow(s'.tree)|, s'.indexSize, Uncounted(s'.threads, true), Uncounted(s'.threads, false))
  {
    hide Inv, M.Inv, M.Contained, PairsNow, L.Locate, M.Step, Uncounted;
    InvParts(s, t);
    CasTakesEffect(s, t);
    var th, s' := s.threads[t], Next(s, Cas(t));
    assert s'.threads == s.threads[t := Counting(th.op, th.begin, |s.hist| - 1)] && s'.indexSize == s.indexSize;
    hide Next, Enabled;
    SizesOfChange(PairsNow(s.tree), PairsNow(s'.tree), th.op);
    UncountedUpdate(s.threads, t, s'.threads[t], true);
    UncountedUpdate(s.threads, t, s'.threads[t], false);
  }

  lemma CountKeepsSize(s: State, t: nat)
    requires Inv(s) && Enabled(s, Count(t))
    ensures var s' := Next(s, Count(t));
            && s'.indexSize < TWO_64
            && SizeMatches(|PairsNow(s'.tree)|, s'.indexSize, Uncounted(s'.threads, true), Uncounted(s'.threads, false))
  {
    var th, s' := s.threads[t], Next(s, Count(t));
    hide M.Inv, M.Contained, PairsNow;
    UncountedUpdate(s.threads, t, s'.threads[t], true);
    UncountedUpdate(s.threads, t, s'.threads[t], false);
    CountedMatches(|PairsNow(s.tree)|, s.indexSize, Uncounted(s.threads, true), Uncounted(s.threads, false), th.op);
  }

  lemma StepKeepsSize(s: State, a: Action)
    requires Inv(s)
    ensures var s' := Next(s, a);
            && s'.indexSize < TWO_64
            && SizeMatches(|PairsNow(s'.tree)|, s'.indexSize, Uncounted(s'.threads, true), Uncounted(s'.threads, false))
  {
    if Enabled(s, a) {
      match a {
        case Count(t) => CountKeepsSize(s, t);
        case Cas(t) =>
          if s.tree.table[s.threads[t].id] == s.threads[t].snapshot { CasKeepsSize(s, t); } else { LocalKeepsSize(s, a); }
        case Change(c) => M.StepKeepsInv(s.tree, c);
        case _ => LocalKeepsSize(s, a);
      }
    }
  }

  // Steps that touch neither the tree nor the counter.
  lemma LocalKeepsSize(s: State, a: Action)
    requires Inv(s) && Enabled(s, a) && !a.Change? && !a.Count? && Next(s, a).tree == s.tree
    requires One(s.threads[a.t], true) == One(Next(s, a).threads[a.t], true)
    requires One(s.threads[a.t], false) == One(Next(s, a).threads[a.t], false)
    ensures var s' := Next(s, a);
            SizeMatches(|PairsNow(s'.tree)|, s'.indexSize, Uncounted(s'.threads, true), Uncounted(s'.threads, false))
  {
    var s' := Next(s, a);
    hide M.Inv, M.Contained, PairsNow;
    UncountedUpdate(s.threads, a.t, s'.threads[a.t], true);
    UncountedUpdate(s.threads, a.t, s'.threads[a.t], false);
  }

  lemma StepKeepsInv(s: State, a: Action)
    requires Inv(s)
    ensures Inv(Step(s, a)) && |Step(s, a).threads| == |s.threads|
    ensures Step(s, a).hist == s.hist + [PairsNow(Step(s, a).tree)]
  {
    NextKeepsTree(s, a);
    StepKeepsSize(s, a);
    hide M.Inv, M.Contained, PairsNow, Uncounted, SizeMatches;
    var s' := Step(s, a);
    forall u | 0 <= u < |s.threads| ensures ThreadOk(s'.hist, s'.threads[u]) {
      StepKeepsThread(s, a, u);
    }
  }

  lemma {:induction false} InvAlways(n: nat, acts: seq<Action>, run: seq<State>, j: nat)
    requires IsRun(n, acts, run) && j <= |acts|
    ensures Inv(run[j]) && |run[j].threads| == n && |run[j].hist| == j + 1
  {
    if j == 0 {
      M.InitialInv();
      NothingUncounted(n, true);
      NothingUncounted(n, false);
    } else {
      InvAlways(n, acts, run, j - 1);
      StepKeepsInv(run[j - 1], acts[j - 1]);
    }
  }

  lemma {:induction false} NothingUncounted(n: nat, insert: bool)
    ensures Uncounted(seq(n, _ => Idle), insert) == 0
    decreases n
  {
    if n > 0 {
      NothingUncounted(n - 1, insert);
      assert seq(n, _ => Idle)[1..] == seq(n - 1, _ => Idle);
    }
  }

  // ---------- main results ----------

  lemma RunStep(n: nat, acts: seq<Action>, run: seq<State>, k: nat)
    requires IsRun(n, acts, run) && k < |acts|
    ensures M.Inv(run[k + 1].tree) && run[k + 1].hist == run[k].hist + [M.Contained(run[k + 1].tree)]
    ensures Inv(run[k]) && |run[k].threads| == n && |run[k].hist| == k + 1 && run[k + 1] == Step(run[k], acts[k])
  {
    InvAlways(n, acts, run, k);
    hide Inv, M.Inv, M.Contained, Next;
    StepKeepsInv(run[k], acts[k]);
    InvTree(run[k + 1]);
  }

  // `hist` is the sequence of the sets that the tree stood for.
  lemma {:induction false} HistoryIsTheTrace(n: nat, acts: seq<Action>, run: seq<State>, j: nat, k: nat)
    requires IsRun(n, acts, run) && j <= k <= |acts|
    ensures |run[k].hist| == k + 1 && M.Inv(run[j].tree) && run[k].hist[j] == M.Contained(run[j].tree)
    decreases k
  {
    hide Inv, M.Inv, M.Contained, Step, IsRun;
    if j < k {
      HistoryIsTheTrace(n, acts, run, j, k - 1);
      PrefixIsRun(n, acts, run);
      RunStep(n, acts, run, k - 1);
    } else {
      PrefixIsRun(n, acts, run);
      InvAlways(n, acts, run, k);
      InvTree(run[k]);
      LastOfHistory(run[k]);
    }
  }

  lemma PrefixIsRun(n: nat, acts: seq<Action>, run: seq<State>)
    requires IsRun(n, acts, run)
    ensures |run| == |acts| + 1
  {
  }

  lemma LastOfHistory(s: State)
    requires Inv(s)
    ensures |s.hist| > 0 && M.Inv(s.tree) && s.hist[|s.hist| - 1] == M.Contained(s.tree)
  {
  }

  // Insert and Delete are linearizable: a call that returns true has changed the set at one instant
  // of the call, in the way it promises; a call that returns false has seen the pair present
  // (absent) at one instant of the call.
  lemma OperationsAreLinearizable(n: nat, acts: seq<Action>, run: seq<State>, t: nat, k: nat)
    requires IsRun(n, acts, run) && k <= |acts| && t < n
    ensures |run[k].threads| == n
    ensures var th := run[k].threads[t];
            th.Done? ==>
              && th.begin <= th.at < k + 1
              && M.Inv(run[th.at].tree)
              && var before := M.Contained(run[th.at].tree);
                 if th.result then
                   && th.at < k && M.Inv(run[th.at + 1].tree)
                   && var after := M.Contained(run[th.at + 1].tree);
                      if th.op.Insert? then th.op.item !in before && after == before + {th.op.item}
                      else th.op.item in before && after == before - {th.op.item}
                 else th.op.item in before <==> th.op.Insert?
  {
    InvAlways(n, acts, run, k);
    var th := run[k].threads[t];
    assert ThreadOk(run[k].hist, th);
    if th.Done? {
      HistoryIsTheTrace(n, acts, run, th.at, k);
      if th.result { HistoryIsTheTrace(n, acts, run, th.at + 1, k); }
    }
  }

  function BeginOf(th: Thread): nat
    requires !th.Idle?
  {
    th.begin
  }

  // The history field `begin` is the time at which the running call of the thread was made.
  lemma {:induction false} CallBegan(n: nat, acts: seq<Action>, run: seq<State>, t: nat, k: nat)
    requires IsRun(n, acts, run) && k <= |acts| && t < n
    ensures |run[k].threads| == n
    ensures !run[k].threads[t].Idle? ==>
              BeginOf(run[k].threads[t]) < k && acts[BeginOf(run[k].threads[t])] == Call(t, run[k].threads[t].op)
    decreases k
  {
    hide Inv, M.Inv, M.Contained, Step;
    InvAlways(n, acts, run, k);
    if k > 0 {
      CallBegan(n, acts, run, t, k - 1);
      RunStep(n, acts, run, k - 1);
      StepBegin(run[k - 1], acts[k - 1], t);
    }
  }

  lemma StepBegin(s: State, a: Action, t: nat)
    requires |s.hist| > 0 && t < |s.threads|
    ensures |Step(s, a).threads| == |s.threads|
    ensures var th, th' := s.threads[t], Step(s, a).threads[t];
            !th'.Idle? ==>
              if th.Idle? then a == Call(t, th'.op) && BeginOf(th') == |s.hist| - 1
              else th'.op == th.op && BeginOf(th') == BeginOf(th)
  {
    hide M.Step, M.Inv, M.Contained, PairsNow, L.Locate;
  }

  lemma StepChangesTheSet(s: State, a: Action)
    requires Inv(s) && M.Inv(Step(s, a).tree)
    ensures M.Inv(s.tree)
    ensures M.Contained(Step(s, a).tree) != M.Contained(s.tree) ==>
              a.Cas? && a.t < |s.threads| && a.t < |Step(s, a).threads|
                && Step(s, a).threads[a.t].Counting? && Step(s, a).threads[a.t].at == |s.hist| - 1
  {
    InvTree(s);
    hide Inv, M.Inv, M.Contained, M.Step, PairsNow, L.Locate;
    if Enabled(s, a) && a.Change? { M.StepKeepsInv(s.tree, a.a); }
  }

  // Nothing else ever changes the set: only a successful compare-and-swap of a call does.
  lemma OnlyCallsChangeTheSet(n: nat, acts: seq<Action>, run: seq<State>, j: nat)
    requires IsRun(n, acts, run) && j < |acts|
    ensures M.Inv(run[j].tree) && M.Inv(run[j + 1].tree)
    ensures M.Contained(run[j + 1].tree) != M.Contained(run[j].tree) ==>
              acts[j].Cas? && acts[j].t < |run[j].threads| && acts[j].t < |run[j + 1].threads|
                && run[j + 1].threads[acts[j].t].Counting? && run[j + 1].threads[acts[j].t].at == j
  {
    InvAlways(n, acts, run, j);
    InvAlways(n, acts, run, j + 1);
    StepChangesTheSet(run[j], acts[j]);
  }

  // The counter: contents + deletes not yet counted == index_size + inserts not yet counted,
  // modulo 2^64.
  lemma SizeAccounting(n: nat, acts: seq<Action>, run: seq<State>, k: nat)
    requires IsRun(n, acts, run) && k <= |acts|
    ensures var s := run[k];
            && M.Inv(s.tree)
            && (|M.Contained(s.tree)| + Uncounted(s.threads, false) - s.indexSize - Uncounted(s.threads, true)) % TWO_64 == 0
  {
    InvAlways(n, acts, run, k);
  }

  // GetSize() is exact in exactly the states in which as many inserts as deletes wait to be counted,
  // as long as neither the tree nor the number of threads reaches 2^63.
  lemma GetSizeIsExactExactlyWhen(n: nat, acts: seq<Action>, run: seq<State>, k: nat)
    requires IsRun(n, acts, run) && k <= |acts| && n < TWO_64 / 2
    requires M.Inv(run[k].tree) && |M.Contained(run[k].tree)| < TWO_64 / 2
    ensures var s := run[k];
            s.indexSize == |M.Contained(s.tree)| <==> Uncounted(s.threads, true) == Uncounted(s.threads, false)
  {
    var s := run[k];
    InvAlways(n, acts, run, k);
    UncountedIsBounded(s.threads, true);
    UncountedIsBounded(s.threads, false);
  }

  lemma {:induction false} UncountedIsBounded(threads: seq<Thread>, insert: bool)
    ensures Uncounted(threads, insert) <= |threads|
  {
    if threads != [] { UncountedIsBounded(threads[1..], insert); }
  }
}
