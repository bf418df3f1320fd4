// What the registers hold and how long a call takes, told by the actions of the run alone.
module SnapshotUpdates {
  import opened Options
  import opened Snapshot
  import opened SnapshotProofs

  // ---------- the values in the registers ----------

  // An update stores its value in the register of its thread, and nothing else changes a value.
  lemma UpdateStoresItsValue(n: nat, mode: StealMode, acts: seq<Action>, run: seq<State>, j: nat)
    requires IsRun(n, mode, acts, run) && j < |acts|
    ensures |run[j].hist| > 0 && |run[j + 1].hist| > 0
    ensures var before, after := Values(run[j].Registers()), Values(run[j + 1].Registers());
            if acts[j].Write? && Enabled(run[j], acts[j]) then after == before[acts[j].t := acts[j].value]
            else after == before
  {
  }

  // The value of the last update of thread t among the first j actions.
  function LastWritten(acts: seq<Action>, run: seq<State>, t: nat, j: nat): int
    requires j <= |acts| && |run| == |acts| + 1
  {
    if j == 0 then 0
    else
      match acts[j - 1]
      case Write(u, value) =>
        if u == t && Enabled(run[j - 1], acts[j - 1]) then value else LastWritten(acts, run, t, j - 1)
      case _ => LastWritten(acts, run, t, j - 1)
  }

  lemma {:induction false} RegistersHoldLastWrites(n: nat, mode: StealMode, acts: seq<Action>, run: seq<State>, j: nat)
    requires IsRun(n, mode, acts, run) && j <= |acts|
    ensures |run[j].hist| > 0 && |run[j].Registers()| == n
    ensures forall t :: 0 <= t < n ==> Values(run[j].Registers())[t] == LastWritten(acts, run, t, j)
  {
    if j > 0 {
      RegistersHoldLastWrites(n, mode, acts, run, j - 1);
      UpdateStoresItsValue(n, mode, acts, run, j - 1);
    }
  }

  // Every slot of the vector holds the value of the last update of its thread before instant m.
  ghost predicate HoldsLastWrites(acts: seq<Action>, run: seq<State>, m: nat, vector: seq<int>)
    requires m <= |acts| && |run| == |acts| + 1
  {
    forall t :: 0 <= t < |vector| ==> vector[t] == LastWritten(acts, run, t, m)
  }

  // A scan returns, for every thread, the value of the last update before one and the same instant of
  // the scan.
  lemma ScanReturnsLastWrites(n: nat, mode: StealMode, acts: seq<Action>, run: seq<State>, t: nat, k: nat)
    requires IsRun(n, mode, acts, run) && FewWritesThroughout(run)
    requires k <= |acts| && t < |run[k].threads| && run[k].threads[t].pc.Done?
    requires mode.AsIntended? || run[k].threads[t].pc.clean
    ensures var th := run[k].threads[t];
            && |th.pc.result| == n
            && exists m :: th.begin <= m <= k && HoldsLastWrites(acts, run, m, th.pc.result)
  {
    ScanIsLinearizable(n, mode, acts, run, t, k);
    var th := run[k].threads[t];
    var m :| th.begin <= m <= k && |run[m].hist| > 0 && th.pc.result == Values(run[m].Registers());
    RegistersHoldLastWrites(n, mode, acts, run, m);
    assert HoldsLastWrites(acts, run, m, th.pc.result);
  }

  // ---------- calls ----------

  // The last call of thread t has begun and has not written yet.
  predicate InCall(acts: seq<Action>, run: seq<State>, t: nat, j: nat)
    requires j <= |acts| && |run| == |acts| + 1
  {
    j > 0 &&
    if acts[j - 1].t == t && Enabled(run[j - 1], acts[j - 1]) && (acts[j - 1].Begin? || acts[j - 1].Write?)
    then acts[j - 1].Begin? else InCall(acts, run, t, j - 1)
  }

  // A thread is inside update() from its Begin to its Write.
  lemma {:induction false} InsideACall(n: nat, mode: StealMode, acts: seq<Action>, run: seq<State>, t: nat, j: nat)
    requires IsRun(n, mode, acts, run) && j <= |acts| && t < n
    ensures |run[j].threads| == n
    ensures !run[j].threads[t].pc.Idle? <==> InCall(acts, run, t, j)
  {
    if j > 0 { InsideACall(n, mode, acts, run, t, j - 1); }
  }

  // The steps that thread t takes between two instants.
  function OwnSteps(acts: seq<Action>, run: seq<State>, t: nat, from: nat, j: nat): nat
    requires j <= |acts| && |run| == |acts| + 1
  {
    if j <= from then 0
    else
      OwnSteps(acts, run, t, from, j - 1)
      + (if acts[j - 1].t == t && Enabled(run[j - 1], acts[j - 1]) then 1 else 0)
  }

  // The steps of a round: n reads and a comparison.
  function Rounds(n: nat, rounds: int): int {
    rounds * (n + 1)
  }

  lemma MoreRounds(n: nat, rounds: int)
    ensures Rounds(n, rounds + 1) == Rounds(n, rounds) + n + 1
    ensures 0 <= rounds <= n ==> 0 <= Rounds(n, rounds) <= Rounds(n, n)
  {
  }

  // The reads and comparisons done by a scan that is not complete.
  function StepsDone(n: nat, th: Thread): int {
    if th.pc.FirstCollect? then |th.oldCopy| else n + Rounds(n, th.collects - 2) + |th.newCopy|
  }

  // What the invariant says about the lengths of the collects.
  lemma LengthsOfCollects(few: bool, s: State, t: nat)
    requires Inv(few, s) && t < |s.threads|
    ensures var n, th := |s.threads|, s.threads[t];
            && (th.pc.FirstCollect? ==> |th.oldCopy| < n && th.collects == 1)
            && (th.pc.NextCollect? ==> |th.newCopy| < n && 2 <= th.collects <= n + 2)
            && (th.pc.Comparing? ==> |th.newCopy| == n && 2 <= th.collects <= n + 2)
  {
    assert ThreadOk(|s.threads|, few, s.mode, s.hist, t, s.threads[t]);
    MovedSetSize(s.threads[t].moved);
    hide CellsOk, HistoryOk, MovedOk, FewWrites, MovedSet;
  }

  lemma StepsOfThread(few: bool, s: State, a: Action)
    requires Inv(few, s) && Enabled(s, a) && (a.Read? || a.Compare?)
    ensures var n, th, th' := |s.threads|, s.threads[a.t], Step(s, a).threads[a.t];
            && StepsDone(n, th) <= n + Rounds(n, n) + n
            && (!th'.pc.Done? ==> StepsDone(n, th') == StepsDone(n, th) + 1)
  {
    LengthsOfCollects(few, s, a.t);
    var n, th := |s.threads|, s.threads[a.t];
    MoreRounds(n, th.collects - 2);
    hide Inv, FewWrites, Rounds;
  }

  lemma NeverStuck(few: bool, s: State, t: nat)
    requires Inv(few, s) && t < |s.threads| && !s.threads[t].pc.Idle?
    ensures s.threads[t].pc.Done? ==> forall value :: Enabled(s, Write(t, value))
    ensures !s.threads[t].pc.Done? ==> Enabled(s, Read(t)) || Enabled(s, Compare(t))
  {
    assert ThreadOk(|s.threads|, few, s.mode, s.hist, t, s.threads[t]);
  }

  lemma {:induction false} StepsAreCounted(n: nat, mode: StealMode, acts: seq<Action>, run: seq<State>, t: nat, k: nat)
    requires IsRun(n, mode, acts, run) && k <= |acts| && t < n
    ensures |run[k].threads| == n && |run[k].hist| == k + 1
    ensures var th := run[k].threads[t];
            !th.pc.Idle? ==>
              && (!th.pc.Done? ==> OwnSteps(acts, run, t, th.begin, k) == StepsDone(n, th))
              && OwnSteps(acts, run, t, th.begin, k) <= n + Rounds(n, n) + n + 1
  {
    InvAlways(n, false, mode, acts, run, k);
    HistoryIsTheTrace(n, mode, acts, run, k, k);
    if k > 0 {
      StepsAreCounted(n, mode, acts, run, t, k - 1);
      InvAlways(n, false, mode, acts, run, k - 1);
      var s, a := run[k - 1], acts[k - 1];
      if !run[k].threads[t].pc.Idle? {
        StepInsideScan(s, a, t);
        if a.t == t && Enabled(s, a) && (a.Read? || a.Compare?) { StepsOfThread(false, s, a); }
        hide Inv, FewWrites, StepsDone, Step;
      }
    }
  }

  // Wait-freedom: a thread can always begin a call, and a call can always take a step of its own, whatever
  // the other threads do; its scan is complete after at most n^2 + 3n + 1 of them.
  lemma ScanTakesFewSteps(n: nat, mode: StealMode, acts: seq<Action>, run: seq<State>, t: nat, k: nat)
    requires IsRun(n, mode, acts, run) && k <= |acts| && t < n
    ensures |run[k].threads| == n
    ensures var th := run[k].threads[t];
            if th.pc.Idle? then forall memory :: |memory| == n ==> Enabled(run[k], Begin(t, memory))
            else
              && OwnSteps(acts, run, t, th.begin, k) <= n * n + 3 * n + 1
              && (if th.pc.Done? then forall value :: Enabled(run[k], Write(t, value))
                  else Enabled(run[k], Read(t)) || Enabled(run[k], Compare(t)))
  {
    StepsAreCounted(n, mode, acts, run, t, k);
    InvAlways(n, false, mode, acts, run, k);
    if !run[k].threads[t].pc.Idle? { NeverStuck(false, run[k], t); }
    assert Rounds(n, n) == n * n + n;
  }
}
