// When the stealing loop as written (project2/snapshot.cpp:109-111) is right.
module SnapshotAsWritten {
  import opened SnapshotLabels
  import opened Options
  import opened Snapshot
  import opened SnapshotProofs
  import SnapshotCounterexample

  // ---------- the loop on its own ----------

  // What the loop leaves in the buffer is the stolen vector exactly when every other slot of the
  // uninitialised buffer, and the last stolen value, happen to agree with it.
  lemma StealAsWrittenIsRightExactlyWhen(memory: seq<int>, i: nat, stolen: seq<int>)
    requires i < |memory| == |stolen|
    ensures Stolen(AsWritten, memory, i, stolen) == stolen
       <==> stolen[i] == stolen[|stolen| - 1] && forall k :: 0 <= k < |stolen| && k != i ==> memory[k] == stolen[k]
  {
    var r := Stolen(AsWritten, memory, i, stolen);
    if stolen[i] == stolen[|stolen| - 1] && forall k :: 0 <= k < |stolen| && k != i ==> memory[k] == stolen[k] {
      assert r == stolen;
    }
    if r == stolen {
      assert r[i] == stolen[i];
      assert forall k :: 0 <= k < |stolen| && k != i ==> r[k] == memory[k];
    }
  }

  // So the loop is right for whatever `new int[n]` returns exactly when there is one thread.
  lemma StealAsWrittenIsRightForOneThreadOnly(n: nat, i: nat)
    requires i < n
    ensures (forall memory: seq<int>, stolen: seq<int> :: |memory| == |stolen| == n ==>
               Stolen(AsWritten, memory, i, stolen) == stolen)
       <==> n == 1
  {
    if n == 1 {
      forall memory: seq<int>, stolen: seq<int> | |memory| == |stolen| == n
        ensures Stolen(AsWritten, memory, i, stolen) == stolen
      {
        StealAsWrittenIsRightExactlyWhen(memory, i, stolen);
      }
    } else {
      var memory, stolen := seq(n, _ => 1), seq(n, _ => 0);
      var k := if i == 0 then 1 else 0;
      assert Stolen(AsWritten, memory, i, stolen)[k] == 1;
    }
  }

  // ---------- all runs of n threads ----------

  // After k steps of a run thread t has completed a scan.
  ghost predicate Completes(n: nat, mode: StealMode, acts: seq<Action>, run: seq<State>, t: nat, k: nat) {
    && IsRun(n, mode, acts, run) && FewWritesThroughout(run) && k <= |acts|
    && t < |run[k].threads| && run[k].threads[t].pc.Done?
  }

  // Every completed scan of every run returns what the registers held at one instant of the scan.
  ghost predicate Linearizable(n: nat, mode: StealMode) {
    forall acts, run, t, k :: Completes(n, mode, acts, run, t, k) ==> HeldDuringScan(run, t, k)
  }

  // Copied slot by slot the vector is right for any number of threads; as written the scan is
  // linearizable exactly when there are not two threads to disturb each other.
  lemma LinearizableExactlyWhen(n: nat, mode: StealMode)
    ensures Linearizable(n, mode) <==> mode.AsIntended? || n <= 1
  {
    if mode.AsIntended? || n <= 1 {
      forall acts, run, t, k | Completes(n, mode, acts, run, t, k) ensures HeldDuringScan(run, t, k) {
        InvAlways(n, false, mode, acts, run, k);
        if n == 1 { LoneThreadIsAlwaysClean(mode, acts, run, k); }
        ScanIsLinearizable(n, mode, acts, run, t, k);
      }
    } else {
      var acts, run := SnapshotCounterexample.StealAsWrittenIsNotLinearizable(n);
      assert Completes(n, mode, acts, run, 0, |acts|);
      assert !HeldDuringScan(run, 0, |acts|);
    }
  }

  // ---------- one scan ----------

  // The first k actions of a run, with other memory in the buffer of the scan that thread t began at
  // time `begin`.
  function Rebuffered(acts: seq<Action>, t: nat, begin: nat, k: nat, memory: seq<int>): seq<Action>
    requires 1 <= begin <= k <= |acts|
  {
    acts[..k][begin - 1 := Begin(t, memory)]
  }

  // The same thread with other memory in its buffer, and therefore perhaps another result.
  predicate TwinThread(th: Thread, th': Thread) {
    && |th'.snap| == |th.snap|
    && (if th.pc.Done? then th'.pc.Done? && th'.pc.at == th.pc.at && th'.pc.clean == th.pc.clean else th'.pc == th.pc)
    && th' == th.(snap := th'.snap, pc := th'.pc)
  }

  predicate Twins(s: State, s': State, t: nat) {
    && t < |s.threads| && |s.hist| > 0
    && s' == s.(threads := s'.threads) && |s'.threads| == |s.threads|
    && TwinThread(s.threads[t], s'.threads[t])
    && s'.threads == s.threads[t := s'.threads[t]]
  }

  // Until the scan is done the buffer is as it was; a steal overwrites one slot of it.
  ghost predicate Buffered(th: Thread, memory: seq<int>) {
    if th.pc.Done? then
      |th.pc.result| == |memory|
        && (!th.pc.clean ==> exists i :: 0 <= i < |memory| && KeepsOthers(th.pc.result, memory, i))
    else th.snap == memory
  }

  predicate KeepsOthers(result: seq<int>, memory: seq<int>, i: int)
    requires |result| == |memory|
  {
    forall j :: 0 <= j < |memory| && j != i ==> result[j] == memory[j]
  }

  lemma TwinsStep(s: State, s': State, t: nat, a: Action, memory: seq<int>)
    requires Twins(s, s', t) && Buffered(s'.threads[t], memory) && s.mode == AsWritten && |memory| == |s.threads|
    requires !s.threads[t].pc.Idle? && !Step(s, a).threads[t].pc.Idle?
    ensures Twins(Step(s, a), Step(s', a), t) && Buffered(Step(s', a).threads[t], memory)
  {
    hide TwinThread, Buffered, Enabled, KeepsOthers, Finish, ReadRegister, BeginScan, NewCell;
    TwinsEnabled(s, s', t, a);
    if Enabled(s, a) {
      if a.t != t {
        TwinsOther(s, s', t, a);
      } else if a.Compare? {
        TwinsFinish(s, s', t, memory);
      } else if a.Read? {
        TwinsRead(s, s', t, memory);
      } else {
        OutsideScan(s, a);
      }
    }
  }

  lemma TwinsEnabled(s: State, s': State, t: nat, a: Action)
    requires Twins(s, s', t)
    ensures Enabled(s, a) <==> Enabled(s', a)
  {
  }

  lemma TwinsOther(s: State, s': State, t: nat, a: Action)
    requires Twins(s, s', t) && a.t != t && Enabled(s, a) && Enabled(s', a)
    ensures Twins(Step(s, a), Step(s', a), t) && Step(s', a).threads[t] == s'.threads[t]
  {
    hide TwinThread, CompareFrom;
  }

  lemma TwinsRead(s: State, s': State, t: nat, memory: seq<int>)
    requires Twins(s, s', t) && Enabled(s, Read(t)) && Enabled(s', Read(t)) && Buffered(s'.threads[t], memory)
    ensures TwinThread(ReadRegister(s, t), ReadRegister(s', t)) && Buffered(ReadRegister(s', t), memory)
  {
    hide KeepsOthers;
  }

  lemma OutsideScan(s: State, a: Action)
    requires Enabled(s, a) && (a.Begin? || a.Write?)
    ensures a.Begin? ==> s.threads[a.t].pc.Idle?
    ensures a.Write? ==> Step(s, a).threads[a.t].pc.Idle?
  {
  }

  lemma TwinsFinish(s: State, s': State, t: nat, memory: seq<int>)
    requires Twins(s, s', t) && Enabled(s, Compare(t)) && Enabled(s', Compare(t)) && s.mode == AsWritten
    requires Buffered(s'.threads[t], memory) && |memory| == |s.threads|
    ensures TwinThread(Finish(s, t), Finish(s', t)) && Buffered(Finish(s', t), memory)
  {
    var th, r := s'.threads[t], Finish(s', t);
    var o := CompareFrom(0, th.oldCopy, th.newCopy, th.moved);
    if o.Steal? {
      assert KeepsOthers(r.pc.result, memory, o.i);
    }
  }

  lemma TwinsAreFew(s: State, s': State, t: nat)
    requires Twins(s, s', t) && FewWrites(s)
    ensures FewWrites(s')
  {
    forall u, i | 0 <= u < |s'.threads| && !s'.threads[u].pc.Idle? && s'.threads[u].begin < |s'.hist|
                  && 0 <= i < |s'.Registers()| && i < |s'.hist[s'.threads[u].begin]|
      ensures s'.Registers()[i].version < s'.hist[s'.threads[u].begin][i].version + UINT_MAX
    {
      assert !s.threads[u].pc.Idle? && s.threads[u].begin == s'.threads[u].begin;
      assert s.Registers()[i].version < s.hist[s.threads[u].begin][i].version + UINT_MAX;
    }
  }

  // Other memory changes nothing but the buffer of this scan and its result.
  lemma {:induction false} TwinRuns(n: nat, acts: seq<Action>, run: seq<State>, t: nat, k: nat, memory: seq<int>,
                                    run': seq<State>, j: nat)
    requires IsRun(n, AsWritten, acts, run) && k <= |acts| && |memory| == n
    requires t < |run[k].threads| && run[k].threads[t].pc.Done?
    requires 1 <= run[k].threads[t].begin <= k
    requires IsRun(n, AsWritten, Rebuffered(acts, t, run[k].threads[t].begin, k, memory), run') && j <= k
    ensures |run[j].hist| > 0 && |run[j].threads| == n && run[j].mode == AsWritten
    ensures j < run[k].threads[t].begin ==> run'[j] == run[j]
    ensures j >= run[k].threads[t].begin ==> Twins(run[j], run'[j], t) && Buffered(run'[j].threads[t], memory)
  {
    var b := run[k].threads[t].begin;
    var acts' := Rebuffered(acts, t, b, k, memory);
    InvAlways(n, false, AsWritten, acts, run, j);
    ScanInterval(n, AsWritten, acts, run, t, k);
    if j > 0 {
      TwinRuns(n, acts, run, t, k, memory, run', j - 1);
      assert run'[j] == Step(run'[j - 1], acts'[j - 1]) && run[j] == Step(run[j - 1], acts[j - 1]);
      if j > b {
        assert InScanSince(run[j - 1], t, b) && InScanSince(run[j], t, b);
        hide Step, IsRun, Inv, Twins, Buffered, FewWrites;
        TwinsStep(run[j - 1], run'[j - 1], t, acts[j - 1], memory);
      } else if j == b {
        assert InScanSince(run[b], t, b);
        HistoryIsTheTrace(n, AsWritten, acts, run, b - 1, b - 1);
        StepInsideScan(run[b - 1], acts[b - 1], t);
        hide IsRun, Inv;
        TwinsBegin(run[b - 1], acts[b - 1], t, memory);
      }
    }
  }

  lemma TwinsBegin(s: State, a: Action, t: nat, memory: seq<int>)
    requires StartsScan(s, a, t) && |memory| == |s.threads|
    ensures Twins(Step(s, a), Step(s, Begin(t, memory)), t)
    ensures Buffered(Step(s, Begin(t, memory)).threads[t], memory)
  {
  }

  // ---------- memory that no register ever held ----------

  function AboveRow(row: seq<Cell>): (v: int)
    ensures forall i :: 0 <= i < |row| ==> row[i].value < v
  {
    if row == [] then 0
    else
      var v := AboveRow(row[1..]);
      assert forall i :: 1 <= i < |row| ==> row[i] == row[1..][i - 1];
      if row[0].value < v then v else row[0].value + 1
  }

  function AboveAll(hist: seq<seq<Cell>>): (v: int)
    ensures forall m, i :: 0 <= m < |hist| && 0 <= i < |hist[m]| ==> hist[m][i].value < v
  {
    if hist == [] then 0
    else
      var v, w := AboveAll(hist[1..]), AboveRow(hist[0]);
      assert forall m :: 1 <= m < |hist| ==> hist[m] == hist[1..][m - 1];
      if w < v then v else w
  }

  lemma {:induction false} SomeRun(n: nat, mode: StealMode, acts: seq<Action>) returns (run: seq<State>)
    ensures IsRun(n, mode, acts, run)
  {
    if acts == [] {
      run := [Initial(n, mode)];
    } else {
      var m := |acts| - 1;
      var r := SomeRun(n, mode, acts[..m]);
      HistoryIsTheTrace(n, mode, acts[..m], r, m, m);
      run := r + [Step(r[m], acts[m])];
    }
  }

  // The run with other memory still is one, with as few writes, and the thread completes its scan at
  // the same time in the same way.
  lemma TwinCompletes(n: nat, acts: seq<Action>, run: seq<State>, t: nat, k: nat, memory: seq<int>, run': seq<State>)
    requires Completes(n, AsWritten, acts, run, t, k) && |memory| == n && 1 <= run[k].threads[t].begin <= k
    requires IsRun(n, AsWritten, Rebuffered(acts, t, run[k].threads[t].begin, k, memory), run')
    ensures Completes(n, AsWritten, Rebuffered(acts, t, run[k].threads[t].begin, k, memory), run', t, k)
    ensures run'[k].threads[t].pc.clean == run[k].threads[t].pc.clean && run'[k].hist == run[k].hist
    ensures run'[k].threads[t].begin == run[k].threads[t].begin && Buffered(run'[k].threads[t], memory)
  {
    forall j | 0 <= j <= k ensures |run'[j].hist| > 0 && FewWrites(run'[j]) {
      TwinRuns(n, acts, run, t, k, memory, run', j);
      if j >= run[k].threads[t].begin { TwinsAreFew(run[j], run'[j], t); }
    }
    TwinRuns(n, acts, run, t, k, memory, run', k);
  }

  // Values that no register ever held show in the result of a steal.
  lemma StolenNeverHeld(n: nat, acts: seq<Action>, run: seq<State>, t: nat, k: nat, v: int)
    requires Completes(n, AsWritten, acts, run, t, k) && n >= 2 && !run[k].threads[t].pc.clean
    requires Buffered(run[k].threads[t], seq(n, _ => v))
    requires forall m, i :: 0 <= m < |run[k].hist| && 0 <= i < |run[k].hist[m]| ==> run[k].hist[m][i].value < v
    ensures !HeldDuringScan(run, t, k)
  {
    var result := run[k].threads[t].pc.result;
    var i :| 0 <= i < n && KeepsOthers(result, seq(n, _ => v), i);
    var slot := if i == 0 then 1 else 0;
    assert result[slot] == v;
    forall j | run[k].threads[t].begin <= j <= k && |run[j].hist| > 0
      ensures result != Values(run[j].Registers())
    {
      HistoryIsTheTrace(n, AsWritten, acts, run, j, k);
      var row := run[k].hist[j];
      if |row| == n { assert Values(row)[slot] == row[slot].value < v; }
    }
  }

  // After k steps the thread has completed a scan with a result that the registers held meanwhile.
  ghost predicate ReturnsHeld(run: seq<State>, t: nat, k: nat) {
    k < |run| && t < |run[k].threads| && run[k].threads[t].pc.Done? && HeldDuringScan(run, t, k)
  }

  // For the code as written, a completed scan is right whatever `new int[n]` left in its buffer,
  // everything else being the same, exactly when it did not enter the stealing branch.
  lemma ScanAsWrittenIsRightExactlyWhen(n: nat, acts: seq<Action>, run: seq<State>, t: nat, k: nat)
    requires Completes(n, AsWritten, acts, run, t, k)
    ensures 1 <= run[k].threads[t].begin <= k
    ensures run[k].threads[t].pc.clean
       <==> forall memory, run' ::
              |memory| == n && IsRun(n, AsWritten, Rebuffered(acts, t, run[k].threads[t].begin, k, memory), run') ==>
                ReturnsHeld(run', t, k)
  {
    ScanInterval(n, AsWritten, acts, run, t, k);
    var b := run[k].threads[t].begin;
    if run[k].threads[t].pc.clean {
      forall memory, run' | |memory| == n && IsRun(n, AsWritten, Rebuffered(acts, t, b, k, memory), run')
        ensures ReturnsHeld(run', t, k)
      {
        TwinCompletes(n, acts, run, t, k, memory, run');
        ScanIsLinearizable(n, AsWritten, Rebuffered(acts, t, b, k, memory), run', t, k);
      }
    } else {
      InvAlways(n, false, AsWritten, acts, run, k);
      if n == 1 { LoneThreadIsAlwaysClean(AsWritten, acts, run, k); }
      var v := AboveAll(run[k].hist);
      var memory: seq<int> := seq(n, _ => v);
      var run' := SomeRun(n, AsWritten, Rebuffered(acts, t, b, k, memory));
      TwinCompletes(n, acts, run, t, k, memory, run');
      StolenNeverHeld(n, Rebuffered(acts, t, b, k, memory), run', t, k, v);
      assert |memory| == n && !ReturnsHeld(run', t, k);
    }
  }
}
