// Runs in which the stealing loop as written (project2/snapshot.cpp:109-111) returns a vector that
// the registers never held: one for every number of threads from two on.
module SnapshotCounterexample {
  import opened SnapshotLabels
  import opened Options
  import opened Snapshot
  import opened SnapshotProofs

  function Reads(t: nat, m: nat): seq<Action> {
    seq(m, _ => Read(t))
  }

  function Buffer(n: nat, value: int): seq<int> {
    seq(n, _ => value)
  }

  // Thread 1 scans undisturbed and writes `value`.
  function UpdateByThread1(n: nat, value: int): seq<Action> {
    [Begin(1, Buffer(n, 0))] + Reads(1, n) + Reads(1, n) + [Compare(1)] + [Write(1, value)]
  }

  // Thread 0 collects once, then sees register 1 move twice. Its buffer starts out full of sevens.
  function FirstMove(n: nat): seq<Action> {
    [Begin(0, Buffer(n, 7))] + Reads(0, n) + UpdateByThread1(n, 5) + Reads(0, n) + [Compare(0)]
  }

  function SecondMove(n: nat): seq<Action> {
    UpdateByThread1(n, 6) + Reads(0, n) + [Compare(0)]
  }

  // Register 1 has been written at most twice, and no other one has been written.
  ghost predicate Quiet(n: nat, s: State) {
    && |s.hist| > 0 && |s.threads| == n >= 2
    && forall m :: 0 <= m < |s.hist| ==> QuietRow(n, s.hist[m])
  }

  ghost predicate QuietRow(n: nat, row: seq<Cell>) {
    && |row| == n >= 2 && row[1].version <= 2
    && forall i :: 0 <= i < n && i != 1 ==> row[i] == INITIAL_CELL
  }

  ghost predicate QuietRun(n: nat, acts: seq<Action>, run: seq<State>) {
    && |run| == |acts| + 1
    && (forall j :: 0 <= j < |run| ==> Quiet(n, run[j]))
    && forall j :: 0 <= j < |acts| ==> run[j + 1] == Step(run[j], acts[j])
  }

  lemma OneStep(n: nat, s: State, a: Action) returns (run: seq<State>)
    requires Quiet(n, s)
    requires a.Write? ==> Enabled(s, a) ==> a.t == 1 && s.Registers()[1].version < 2
    ensures QuietRun(n, [a], run) && run[0] == s && run[1] == Step(s, a)
  {
    run := [s, Step(s, a)];
    forall m | 0 <= m < |run[1].hist| ensures QuietRow(n, run[1].hist[m]) {
      if m < |s.hist| {
        assert run[1].hist[m] == s.hist[m];
      } else {
        assert QuietRow(n, s.Registers());
      }
    }
  }

  lemma Concat(n: nat, a1: seq<Action>, r1: seq<State>, a2: seq<Action>, r2: seq<State>) returns (run: seq<State>)
    requires QuietRun(n, a1, r1) && QuietRun(n, a2, r2) && r1[|a1|] == r2[0]
    ensures QuietRun(n, a1 + a2, run) && run[0] == r1[0] && run[|a1 + a2|] == r2[|a2|]
  {
    hide QuietRow, Step;
    run := r1 + r2[1..];
    forall j | 0 <= j < |a1 + a2|
      ensures run[j + 1] == Step(run[j], (a1 + a2)[j])
    {
      if j >= |a1| {
        assert run[j] == r2[j - |a1|];
      }
    }
  }

  // ---------- one collect ----------

  // The thread has m registers of a collect still to read.
  ghost predicate Collecting(n: nat, s: State, t: nat, m: nat)
    requires Quiet(n, s) && t < n
  {
    var th := s.threads[t];
    && 1 <= m <= n
    && ((th.pc.FirstCollect? && th.oldCopy == s.Registers()[..n - m])
        || (th.pc.NextCollect? && th.newCopy == s.Registers()[..n - m]))
  }

  // What one collect, started in th and ended in th', leaves behind.
  ghost predicate Collected(th: Thread, th': Thread, registers: seq<Cell>) {
    && th'.moved == th.moved && th'.snap == th.snap
    && if th.pc.FirstCollect? then
         th'.pc.NextCollect? && th'.oldCopy == registers && |th'.oldTimes| > 0 && th'.newCopy == []
       else
         th'.pc.Comparing? && th'.oldCopy == th.oldCopy && th'.newCopy == registers && th'.oldTimes == th.oldTimes
  }

  lemma OneRead(n: nat, s: State, t: nat, m: nat)
    requires Quiet(n, s) && t < n && Collecting(n, s, t, m) && Quiet(n, Step(s, Read(t)))
    ensures var s' := Step(s, Read(t));
            && s'.mode == s.mode && s'.Registers() == s.Registers()
            && s'.threads == s.threads[t := s'.threads[t]]
            && if m == 1 then Collected(s.threads[t], s'.threads[t], s.Registers())
               else Collecting(n, s', t, m - 1) && s'.threads[t].moved == s.threads[t].moved
                    && s'.threads[t].snap == s.threads[t].snap && s'.threads[t].pc == s.threads[t].pc
                    && (s.threads[t].pc.NextCollect? ==>
                          s'.threads[t].oldCopy == s.threads[t].oldCopy && s'.threads[t].oldTimes == s.threads[t].oldTimes)
  {
    assert QuietRow(n, s.Registers());
    assert s.Registers()[..n - m] + [s.Registers()[n - m]] == s.Registers()[..n - m + 1];
  }

  lemma {:induction false} Collect(n: nat, s: State, t: nat, m: nat) returns (run: seq<State>)
    requires Quiet(n, s) && t < n && Collecting(n, s, t, m)
    ensures QuietRun(n, Reads(t, m), run) && run[0] == s
    ensures var s' := run[m];
            && s'.mode == s.mode && s'.Registers() == s.Registers()
            && s'.threads == s.threads[t := s'.threads[t]]
            && Collected(s.threads[t], s'.threads[t], s.Registers())
    decreases m
  {
    var r1 := OneStep(n, s, Read(t));
    OneRead(n, s, t, m);
    hide Step, Quiet, QuietRow;
    if m == 1 {
      run := r1;
      assert Reads(t, 1) == [Read(t)];
    } else {
      var r2 := Collect(n, r1[1], t, m - 1);
      run := Concat(n, [Read(t)], r1, Reads(t, m - 1), r2);
      assert Reads(t, m) == [Read(t)] + Reads(t, m - 1);
    }
  }

  lemma CompareStep(n: nat, s: State, t: nat, o: Outcome) returns (run: seq<State>)
    requires Quiet(n, s) && Enabled(s, Compare(t))
    requires CompareFrom(0, s.threads[t].oldCopy, s.threads[t].newCopy, s.threads[t].moved) == o
    ensures QuietRun(n, [Compare(t)], run) && run[0] == s
    ensures run[1].threads == s.threads[t := Finish(s, t)] && run[1].Registers() == s.Registers()
    ensures run[1].mode == s.mode
  {
    run := OneStep(n, s, Compare(t));
  }

  lemma BeginStep(n: nat, s: State, t: nat, memory: seq<int>) returns (run: seq<State>)
    requires Quiet(n, s) && t < n && s.threads[t].pc.Idle? && |memory| == n
    ensures QuietRun(n, [Begin(t, memory)], run) && run[0] == s
    ensures var s' := run[1];
            && s'.mode == s.mode && s'.Registers() == s.Registers() && s'.threads == s.threads[t := s'.threads[t]]
            && s'.threads[t].pc.FirstCollect? && s'.threads[t].moved == seq(n, _ => false)
            && s'.threads[t].snap == memory && Collecting(n, s', t, n)
  {
    assert QuietRow(n, s.Registers());
    run := OneStep(n, s, Begin(t, memory));
  }

  // ---------- one undisturbed update of thread 1 ----------

  lemma UpdateRun(n: nat, s: State, value: int) returns (run: seq<State>)
    requires Quiet(n, s) && s.threads[1].pc.Idle? && |s.Registers()| == n && s.Registers()[1].version < 2
    requires s.Registers()[1].stamp == LabelAfter(s.Registers()[1].version)
    ensures QuietRun(n, UpdateByThread1(n, value), run) && run[0] == s
    ensures var s' := run[|UpdateByThread1(n, value)|];
            && s'.mode == s.mode && |s'.Registers()| == n
            && s'.threads == s.threads[1 := s'.threads[1]] && s'.threads[1].pc.Idle?
            && var c := s'.Registers()[1];
               && c.value == value && c.snap == Some(Values(s.Registers()))
               && c.version == s.Registers()[1].version + 1 && c.stamp == LabelAfter(c.version)
  {
    var r1 := BeginStep(n, s, 1, Buffer(n, 0));
    var r2 := Collect(n, r1[1], 1, n);
    var s2 := r2[n];
    var r3 := Collect(n, s2, 1, n);
    var s3 := r3[n];
    var th := s3.threads[1];
    assert QuietRow(n, s.Registers());
    assert CompareFrom(0, th.oldCopy, th.newCopy, th.moved) == Clean;
    var r4 := CompareStep(n, s3, 1, Clean);
    var r5 := OneStep(n, r4[1], Write(1, value));
    hide Quiet, Step, QuietRow, Collected, Collecting, Finish;
    var q := Concat(n, [Begin(1, Buffer(n, 0))], r1, Reads(1, n), r2);
    q := Concat(n, [Begin(1, Buffer(n, 0))] + Reads(1, n), q, Reads(1, n), r3);
    q := Concat(n, [Begin(1, Buffer(n, 0))] + Reads(1, n) + Reads(1, n), q, [Compare(1)], r4);
    run := Concat(n, [Begin(1, Buffer(n, 0))] + Reads(1, n) + Reads(1, n) + [Compare(1)], q, [Write(1, value)], r5);
  }

  // ---------- what thread 0 sees ----------

  // The first register that differs is register 1.
  lemma OnlyRegister1Differs(n: nat, a: seq<Cell>, b: seq<Cell>, moved: seq<bool>)
    requires QuietRow(n, a) && QuietRow(n, b) && |moved| == n && a[1].stamp != b[1].stamp
    ensures CompareFrom(0, a, b, moved) == if moved[1] then Steal(1) else Retry(1)
  {
    assert CompareFrom(1, a, b, moved) == if moved[1] then Steal(1) else Retry(1);
  }

  // Thread 0 has marked thread 1 as moved.
  ghost predicate SeenMoveOnce(n: nat, s: State) {
    && Quiet(n, s) && s.mode == AsWritten
    && s.threads[1].pc.Idle? && |s.Registers()| == n
    && s.Registers()[1].stamp == LabelAfter(1) && s.Registers()[1].version == 1
    && var th := s.threads[0];
       && th.pc.NextCollect? && th.newCopy == [] && th.oldCopy == s.Registers()
       && th.moved == seq(n, _ => false)[1 := true] && th.snap == Buffer(n, 7)
  }

  lemma FirstMoveRun(n: nat) returns (run: seq<State>)
    requires n >= 2
    ensures QuietRun(n, FirstMove(n), run) && run[0] == Initial(n, AsWritten)
    ensures SeenMoveOnce(n, run[|FirstMove(n)|])
  {
    var s := Initial(n, AsWritten);
    assert QuietRow(n, s.Registers());
    var r1 := BeginStep(n, s, 0, Buffer(n, 7));
    var r2 := Collect(n, r1[1], 0, n);
    var r3 := UpdateRun(n, r2[n], 5);
    var s3 := r3[|UpdateByThread1(n, 5)|];
    var r4 := Collect(n, s3, 0, n);
    LabelsDistinctWithinAPeriod(0, 1);
    var th := r4[n].threads[0];
    assert QuietRow(n, th.oldCopy) && QuietRow(n, th.newCopy);
    OnlyRegister1Differs(n, th.oldCopy, th.newCopy, th.moved);
    var r5 := CompareStep(n, r4[n], 0, Retry(1));
    assert SeenMoveOnce(n, r5[1]);
    hide Quiet, Step, QuietRow, Collected, Collecting, Finish, UpdateByThread1, SeenMoveOnce;
    var q := Concat(n, [Begin(0, Buffer(n, 7))], r1, Reads(0, n), r2);
    q := Concat(n, [Begin(0, Buffer(n, 7))] + Reads(0, n), q, UpdateByThread1(n, 5), r3);
    q := Concat(n, [Begin(0, Buffer(n, 7))] + Reads(0, n) + UpdateByThread1(n, 5), q, Reads(0, n), r4);
    run := Concat(n, [Begin(0, Buffer(n, 7))] + Reads(0, n) + UpdateByThread1(n, 5) + Reads(0, n), q, [Compare(0)], r5);
  }

  // Thread 0 steals a vector and stores all of it in slot 1, so slot 0 of its buffer stays as it was.
  lemma SecondMoveRun(n: nat, s: State) returns (run: seq<State>)
    requires SeenMoveOnce(n, s)
    ensures QuietRun(n, SecondMove(n), run) && run[0] == s
    ensures var last := run[|SecondMove(n)|];
            last.threads[0].pc.Done? && |last.threads[0].pc.result| == n && last.threads[0].pc.result[0] == 7
  {
    var r6 := UpdateRun(n, s, 6);
    var s6 := r6[|UpdateByThread1(n, 6)|];
    var r7 := Collect(n, s6, 0, n);
    LabelsDistinctWithinAPeriod(1, 2);
    var th := r7[n].threads[0];
    assert QuietRow(n, th.oldCopy) && QuietRow(n, th.newCopy);
    OnlyRegister1Differs(n, th.oldCopy, th.newCopy, th.moved);
    var r8 := CompareStep(n, r7[n], 0, Steal(1));
    hide Quiet, Step, QuietRow, Collected, Collecting, UpdateByThread1;
    var q := Concat(n, UpdateByThread1(n, 6), r6, Reads(0, n), r7);
    run := Concat(n, UpdateByThread1(n, 6) + Reads(0, n), q, [Compare(0)], r8);
  }

  // With two threads or more the loop as written is not linearizable: at no instant of the whole run
  // did the registers hold what thread 0 returns, although no register comes near UINT_MAX writes.
  lemma StealAsWrittenIsNotLinearizable(n: nat) returns (acts: seq<Action>, run: seq<State>)
    requires n >= 2
    ensures IsRun(n, AsWritten, acts, run) && FewWritesThroughout(run)
    ensures var last := run[|acts|];
            && |last.threads| == n && last.threads[0].pc.Done?
            && forall j :: 0 <= j <= |acts| ==> last.threads[0].pc.result != Values(run[j].Registers())
  {
    var r1 := FirstMoveRun(n);
    var r2 := SecondMoveRun(n, r1[|FirstMove(n)|]);
    acts := FirstMove(n) + SecondMove(n);
    run := Concat(n, FirstMove(n), r1, SecondMove(n), r2);
    forall j | 0 <= j <= |acts|
      ensures FewWrites(run[j]) && run[|acts|].threads[0].pc.result != Values(run[j].Registers())
    {
      QuietIsFew(n, run[j]);
    }
  }

  lemma QuietIsFew(n: nat, s: State)
    requires Quiet(n, s)
    ensures FewWrites(s) && |s.Registers()| == n && Values(s.Registers())[0] == 0
  {
    assert QuietRow(n, s.Registers());
    forall m, i | 0 <= m < |s.hist| && 0 <= i < n ensures s.hist[m][i].version <= 2 {
      assert QuietRow(n, s.hist[m]);
    }
  }
}
