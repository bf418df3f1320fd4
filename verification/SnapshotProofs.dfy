// Linearizability and the wait-free bound of the atomic snapshot, over every run.
module SnapshotProofs {
  import opened SnapshotLabels
  import opened Options
  import opened Snapshot

  // ---------- the invariant ----------

  ghost predicate Advances(hist: seq<seq<Cell>>, m: nat, i: nat)
    requires m + 1 < |hist| && i < |hist[m]| == |hist[m + 1]|
  {
    hist[m][i] == hist[m + 1][i] || hist[m][i].version < hist[m + 1][i].version
  }

  // Register i never goes back: versions grow, and a version names one cell.
  ghost predicate HistoryOk(n: nat, hist: seq<seq<Cell>>) {
    && |hist| > 0
    && (forall m :: 0 <= m < |hist| ==> |hist[m]| == n)
    && (forall m, i :: 0 <= m < |hist| - 1 && 0 <= i < n ==> Advances(hist, m, i))
  }

  lemma {:induction false} Monotone(n: nat, hist: seq<seq<Cell>>, m: nat, k: nat, i: nat)
    requires HistoryOk(n, hist) && m <= k < |hist| && i < n
    ensures hist[m][i].version <= hist[k][i].version
    ensures hist[m][i].version == hist[k][i].version ==> hist[m][i] == hist[k][i]
    decreases k - m
  {
    if m < k {
      assert Advances(hist, m, i);
      Monotone(n, hist, m + 1, k, i);
    }
  }

  // Which results are claimed to be values of one instant. `few` stands for the assumption on labels.
  predicate Trusted(few: bool, mode: StealMode, clean: bool) {
    few && (mode.AsIntended? || clean)
  }

  // A cell holds the label of its version and the result of a scan that started after the
  // previous version of the same register was written.
  ghost predicate CellOk(few: bool, mode: StealMode, hist: seq<seq<Cell>>, m: nat, i: nat)
    requires m < |hist| && i < |hist[m]|
  {
    var c := hist[m][i];
    && c.stamp == LabelAfter(c.version)
    && (c.version == 0 ==> c == INITIAL_CELL)
    && (c.version > 0 ==>
          && c.snap.Some? && |c.snap.value| == |hist[m]|
          && c.begin <= c.at <= m
          && |hist[c.begin]| == |hist[m]|
          && hist[c.begin][i].version + 1 == c.version
          && (Trusted(few, mode, c.clean) ==> c.snap.value == Values(hist[c.at])))
  }

  ghost predicate CellsOk(n: nat, few: bool, mode: StealMode, hist: seq<seq<Cell>>)
    requires HistoryOk(n, hist)
  {
    forall m, i :: 0 <= m < |hist| && 0 <= i < n ==> CellOk(few, mode, hist, m, i)
  }

  // A (possibly unfinished) collect: cell i was read at times[i], in order, no earlier than `from`.
  ghost predicate CollectOk(n: nat, hist: seq<seq<Cell>>, from: nat, copy: seq<Cell>, times: seq<nat>)
    requires HistoryOk(n, hist)
  {
    && |copy| == |times| <= n
    && (forall i :: 0 <= i < |times| ==> from <= times[i] < |hist| && copy[i] == hist[times[i]][i])
    && (forall i, j :: 0 <= i <= j < |times| ==> times[i] <= times[j])
  }

  function MovedSet(moved: seq<bool>): set<int> {
    set i | 0 <= i < |moved| && moved[i]
  }

  ghost predicate MovedOk(n: nat, hist: seq<seq<Cell>>, th: Thread)
    requires HistoryOk(n, hist)
  {
    && |th.moved| == |th.oldCopy| == n
    && th.begin < |hist|
    && forall i :: 0 <= i < n && th.moved[i] ==> th.oldCopy[i].version > hist[th.begin][i].version
  }

  ghost predicate ResultOk(n: nat, few: bool, mode: StealMode, hist: seq<seq<Cell>>, th: Thread)
    requires HistoryOk(n, hist) && th.pc.Done?
  {
    && |th.pc.result| == n && th.begin <= th.pc.at < |hist|
    && (Trusted(few, mode, th.pc.clean) ==> th.pc.result == Values(hist[th.pc.at]))
    && (n == 1 ==> th.pc.clean)
  }

  ghost predicate ThreadOk(n: nat, few: bool, mode: StealMode, hist: seq<seq<Cell>>, t: nat, th: Thread)
    requires HistoryOk(n, hist) && t < n
  {
    && |th.moved| == |th.snap| == n
    && (th.pc.Idle? || (th.begin < |hist| && hist[th.begin][t].version == hist[|hist| - 1][t].version))
    && match th.pc
       case Idle => true
       case FirstCollect =>
         && CollectOk(n, hist, th.begin, th.oldCopy, th.oldTimes) && |th.oldCopy| < n
         && (forall i :: 0 <= i < n ==> !th.moved[i])
         && th.collects == 1
       case NextCollect =>
         && CollectOk(n, hist, th.begin, th.oldCopy, th.oldTimes) && |th.oldCopy| == n
         && CollectOk(n, hist, th.oldTimes[n - 1], th.newCopy, th.newTimes) && |th.newCopy| < n
         && MovedOk(n, hist, th)
         && th.collects == 2 + |MovedSet(th.moved)|
       case Comparing =>
         && CollectOk(n, hist, th.begin, th.oldCopy, th.oldTimes) && |th.oldCopy| == n
         && CollectOk(n, hist, th.oldTimes[n - 1], th.newCopy, th.newTimes) && |th.newCopy| == n
         && MovedOk(n, hist, th)
         && th.collects == 2 + |MovedSet(th.moved)|
       case Done(_, _, _) =>
         && ResultOk(n, few, mode, hist, th) && |th.oldTimes| > 0
         && 1 <= th.collects <= n + 2
  }

  ghost predicate Inv(few: bool, s: State) {
    var n := |s.threads|;
    && HistoryOk(n, s.hist)
    && CellsOk(n, few, s.mode, s.hist)
    && forall t :: 0 <= t < n ==> ThreadOk(n, few, s.mode, s.hist, t, s.threads[t])
  }

  // The assumption on labels: while a scan is under way no register is written UINT_MAX times.
  ghost predicate FewWrites(s: State)
    requires |s.hist| > 0
  {
    forall t, i :: 0 <= t < |s.threads| && !s.threads[t].pc.Idle?
                   && s.threads[t].begin < |s.hist|
                   && 0 <= i < |s.Registers()| && i < |s.hist[s.threads[t].begin]| ==>
                     s.Registers()[i].version < s.hist[s.threads[t].begin][i].version + UINT_MAX
  }

  // ---------- time passing ----------

  lemma ExtendHistory(n: nat, few: bool, mode: StealMode, hist: seq<seq<Cell>>, next: seq<Cell>)
    requires HistoryOk(n, hist) && CellsOk(n, few, mode, hist)
    requires |next| == n
    requires forall i :: 0 <= i < n ==>
      next[i] == hist[|hist| - 1][i] || next[i].version > hist[|hist| - 1][i].version
    ensures HistoryOk(n, hist + [next])
    ensures forall m, i :: 0 <= m < |hist| && 0 <= i < n ==> CellOk(few, mode, hist + [next], m, i)
    ensures forall i :: 0 <= i < n && next[i] == hist[|hist| - 1][i] ==>
      CellOk(few, mode, hist + [next], |hist|, i)
  {
    var hist' := hist + [next];
    var last := |hist| - 1;
    forall m, i | 0 <= m < |hist'| - 1 && 0 <= i < n
      ensures Advances(hist', m, i)
    {
      if m < last {
        assert Advances(hist, m, i);
      }
    }
    forall m, i | 0 <= m < |hist| && 0 <= i < n
      ensures CellOk(few, mode, hist', m, i)
    {
      assert CellOk(few, mode, hist, m, i);
    }
    forall i | 0 <= i < n && next[i] == hist[last][i]
      ensures CellOk(few, mode, hist', |hist|, i)
    {
      assert CellOk(few, mode, hist, last, i);
    }
  }

  // A thread that does not move stays consistent while time passes and others write.
  lemma ThreadStays(n: nat, few: bool, mode: StealMode, hist: seq<seq<Cell>>, next: seq<Cell>, t: nat, th: Thread)
    requires HistoryOk(n, hist) && HistoryOk(n, hist + [next]) && t < n == |next|
    requires ThreadOk(n, few, mode, hist, t, th)
    requires th.pc.Idle? || next[t] == hist[|hist| - 1][t]
    ensures ThreadOk(n, few, mode, hist + [next], t, th)
  {
  }

  // ---------- the steps ----------

  lemma EmptyMovedSet(moved: seq<bool>)
    requires forall i :: 0 <= i < |moved| ==> !moved[i]
    ensures MovedSet(moved) == {}
  {
  }

  lemma MarkMoved(moved: seq<bool>, i: nat)
    requires i < |moved| && !moved[i]
    ensures |MovedSet(moved[i := true])| == |MovedSet(moved)| + 1
  {
    assert MovedSet(moved[i := true]) == MovedSet(moved) + {i};
  }

  lemma {:induction false} MovedSetSize(moved: seq<bool>)
    ensures |MovedSet(moved)| <= |moved|
  {
    if |moved| > 0 {
      var last := |moved| - 1;
      MovedSetSize(moved[..last]);
      assert MovedSet(moved) == MovedSet(moved[..last]) + (if moved[last] then {last} else {});
    }
  }

  lemma CollectGrows(n: nat, hist: seq<seq<Cell>>, from: nat, copy: seq<Cell>, times: seq<nat>)
    requires HistoryOk(n, hist) && HistoryOk(n, hist + [hist[|hist| - 1]])
    requires CollectOk(n, hist, from, copy, times) && |copy| < n && from <= |hist|
    ensures CollectOk(n, hist + [hist[|hist| - 1]], from,
                      copy + [hist[|hist| - 1][|copy|]], times + [|hist|])
  {
  }

  lemma ReadKeepsThread(few: bool, s: State, t: nat)
    requires Inv(few, s) && Enabled(s, Read(t))
    requires HistoryOk(|s.threads|, s.hist + [s.Registers()])
    ensures ThreadOk(|s.threads|, few, s.mode, s.hist + [s.Registers()], t, ReadRegister(s, t))
  {
    var n := |s.threads|;
    var th := s.threads[t];
    ThreadStays(n, few, s.mode, s.hist, s.Registers(), t, th);
    if th.pc.FirstCollect? {
      CollectGrows(n, s.hist, th.begin, th.oldCopy, th.oldTimes);
      EmptyMovedSet(th.moved);
    } else {
      CollectGrows(n, s.hist, th.oldTimes[n - 1], th.newCopy, th.newTimes);
    }
  }

  // Equal labels in a clean double collect mean unchanged registers, hence a common instant.
  lemma CleanCollectIsAnInstant(s: State, t: nat)
    requires Inv(true, s) && FewWrites(s) && Enabled(s, Compare(t))
    requires CompareFrom(0, s.threads[t].oldCopy, s.threads[t].newCopy, s.threads[t].moved).Clean?
    ensures var th := s.threads[t];
            |th.oldTimes| > 0 &&
            var at := th.oldTimes[|th.oldTimes| - 1];
            th.begin <= at < |s.hist| && Values(th.newCopy) == Values(s.hist[at])
  {
    var n := |s.threads|;
    var th := s.threads[t];
    var at := th.oldTimes[n - 1];
    var now := |s.hist| - 1;
    forall i | 0 <= i < n
      ensures th.newCopy[i] == s.hist[at][i]
    {
      var v0, v1 := th.oldCopy[i].version, th.newCopy[i].version;
      assert CellOk(true, s.mode, s.hist, th.oldTimes[i], i) && CellOk(true, s.mode, s.hist, th.newTimes[i], i);
      Monotone(n, s.hist, th.begin, th.oldTimes[i], i);
      Monotone(n, s.hist, th.oldTimes[i], at, i);
      Monotone(n, s.hist, at, th.newTimes[i], i);
      Monotone(n, s.hist, th.newTimes[i], now, i);
      assert v1 < v0 + UINT_MAX;
      LabelsDistinctWithinAPeriod(v0, v1);
    }
    assert th.newCopy == s.hist[at];
  }

  // A register seen to move twice was written by an update whose scan lies inside this one.
  lemma StolenScanIsNested(few: bool, s: State, t: nat, i: nat)
    requires Inv(few, s) && Enabled(s, Compare(t))
    requires CompareFrom(0, s.threads[t].oldCopy, s.threads[t].newCopy, s.threads[t].moved) == Steal(i)
    ensures var cell := s.threads[t].newCopy[i];
            && cell.snap.Some? && |cell.snap.value| == |s.threads|
            && s.threads[t].begin < cell.begin <= cell.at < |s.hist|
            && (Trusted(few, s.mode, cell.clean) ==> cell.snap.value == Values(s.hist[cell.at]))
            && i != t
  {
    var n := |s.threads|;
    var th := s.threads[t];
    var cell := th.newCopy[i];
    var m := th.newTimes[i];
    assert CellOk(few, s.mode, s.hist, th.oldTimes[i], i) && CellOk(few, s.mode, s.hist, m, i);
    Monotone(n, s.hist, th.oldTimes[i], m, i);
    assert cell.version > th.oldCopy[i].version > s.hist[th.begin][i].version;
    if cell.begin <= th.begin {
      Monotone(n, s.hist, cell.begin, th.begin, i);
    }
    Monotone(n, s.hist, m, |s.hist| - 1, i);
  }

  lemma RetryKeepsThread(few: bool, s: State, t: nat, i: nat)
    requires Inv(few, s) && Enabled(s, Compare(t))
    requires CompareFrom(0, s.threads[t].oldCopy, s.threads[t].newCopy, s.threads[t].moved) == Retry(i)
    ensures ThreadOk(|s.threads|, few, s.mode, s.hist, t, Finish(s, t))
  {
    var n := |s.threads|;
    var th := s.threads[t];
    MarkMoved(th.moved, i);
    forall j | 0 <= j < n && th.moved[i := true][j]
      ensures th.newCopy[j].version > s.hist[th.begin][j].version
    {
      assert CellOk(few, s.mode, s.hist, th.oldTimes[j], j) && CellOk(few, s.mode, s.hist, th.newTimes[j], j);
      Monotone(n, s.hist, th.begin, th.oldTimes[j], j);
      Monotone(n, s.hist, th.oldTimes[j], th.newTimes[j], j);
    }
  }

  lemma CompareKeepsThread(few: bool, s: State, t: nat)
    requires Inv(few, s) && (few ==> FewWrites(s)) && Enabled(s, Compare(t))
    ensures ThreadOk(|s.threads|, few, s.mode, s.hist, t, Finish(s, t))
  {
    var th := s.threads[t];
    MovedSetSize(th.moved);
    match CompareFrom(0, th.oldCopy, th.newCopy, th.moved)
    case Clean => if few { CleanCollectIsAnInstant(s, t); }
    case Steal(i) => StolenScanIsNested(few, s, t, i);
    case Retry(i) => RetryKeepsThread(few, s, t, i);
  }

  lemma WriteKeepsInv(few: bool, s: State, t: nat, value: int)
    requires Inv(few, s) && Enabled(s, Write(t, value))
    ensures Inv(few, Step(s, Write(t, value)))
  {
    var n := |s.threads|;
    var s' := Step(s, Write(t, value));
    var next := s.Registers()[t := NewCell(s, t, value)];
    var th := s.threads[t];
    ExtendHistory(n, few, s.mode, s.hist, next);
    assert CellOk(few, s.mode, s.hist, |s.hist| - 1, t);
    assert CellOk(few, s.mode, s'.hist, |s.hist|, t);
    forall u | 0 <= u < n && u != t
      ensures ThreadOk(n, few, s.mode, s'.hist, u, s'.threads[u])
    {
      ThreadStays(n, few, s.mode, s.hist, next, u, s.threads[u]);
    }
  }

  lemma BeginKeepsThread(few: bool, s: State, t: nat, memory: seq<int>)
    requires Inv(few, s) && Enabled(s, Begin(t, memory))
    requires HistoryOk(|s.threads|, s.hist + [s.Registers()])
    ensures ThreadOk(|s.threads|, few, s.mode, s.hist + [s.Registers()], t, BeginScan(s, t, memory))
  {
  }

  lemma LocalStepKeepsThread(few: bool, s: State, a: Action, u: nat)
    requires Inv(few, s) && (few ==> FewWrites(s)) && u < |s.threads|
    requires HistoryOk(|s.threads|, s.hist + [s.Registers()])
    requires !(a.Write? && Enabled(s, a))
    ensures ThreadOk(|s.threads|, few, s.mode, s.hist + [s.Registers()], u, Step(s, a).threads[u])
  {
    var n := |s.threads|;
    assert ThreadOk(n, few, s.mode, s.hist, u, s.threads[u]);
    hide ThreadOk, CellsOk;
    if Enabled(s, a) && a.t == u {
      match a {
        case Begin(t, memory) => BeginKeepsThread(few, s, t, memory);
        case Read(t) => ReadKeepsThread(few, s, t);
        case Compare(t) =>
          CompareKeepsThread(few, s, t);
          ThreadStays(n, few, s.mode, s.hist, s.Registers(), t, Finish(s, t));
      }
    } else {
      ThreadStays(n, few, s.mode, s.hist, s.Registers(), u, s.threads[u]);
    }
  }

  lemma StepKeepsInv(few: bool, s: State, a: Action)
    requires Inv(few, s) && (few ==> FewWrites(s))
    ensures Inv(few, Step(s, a))
  {
    if a.Write? && Enabled(s, a) {
      WriteKeepsInv(few, s, a.t, a.value);
    } else {
      ExtendHistory(|s.threads|, few, s.mode, s.hist, s.Registers());
      assert Step(s, a).hist == s.hist + [s.Registers()];
      forall u | 0 <= u < |s.threads|
        ensures ThreadOk(|s.threads|, few, s.mode, s.hist + [s.Registers()], u, Step(s, a).threads[u])
      {
        LocalStepKeepsThread(few, s, a, u);
      }
    }
  }

  // ---------- whole runs ----------

  ghost predicate FewWritesThroughout(run: seq<State>) {
    forall j :: 0 <= j < |run| ==> |run[j].hist| > 0 && FewWrites(run[j])
  }

  lemma {:induction false} InvAlways(n: nat, few: bool, mode: StealMode, acts: seq<Action>, run: seq<State>, j: nat)
    requires IsRun(n, mode, acts, run) && (few ==> FewWritesThroughout(run)) && j <= |acts|
    ensures Inv(few, run[j]) && run[j].mode == mode && |run[j].threads| == n
  {
    if j == 0 {
      forall m, i | 0 <= m < |run[0].hist| && 0 <= i < n ensures CellOk(few, mode, run[0].hist, m, i) {}
    } else {
      InvAlways(n, few, mode, acts, run, j - 1);
      StepKeepsInv(few, run[j - 1], acts[j - 1]);
    }
  }

  // The history variable is the trace: entry j is the register file after j steps.
  lemma {:induction false} HistoryIsTheTrace(n: nat, mode: StealMode, acts: seq<Action>, run: seq<State>,
                                             j: nat, k: nat)
    requires IsRun(n, mode, acts, run) && j <= k <= |acts|
    ensures |run[k].hist| == k + 1 && |run[j].hist| == j + 1
    ensures run[k].hist[j] == run[j].Registers()
  {
    if k > 0 {
      HistoryIsTheTrace(n, mode, acts, run, if j < k then j else k - 1, k - 1);
    }
  }

  ghost predicate InScanSince(s: State, t: nat, begin: nat) {
    t < |s.threads| && !s.threads[t].pc.Idle? && s.threads[t].begin == begin
  }

  predicate StartsScan(s: State, a: Action, t: nat) {
    Enabled(s, a) && a.Begin? && a.t == t
  }

  lemma StepInsideScan(s: State, a: Action, t: nat)
    requires |s.hist| > 0 && t < |s.threads|
    requires !Step(s, a).threads[t].pc.Idle?
    ensures if StartsScan(s, a, t) then s.threads[t].pc.Idle? && Step(s, a).threads[t].begin == |s.hist|
            else !s.threads[t].pc.Idle? && s.threads[t].begin == Step(s, a).threads[t].begin
  {
  }

  // The recorded start is the step at which this scan began: the thread has been in it ever since.
  lemma {:induction false} ScanInterval(n: nat, mode: StealMode, acts: seq<Action>, run: seq<State>, t: nat, k: nat)
    requires IsRun(n, mode, acts, run) && k <= |acts|
    requires t < |run[k].threads| && !run[k].threads[t].pc.Idle?
    ensures var begin := run[k].threads[t].begin;
            && 1 <= begin <= k
            && t < |run[begin - 1].threads| && run[begin - 1].threads[t].pc.Idle?
            && forall j :: begin <= j <= k ==> InScanSince(run[j], t, begin)
  {
    if k > 0 {
      StepInsideScan(run[k - 1], acts[k - 1], t);
      if StartsScan(run[k - 1], acts[k - 1], t) {
        HistoryIsTheTrace(n, mode, acts, run, k, k);
      } else {
        ScanInterval(n, mode, acts, run, t, k - 1);
      }
    }
  }

  // The result of a completed scan was in the registers at one instant of the scan.
  ghost predicate HeldDuringScan(run: seq<State>, t: nat, k: nat)
    requires k < |run| && t < |run[k].threads| && run[k].threads[t].pc.Done?
  {
    var th := run[k].threads[t];
    exists j :: th.begin <= j <= k && |run[j].hist| > 0 && th.pc.result == Values(run[j].Registers())
  }

  // Main result. In every run, whatever the interleaving, a completed scan returns the values that
  // all registers held at one instant between its start and its end: always when the embedded
  // vector is copied slot by slot, and for the loop as written whenever the scan ended in a clean
  // double collect.
  lemma ScanIsLinearizable(n: nat, mode: StealMode, acts: seq<Action>, run: seq<State>, t: nat, k: nat)
    requires IsRun(n, mode, acts, run) && FewWritesThroughout(run)
    requires k <= |acts| && t < |run[k].threads| && run[k].threads[t].pc.Done?
    ensures var th := run[k].threads[t];
            && 1 <= th.begin <= k
            && t < |run[th.begin - 1].threads| && run[th.begin - 1].threads[t].pc.Idle?
            && (forall j :: th.begin <= j <= k ==> InScanSince(run[j], t, th.begin))
            && (mode.AsIntended? || th.pc.clean ==> HeldDuringScan(run, t, k))
  {
    var th := run[k].threads[t];
    ScanInterval(n, mode, acts, run, t, k);
    if mode.AsIntended? || th.pc.clean {
      InvAlways(n, true, mode, acts, run, k);
      HistoryIsTheTrace(n, mode, acts, run, k, k);
      HistoryIsTheTrace(n, mode, acts, run, th.pc.at, k);
      assert th.pc.result == Values(run[th.pc.at].Registers());
    }
  }

  // Wait-freedom: whatever the other threads do and however often they write, a scan is done after
  // at most n + 2 collects.
  lemma ScanIsWaitFree(n: nat, mode: StealMode, acts: seq<Action>, run: seq<State>, t: nat, k: nat)
    requires IsRun(n, mode, acts, run)
    requires k <= |acts| && t < |run[k].threads| && !run[k].threads[t].pc.Idle?
    ensures 1 <= run[k].threads[t].collects <= n + 2
  {
    InvAlways(n, false, mode, acts, run, k);
    CollectsBound(n, false, mode, run[k].hist, t, run[k].threads[t]);
  }

  lemma CollectsBound(n: nat, few: bool, mode: StealMode, hist: seq<seq<Cell>>, t: nat, th: Thread)
    requires HistoryOk(n, hist) && t < n && ThreadOk(n, few, mode, hist, t, th) && !th.pc.Idle?
    ensures 1 <= th.collects <= n + 2
  {
    MovedSetSize(th.moved);
  }

  // The vector being stolen exists: it is never the null pointer of the initial register, and it
  // comes from another thread.
  lemma StolenSnapIsNeverNull(n: nat, mode: StealMode, acts: seq<Action>, run: seq<State>, t: nat, k: nat, i: nat)
    requires IsRun(n, mode, acts, run) && k <= |acts| && Enabled(run[k], Compare(t))
    requires var th := run[k].threads[t]; CompareFrom(0, th.oldCopy, th.newCopy, th.moved) == Steal(i)
    ensures var cell := run[k].threads[t].newCopy[i];
            cell.snap.Some? && |cell.snap.value| == n && i != t
  {
    InvAlways(n, false, mode, acts, run, k);
    StolenScanIsNested(false, run[k], t, i);
  }

  // A lone thread never steals.
  lemma LoneThreadIsAlwaysClean(mode: StealMode, acts: seq<Action>, run: seq<State>, k: nat)
    requires IsRun(1, mode, acts, run) && k <= |acts|
    ensures |run[k].threads| == 1
    ensures run[k].threads[0].pc.Done? ==> run[k].threads[0].pc.clean
  {
    InvAlways(1, false, mode, acts, run, k);
  }
}
