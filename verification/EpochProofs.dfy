// What the counter protocol guarantees in every run.
module EpochProofs {
  import opened Epoch

  // ---------- facts about one counter ----------

  // On a record that is held or cleared the counter is negative, and on any other one it is not.
  lemma CounterSign(s: State, e: nat)
    requires Inv(s) && e < |s.records|
    ensures s.records[e].count < 0 <==> Sealed(s, e)
  {
    assert CounterOk(s, e);
    PinsBound(s.threads, e);
  }

  lemma NobodyPins(s: State, e: nat)
    requires Inv(s) && e < |s.records| && s.records[e].count == 0 && !Sealed(s, e)
    ensures forall t :: 0 <= t < |s.threads| ==> One(s.threads[t], e) == 0
  {
    assert CounterOk(s, e);
    PinsBound(s.threads, e);
  }

  // ---------- steps of workers ----------

  // Only the thread and one counter change; the thread does not join an older epoch.
  lemma ThreadStep(s: State, t: nat, th: Thread, e: nat, d: int)
    requires Inv(s) && t < |s.threads| && e < |s.records|
    requires forall k :: 0 <= k < |s.records| ==> One(th, k) - One(s.threads[t], k) == if k == e then d else 0
    requires (th.In? || th.Retiring?) && !s.threads[t].In? && !s.threads[t].Retiring? ==> th.since == s.now
    requires (th.In? || th.Retiring?) && (s.threads[t].In? || s.threads[t].Retiring?) ==>
               th.since == s.threads[t].since && th.epoch == s.threads[t].epoch
    requires var s' := Plus(s, e, d).(threads := s.threads[t := th], now := s.now + 1); ThreadOk(s', t)
    ensures Inv(Plus(s, e, d).(threads := s.threads[t := th], now := s.now + 1))
  {
    var s' := Plus(s, e, d).(threads := s.threads[t := th], now := s.now + 1);
    CountersAfter(s, t, th, e, d);
    hide Pins, CounterOk, One;
    forall u | 0 <= u < |s.threads| && u != t ensures ThreadOk(s', u) {
      assert ThreadOk(s, u);
      if s.threads[u].Retiring? { ProtectedStays(s, s', s.threads[u].item, s.threads[u].target, t); }
    }
    forall k, i | 0 <= k < |s'.records| && 0 <= i < |s'.records[k].garbage| ensures Protected(s', s'.records[k].garbage[i], k) {
      assert Protected(s, s.records[k].garbage[i], k);
      ProtectedStays(s, s', s.records[k].garbage[i], k, t);
    }
  }

  lemma ProtectedStays(s: State, s': State, item: Garbage, target: nat, t: nat)
    requires Protected(s, item, target) && t < |s.threads| == |s'.threads| && |s.records| <= |s'.records| && s.now < s'.now
    requires forall u :: 0 <= u < |s.threads| && u != t ==> s'.threads[u] == s.threads[u]
    requires var th, th' := s.threads[t], s'.threads[t];
             th'.In? || th'.Retiring? ==>
               if th.In? || th.Retiring? then th'.since == th.since && th'.epoch == th.epoch else th'.since >= s.now
    ensures Protected(s', item, target)
  {
  }

  lemma AddStep(s: State, t: nat)
    requires Inv(s) && Enabled(s, Add(t))
    ensures Inv(Step(s, Add(t)))
  {
    var e := s.threads[t].epoch;
    CounterSign(s, e);
    hide Inv, Pins;
    ThreadStep(s, t, if s.records[e].count < 0 then Bounced(e) else In(e, s.now), e, 1);
  }

  lemma UndoOrLeaveStep(s: State, t: nat)
    requires Inv(s) && t < |s.threads| && (s.threads[t].Bounced? || s.threads[t].In?)
    requires s.threads[t].epoch < |s.records|
    ensures Inv(Plus(s, s.threads[t].epoch, -1).(threads := s.threads[t := Out], now := s.now + 1))
  {
    hide Inv, Pins;
    ThreadStep(s, t, Out, s.threads[t].epoch, -1);
  }

  lemma ReadStep(s: State, t: nat)
    requires Inv(s) && Enabled(s, ReadCurrent(t))
    ensures Inv(Step(s, ReadCurrent(t)))
  {
    ThreadStep(s, t, Holding(|s.records| - 1), 0, 0);
    assert Step(s, ReadCurrent(t)) == Plus(s, 0, 0).(threads := s.threads[t := Holding(|s.records| - 1)], now := s.now + 1);
  }

  // The list that a retired node goes to is not older than any epoch joined so far.
  lemma RetireStep(s: State, t: nat, item: Garbage)
    requires Inv(s) && Enabled(s, Retire(t, item))
    ensures Inv(Step(s, Retire(t, item)))
  {
    var th := s.threads[t];
    var th' := Retiring(th.epoch, th.since, |s.records| - 1, item);
    var s' := Plus(s, 0, 0).(threads := s.threads[t := th'], now := s.now + 1);
    assert Step(s, Retire(t, item)) == s';
    assert ThreadOk(s, t);
    forall u | 0 <= u < |s'.threads| && (s'.threads[u].In? || s'.threads[u].Retiring?)
      ensures s'.threads[u].epoch <= |s.records| - 1
    {
      assert ThreadOk(s, u);
    }
    assert Protected(s', item, |s.records| - 1);
    ThreadStep(s, t, th', 0, 0);
  }

  lemma LinkStep(s: State, t: nat)
    requires Inv(s) && Enabled(s, Link(t))
    ensures Inv(Step(s, Link(t)))
  {
    var th := s.threads[t];
    var th' := In(th.epoch, th.since);
    assert ThreadOk(s, t);
    var s1 := Plus(s, 0, 0).(threads := s.threads[t := th'], now := s.now + 1);
    ThreadStep(s, t, th', 0, 0);
    ProtectedStays(s, s1, th.item, th.target, t);
    var s' := Step(s, Link(t));
    assert s1.records == s.records;
    assert s' == s1.(records := s.records[th.target := s.records[th.target].(garbage := [th.item] + s.records[th.target].garbage)]);
    AddGarbageKeepsInv(s1, th.item, th.target);
  }

  lemma AddGarbageKeepsInv(s: State, item: Garbage, target: nat)
    requires Inv(s) && target < |s.records| && Protected(s, item, target)
    ensures Inv(s.(records := s.records[target := s.records[target].(garbage := [item] + s.records[target].garbage)]))
  {
    hide Pins;
    var s' := s.(records := s.records[target := s.records[target].(garbage := [item] + s.records[target].garbage)]);
    forall e | 0 <= e < |s'.records| ensures CounterOk(s', e) { assert CounterOk(s, e); }
    forall u | 0 <= u < |s'.threads| ensures ThreadOk(s', u) { assert ThreadOk(s, u); }
    forall e, k | 0 <= e < |s'.records| && 0 <= k < |s'.records[e].garbage| ensures Protected(s', s'.records[e].garbage[k], e) {
      if e == target && k > 0 {
        assert Protected(s, s.records[e].garbage[k - 1], e);
      } else if e != target {
        assert Protected(s, s.records[e].garbage[k], e);
      }
    }
  }

  // ---------- steps of the cleaner ----------

  lemma CleanKeepsThreads(s: State, s': State)
    requires Inv(s) && s'.threads == s.threads && s'.now == s.now + 1 && |s'.records| >= |s.records|
    requires forall e :: 0 <= e < |s.records| ==> s'.records[e].garbage == s.records[e].garbage
    requires forall e :: |s.records| <= e < |s'.records| ==> s'.records[e].garbage == []
    requires forall t :: 0 <= t < |s.threads| && (s.threads[t].In? || s.threads[t].Retiring?) ==> !Cleared(s', s.threads[t].epoch)
    ensures forall t :: 0 <= t < |s'.threads| ==> ThreadOk(s', t)
    ensures GarbageOk(s')
  {
    forall t | 0 <= t < |s'.threads| ensures ThreadOk(s', t) { assert ThreadOk(s, t); }
    forall e, k | 0 <= e < |s'.records| && 0 <= k < |s'.records[e].garbage| ensures Protected(s', s'.records[e].garbage[k], e) {
      assert Protected(s, s.records[e].garbage[k], e);
    }
  }

  // Nobody is in an epoch that gets cleared.
  lemma NobodyInCleared(s: State)
    requires Inv(s) && (s.cleaner.Subtract? ==> s.records[s.head].count <= 0)
    ensures var s' := CleanStep(s);
            forall t :: 0 <= t < |s.threads| && (s.threads[t].In? || s.threads[t].Retiring?) ==> !Cleared(s', s.threads[t].epoch)
  {
    if s.cleaner.Subtract? {
      CounterSign(s, s.head);
      NobodyPins(s, s.head);
    }
    forall t | 0 <= t < |s.threads| && (s.threads[t].In? || s.threads[t].Retiring?)
      ensures !Cleared(CleanStep(s), s.threads[t].epoch)
    {
      assert ThreadOk(s, t);
      if s.cleaner.Subtract? { assert One(s.threads[t], s.head) == 0; }
    }
  }

  lemma CleanKeepsCounters(s: State)
    requires Inv(s)
    ensures var s' := CleanStep(s); forall e :: 0 <= e < |s'.records| ==> CounterOk(s', e)
  {
    hide Pins;
    var s' := CleanStep(s);
    forall e | 0 <= e < |s'.records| ensures CounterOk(s', e) {
      if e < |s.records| { assert CounterOk(s, e); } else {
        forall t | 0 <= t < |s.threads| ensures One(s.threads[t], e) == 0 { assert ThreadOk(s, t); }
        NoPins(s.threads, e);
      }
    }
  }

  lemma CleanStepKeepsInv(s: State)
    requires Inv(s)
    ensures Inv(Step(s, Clean))
  {
    var s' := Step(s, Clean);
    CleanKeepsCounters(s);
    forall e | 0 <= e < |s'.records| ensures CounterOk(s', e) { assert CounterOk(CleanStep(s), e); }
    if !s.cleaner.Subtract? || s.records[s.head].count <= 0 {
      NobodyInCleared(s);
    } else {
      forall t | 0 <= t < |s.threads| && (s.threads[t].In? || s.threads[t].Retiring?)
        ensures !Cleared(s', s.threads[t].epoch)
      {
        assert ThreadOk(s, t);
      }
    }
    hide CounterOk, Pins;
    CleanKeepsThreads(s, s');
  }

  // ---------- main results ----------

  lemma StepKeepsInv(s: State, a: Action)
    requires Inv(s)
    ensures Inv(Step(s, a)) && |Step(s, a).threads| == |s.threads|
  {
    hide Pins;
    if Enabled(s, a) {
      match a {
        case ReadCurrent(t) => ReadStep(s, t);
        case Add(t) => AddStep(s, t);
        case Undo(t) => UndoOrLeaveStep(s, t);
        case Leave(t) => UndoOrLeaveStep(s, t);
        case Retire(t, item) => RetireStep(s, t, item);
        case Link(t) => LinkStep(s, t);
        case Clean => CleanStepKeepsInv(s);
      }
    } else {
      TimePasses(s);
    }
  }

  lemma TimePasses(s: State)
    requires Inv(s)
    ensures Inv(s.(now := s.now + 1))
  {
    hide Pins;
    var s' := s.(now := s.now + 1);
    forall e | 0 <= e < |s'.records| ensures CounterOk(s', e) { assert CounterOk(s, e); }
    forall t | 0 <= t < |s'.threads| ensures ThreadOk(s', t) { assert ThreadOk(s, t); }
    forall e, k | 0 <= e < |s'.records| && 0 <= k < |s'.records[e].garbage| ensures Protected(s', s'.records[e].garbage[k], e) {
      assert Protected(s, s.records[e].garbage[k], e);
    }
  }

  lemma {:induction false} InvAlways(n: nat, acts: seq<Action>, run: seq<State>, j: nat)
    requires IsRun(n, acts, run) && j <= |acts| && n < MAX_THREAD_COUNT
    ensures Inv(run[j]) && |run[j].threads| == n
  {
    if j == 0 {
      NoPins(run[0].threads, 0);
      assert CounterOk(run[0], 0);
    } else {
      InvAlways(n, acts, run, j - 1);
      StepKeepsInv(run[j - 1], acts[j - 1]);
    }
  }

  // In every state each counter is the number of threads that joined the epoch, plus the transient
  // joiners, minus MAX_THREAD_COUNT while the cleaner holds the epoch or after it has cleared it.
  // It fits a 32-bit int.
  lemma CounterInvariant(n: nat, acts: seq<Action>, run: seq<State>, j: nat, e: nat)
    requires IsRun(n, acts, run) && j <= |acts| && n < MAX_THREAD_COUNT && e < |run[j].records|
    ensures var s := run[j];
            && s.records[e].count == Pins(s.threads, e) - (if Sealed(s, e) then MAX_THREAD_COUNT else 0)
            && -MAX_THREAD_COUNT <= s.records[e].count < MAX_THREAD_COUNT
  {
    InvAlways(n, acts, run, j);
    assert CounterOk(run[j], e);
    PinsBound(run[j].threads, e);
  }

  // The assertion at bwtree.h:7866: the cleaner never loads a negative count.
  lemma CleanerNeverLoadsNegative(n: nat, acts: seq<Action>, run: seq<State>, j: nat)
    requires IsRun(n, acts, run) && j <= |acts| && n < MAX_THREAD_COUNT && run[j].cleaner.Load?
    ensures run[j].head < |run[j].records| - 1 && run[j].records[run[j].head].count >= 0
  {
    InvAlways(n, acts, run, j);
    CounterSign(run[j], run[j].head);
  }

  // When the cleaner frees a node, every thread that had joined before the node was unlinked has
  // left, and nobody is in the freed epoch at all.
  lemma FreedOnlyAfterEarlierJoinersLeft(n: nat, acts: seq<Action>, run: seq<State>, j: nat, k: nat, u: nat)
    requires IsRun(n, acts, run) && j <= |acts| && n < MAX_THREAD_COUNT && run[j].cleaner.Free? && u < n
    requires run[j].head < |run[j].records| && k < |run[j].records[run[j].head].garbage|
    ensures |run[j].threads| == n
    ensures var th, item := run[j].threads[u], run[j].records[run[j].head].garbage[k];
            th.In? || th.Retiring? ==> th.since > item.unlinked && th.epoch > run[j].head
  {
    InvAlways(n, acts, run, j);
    var s := run[j];
    assert ThreadOk(s, u) && Protected(s, s.records[s.head].garbage[k], s.head);
  }

  // A thread that is inside never touches a deleted record, and the list it retires a node to is
  // neither deleted nor being walked by the cleaner.
  lemma MembersTouchLiveRecordsOnly(n: nat, acts: seq<Action>, run: seq<State>, j: nat, t: nat)
    requires IsRun(n, acts, run) && j <= |acts| && n < MAX_THREAD_COUNT && t < n
    ensures |run[j].threads| == n
    ensures var s := run[j];
            && (s.threads[t].In? || s.threads[t].Retiring? ==> !Cleared(s, s.threads[t].epoch))
            && (s.threads[t].Retiring? ==> !Cleared(s, s.threads[t].target) && s.threads[t].target < |s.records|)
  {
    InvAlways(n, acts, run, j);
    assert ThreadOk(run[j], t);
  }

  // ---------- the record that a joiner may still hold ----------

  // The step reads or writes a record that the cleaner has deleted.
  predicate TouchesDeleted(s: State, a: Action) {
    Enabled(s, a) &&
    match a
    case ReadCurrent(_) => false
    case Add(t) => s.threads[t].epoch < s.head
    case Undo(t) => s.threads[t].epoch < s.head
    case Leave(t) => s.threads[t].epoch < s.head
    case Retire(t, _) => s.threads[t].epoch < s.head
    case Link(t) => s.threads[t].target < s.head
    case Clean => false
  }

  // Deleting the record at bwtree.h:7919 is too early: a thread that read current_epoch_p at 7576
  // still adds to the counter afterwards.
  const LATE_JOIN: seq<Action> := [ReadCurrent(0), Clean, Clean, Clean, Clean, Clean, Clean, Add(0)]

  lemma JoinerMayTouchDeletedRecord() returns (run: seq<State>)
    ensures IsRun(1, LATE_JOIN, run) && TouchesDeleted(run[7], LATE_JOIN[7])
  {
    var s0 := Initial(1);
    var s1 := Step(s0, ReadCurrent(0));
    var s2 := Step(s1, Clean);
    var s3 := Step(s2, Clean);
    var s4 := Step(s3, Clean);
    var s5 := Step(s4, Clean);
    var s6 := Step(s5, Clean);
    var s7 := Step(s6, Clean);
    assert s3.cleaner.Check? && |s3.records| == 2;
    assert s5.cleaner.Subtract? && s6.cleaner.Free?;
    assert s7.head == 1 && s7.threads[0] == Holding(0);
    run := [s0, s1, s2, s3, s4, s5, s6, s7, Step(s7, Add(0))];
  }

  // Step i takes place and is the last one before step j at which thread t reads current_epoch_p.
  ghost predicate LastRead(acts: seq<Action>, run: seq<State>, t: nat, i: nat, j: nat)
    requires j <= |acts| == |run| - 1
  {
    && i < j && acts[i] == ReadCurrent(t) && Enabled(run[i], acts[i])
    && forall m :: i < m < j && acts[m] == ReadCurrent(t) ==> !Enabled(run[m], acts[m])
  }

  // Step f is the one at which the cleaner frees epoch e and deletes its record.
  ghost predicate Frees(acts: seq<Action>, run: seq<State>, f: nat, e: int)
    requires f < |acts| == |run| - 1
  {
    acts[f] == Clean && Enabled(run[f], Clean) && run[f].cleaner.Free? && run[f].head == e
  }

  // Between steps i and j the cleaner has freed epoch e.
  ghost predicate FreedBetween(acts: seq<Action>, run: seq<State>, e: int, i: nat, j: nat)
    requires i < j <= |acts| == |run| - 1
  {
    exists f :: i < f < j && Frees(acts, run, f, e)
  }

  // What a joiner holds, or has bounced off, is the epoch that its last read found.
  lemma {:induction false} HeldWasRead(n: nat, acts: seq<Action>, run: seq<State>, t: nat, j: nat) returns (i: nat)
    requires IsRun(n, acts, run) && j <= |acts| && n < MAX_THREAD_COUNT
    requires t < |run[j].threads| && (run[j].threads[t].Holding? || run[j].threads[t].Bounced?)
    ensures LastRead(acts, run, t, i, j) && run[j].threads[t].epoch == |run[i].records| - 1
  {
    InvAlways(n, acts, run, j);
    i := 0;
    if j > 0 {
      InvAlways(n, acts, run, j - 1);
      var s, a := run[j - 1], acts[j - 1];
      if a == ReadCurrent(t) && Enabled(s, a) {
        i := j - 1;
      } else {
        EpochKept(s, a, t);
        i := HeldWasRead(n, acts, run, t, j - 1);
      }
    }
  }

  lemma EpochKept(s: State, a: Action, t: nat)
    requires |Step(s, a).threads| == |s.threads| && t < |s.threads| && !(a == ReadCurrent(t) && Enabled(s, a))
    requires Step(s, a).threads[t].Holding? || Step(s, a).threads[t].Bounced?
    ensures s.threads[t].Holding? || s.threads[t].Bounced?
    ensures Step(s, a).threads[t].epoch == s.threads[t].epoch
  {
  }

  // The head passes an epoch exactly at the step that frees it.
  lemma {:induction false} HeadPasses(n: nat, acts: seq<Action>, run: seq<State>, j: nat, e: nat)
    requires IsRun(n, acts, run) && j <= |acts|
    ensures e < run[j].head <==> exists f :: 0 <= f < j && Frees(acts, run, f, e)
  {
    if j > 0 {
      HeadPasses(n, acts, run, j - 1, e);
      var s, a := run[j - 1], acts[j - 1];
      assert Step(s, a).head == if a == Clean && Enabled(s, Clean) && s.cleaner.Free? then s.head + 1 else s.head;
      assert e == s.head && Step(s, a).head > s.head ==> Frees(acts, run, j - 1, e);
    }
  }

  lemma FreedMeansPassed(n: nat, acts: seq<Action>, run: seq<State>, i: nat, j: nat)
    requires IsRun(n, acts, run) && i < j <= |acts| && Inv(run[i]) && acts[i].ReadCurrent?
    ensures |run[i].records| - 1 < run[j].head <==> FreedBetween(acts, run, |run[i].records| - 1, i, j)
  {
    var e := |run[i].records| - 1;
    HeadPasses(n, acts, run, j, e);
    HeadPasses(n, acts, run, i, e);
    if e < run[j].head {
      var f :| 0 <= f < j && Frees(acts, run, f, e);
      assert acts[f] == Clean && f >= i;
      assert FreedBetween(acts, run, e, i, j);
    }
  }

  // A deleted record is touched exactly by joiners, at the Add or the Undo of a thread, if the cleaner
  // has freed the epoch since the thread read current_epoch_p.
  lemma DeletedRecordIsTouchedExactlyWhen(n: nat, acts: seq<Action>, run: seq<State>, j: nat)
    requires IsRun(n, acts, run) && j < |acts| && n < MAX_THREAD_COUNT
    ensures TouchesDeleted(run[j], acts[j]) <==>
              && (acts[j].Add? || acts[j].Undo?) && Enabled(run[j], acts[j])
              && exists i :: 0 <= i < j && LastRead(acts, run, acts[j].t, i, j) && FreedBetween(acts, run, |run[i].records| - 1, i, j)
  {
    InvAlways(n, acts, run, j);
    var s, a := run[j], acts[j];
    if (a.Add? || a.Undo?) && Enabled(s, a) {
      var e := s.threads[a.t].epoch;
      var i := HeldWasRead(n, acts, run, a.t, j);
      InvAlways(n, acts, run, i);
      FreedMeansPassed(n, acts, run, i, j);
      forall i' | 0 <= i' < j && LastRead(acts, run, a.t, i', j) ensures i' == i {}
    } else if (a.Leave? || a.Retire? || a.Link?) && a.t < |s.threads| {
      assert ThreadOk(s, a.t);
    }
  }

  // If the memory of the record keeps its value, as the comment at 7892-7894 counts on, such a joiner
  // is turned away: it never enters an epoch that is held or cleared.
  lemma LateJoinerIsTurnedAway(n: nat, acts: seq<Action>, run: seq<State>, j: nat)
    requires IsRun(n, acts, run) && j < |acts| && n < MAX_THREAD_COUNT
    requires acts[j].Add? && Enabled(run[j], acts[j])
    ensures var t := acts[j].t;
            && t < |run[j + 1].threads|
            && (run[j + 1].threads[t].In? <==> !Sealed(run[j], run[j].threads[t].epoch))
            && (run[j + 1].threads[t].Bounced? <==> Sealed(run[j], run[j].threads[t].epoch))
  {
    InvAlways(n, acts, run, j);
    CounterSign(run[j], run[j].threads[acts[j].t].epoch);
  }
}
