// What the thread-local scheme does with retired nodes and epochs, told by the actions of the run alone.
module GcHistory {
  import opened Options
  import opened ThreadLocalGc
  import GarbageList

  predicate Moves(s: State, a: Action, t: nat) {
    Enabled(s, a) && !a.IncreaseEpoch? && a.t == t
  }

  // ---------- the nodes ----------

  // What thread t has retired, in order, each with the global epoch at its retirement.
  function Retired(acts: seq<Action>, run: seq<State>, t: nat, j: nat): seq<Item>
    requires j <= |acts| && |run| == |acts| + 1
  {
    if j == 0 then []
    else
      var s, a := run[j - 1], acts[j - 1];
      Retired(acts, run, t, j - 1)
      + (if a.Retire? && Moves(s, a, t) then [Item(GarbageList.Garbage(EpochAt(acts, run, j - 1), a.node), a.unlinked)] else [])
  }

  // The number of increments of the global epoch.
  function EpochAt(acts: seq<Action>, run: seq<State>, j: nat): nat
    requires j <= |acts| && |run| == |acts| + 1
  {
    if j == 0 then 0 else EpochAt(acts, run, j - 1) + (if acts[j - 1].IncreaseEpoch? then 1 else 0)
  }

  // What thread t has freed, in order: each time the first item of its list.
  function Freed(acts: seq<Action>, run: seq<State>, t: nat, j: nat): seq<Item>
    requires j <= |acts| && |run| == |acts| + 1
  {
    if j == 0 then []
    else
      var s, a := run[j - 1], acts[j - 1];
      Freed(acts, run, t, j - 1) + (if a.FreeFirst? && Moves(s, a, t) then s.threads[t].items[..1] else [])
  }

  lemma ItemsStep(s: State, a: Action, t: nat)
    requires t < |s.threads|
    ensures t < |Step(s, a).threads|
    ensures var items, items' := s.threads[t].items, Step(s, a).threads[t].items;
            && (a.Retire? && Moves(s, a, t) ==>
                  items' == items + [Item(GarbageList.Garbage(s.epoch, a.node), a.unlinked)])
            && (a.FreeFirst? && Moves(s, a, t) ==> |items| > 0 && items == items[..1] + items')
            && (!(Moves(s, a, t) && (a.Retire? || a.FreeFirst?)) ==> items' == items)
    ensures Step(s, a).epoch == s.epoch + (if a.IncreaseEpoch? then 1 else 0)
  {
  }

  lemma Regroup<X>(a: seq<X>, b: seq<X>, c: seq<X>)
    ensures (a + b) + c == a + (b + c)
  {
  }

  lemma RunStep(n: nat, acts: seq<Action>, run: seq<State>, j: nat)
    requires IsRun(n, acts, run) && j < |acts|
    ensures |run| == |acts| + 1 && |run[j].threads| == n == |run[j + 1].threads| && run[j + 1] == Step(run[j], acts[j])
    ensures Inv(run[j])
  {
    InvAlways(n, acts, run, j);
    InvAlways(n, acts, run, j + 1);
  }

  lemma RunStart(n: nat, acts: seq<Action>, run: seq<State>)
    requires IsRun(n, acts, run)
    ensures |run| == |acts| + 1 && run[0] == Initial(n)
  {
  }

  // What a thread has retired is what it has freed and, behind that, its list: each retired node is on
  // the list until it is freed, once, in the order of retirement, and nothing else is freed.
  lemma {:induction false} RetiredIsFreedOrListed(n: nat, acts: seq<Action>, run: seq<State>, t: nat, j: nat)
    requires IsRun(n, acts, run) && j <= |acts| && t < n
    ensures |run| == |acts| + 1 && |run[j].threads| == n && run[j].epoch == EpochAt(acts, run, j)
    ensures Retired(acts, run, t, j) == Freed(acts, run, t, j) + run[j].threads[t].items
  {
    RunStart(n, acts, run);
    if j > 0 {
      RetiredIsFreedOrListed(n, acts, run, t, j - 1);
      RunStep(n, acts, run, j - 1);
      hide Inv, Step, Moves, Enabled, IsRun;
      var s, a := run[j - 1], acts[j - 1];
      ItemsStep(s, a, t);
      var freed, items := Freed(acts, run, t, j - 1), s.threads[t].items;
      if a.Retire? && Moves(s, a, t) {
        Regroup(freed, items, [Item(GarbageList.Garbage(s.epoch, a.node), a.unlinked)]);
      } else if a.FreeFirst? && Moves(s, a, t) {
        Regroup(freed, items[..1], run[j].threads[t].items);
      }
    }
  }

  // ---------- the epochs ----------

  // The global epoch at the last read of thread t, in JoinEpoch() or LeaveEpoch().
  function ReadLast(acts: seq<Action>, run: seq<State>, t: nat, j: nat): nat
    requires j <= |acts| && |run| == |acts| + 1
  {
    if j == 0 then 0
    else if acts[j - 1].ReadEpoch? && Moves(run[j - 1], acts[j - 1], t) then EpochAt(acts, run, j - 1)
    else ReadLast(acts, run, t, j - 1)
  }

  // What it has written to last_active_epoch.
  function WrittenLast(acts: seq<Action>, run: seq<State>, t: nat, j: nat): nat
    requires j <= |acts| && |run| == |acts| + 1
  {
    if j == 0 then 0
    else if acts[j - 1].WriteLastActive? && Moves(run[j - 1], acts[j - 1], t) then ReadLast(acts, run, t, j - 1)
    else WrittenLast(acts, run, t, j - 1)
  }

  lemma EpochStep(s: State, a: Action, t: nat)
    requires t < |s.threads|
    ensures t < |Step(s, a).threads|
    ensures var th, th' := s.threads[t], Step(s, a).threads[t];
            && (th'.phase.Joining? || th'.phase.Leaving? ==>
                  if a.ReadEpoch? && Moves(s, a, t) then th'.phase.read == s.epoch
                  else (th.phase.Joining? || th.phase.Leaving?) && th'.phase.read == th.phase.read)
            && (if a.WriteLastActive? && Moves(s, a, t) then
                  (th.phase.Joining? || th.phase.Leaving?) && th'.lastActive == th.phase.read
                else th'.lastActive == th.lastActive)
  {
  }

  // last_active_epoch is the global epoch that the thread read last before it wrote it.
  lemma {:induction false} LastActiveWasRead(n: nat, acts: seq<Action>, run: seq<State>, t: nat, j: nat)
    requires IsRun(n, acts, run) && j <= |acts| && t < n
    ensures |run| == |acts| + 1 && |run[j].threads| == n
    ensures run[j].threads[t].lastActive == WrittenLast(acts, run, t, j)
    ensures run[j].threads[t].phase.Joining? || run[j].threads[t].phase.Leaving? ==>
              run[j].threads[t].phase.read == ReadLast(acts, run, t, j)
  {
    RunStart(n, acts, run);
    if j > 0 {
      LastActiveWasRead(n, acts, run, t, j - 1);
      RetiredIsFreedOrListed(n, acts, run, t, j - 1);
      RunStep(n, acts, run, j - 1);
      hide Inv, Step, Moves, Enabled, IsRun;
      EpochStep(run[j - 1], acts[j - 1], t);
    }
  }

  // ---------- the threads ----------

  // The last step of thread t.
  function LastOwn(acts: seq<Action>, run: seq<State>, t: nat, j: nat): Option<nat>
    requires j <= |acts| && |run| == |acts| + 1
  {
    if j == 0 then None
    else if Moves(run[j - 1], acts[j - 1], t) then Some(j - 1)
    else LastOwn(acts, run, t, j - 1)
  }

  // What a thread is at after a step of its own.
  predicate After(s: State, a: Action, th: Thread) {
    match a
    case IncreaseEpoch => false
    case ReadEpoch(t) => t < |s.threads| && (if s.threads[t].phase.Out? then th.phase.Joining? else th.phase.Leaving?)
    case WriteLastActive(t) => t < |s.threads| && (if s.threads[t].phase.Joining? then th.phase.Inside? else th.phase.Out?)
    case Retire(_, _, _) => th.phase.Inside?
    case StartSummary(_) => if |s.threads| == 1 then th.phase.Freeing? else th.phase.Summing? && th.phase.next == 1
    case ReadNext(t) =>
      && t < |s.threads| && s.threads[t].phase.Summing?
      && (if s.threads[t].phase.next + 1 == |s.threads| then th.phase.Freeing?
          else th.phase.Summing? && th.phase.next == s.threads[t].phase.next + 1)
    case FreeFirst(_) => th.phase.Freeing?
    case EndGC(_) => th.phase.Inside?
  }

  lemma StepAfter(s: State, a: Action, t: nat)
    requires t < |s.threads|
    ensures t < |Step(s, a).threads|
    ensures if Moves(s, a, t) then After(s, a, Step(s, a).threads[t]) else Step(s, a).threads[t] == s.threads[t]
  {
  }

  // The state of a thread is the one that its last step leads to, whatever the others did since.
  lemma {:induction false} ThreadFollowsItsSteps(n: nat, acts: seq<Action>, run: seq<State>, t: nat, j: nat)
    requires IsRun(n, acts, run) && j <= |acts| && t < n
    ensures |run[j].threads| == n
    ensures var i := LastOwn(acts, run, t, j);
            if i.None? then run[j].threads[t].phase.Out?
            else
              && i.value < j && After(run[i.value], acts[i.value], run[j].threads[t])
              && t < |run[i.value + 1].threads| && run[j].threads[t] == run[i.value + 1].threads[t]
  {
    InvAlways(n, acts, run, j);
    hide Inv, Step, After, Moves;
    if j > 0 {
      ThreadFollowsItsSteps(n, acts, run, t, j - 1);
      InvAlways(n, acts, run, j - 1);
      StepAfter(run[j - 1], acts[j - 1], t);
    }
  }

  // The history field `since` is the step at which JoinEpoch() ended: the thread has been inside ever since.
  lemma {:induction false} JoinedWhen(n: nat, acts: seq<Action>, run: seq<State>, t: nat, j: nat)
    requires IsRun(n, acts, run) && j <= |acts| && t < n
    ensures |run[j].threads| == n && run[j].now == j
    ensures InBracket(run[j].threads[t]) ==>
              && run[j].threads[t].since < j && Moves(run[run[j].threads[t].since], acts[run[j].threads[t].since], t)
              && acts[run[j].threads[t].since].WriteLastActive?
              && forall m :: run[j].threads[t].since < m < j ==> !(acts[m].WriteLastActive? && Moves(run[m], acts[m], t))
  {
    InvAlways(n, acts, run, j);
    hide Inv;
    if j > 0 {
      JoinedWhen(n, acts, run, t, j - 1);
      JoinedStep(run[j - 1], acts[j - 1], t);
      hide Step, Moves, InBracket;
    }
  }

  lemma JoinedStep(s: State, a: Action, t: nat)
    requires t < |s.threads| == |Step(s, a).threads|
    ensures Step(s, a).now == s.now + 1
    ensures InBracket(Step(s, a).threads[t]) ==>
              if a.WriteLastActive? && Moves(s, a, t) then Step(s, a).threads[t].since == s.now
              else InBracket(s.threads[t]) && Step(s, a).threads[t].since == s.threads[t].since
  {
  }

  // Every thread can always go on.
  lemma ThreadsGoOn(n: nat, acts: seq<Action>, run: seq<State>, t: nat, j: nat)
    requires IsRun(n, acts, run) && j <= |acts| && t < n
    ensures |run[j].threads| == n
    ensures match run[j].threads[t].phase
            case Out => Enabled(run[j], ReadEpoch(t))
            case Joining(_) => Enabled(run[j], WriteLastActive(t))
            case Inside =>
              && Enabled(run[j], ReadEpoch(t)) && Enabled(run[j], StartSummary(t))
              && forall node, unlinked :: run[j].threads[t].since <= unlinked <= j ==> Enabled(run[j], Retire(t, node, unlinked))
            case Leaving(_) => Enabled(run[j], WriteLastActive(t))
            case Summing(_, _) => Enabled(run[j], ReadNext(t))
            case Freeing(_) => Enabled(run[j], FreeFirst(t)) != Enabled(run[j], EndGC(t))
  {
    InvAlways(n, acts, run, j);
    JoinedWhen(n, acts, run, t, j);
    assert PhaseOk(run[j], t);
  }

  // ---------- the minimum ----------

  lemma LastActiveGrows(s: State, a: Action, u: nat)
    requires Inv(s) && u < |s.threads|
    ensures u < |Step(s, a).threads| && s.threads[u].lastActive <= Step(s, a).threads[u].lastActive
  {
    StepAdvances(s, a);
  }

  // Some thread before k has been active in no later epoch.
  ghost predicate Attained(s: State, k: nat, min: nat) {
    exists u :: 0 <= u < k && u < |s.threads| && s.threads[u].lastActive <= min
  }

  function MinOf(p: Phase): nat {
    if p.Summing? || p.Freeing? then p.min else 0
  }

  function NextOf(s: State, p: Phase): nat {
    if p.Summing? then p.next else |s.threads|
  }

  lemma SummaryStep(s: State, a: Action, t: nat)
    requires Inv(s) && t < |s.threads| && t < |Step(s, a).threads|
    requires Step(s, a).threads[t].phase.Summing? || Step(s, a).threads[t].phase.Freeing?
    ensures var p, p' := s.threads[t].phase, Step(s, a).threads[t].phase;
            if a.StartSummary? && Moves(s, a, t) then
              NextOf(s, p') == 1 && MinOf(p') == s.threads[0].lastActive
            else if a.ReadNext? && Moves(s, a, t) then
              && p.Summing? && p.next < |s.threads| && NextOf(s, p') == p.next + 1
              && MinOf(p') == Min(s.threads[p.next].lastActive, MinOf(p))
            else (p.Summing? || p.Freeing?) && p' == p
  {
  }

  // The minimum of a summary is at least the one at its start: some thread had been active in no later
  // epoch then. With Inv, which says that it is at most the present one, it is as good as a summary
  // that reads all threads at one instant.
  lemma {:induction false} SummaryIsTight(n: nat, acts: seq<Action>, run: seq<State>, t: nat, j: nat) returns (i: nat)
    requires IsRun(n, acts, run) && j <= |acts| && t < n
    ensures |run[j].threads| == n
    ensures var p := run[j].threads[t].phase;
            p.Summing? || p.Freeing? ==>
              && i < j && acts[i] == StartSummary(t) && Enabled(run[i], acts[i])
              && (forall m :: i < m < j ==> !(acts[m] == EndGC(t) && Enabled(run[m], acts[m])))
              && Attained(run[i], NextOf(run[j], p), p.min) && BelowAll(run[j], NextOf(run[j], p), p.min)
  {
    InvAlways(n, acts, run, j);
    i := 0;
    var p := run[j].threads[t].phase;
    if p.Summing? || p.Freeing? {
      BelowSummary(run[j], t);
      if j > 0 {
        RunStep(n, acts, run, j - 1);
        var s, a := run[j - 1], acts[j - 1];
        hide Inv, BelowAll, Step;
        SummaryStep(s, a, t);
        if a.StartSummary? && Moves(s, a, t) {
          i := j - 1;
        } else {
          i := SummaryIsTight(n, acts, run, t, j - 1);
          if a.ReadNext? && Moves(s, a, t) { SummaryGoesOn(n, acts, run, t, i, j - 1); }
          SummaryNotEnded(s, a, t);
        }
      }
    }
  }

  lemma BelowSummary(s: State, t: nat)
    requires Inv(s) && t < |s.threads| && (s.threads[t].phase.Summing? || s.threads[t].phase.Freeing?)
    ensures BelowAll(s, NextOf(s, s.threads[t].phase), s.threads[t].phase.min)
  {
    assert PhaseOk(s, t);
  }

  lemma SummaryNotEnded(s: State, a: Action, t: nat)
    requires t < |s.threads| && t < |Step(s, a).threads|
    requires Step(s, a).threads[t].phase.Summing? || Step(s, a).threads[t].phase.Freeing?
    ensures !(a == EndGC(t) && Enabled(s, a))
  {
  }

  lemma {:induction false} ActiveBefore(n: nat, acts: seq<Action>, run: seq<State>, u: nat, i: nat, j: nat)
    requires IsRun(n, acts, run) && i <= j <= |acts| && u < n
    ensures |run[i].threads| == n == |run[j].threads|
    ensures run[i].threads[u].lastActive <= run[j].threads[u].lastActive
    decreases j - i
  {
    InvAlways(n, acts, run, i);
    InvAlways(n, acts, run, j);
    if i < j {
      ActiveBefore(n, acts, run, u, i, j - 1);
      InvAlways(n, acts, run, j - 1);
      LastActiveGrows(run[j - 1], acts[j - 1], u);
    }
  }

  lemma SummaryGoesOn(n: nat, acts: seq<Action>, run: seq<State>, t: nat, i: nat, j: nat)
    requires IsRun(n, acts, run) && i < j < |acts| && t < n && t < |run[j].threads|
    requires var p := run[j].threads[t].phase; p.Summing? && p.next < |run[j].threads| && Attained(run[i], p.next, p.min)
    ensures var p := run[j].threads[t].phase;
            Attained(run[i], p.next + 1, Min(run[j].threads[p.next].lastActive, p.min))
  {
    var p := run[j].threads[t].phase;
    InvAlways(n, acts, run, j);
    ActiveBefore(n, acts, run, p.next, i, j);
    hide Inv, IsRun;
    if run[j].threads[p.next].lastActive < p.min {
      assert run[i].threads[p.next].lastActive <= run[j].threads[p.next].lastActive;
    } else {
      var u :| 0 <= u < p.next && u < |run[i].threads| && run[i].threads[u].lastActive <= p.min;
    }
  }

  // When a collection ends, nothing on the list was retired before the minimum.
  lemma CollectionIsComplete(n: nat, acts: seq<Action>, run: seq<State>, j: nat)
    requires IsRun(n, acts, run) && j < |acts| && acts[j].EndGC? && Enabled(run[j], acts[j])
    ensures forall k :: 0 <= k < |run[j].threads[acts[j].t].items| ==>
              run[j].threads[acts[j].t].items[k].garbage.deleteEpoch >= run[j].threads[acts[j].t].phase.min
  {
    InvAlways(n, acts, run, j);
    assert ItemsOk(run[j], acts[j].t);
  }
}
