// The thread-local epoch scheme: JoinEpoch/LeaveEpoch as UpdateLastActiveEpoch() (bwtree.h:445),
// SummarizeGCEpoch() (bwtree.h:489-503), AddGarbageNode() and PerformGC() (bwtree.h:8792-8857). Threads
// interleave at every read and write of shared memory.
module ThreadLocalGc {
  import GarbageList

  // A retired node; `unlinked` is history: when it was taken out of the tree.
  datatype Item = Item(garbage: GarbageList.Garbage, unlinked: nat)

  // Joining and Leaving: the global epoch has been read and not been written to last_active_epoch.
  // Summing: the metadata of the threads before `next` has been read. Freeing: the minimum is known.
  datatype Phase =
    | Out
    | Joining(read: nat)
    | Inside
    | Leaving(read: nat)
    | Summing(next: nat, min: nat)
    | Freeing(min: nat)

  // `since` is history: when the thread joined.
  datatype Thread = Thread(phase: Phase, since: nat, lastActive: nat, items: seq<Item>)

  datatype State = State(epoch: nat, threads: seq<Thread>, now: nat)

  datatype Action =
    | IncreaseEpoch
    | ReadEpoch(t: nat)
    | WriteLastActive(t: nat)
    | Retire(t: nat, node: nat, unlinked: nat)
    | StartSummary(t: nat)
    | ReadNext(t: nat)
    | FreeFirst(t: nat)
    | EndGC(t: nat)

  function Initial(n: nat): State {
    State(0, seq(n, _ => Thread(Out, 0, 0, [])), 0)
  }

  // Between the end of JoinEpoch() and the end of LeaveEpoch().
  predicate InBracket(th: Thread) {
    th.phase.Inside? || th.phase.Leaving? || th.phase.Summing? || th.phase.Freeing?
  }

  predicate Enabled(s: State, a: Action) {
    match a
    case IncreaseEpoch => true
    case ReadEpoch(t) => t < |s.threads| && (s.threads[t].phase.Out? || s.threads[t].phase.Inside?)
    case WriteLastActive(t) => t < |s.threads| && (s.threads[t].phase.Joining? || s.threads[t].phase.Leaving?)
    case Retire(t, _, unlinked) => t < |s.threads| && s.threads[t].phase.Inside? && s.threads[t].since <= unlinked <= s.now
    case StartSummary(t) => t < |s.threads| && s.threads[t].phase.Inside?
    case ReadNext(t) => t < |s.threads| && s.threads[t].phase.Summing? && s.threads[t].phase.next < |s.threads|
    case FreeFirst(t) =>
      t < |s.threads| && s.threads[t].phase.Freeing? && |s.threads[t].items| > 0
        && s.threads[t].items[0].garbage.deleteEpoch < s.threads[t].phase.min
    case EndGC(t) =>
      t < |s.threads| && s.threads[t].phase.Freeing?
        && (|s.threads[t].items| > 0 ==> s.threads[t].items[0].garbage.deleteEpoch >= s.threads[t].phase.min)
  }

  function Min(a: nat, b: nat): nat {
    if a < b then a else b
  }

  // Reading the last thread's metadata ends the summary.
  function Summed(s: State, next: nat, min: nat): Phase {
    if next == |s.threads| then Freeing(min) else Summing(next, min)
  }

  function NextThread(s: State, t: nat, a: Action): Thread
    requires Enabled(s, a) && t < |s.threads| && !a.IncreaseEpoch? && a.t == t
  {
    var th := s.threads[t];
    match a
    case ReadEpoch(_) => th.(phase := if th.phase.Out? then Joining(s.epoch) else Leaving(s.epoch))
    case WriteLastActive(_) =>
      if th.phase.Joining? then th.(phase := Inside, since := s.now, lastActive := th.phase.read)
      else th.(phase := Out, lastActive := th.phase.read)
    case Retire(_, node, unlinked) =>
      th.(items := th.items + [Item(GarbageList.Garbage(s.epoch, node), unlinked)])
    case StartSummary(_) => th.(phase := Summed(s, 1, s.threads[0].lastActive))
    case ReadNext(_) =>
      th.(phase := Summed(s, th.phase.next + 1, Min(s.threads[th.phase.next].lastActive, th.phase.min)))
    case FreeFirst(_) => th.(items := th.items[1..])
    case EndGC(_) => th.(phase := Inside)
  }

  // Every step takes one unit of time. Only one thread ever increases the epoch.
  function Step(s: State, a: Action): State {
    if !Enabled(s, a) then s.(now := s.now + 1)
    else if a.IncreaseEpoch? then s.(epoch := s.epoch + 1, now := s.now + 1)
    else s.(threads := s.threads[a.t := NextThread(s, a.t, a)], now := s.now + 1)
  }

  ghost predicate IsRun(n: nat, acts: seq<Action>, run: seq<State>) {
    && |run| == |acts| + 1 && run[0] == Initial(n)
    && forall j :: 0 <= j < |acts| ==> run[j + 1] == Step(run[j], acts[j])
  }

  // ---------- the invariant ----------

  // Whoever was inside when the node was unlinked, and still is, had read an epoch not above the
  // delete epoch.
  ghost predicate Protected(s: State, item: Item) {
    && item.unlinked < s.now && item.garbage.deleteEpoch <= s.epoch
    && forall u :: 0 <= u < |s.threads| && InBracket(s.threads[u]) && s.threads[u].since <= item.unlinked ==>
         s.threads[u].lastActive <= item.garbage.deleteEpoch
  }

  ghost predicate BelowAll(s: State, k: nat, min: nat) {
    forall u :: 0 <= u < k && u < |s.threads| ==> min <= s.threads[u].lastActive
  }

  ghost predicate PhaseOk(s: State, t: nat)
    requires t < |s.threads|
  {
    var th := s.threads[t];
    && th.lastActive <= s.epoch && (InBracket(th) ==> th.since < s.now)
    && match th.phase
       case Joining(e) => th.lastActive <= e <= s.epoch
       case Leaving(e) => th.lastActive <= e <= s.epoch
       case Summing(next, min) => 1 <= next < |s.threads| && BelowAll(s, next, min)
       case Freeing(min) => BelowAll(s, |s.threads|, min)
       case _ => true
  }

  ghost predicate ItemsOk(s: State, t: nat)
    requires t < |s.threads|
  {
    var items := s.threads[t].items;
    && (forall i :: 0 <= i < |items| ==> Protected(s, items[i]))
    && forall i, j :: 0 <= i < j < |items| ==> items[i].garbage.deleteEpoch <= items[j].garbage.deleteEpoch
  }

  ghost predicate Inv(s: State) {
    forall t :: 0 <= t < |s.threads| ==> PhaseOk(s, t) && ItemsOk(s, t)
  }

  // ---------- steps ----------

  // last_active_epoch never decreases, and a thread that enters does so now.
  ghost predicate Advances(s: State, s': State) {
    && |s'.threads| == |s.threads| && s'.epoch >= s.epoch && s'.now == s.now + 1
    && forall u :: 0 <= u < |s.threads| ==>
         && s'.threads[u].lastActive >= s.threads[u].lastActive
         && (InBracket(s'.threads[u]) ==>
               if InBracket(s.threads[u]) then s'.threads[u].since == s.threads[u].since
                    && s'.threads[u].lastActive == s.threads[u].lastActive
               else s'.threads[u].since == s.now)
  }

  lemma StepAdvances(s: State, a: Action)
    requires Inv(s)
    ensures Advances(s, Step(s, a))
  {
    if Enabled(s, a) && !a.IncreaseEpoch? {
      assert PhaseOk(s, a.t);
    }
  }

  lemma ProtectedStays(s: State, s': State, item: Item)
    requires Advances(s, s') && Protected(s, item)
    ensures Protected(s', item)
  {
  }

  lemma BelowAllStays(s: State, s': State, k: nat, min: nat)
    requires Advances(s, s') && BelowAll(s, k, min)
    ensures BelowAll(s', k, min)
  {
  }

  // A thread that does not move keeps its invariant.
  lemma OthersStay(s: State, s': State, t: nat)
    requires Advances(s, s') && t < |s.threads| && PhaseOk(s, t) && ItemsOk(s, t) && s'.threads[t] == s.threads[t]
    ensures PhaseOk(s', t) && ItemsOk(s', t)
  {
    var th := s.threads[t];
    forall i | 0 <= i < |th.items| ensures Protected(s', th.items[i]) {
      ProtectedStays(s, s', th.items[i]);
    }
    match th.phase {
      case Summing(next, min) => BelowAllStays(s, s', next, min);
      case Freeing(min) => BelowAllStays(s, s', |s.threads|, min);
      case _ =>
    }
  }

  // The new item: nobody has an epoch above the global one.
  lemma RetireIsProtected(s: State, t: nat, node: nat, unlinked: nat)
    requires Inv(s) && Enabled(s, Retire(t, node, unlinked))
    ensures Protected(Step(s, Retire(t, node, unlinked)), Item(GarbageList.Garbage(s.epoch, node), unlinked))
  {
    forall u | 0 <= u < |s.threads| ensures s.threads[u].lastActive <= s.epoch {
      assert PhaseOk(s, u);
    }
  }

  lemma MovedItemsOk(s: State, a: Action)
    requires Inv(s) && Enabled(s, a) && !a.IncreaseEpoch?
    ensures ItemsOk(Step(s, a), a.t)
  {
    StepAdvances(s, a);
    var s', th := Step(s, a), s.threads[a.t];
    assert ItemsOk(s, a.t);
    if a.Retire? {
      RetireIsProtected(s, a.t, a.node, a.unlinked);
      forall i | 0 <= i < |th.items| ensures th.items[i].garbage.deleteEpoch <= s.epoch {
        assert Protected(s, th.items[i]);
      }
    }
    forall i | 0 <= i < |s'.threads[a.t].items| ensures Protected(s', s'.threads[a.t].items[i]) {
      if a.FreeFirst? {
        ProtectedStays(s, s', th.items[i + 1]);
      } else if i < |th.items| {
        ProtectedStays(s, s', th.items[i]);
      }
    }
  }

  lemma MovedPhaseOk(s: State, a: Action)
    requires Inv(s) && Enabled(s, a) && !a.IncreaseEpoch?
    ensures PhaseOk(Step(s, a), a.t)
  {
    StepAdvances(s, a);
    var s' := Step(s, a);
    assert PhaseOk(s, a.t);
    match a {
      case StartSummary(t) =>
        assert BelowAll(s, 1, s.threads[0].lastActive);
        BelowAllStays(s, s', 1, s.threads[0].lastActive);
      case ReadNext(t) =>
        var min := Min(s.threads[s.threads[t].phase.next].lastActive, s.threads[t].phase.min);
        assert BelowAll(s, s.threads[t].phase.next + 1, min);
        BelowAllStays(s, s', s.threads[t].phase.next + 1, min);
      case FreeFirst(t) => BelowAllStays(s, s', |s.threads|, s.threads[t].phase.min);
      case _ =>
    }
  }

  lemma StepKeepsInv(s: State, a: Action)
    requires Inv(s)
    ensures Inv(Step(s, a)) && |Step(s, a).threads| == |s.threads|
  {
    StepAdvances(s, a);
    var s' := Step(s, a);
    if Enabled(s, a) && !a.IncreaseEpoch? {
      MovedItemsOk(s, a);
      MovedPhaseOk(s, a);
    }
    forall t | 0 <= t < |s'.threads| ensures PhaseOk(s', t) && ItemsOk(s', t) {
      assert PhaseOk(s, t) && ItemsOk(s, t);
      if s'.threads[t] == s.threads[t] {
        OthersStay(s, s', t);
      }
    }
  }

  lemma {:induction false} InvAlways(n: nat, acts: seq<Action>, run: seq<State>, j: nat)
    requires IsRun(n, acts, run) && j <= |acts|
    ensures Inv(run[j]) && |run[j].threads| == n
  {
    if j > 0 {
      InvAlways(n, acts, run, j - 1);
      StepKeepsInv(run[j - 1], acts[j - 1]);
    }
  }

  // ---------- main results ----------

  // A node is freed only when no thread that was inside at the time it was unlinked is still inside,
  // although the minimum has been read one thread at a time.
  lemma FreeIsSafe(n: nat, acts: seq<Action>, run: seq<State>, j: nat, u: nat)
    requires IsRun(n, acts, run) && j < |acts| && acts[j].FreeFirst? && Enabled(run[j], acts[j]) && u < n
    ensures |run[j].threads| == n
    ensures InBracket(run[j].threads[u]) ==>
              run[j].threads[u].since > run[j].threads[acts[j].t].items[0].unlinked
  {
    InvAlways(n, acts, run, j);
    var s, t := run[j], acts[j].t;
    assert PhaseOk(s, t) && ItemsOk(s, t) && Protected(s, s.threads[t].items[0]);
  }

  function Garbages(items: seq<Item>): (r: seq<GarbageList.Garbage>)
    ensures |r| == |items| && forall i :: 0 <= i < |items| ==> r[i] == items[i].garbage
  {
    seq(|items|, i requires 0 <= i < |items| => items[i].garbage)
  }

  // Each list stays sorted and not above the global epoch, which is what the list routines rely on.
  lemma ListsStaySorted(n: nat, acts: seq<Action>, run: seq<State>, j: nat, t: nat)
    requires IsRun(n, acts, run) && j <= |acts| && t < n
    ensures |run[j].threads| == n
    ensures var items := Garbages(run[j].threads[t].items);
            && GarbageList.SortedByEpoch(items)
            && forall i :: 0 <= i < |items| ==> items[i].deleteEpoch <= run[j].epoch
  {
    InvAlways(n, acts, run, j);
    assert ItemsOk(run[j], t);
    var items := run[j].threads[t].items;
    forall i | 0 <= i < |items| ensures items[i].garbage.deleteEpoch <= run[j].epoch {
      assert Protected(run[j], items[i]);
    }
  }

  // Exactly the items that GCMetaData.PerformGC takes can be freed with a given minimum, first to last.
  lemma FreesWhatPerformGCTakes(s: State, t: nat, i: nat)
    requires t < |s.threads| && s.threads[t].phase.Freeing? && i <= |s.threads[t].items|
    requires GarbageList.SortedByEpoch(Garbages(s.threads[t].items))
    ensures Enabled(s.(threads := s.threads[t := s.threads[t].(items := s.threads[t].items[i..])]), FreeFirst(t))
       <==> i < |s.threads[t].items| && Garbages(s.threads[t].items)[i].deleteEpoch < s.threads[t].phase.min
    ensures i < |s.threads[t].items| ==>
              (Garbages(s.threads[t].items)[i].deleteEpoch < s.threads[t].phase.min
               <==> i < GarbageList.CountBefore(Garbages(s.threads[t].items), s.threads[t].phase.min))
  {
    if i < |s.threads[t].items| {
      GarbageList.CountBeforeIsAll(Garbages(s.threads[t].items), s.threads[t].phase.min, i);
    }
  }
}
