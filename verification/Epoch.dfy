// Epoch-based reclamation: class EpochManager, bwtree.h:7501-7614 and 7850-7932, compiled with
// USE_OLD_EPOCH. Any number of worker threads and one cleaner share a list of counters.
module Epoch {
  // bwtree.h: the huge number that the cleaner subtracts; counters are 32-bit ints.
  const MAX_THREAD_COUNT: int := 0x7FFF_FFFF

  // A retired node; `unlinked` is history: when it was taken out of the tree.
  datatype Garbage = Garbage(node: nat, unlinked: nat)

  datatype Record = Record(count: int, garbage: seq<Garbage>)

  // `since` is history: when the thread joined. A retiring thread has read current_epoch_p for
  // AddGarbageNode() and has not linked its node yet.
  datatype Thread =
    | Out
    | Holding(epoch: nat)
    | Bounced(epoch: nat)
    | In(epoch: nat, since: nat)
    | Retiring(epoch: nat, since: nat, target: nat, item: Garbage)

  // The program counter of ClearEpoch() and CreateNewEpoch().
  datatype Cleaner = Check | Load | Subtract | AddBack | Free | Create

  // `records` are all epochs ever created; head_epoch_p is at `head`, current_epoch_p at the end, and
  // the records before the head have been deleted (bwtree.h:7919).
  datatype State = State(records: seq<Record>, head: nat, cleaner: Cleaner, threads: seq<Thread>, now: nat)
  {
    function Current(): int { |records| - 1 }
  }

  datatype Action =
    | ReadCurrent(t: nat)
    | Add(t: nat)
    | Undo(t: nat)
    | Leave(t: nat)
    | Retire(t: nat, item: Garbage)
    | Link(t: nat)
    | Clean

  function Initial(n: nat): State {
    State([Record(0, [])], 0, Check, seq(n, _ => Out), 0)
  }

  predicate Enabled(s: State, a: Action) {
    match a
    case ReadCurrent(t) => t < |s.threads| && s.threads[t].Out? && |s.records| > 0
    case Add(t) => t < |s.threads| && s.threads[t].Holding? && s.threads[t].epoch < |s.records|
    case Undo(t) => t < |s.threads| && s.threads[t].Bounced? && s.threads[t].epoch < |s.records|
    case Leave(t) => t < |s.threads| && s.threads[t].In? && s.threads[t].epoch < |s.records|
    // The node was unlinked by this thread, some time after it joined.
    case Retire(t, item) =>
      t < |s.threads| && s.threads[t].In? && s.threads[t].since <= item.unlinked <= s.now && |s.records| > 0
    case Link(t) => t < |s.threads| && s.threads[t].Retiring? && s.threads[t].target < |s.records|
    case Clean => s.head < |s.records|
  }

  // fetch_add on a counter; the old value is read from the old state.
  function Plus(s: State, e: nat, d: int): State
    requires e < |s.records|
  {
    s.(records := s.records[e := s.records[e].(count := s.records[e].count + d)])
  }

  function CleanStep(s: State): State
    requires s.head < |s.records|
  {
    var count := s.records[s.head].count;
    match s.cleaner
    case Check => s.(cleaner := if s.head == s.Current() then Create else Load)
    case Load => s.(cleaner := if count != 0 then Create else Subtract)
    case Subtract => Plus(s, s.head, -MAX_THREAD_COUNT).(cleaner := if count > 0 then AddBack else Free)
    case AddBack => Plus(s, s.head, MAX_THREAD_COUNT).(cleaner := Create)
    case Free => s.(head := s.head + 1, cleaner := Check)
    case Create => s.(records := s.records + [Record(0, [])], cleaner := Check)
  }

  function Next(s: State, a: Action): State
    requires Enabled(s, a)
  {
    match a
    case ReadCurrent(t) => s.(threads := s.threads[t := Holding(|s.records| - 1)])
    case Add(t) =>
      var e := s.threads[t].epoch;
      Plus(s, e, 1).(threads := s.threads[t := if s.records[e].count < 0 then Bounced(e) else In(e, s.now)])
    case Undo(t) => Plus(s, s.threads[t].epoch, -1).(threads := s.threads[t := Out])
    case Leave(t) => Plus(s, s.threads[t].epoch, -1).(threads := s.threads[t := Out])
    case Retire(t, item) =>
      var th := s.threads[t];
      s.(threads := s.threads[t := Retiring(th.epoch, th.since, |s.records| - 1, item)])
    case Link(t) =>
      var th := s.threads[t];
      var r := s.records[th.target];
      s.(records := s.records[th.target := r.(garbage := [th.item] + r.garbage)],
         threads := s.threads[t := In(th.epoch, th.since)])
    case Clean => CleanStep(s)
  }

  // Every step takes one unit of time.
  function Step(s: State, a: Action): State {
    (if Enabled(s, a) then Next(s, a) else s).(now := s.now + 1)
  }

  ghost predicate IsRun(n: nat, acts: seq<Action>, run: seq<State>) {
    && |run| == |acts| + 1 && run[0] == Initial(n)
    && forall j :: 0 <= j < |acts| ==> run[j + 1] == Step(run[j], acts[j])
  }

  // ---------- the invariant ----------

  predicate Joined(th: Thread, e: nat) {
    (th.In? || th.Retiring?) && th.epoch == e
  }

  // Threads that have added one to the counter: those that joined, and transient joiners that have
  // not taken it back yet.
  function One(th: Thread, e: nat): nat {
    if Joined(th, e) || (th.Bounced? && th.epoch == e) then 1 else 0
  }

  function Pins(threads: seq<Thread>, e: nat): nat {
    if threads == [] then 0 else One(threads[0], e) + Pins(threads[1..], e)
  }

  // The cleaner holds the epoch, or has cleared it.
  predicate Sealed(s: State, e: nat) {
    e < s.head || (e == s.head && (s.cleaner.AddBack? || s.cleaner.Free?))
  }

  predicate Cleared(s: State, e: nat) {
    e < s.head || (e == s.head && s.cleaner.Free?)
  }

  ghost predicate CounterOk(s: State, e: nat)
    requires e < |s.records|
  {
    s.records[e].count == Pins(s.threads, e) - (if Sealed(s, e) then MAX_THREAD_COUNT else 0)
  }

  // Whoever joined before the node was unlinked is in no later epoch than the node's list.
  ghost predicate Protected(s: State, item: Garbage, target: nat) {
    && target < |s.records| && item.unlinked < s.now
    && forall u :: 0 <= u < |s.threads| && (s.threads[u].In? || s.threads[u].Retiring?)
                   && s.threads[u].since <= item.unlinked ==>
                     s.threads[u].epoch <= target
  }

  ghost predicate ThreadOk(s: State, t: nat)
    requires t < |s.threads|
  {
    var th := s.threads[t];
    match th
    case Out => true
    case Holding(e) => e < |s.records|
    case Bounced(e) => e < |s.records|
    case In(e, since) => e < |s.records| && !Cleared(s, e) && since < s.now
    case Retiring(e, since, target, item) =>
      e <= target < |s.records| && !Cleared(s, e) && since < s.now && Protected(s, item, target)
  }

  ghost predicate GarbageOk(s: State) {
    forall e, k :: 0 <= e < |s.records| && 0 <= k < |s.records[e].garbage| ==> Protected(s, s.records[e].garbage[k], e)
  }

  ghost predicate Inv(s: State) {
    && s.head < |s.records| && |s.threads| < MAX_THREAD_COUNT
    && (!s.cleaner.Check? && !s.cleaner.Create? ==> s.head < |s.records| - 1)
    && (forall e :: 0 <= e < |s.records| ==> CounterOk(s, e))
    && (forall t :: 0 <= t < |s.threads| ==> ThreadOk(s, t))
    && GarbageOk(s)
  }

  // ---------- counting ----------

  lemma {:induction false} PinsUpdate(threads: seq<Thread>, t: nat, th: Thread, e: nat)
    requires t < |threads|
    ensures Pins(threads[t := th], e) == Pins(threads, e) - One(threads[t], e) + One(th, e)
  {
    if t == 0 {
      assert threads[t := th][1..] == threads[1..];
    } else {
      PinsUpdate(threads[1..], t - 1, th, e);
      assert threads[t := th][1..] == threads[1..][t - 1 := th];
    }
  }

  lemma {:induction false} PinsBound(threads: seq<Thread>, e: nat)
    ensures Pins(threads, e) <= |threads|
    ensures Pins(threads, e) == 0 ==> forall t :: 0 <= t < |threads| ==> One(threads[t], e) == 0
  {
    if threads != [] { PinsBound(threads[1..], e); }
  }

  lemma {:induction false} NoPins(threads: seq<Thread>, e: nat)
    requires forall t :: 0 <= t < |threads| ==> One(threads[t], e) == 0
    ensures Pins(threads, e) == 0
  {
    if threads != [] { NoPins(threads[1..], e); }
  }

  // A fetch_add that is matched by the thread keeps the counter right.
  lemma CountersAfter(s: State, t: nat, th: Thread, e: nat, d: int)
    requires t < |s.threads| && e < |s.records|
    requires forall k :: 0 <= k < |s.records| ==> CounterOk(s, k)
    requires forall k :: 0 <= k < |s.records| ==> One(th, k) - One(s.threads[t], k) == if k == e then d else 0
    ensures var s' := Plus(s, e, d).(threads := s.threads[t := th], now := s.now + 1);
            forall k :: 0 <= k < |s.records| ==> CounterOk(s', k)
  {
    hide Pins;
    var s' := Plus(s, e, d).(threads := s.threads[t := th], now := s.now + 1);
    forall k | 0 <= k < |s.records| ensures CounterOk(s', k) {
      assert CounterOk(s, k);
      PinsUpdate(s.threads, t, th, k);
    }
  }
}
