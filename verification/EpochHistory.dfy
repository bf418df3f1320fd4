// What the epoch manager does with retired nodes and counters, told by the actions of the run alone.
module EpochHistory {
  import opened Options
  import opened Epoch
  import opened EpochProofs

  // ---------- the nodes ----------

  // How often an item has been given to a retire call.
  function Retired(acts: seq<Action>, run: seq<State>, x: Garbage, j: nat): nat
    requires j <= |acts| && |run| == |acts| + 1
  {
    if j == 0 then 0 else Retired(acts, run, x, j - 1) + RetiredAt(run[j - 1], acts[j - 1], x)
  }

  function RetiredAt(s: State, a: Action, x: Garbage): nat {
    if a.Retire? && a.item == x && Enabled(s, a) then 1 else 0
  }

  // How often the cleaner has freed it: at a Free step, as often as it is on the list of the head.
  function Freed(acts: seq<Action>, run: seq<State>, x: Garbage, j: nat): nat
    requires j <= |acts| && |run| == |acts| + 1
  {
    if j == 0 then 0 else Freed(acts, run, x, j - 1) + FreedAt(run[j - 1], acts[j - 1], x)
  }

  function FreedAt(s: State, a: Action, x: Garbage): nat {
    if a.Clean? && Enabled(s, a) && s.cleaner.Free? then OnList(s.records[s.head], x) else 0
  }

  function OnList(r: Record, x: Garbage): nat {
    multiset(r.garbage)[x]
  }

  // How many threads have it in hand, not linked yet.
  function InHand(threads: seq<Thread>, x: Garbage): nat {
    if threads == [] then 0 else HeldBy(threads[0], x) + InHand(threads[1..], x)
  }

  function HeldBy(th: Thread, x: Garbage): nat {
    if th.Retiring? && th.item == x then 1 else 0
  }

  // How often it is on the lists of the epochs between two.
  function Listed(records: seq<Record>, from: nat, upto: nat, x: Garbage): nat
    requires upto <= |records|
  {
    if upto <= from then 0 else Listed(records, from, upto - 1, x) + OnList(records[upto - 1], x)
  }

  lemma {:induction false} InHandUpdate(threads: seq<Thread>, t: nat, th: Thread, x: Garbage)
    requires t < |threads|
    ensures InHand(threads[t := th], x) + HeldBy(threads[t], x) == InHand(threads, x) + HeldBy(th, x)
  {
    if t == 0 {
      assert threads[t := th][1..] == threads[1..];
    } else {
      InHandUpdate(threads[1..], t - 1, th, x);
      assert threads[t := th][1..] == threads[1..][t - 1 := th];
    }
  }

  lemma {:induction false} NothingInHand(threads: seq<Thread>, x: Garbage)
    requires forall t :: 0 <= t < |threads| ==> threads[t].Out?
    ensures InHand(threads, x) == 0
  {
    if threads != [] { NothingInHand(threads[1..], x); }
  }

  lemma {:induction false} SameLists(records: seq<Record>, records': seq<Record>, from: nat, upto: nat, x: Garbage)
    requires upto <= |records| && upto <= |records'|
    requires forall e :: from <= e < upto ==> records'[e].garbage == records[e].garbage
    ensures Listed(records', from, upto, x) == Listed(records, from, upto, x)
  {
    if upto > from { SameLists(records, records', from, upto - 1, x); }
  }

  lemma {:induction false} OneMore(records: seq<Record>, e: nat, item: Garbage, from: nat, upto: nat, x: Garbage)
    requires from <= e < upto <= |records|
    ensures var r := records[e].(garbage := [item] + records[e].garbage);
            Listed(records[e := r], from, upto, x) == Listed(records, from, upto, x) + (if item == x then 1 else 0)
  {
    var r := records[e].(garbage := [item] + records[e].garbage);
    if e == upto - 1 {
      SameLists(records, records[e := r], from, upto - 1, x);
      assert multiset(r.garbage) == multiset{item} + multiset(records[e].garbage);
    } else {
      OneMore(records, e, item, from, upto - 1, x);
    }
  }

  lemma {:induction false} HeadList(records: seq<Record>, from: nat, upto: nat, x: Garbage)
    requires from < upto <= |records|
    ensures Listed(records, from, upto, x) == OnList(records[from], x) + Listed(records, from + 1, upto, x)
  {
    if from + 1 < upto { HeadList(records, from, upto - 1, x); }
  }

  // How often it is neither freed nor lost.
  function Waiting(s: State, x: Garbage): nat {
    InHand(s.threads, x) + Listed(s.records, s.head, |s.records|, x)
  }

  lemma RetireItems(s: State, t: nat, item: Garbage, x: Garbage)
    requires Enabled(s, Retire(t, item))
    ensures Waiting(Step(s, Retire(t, item)), x) == Waiting(s, x) + (if item == x then 1 else 0)
  {
    hide InHand, Listed;
    InHandUpdate(s.threads, t, Step(s, Retire(t, item)).threads[t], x);
  }

  lemma LinkItems(s: State, t: nat, x: Garbage)
    requires Inv(s) && Enabled(s, Link(t))
    ensures Waiting(Step(s, Link(t)), x) == Waiting(s, x)
  {
    assert ThreadOk(s, t);
    hide Inv, ThreadOk, InHand, Listed;
    InHandUpdate(s.threads, t, Step(s, Link(t)).threads[t], x);
    OneMore(s.records, s.threads[t].target, s.threads[t].item, s.head, |s.records|, x);
  }

  lemma WorkerItems(s: State, a: Action, x: Garbage)
    requires Enabled(s, a) && !a.Retire? && !a.Link? && !a.Clean?
    ensures Waiting(Step(s, a), x) == Waiting(s, x)
  {
    var s' := Step(s, a);
    hide InHand, Listed;
    InHandUpdate(s.threads, a.t, s'.threads[a.t], x);
    SameLists(s.records, s'.records, s.head, |s.records|, x);
  }

  lemma CleanerItems(s: State, x: Garbage)
    requires Enabled(s, Clean)
    ensures Waiting(Step(s, Clean), x) + FreedAt(s, Clean, x) == Waiting(s, x)
  {
    var s' := Step(s, Clean);
    hide InHand, Listed, OnList;
    SameLists(s.records, s'.records, s'.head, |s.records|, x);
    HeadList(s.records, s.head, |s.records|, x);
    if s.cleaner.Create? { EmptyList(s.records, s.head, x); }
  }

  lemma EmptyList(records: seq<Record>, from: nat, x: Garbage)
    requires from <= |records|
    ensures var records' := records + [Record(0, [])];
            Listed(records', from, |records'|, x) == Listed(records', from, |records|, x)
  {
  }

  lemma StepItems(s: State, a: Action, x: Garbage)
    requires Inv(s)
    ensures Waiting(Step(s, a), x) + FreedAt(s, a, x) == Waiting(s, x) + RetiredAt(s, a, x)
  {
    hide Waiting, Inv;
    if Enabled(s, a) {
      match a {
        case Retire(t, item) => RetireItems(s, t, item, x);
        case Link(t) => LinkItems(s, t, x);
        case Clean => CleanerItems(s, x);
        case _ => WorkerItems(s, a, x);
      }
    } else {
      SameWaiting(s, x);
    }
  }

  lemma SameWaiting(s: State, x: Garbage)
    ensures Waiting(s.(now := s.now + 1), x) == Waiting(s, x)
  {
  }

  // Every retired item is in the hand of its thread, on the list of an epoch that has not been deleted,
  // or freed, as often as it was retired; so nothing else is freed, and nothing twice.
  lemma {:induction false} RetiredItemsAreConserved(n: nat, acts: seq<Action>, run: seq<State>, x: Garbage, j: nat)
    requires IsRun(n, acts, run) && j <= |acts| && n < MAX_THREAD_COUNT
    ensures var s := run[j];
            Retired(acts, run, x, j) == InHand(s.threads, x) + Listed(s.records, s.head, |s.records|, x) + Freed(acts, run, x, j)
  {
    if j == 0 {
      NothingInHand(run[0].threads, x);
    } else {
      RetiredItemsAreConserved(n, acts, run, x, j - 1);
      InvAlways(n, acts, run, j - 1);
      StepItems(run[j - 1], acts[j - 1], x);
      hide Inv, InHand, Listed, RetiredAt, FreedAt, Step;
    }
  }

  // ---------- the counters ----------

  // Whoever adds one to the counter of the epoch, and whoever takes one off.
  predicate Adds(s: State, a: Action, e: nat) {
    Enabled(s, a) && a.Add? && s.threads[a.t].epoch == e
  }

  predicate TakesOff(s: State, a: Action, e: nat) {
    Enabled(s, a) && (a.Undo? || a.Leave?) && s.threads[a.t].epoch == e
  }

  function Balance(acts: seq<Action>, run: seq<State>, e: nat, j: nat): int
    requires j <= |acts| && |run| == |acts| + 1
  {
    if j == 0 then 0
    else
      Balance(acts, run, e, j - 1) + (if Adds(run[j - 1], acts[j - 1], e) then 1 else 0)
      - (if TakesOff(run[j - 1], acts[j - 1], e) then 1 else 0)
  }

  lemma PinsStep(s: State, a: Action, e: nat)
    ensures Pins(Step(s, a).threads, e)
         == Pins(s.threads, e) + (if Adds(s, a, e) then 1 else 0) - (if TakesOff(s, a, e) then 1 else 0)
  {
    if Enabled(s, a) && !a.Clean? {
      hide Pins;
      PinsUpdate(s.threads, a.t, Step(s, a).threads[a.t], e);
    }
  }

  // A counter is the number of joins, counting transient ones, minus the number of leaves, and minus
  // MAX_THREAD_COUNT while the cleaner holds the epoch or after it has cleared it.
  lemma {:induction false} CountersCountCalls(n: nat, acts: seq<Action>, run: seq<State>, j: nat, e: nat)
    requires IsRun(n, acts, run) && j <= |acts| && n < MAX_THREAD_COUNT
    ensures Pins(run[j].threads, e) == Balance(acts, run, e, j)
    ensures e < |run[j].records| ==>
              run[j].records[e].count == Balance(acts, run, e, j) - (if Sealed(run[j], e) then MAX_THREAD_COUNT else 0)
  {
    if j == 0 {
      NoPins(run[0].threads, e);
    } else {
      CountersCountCalls(n, acts, run, j - 1, e);
      PinsStep(run[j - 1], acts[j - 1], e);
    }
    if e < |run[j].records| { CounterInvariant(n, acts, run, j, e); }
    hide Pins, Inv, Step, Adds, TakesOff;
  }

  // ---------- the threads ----------

  // The last step of thread t.
  function LastOwn(acts: seq<Action>, run: seq<State>, t: nat, j: nat): Option<nat>
    requires j <= |acts| && |run| == |acts| + 1
  {
    if j == 0 then None
    else if !acts[j - 1].Clean? && acts[j - 1].t == t && Enabled(run[j - 1], acts[j - 1]) then Some(j - 1)
    else LastOwn(acts, run, t, j - 1)
  }

  // What a thread is at after a step of its own: a join succeeds unless the cleaner holds the epoch or
  // has cleared it, and a retired node is the one that is linked next.
  ghost predicate After(s: State, a: Action, th: Thread) {
    match a
    case ReadCurrent(_) => th.Holding?
    case Add(t) => t < |s.threads| && s.threads[t].Holding? && (if Sealed(s, s.threads[t].epoch) then th.Bounced? else th.In?)
    case Undo(_) => th.Out?
    case Leave(_) => th.Out?
    case Retire(_, item) => th.Retiring? && th.item == item
    case Link(_) => th.In?
    case Clean => false
  }

  lemma StepAfter(s: State, a: Action)
    requires Inv(s) && Enabled(s, a) && !a.Clean?
    ensures a.t < |Step(s, a).threads| && After(s, a, Step(s, a).threads[a.t])
  {
    if a.Add? { CounterSign(s, s.threads[a.t].epoch); }
    hide Inv;
  }

  lemma OtherThreads(s: State, a: Action, t: nat)
    requires t < |s.threads| && (a.Clean? || a.t != t || !Enabled(s, a))
    ensures t < |Step(s, a).threads| && Step(s, a).threads[t] == s.threads[t]
  {
  }

  // The state of a thread is the one that its last step leads to, whatever the others did since.
  lemma {:induction false} ThreadFollowsItsSteps(n: nat, acts: seq<Action>, run: seq<State>, t: nat, j: nat)
    requires IsRun(n, acts, run) && j <= |acts| && n < MAX_THREAD_COUNT && t < n
    ensures |run| == |acts| + 1 && |run[j].threads| == n
    ensures var i := LastOwn(acts, run, t, j);
            if i.None? then run[j].threads[t].Out?
            else
              && i.value < j && After(run[i.value], acts[i.value], run[j].threads[t])
              && t < |run[i.value + 1].threads| && run[j].threads[t] == run[i.value + 1].threads[t]
  {
    RunStart(n, acts, run);
    InvAlways(n, acts, run, j);
    hide Inv, Step, After, Enabled, IsRun;
    if j > 0 {
      ThreadFollowsItsSteps(n, acts, run, t, j - 1);
      RunStep(n, acts, run, j - 1);
      var s, a := run[j - 1], acts[j - 1];
      if !a.Clean? && a.t == t && Enabled(s, a) { StepAfter(s, a); } else { OtherThreads(s, a, t); }
    }
  }

  lemma RunStep(n: nat, acts: seq<Action>, run: seq<State>, j: nat)
    requires IsRun(n, acts, run) && j < |acts| && n < MAX_THREAD_COUNT
    ensures |run| == |acts| + 1 && Inv(run[j]) && |run[j].threads| == n && run[j + 1] == Step(run[j], acts[j])
  {
    InvAlways(n, acts, run, j);
  }

  lemma RunStart(n: nat, acts: seq<Action>, run: seq<State>)
    requires IsRun(n, acts, run)
    ensures |run| == |acts| + 1 && run[0] == Initial(n)
  {
  }

  // The history field `since` is the step at which the thread joined its epoch: it has been inside
  // ever since.
  lemma {:induction false} JoinedWhen(n: nat, acts: seq<Action>, run: seq<State>, t: nat, j: nat)
    requires IsRun(n, acts, run) && j <= |acts| && n < MAX_THREAD_COUNT && t < n
    ensures |run[j].threads| == n && run[j].now == j
    ensures var th := run[j].threads[t];
            th.In? || th.Retiring? ==>
              && th.since < j && acts[th.since] == Add(t) && Enabled(run[th.since], Add(t))
              && forall m :: th.since < m < j ==> !(acts[m] == Leave(t) && Enabled(run[m], Leave(t)))
  {
    InvAlways(n, acts, run, j);
    hide Inv;
    if j > 0 {
      JoinedWhen(n, acts, run, t, j - 1);
      JoinedStep(run[j - 1], acts[j - 1], t);
      hide Step, Enabled;
    }
  }

  lemma JoinedStep(s: State, a: Action, t: nat)
    requires t < |s.threads| == |Step(s, a).threads|
    ensures Step(s, a).now == s.now + 1
    ensures var th, th' := s.threads[t], Step(s, a).threads[t];
            th'.In? || th'.Retiring? ==>
              && !(a == Leave(t) && Enabled(s, a))
              && if th.In? || th.Retiring? then th'.since == th.since else a == Add(t) && Enabled(s, a) && th'.since == s.now
  {
  }

  // Every thread can always go on.
  lemma WorkersGoOn(n: nat, acts: seq<Action>, run: seq<State>, t: nat, j: nat)
    requires IsRun(n, acts, run) && j <= |acts| && n < MAX_THREAD_COUNT && t < n
    ensures |run[j].threads| == n
    ensures match run[j].threads[t]
            case Out => Enabled(run[j], ReadCurrent(t))
            case Holding(_) => Enabled(run[j], Add(t))
            case Bounced(_) => Enabled(run[j], Undo(t))
            case In(_, since) =>
              Enabled(run[j], Leave(t)) && forall item: Garbage :: since <= item.unlinked <= j ==> Enabled(run[j], Retire(t, item))
            case Retiring(_, _, _, _) => Enabled(run[j], Link(t))
  {
    InvAlways(n, acts, run, j);
    JoinedWhen(n, acts, run, t, j);
    assert ThreadOk(run[j], t);
  }

  // ---------- the cleaner ----------

  // Steps i to k are all steps of the cleaner.
  ghost predicate CleansFor(acts: seq<Action>, i: nat, k: nat) {
    i <= k <= |acts| && forall m :: i <= m < k ==> acts[m] == Clean
  }

  lemma CleanStepOf(n: nat, acts: seq<Action>, run: seq<State>, j: nat)
    requires IsRun(n, acts, run) && j < |acts| && n < MAX_THREAD_COUNT && acts[j] == Clean
    ensures run[j].head < |run[j].records| && run[j + 1] == CleanStep(run[j]).(now := run[j].now + 1)
  {
    InvAlways(n, acts, run, j);
    hide Inv;
  }

  // An epoch that is not the current one and that nobody is in is freed, with its whole list, by four
  // undisturbed steps of the cleaner.
  lemma IdleEpochIsFreed(n: nat, acts: seq<Action>, run: seq<State>, x: Garbage, j: nat)
    requires IsRun(n, acts, run) && n < MAX_THREAD_COUNT && j + 4 <= |acts| && CleansFor(acts, j, j + 4)
    requires run[j].cleaner.Check? && run[j].head < run[j].Current() && run[j].records[run[j].head].count == 0
    ensures run[j + 4].head == run[j].head + 1 && run[j + 4].cleaner.Check?
    ensures Freed(acts, run, x, j + 4) == Freed(acts, run, x, j) + OnList(run[j].records[run[j].head], x)
  {
    CleanStepOf(n, acts, run, j);
    CleanStepOf(n, acts, run, j + 1);
    CleanStepOf(n, acts, run, j + 2);
    CleanStepOf(n, acts, run, j + 3);
    hide Freed, IsRun;
    FreedStep(acts, run, x, j);
    FreedStep(acts, run, x, j + 1);
    FreedStep(acts, run, x, j + 2);
    FreedStep(acts, run, x, j + 3);
  }

  lemma FreedStep(acts: seq<Action>, run: seq<State>, x: Garbage, j: nat)
    requires j < |acts| && |run| == |acts| + 1 && acts[j] == Clean && run[j].head < |run[j].records|
    ensures Freed(acts, run, x, j + 1)
         == Freed(acts, run, x, j) + (if run[j].cleaner.Free? then OnList(run[j].records[run[j].head], x) else 0)
  {
  }

  // Otherwise a round of the cleaner creates a new epoch: at once if the head is the current epoch, and
  // after the load if somebody is in it.
  lemma BusyRoundCreatesAnEpoch(n: nat, acts: seq<Action>, run: seq<State>, j: nat) returns (k: nat)
    requires IsRun(n, acts, run) && n < MAX_THREAD_COUNT && j + 3 <= |acts| && CleansFor(acts, j, j + 3)
    requires run[j].cleaner.Check? && run[j].head < |run[j].records|
    requires run[j].head == run[j].Current() || run[j].records[run[j].head].count != 0
    ensures j + 2 <= k <= j + 3 && run[k].cleaner.Check? && run[k].head == run[j].head
    ensures run[k].records == run[j].records + [Record(0, [])]
  {
    CleanStepOf(n, acts, run, j);
    CleanStepOf(n, acts, run, j + 1);
    CleanStepOf(n, acts, run, j + 2);
    k := if run[j].head == run[j].Current() then j + 2 else j + 3;
  }

  // A thread that sneaks in after the load is noticed: the cleaner gives the epoch back.
  lemma DisturbedCleanerGivesBack(n: nat, acts: seq<Action>, run: seq<State>, j: nat)
    requires IsRun(n, acts, run) && n < MAX_THREAD_COUNT && j + 2 <= |acts| && CleansFor(acts, j, j + 2)
    requires run[j].cleaner.Subtract? && run[j].head < |run[j].records| && run[j].records[run[j].head].count > 0
    ensures run[j + 2].records == run[j].records && run[j + 2].head == run[j].head && run[j + 2].cleaner.Create?
  {
    CleanStepOf(n, acts, run, j);
    CleanStepOf(n, acts, run, j + 1);
  }
}
