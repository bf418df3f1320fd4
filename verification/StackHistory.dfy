// What the stack of recycled NodeIDs holds, told by the actions of the run alone.
module StackHistory {
  import opened Options
  import opened AtomicStack

  // ---------- the pusher ----------

  // The items of the push that is under way after j steps.
  function Pending(acts: seq<Action>, run: seq<State>, j: nat): seq<int>
    requires j <= |acts| && |run| == |acts| + 1
  {
    if j == 0 then []
    else if !Enabled(run[j - 1], acts[j - 1]) then Pending(acts, run, j - 1)
    else match acts[j - 1]
      case Prepare(items, _) => items
      case StoreTop => []
      case _ => Pending(acts, run, j - 1)
  }

  // The items of all pushes that have stored their top, oldest first.
  function Stored(acts: seq<Action>, run: seq<State>, j: nat): seq<int>
    requires j <= |acts| && |run| == |acts| + 1
  {
    if j == 0 then []
    else if acts[j - 1].StoreTop? && Enabled(run[j - 1], acts[j - 1]) then
      Stored(acts, run, j - 1) + Pending(acts, run, j - 1)
    else Stored(acts, run, j - 1)
  }

  // The items buffered since the last commit.
  function Buffered(acts: seq<Action>, run: seq<State>, j: nat): seq<int>
    requires j <= |acts| && |run| == |acts| + 1
  {
    if j == 0 then []
    else if !Enabled(run[j - 1], acts[j - 1]) then Buffered(acts, run, j - 1)
    else match acts[j - 1]
      case BufferPush(item) => Buffered(acts, run, j - 1) + [item]
      case Prepare(_, fromBuffer) => if fromBuffer then [] else Buffered(acts, run, j - 1)
      case _ => Buffered(acts, run, j - 1)
  }

  // The slots written by the push that is under way.
  function Writes(acts: seq<Action>, run: seq<State>, j: nat): nat
    requires j <= |acts| && |run| == |acts| + 1
  {
    if j == 0 then 0
    else if !Enabled(run[j - 1], acts[j - 1]) then Writes(acts, run, j - 1)
    else match acts[j - 1]
      case Prepare(_, _) => 0
      case WriteSlot => Writes(acts, run, j - 1) + 1
      case _ => Writes(acts, run, j - 1)
  }

  // A push is under way from its Prepare to its StoreTop.
  predicate UnderWay(acts: seq<Action>, run: seq<State>, j: nat)
    requires j <= |acts| && |run| == |acts| + 1
  {
    j > 0 &&
    if Enabled(run[j - 1], acts[j - 1]) && (acts[j - 1].Prepare? || acts[j - 1].StoreTop?) then acts[j - 1].Prepare?
    else UnderWay(acts, run, j - 1)
  }

  lemma BufferStep(s: State, a: Action)
    ensures Step(s, a).buffer ==
              if !Enabled(s, a) then s.buffer
              else if a.BufferPush? then s.buffer + [a.item]
              else if a.Prepare? && a.fromBuffer then [] else s.buffer
  {
  }

  lemma PusherStep(s: State, a: Action)
    ensures Step(s, a).pusher.Pushing? <==>
              if Enabled(s, a) && (a.Prepare? || a.StoreTop?) then a.Prepare? else s.pusher.Pushing?
    ensures Step(s, a).pushed == if Enabled(s, a) && a.StoreTop? then s.pushed + s.pusher.items else s.pushed
    ensures Step(s, a).pusher.Pushing? ==>
              if Enabled(s, a) && a.Prepare? then Step(s, a).pusher.items == a.items && Step(s, a).pusher.written == 0
              else
                && s.pusher.Pushing? && Step(s, a).pusher.items == s.pusher.items
                && Step(s, a).pusher.written == s.pusher.written + (if Enabled(s, a) && a.WriteSlot? then 1 else 0)
    ensures Enabled(s, a) ==> (a.StoreTop? || a.WriteSlot? ==> s.pusher.Pushing?) && (a.Prepare? ==> s.pusher.Quiet?)
  {
    hide SameWords;
  }

  // `pushed` is what the prepared pushes that have stored their top were given, in order; a commit is
  // given what has been buffered since the last one, in order.
  lemma {:induction false} PushedInOrder(size: nat, memory: seq<int>, n: nat, acts: seq<Action>, run: seq<State>,
                                         j: nat)
    requires IsRun(size, memory, n, acts, run) && j <= |acts|
    ensures run[j].pushed == Stored(acts, run, j)
    ensures run[j].pusher.Pushing? <==> UnderWay(acts, run, j)
    ensures if run[j].pusher.Pushing? then run[j].pusher.items == Pending(acts, run, j) && run[j].pusher.written == Writes(acts, run, j)
            else Pending(acts, run, j) == []
  {
    hide Step, Enabled;
    if j > 0 {
      PushedInOrder(size, memory, n, acts, run, j - 1);
      PusherStep(run[j - 1], acts[j - 1]);
    }
  }

  lemma {:induction false} BufferedInOrder(size: nat, memory: seq<int>, n: nat, acts: seq<Action>, run: seq<State>,
                                           j: nat)
    requires IsRun(size, memory, n, acts, run) && j <= |acts|
    ensures run[j].buffer == Buffered(acts, run, j)
    ensures j < |acts| && acts[j].Prepare? && acts[j].fromBuffer && Enabled(run[j], acts[j]) ==>
              acts[j].items == Buffered(acts, run, j)
  {
    hide Step;
    if j > 0 {
      BufferedInOrder(size, memory, n, acts, run, j - 1);
      BufferStep(run[j - 1], acts[j - 1]);
    }
  }

  // Between two pushes any item can be buffered, and any push that fits can begin.
  lemma PusherCanBegin(size: nat, memory: seq<int>, n: nat, acts: seq<Action>, run: seq<State>, j: nat)
    requires IsRun(size, memory, n, acts, run) && FewChangesThroughout(run) && j <= |acts| && !UnderWay(acts, run, j)
    ensures forall item :: Enabled(run[j], BufferPush(item))
    ensures |Contents(run[j])| < |run[j].data| ==> forall item :: Enabled(run[j], Prepare([item], false))
    ensures |Contents(run[j])| + |Buffered(acts, run, j)| <= |run[j].data| ==>
              Enabled(run[j], Prepare(Buffered(acts, run, j), true))
  {
    PushedInOrder(size, memory, n, acts, run, j);
    BufferedInOrder(size, memory, n, acts, run, j);
    InvAlways(size, memory, n, acts, run, j);
    hide PopperOk, VersionOk, UnderWay, Buffered;
  }

  // The pusher can always go on: it writes its next slot, or stores the top when all are written.
  lemma PusherGoesOn(size: nat, memory: seq<int>, n: nat, acts: seq<Action>, run: seq<State>, j: nat)
    requires IsRun(size, memory, n, acts, run) && FewChangesThroughout(run) && j <= |acts| && UnderWay(acts, run, j)
    ensures Writes(acts, run, j) <= |Pending(acts, run, j)|
    ensures Writes(acts, run, j) < |Pending(acts, run, j)| <==> Enabled(run[j], WriteSlot)
    ensures Writes(acts, run, j) == |Pending(acts, run, j)| <==> Enabled(run[j], StoreTop)
  {
    PushedInOrder(size, memory, n, acts, run, j);
    InvAlways(size, memory, n, acts, run, j);
    hide PopperOk, VersionOk;
  }

  // ---------- the contents ----------

  lemma StoreTopStep(s: State)
    requires Inv(s) && Enabled(s, StoreTop)
    ensures Contents(Step(s, StoreTop)) == Contents(s) + s.pusher.items
  {
    hide PopperOk, VersionOk;
    var items := s.pusher.items;
    assert items[..|items|] == items;
    var p := Last(s);
    assert s.data[..p.index + 1 + |items|] == s.data[..p.index + 1] + s.data[p.index + 1..p.index + 1 + |items|];
  }

  // Storing the top puts the items of the push on the stack, in order.
  lemma StoreTopPushesTheItems(size: nat, memory: seq<int>, n: nat, acts: seq<Action>, run: seq<State>, j: nat)
    requires IsRun(size, memory, n, acts, run) && FewChangesThroughout(run) && j < |acts|
    requires acts[j].StoreTop? && Enabled(run[j], acts[j])
    ensures Contents(run[j + 1]) == Contents(run[j]) + Pending(acts, run, j)
  {
    PushedInOrder(size, memory, n, acts, run, j);
    InvAlways(size, memory, n, acts, run, j);
    StoreTopStep(run[j]);
    PusherStep(run[j], acts[j]);
    hide Inv, Contents, Step, FewChanges, Enabled;
  }

  // Thread t takes the top off: its compare-and-swap finds the words that it loaded.
  predicate Takes(s: State, a: Action) {
    Enabled(s, a) && a.Cas? && SameWords(s.top, s.poppers[a.t].snapshot)
  }

  // The compare-and-swap of a pop succeeds exactly if the top has not changed since it was loaded; then
  // the pop returns the item on top of the stack and takes just that one off, otherwise it changes
  // nothing and starts over with the present top.
  lemma CasTakesTheTop(size: nat, memory: seq<int>, n: nat, acts: seq<Action>, run: seq<State>, j: nat)
    requires IsRun(size, memory, n, acts, run) && FewChangesThroughout(run) && j < |acts|
    requires acts[j].Cas? && Enabled(run[j], acts[j])
    ensures Takes(run[j], acts[j]) <==> run[j].top == run[j].poppers[acts[j].t].snapshot
    ensures var t, before, after := acts[j].t, Contents(run[j]), Contents(run[j + 1]);
            && t < |run[j + 1].poppers|
            && if Takes(run[j], acts[j]) then
                 && |before| > 0 && after == before[..|before| - 1]
                 && run[j + 1].poppers[t] == Returned(Some(before[|before| - 1]))
               else after == before && run[j + 1].poppers[t] == Loaded(run[j].top)
  {
    InvAlways(size, memory, n, acts, run, j);
    InvAlways(size, memory, n, acts, run, j + 1);
    assert PopperOk(run[j], run[j].poppers[acts[j].t]);
    if SameWords(run[j].top, run[j].poppers[acts[j].t].snapshot) {
      CasSeesEveryChange(run[j], acts[j].t);
      PopTakesTheTop(size, memory, n, acts, run, j);
    }
  }

  // Nothing else changes the stack.
  lemma OthersKeepTheItems(size: nat, memory: seq<int>, n: nat, acts: seq<Action>, run: seq<State>, j: nat)
    requires IsRun(size, memory, n, acts, run) && FewChangesThroughout(run) && j < |acts|
    requires !Takes(run[j], acts[j]) && !(acts[j].StoreTop? && Enabled(run[j], acts[j]))
    ensures Contents(run[j + 1]) == Contents(run[j])
  {
    InvAlways(size, memory, n, acts, run, j);
    hide PopperOk, VersionOk;
    if Enabled(run[j], acts[j]) && acts[j].WriteSlot? { WriteKeepsItems(run[j]); }
  }

  // ---------- pops ----------

  // The last pop of thread t has begun and has not returned to its caller.
  predicate InPop(acts: seq<Action>, run: seq<State>, t: nat, j: nat)
    requires j <= |acts| && |run| == |acts| + 1
  {
    j > 0 &&
    if Enabled(run[j - 1], acts[j - 1]) && (acts[j - 1] == LoadTop(t) || acts[j - 1] == Return(t)) then acts[j - 1].LoadTop?
    else InPop(acts, run, t, j - 1)
  }

  // A popper is inside a pop exactly from its first load to its return.
  lemma {:induction false} InsideAPop(size: nat, memory: seq<int>, n: nat, acts: seq<Action>, run: seq<State>, t: nat,
                                      j: nat)
    requires IsRun(size, memory, n, acts, run) && j <= |acts| && t < n
    ensures |run[j].poppers| == n
    ensures !run[j].poppers[t].Idle? <==> InPop(acts, run, t, j)
  {
    hide SameWords, Moved;
    if j > 0 { InsideAPop(size, memory, n, acts, run, t, j - 1); }
  }

  // It can always begin a pop, and go on with it.
  lemma PopperGoesOn(size: nat, memory: seq<int>, n: nat, acts: seq<Action>, run: seq<State>, t: nat, j: nat)
    requires IsRun(size, memory, n, acts, run) && FewChangesThroughout(run) && j <= |acts| && t < n
    ensures if InPop(acts, run, t, j) then Enabled(run[j], Fetch(t)) || Enabled(run[j], Cas(t)) || Enabled(run[j], Return(t))
            else Enabled(run[j], LoadTop(t))
  {
    InvAlways(size, memory, n, acts, run, j);
    InsideAPop(size, memory, n, acts, run, t, j);
    assert PopperOk(run[j], run[j].poppers[t]);
    hide Inv, FewChanges, SameWords, InPop, IsRun, FewChangesThroughout;
  }

  // The items that the pops have taken off, oldest first.
  function Taken(acts: seq<Action>, run: seq<State>, j: nat): seq<int>
    requires j <= |acts| && |run| == |acts| + 1
  {
    if j == 0 then []
    else
      var before := Contents(run[j - 1]);
      Taken(acts, run, j - 1) + (if Takes(run[j - 1], acts[j - 1]) && before != [] then [before[|before| - 1]] else [])
  }

  lemma TakenValue(s: State, t: nat)
    requires Inv(s) && FewChanges(s) && Takes(s, Cas(t))
    ensures var items := Contents(s); items != [] && s.poppers[t].value == items[|items| - 1]
  {
    CasSeesEveryChange(s, t);
    assert PopperOk(s, s.poppers[t]);
    hide FewChanges, VersionOk;
  }

  lemma PoppedStep(s: State, a: Action)
    ensures Step(s, a).popped == if Takes(s, a) then s.popped + [s.poppers[a.t].value] else s.popped
  {
  }

  // `popped` are the items that were on top when the pops took them.
  lemma {:induction false} PoppedInOrder(size: nat, memory: seq<int>, n: nat, acts: seq<Action>, run: seq<State>,
                                         j: nat)
    requires IsRun(size, memory, n, acts, run) && FewChangesThroughout(run) && j <= |acts|
    ensures run[j].popped == Taken(acts, run, j)
  {
    hide Inv, FewChanges, Step, Takes, Contents, Enabled;
    if j > 0 {
      PoppedInOrder(size, memory, n, acts, run, j - 1);
      InvAlways(size, memory, n, acts, run, j - 1);
      PoppedStep(run[j - 1], acts[j - 1]);
      if Takes(run[j - 1], acts[j - 1]) { TakesByCas(run[j - 1], acts[j - 1]); }
    }
  }

  lemma TakesByCas(s: State, a: Action)
    requires Inv(s) && FewChanges(s) && Takes(s, a)
    ensures a.Cas? && a.t < |s.poppers| && s.poppers[a.t].Fetched?
    ensures var items := Contents(s); items != [] && s.poppers[a.t].value == items[|items| - 1]
  {
    TakenValue(s, a.t);
  }

  // In every interleaving the items given to the pushes that have stored their top are, as multisets,
  // those taken by the pops and those on the stack.
  lemma PushedIsTakenOrPresent(size: nat, memory: seq<int>, n: nat, acts: seq<Action>, run: seq<State>, j: nat)
    requires IsRun(size, memory, n, acts, run) && FewChangesThroughout(run) && j <= |acts|
    ensures multiset(Stored(acts, run, j)) == multiset(Taken(acts, run, j)) + multiset(Contents(run[j]))
  {
    ItemsAreConserved(size, memory, n, acts, run, j);
    PushedInOrder(size, memory, n, acts, run, j);
    PoppedInOrder(size, memory, n, acts, run, j);
  }
}
