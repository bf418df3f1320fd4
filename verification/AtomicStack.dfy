// The stack of recycled NodeIDs, atomic_stack.h:195-345: one pusher, many poppers. A push parks the
// top pointer at null while it writes; a version number beside the pointer guards the
// compare-and-swap of a pop.
module AtomicStack {
  import opened Options

  const TWO_64: nat := 0x1_0000_0000_0000_0000

  // top_p: null, or a slot (-1 for the one before the first) with a 64-bit version. `serial` is
  // history: the version before it is reduced to 64 bits.
  datatype Pointer = Null | Top(index: int, version: nat, serial: nat)

  // The two words that the compare-and-swap compares.
  predicate SameWords(a: Pointer, b: Pointer) {
    if a.Top? && b.Top? then a.index == b.index && a.version == b.version else a.Null? && b.Null?
  }

  // ToNextVersion(), and the pointer moved by d slots.
  function Moved(p: Pointer, d: int): Pointer
    requires p.Top?
  {
    Top(p.index + d, (p.version + 1) % TWO_64, p.serial + 1)
  }

  // A push that has exchanged the top for null: what it found there, and the items still to write.
  datatype Pusher = Quiet | Pushing(snapshot: Pointer, written: nat, items: seq<int>)

  datatype Popper =
    | Idle
    | Loaded(snapshot: Pointer)
    | Fetched(snapshot: Pointer, value: int)
    | Returned(result: Option<int>)

  // `pushed` and `popped` are history.
  datatype State = State(data: seq<int>, top: Pointer, pusher: Pusher, buffer: seq<int>, poppers: seq<Popper>,
                         pushed: seq<int>, popped: seq<int>)

  datatype Action =
    | BufferPush(item: int)
    | Prepare(items: seq<int>, fromBuffer: bool)
    | WriteSlot
    | StoreTop
    | LoadTop(t: nat)
    | Fetch(t: nat)
    | Cas(t: nat)
    | Return(t: nat)

  function Initial(size: nat, memory: seq<int>, n: nat): State
    requires |memory| == size
  {
    State(memory, Top(-1, 0, 0), Quiet, [], seq(n, _ => Idle), [], [])
  }

  predicate Enabled(s: State, a: Action) {
    match a
    case BufferPush(_) => s.pusher.Quiet?
    // SingleThreadPush() pushes one item, SingleThreadCommitPush() the whole buffer. The caller makes
    // sure that they fit.
    case Prepare(items, fromBuffer) =>
      s.pusher.Quiet? && s.top.Top? && (if fromBuffer then items == s.buffer else |items| == 1)
        && s.top.index + |items| < |s.data|
    case WriteSlot =>
      s.pusher.Pushing? && s.pusher.written < |s.pusher.items| && s.pusher.snapshot.Top?
        && 0 <= s.pusher.snapshot.index + 1 + s.pusher.written < |s.data|
    case StoreTop => s.pusher.Pushing? && s.pusher.written == |s.pusher.items| && s.pusher.snapshot.Top?
    case LoadTop(t) => t < |s.poppers| && s.poppers[t].Idle?
    case Fetch(t) =>
      t < |s.poppers| && s.poppers[t].Loaded? && (s.poppers[t].snapshot.Top? ==> s.poppers[t].snapshot.index < |s.data|)
    case Cas(t) => t < |s.poppers| && s.poppers[t].Fetched? && s.poppers[t].snapshot.Top?
    case Return(t) => t < |s.poppers| && s.poppers[t].Returned?
  }

  function Step(s: State, a: Action): State {
    if !Enabled(s, a) then s
    else match a
      case BufferPush(item) => s.(buffer := s.buffer + [item])
      case Prepare(items, fromBuffer) =>
        s.(top := Null, pusher := Pushing(s.top, 0, items), buffer := if fromBuffer then [] else s.buffer)
      case WriteSlot =>
        var p := s.pusher;
        s.(data := s.data[p.snapshot.index + 1 + p.written := p.items[p.written]], pusher := p.(written := p.written + 1))
      case StoreTop =>
        s.(top := Moved(s.pusher.snapshot, |s.pusher.items|), pusher := Quiet, pushed := s.pushed + s.pusher.items)
      case LoadTop(t) => s.(poppers := s.poppers[t := Loaded(s.top)])
      // An empty stack, or a push that is under way.
      case Fetch(t) =>
        var p := s.poppers[t].snapshot;
        s.(poppers := s.poppers[t := if p.Null? || p.index < 0 then Returned(None) else Fetched(p, s.data[p.index])])
      // A failed compare-and-swap loads the present top.
      case Cas(t) =>
        var p := s.poppers[t];
        if SameWords(s.top, p.snapshot) then
          s.(top := Moved(p.snapshot, -1), poppers := s.poppers[t := Returned(Some(p.value))], popped := s.popped + [p.value])
        else s.(poppers := s.poppers[t := Loaded(s.top)])
      case Return(t) => s.(poppers := s.poppers[t := Idle])
  }

  // ---------- the invariant ----------

  // The last pointer that was not null, and the items on the stack.
  function Last(s: State): Pointer {
    if s.top.Null? && s.pusher.Pushing? then s.pusher.snapshot else s.top
  }

  function Contents(s: State): seq<int> {
    var p := Last(s);
    if p.Top? && 0 <= p.index + 1 <= |s.data| then s.data[..p.index + 1] else []
  }

  // The version is the serial number in 64 bits.
  predicate VersionOk(p: Pointer) {
    p.Top? ==> p.version == p.serial % TWO_64
  }

  lemma MovedVersion(p: Pointer, d: int)
    requires p.Top? && VersionOk(p)
    ensures VersionOk(Moved(p, d))
  {
  }

  ghost predicate PopperOk(s: State, p: Popper) {
    p.Loaded? || p.Fetched? ==>
      && (p.snapshot.Top? ==>
            && VersionOk(p.snapshot) && Last(s).Top?
            && p.snapshot.serial <= Last(s).serial && -1 <= p.snapshot.index < |s.data|
            && (p.snapshot.serial == Last(s).serial ==> p.snapshot == Last(s)))
      && (p.Fetched? ==> p.snapshot.Top? && p.snapshot.index >= 0)
      && (p.Fetched? && s.top == p.snapshot ==> s.data[p.snapshot.index] == p.value)
  }

  ghost predicate Inv(s: State) {
    var p := Last(s);
    && p.Top? && -1 <= p.index < |s.data| && VersionOk(p)
    && (s.top.Null? <==> s.pusher.Pushing?)
    && (s.pusher.Pushing? ==>
          && s.pusher.written <= |s.pusher.items| && p.index + |s.pusher.items| < |s.data|
          && s.data[p.index + 1..p.index + 1 + s.pusher.written] == s.pusher.items[..s.pusher.written])
    && (forall t :: 0 <= t < |s.poppers| ==> PopperOk(s, s.poppers[t]))
    && multiset(s.pushed) == multiset(s.popped) + multiset(Contents(s))
  }

  // While a pop is between its load and its compare-and-swap, fewer than 2^64 version changes happen.
  ghost predicate FewChanges(s: State) {
    forall t :: 0 <= t < |s.poppers| && s.poppers[t].Fetched? && s.poppers[t].snapshot.Top? && Last(s).Top? ==>
      Last(s).serial < s.poppers[t].snapshot.serial + TWO_64
  }

  ghost predicate IsRun(size: nat, memory: seq<int>, n: nat, acts: seq<Action>, run: seq<State>) {
    && |memory| == size && |run| == |acts| + 1 && run[0] == Initial(size, memory, n)
    && forall j :: 0 <= j < |acts| ==> run[j + 1] == Step(run[j], acts[j])
  }

  // ---------- ABA ----------

  lemma EqualVersionsMeanEqualSerials(a: nat, b: nat)
    requires a <= b < a + TWO_64 && a % TWO_64 == b % TWO_64
    ensures a == b
  {
  }

  // Equal words mean an unchanged top, unless a positive multiple of 2^64 changes intervened.
  lemma CasSeesEveryChange(s: State, t: nat)
    requires Inv(s) && Enabled(s, Cas(t)) && SameWords(s.top, s.poppers[t].snapshot)
    ensures s.top == s.poppers[t].snapshot || (s.top.serial > s.poppers[t].snapshot.serial
              && (s.top.serial - s.poppers[t].snapshot.serial) % TWO_64 == 0)
    ensures FewChanges(s) ==> s.top == s.poppers[t].snapshot
  {
    assert PopperOk(s, s.poppers[t]);
    var a, b := s.poppers[t].snapshot.serial, s.top.serial;
    assert (b - a) % TWO_64 == 0;
    if FewChanges(s) { EqualVersionsMeanEqualSerials(a, b); }
  }

  // ---------- steps ----------

  lemma PoppersStay(s: State, s': State, t: nat)
    requires Inv(s) && t < |s.poppers| && |s'.data| == |s.data| && Last(s').Top?
    requires Last(s').serial >= Last(s).serial && (Last(s').serial == Last(s).serial ==> Last(s') == Last(s))
    requires s'.top.Top? && s'.top.serial == Last(s).serial ==> s'.top == s.top && s'.data == s.data
    ensures PopperOk(s', s.poppers[t])
  {
    assert PopperOk(s, s.poppers[t]);
  }

  lemma PushKeepsInv(s: State, a: Action)
    requires Inv(s) && Enabled(s, a) && (a.BufferPush? || a.Prepare? || a.WriteSlot? || a.StoreTop?)
    ensures Inv(Step(s, a))
  {
    var s' := Step(s, a);
    MovedVersion(Last(s), if s.pusher.Pushing? then |s.pusher.items| else 0);
    hide VersionOk;
    forall t | 0 <= t < |s.poppers| ensures PopperOk(s', s'.poppers[t]) {
      PoppersStay(s, s', t);
    }
    PushKeepsItems(s, a);
  }

  lemma PushKeepsItems(s: State, a: Action)
    requires Inv(s) && Enabled(s, a) && (a.BufferPush? || a.Prepare? || a.WriteSlot? || a.StoreTop?)
    ensures var s' := Step(s, a);
            && multiset(s'.pushed) == multiset(s'.popped) + multiset(Contents(s'))
            && (s'.pusher.Pushing? ==>
                  && s'.pusher.written <= |s'.pusher.items|
                  && var p := Last(s');
                     s'.data[p.index + 1..p.index + 1 + s'.pusher.written] == s'.pusher.items[..s'.pusher.written])
  {
    hide PopperOk, VersionOk;
    match a {
      case BufferPush(_) => assert Contents(Step(s, a)) == Contents(s);
      case Prepare(_, _) => assert Contents(Step(s, a)) == Contents(s);
      case WriteSlot => WriteKeepsItems(s);
      case StoreTop => StoreAddsItems(s);
    }
  }

  lemma WriteKeepsItems(s: State)
    requires Inv(s) && Enabled(s, WriteSlot)
    ensures var s', p, k := Step(s, WriteSlot), Last(s), s.pusher.written;
            && Contents(s') == Contents(s) && Last(s') == p && s'.pusher.Pushing?
            && s'.data[p.index + 1..p.index + 1 + k + 1] == s.pusher.items[..k + 1]
  {
    hide PopperOk, VersionOk;
    var s', p, k := Step(s, WriteSlot), Last(s), s.pusher.written;
    var at := p.index + 1;
    assert s'.data == s.data[at + k := s.pusher.items[k]];
    assert s'.data[at..at + k + 1] == s.data[at..at + k] + [s.pusher.items[k]];
    assert s.pusher.items[..k + 1] == s.pusher.items[..k] + [s.pusher.items[k]];
  }

  lemma StoreAddsItems(s: State)
    requires Inv(s) && Enabled(s, StoreTop)
    ensures var s' := Step(s, StoreTop);
            multiset(s'.pushed) == multiset(s'.popped) + multiset(Contents(s'))
  {
    hide PopperOk, VersionOk;
    var items, s' := s.pusher.items, Step(s, StoreTop);
    assert items[..|items|] == items;
    assert Contents(s') == Contents(s) + items;
    assert multiset(s.pushed + items) == multiset(s.pushed) + multiset(items);
    assert multiset(Contents(s) + items) == multiset(Contents(s)) + multiset(items);
  }

  // Steps of one popper that leave the stack alone.
  lemma LocalKeepsInv(s: State, t: nat, p: Popper)
    requires Inv(s) && t < |s.poppers| && PopperOk(s, p)
    ensures Inv(s.(poppers := s.poppers[t := p]))
  {
    hide VersionOk;
    var s' := s.(poppers := s.poppers[t := p]);
    assert Contents(s') == Contents(s);
    forall u | 0 <= u < |s'.poppers| ensures PopperOk(s', s'.poppers[u]) {
      assert PopperOk(s, s.poppers[u]);
    }
  }

  lemma TakeKeepsInv(s: State, t: nat)
    requires Inv(s) && Enabled(s, Cas(t)) && s.top == s.poppers[t].snapshot
    ensures Inv(Step(s, Cas(t)))
  {
    var s' := Step(s, Cas(t));
    assert PopperOk(s, s.poppers[t]);
    MovedVersion(s.top, -1);
    var i := s.top.index;
    assert s.data[..i + 1] == s.data[..i] + [s.data[i]];
    assert Contents(s) == Contents(s') + [s.data[i]];
    hide VersionOk, Contents;
    forall u | 0 <= u < |s.poppers| ensures PopperOk(s', s'.poppers[u]) {
      if u != t { PoppersStay(s, s', u); }
    }
  }

  lemma PopKeepsInv(s: State, a: Action)
    requires Inv(s) && Enabled(s, a) && (a.LoadTop? || a.Fetch? || a.Cas? || a.Return?)
    requires a.Cas? && SameWords(s.top, s.poppers[a.t].snapshot) ==> s.top == s.poppers[a.t].snapshot
    ensures Inv(Step(s, a))
  {
    assert PopperOk(s, s.poppers[a.t]);
    if a.Cas? && s.top == s.poppers[a.t].snapshot {
      TakeKeepsInv(s, a.t);
    } else {
      hide VersionOk;
      LocalKeepsInv(s, a.t, Step(s, a).poppers[a.t]);
    }
  }

  lemma StepKeepsInv(s: State, a: Action)
    requires Inv(s) && FewChanges(s)
    ensures Inv(Step(s, a)) && |Step(s, a).poppers| == |s.poppers|
  {
    if Enabled(s, a) {
      if a.BufferPush? || a.Prepare? || a.WriteSlot? || a.StoreTop? {
        PushKeepsInv(s, a);
      } else {
        if a.Cas? && SameWords(s.top, s.poppers[a.t].snapshot) { CasSeesEveryChange(s, a.t); }
        PopKeepsInv(s, a);
      }
    }
  }

  ghost predicate FewChangesThroughout(run: seq<State>) {
    forall j :: 0 <= j < |run| ==> FewChanges(run[j])
  }

  lemma {:induction false} InvAlways(size: nat, memory: seq<int>, n: nat, acts: seq<Action>, run: seq<State>, j: nat)
    requires IsRun(size, memory, n, acts, run) && FewChangesThroughout(run) && j <= |acts|
    ensures Inv(run[j]) && |run[j].poppers| == n
  {
    if j > 0 {
      InvAlways(size, memory, n, acts, run, j - 1);
      StepKeepsInv(run[j - 1], acts[j - 1]);
    }
  }

  // ---------- main results ----------

  // Items pushed == items popped + items on the stack, in every interleaving.
  lemma ItemsAreConserved(size: nat, memory: seq<int>, n: nat, acts: seq<Action>, run: seq<State>, j: nat)
    requires IsRun(size, memory, n, acts, run) && FewChangesThroughout(run) && j <= |acts|
    ensures multiset(run[j].pushed) == multiset(run[j].popped) + multiset(Contents(run[j]))
  {
    InvAlways(size, memory, n, acts, run, j);
  }

  // A successful pop returns the item on top of the stack at the instant of its compare-and-swap, and
  // takes just that one off.
  lemma PopTakesTheTop(size: nat, memory: seq<int>, n: nat, acts: seq<Action>, run: seq<State>, j: nat)
    requires IsRun(size, memory, n, acts, run) && FewChangesThroughout(run) && j < |acts|
    requires acts[j].Cas? && Enabled(run[j], acts[j]) && run[j + 1].popped != run[j].popped
    ensures var t, before, after := acts[j].t, Contents(run[j]), Contents(run[j + 1]);
            && |before| > 0 && t < |run[j + 1].poppers|
            && run[j + 1].poppers[t] == Returned(Some(before[|before| - 1]))
            && after == before[..|before| - 1]
  {
    InvAlways(size, memory, n, acts, run, j);
    InvAlways(size, memory, n, acts, run, j + 1);
    CasSeesEveryChange(run[j], acts[j].t);
    assert PopperOk(run[j], run[j].poppers[acts[j].t]);
  }

  // Thread t loads the top at step i: at the start of a pop, or after a failed compare-and-swap.
  predicate Loads(s: State, a: Action, t: nat) {
    Enabled(s, a) && t < |s.poppers| && (a == LoadTop(t) || (a == Cas(t) && !SameWords(s.top, s.poppers[t].snapshot)))
  }

  lemma LoadStep(s: State, a: Action, t: nat)
    requires t < |s.poppers|
    ensures |Step(s, a).poppers| == |s.poppers|
    ensures Step(s, a).poppers[t].Loaded? ==>
              Step(s, a).poppers[t] == if Loads(s, a, t) then Loaded(s.top) else s.poppers[t]
  {
  }

  // What a popper has loaded, it has loaded at one step, and has done nothing since.
  lemma {:induction false} LoadedWhen(size: nat, memory: seq<int>, n: nat, acts: seq<Action>, run: seq<State>,
                                      t: nat, j: nat) returns (i: nat)
    requires IsRun(size, memory, n, acts, run) && FewChangesThroughout(run) && j <= |acts| && t < n
    ensures |run[j].poppers| == n
    ensures run[j].poppers[t].Loaded? ==>
              && i < j && Loads(run[i], acts[i], t)
              && forall m :: i < m <= j ==> t < |run[m].poppers| && run[m].poppers[t] == Loaded(run[i].top)
  {
    InvAlways(size, memory, n, acts, run, j);
    hide Inv, FewChanges, Step, Loads, Enabled;
    i := 0;
    if j > 0 {
      i := LoadedWhen(size, memory, n, acts, run, t, j - 1);
      LoadStep(run[j - 1], acts[j - 1], t);
      if Loads(run[j - 1], acts[j - 1], t) { i := j - 1; }
    }
  }

  lemma EmptyTop(s: State)
    requires Inv(s)
    ensures s.top.Null? || s.top.index < 0 <==> s.pusher.Pushing? || Contents(s) == []
  {
    hide PopperOk, VersionOk;
  }

  lemma FetchStep(s: State, t: nat, top: Pointer)
    requires Enabled(s, Fetch(t)) && s.poppers[t] == Loaded(top)
    ensures |Step(s, Fetch(t)).poppers| == |s.poppers|
    ensures Step(s, Fetch(t)).poppers[t] == Returned(None) <==> top.Null? || top.index < 0
  {
  }

  // A pop returns nothing exactly if, when it last loaded the top, the stack was empty or a push was
  // under way.
  lemma EmptyPopIsExcused(size: nat, memory: seq<int>, n: nat, acts: seq<Action>, run: seq<State>, t: nat, j: nat)
    returns (i: nat)
    requires IsRun(size, memory, n, acts, run) && FewChangesThroughout(run) && j < |acts|
    requires acts[j] == Fetch(t) && Enabled(run[j], Fetch(t))
    ensures i < j && Loads(run[i], acts[i], t)
    ensures forall m :: i < m <= j ==> t < |run[m].poppers| && run[m].poppers[t] == Loaded(run[i].top)
    ensures t < |run[j + 1].poppers|
    ensures run[j + 1].poppers[t] == Returned(None) <==> run[i].pusher.Pushing? || Contents(run[i]) == []
  {
    InvAlways(size, memory, n, acts, run, j);
    i := LoadedWhen(size, memory, n, acts, run, t, j);
    InvAlways(size, memory, n, acts, run, i);
    EmptyTop(run[i]);
    hide Inv, FewChanges, Contents, Loads, Step;
    FetchStep(run[j], t, run[i].top);
  }

  lemma LastVersion(s: State)
    requires Inv(s)
    ensures Last(s).Top? && VersionOk(Last(s))
  {
    hide PopperOk, Contents, VersionOk;
  }

  lemma VersionStep(s: State, a: Action)
    requires Inv(s) && FewChanges(s)
    ensures Last(s).Top? && Last(Step(s, a)).Top?
    ensures Last(Step(s, a)) == Last(s) || Last(Step(s, a)).serial == Last(s).serial + 1
  {
    if Enabled(s, a) && a.Cas? && SameWords(s.top, s.poppers[a.t].snapshot) { CasSeesEveryChange(s, a.t); }
  }

  // Tops that are not null carry strictly increasing version counts: every change of the top adds
  // one, so two tops with the same count are the same, whatever happened in between. The version
  // word holds the count in 64 bits.
  lemma {:induction false} VersionsGrow(size: nat, memory: seq<int>, n: nat, acts: seq<Action>, run: seq<State>,
                                        j: nat, k: nat)
    requires IsRun(size, memory, n, acts, run) && FewChangesThroughout(run) && j <= k <= |acts|
    ensures Last(run[j]).Top? && Last(run[k]).Top? && Last(run[j]).serial <= Last(run[k]).serial
    ensures Last(run[j]).serial == Last(run[k]).serial ==> Last(run[j]) == Last(run[k])
    ensures VersionOk(Last(run[j])) && VersionOk(Last(run[k]))
    decreases k - j
  {
    hide Inv, FewChanges, FewChangesThroughout, IsRun, Last, Step, VersionOk;
    RunPart(size, memory, n, acts, run, j);
    RunPart(size, memory, n, acts, run, k);
    LastVersion(run[j]);
    LastVersion(run[k]);
    if j < k {
      VersionsGrow(size, memory, n, acts, run, j, k - 1);
      RunPart(size, memory, n, acts, run, k - 1);
      VersionStep(run[k - 1], acts[k - 1]);
    }
  }

  lemma RunPart(size: nat, memory: seq<int>, n: nat, acts: seq<Action>, run: seq<State>, j: nat)
    requires IsRun(size, memory, n, acts, run) && FewChangesThroughout(run) && j <= |acts|
    ensures |run| == |acts| + 1 && Inv(run[j]) && FewChanges(run[j])
    ensures j < |acts| ==> run[j + 1] == Step(run[j], acts[j])
  {
    InvAlways(size, memory, n, acts, run, j);
  }
}
