// The wait-free atomic snapshot of project2/snapshot.cpp as a transition system.
// Every step of a thread touches at most one shared register; threads interleave freely.
module Snapshot {
  import opened Options
  import opened SnapshotLabels

  // SnapValue (project2/snapvalue.hpp). `version`, `begin` and `at` are history: the number of
  // writes so far, and the start and linearization instants of the scan whose result is `snap`.
  // `clean` tells whether that scan ended in a clean double collect. No step branches on them.
  datatype Cell = Cell(stamp: nat, value: int, snap: Option<seq<int>>,
                       version: nat, begin: nat, at: nat, clean: bool)

  const INITIAL_CELL := Cell(0, 0, None, 0, 0, 0, true)

  // The loop at project2/snapshot.cpp:109-111 stores into snap[i]; the comment above it says
  // that the whole embedded vector is copied, which is snap[j].
  datatype StealMode = AsWritten | AsIntended

  datatype Pc =
    | Idle
    | FirstCollect
    | NextCollect
    | Comparing
    | Done(result: seq<int>, at: nat, clean: bool)

  // One thread inside update()/scan(). The read times are history.
  datatype Thread = Thread(pc: Pc, begin: nat, oldCopy: seq<Cell>, oldTimes: seq<nat>,
                           newCopy: seq<Cell>, newTimes: seq<nat>,
                           moved: seq<bool>, snap: seq<int>, collects: nat)

  // `hist[m]` is the register file after m steps; the last entry is the present one.
  datatype State = State(mode: StealMode, hist: seq<seq<Cell>>, threads: seq<Thread>)
  {
    function Registers(): seq<Cell>
      requires |hist| > 0
    {
      hist[|hist| - 1]
    }
  }

  datatype Action =
    | Begin(t: nat, memory: seq<int>)  // `new int[n]` leaves arbitrary memory in the buffer
    | Read(t: nat)
    | Compare(t: nat)
    | Write(t: nat, value: int)

  function Values(cells: seq<Cell>): (vs: seq<int>)
    ensures |vs| == |cells| && forall i :: 0 <= i < |cells| ==> vs[i] == cells[i].value
  {
    seq(|cells|, i requires 0 <= i < |cells| => cells[i].value)
  }

  function Initial(n: nat, mode: StealMode): State {
    var idle := Thread(Idle, 0, [], [], [], [], seq(n, _ => false), seq(n, _ => 0), 0);
    State(mode, [seq(n, _ => INITIAL_CELL)], seq(n, _ => idle))
  }

  // ---------- the comparison of two collects ----------

  datatype Outcome = Clean | Retry(i: nat) | Steal(i: nat)

  // The first register whose label differs decides (project2/snapshot.cpp:104-124).
  function CompareFrom(k: nat, oldCopy: seq<Cell>, newCopy: seq<Cell>, moved: seq<bool>): (o: Outcome)
    requires k <= |oldCopy| == |newCopy| == |moved|
    ensures o.Clean? <==> forall j :: k <= j < |oldCopy| ==> oldCopy[j].stamp == newCopy[j].stamp
    ensures o.Retry? ==> k <= o.i < |moved| && !moved[o.i] && oldCopy[o.i].stamp != newCopy[o.i].stamp
    ensures o.Steal? ==> k <= o.i < |moved| && moved[o.i] && oldCopy[o.i].stamp != newCopy[o.i].stamp
    ensures !o.Clean? ==> forall j :: k <= j < o.i ==> oldCopy[j].stamp == newCopy[j].stamp
    decreases |oldCopy| - k
  {
    if k == |oldCopy| then Clean
    else if oldCopy[k].stamp != newCopy[k].stamp then (if moved[k] then Steal(k) else Retry(k))
    else CompareFrom(k + 1, oldCopy, newCopy, moved)
  }

  // What the stealing loop leaves in `snap`.
  function Stolen(mode: StealMode, snap: seq<int>, i: nat, stolen: seq<int>): (r: seq<int>)
    requires i < |snap| == |stolen|
    ensures |r| == |snap|
  {
    match mode
    case AsIntended => stolen
    case AsWritten => snap[i := stolen[|stolen| - 1]]
  }

  // The body of scan() after the second collect, loops and all: project2/snapshot.cpp:104-132.
  method CompareCopies(oldCopy: seq<Cell>, newCopy: seq<Cell>, moved: array<bool>, snap: array<int>)
    returns (o: Outcome)
    requires |oldCopy| == |newCopy| == moved.Length == snap.Length
    requires forall i :: 0 <= i < |newCopy| && oldCopy[i].stamp != newCopy[i].stamp && moved[i] ==>
                           newCopy[i].snap.Some? && |newCopy[i].snap.value| == snap.Length
    modifies moved, snap
    ensures o == old(CompareFrom(0, oldCopy, newCopy, moved[..]))
    ensures moved[..] == if o.Retry? then old(moved[..])[o.i := true] else old(moved[..])
    ensures o.Clean? ==> snap[..] == Values(newCopy)
    ensures o.Retry? ==> snap[..] == old(snap[..])
    ensures o.Steal? ==> snap[..] == Stolen(AsWritten, old(snap[..]), o.i, newCopy[o.i].snap.value)
  {
    var n := |oldCopy|;
    var i := 0;
    while i < n
      invariant 0 <= i <= n
      invariant forall j :: 0 <= j < i ==> oldCopy[j].stamp == newCopy[j].stamp
      invariant CompareFrom(i, oldCopy, newCopy, moved[..]) == CompareFrom(0, oldCopy, newCopy, moved[..])
      invariant moved[..] == old(moved[..]) && snap[..] == old(snap[..])
    {
      if oldCopy[i].stamp != newCopy[i].stamp {
        if moved[i] {
          var stolen := newCopy[i].snap.value;
          var j := 0;
          while j < n
            invariant 0 <= j <= n
            invariant moved[..] == old(moved[..])
            invariant snap[..] == if j == 0 then old(snap[..]) else old(snap[..])[i := stolen[j - 1]]
          {
            snap[i] := stolen[j];
            j := j + 1;
          }
          return Steal(i);
        } else {
          moved[i] := true;
          return Retry(i);
        }
      }
      i := i + 1;
    }
    i := 0;
    while i < n
      invariant 0 <= i <= n
      invariant moved[..] == old(moved[..])
      invariant forall j :: 0 <= j < i ==> snap[j] == newCopy[j].value
    {
      snap[i] := newCopy[i].value;
      i := i + 1;
    }
    return Clean;
  }

  // ---------- steps ----------

  predicate Enabled(s: State, a: Action) {
    && |s.hist| > 0
    && a.t < |s.threads| == |s.Registers()|
    && var n := |s.threads|;
       var th := s.threads[a.t];
       match a
       case Begin(_, memory) => th.pc.Idle? && |memory| == n
       case Read(_) => (th.pc.FirstCollect? && |th.oldCopy| < n) || (th.pc.NextCollect? && |th.newCopy| < n)
       case Compare(_) => th.pc.Comparing? && |th.oldCopy| == |th.newCopy| == |th.moved| == |th.snap| == n
       case Write(_, _) => th.pc.Done? && |th.oldTimes| > 0
  }

  function BeginScan(s: State, t: nat, memory: seq<int>): Thread
    requires |s.hist| > 0
  {
    var n := |s.threads|;
    Thread(FirstCollect, |s.hist|, [], [], [], [], seq(n, _ => false), memory, 1)
  }

  // One atomic_load; the last one of a collect moves the thread on.
  function ReadRegister(s: State, t: nat): Thread
    requires Enabled(s, Read(t))
  {
    var th := s.threads[t];
    var n := |s.threads|;
    if th.pc.FirstCollect? then
      var copy := th.oldCopy + [s.Registers()[|th.oldCopy|]];
      var th' := th.(oldCopy := copy, oldTimes := th.oldTimes + [|s.hist|]);
      if |copy| == n then th'.(pc := NextCollect, newCopy := [], newTimes := [], collects := th.collects + 1) else th'
    else
      var copy := th.newCopy + [s.Registers()[|th.newCopy|]];
      var th' := th.(newCopy := copy, newTimes := th.newTimes + [|s.hist|]);
      if |copy| == n then th'.(pc := Comparing) else th'
  }

  function Finish(s: State, t: nat): Thread
    requires Enabled(s, Compare(t))
  {
    var th := s.threads[t];
    var n := |s.threads|;
    match CompareFrom(0, th.oldCopy, th.newCopy, th.moved)
    case Clean =>
      th.(pc := Done(Values(th.newCopy), if |th.oldTimes| > 0 then th.oldTimes[|th.oldTimes| - 1] else 0, true))
    case Retry(i) =>
      th.(pc := NextCollect, moved := th.moved[i := true], oldCopy := th.newCopy, oldTimes := th.newTimes,
          newCopy := [], newTimes := [], collects := th.collects + 1)
    case Steal(i) =>
      var cell := th.newCopy[i];
      // Dereferencing a null snap is undefined; StolenSnapIsNeverNull shows it does not happen.
      var stolen := if cell.snap.Some? && |cell.snap.value| == n then cell.snap.value else th.snap;
      th.(pc := Done(Stolen(s.mode, th.snap, i, stolen), cell.at, false))
  }

  function NewCell(s: State, t: nat, value: int): Cell
    requires Enabled(s, Write(t, value))
  {
    var th := s.threads[t];
    var cell := s.Registers()[t];
    Cell(if cell.stamp < TWO_64 then NextLabel(cell.stamp) else 0, value, Some(th.pc.result),
         cell.version + 1, th.begin, th.pc.at, th.pc.clean)
  }

  // Every step takes one unit of time. An action that is not enabled changes nothing else.
  function Step(s: State, a: Action): State
    requires |s.hist| > 0
  {
    if !Enabled(s, a) then s.(hist := s.hist + [s.Registers()])
    else match a
      case Begin(t, memory) =>
        s.(hist := s.hist + [s.Registers()], threads := s.threads[t := BeginScan(s, t, memory)])
      case Read(t) =>
        s.(hist := s.hist + [s.Registers()], threads := s.threads[t := ReadRegister(s, t)])
      case Compare(t) =>
        s.(hist := s.hist + [s.Registers()], threads := s.threads[t := Finish(s, t)])
      case Write(t, value) =>
        s.(hist := s.hist + [s.Registers()[t := NewCell(s, t, value)]],
           threads := s.threads[t := s.threads[t].(pc := Idle)])
  }

  // A run of n threads: run[j] is the state after the first j actions, whatever they are.
  ghost predicate IsRun(n: nat, mode: StealMode, acts: seq<Action>, run: seq<State>) {
    && |run| == |acts| + 1
    && run[0] == Initial(n, mode)
    && forall j :: 0 <= j < |acts| ==> |run[j].hist| > 0 && run[j + 1] == Step(run[j], acts[j])
  }
}
