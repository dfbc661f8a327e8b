/** One processor over whole runs: its sweeps, choices and new threads, in any order with the steps
    of all threads everywhere. A thread that stays ready waits for a bounded number of choices.
 */
module ProcessorRuns {
  import opened Wrappers
  import opened Sequences
  import opened Threads
  import opened SchedulerOps
  import RoundRobin

  /** The processor's active list, and the threads of the machine. */
  datatype Cpu = Cpu(list: seq<Tid>, s: State)

  datatype Move =
    | Sweep(due: set<Tid>)          // UpdateEvents
    | Find                          // FindNextThread
    | Start(t: Tid)                 // a new thread on this processor's list
    | Other(op: Op)                 // any step of any thread or other processor

  ghost predicate CpuOk(c: Cpu) {
    Inv(c.s) && NoDup(c.list) && forall t :: t in c.list ==> t in c.s.active
  }

  ghost predicate May(c: Cpu, mv: Move) {
    match mv
    case Start(t) => Legal(c.s, Activate(t))
    case Other(op) => Legal(c.s, op) && (op.Visit? ==> op.t !in c.list)
    case _ => true
  }

  /** What the methods of the scheduler do, move by move. */
  ghost function Moved(c: Cpu, mv: Move): Cpu
    requires Inv(c.s) && May(c, mv)
  {
    match mv
    case Sweep(due) => Cpu(Unfinished(c.s.threads, c.list, |c.list|), Swept(c.s, c.list, |c.list|, due))
    case Find => Cpu(RoundRobin.Rotated(c.list, ReadyOf(c.s.threads)), c.s)
    case Start(t) => Cpu(c.list + [t], Step(c.s, Activate(t)))
    case Other(op) => Cpu(c.list, Step(c.s, op))
  }

  // ----- the processor stays in order

  lemma {:induction false} UnfinishedIn(threads: map<Tid, Thread>, list: seq<Tid>, n: nat)
    requires n <= |list| && NoDup(list)
    ensures NoDup(Unfinished(threads, list, n))
    ensures forall x :: x in Unfinished(threads, list, n) ==> x in list[..n] && !IsFinished(threads, x)
  {
    if n > 0 {
      UnfinishedIn(threads, list, n - 1);
      assert list[..n] == list[..n - 1] + [list[n - 1]];
      assert list[n - 1] !in list[..n - 1];
    }
  }

  /** A sweep takes only finished threads off the active lists, and finishes nobody. */
  lemma {:induction false} SweptStays(s: State, list: seq<Tid>, n: nat, due: set<Tid>, x: Tid)
    requires Inv(s) && n <= |list| && x in s.active && !IsFinished(s.threads, x)
    ensures var s' := Swept(s, list, n, due); Inv(s') && x in s'.active && !IsFinished(s'.threads, x)
  {
    if n > 0 {
      SweptStays(s, list, n - 1, due, x);
      VisitedStays(Swept(s, list, n - 1, due), list[n - 1], due, x);
    }
  }

  lemma VisitedStays(s: State, y: Tid, due: set<Tid>, x: Tid)
    requires Inv(s) && x in s.active && !IsFinished(s.threads, x)
    ensures var s' := Visited(s, y, due); Inv(s') && x in s'.active && !IsFinished(s'.threads, x)
  {
    VisitedKeeps(s, y, due);
  }

  lemma SweepKeeps(c: Cpu, due: set<Tid>)
    requires CpuOk(c)
    ensures CpuOk(Moved(c, Sweep(due)))
  {
    var n := |c.list|;
    var c' := Moved(c, Sweep(due));
    UnfinishedIn(c.s.threads, c.list, n);
    assert c.list[..n] == c.list;
    forall x | x in c'.list ensures x in c'.s.active { SweptStays(c.s, c.list, n, due, x); }
    SweptKeeps(c.s, c.list, n, due);
  }

  lemma {:induction false} SweptKeeps(s: State, list: seq<Tid>, n: nat, due: set<Tid>)
    requires Inv(s) && n <= |list|
    ensures Inv(Swept(s, list, n, due))
  {
    if n > 0 {
      SweptKeeps(s, list, n - 1, due);
      VisitedKeeps(Swept(s, list, n - 1, due), list[n - 1], due);
    }
  }

  lemma ActiveStays(s: State, op: Op)
    requires Inv(s) && Legal(s, op)
    ensures forall x :: x in s.active && !(op.Visit? && x == op.t) ==> x in Step(s, op).active
  {}

  lemma MoveKeeps(c: Cpu, mv: Move)
    requires CpuOk(c) && May(c, mv)
    ensures CpuOk(Moved(c, mv))
  {
    match mv {
      case Sweep(due) => SweepKeeps(c, due);
      case Find => RoundRobin.RotatedNoDup(c.list, ReadyOf(c.s.threads));
      case Start(t) =>
        StepKeeps(c.s, Activate(t));
        ActiveStays(c.s, Activate(t));
      case Other(op) =>
        StepKeeps(c.s, op);
        ActiveStays(c.s, op);
    }
  }

  // ----- a waiting thread

  predicate IsReady(c: Cpu, t: Tid) { t in c.s.threads && c.s.threads[t].run == Ready }

  /** The steps by which a running thread stops being ready. */
  predicate Stops(mv: Move, t: Tid) { mv.Other? && (mv.op == Block(t) || mv.op == Doze(t) || mv.op == Finish(t)) }

  /** Steps that change how threads run. */
  predicate Runs(op: Op) { op.Clone? || op.Block? || op.Finish? || op.Doze? || op.Visit? }

  lemma RunsOthers(s: State, op: Op, t: Tid)
    requires Inv(s) && Legal(s, op) && Runs(op) && t in s.threads && s.threads[t].run == Ready
    requires op != Block(t) && op != Doze(t) && op != Finish(t)
    ensures t in Step(s, op).threads && Step(s, op).threads[t].run == Ready
  {
    assert ThreadOk(s, t);
  }

  lemma SameRun(s: State, op: Op, t: Tid)
    requires Inv(s) && Legal(s, op) && !Runs(op) && t in s.threads && t in Step(s, op).threads
    ensures Step(s, op).threads[t].run == s.threads[t].run
  {}

  lemma OthersKeepReady(s: State, op: Op, t: Tid)
    requires Inv(s) && Legal(s, op) && t in s.threads && s.threads[t].run == Ready
    requires op != Block(t) && op != Doze(t) && op != Finish(t)
    ensures t in Step(s, op).threads && Step(s, op).threads[t].run == Ready
  {
    if Runs(op) {
      RunsOthers(s, op, t);
    } else {
      if t !in Step(s, op).threads { Frees(s, op, t); }
      SameRun(s, op, t);
    }
  }

  lemma StaysReady(c: Cpu, mv: Move, t: Tid)
    requires CpuOk(c) && May(c, mv) && IsReady(c, t) && !Stops(mv, t)
    ensures IsReady(Moved(c, mv), t)
  {
    match mv {
      case Sweep(due) => SweepKeepsReady(c.s, c.list, |c.list|, due, t);
      case Find =>
      case Start(x) => OthersKeepReady(c.s, Activate(x), t);
      case Other(op) => OthersKeepReady(c.s, op, t);
    }
  }

  ghost predicate Moves(c: Cpu, mv: Move, c': Cpu) {
    CpuOk(c) ==> May(c, mv) && c' == Moved(c, mv)
  }

  /** A run in which thread `t` is on the list and ready, and does not itself stop being ready. */
  ghost predicate Waits(t: Tid, moves: seq<Move>, trace: seq<Cpu>) {
    && |trace| == |moves| + 1 && CpuOk(trace[0]) && t in trace[0].list && IsReady(trace[0], t)
    && (forall i :: 0 <= i < |moves| ==> Moves(trace[i], moves[i], trace[i + 1]))
    && (forall i :: 0 <= i < |moves| ==> !Stops(moves[i], t))
  }

  function Finds(moves: seq<Move>, k: nat): nat
    requires k <= |moves|
  {
    if k == 0 then 0 else Finds(moves, k - 1) + if moves[k - 1] == Find then 1 else 0
  }

  /** FindNextThread returned `t` before move `n`. */
  ghost predicate ChosenBefore(t: Tid, moves: seq<Move>, trace: seq<Cpu>, n: nat)
    requires n <= |moves| && |trace| == |moves| + 1
  {
    exists i :: 0 <= i < n && moves[i] == Find && RoundRobin.Chosen(trace[i].list, ReadyOf(trace[i].s.threads)) == Some(t)
  }

  /** Only a choice of another thread changes how many threads are before `t` for the better for
      sure; nothing changes it for the worse. */
  lemma MoveIndex(c: Cpu, mv: Move, t: Tid)
    requires CpuOk(c) && May(c, mv) && t in c.list && IsReady(c, t)
    requires mv == Find ==> RoundRobin.Chosen(c.list, ReadyOf(c.s.threads)) != Some(t)
    ensures var list := Moved(c, mv).list;
            t in list && RoundRobin.IndexOf(list, t) + (if mv == Find then 1 else 0) <= RoundRobin.IndexOf(c.list, t)
  {
    var k := RoundRobin.IndexOf(c.list, t);
    MoveKeeps(c, mv);
    match mv {
      case Sweep(due) =>
        var j := SweepNoFurther(c.s.threads, c.list, |c.list|, k);
        RoundRobin.IndexIs(Moved(c, mv).list, t, j);
      case Find => RoundRobin.FindMovesUp(c.list, ReadyOf(c.s.threads), t);
      case Start(x) => RoundRobin.IndexIs(c.list + [x], t, k);
      case Other(op) =>
    }
  }

  lemma {:induction false} ComesCloser(t: Tid, moves: seq<Move>, trace: seq<Cpu>, n: nat)
    requires Waits(t, moves, trace) && n <= |moves| && !ChosenBefore(t, moves, trace, n)
    ensures CpuOk(trace[n]) && t in trace[n].list && IsReady(trace[n], t)
    ensures RoundRobin.IndexOf(trace[n].list, t) + Finds(moves, n) <= RoundRobin.IndexOf(trace[0].list, t)
  {
    if n > 0 {
      ComesCloser(t, moves, trace, n - 1);
      var c, mv := trace[n - 1], moves[n - 1];
      assert Moves(c, mv, trace[n - 1 + 1]) && !Stops(mv, t);
      MoveKeeps(c, mv);
      StaysReady(c, mv, t);
      MoveIndex(c, mv, t);
    }
  }

  /** With `k` threads before it on its processor's list, a ready thread is returned by the (k+1)-th
      FindNextThread at the latest, whatever sweeps, wakeups, new threads and steps of other threads
      and processors happen in between. */
  lemma RunBoundedWaiting(t: Tid, moves: seq<Move>, trace: seq<Cpu>, n: nat)
    requires Waits(t, moves, trace) && n <= |moves| && Finds(moves, n) > RoundRobin.IndexOf(trace[0].list, t)
    ensures ChosenBefore(t, moves, trace, n)
  {
    if !ChosenBefore(t, moves, trace, n) { ComesCloser(t, moves, trace, n); }
  }
}
