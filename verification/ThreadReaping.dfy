/** What becomes of threads that are waited for: a join or try-join frees the thread, an exiting
    parent forgets it, and what is forgotten stays allocated for good.
 */
module ThreadReaping {
  import opened Sequences
  import opened Threads

  predicate IsDropped(s: State, t: Tid) { t in s.place && s.place[t] == Dropped }

  /** The return of a join of an exiting parent, after its child `t` has exited. */
  predicate Forgets(s: State, op: Op, t: Tid) {
    op.JoinReturn? && op.u in s.pending && s.pending[op.u] == Pending(t, Woken(true), true)
  }

  /** Detach, join and try-join find only threads that are on a list. */
  lemma ChildIsListed(s: State, u: Tid, x: Tid)
    requires Inv(s) && u in s.threads && IsChild(s, u, x)
    ensures x in s.place && s.place[x] == InList(MainOf(s, u))
  {
    assert ListOk(s, MainOf(s, u));
  }

  lemma LastIsListed(s: State, u: Tid)
    requires Inv(s) && u in s.kids && s.kids[u] != []
    ensures var x := s.kids[u][|s.kids[u]| - 1]; x in s.place && s.place[x] == InList(u)
  {
    assert ListOk(s, u) && s.kids[u][|s.kids[u]| - 1] in s.kids[u];
  }

  /** Steps that move threads between lists, joins and detaches. */
  predicate Places(op: Op) {
    op.DetachTake? || op.DetachGive? || op.JoinTake? || op.TryJoin? || op.KillPop? || op.JoinReturn?
  }

  lemma OthersDropNothing(s: State, op: Op, t: Tid)
    requires Inv(s) && Legal(s, op) && !Places(op) && t in s.place && t in s.threads && s.place[t] == Dropped
    ensures IsDropped(Step(s, op), t) && t in Step(s, op).threads
  {}

  lemma TakesLeaveDropped(s: State, op: Op, t: Tid)
    requires Inv(s) && Legal(s, op) && (op.DetachTake? || op.JoinTake? || op.TryJoin?) && IsDropped(s, t) && t in s.threads
    ensures IsDropped(Step(s, op), t) && t in Step(s, op).threads
  {
    if IsChild(s, op.u, op.t) { ChildIsListed(s, op.u, op.t); }
  }

  lemma CallsLeaveDropped(s: State, op: Op, t: Tid)
    requires Inv(s) && Legal(s, op) && (op.DetachGive? || op.KillPop? || op.JoinReturn?) && IsDropped(s, t) && t in s.threads
    ensures IsDropped(Step(s, op), t) && t in Step(s, op).threads
  {
    if op.KillPop? {
      LastIsListed(s, op.u);
    } else if op.JoinReturn? {
      assert PendingOk(s, op.u);
    } else {
      assert MovingOk(s, op.u);
    }
  }

  /** A forgotten thread is out of every operation's reach. */
  lemma DroppedStays(s: State, op: Op, t: Tid)
    requires Inv(s) && Legal(s, op) && IsDropped(s, t)
    ensures IsDropped(Step(s, op), t) && t in Step(s, op).threads
  {
    assert PlaceOk(s, t);
    if !Places(op) {
      OthersDropNothing(s, op, t);
    } else if op.DetachTake? || op.JoinTake? || op.TryJoin? {
      TakesLeaveDropped(s, op, t);
    } else {
      CallsLeaveDropped(s, op, t);
    }
  }

  lemma OthersReapNothing(s: State, op: Op, t: Tid)
    requires Inv(s) && Legal(s, op) && !op.JoinReturn? && !op.TryJoin? && t in s.threads && !Reaped(s, t)
    ensures !Reaped(Step(s, op), t)
  {
    assert op.Clone? ==> ThreadOk(s, t);
  }

  lemma ReturnReaps(s: State, u: Tid, t: Tid)
    requires Inv(s) && Legal(s, JoinReturn(u)) && t in s.threads && !Reaped(s, t) && Reaped(ReturnStep(s, u), t)
    ensures var s' := ReturnStep(s, u);
            (IsDropped(s', t) <==> Forgets(s, JoinReturn(u), t)) && (t in s'.threads <==> Forgets(s, JoinReturn(u), t))
  {
    assert PendingOk(s, u);
  }

  /** A thread is forgotten exactly by the return of an exiting parent's join; every other step that
      reaps a thread frees it. */
  lemma ReapedHow(s: State, op: Op, t: Tid)
    requires Inv(s) && Legal(s, op) && t in s.threads && !Reaped(s, t) && Reaped(Step(s, op), t)
    ensures IsDropped(Step(s, op), t) <==> Forgets(s, op, t)
    ensures t in Step(s, op).threads <==> Forgets(s, op, t)
  {
    if op.JoinReturn? {
      ReturnReaps(s, op.u, t);
    } else if !op.TryJoin? {
      OthersReapNothing(s, op, t);
    }
  }

  lemma {:induction false} RunDroppedStays(ops: seq<Op>, trace: seq<State>, i: nat, k: nat, t: Tid)
    requires IsRun(ops, trace) && i <= k <= |ops| && IsDropped(trace[i], t)
    ensures IsDropped(trace[k], t) && t in trace[k].threads
    decreases k
  {
    if i == k {
      TraceKeeps(ops, trace, k);
      assert PlaceOk(trace[k], t);
    } else {
      RunDroppedStays(ops, trace, i, k - 1, t);
      TraceKeeps(ops, trace, k - 1);
      assert Steps(trace[k - 1], ops[k - 1], trace[k - 1 + 1]);
      DroppedStays(trace[k - 1], ops[k - 1], t);
    }
  }

  /** In every run: a thread that is reaped in step `i` is still allocated at any later point if and
      only if that step was the return of an exiting parent's join. */
  lemma RunReapedForGood(ops: seq<Op>, trace: seq<State>, i: nat, k: nat, t: Tid)
    requires IsRun(ops, trace) && i < k <= |ops|
    requires t in trace[i].threads && !Reaped(trace[i], t) && Reaped(trace[i + 1], t)
    ensures t in trace[k].threads <==> Forgets(trace[i], ops[i], t)
  {
    var s, op := trace[i], ops[i];
    TraceKeeps(ops, trace, i);
    assert Steps(s, op, trace[i + 1]);
    ReapedHow(s, op, t);
    if Forgets(s, op, t) {
      RunDroppedStays(ops, trace, i + 1, k, t);
    } else {
      assert ThreadOk(s, t);
      StepKeys(s, op);
      FreedForGood(ops, trace, i + 1, k, t);
    }
  }

  // ----- it happens

  /** Thread 3, a child of 2, exits; then 2 exits and waits for it. */
  function ForgettingRun(): seq<Op> {
    [Clone(1, 2, false), Clone(2, 3, false), Activate(2), Activate(3),
     SeeEmpty(3), Finish(3), Visit(3),
     KillPop(2), Block(2), Visit(2), JoinReturn(2)]
  }

  const PARENT := State(
    map[1 := Thread(1, Ready, false), 2 := Thread(2, Ready, false)],
    map[1 := [2], 2 := []], map[], map[], {1}, {}, map[2 := InList(1)])

  const CHILD := State(
    map[1 := Thread(1, Ready, false), 2 := Thread(2, Ready, false), 3 := Thread(3, Ready, false)],
    map[1 := [2], 2 := [3], 3 := []], map[], map[], {1}, {}, map[2 := InList(1), 3 := InList(2)])

  const LISTED := CHILD.(active := {1, 2, 3})

  const LEAVING := LISTED.(threads := CHILD.threads[3 := Thread(3, Finished, false)], exiting := {3})

  const GONE := LISTED.(threads := CHILD.threads[3 := Thread(3, Exited, false)], active := {1, 2}, exiting := {3})

  const TAKEN := GONE.(
    threads := CHILD.threads[3 := Thread(3, Exited, true)], kids := map[1 := [2], 2 := [], 3 := []],
    pending := map[2 := Pending(3, Taken, true)], place := map[2 := InList(1), 3 := PendingOf(2)])

  lemma ParentCloned()
    ensures After(ForgettingRun(), 1, PARENT) && Inv(PARENT)
  {
    InitialOk();
    NoSteps(ForgettingRun());
    var s := Next(ForgettingRun(), 0, INITIAL);
    assert s.kids[1] == [2] && s.kids == PARENT.kids && s.threads == PARENT.threads && s.place == PARENT.place;
  }

  lemma ChildCloned()
    requires After(ForgettingRun(), 1, PARENT) && Inv(PARENT)
    ensures After(ForgettingRun(), 2, CHILD) && Inv(CHILD)
  {
    var s := Next(ForgettingRun(), 1, PARENT);
    assert s.kids[2] == [3] && s.kids == CHILD.kids && s.threads == CHILD.threads && s.place == CHILD.place;
  }

  lemma BothListed()
    requires After(ForgettingRun(), 2, CHILD) && Inv(CHILD)
    ensures After(ForgettingRun(), 4, LISTED) && Inv(LISTED)
  {
    var s := Next(ForgettingRun(), 2, CHILD);
    var s' := Next(ForgettingRun(), 3, s);
    assert s'.active == LISTED.active;
  }

  const EMPTIED := LISTED.(exiting := {3})

  lemma EmptiedResult()
    requires Inv(LISTED)
    ensures Legal(LISTED, ForgettingRun()[4]) && Step(LISTED, ForgettingRun()[4]) == EMPTIED
  {
    assert Step(LISTED, ForgettingRun()[4]).exiting == EMPTIED.exiting;
  }

  lemma ChildSeesNone()
    requires After(ForgettingRun(), 4, LISTED) && Inv(LISTED)
    ensures After(ForgettingRun(), 5, EMPTIED) && Inv(EMPTIED)
  {
    EmptiedResult();
    Reach(ForgettingRun(), 4, LISTED, EMPTIED);
  }

  lemma ChildLeaves()
    requires After(ForgettingRun(), 5, EMPTIED) && Inv(EMPTIED)
    ensures After(ForgettingRun(), 6, LEAVING) && Inv(LEAVING)
  {
    var s := Next(ForgettingRun(), 5, EMPTIED);
    assert s.threads == LEAVING.threads;
  }

  lemma GoneResult()
    requires Inv(LEAVING)
    ensures Legal(LEAVING, ForgettingRun()[6]) && Step(LEAVING, ForgettingRun()[6]) == GONE
  {
    var s := Step(LEAVING, ForgettingRun()[6]);
    assert s.threads == GONE.threads && s.active == GONE.active;
  }

  lemma ChildGone()
    requires After(ForgettingRun(), 6, LEAVING) && Inv(LEAVING)
    ensures After(ForgettingRun(), 7, GONE) && Inv(GONE)
  {
    GoneResult();
    Reach(ForgettingRun(), 6, LEAVING, GONE);
  }

  lemma ChildTaken()
    requires After(ForgettingRun(), 7, GONE) && Inv(GONE)
    ensures After(ForgettingRun(), 8, TAKEN) && Inv(TAKEN)
  {
    ExceptSingle(3);
    var s := Next(ForgettingRun(), 7, GONE);
    assert s.kids == TAKEN.kids && s.threads == TAKEN.threads && s.pending == TAKEN.pending && s.place == TAKEN.place;
  }

  lemma ParentWaits() returns (s: State)
    requires After(ForgettingRun(), 8, TAKEN) && Inv(TAKEN)
    ensures After(ForgettingRun(), 9, s) && Inv(s) && 2 in s.pending && s.pending[2] == Pending(3, Waiting, true)
    ensures s.active == TAKEN.active && s.threads == TAKEN.threads[2 := Thread(2, Joining(3), false)]
  {
    s := Next(ForgettingRun(), 8, TAKEN);
  }

  lemma ParentWoken(s: State) returns (s': State)
    requires After(ForgettingRun(), 9, s) && Inv(s) && 2 in s.pending && s.pending[2] == Pending(3, Waiting, true)
    requires s.active == TAKEN.active && s.threads == TAKEN.threads[2 := Thread(2, Joining(3), false)]
    ensures After(ForgettingRun(), 10, s') && Inv(s') && 2 in s'.pending && s'.pending[2] == Pending(3, Woken(true), true)
  {
    s' := Next(ForgettingRun(), 9, s);
  }

  lemma ParentLast(s: State) returns (s': State)
    requires After(ForgettingRun(), 10, s) && Inv(s) && 2 in s.pending && s.pending[2] == Pending(3, Woken(true), true)
    ensures After(ForgettingRun(), 11, s') && IsDropped(s', 3)
  {
    s' := Next(ForgettingRun(), 10, s);
  }

  lemma ChildForgettable()
    ensures After(ForgettingRun(), 8, TAKEN) && Inv(TAKEN)
  {
    ParentCloned();
    ChildCloned();
    BothListed();
    ChildSeesNone();
    ChildLeaves();
    ChildGone();
    ChildTaken();
  }

  lemma LastState() returns (s: State)
    ensures After(ForgettingRun(), 11, s) && IsDropped(s, 3)
  {
    ChildForgettable();
    s := ParentWaits();
    s := ParentWoken(s);
    s := ParentLast(s);
  }

  lemma ParentForgets() returns (trace: seq<State>)
    ensures IsRun(ForgettingRun(), trace) && IsDropped(trace[11], 3)
  {
    var s := LastState();
    assert ForgettingRun()[..11] == ForgettingRun();
    trace :| IsRun(ForgettingRun(), trace) && trace[11] == s;
  }
}
