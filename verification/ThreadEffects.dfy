/** What each section of the scheduler does to the threads, the child lists, the joins and detaches
    under way and the active lists, and what a sweep does to every thread on its list.
 */
module ThreadEffects {
  import opened Sequences
  import opened Threads
  import opened SchedulerOps

  /** Nothing changed but what is named: the child lists, the joins and detaches under way. */
  predicate SameThreads(s: State, s': State) { s'.threads == s.threads && s'.active == s.active && s'.exiting == s.exiting }
  predicate SameCalls(s: State, s': State) { s'.pending == s.pending && s'.moving == s.moving }

  /** A new thread, ready and not told to stop, last among the children of the caller's main thread; it
      is its own main thread unless it is a sub-thread. */
  lemma CloneEffect(s: State, u: Tid, t: Tid, sub: bool)
    requires Inv(s) && Legal(s, Clone(u, t, sub))
    ensures var s', m := Step(s, Clone(u, t, sub)), s.threads[u].main;
            && t !in s.threads && m in s.kids && t != m
            && s'.threads == s.threads[t := Thread(if sub then m else t, Ready, false)]
            && s'.kids.Keys == s.kids.Keys + {t} && s'.kids[t] == [] && s'.kids[m] == s.kids[m] + [t]
            && (forall o :: o in s.kids && o != m ==> s'.kids[o] == s.kids[o])
            && s'.active == s.active && s'.exiting == s.exiting && SameCalls(s, s')
  {
    assert ThreadOk(s, u);
    assert t in s.threads ==> ThreadOk(s, t);
  }

  lemma ChildKnown(s: State, u: Tid, t: Tid)
    requires Inv(s) && u in s.threads
    ensures s.threads[u].main in s.kids && (t in s.kids[s.threads[u].main] ==> t in s.threads)
  {
    assert ThreadOk(s, u);
    assert ListOk(s, s.threads[u].main);
    if t in s.kids[s.threads[u].main] { assert PlaceOk(s, t); }
  }

  /** A child that is a main thread of its own is taken off the list; any other thread stays. */
  lemma DetachTakeEffect(s: State, u: Tid, t: Tid)
    requires Inv(s) && Legal(s, DetachTake(u, t))
    ensures var s', m := Step(s, DetachTake(u, t)), s.threads[u].main;
            && m in s.kids && (t in s.kids[m] ==> t in s.threads) && SameThreads(s, s') && s'.pending == s.pending
            && if t in s.kids[m] && s.threads[t].main == t
               then s'.kids == s.kids[m := Except(s.kids[m], t)] && s'.moving == s.moving[u := t]
               else s'.kids == s.kids && s'.moving == s.moving
  {
    ChildKnown(s, u, t);
  }

  lemma DetachGiveEffect(s: State, u: Tid)
    requires Inv(s) && Legal(s, DetachGive(u))
    ensures var s' := Step(s, DetachGive(u));
            && SameThreads(s, s') && s'.pending == s.pending && s'.moving == s.moving - {u}
            && INIT in s.kids && s'.kids == s.kids[INIT := s.kids[INIT] + [s.moving[u]]]
  {}

  /** A child is taken off the list and the caller is about to wait for it; no other thread is. */
  lemma JoinTakeEffect(s: State, u: Tid, t: Tid)
    requires Inv(s) && Legal(s, JoinTake(u, t))
    ensures var s', m := Step(s, JoinTake(u, t)), s.threads[u].main;
            && m in s.kids && SameThreads(s, s') && s'.moving == s.moving
            && if t in s.kids[m]
               then s'.kids == s.kids[m := Except(s.kids[m], t)] && s'.pending == s.pending[u := Pending(t, Taken, false)]
               else s'.kids == s.kids && s'.pending == s.pending
  {
    assert ThreadOk(s, u);
  }

  lemma BlockEffect(s: State, u: Tid)
    requires Inv(s) && Legal(s, Block(u))
    ensures var s', p := Step(s, Block(u)), s.pending[u];
            && u in s.threads && s'.threads == s.threads[u := s.threads[u].(run := Joining(p.target))]
            && s'.pending == s.pending[u := Pending(p.target, Waiting, p.kill)]
            && s'.kids == s.kids && s'.moving == s.moving && s'.active == s.active && s'.exiting == s.exiting
  {
    assert PendingOk(s, u);
  }

  /** Interrupted, the target goes back to the end of the list it came from; otherwise a join frees it
      and an exiting parent forgets it. */
  lemma JoinReturnEffect(s: State, u: Tid)
    requires Inv(s) && Legal(s, JoinReturn(u))
    ensures var s', p := Step(s, JoinReturn(u)), s.pending[u];
            && u in s.threads && u in s.kids && s.threads[u].main in s.kids && p.target in s.threads
            && s'.pending == s.pending - {u} && s'.moving == s.moving && s'.active == s.active && s'.exiting == s.exiting
            && (p.phase.ok ==> s'.kids == s.kids && s'.threads == if p.kill then s.threads else s.threads - {p.target})
            && (!p.phase.ok ==>
                  var o := if p.kill then u else s.threads[u].main;
                  s'.threads == s.threads && s'.kids == s.kids[o := s.kids[o] + [p.target]])
  {
    assert PendingOk(s, u) && ThreadOk(s, u);
  }

  /** A child that has exited is taken off the list and freed; otherwise nothing happens. */
  lemma TryJoinEffect(s: State, u: Tid, t: Tid)
    requires Inv(s) && Legal(s, TryJoin(u, t))
    ensures var s', m := Step(s, TryJoin(u, t)), s.threads[u].main;
            && m in s.kids && (t in s.kids[m] ==> t in s.threads) && SameCalls(s, s') && s'.active == s.active && s'.exiting == s.exiting
            && if t in s.kids[m] && s.threads[t].run == Exited
               then s'.kids == s.kids[m := Except(s.kids[m], t)] && s'.threads == s.threads - {t}
               else s'.kids == s.kids && s'.threads == s.threads
  {
    ChildKnown(s, u, t);
  }

  /** The last child is taken off the list and told to abort, and the exiting parent is about to wait. */
  lemma KillPopEffect(s: State, u: Tid)
    requires Inv(s) && Legal(s, KillPop(u))
    ensures var s', n := Step(s, KillPop(u)), |s.kids[u]| - 1;
            var t := s.kids[u][n];
            && t in s.threads && s'.kids == s.kids[u := s.kids[u][..n]]
            && s'.threads == s.threads[t := s.threads[t].(flagged := true)]
            && s'.pending == s.pending[u := Pending(t, Taken, true)]
            && s'.moving == s.moving && s'.active == s.active && s'.exiting == s.exiting
  {
    PopIs(s, u);
    var ks := s.kids[u];
    ExceptIsRemoveAt(ks, |ks| - 1);
    assert RemoveAt(ks, |ks| - 1) == ks[..|ks| - 1];
  }

  lemma OwnEffects(s: State, op: Op)
    requires Inv(s) && Legal(s, op)
    requires op.SeeEmpty? || op.Finish? || op.Doze? || op.Flag? || op.Unflag? || op.Activate?
    ensures var s' := Step(s, op);
            && s'.kids == s.kids && SameCalls(s, s')
            && (op.Activate? ==> s'.active == s.active + {op.t} && s'.threads == s.threads && s'.exiting == s.exiting)
            && (op.SeeEmpty? ==> s'.exiting == s.exiting + {op.u} && s'.threads == s.threads && s'.active == s.active)
            && (op.Finish? || op.Doze? || op.Flag? || op.Unflag? ==> s'.active == s.active && s'.exiting == s.exiting)
            && (op.Finish? ==> op.u in s.threads && s'.threads == s.threads[op.u := s.threads[op.u].(run := Finished)])
            && (op.Doze? ==> op.u in s.threads && s'.threads == s.threads[op.u := s.threads[op.u].(run := Sleeping)])
            && (op.Flag? ==> s'.threads == s.threads[op.t := s.threads[op.t].(flagged := true)])
            && (op.Unflag? ==> s'.threads == s.threads[op.t := s.threads[op.t].(flagged := false)])
  {}

  // ----- one thread of the sweep

  /** How a thread that is looked at goes on: a sleeper whose time is up, or a thread with a kill or abort
      pending, gets ready; a thread waits for one that has exited no longer; a finished one has exited. */
  predicate WakesTo(threads: map<Tid, Thread>, t: Tid, due: set<Tid>, run: Run)
    requires t in threads && (threads[t].run.Joining? ==> threads[t].run.target in threads)
  {
    var info := threads[t];
    && (info.run == Ready ==> run == Ready)
    && (info.run == Sleeping ==> run == if info.flagged || t in due then Ready else Sleeping)
    && (info.run == Finished || info.run == Exited ==> run == Exited)
    && (info.run.Joining? ==> run == if info.flagged || threads[info.run.target].run == Exited then Ready else info.run)
  }

  /** Thread `t` was looked at: it goes on as above and is off the active list if it had finished;
      everything else stays. */
  ghost predicate LookedAt(s: State, t: Tid, due: set<Tid>, s': State) {
    && t in s.threads && (s.threads[t].run.Joining? ==> s.threads[t].run.target in s.threads)
    && s'.threads.Keys == s.threads.Keys && (forall x :: x in s.threads && x != t ==> s'.threads[x] == s.threads[x])
    && s'.threads[t] == s.threads[t].(run := s'.threads[t].run) && WakesTo(s.threads, t, due, s'.threads[t].run)
    && s'.kids == s.kids
    && s'.active == (if s.threads[t].run == Finished then s.active - {t} else s.active)
  }

  lemma VisitedEffect(s: State, t: Tid, due: set<Tid>)
    requires Inv(s) && t in s.active
    ensures Inv(Visited(s, t, due)) && LookedAt(s, t, due, Visited(s, t, due))
  {
    VisitedKeeps(s, t, due);
    VisitedIs(s, t, due);
  }

  /** The join of a thread that is woken knows why: it was interrupted, or the other thread has exited. */
  lemma VisitedCalls(s: State, t: Tid, due: set<Tid>)
    requires Inv(s) && t in s.active && t in s.threads
    ensures var s' := Visited(s, t, due);
            && s'.moving == s.moving && s'.exiting == s.exiting && t in s'.threads
            && (s.threads[t].run.Joining? ==> t in s.pending)
            && s'.pending == if s.threads[t].run.Joining? && s'.threads[t].run == Ready
                             then s.pending[t := s.pending[t].(phase := Woken(!s.threads[t].flagged))] else s.pending
  {
    assert ThreadOk(s, t);
    if s.threads[t].run.Joining? { assert PendingOk(s, t); }
  }

  // ----- a whole sweep

  /** What the sweep leaves of thread `t` that is at position `k` of the list: threads before it in the
      list that had finished have exited when it is looked at. */
  predicate SweptTo(threads: map<Tid, Thread>, list: seq<Tid>, k: nat, due: set<Tid>, run: Run)
    requires k < |list| && list[k] in threads
  {
    var info := threads[list[k]];
    && (info.run == Ready ==> run == Ready)
    && (info.run == Sleeping ==> run == if info.flagged || list[k] in due then Ready else Sleeping)
    && (info.run == Finished || info.run == Exited ==> run == Exited)
    && (info.run.Joining? ==> run == if info.flagged || Over(threads, list[..k], info.run.target) then Ready else info.run)
  }

  /** Thread `x` has exited, or had finished and is among those already looked at. */
  predicate Over(threads: map<Tid, Thread>, seen: seq<Tid>, x: Tid) {
    x in threads && (threads[x].run == Exited || (threads[x].run == Finished && x in seen))
  }

  /** After the first `n` threads: these are as above, all others as they were, and no list has changed. */
  ghost predicate SweptFirst(s: State, list: seq<Tid>, n: nat, due: set<Tid>, s': State)
    requires n <= |list| && forall k :: 0 <= k < |list| ==> list[k] in s.threads
  {
    && s'.threads.Keys == s.threads.Keys && s'.kids == s.kids
    && (forall x :: x in s.threads && x !in list[..n] ==> s'.threads[x] == s.threads[x])
    && (forall k :: 0 <= k < n ==> SweptAt(s, list, k, due, s'))
    && (forall x :: x in s'.active <==> x in s.active && !(x in list[..n] && s.threads[x].run == Finished))
  }

  predicate SweptAt(s: State, list: seq<Tid>, k: nat, due: set<Tid>, s': State)
    requires k < |list| && list[k] in s.threads
  {
    && list[k] in s'.threads && s'.threads[list[k]] == s.threads[list[k]].(run := s'.threads[list[k]].run)
    && SweptTo(s.threads, list, k, due, s'.threads[list[k]].run)
  }

  /** UpdateEvents over its whole list, or any first part of it. */
  lemma {:induction false} SweepEffect(s: State, list: seq<Tid>, n: nat, due: set<Tid>)
    requires Inv(s) && NoDup(list) && n <= |list| && forall k :: 0 <= k < |list| ==> list[k] in s.active && list[k] in s.threads
    ensures Inv(Swept(s, list, n, due)) && SweptFirst(s, list, n, due, Swept(s, list, n, due))
  {
    if n == 0 {
      NoneSwept(s, list, due);
    } else {
      SweepEffect(s, list, n - 1, due);
      SweepStep(s, list, n - 1, due, Swept(s, list, n - 1, due));
    }
  }

  lemma NoneSwept(s: State, list: seq<Tid>, due: set<Tid>)
    requires forall k :: 0 <= k < |list| ==> list[k] in s.threads
    ensures SweptFirst(s, list, 0, due, s)
  {}

  lemma SweepStep(s: State, list: seq<Tid>, n: nat, due: set<Tid>, s1: State)
    requires NoDup(list) && n < |list| && (forall k :: 0 <= k < |list| ==> list[k] in s.active && list[k] in s.threads)
    requires Inv(s1) && SweptFirst(s, list, n, due, s1)
    ensures Inv(Visited(s1, list[n], due)) && SweptFirst(s, list, n + 1, due, Visited(s1, list[n], due))
  {
    NotSeen(list, n);
    StillActive(s, list, n, due, s1);
    VisitedEffect(s1, list[n], due);
    SweptOn(s, list, n, due, s1, Visited(s1, list[n], due));
  }

  lemma StillActive(s: State, list: seq<Tid>, n: nat, due: set<Tid>, s1: State)
    requires n < |list| && (forall k :: 0 <= k < |list| ==> list[k] in s.active && list[k] in s.threads)
    requires SweptFirst(s, list, n, due, s1) && list[n] !in list[..n]
    ensures list[n] in s1.active
  {}

  lemma NotSeen(list: seq<Tid>, k: nat)
    requires NoDup(list) && k < |list|
    ensures list[k] !in list[..k] && forall x :: x in list[..k + 1] <==> x in list[..k] || x == list[k]
  {}

  /** Whether a thread has exited when the thread at `n` is looked at. */
  lemma OverNow(s: State, list: seq<Tid>, n: nat, due: set<Tid>, s1: State, x: Tid)
    requires n <= |list| && (forall k :: 0 <= k < |list| ==> list[k] in s.threads)
    requires SweptFirst(s, list, n, due, s1) && x in s.threads
    ensures s1.threads[x].run == Exited <==> Over(s.threads, list[..n], x)
  {
    if x in list[..n] {
      var k :| 0 <= k < n && list[..n][k] == x;
      assert SweptAt(s, list, k, due, s1);
    }
  }

  lemma SweptOn(s: State, list: seq<Tid>, n: nat, due: set<Tid>, s1: State, s': State)
    requires NoDup(list) && n < |list| && (forall k :: 0 <= k < |list| ==> list[k] in s.threads)
    requires SweptFirst(s, list, n, due, s1)
    requires list[n] !in list[..n] && forall x :: x in list[..n + 1] <==> x in list[..n] || x == list[n]
    requires LookedAt(s1, list[n], due, s')
    ensures SweptFirst(s, list, n + 1, due, s')
  {
    forall k | 0 <= k < n
      ensures SweptAt(s, list, k, due, s')
    {
      assert SweptAt(s, list, k, due, s1) && list[k] == list[..n][k];
    }
    SweptLast(s, list, n, due, s1, s');
  }

  lemma SweptLast(s: State, list: seq<Tid>, n: nat, due: set<Tid>, s1: State, s': State)
    requires n < |list| && (forall k :: 0 <= k < |list| ==> list[k] in s.threads)
    requires SweptFirst(s, list, n, due, s1) && list[n] !in list[..n] && LookedAt(s1, list[n], due, s')
    ensures SweptAt(s, list, n, due, s')
  {
    var t := list[n];
    if s.threads[t].run.Joining? { OverNow(s, list, n, due, s1, s.threads[t].run.target); }
  }

  /** UpdateEvents, thread by thread: a due sleeper is ready after the sweep, a finished thread has exited
      and is on no active list, a join ends when the other thread has exited or a kill is pending. */
  lemma SweepEachThread(s: State, list: seq<Tid>, due: set<Tid>, k: nat)
    requires Inv(s) && NoDup(list) && k < |list| && forall j :: 0 <= j < |list| ==> list[j] in s.active
    ensures var s', t := Swept(s, list, |list|, due), list[k];
            && t in s.threads && t in s'.threads
            && s'.threads[t].main == s.threads[t].main && s'.threads[t].flagged == s.threads[t].flagged
            && SweptTo(s.threads, list, k, due, s'.threads[t].run)
            && (s.threads[t].run == Finished ==> t !in s'.active)
  {
    SweepEffect(s, list, |list|, due);
    assert SweptAt(s, list, k, due, Swept(s, list, |list|, due));
    assert list[..|list|] == list;
  }
}
