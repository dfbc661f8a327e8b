/** The scheduler's operations on its lists. Each method is one section under a lock; a call such
    as a join is several of them. One processor's active list is kept in order, the threads on the
    other processors' lists are a set.
 */
module SchedulerOps {
  import opened Wrappers
  import opened Sequences
  import opened Threads
  import RoundRobin

  datatype Status = Done | ThreadNotFound | DetachSubThread | ThreadNotExited

  // ----- one sweep of UpdateEvents

  /** What the sweep does at thread `t`; `due` are the sleepers whose time is up. */
  ghost function Visited(s: State, t: Tid, due: set<Tid>): State {
    if !Inv(s) || t !in s.active then s
    else if s.threads[t].run == Sleeping && t !in due && !s.threads[t].flagged then s
    else Step(s, Visit(t))
  }

  /** How thread `t` runs after the sweep looked at it. */
  function RunAfter(threads: map<Tid, Thread>, t: Tid, due: set<Tid>): Run
    requires t in threads && (threads[t].run.Joining? ==> threads[t].run.target in threads)
  {
    match threads[t].run
    case Finished => Exited
    case Sleeping => if threads[t].flagged || t in due then Ready else Sleeping
    case Joining(x) => if threads[t].flagged || threads[x].run == Exited then Ready else Joining(x)
    case r => r
  }

  lemma VisitedIs(s: State, t: Tid, due: set<Tid>)
    requires Inv(s) && t in s.active
    ensures t in s.threads && (s.threads[t].run.Joining? ==> s.threads[t].run.target in s.threads)
    ensures var s' := Visited(s, t, due);
            && s'.threads == s.threads[t := s.threads[t].(run := RunAfter(s.threads, t, due))] && s'.kids == s.kids
            && s'.active == if s.threads[t].run == Finished then s.active - {t} else s.active
  {
    assert ThreadOk(s, t);
    if s.threads[t].run.Joining? { assert PendingOk(s, t); }
  }

  /** The sweep over the first `n` threads of the list. */
  ghost function Swept(s: State, list: seq<Tid>, n: nat, due: set<Tid>): State
    requires n <= |list|
  {
    if n == 0 then s else Visited(Swept(s, list, n - 1, due), list[n - 1], due)
  }

  predicate IsFinished(threads: map<Tid, Thread>, t: Tid) { t in threads && threads[t].run == Finished }

  /** What stays on the list, in order. */
  function Unfinished(threads: map<Tid, Thread>, list: seq<Tid>, n: nat): seq<Tid>
    requires n <= |list|
  {
    if n == 0 then []
    else Unfinished(threads, list, n - 1) + if IsFinished(threads, list[n - 1]) then [] else [list[n - 1]]
  }

  lemma VisitedKeeps(s: State, t: Tid, due: set<Tid>)
    requires Inv(s)
    ensures Inv(Visited(s, t, due))
  {
    if t in s.active { StepKeeps(s, Visit(t)); }
  }

  /** A sweep leaves a ready thread ready, and never moves it further back in the list. */
  lemma {:induction false} SweepKeepsReady(s: State, list: seq<Tid>, n: nat, due: set<Tid>, t: Tid)
    requires Inv(s) && n <= |list| && t in s.threads && s.threads[t].run == Ready
    ensures var s' := Swept(s, list, n, due); Inv(s') && t in s'.threads && s'.threads[t].run == Ready
  {
    if n > 0 {
      SweepKeepsReady(s, list, n - 1, due, t);
      VisitedReady(Swept(s, list, n - 1, due), list[n - 1], due, t);
    }
  }

  lemma VisitedReady(s: State, x: Tid, due: set<Tid>, t: Tid)
    requires Inv(s) && t in s.threads && s.threads[t].run == Ready
    ensures var s' := Visited(s, x, due); Inv(s') && t in s'.threads && s'.threads[t].run == Ready
  {
    VisitedKeeps(s, x, due);
  }

  lemma {:induction false} SweepNoFurther(threads: map<Tid, Thread>, list: seq<Tid>, n: nat, k: nat) returns (j: nat)
    requires k < n <= |list| && !IsFinished(threads, list[k])
    ensures j <= k && j < |Unfinished(threads, list, n)| && Unfinished(threads, list, n)[j] == list[k]
  {
    if k == n - 1 {
      j := |Unfinished(threads, list, n - 1)|;
      UnfinishedShorter(threads, list, n - 1);
    } else {
      j := SweepNoFurther(threads, list, n - 1, k);
    }
  }

  lemma {:induction false} UnfinishedShorter(threads: map<Tid, Thread>, list: seq<Tid>, n: nat)
    requires n <= |list|
    ensures |Unfinished(threads, list, n)| <= n
  {
    if n > 0 { UnfinishedShorter(threads, list, n - 1); }
  }

  ghost function ReadyOf(threads: map<Tid, Thread>): set<Tid> {
    set t | t in threads && threads[t].run == Ready
  }

  lemma PopIs(s: State, u: Tid)
    requires Inv(s) && Legal(s, Op.KillPop(u))
    ensures var t, s' := s.kids[u][|s.kids[u]| - 1], PopStep(s, u);
            && NoDup(s.kids[u]) && t in s.threads && Inv(s')
            && s'.kids == s.kids[u := Except(s.kids[u], t)] && s'.active == s.active
            && s'.threads == s.threads[t := s.threads[t].(flagged := true)]
  {
    assert ListOk(s, u) && s.kids[u][|s.kids[u]| - 1] in s.kids[u] && PlaceOk(s, s.kids[u][|s.kids[u]| - 1]);
    PopKeeps(s, u);
  }

  /** The thread at `i` is ready and none before it is. */
  predicate FirstReadyAt(threads: map<Tid, Thread>, list: seq<Tid>, i: int) {
    && 0 <= i < |list| && list[i] in threads && threads[list[i]].run == Ready
    && forall k :: 0 <= k < i && list[k] in threads ==> threads[list[k]].run != Ready
  }

  class Scheduler {
    var threads: map<Tid, Thread>
    var kids: map<Tid, seq<Tid>>
    var activeList: seq<Tid>
    var elsewhere: set<Tid>
    ghost var st: State

    ghost predicate Lists()
      reads this
    {
      && NoDup(activeList) && (forall t :: t in activeList ==> t !in elsewhere)
      && (forall t :: t in st.active <==> t in activeList || t in elsewhere)
    }

    ghost predicate Valid()
      reads this
    {
      Inv(st) && st.threads == threads && st.kids == kids && Lists()
    }

    constructor ()
      ensures Valid() && st == INITIAL && activeList == [INIT]
    {
      threads, kids, activeList, elsewhere := INITIAL.threads, INITIAL.kids, [INIT], {};
      st := INITIAL;
      new;
      InitialOk();
    }

    /** The search through a child list. */
    method FindChild(m: Tid, t: Tid) returns (i: nat)
      requires m in kids
      ensures i <= |kids[m]| && (i < |kids[m]| <==> t in kids[m]) && (i < |kids[m]| ==> kids[m][i] == t)
    {
      i := 0;
      while i < |kids[m]|
        invariant 0 <= i <= |kids[m]| && forall k :: 0 <= k < i ==> kids[m][k] != t
      {
        if kids[m][i] == t { return; }
        i := i + 1;
      }
    }

    /** Where `t` is in the child list of the calling thread's main thread. */
    method FindOwnChild(u: Tid, t: Tid) returns (m: Tid, i: nat)
      requires Valid() && u in st.threads
      ensures m == st.threads[u].main && m in kids && NoDup(kids[m])
      ensures i <= |kids[m]| && (i < |kids[m]| <==> t in kids[m]) && (i < |kids[m]| ==> kids[m][i] == t)
      ensures t in kids[m] ==> t in st.place && st.place[t] == InList(m)
    {
      assert ThreadOk(st, u);
      m := threads[u].main;
      assert ListOk(st, m);
      i := FindChild(m, t);
    }

    /** childThreads.erase */
    method EraseChild(m: Tid, i: nat)
      requires m in kids && i < |kids[m]| && NoDup(kids[m])
      modifies this`kids
      ensures kids == old(kids)[m := Except(old(kids)[m], old(kids)[m][i])]
    {
      ExceptIsRemoveAt(kids[m], i);
      kids := kids[m := kids[m][..i] + kids[m][i + 1..]];
    }

    method CloneThread(u: Tid, t: Tid, sub: bool)
      requires Valid() && Legal(st, Clone(u, t, sub))
      modifies this`threads, this`kids, this`st
      ensures Valid() && st == Step(old(st), Clone(u, t, sub))
    {
      StepKeeps(st, Clone(u, t, sub));
      assert ThreadOk(st, u);
      var m := threads[u].main;
      threads := threads[t := Thread(if sub then m else t, Ready, false)];
      kids := kids[t := []];
      kids := kids[m := kids[m] + [t]];
      st := Step(st, Clone(u, t, sub));
    }

    method Activate(t: Tid)
      requires Valid() && Legal(st, Op.Activate(t))
      modifies this`activeList, this`st
      ensures Valid() && st == Step(old(st), Op.Activate(t)) && activeList == old(activeList) + [t]
    {
      StepKeeps(st, Op.Activate(t));
      activeList := activeList + [t];
      st := Step(st, Op.Activate(t));
    }

    /** The first half of ThreadDetach: out of the parent's list. */
    method DetachTake(u: Tid, t: Tid) returns (r: Status)
      requires Valid() && Legal(st, Op.DetachTake(u, t))
      modifies this`kids, this`st
      ensures Valid() && st == DetachStep(old(st), u, t)
      ensures var m := old(threads)[u].main;
              && m in old(kids) && (t in old(kids)[m] ==> t in old(threads))
              && r == (if t !in old(kids)[m] then ThreadNotFound else if old(threads)[t].main != t then DetachSubThread else Done)
              && (r == Done ==> kids == old(kids)[m := Except(old(kids)[m], t)] && u in st.moving && st.moving[u] == t)
              && (r != Done ==> kids == old(kids))
    {
      var m, i := FindOwnChild(u, t);
      if i == |kids[m]| { return ThreadNotFound; }
      assert PlaceOk(st, t);
      if threads[t].main != t { return DetachSubThread; }
      StepKeeps(st, Op.DetachTake(u, t));
      EraseChild(m, i);
      st := DetachStep(st, u, t);
      return Done;
    }

    /** Its second half: into the list of the init thread. */
    method DetachGive(u: Tid, t: Tid)
      requires Valid() && Legal(st, Op.DetachGive(u)) && st.moving[u] == t
      modifies this`kids, this`st
      ensures Valid() && st == Step(old(st), Op.DetachGive(u))
      ensures INIT in old(kids) && kids == old(kids)[INIT := old(kids)[INIT] + [t]]
    {
      StepKeeps(st, Op.DetachGive(u));
      kids := kids[INIT := kids[INIT] + [t]];
      st := Step(st, Op.DetachGive(u));
    }

    /** ThreadJoin up to the block. */
    method JoinTake(u: Tid, t: Tid) returns (r: Status)
      requires Valid() && Legal(st, Op.JoinTake(u, t))
      modifies this`kids, this`st
      ensures Valid() && st == JoinStep(old(st), u, t)
      ensures var m := old(threads)[u].main;
              && m in old(kids) && r == (if t in old(kids)[m] then Done else ThreadNotFound)
              && (r == Done ==> kids == old(kids)[m := Except(old(kids)[m], t)] && u in st.pending && st.pending[u] == Pending(t, Taken, false))
              && (r != Done ==> kids == old(kids))
    {
      var m, i := FindOwnChild(u, t);
      if i == |kids[m]| { return ThreadNotFound; }
      StepKeeps(st, Op.JoinTake(u, t));
      EraseChild(m, i);
      st := JoinStep(st, u, t);
      return Done;
    }

    /** ThreadBlock of a thread that joins. */
    method Block(u: Tid, t: Tid)
      requires Valid() && Legal(st, Op.Block(u)) && st.pending[u].target == t
      modifies this`threads, this`st
      ensures Valid() && st == Step(old(st), Op.Block(u))
    {
      StepKeeps(st, Op.Block(u));
      assert PendingOk(st, u);
      threads := threads[u := threads[u].(run := Joining(t))];
      st := Step(st, Op.Block(u));
    }

    /** ThreadJoin after the block: interrupted, or the joined thread is freed. */
    method JoinReturn(u: Tid, t: Tid, ok: bool)
      requires Valid() && Legal(st, Op.JoinReturn(u)) && st.pending[u] == Pending(t, Woken(ok), false)
      modifies this`threads, this`kids, this`st
      ensures Valid() && st == Step(old(st), Op.JoinReturn(u))
    {
      StepKeeps(st, Op.JoinReturn(u));
      assert PendingOk(st, u) && ThreadOk(st, u);
      if !ok {
        var m := threads[u].main;
        kids := kids[m := kids[m] + [t]];
      } else {
        threads := threads - {t};
      }
      st := Step(st, Op.JoinReturn(u));
    }

    /** KillChildThreads after the block: interrupted, or the child is forgotten. */
    method KillReturn(u: Tid, t: Tid, ok: bool)
      requires Valid() && Legal(st, Op.JoinReturn(u)) && st.pending[u] == Pending(t, Woken(ok), true)
      modifies this`kids, this`st
      ensures Valid() && st == Step(old(st), Op.JoinReturn(u))
    {
      StepKeeps(st, Op.JoinReturn(u));
      assert PendingOk(st, u) && ThreadOk(st, u);
      if !ok { kids := kids[u := kids[u] + [t]]; }
      st := Step(st, Op.JoinReturn(u));
    }

    method TryJoin(u: Tid, t: Tid) returns (r: Status)
      requires Valid() && Legal(st, Op.TryJoin(u, t))
      modifies this`threads, this`kids, this`st
      ensures Valid() && st == Step(old(st), Op.TryJoin(u, t))
      ensures var m := old(threads)[u].main;
              && m in old(kids) && (t in old(kids)[m] ==> t in old(threads))
              && r == (if t !in old(kids)[m] then ThreadNotFound else if old(threads)[t].run != Exited then ThreadNotExited else Done)
              && (r == Done ==> kids == old(kids)[m := Except(old(kids)[m], t)] && threads == old(threads) - {t})
              && (r != Done ==> kids == old(kids) && threads == old(threads))
    {
      ghost var op := Op.TryJoin(u, t);
      StepKeeps(st, op);
      var m, i := FindOwnChild(u, t);
      if i == |kids[m]| { return ThreadNotFound; }
      assert PlaceOk(st, t);
      if threads[t].run != Exited { return ThreadNotExited; }
      FreeChild(u, m, i);
      return Done;
    }

    method FreeChild(u: Tid, m: Tid, i: nat)
      requires Valid() && Running(st, u) && m == threads[u].main && m in kids && NoDup(kids[m]) && i < |kids[m]|
      requires kids[m][i] in threads && threads[kids[m][i]].run == Exited
      modifies this`threads, this`kids, this`st
      ensures Valid() && st == TryStep(old(st), u, old(kids)[m][i])
      ensures kids == old(kids)[m := Except(old(kids)[m], old(kids)[m][i])] && threads == old(threads) - {old(kids)[m][i]}
    {
      var t := kids[m][i];
      TryKeeps(st, u, t);
      EraseChild(m, i);
      threads := threads - {t};
      st := TryStep(st, u, t);
    }

    /** The start of a round of KillChildThreads: the last child, told to abort, if there is one. */
    method KillPop(u: Tid) returns (child: Option<Tid>)
      requires Valid() && Running(st, u) && u in st.kids
      modifies this`threads, this`kids, this`st
      ensures Valid() && child == if old(st).kids[u] == [] then None else Some(old(st).kids[u][|old(st).kids[u]| - 1])
      ensures st == if child.None? then Step(old(st), SeeEmpty(u)) else Step(old(st), Op.KillPop(u))
    {
      if kids[u] == [] {
        SeeNone(u);
        return None;
      }
      var n := |kids[u]| - 1;
      var t := kids[u][n];
      PopLast(u);
      return Some(t);
    }

    method SeeNone(u: Tid)
      requires Valid() && Legal(st, SeeEmpty(u))
      modifies this`st
      ensures Valid() && st == Step(old(st), SeeEmpty(u))
    {
      StepKeeps(st, SeeEmpty(u));
      st := Step(st, SeeEmpty(u));
    }

    method PopLast(u: Tid)
      requires Valid() && Legal(st, Op.KillPop(u))
      modifies this`threads, this`kids, this`st
      ensures Valid() && st == PopStep(old(st), u)
    {
      PopIs(st, u);
      var n := |kids[u]| - 1;
      var t := kids[u][n];
      EraseChild(u, n);
      threads := threads[t := threads[t].(flagged := true)];
      st := PopStep(st, u);
    }

    method Finish(u: Tid)
      requires Valid() && Legal(st, Op.Finish(u))
      modifies this`threads, this`st
      ensures Valid() && st == Step(old(st), Op.Finish(u))
    {
      StepKeeps(st, Op.Finish(u));
      threads := threads[u := threads[u].(run := Finished)];
      st := Step(st, Op.Finish(u));
    }

    // ----- UpdateEvents and FindNextThread

    method VisitThread(t: Tid, due: set<Tid>)
      requires Inv(st) && st.threads == threads && st.kids == kids && t in st.active
      modifies this`threads, this`st
      ensures Inv(st) && st.threads == threads && st.kids == kids && st == Visited(old(st), t, due)
      ensures threads.Keys == old(threads).Keys && forall x :: x in threads && x != t ==> threads[x] == old(threads)[x]
      ensures st.active == if old(threads)[t].run == Finished then old(st).active - {t} else old(st).active
    {
      VisitedKeeps(st, t, due);
      VisitedIs(st, t, due);
      ghost var s' := Visited(st, t, due);
      var info := threads[t];
      if info.run == Finished {
        threads := threads[t := info.(run := Exited)];
      } else if info.run == Exited || info.run == Ready {
      } else if info.flagged {
        threads := threads[t := info.(run := Ready)];
      } else if info.run == Sleeping {
        if t in due { threads := threads[t := info.(run := Ready)]; }
      } else {
        if threads[info.run.target].run == Exited { threads := threads[t := info.(run := Ready)]; }
      }
      st := s';
    }

    /** The body of the sweep: a finished thread is erased, after any other the sweep goes on. */
    method VisitAt(i: nat, due: set<Tid>) returns (next: nat)
      requires Valid() && i < |activeList|
      modifies this`threads, this`activeList, this`st
      ensures Valid() && st == Visited(old(st), old(activeList)[i], due) && threads.Keys == old(threads).Keys
      ensures forall x :: x in threads && x != old(activeList)[i] ==> threads[x] == old(threads)[x]
      ensures if IsFinished(old(threads), old(activeList)[i])
              then next == i && activeList == old(activeList)[..i] + old(activeList)[i + 1..]
              else next == i + 1 && activeList == old(activeList)
    {
      var t := activeList[i];
      var gone := threads[t].run == Finished;
      VisitThread(t, due);
      if gone {
        EraseActive(i);
        next := i;
      } else {
        next := i + 1;
      }
    }

    /** The first `n` threads of list `L` were looked at, the finished ones are gone from the list, and
        the rest of it starts at `i`. */
    ghost predicate Sweeping(s0: State, L: seq<Tid>, n: nat, i: nat, due: set<Tid>)
      reads this
    {
      && Valid() && n <= |L| && i <= |activeList| && NoDup(L)
      && activeList[..i] == Unfinished(s0.threads, L, n) && activeList[i..] == L[n..]
      && st == Swept(s0, L, n, due)
      && forall k :: n <= k < |L| ==> IsFinished(threads, L[k]) == IsFinished(s0.threads, L[k])
    }

    method SweepOn(i: nat, due: set<Tid>, ghost s0: State, ghost L: seq<Tid>, ghost n: nat) returns (next: nat)
      requires Sweeping(s0, L, n, i, due) && i < |activeList|
      modifies this`threads, this`activeList, this`st
      ensures n < |L| && Sweeping(s0, L, n + 1, next, due)
    {
      ghost var before := activeList;
      assert before[i] == before[i..][0] == L[n];
      next := VisitAt(i, due);
      SweepLists(before, activeList, L, n, i, next);
      assert forall k :: n < k < |L| ==> L[k] != L[n];
    }

    /** One sweep over the list, from which finished threads are erased on the way. */
    method UpdateEvents(due: set<Tid>)
      requires Valid()
      modifies this`threads, this`activeList, this`st
      ensures Valid() && st == Swept(old(st), old(activeList), |old(activeList)|, due)
      ensures activeList == Unfinished(old(threads), old(activeList), |old(activeList)|)
    {
      ghost var L, n, s0 := activeList, 0, st;
      var i := 0;
      SweepStarts(due);
      while i < |activeList|
        invariant 0 <= n && 0 <= i && Sweeping(s0, L, n, i, due)
        decreases |L| - n
      {
        i := SweepOn(i, due, s0, L, n);
        n := n + 1;
      }
      SweepEnds(s0, L, n, i, due);
    }

    lemma SweepStarts(due: set<Tid>)
      requires Valid()
      ensures Sweeping(st, activeList, 0, 0, due)
    {}

    lemma SweepEnds(s0: State, L: seq<Tid>, n: nat, i: nat, due: set<Tid>)
      requires Sweeping(s0, L, n, i, due) && i == |activeList|
      ensures n == |L| && activeList == Unfinished(s0.threads, L, n)
    {
      assert n == |L| by { assert |activeList[i..]| == 0; }
      assert activeList[..i] == activeList;
    }

    /** activeList.erase */
    method EraseActive(i: nat)
      requires i < |activeList| && NoDup(activeList) && (forall t :: t in activeList ==> t !in elsewhere)
      requires forall t :: t in st.active <==> (t in activeList && t != activeList[i]) || t in elsewhere
      modifies this`activeList
      ensures Lists() && activeList == old(activeList)[..i] + old(activeList)[i + 1..]
    {
      ghost var ts := activeList;
      ExceptIsRemoveAt(activeList, i);
      ExceptNoDup(activeList, activeList[i]);
      activeList := activeList[..i] + activeList[i + 1..];
      assert activeList == Except(ts, ts[i]);
    }

    method FindNextThread() returns (next: Option<Tid>)
      requires Valid()
      modifies this`activeList
      ensures Valid() && next == RoundRobin.Chosen(old(activeList), ReadyOf(threads))
      ensures activeList == RoundRobin.Rotated(old(activeList), ReadyOf(threads))
      ensures next.None? ==> activeList == old(activeList) && forall t :: t in activeList && t in threads ==> threads[t].run != Ready
      ensures next.Some? ==> exists i :: FirstReadyAt(threads, old(activeList), i) && old(activeList)[i] == next.value
                                         && activeList == old(activeList)[..i] + old(activeList)[i + 1..] + [next.value]
    {
      var i := 0;
      while i < |activeList|
        invariant 0 <= i <= |activeList| && activeList == old(activeList)
        invariant forall k :: 0 <= k < i && activeList[k] in threads ==> threads[activeList[k]].run != Ready
        invariant RoundRobin.FirstReady(activeList, ReadyOf(threads), i) == RoundRobin.FirstReady(activeList, ReadyOf(threads), 0)
      {
        var t := activeList[i];
        assert t in st.active;
        if threads[t].run == Ready {
          assert FirstReadyAt(threads, old(activeList), i);
          activeList := activeList[..i] + activeList[i + 1..] + [t];
          Rotation(old(activeList), i);
          return Some(t);
        }
        i := i + 1;
      }
      return None;
    }
  }

  lemma SweepLists(before: seq<Tid>, after: seq<Tid>, L: seq<Tid>, n: nat, i: nat, next: nat)
    requires i < |before| && n < |L| && before[i..] == L[n..]
    requires if next == i then after == before[..i] + before[i + 1..] else next == i + 1 && after == before
    ensures next <= |after| && after[next..] == L[n + 1..]
    ensures after[..next] == before[..i] + if next == i then [] else [L[n]]
  {}

  lemma Rotation(ts: seq<Tid>, i: nat)
    requires NoDup(ts) && i < |ts|
    ensures var r := ts[..i] + ts[i + 1..] + [ts[i]]; NoDup(r) && forall t :: t in r <==> t in ts
  {}
}
