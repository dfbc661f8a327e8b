/** Threads keep a pointer to the main thread of their group. It stays valid unless the main thread
    leaves while members of its group wait for each other in a cycle; a thread that joins itself is
    such a cycle.
 */
module ThreadGroups {
  import opened Wrappers
  import opened Sequences
  import opened Threads

  /** Every thread that has not exited has a main thread that is still allocated. */
  ghost predicate MainsAllocated(s: State) {
    forall t :: t in s.threads && s.threads[t].run != Exited ==> s.threads[t].main in s.threads
  }

  // ----- who waits for whom

  /** Following `n` joins under way from thread `a`. */
  function Hop(s: State, a: Tid, n: nat): Option<Tid> {
    if n == 0 then Some(a)
    else
      var b := Hop(s, a, n - 1);
      if b.Some? && b.value in s.pending then Some(s.pending[b.value].target) else None
  }

  /** Thread `a` waits for `b`, directly or through other waiting threads, or is `b`. */
  ghost predicate Reaches(s: State, a: Tid, b: Tid) {
    exists n: nat :: Hop(s, a, n) == Some(b)
  }

  lemma {:induction false} HopShift(s: State, a: Tid, n: nat)
    requires a in s.pending
    ensures Hop(s, a, n + 1) == Hop(s, s.pending[a].target, n)
  {
    if n > 0 { HopShift(s, a, n - 1); }
  }

  lemma {:induction false} HopStuck(s: State, a: Tid, n: nat)
    requires a !in s.pending && n > 0
    ensures Hop(s, a, n) == None
  {
    if n > 1 { HopStuck(s, a, n - 1); }
  }

  lemma ReachStep(s: State, w: Tid, u: Tid)
    requires w in s.pending && w != u
    ensures Reaches(s, w, u) <==> Reaches(s, s.pending[w].target, u)
  {
    if Reaches(s, w, u) {
      var n: nat :| Hop(s, w, n) == Some(u);
      HopShift(s, w, n - 1);
    }
    if Reaches(s, s.pending[w].target, u) {
      var n: nat :| Hop(s, s.pending[w].target, n) == Some(u);
      HopShift(s, w, n);
    }
  }

  // ----- the shape of groups

  ghost predicate GroupOk(s: State, t: Tid)
    requires t in s.threads
  {
    var m := s.threads[t].main;
    && INIT <= m <= t
    && (m in s.threads ==> s.threads[m].main == m)
    && (m != t && s.threads[t].run != Exited ==> m !in s.exiting)
  }

  /** Lists belong to main threads, hold younger threads, and members only of their own group. */
  ghost predicate ListGroupOk(s: State, o: Tid)
    requires o in s.kids
  {
    && (s.kids[o] != [] && o in s.threads ==> s.threads[o].main == o)
    && forall t :: t in s.kids[o] && t in s.threads ==> o < t && (s.threads[t].main == t || s.threads[t].main == o)
  }

  ghost predicate WaitGroupOk(s: State, u: Tid)
    requires u in s.pending
  {
    && u in s.threads && s.pending[u].target in s.threads
    && var t, m := s.pending[u].target, s.threads[u].main;
    && m < t && (s.threads[t].main == t || s.threads[t].main == m)
    && (s.pending[u].kill ==> u == m)
  }

  ghost predicate MoveGroupOk(s: State, u: Tid)
    requires u in s.moving
  {
    s.moving[u] > INIT && (s.moving[u] in s.threads ==> s.threads[s.moving[u]].main == s.moving[u])
  }

  ghost predicate Groups(s: State) {
    && (forall m :: m in s.kids && m !in s.threads ==> m in s.exiting)
    && (forall t {:trigger GroupOk(s, t)} :: t in s.threads ==> GroupOk(s, t))
    && (forall o {:trigger ListGroupOk(s, o)} :: o in s.kids ==> ListGroupOk(s, o))
    && (forall u {:trigger WaitGroupOk(s, u)} :: u in s.pending ==> WaitGroupOk(s, u))
    && (forall u {:trigger MoveGroupOk(s, u)} :: u in s.moving ==> MoveGroupOk(s, u))
  }

  lemma GroupsGiveMains(s: State)
    requires Inv(s) && Groups(s)
    ensures MainsAllocated(s)
  {
    forall t | t in s.threads && s.threads[t].run != Exited
      ensures s.threads[t].main in s.threads
    {
      assert ThreadOk(s, t) && GroupOk(s, t);
    }
  }

  // ----- when a main thread finds its list empty, its group is gone

  ghost predicate LiveMember(s: State, m: Tid, t: Tid) {
    t in s.threads && t != m && s.threads[t].main == m && s.threads[t].run != Exited
  }

  /** A live member of a group whose list is empty is the target of a join. */
  lemma MemberIsTarget(s: State, m: Tid, t: Tid)
    requires Inv(s) && Groups(s) && Running(s, m) && m in s.kids && s.kids[m] == [] && LiveMember(s, m, t)
    ensures t in s.place && s.place[t].PendingOf?
  {
    assert ThreadOk(s, t) && GroupOk(s, t);
    assert t != INIT;
    assert PlaceOk(s, t);
    assert forall o :: o in s.kids ==> ListGroupOk(s, o);
    assert forall w :: w in s.moving ==> MoveGroupOk(s, w);
  }

  /** The caller of that join is another live member, or itself. */
  lemma Waiter(s: State, m: Tid, t: Tid) returns (u: Tid)
    requires Inv(s) && Groups(s) && Running(s, m) && m in s.kids && s.kids[m] == [] && LiveMember(s, m, t)
    ensures LiveMember(s, m, u) && u in s.pending && s.pending[u].target == t
  {
    MemberIsTarget(s, m, t);
    u := s.place[t].caller;
    assert PlaceOk(s, t);
    assert PendingOk(s, u) && WaitGroupOk(s, u);
  }

  /** Thread `t` waits for itself, directly or through other waiting threads. */
  ghost predicate OnCycle(s: State, t: Tid) {
    exists n: nat :: n > 0 && Hop(s, t, n) == Some(t)
  }

  ghost predicate GroupCycle(s: State, m: Tid) {
    exists t :: LiveMember(s, m, t) && OnCycle(s, t)
  }

  /** Going back from member `chain[0]` to members that wait for it, until one comes up again. */
  lemma {:induction false} FindCycle(s: State, m: Tid, chain: seq<Tid>, left: set<Tid>)
    requires Inv(s) && Groups(s) && Running(s, m) && m in s.kids && s.kids[m] == []
    requires chain != [] && LiveMember(s, m, chain[0])
    requires forall j :: 0 <= j < |chain| ==> Hop(s, chain[0], j) == Some(chain[j])
    requires forall x :: x in s.threads && x !in chain ==> x in left
    ensures GroupCycle(s, m)
    decreases left
  {
    var u := Waiter(s, m, chain[0]);
    forall j | 0 <= j < |chain|
      ensures Hop(s, u, j + 1) == Some(chain[j])
    {
      HopShift(s, u, j);
    }
    if u in chain {
      var j: nat :| j < |chain| && chain[j] == u;
      assert Hop(s, u, j + 1) == Some(u);
      assert OnCycle(s, u);
    } else {
      var longer := [u] + chain;
      assert forall j :: 0 < j < |longer| ==> longer[j] == chain[j - 1] && Hop(s, u, j - 1 + 1) == Some(chain[j - 1]);
      FindCycle(s, m, longer, left - {u});
    }
  }

  /** When a main thread finds its child list empty, the others of its group are gone if and only if
      none of them wait for each other in a cycle. */
  lemma LiveMembersIffCycle(s: State, m: Tid)
    requires Inv(s) && Groups(s) && Running(s, m) && m in s.kids && s.kids[m] == []
    ensures (exists t :: LiveMember(s, m, t)) <==> GroupCycle(s, m)
  {
    if exists t :: LiveMember(s, m, t) {
      var t :| LiveMember(s, m, t);
      FindCycle(s, m, [t], s.threads.Keys - {t});
    }
  }

  // ----- an exiting parent never closes a cycle

  /** Along joins under way the main thread never gets older, and gets strictly younger on the
      way into another group. */
  lemma {:induction false} HopRises(s: State, a: Tid, n: nat)
    requires Groups(s) && a in s.threads && Hop(s, a, n).Some?
    ensures var b := Hop(s, a, n).value;
            && b in s.threads && s.threads[a].main <= s.threads[b].main
            && (n > 0 && s.threads[b].main == b ==> s.threads[a].main < b)
  {
    if n > 0 {
      HopRises(s, a, n - 1);
      assert WaitGroupOk(s, Hop(s, a, n - 1).value);
    }
  }

  lemma KillNoCycle(s: State, u: Tid, t: Tid)
    requires Groups(s) && u in s.threads && u in s.kids && t in s.kids[u] && t in s.threads
    ensures s.threads[u].main == u && u < t && !Reaches(s, t, u)
  {
    assert ListGroupOk(s, u);
    forall n: nat
      ensures Hop(s, t, n) != Some(u)
    {
      if Hop(s, t, n).Some? { HopRises(s, t, n); }
    }
  }

  // ----- every step

  /** A thread does not leave while members of its group wait for each other in a cycle. */
  ghost predicate SafeExit(s: State, op: Op) {
    op.SeeEmpty? ==> !GroupCycle(s, op.u)
  }

  ghost predicate Quiet(s: State, s': State) {
    && s'.kids == s.kids && s'.moving == s.moving && s'.threads.Keys == s.threads.Keys && s'.pending.Keys == s.pending.Keys
    && (forall u :: u in s.pending ==> s'.pending[u].target == s.pending[u].target && s'.pending[u].kill == s.pending[u].kill)
    && (forall t :: t in s.threads ==> s'.threads[t].main == s.threads[t].main)
    && (forall t :: t in s.threads && s.threads[t].run == Exited ==> s'.threads[t].run == Exited)
    && s.exiting <= s'.exiting
  }

  /** Steps that leave lists, waiting and the set of threads alone. */
  lemma QuietStep(s: State, s': State)
    requires Groups(s) && Quiet(s, s')
    requires forall m, t :: m in s'.exiting && m !in s.exiting ==> !LiveMember(s, m, t)
    ensures Groups(s')
  {
    forall t | t in s'.threads
      ensures GroupOk(s', t)
    {
      assert GroupOk(s, t);
      var m := s.threads[t].main;
      assert m != t && s'.threads[t].run != Exited ==> LiveMember(s, m, t);
    }
    forall o | o in s'.kids ensures ListGroupOk(s', o) { assert ListGroupOk(s, o); }
    forall u | u in s'.pending
      ensures WaitGroupOk(s', u)
    {
      assert WaitGroupOk(s, u);
    }
    forall u | u in s'.moving ensures MoveGroupOk(s', u) { assert MoveGroupOk(s, u); }
  }

  lemma CloneMembers(s: State, u: Tid, t: Tid, sub: bool)
    requires Inv(s) && Groups(s) && Legal(s, Clone(u, t, sub)) && t !in s.threads
    ensures var s' := CloneStep(s, u, t, sub);
            forall x {:trigger GroupOk(s', x)} :: x in s'.threads ==> GroupOk(s', x)
  {
    var s' := CloneStep(s, u, t, sub);
    assert ThreadOk(s, u) && GroupOk(s, u);
    forall x | x in s'.threads
      ensures GroupOk(s', x)
    {
      if x != t { assert GroupOk(s, x) && ThreadOk(s, x); }
    }
  }

  lemma CloneListGroups(s: State, u: Tid, t: Tid, sub: bool)
    requires Inv(s) && Groups(s) && Legal(s, Clone(u, t, sub)) && t !in s.place && t !in s.threads && t !in s.kids
    ensures var s' := CloneStep(s, u, t, sub);
            forall o {:trigger ListGroupOk(s', o)} :: o in s'.kids ==> ListGroupOk(s', o)
  {
    var s' := CloneStep(s, u, t, sub);
    assert ThreadOk(s, u) && GroupOk(s, u);
    forall o | o in s'.kids
      ensures ListGroupOk(s', o)
    {
      if o != t {
        assert ListGroupOk(s, o) && ListOk(s, o);
        assert t !in s.kids[o];
      }
    }
  }

  lemma CloneGroups(s: State, u: Tid, t: Tid, sub: bool)
    requires Inv(s) && Groups(s) && Legal(s, Clone(u, t, sub))
    ensures Groups(CloneStep(s, u, t, sub))
  {
    var s' := CloneStep(s, u, t, sub);
    FreshThread(s, t);
    CloneMembers(s, u, t, sub);
    CloneListGroups(s, u, t, sub);
    assert ThreadOk(s, u);
    assert s'.kids.Keys == s.kids.Keys + {t} && s'.threads.Keys == s.threads.Keys + {t};
    forall x | x in s'.pending ensures WaitGroupOk(s', x) { assert WaitGroupOk(s, x); }
    forall x | x in s'.moving ensures MoveGroupOk(s', x) { assert MoveGroupOk(s, x) && MovingOk(s, x) && PlaceOk(s, s.moving[x]); }
  }

  /** Taking a thread off list `o`. */
  lemma TakeGroups(s: State, s': State, o: Tid, t: Tid, u: Tid, join: Option<bool>)
    requires Groups(s) && o in s.kids && t in s.kids[o] && u in s.threads && t in s.threads
    requires o == s.threads[u].main && (join == Some(true) ==> u == o) && (join.None? ==> s.threads[t].main == t)
    requires s'.kids == s.kids[o := Except(s.kids[o], t)] && s'.exiting == s.exiting && s'.threads.Keys == s.threads.Keys
    requires forall x :: x in s.threads ==> s'.threads[x].main == s.threads[x].main && s'.threads[x].run == s.threads[x].run
    requires join.Some? ==> s'.pending == s.pending[u := Pending(t, Taken, join.value)] && s'.moving == s.moving
    requires join.None? ==> s'.pending == s.pending && s'.moving == s.moving[u := t]
    ensures Groups(s')
  {
    assert ListGroupOk(s, o) && GroupOk(s, u) && GroupOk(s, t);
    forall x | x in s'.threads ensures GroupOk(s', x) { assert GroupOk(s, x); }
    forall x | x in s'.kids ensures ListGroupOk(s', x) { assert ListGroupOk(s, x); }
    forall x | x in s'.pending
      ensures WaitGroupOk(s', x)
    {
      assert x != u || join.None? ==> WaitGroupOk(s, x);
    }
    forall x | x in s'.moving ensures MoveGroupOk(s', x) { assert x != u || join.Some? ==> MoveGroupOk(s, x); }
  }

  /** Putting a thread on list `o`. */
  lemma GiveGroups(s: State, s': State, o: Tid, t: Tid, u: Tid)
    requires Groups(s) && o in s.kids && t in s.threads
    requires o < t && (s.threads[t].main == t || s.threads[t].main == o) && (o in s.threads ==> s.threads[o].main == o)
    requires s'.kids == s.kids[o := s.kids[o] + [t]] && s'.exiting == s.exiting && s'.threads == s.threads
    requires s'.pending == s.pending - {u} || s'.pending == s.pending
    requires s'.moving == s.moving - {u} || s'.moving == s.moving
    ensures Groups(s')
  {
    forall x | x in s'.threads ensures GroupOk(s', x) { assert GroupOk(s, x); }
    forall x | x in s'.kids ensures ListGroupOk(s', x) { assert ListGroupOk(s, x); }
    forall x | x in s'.pending
      ensures WaitGroupOk(s', x)
    {
      assert WaitGroupOk(s, x);
    }
    forall x | x in s'.moving ensures MoveGroupOk(s', x) { assert MoveGroupOk(s, x); }
  }

  /** Freeing or dropping an exited thread. */
  lemma ReapGroups(s: State, s': State, t: Tid, u: Tid)
    requires Inv(s) && Groups(s) && t in s.threads && s.threads[t].run == Exited
    requires s'.threads == s.threads - {t} || s'.threads == s.threads
    requires s'.exiting == s.exiting && s'.moving == s.moving && s'.kids.Keys == s.kids.Keys
    requires forall o, x :: o in s.kids && x in s'.kids[o] ==> x in s.kids[o]
    requires s'.pending == s.pending - {u} || s'.pending == s.pending
    requires forall x :: x in s'.pending ==> s'.pending[x].target != t
    ensures Groups(s')
  {
    ExitedIsQuiet(s, t);
    assert ThreadOk(s, t);
    forall x | x in s'.threads ensures GroupOk(s', x) { assert GroupOk(s, x); }
    forall o | o in s'.kids
      ensures ListGroupOk(s', o)
    {
      assert ListGroupOk(s, o);
      assert s'.kids[o] != [] ==> s'.kids[o][0] in s'.kids[o];
    }
    forall x | x in s'.pending
      ensures WaitGroupOk(s', x)
    {
      assert WaitGroupOk(s, x);
    }
    forall x | x in s'.moving ensures MoveGroupOk(s', x) { assert MoveGroupOk(s, x); }
  }

  lemma ReturnGroups(s: State, u: Tid)
    requires Inv(s) && Groups(s) && Legal(s, JoinReturn(u))
    ensures Groups(Step(s, JoinReturn(u)))
  {
    var s' := Step(s, JoinReturn(u));
    var p := s.pending[u];
    assert PendingOk(s, u) && ThreadOk(s, u) && WaitGroupOk(s, u) && GroupOk(s, u);
    if !p.phase.ok {
      GiveGroups(s, s', if p.kill then u else MainOf(s, u), p.target, u);
    } else {
      forall x | x in s'.pending
        ensures s'.pending[x].target != p.target
      {
        assert PendingOk(s, x);
      }
      ReapGroups(s, s', p.target, u);
    }
  }

  lemma PopGroups(s: State, u: Tid)
    requires Inv(s) && Groups(s) && Legal(s, KillPop(u))
    ensures Groups(PopStep(s, u))
  {
    var t := s.kids[u][|s.kids[u]| - 1];
    assert ListOk(s, u) && t in s.kids[u] && PlaceOk(s, t);
    KillNoCycle(s, u, t);
    TakeGroups(s, PopStep(s, u), u, t, u, Some(true));
  }

  lemma JoinGroups(s: State, u: Tid, t: Tid)
    requires Inv(s) && Groups(s) && Legal(s, JoinTake(u, t))
    ensures Groups(JoinStep(s, u, t))
  {
    if IsChild(s, u, t) {
      assert ListOk(s, MainOf(s, u)) && PlaceOk(s, t);
      TakeGroups(s, JoinStep(s, u, t), MainOf(s, u), t, u, Some(false));
    }
  }

  lemma DetachGroups(s: State, u: Tid, t: Tid)
    requires Inv(s) && Groups(s) && Legal(s, DetachTake(u, t))
    ensures Groups(DetachStep(s, u, t))
  {
    var s' := DetachStep(s, u, t);
    if s' != s {
      assert ListOk(s, MainOf(s, u)) && PlaceOk(s, t);
      TakeGroups(s, s', MainOf(s, u), t, u, None);
    }
  }

  lemma StepGroups(s: State, op: Op)
    requires Inv(s) && Groups(s) && Legal(s, op) && SafeExit(s, op)
    ensures Groups(Step(s, op))
  {
    if op.Clone? {
      CloneGroups(s, op.u, op.t, op.sub);
    } else if op.DetachTake? {
      DetachGroups(s, op.u, op.t);
    } else if op.JoinTake? {
      JoinGroups(s, op.u, op.t);
    } else if op.KillPop? {
      PopGroups(s, op.u);
    } else if op.DetachGive? || op.JoinReturn? || op.TryJoin? {
      EndStepGroups(s, op);
    } else if op.SeeEmpty? {
      LiveMembersIffCycle(s, op.u);
      FlagsQuiet(s, op);
      QuietStep(s, Step(s, op));
    } else {
      QuietSteps(s, op);
    }
  }

  lemma EndStepGroups(s: State, op: Op)
    requires Inv(s) && Groups(s) && Legal(s, op) && (op.DetachGive? || op.JoinReturn? || op.TryJoin?)
    ensures Groups(Step(s, op))
  {
    if op.DetachGive? {
      DetachGiveGroups(s, op.u);
    } else if op.JoinReturn? {
      ReturnGroups(s, op.u);
    } else {
      TryJoinGroups(s, op.u, op.t);
    }
  }

  lemma DetachGiveGroups(s: State, u: Tid)
    requires Inv(s) && Groups(s) && Legal(s, DetachGive(u))
    ensures Groups(Step(s, DetachGive(u)))
  {
    assert MovingOk(s, u) && PlaceOk(s, s.moving[u]) && MoveGroupOk(s, u);
    assert INIT in s.threads ==> GroupOk(s, INIT);
    GiveGroups(s, Step(s, DetachGive(u)), INIT, s.moving[u], u);
  }

  lemma TryJoinGroups(s: State, u: Tid, t: Tid)
    requires Inv(s) && Groups(s) && Legal(s, TryJoin(u, t))
    ensures Groups(Step(s, TryJoin(u, t)))
  {
    var s' := Step(s, TryJoin(u, t));
    if s' != s {
      assert ListOk(s, MainOf(s, u)) && PlaceOk(s, t);
      forall x | x in s'.pending ensures s'.pending[x].target != t { assert PendingOk(s, x); }
      ReapGroups(s, s', t, u);
    }
  }

  lemma RunQuiet(s: State, t: Tid, r: Run, active: set<Tid>)
    requires t in s.threads && (s.threads[t].run == Exited ==> r == Exited)
    ensures Quiet(s, s.(threads := SetRun(s, t, r), active := active))
  {}

  lemma PhaseQuiet(s: State, u: Tid, r: Run, ph: Phase)
    requires u in s.threads && u in s.pending && s.threads[u].run != Exited
    ensures Quiet(s, WithPhase(s, u, r, ph))
  {}

  lemma VisitGroups(s: State, t: Tid)
    requires Inv(s) && Groups(s) && Legal(s, Visit(t))
    ensures Groups(VisitStep(s, t))
  {
    assert ThreadOk(s, t);
    assert t in s.pending ==> PendingOk(s, t);
    var s' := VisitStep(s, t);
    if s.threads[t].run.Joining? && s' != s {
      PhaseQuiet(s, t, Ready, s'.pending[t].phase);
      QuietStep(s, s');
    } else if s' != s {
      RunQuiet(s, t, s'.threads[t].run, s'.active);
      QuietStep(s, s');
    }
  }

  lemma FlagsQuiet(s: State, op: Op)
    requires Inv(s) && Legal(s, op) && (op.Activate? || op.Flag? || op.Unflag? || op.SeeEmpty?)
    ensures Quiet(s, Step(s, op)) && (!op.SeeEmpty? ==> Step(s, op).exiting == s.exiting)
  {}

  lemma BlockGroups(s: State, u: Tid)
    requires Inv(s) && Groups(s) && Legal(s, Block(u))
    ensures Groups(BlockStep(s, u))
  {
    assert PendingOk(s, u);
    PhaseQuiet(s, u, Joining(s.pending[u].target), Waiting);
    QuietStep(s, BlockStep(s, u));
  }

  lemma QuietSteps(s: State, op: Op)
    requires Inv(s) && Groups(s) && Legal(s, op)
    requires op.Activate? || op.Block? || op.Finish? || op.Visit? || op.Doze? || op.Flag? || op.Unflag?
    ensures Groups(Step(s, op))
  {
    if op.Visit? {
      VisitGroups(s, op.t);
    } else if op.Block? {
      BlockGroups(s, op.u);
    } else if op.Finish? || op.Doze? {
      RunQuiet(s, op.u, if op.Finish? then Finished else Sleeping, s.active);
      QuietStep(s, Step(s, op));
    } else {
      FlagsQuiet(s, op);
      QuietStep(s, Step(s, op));
    }
  }

  // ----- whole runs

  /** No thread is left in a group whose main thread leaves or has left. */
  ghost predicate NoOrphans(s: State) {
    forall m, t :: m in s.exiting ==> !LiveMember(s, m, t)
  }

  ghost predicate SafeExits(ops: seq<Op>, trace: seq<State>) {
    |trace| == |ops| + 1 && forall i :: 0 <= i < |ops| ==> SafeExit(trace[i], ops[i])
  }

  lemma {:induction false} TraceGroups(ops: seq<Op>, trace: seq<State>, k: nat)
    requires IsRun(ops, trace) && SafeExits(ops, trace) && k <= |ops|
    ensures Inv(trace[k]) && Groups(trace[k])
  {
    if k == 0 {
      InitialGroups();
    } else {
      TraceGroups(ops, trace, k - 1);
      var s, op := trace[k - 1], ops[k - 1];
      assert Steps(s, op, trace[k - 1 + 1]) && SafeExit(s, op);
      StepKeeps(s, op);
      StepGroups(s, op);
    }
  }

  lemma InitialGroups()
    ensures Inv(INITIAL) && Groups(INITIAL)
  {
    InitialOk();
    assert GroupOk(INITIAL, INIT) && ListGroupOk(INITIAL, INIT);
  }

  /** A main thread that leaves past a cycle leaves the threads of that cycle behind. */
  lemma CycleOrphans(s: State, op: Op)
    requires Inv(s) && Legal(s, op) && !SafeExit(s, op)
    ensures !NoOrphans(Step(s, op))
  {
    var t :| LiveMember(s, op.u, t) && OnCycle(s, t);
    assert op.u in Step(s, op).exiting && LiveMember(Step(s, op), op.u, t);
  }

  /** In every run: no thread is ever left behind if and only if no main thread finds its child list
      empty while members of its group wait for each other in a cycle. */
  lemma RunNoOrphansIff(ops: seq<Op>, trace: seq<State>)
    requires IsRun(ops, trace)
    ensures (forall k :: 0 <= k <= |ops| ==> NoOrphans(trace[k])) <==> SafeExits(ops, trace)
  {
    if SafeExits(ops, trace) {
      forall k | 0 <= k <= |ops|
        ensures NoOrphans(trace[k])
      {
        TraceGroups(ops, trace, k);
        GroupsNoOrphans(trace[k]);
      }
    } else {
      var i :| 0 <= i < |ops| && !SafeExit(trace[i], ops[i]);
      TraceKeeps(ops, trace, i);
      assert Steps(trace[i], ops[i], trace[i + 1]);
      CycleOrphans(trace[i], ops[i]);
    }
  }

  lemma GroupsNoOrphans(s: State)
    requires Groups(s)
    ensures NoOrphans(s)
  {
    forall m, t | m in s.exiting
      ensures !LiveMember(s, m, t)
    {
      assert t in s.threads ==> GroupOk(s, t);
    }
  }

  /** In those runs the main thread of every thread that has not exited is allocated, whatever exits,
      kills, interrupted joins and detaches happen. */
  lemma RunMainsAllocated(ops: seq<Op>, trace: seq<State>, k: nat)
    requires IsRun(ops, trace) && SafeExits(ops, trace) && k <= |ops|
    ensures MainsAllocated(trace[k])
  {
    TraceGroups(ops, trace, k);
    GroupsGiveMains(trace[k]);
  }

  // ----- a guard on joins is enough

  /** `depth` drops along every join under way, so the waiting threads form no cycle. */
  ghost predicate Ranked(s: State, depth: Tid -> nat) {
    forall u :: u in s.pending ==> depth(u) > depth(s.pending[u].target)
  }

  /** A new join keeps the ranking if its target does not already wait for the caller. */
  lemma NewEdge(s: State, s': State, depth: Tid -> nat, u: Tid, t: Tid, k: bool) returns (depth': Tid -> nat)
    requires Ranked(s, depth) && u !in s.pending && !Reaches(s, t, u)
    requires s'.pending == s.pending[u := Pending(t, Taken, k)]
    ensures Ranked(s', depth')
  {
    depth' := (w: Tid) => depth(w) + if Reaches(s, w, u) then depth(t) + 1 else 0;
    assert Hop(s, u, 0) == Some(u);
    forall w | w in s'.pending
      ensures depth'(w) > depth'(s'.pending[w].target)
    {
      if w != u { ReachStep(s, w, u); }
    }
  }

  lemma {:induction false} HopDrops(s: State, depth: Tid -> nat, a: Tid, n: nat)
    requires Ranked(s, depth) && n > 0 && Hop(s, a, n).Some?
    ensures depth(a) > depth(Hop(s, a, n).value)
  {
    if n > 1 { HopDrops(s, depth, a, n - 1); } else { assert Hop(s, a, 0) == Some(a); }
  }

  lemma RankedIsSafe(s: State, depth: Tid -> nat, op: Op)
    requires Ranked(s, depth)
    ensures SafeExit(s, op)
  {
    forall t: Tid, n: nat | n > 0 && Hop(s, t, n).Some?
      ensures Hop(s, t, n) != Some(t)
    {
      HopDrops(s, depth, t, n);
    }
  }

  /** The target of a join does not already wait for the caller. */
  ghost predicate NoCycle(s: State, op: Op) {
    op.JoinTake? ==> !Reaches(s, op.t, op.u)
  }

  ghost predicate Good(s: State, depth: Tid -> nat) {
    Inv(s) && Groups(s) && Ranked(s, depth)
  }

  /** Edges that stay or go keep the ranking. */
  lemma StepRanked(s: State, op: Op, depth: Tid -> nat) returns (depth': Tid -> nat)
    requires Good(s, depth) && Legal(s, op) && NoCycle(s, op)
    ensures Ranked(Step(s, op), depth')
  {
    var s' := Step(s, op);
    depth' := depth;
    if op.JoinTake? && s' != s {
      depth' := NewEdge(s, s', depth, op.u, op.t, false);
    } else if op.KillPop? {
      var t := s.kids[op.u][|s.kids[op.u]| - 1];
      assert ListOk(s, op.u) && t in s.kids[op.u] && PlaceOk(s, t);
      KillNoCycle(s, op.u, t);
      depth' := NewEdge(s, s', depth, op.u, t, true);
    } else {
      EdgesStay(s, op);
    }
  }

  lemma EdgesStay(s: State, op: Op)
    requires Inv(s) && Legal(s, op) && !op.KillPop? && (op.JoinTake? ==> Step(s, op) == s)
    ensures var s' := Step(s, op);
            forall u :: u in s'.pending ==> u in s.pending && s'.pending[u].target == s.pending[u].target
  {
    if op.Visit? {
      VisitEdges(s, op.t);
    } else if op.Block? {
      assert PendingOk(s, op.u);
    } else if !op.JoinReturn? && !op.JoinTake? {
      SamePending(s, op);
    }
  }

  lemma SamePending(s: State, op: Op)
    requires Inv(s) && Legal(s, op) && !op.KillPop? && !op.JoinTake? && !op.Visit? && !op.Block? && !op.JoinReturn?
    ensures Step(s, op).pending == s.pending
  {}

  lemma VisitEdges(s: State, t: Tid)
    requires Inv(s) && Legal(s, Visit(t))
    ensures var s' := VisitStep(s, t);
            forall u :: u in s'.pending ==> u in s.pending && s'.pending[u].target == s.pending[u].target
  {
    assert ThreadOk(s, t);
  }

  lemma {:induction false} TraceGood(ops: seq<Op>, trace: seq<State>, k: nat) returns (depth: Tid -> nat)
    requires IsRun(ops, trace) && k <= |ops| && forall i :: 0 <= i < |ops| ==> NoCycle(trace[i], ops[i])
    ensures Good(trace[k], depth)
  {
    if k == 0 {
      InitialGroups();
      depth := _ => 0;
    } else {
      var d := TraceGood(ops, trace, k - 1);
      var s, op := trace[k - 1], ops[k - 1];
      assert Steps(s, op, trace[k - 1 + 1]) && NoCycle(s, op);
      StepKeeps(s, op);
      RankedIsSafe(s, d, op);
      StepGroups(s, op);
      depth := StepRanked(s, op, d);
    }
  }

  /** If no join ever closes a cycle, every exit is safe. */
  lemma RunGuardedJoins(ops: seq<Op>, trace: seq<State>)
    requires IsRun(ops, trace) && forall i :: 0 <= i < |ops| ==> NoCycle(trace[i], ops[i])
    ensures SafeExits(ops, trace)
  {
    forall i | 0 <= i < |ops|
      ensures SafeExit(trace[i], ops[i])
    {
      var depth := TraceGood(ops, trace, i);
      RankedIsSafe(trace[i], depth, ops[i]);
    }
  }

  // ----- the condition is needed

  /** A thread that joins itself is on no list, so its main thread sees no
      children, exits, and is freed by the thread that joins it. */
  function SelfJoinRun(): seq<Op> {
    [Clone(1, 2, false), Activate(2), Clone(2, 3, true), Activate(3),
     JoinTake(3, 3), Block(3),
     SeeEmpty(2), Finish(2), Visit(2),
     JoinTake(1, 2), Block(1), Visit(1), JoinReturn(1)]
  }

  /** Process 2 is started, and has a second thread 3; nothing runs yet. */
  const FRESH := State(
    map[1 := Thread(1, Ready, false), 2 := Thread(2, Ready, false)],
    map[1 := [2], 2 := []], map[], map[], {1, 2}, {}, map[2 := InList(1)])

  const FORKED := State(
    map[1 := Thread(1, Ready, false), 2 := Thread(2, Ready, false), 3 := Thread(2, Ready, false)],
    map[1 := [2], 2 := [3], 3 := []], map[], map[], {1, 2, 3}, {},
    map[2 := InList(1), 3 := InList(2)])

  /** Thread 3 waits for itself. */
  const STUCK := State(
    map[1 := Thread(1, Ready, false), 2 := Thread(2, Ready, false), 3 := Thread(2, Joining(3), false)],
    map[1 := [2], 2 := [], 3 := []],
    map[3 := Pending(3, Waiting, false)], map[], {1, 2, 3}, {},
    map[2 := InList(1), 3 := PendingOf(3)])

  /** The main thread is done, and then gone from the active list. */
  const DONE := STUCK.(threads := STUCK.threads[2 := Thread(2, Finished, false)], exiting := {2})

  const LEFT := STUCK.(
    threads := STUCK.threads[2 := Thread(2, Exited, false)], active := {1, 3}, exiting := {2})

  const STARTED := FRESH.(active := {1})

  lemma StartResult()
    requires Inv(INITIAL)
    ensures Legal(INITIAL, SelfJoinRun()[0]) && Step(INITIAL, SelfJoinRun()[0]) == STARTED
  {
    var s1 := Step(INITIAL, SelfJoinRun()[0]);
    assert s1.kids[1] == [2] && s1.kids[2] == [] && s1.kids == FRESH.kids;
    assert s1.threads == FRESH.threads && s1.place == FRESH.place;
  }

  lemma FreshResult()
    requires Inv(STARTED)
    ensures Legal(STARTED, SelfJoinRun()[1]) && Step(STARTED, SelfJoinRun()[1]) == FRESH
  {
    assert Step(STARTED, SelfJoinRun()[1]).active == FRESH.active;
  }

  lemma SelfJoinStart()
    ensures After(SelfJoinRun(), 2, FRESH) && Inv(FRESH)
  {
    InitialOk();
    NoSteps(SelfJoinRun());
    StartResult();
    Reach(SelfJoinRun(), 0, INITIAL, STARTED);
    FreshResult();
    Reach(SelfJoinRun(), 1, STARTED, FRESH);
  }

  const CLONED := FORKED.(active := {1, 2})

  lemma CloneResult()
    requires Inv(FRESH)
    ensures Legal(FRESH, SelfJoinRun()[2]) && Step(FRESH, SelfJoinRun()[2]) == CLONED
  {
    var s3 := Step(FRESH, SelfJoinRun()[2]);
    assert s3.kids[1] == [2] && s3.kids[2] == [3] && s3.kids[3] == [] && s3.kids == FORKED.kids;
    assert s3.threads == FORKED.threads && s3.place == FORKED.place;
  }

  lemma SelfJoinClone()
    requires After(SelfJoinRun(), 2, FRESH) && Inv(FRESH)
    ensures After(SelfJoinRun(), 3, CLONED) && Inv(CLONED)
  {
    CloneResult();
    Reach(SelfJoinRun(), 2, FRESH, CLONED);
  }

  lemma SelfJoinActivate()
    requires After(SelfJoinRun(), 3, CLONED) && Inv(CLONED)
    ensures After(SelfJoinRun(), 4, FORKED) && Inv(FORKED)
  {
    var s4 := Next(SelfJoinRun(), 3, CLONED);
    assert s4.active == FORKED.active;
  }

  const TAKEN := STUCK.(threads := FORKED.threads, pending := map[3 := Pending(3, Taken, false)])

  lemma TakeResult()
    requires Inv(FORKED)
    ensures Legal(FORKED, SelfJoinRun()[4]) && Step(FORKED, SelfJoinRun()[4]) == TAKEN
  {
    ExceptSingle(3);
    var s5 := Step(FORKED, SelfJoinRun()[4]);
    assert s5.kids == TAKEN.kids && s5.place == TAKEN.place && s5.pending == TAKEN.pending;
  }

  lemma SelfJoinTake()
    requires After(SelfJoinRun(), 4, FORKED) && Inv(FORKED)
    ensures After(SelfJoinRun(), 5, TAKEN) && Inv(TAKEN)
  {
    TakeResult();
    Reach(SelfJoinRun(), 4, FORKED, TAKEN);
  }

  lemma WaitResult()
    requires Inv(TAKEN)
    ensures Legal(TAKEN, SelfJoinRun()[5]) && Step(TAKEN, SelfJoinRun()[5]) == STUCK
  {
    var s6 := Step(TAKEN, SelfJoinRun()[5]);
    assert s6.threads == STUCK.threads && s6.pending == STUCK.pending;
  }

  lemma SelfJoinWait()
    requires After(SelfJoinRun(), 5, TAKEN) && Inv(TAKEN)
    ensures After(SelfJoinRun(), 6, STUCK) && Inv(STUCK)
  {
    WaitResult();
    Reach(SelfJoinRun(), 5, TAKEN, STUCK);
  }

  lemma SelfJoinSeesNone()
    requires After(SelfJoinRun(), 6, STUCK) && Inv(STUCK)
    ensures After(SelfJoinRun(), 7, STUCK.(exiting := {2})) && Inv(STUCK.(exiting := {2}))
  {
    var s7 := Next(SelfJoinRun(), 6, STUCK);
    assert s7.exiting == {2};
  }

  lemma SelfJoinExit()
    requires After(SelfJoinRun(), 7, STUCK.(exiting := {2})) && Inv(STUCK.(exiting := {2}))
    ensures After(SelfJoinRun(), 8, DONE) && Inv(DONE)
  {
    var s8 := Next(SelfJoinRun(), 7, STUCK.(exiting := {2}));
    assert s8.threads == DONE.threads;
  }

  lemma LeaveResult()
    requires Inv(DONE)
    ensures Legal(DONE, SelfJoinRun()[8]) && Step(DONE, SelfJoinRun()[8]) == LEFT
  {
    var s9 := Step(DONE, SelfJoinRun()[8]);
    assert s9.threads == LEFT.threads && s9.active == LEFT.active;
  }

  lemma SelfJoinLeave()
    requires After(SelfJoinRun(), 8, DONE) && Inv(DONE)
    ensures After(SelfJoinRun(), 9, LEFT) && Inv(LEFT)
  {
    LeaveResult();
    Reach(SelfJoinRun(), 8, DONE, LEFT);
  }

  lemma SelfJoinTakeMain() returns (s10: State)
    requires After(SelfJoinRun(), 9, LEFT) && Inv(LEFT)
    ensures After(SelfJoinRun(), 10, s10) && Inv(s10) && s10.threads == LEFT.threads && s10.active == LEFT.active
    ensures 1 in s10.pending && s10.pending[1] == Pending(2, Taken, false)
  {
    s10 := Next(SelfJoinRun(), 9, LEFT);
  }

  lemma SelfJoinBlock(s10: State) returns (s11: State)
    requires After(SelfJoinRun(), 10, s10) && Inv(s10) && s10.threads == LEFT.threads && s10.active == LEFT.active
    requires 1 in s10.pending && s10.pending[1] == Pending(2, Taken, false)
    ensures After(SelfJoinRun(), 11, s11) && Inv(s11) && s11.threads == LEFT.threads[1 := Thread(1, Joining(2), false)]
    ensures s11.active == LEFT.active && 1 in s11.pending && s11.pending[1] == Pending(2, Waiting, false)
  {
    s11 := Next(SelfJoinRun(), 10, s10);
  }

  lemma SelfJoinReturn(s11: State) returns (s12: State)
    requires After(SelfJoinRun(), 11, s11) && Inv(s11) && s11.threads == LEFT.threads[1 := Thread(1, Joining(2), false)]
    requires s11.active == LEFT.active && 1 in s11.pending && s11.pending[1] == Pending(2, Waiting, false)
    ensures After(SelfJoinRun(), 12, s12) && Inv(s12) && s12.threads == LEFT.threads
    ensures 1 in s12.pending && s12.pending[1] == Pending(2, Woken(true), false)
  {
    s12 := Next(SelfJoinRun(), 11, s11);
    MainJoined(s11);
  }

  lemma MainJoined(s: State)
    requires Inv(s) && Legal(s, Visit(1)) && s.threads == LEFT.threads[1 := Thread(1, Joining(2), false)]
    requires 1 in s.pending && s.pending[1] == Pending(2, Waiting, false)
    ensures var s' := VisitStep(s, 1);
            s'.threads == LEFT.threads && 1 in s'.pending && s'.pending[1] == Pending(2, Woken(true), false)
  {}

  lemma SelfJoinFree(s12: State) returns (s13: State)
    requires After(SelfJoinRun(), 12, s12) && Inv(s12) && s12.threads == LEFT.threads
    requires 1 in s12.pending && s12.pending[1] == Pending(2, Woken(true), false)
    ensures After(SelfJoinRun(), 13, s13) && !MainsAllocated(s13)
  {
    s13 := Next(SelfJoinRun(), 12, s12);
    assert 2 !in s13.threads && 3 in s13.threads && s13.threads[3].main == 2 && s13.threads[3].run == Joining(3);
  }

  lemma SelfJoinEnd() returns (s13: State)
    requires After(SelfJoinRun(), 9, LEFT) && Inv(LEFT)
    ensures After(SelfJoinRun(), 13, s13) && !MainsAllocated(s13)
  {
    var s10 := SelfJoinTakeMain();
    var s11 := SelfJoinBlock(s10);
    var s12 := SelfJoinReturn(s11);
    s13 := SelfJoinFree(s12);
  }

  lemma SelfJoinToFive()
    ensures After(SelfJoinRun(), 4, FORKED) && After(SelfJoinRun(), 5, TAKEN) && Inv(TAKEN)
  {
    SelfJoinStart();
    SelfJoinClone();
    SelfJoinActivate();
    SelfJoinTake();
  }

  lemma SelfJoinToNine()
    ensures After(SelfJoinRun(), 4, FORKED) && After(SelfJoinRun(), 6, STUCK)
    ensures After(SelfJoinRun(), 9, LEFT) && Inv(LEFT)
  {
    SelfJoinToFive();
    SelfJoinWait();
    SelfJoinSeesNone();
    SelfJoinExit();
    SelfJoinLeave();
  }

  lemma SelfJoinLast() returns (s13: State)
    ensures After(SelfJoinRun(), 4, FORKED) && After(SelfJoinRun(), 6, STUCK) && After(SelfJoinRun(), 9, LEFT)
    ensures After(SelfJoinRun(), 13, s13) && !MainsAllocated(s13)
  {
    SelfJoinToNine();
    s13 := SelfJoinEnd();
  }

  /** Its fifth step is the only join that closes a cycle, and its seventh leaves past it. */
  lemma SelfJoinBreaksMains() returns (trace: seq<State>)
    ensures IsRun(SelfJoinRun(), trace) && !MainsAllocated(trace[13])
    ensures After(SelfJoinRun(), 4, FORKED) && !NoCycle(FORKED, JoinTake(3, 3))
    ensures After(SelfJoinRun(), 6, STUCK) && !SafeExit(STUCK, SeeEmpty(2))
    ensures After(SelfJoinRun(), 9, LEFT) && NoCycle(LEFT, JoinTake(1, 2))
  {
    var s13 := SelfJoinLast();
    SelfJoinIsTheCycle();
    SelfJoinIsUnsafe();
    trace := TraceTo(s13);
  }

  lemma TraceTo(s13: State) returns (trace: seq<State>)
    requires After(SelfJoinRun(), 13, s13)
    ensures IsRun(SelfJoinRun(), trace) && trace[13] == s13
  {
    assert SelfJoinRun()[..13] == SelfJoinRun();
    trace :| IsRun(SelfJoinRun(), trace) && trace[13] == s13;
  }

  lemma SelfJoinIsUnsafe()
    ensures !SafeExit(STUCK, SeeEmpty(2))
  {
    assert Hop(STUCK, 3, 0) == Some(3) && Hop(STUCK, 3, 1) == Some(3);
    assert LiveMember(STUCK, 2, 3) && OnCycle(STUCK, 3);
  }

  lemma SelfJoinIsTheCycle()
    ensures !NoCycle(FORKED, JoinTake(3, 3)) && NoCycle(LEFT, JoinTake(1, 2))
  {
    HopStuck1(LEFT);
    assert Hop(FORKED, 3, 0) == Some(3);
  }

  lemma HopStuck1(s: State)
    requires 2 !in s.pending
    ensures !Reaches(s, 2, 1)
  {
    forall n: nat
      ensures Hop(s, 2, n) != Some(1)
    {
      if n > 0 { HopStuck(s, 2, n); }
    }
  }
}
