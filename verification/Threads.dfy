/** Who owns a thread: every thread but the init thread is in one child list, or the target of one
    join that is under way, or on its way to the init thread's list, or reaped. The steps are the
    lock-protected sections of the scheduler; UpdateEvents looks at one thread per step.
 */
module Threads {
  import opened Sequences

  type Tid = nat

  const INIT: Tid := 1

  datatype Run = Ready | Sleeping | Joining(target: Tid) | Finished | Exited

  datatype Thread = Thread(main: Tid, run: Run, flagged: bool)   // flagged: a kill or abort is pending

  /** A join under way: the target is off the child list, the caller blocks, is woken, returns.
      `kill` marks the joins of a thread that is exiting and waits for its children. */
  datatype Phase = Taken | Waiting | Woken(ok: bool)
  datatype Pending = Pending(target: Tid, phase: Phase, kill: bool)

  /** Where a thread is; `Dropped` ones were waited for by an exiting parent and are never freed. */
  datatype Place = InList(owner: Tid) | PendingOf(caller: Tid) | MovedBy(caller: Tid) | Dropped | Freed

  datatype State = State(
    threads: map<Tid, Thread>,       // allocated ThreadInfos
    kids: map<Tid, seq<Tid>>,        // child lists, in order
    pending: map<Tid, Pending>,      // by calling thread
    moving: map<Tid, Tid>,           // threads taken by a detach, by calling thread
    active: set<Tid>,                // on some active list
    exiting: set<Tid>,               // found their child list empty on the way out
    place: map<Tid, Place>)          // the bookkeeping the invariant is about

  datatype Op =
    | Clone(u: Tid, t: Tid, sub: bool)
    | Activate(t: Tid)
    | DetachTake(u: Tid, t: Tid)
    | DetachGive(u: Tid)
    | JoinTake(u: Tid, t: Tid)
    | Block(u: Tid)
    | JoinReturn(u: Tid)
    | TryJoin(u: Tid, t: Tid)
    | KillPop(u: Tid)
    | SeeEmpty(u: Tid)
    | Finish(u: Tid)
    | Visit(t: Tid)
    | Doze(u: Tid)
    | Flag(t: Tid)
    | Unflag(t: Tid)

  /** Thread `u` runs and is not in the middle of a join, a detach or its exit. */
  predicate Running(s: State, u: Tid) {
    u in s.threads && s.threads[u].run == Ready && u !in s.pending && u !in s.moving && u !in s.exiting
  }

  // ----- the invariant, thread by thread

  ghost predicate ListOk(s: State, o: Tid)
    requires o in s.kids
  {
    NoDup(s.kids[o]) && forall t :: t in s.kids[o] <==> t in s.place && s.place[t] == InList(o)
  }

  ghost predicate PendingOk(s: State, u: Tid)
    requires u in s.pending
  {
    var p := s.pending[u];
    && p.target in s.place && s.place[p.target] == PendingOf(u)
    && p.target in s.threads
    && u in s.threads && u !in s.exiting && u !in s.moving
    && s.threads[u].run == (if p.phase == Waiting then Joining(p.target) else Ready)
    && (p.phase == Woken(true) ==> s.threads[p.target].run == Exited)
  }

  ghost predicate MovingOk(s: State, u: Tid)
    requires u in s.moving
  {
    && s.moving[u] in s.place && s.place[s.moving[u]] == MovedBy(u)
    && u in s.threads && s.threads[u].run == Ready && u !in s.exiting
  }

  ghost predicate PlaceOk(s: State, t: Tid)
    requires t in s.place
  {
    match s.place[t]
    case InList(o) => o in s.kids && t in s.kids[o] && t in s.threads
    case PendingOf(u) => u in s.pending && s.pending[u].target == t && t in s.threads
    case MovedBy(u) => u in s.moving && s.moving[u] == t && t in s.threads
    case Dropped => t in s.threads && s.threads[t].run == Exited
    case Freed => t !in s.threads
  }

  ghost predicate ThreadOk(s: State, t: Tid)
    requires t in s.threads
  {
    && t in s.kids && s.threads[t].main in s.kids && (t == INIT || t in s.place)
    && (s.threads[t].run == Exited ==> t !in s.active)
    && (s.threads[t].run.Joining? ==> t in s.pending)
    && (t in s.exiting ==> s.threads[t].run == Ready || s.threads[t].run == Finished || s.threads[t].run == Exited)
    && (s.threads[t].run == Finished || s.threads[t].run == Exited ==> t in s.exiting)
  }

  ghost predicate Inv(s: State) {
    && INIT in s.kids && INIT !in s.place
    && s.active <= s.threads.Keys && s.exiting <= s.kids.Keys
    && (forall t :: t in s.place ==> t in s.kids)
    && (forall o {:trigger ListOk(s, o)} :: o in s.kids ==> ListOk(s, o))
    && (forall u {:trigger PendingOk(s, u)} :: u in s.pending ==> PendingOk(s, u))
    && (forall u {:trigger MovingOk(s, u)} :: u in s.moving ==> MovingOk(s, u))
    && (forall t {:trigger PlaceOk(s, t)} :: t in s.place ==> PlaceOk(s, t))
    && (forall t {:trigger ThreadOk(s, t)} :: t in s.threads ==> ThreadOk(s, t))
  }

  // ----- the steps

  predicate Legal(s: State, op: Op) {
    match op
    case Clone(u, t, _) => Running(s, u) && forall x :: x in s.kids ==> x < t      // ids are counted up
    case Activate(t) => t in s.threads && t !in s.active && s.threads[t].run == Ready
    case DetachTake(u, _) => Running(s, u)
    case DetachGive(u) => u in s.moving
    case JoinTake(u, _) => Running(s, u)
    case Block(u) => u in s.pending && s.pending[u].phase == Taken
    case JoinReturn(u) => u in s.pending && s.pending[u].phase.Woken?
    case TryJoin(u, _) => Running(s, u)
    case KillPop(u) => Running(s, u) && u in s.kids && s.kids[u] != []
    case SeeEmpty(u) => Running(s, u) && u in s.kids && s.kids[u] == []
    case Finish(u) => u in s.exiting && u in s.threads && s.threads[u].run == Ready
    case Visit(t) => t in s.active
    case Doze(u) => Running(s, u)
    case Flag(t) => t in s.threads
    case Unflag(t) => t in s.threads
  }

  function SetRun(s: State, t: Tid, r: Run): map<Tid, Thread>
    requires t in s.threads
  {
    s.threads[t := s.threads[t].(run := r)]
  }

  function MainOf(s: State, u: Tid): Tid
    requires u in s.threads
  {
    s.threads[u].main
  }

  /** The child of `u`'s main thread with this id, if it has one: detach and the joins look there. */
  predicate IsChild(s: State, u: Tid, t: Tid)
    requires u in s.threads
  {
    MainOf(s, u) in s.kids && t in s.kids[MainOf(s, u)]
  }

  function Unlisted(s: State, o: Tid, t: Tid, p: Place): State
    requires o in s.kids
  {
    s.(kids := s.kids[o := Except(s.kids[o], t)], place := s.place[t := p])
  }

  function Listed(s: State, o: Tid, t: Tid): State
    requires o in s.kids
  {
    s.(kids := s.kids[o := s.kids[o] + [t]], place := s.place[t := InList(o)])
  }

  ghost function CloneStep(s: State, u: Tid, t: Tid, sub: bool): State
    requires Inv(s) && Legal(s, Clone(u, t, sub))
  {
    assert ThreadOk(s, u);
    var o := MainOf(s, u);
    Listed(s.(threads := s.threads[t := Thread(if sub then o else t, Ready, false)], kids := s.kids[t := []]), o, t)
  }

  ghost function DetachStep(s: State, u: Tid, t: Tid): State
    requires Inv(s) && Legal(s, DetachTake(u, t))
  {
    if !IsChild(s, u, t) then s
    else
      assert ListOk(s, MainOf(s, u)) && PlaceOk(s, t);
      if MainOf(s, t) != t then s
      else Unlisted(s, MainOf(s, u), t, MovedBy(u)).(moving := s.moving[u := t])
  }

  ghost function JoinStep(s: State, u: Tid, t: Tid): State
    requires Inv(s) && Legal(s, JoinTake(u, t))
  {
    if !IsChild(s, u, t) then s
    else Unlisted(s, MainOf(s, u), t, PendingOf(u)).(pending := s.pending[u := Pending(t, Taken, false)])
  }

  ghost function BlockStep(s: State, u: Tid): State
    requires Inv(s) && Legal(s, Block(u))
  {
    assert PendingOk(s, u);
    s.(threads := SetRun(s, u, Joining(s.pending[u].target)), pending := s.pending[u := s.pending[u].(phase := Waiting)])
  }

  ghost function ReturnStep(s: State, u: Tid): State
    requires Inv(s) && Legal(s, JoinReturn(u))
  {
    assert PendingOk(s, u) && ThreadOk(s, u);
    var p := s.pending[u];
    var s1 := s.(pending := s.pending - {u});
    if !p.phase.ok then Listed(s1, if p.kill then u else MainOf(s, u), p.target)
    else if p.kill then s1.(place := s.place[p.target := Dropped])
    else s1.(threads := s.threads - {p.target}, place := s.place[p.target := Freed])
  }

  ghost function TryStep(s: State, u: Tid, t: Tid): State
    requires Inv(s) && Legal(s, TryJoin(u, t))
  {
    if !IsChild(s, u, t) then s
    else
      assert ListOk(s, MainOf(s, u)) && PlaceOk(s, t);
      if s.threads[t].run != Exited then s
      else Unlisted(s, MainOf(s, u), t, Freed).(threads := s.threads - {t})
  }

  ghost function PopStep(s: State, u: Tid): State
    requires Inv(s) && Legal(s, KillPop(u))
  {
    var t := s.kids[u][|s.kids[u]| - 1];
    assert ListOk(s, u) && t in s.kids[u] && PlaceOk(s, t);
    Unlisted(s, u, t, PendingOf(u)).(threads := s.threads[t := s.threads[t].(flagged := true)],
                                     pending := s.pending[u := Pending(t, Taken, true)])
  }

  /** UpdateEvents at one thread of the list; sleepers are visited when their time is up. */
  ghost function VisitStep(s: State, t: Tid): State
    requires Inv(s) && Legal(s, Visit(t))
  {
    match s.threads[t].run
    case Ready => s
    case Sleeping => s.(threads := SetRun(s, t, Ready))
    case Joining(x) =>
      assert ThreadOk(s, t) && PendingOk(s, t);
      if s.threads[t].flagged then
        s.(threads := SetRun(s, t, Ready), pending := s.pending[t := s.pending[t].(phase := Woken(false))])
      else if s.threads[x].run == Exited then
        s.(threads := SetRun(s, t, Ready), pending := s.pending[t := s.pending[t].(phase := Woken(true))])
      else s
    case Finished => s.(threads := SetRun(s, t, Exited), active := s.active - {t})
    case Exited => s
  }

  ghost function Step(s: State, op: Op): State
    requires Inv(s) && Legal(s, op)
  {
    match op
    case Clone(u, t, sub) => CloneStep(s, u, t, sub)
    case Activate(t) => s.(active := s.active + {t})
    case DetachTake(u, t) => DetachStep(s, u, t)
    case DetachGive(u) => Listed(s, INIT, s.moving[u]).(moving := s.moving - {u})
    case JoinTake(u, t) => JoinStep(s, u, t)
    case Block(u) => BlockStep(s, u)
    case JoinReturn(u) => ReturnStep(s, u)
    case TryJoin(u, t) => TryStep(s, u, t)
    case KillPop(u) => PopStep(s, u)
    case SeeEmpty(u) => s.(exiting := s.exiting + {u})
    case Finish(u) => s.(threads := SetRun(s, u, Finished))
    case Visit(t) => VisitStep(s, t)
    case Doze(u) => s.(threads := SetRun(s, u, Sleeping))
    case Flag(t) => s.(threads := s.threads[t := s.threads[t].(flagged := true)])
    case Unflag(t) => s.(threads := s.threads[t := s.threads[t].(flagged := false)])
  }

  // ----- every step keeps the invariant

  /** What is left to show when the threads that exist, the lists and the places stay as they are. */
  lemma SameListsKeeps(s: State, s': State)
    requires Inv(s) && s'.kids == s.kids && s'.place == s.place && s'.threads.Keys == s.threads.Keys
    requires s'.active <= s.threads.Keys && s'.exiting <= s.kids.Keys
    requires s'.moving == s.moving && s'.pending.Keys == s.pending.Keys
    requires forall u :: u in s.pending ==> s'.pending[u].target == s.pending[u].target
    requires forall t :: t in s.threads ==> s'.threads[t].main == s.threads[t].main
    requires forall t :: t in s.threads && s.threads[t].run == Exited ==> s'.threads[t].run == Exited
    requires forall t {:trigger ThreadOk(s', t)} :: t in s.threads ==> ThreadOk(s', t)
    requires forall u {:trigger PendingOk(s', u)} :: u in s.pending ==> PendingOk(s', u)
    requires forall u {:trigger MovingOk(s', u)} :: u in s.moving ==> MovingOk(s', u)
    ensures Inv(s')
  {
    forall o | o in s'.kids ensures ListOk(s', o) { assert ListOk(s, o); }
    forall t | t in s'.place ensures PlaceOk(s', t) { assert PlaceOk(s, t); }
  }

  lemma BlockKeeps(s: State, u: Tid)
    requires Inv(s) && Legal(s, Block(u))
    ensures Inv(Step(s, Block(u)))
  {
    assert PendingOk(s, u);
    PhaseKeeps(s, u, Joining(s.pending[u].target), Waiting);
  }

  function WithPhase(s: State, u: Tid, r: Run, ph: Phase): State
    requires u in s.threads && u in s.pending
  {
    s.(threads := SetRun(s, u, r), pending := s.pending[u := s.pending[u].(phase := ph)])
  }

  /** The caller of a join under way blocks or is woken. */
  ghost predicate PhaseChange(s: State, u: Tid, r: Run, ph: Phase) {
    && Inv(s) && u in s.threads && u in s.pending
    && (r == if ph == Waiting then Joining(s.pending[u].target) else Ready)
    && (ph == Woken(true) ==> s.pending[u].target in s.threads && s.threads[s.pending[u].target].run == Exited)
  }

  lemma PhaseThreads(s: State, u: Tid, r: Run, ph: Phase)
    requires PhaseChange(s, u, r, ph)
    ensures forall t :: t in s.threads ==> ThreadOk(WithPhase(s, u, r, ph), t)
  {
    var s' := WithPhase(s, u, r, ph);
    assert PendingOk(s, u);
    forall t | t in s.threads ensures ThreadOk(s', t) { assert ThreadOk(s, t); }
  }

  lemma PhasePendings(s: State, u: Tid, r: Run, ph: Phase)
    requires PhaseChange(s, u, r, ph)
    ensures forall x :: x in s.pending ==> PendingOk(WithPhase(s, u, r, ph), x)
  {
    var s' := WithPhase(s, u, r, ph);
    assert PendingOk(s, u);
    forall x | x in s.pending
      ensures PendingOk(s', x)
    {
      assert PendingOk(s, x);
      assert s.pending[x].target == u ==> s.threads[u].run != Exited;
    }
  }

  lemma PhaseKeeps(s: State, u: Tid, r: Run, ph: Phase)
    requires PhaseChange(s, u, r, ph)
    ensures Inv(WithPhase(s, u, r, ph))
  {
    var s' := WithPhase(s, u, r, ph);
    assert PendingOk(s, u);
    PhaseThreads(s, u, r, ph);
    PhasePendings(s, u, r, ph);
    forall x | x in s.moving ensures MovingOk(s', x) { assert MovingOk(s, x); }
    SameListsKeeps(s, s');
  }

  /** A thread that is in no join and no detach changes how it runs; exited threads stay exited. */
  ghost predicate Rerun(s: State, t: Tid, r: Run, active: set<Tid>) {
    && Inv(s) && t in s.threads && t !in s.pending && t !in s.moving && s.threads[t].run != Exited
    && !r.Joining? && active <= s.threads.Keys
    && (r == Finished || r == Exited ==> t in s.exiting)
    && (t in s.exiting ==> r == Ready || r == Finished || r == Exited)
    && (active == s.active || active == s.active - {t})
    && (r == Exited ==> t !in active)
  }

  lemma RerunThreads(s: State, t: Tid, r: Run, active: set<Tid>)
    requires Rerun(s, t, r, active)
    ensures var s' := s.(threads := SetRun(s, t, r), active := active);
            forall x {:trigger ThreadOk(s', x)} :: x in s.threads ==> ThreadOk(s', x)
  {
    var s' := s.(threads := SetRun(s, t, r), active := active);
    forall x | x in s.threads ensures ThreadOk(s', x) { assert ThreadOk(s, x); }
  }

  lemma RunKeeps(s: State, t: Tid, r: Run, active: set<Tid>)
    requires Rerun(s, t, r, active)
    ensures Inv(s.(threads := SetRun(s, t, r), active := active))
  {
    var s' := s.(threads := SetRun(s, t, r), active := active);
    RerunThreads(s, t, r, active);
    forall x | x in s.pending ensures PendingOk(s', x) { assert PendingOk(s, x); }
    forall x | x in s.moving ensures MovingOk(s', x) { assert MovingOk(s, x); }
    SameListsKeeps(s, s');
  }

  lemma VisitKeeps(s: State, t: Tid)
    requires Inv(s) && Legal(s, Visit(t))
    ensures Inv(Step(s, Visit(t)))
  {
    assert ThreadOk(s, t);
    assert t in s.pending ==> PendingOk(s, t);
    assert t in s.moving ==> MovingOk(s, t);
    match s.threads[t].run {
      case Sleeping => RunKeeps(s, t, Ready, s.active);
      case Joining(x) =>
        if s.threads[t].flagged { PhaseKeeps(s, t, Ready, Woken(false)); }
        else if s.threads[x].run == Exited { PhaseKeeps(s, t, Ready, Woken(true)); }
      case Finished => RunKeeps(s, t, Exited, s.active - {t});
      case _ =>
    }
  }

  /** Changes that touch neither the lists nor how threads run. */
  lemma SameRunsKeeps(s: State, s': State)
    requires Inv(s) && s'.kids == s.kids && s'.place == s.place && s'.pending == s.pending && s'.moving == s.moving
    requires s'.threads.Keys == s.threads.Keys && s'.active <= s.threads.Keys && s.exiting <= s'.exiting <= s.kids.Keys
    requires forall t :: t in s.threads ==> s'.threads[t].main == s.threads[t].main && s'.threads[t].run == s.threads[t].run
    requires forall t :: t in s'.active && t !in s.active ==> s.threads[t].run == Ready
    requires forall t :: t in s'.exiting && t !in s.exiting ==> t in s.threads && s.threads[t].run == Ready && t !in s.pending && t !in s.moving
    ensures Inv(s')
  {
    forall t | t in s.threads ensures ThreadOk(s', t) { assert ThreadOk(s, t); }
    forall u | u in s.pending ensures PendingOk(s', u) { assert PendingOk(s, u); }
    forall u | u in s.moving ensures MovingOk(s', u) { assert MovingOk(s, u); }
    SameListsKeeps(s, s');
  }

  lemma FlagsKeep(s: State, op: Op)
    requires Inv(s) && Legal(s, op) && (op.Activate? || op.SeeEmpty? || op.Flag? || op.Unflag?)
    ensures Inv(Step(s, op))
  {
    if op.SeeEmpty? {
      LeaveKeeps(s, op.u);
    } else {
      SameRunsKeeps(s, Step(s, op));
    }
  }

  lemma LeaveKeeps(s: State, u: Tid)
    requires Inv(s) && Legal(s, SeeEmpty(u))
    ensures Inv(s.(exiting := s.exiting + {u}))
  {
    assert ThreadOk(s, u);
    SameRunsKeeps(s, s.(exiting := s.exiting + {u}));
  }

  lemma FreshThread(s: State, t: Tid)
    requires Inv(s) && forall x :: x in s.kids ==> x < t
    ensures t !in s.place && t !in s.threads && t !in s.kids && t !in s.pending && t !in s.moving
    ensures forall y :: y in s.place ==> s.place[y] != InList(t)
  {
    assert t in s.threads ==> ThreadOk(s, t);
    assert t in s.pending ==> PendingOk(s, t);
    assert t in s.moving ==> MovingOk(s, t);
    forall y | y in s.place ensures s.place[y] != InList(t) { assert PlaceOk(s, y); }
  }

  lemma CloneLists(s: State, u: Tid, t: Tid, sub: bool)
    requires Inv(s) && Legal(s, Clone(u, t, sub))
    ensures var s' := CloneStep(s, u, t, sub);
            && (forall x :: x in s'.kids ==> ListOk(s', x)) && (forall x :: x in s'.place ==> PlaceOk(s', x))
  {
    var s' := CloneStep(s, u, t, sub);
    assert ThreadOk(s, u);
    FreshThread(s, t);
    forall x | x in s'.kids ensures ListOk(s', x) { assert x != t ==> ListOk(s, x); }
    forall x | x in s'.place ensures PlaceOk(s', x) { assert x != t ==> PlaceOk(s, x); }
  }

  lemma CloneKeeps(s: State, u: Tid, t: Tid, sub: bool)
    requires Inv(s) && Legal(s, Clone(u, t, sub))
    ensures Inv(CloneStep(s, u, t, sub))
  {
    var s' := CloneStep(s, u, t, sub);
    assert ThreadOk(s, u);
    FreshThread(s, t);
    CloneLists(s, u, t, sub);
    forall x | x in s'.pending ensures PendingOk(s', x) { assert PendingOk(s, x); }
    forall x | x in s'.moving ensures MovingOk(s', x) { assert MovingOk(s, x); }
    forall x | x in s'.threads ensures ThreadOk(s', x) { assert x != t ==> ThreadOk(s, x); }
  }

  /** Threads that stay, run as before and have the same lists around them. */
  lemma ThreadsStay(s: State, s': State)
    requires forall t {:trigger ThreadOk(s, t)} :: t in s.threads ==> ThreadOk(s, t)
    requires s'.kids.Keys == s.kids.Keys && s.place.Keys <= s'.place.Keys && s'.active == s.active && s'.exiting == s.exiting
    requires forall x :: x in s'.threads ==> x in s.threads && s'.threads[x].main == s.threads[x].main && s'.threads[x].run == s.threads[x].run
    requires forall x :: x in s'.threads && x in s.pending && x !in s'.pending ==> !s.threads[x].run.Joining?
    ensures forall x {:trigger ThreadOk(s', x)} :: x in s'.threads ==> ThreadOk(s', x)
  {
    forall x | x in s'.threads ensures ThreadOk(s', x) { assert ThreadOk(s, x); }
  }

  // What stays when only thread `t` changes its place.

  ghost predicate OnlyMoves(s: State, s': State, t: Tid) {
    && t in s.place && t in s'.place && s'.place == s.place[t := s'.place[t]] && s'.exiting == s.exiting
    && (forall x :: x in s.threads && x != t ==> x in s'.threads && s'.threads[x].run == s.threads[x].run)
    && (forall x :: x in s'.threads ==> x in s.threads)
    && t in s.threads && (t in s'.threads ==> s'.threads[t].run == s.threads[t].run)
    && (t !in s'.threads ==> s.threads[t].run == Exited)
  }

  lemma PendingsStay(s: State, s': State, t: Tid)
    requires OnlyMoves(s, s', t) && forall u {:trigger PendingOk(s, u)} :: u in s.pending ==> PendingOk(s, u)
    requires forall u :: u in s'.moving && u in s.pending ==> u in s.moving
    ensures forall u {:trigger PendingOk(s', u)} :: u in s.pending && u in s'.pending && s'.pending[u] == s.pending[u] && s.place[t] != PendingOf(u) ==> PendingOk(s', u)
  {
    forall u | u in s.pending && u in s'.pending && s'.pending[u] == s.pending[u] && s.place[t] != PendingOf(u)
      ensures PendingOk(s', u)
    {
      assert PendingOk(s, u);
    }
  }

  lemma MovingsStay(s: State, s': State, t: Tid)
    requires OnlyMoves(s, s', t) && forall u {:trigger MovingOk(s, u)} :: u in s.moving ==> MovingOk(s, u)
    ensures forall u {:trigger MovingOk(s', u)} :: u in s.moving && u in s'.moving && s'.moving[u] == s.moving[u] && s.place[t] != MovedBy(u) ==> MovingOk(s', u)
  {
    forall u | u in s.moving && u in s'.moving && s'.moving[u] == s.moving[u] && s.place[t] != MovedBy(u)
      ensures MovingOk(s', u)
    {
      assert MovingOk(s, u);
    }
  }

  lemma PlacesStay(s: State, s': State, t: Tid)
    requires OnlyMoves(s, s', t) && forall x {:trigger PlaceOk(s, x)} :: x in s.place ==> PlaceOk(s, x)
    requires s'.kids.Keys == s.kids.Keys && forall o, x :: o in s.kids && x in s.kids[o] && x != t ==> x in s'.kids[o]
    requires forall u :: u in s.pending && s.pending[u].target != t ==> u in s'.pending && s'.pending[u] == s.pending[u]
    requires forall u :: u in s.moving && s.moving[u] != t ==> u in s'.moving && s'.moving[u] == s.moving[u]
    ensures forall x {:trigger PlaceOk(s', x)} :: x in s'.place && x != t ==> PlaceOk(s', x)
  {
    forall x | x in s'.place && x != t ensures PlaceOk(s', x) { assert PlaceOk(s, x); }
  }

  ghost predicate CallsOk(s: State) {
    && (forall t {:trigger ThreadOk(s, t)} :: t in s.threads ==> ThreadOk(s, t))
    && (forall u {:trigger PendingOk(s, u)} :: u in s.pending ==> PendingOk(s, u))
    && (forall u {:trigger MovingOk(s, u)} :: u in s.moving ==> MovingOk(s, u))
  }

  lemma TakeLists(s: State, s': State, o: Tid, t: Tid)
    requires o in s.kids && t in s.kids[o] && t in s.place && s.place[t] == InList(o)
    requires forall x {:trigger ListOk(s, x)} :: x in s.kids ==> ListOk(s, x)
    requires s'.kids == s.kids[o := Except(s.kids[o], t)]
    requires t in s'.place && s'.place == s.place[t := s'.place[t]] && !s'.place[t].InList?
    ensures forall x {:trigger ListOk(s', x)} :: x in s'.kids ==> ListOk(s', x)
  {
    assert ListOk(s, o);
    ExceptNoDup(s.kids[o], t);
    forall x | x in s'.kids ensures ListOk(s', x) { assert ListOk(s, x); }
  }

  /** `s'` is `s` after thread `t` went from list `o` into a pending join of `u`. */
  ghost predicate Taking(s: State, s': State, o: Tid, t: Tid, u: Tid, kill: bool) {
    && Inv(s) && o in s.kids && t in s.kids[o] && Running(s, u)
    && s'.kids == s.kids[o := Except(s.kids[o], t)] && s'.active == s.active && s'.exiting == s.exiting
    && s'.threads.Keys == s.threads.Keys
    && (forall x :: x in s.threads ==> s'.threads[x].main == s.threads[x].main && s'.threads[x].run == s.threads[x].run)
    && s'.pending == s.pending[u := Pending(t, Taken, kill)] && s'.moving == s.moving && s'.place == s.place[t := PendingOf(u)]
  }

  lemma TakeCalls(s: State, s': State, o: Tid, t: Tid, u: Tid, kill: bool)
    requires Taking(s, s', o, t, u, kill) && t in s.place && s.place[t] == InList(o) && t in s.threads
    ensures CallsOk(s')
  {
    ThreadsStay(s, s');
    PendingsStay(s, s', t);
    MovingsStay(s, s', t);
    assert PendingOk(s', u);
  }

  lemma TakePlaces(s: State, s': State, o: Tid, t: Tid, u: Tid, kill: bool)
    requires Taking(s, s', o, t, u, kill) && t in s.place && t in s.threads
    ensures forall x {:trigger PlaceOk(s', x)} :: x in s'.place ==> PlaceOk(s', x)
  {
    PlacesStay(s, s', t);
    assert PlaceOk(s', t);
  }

  lemma TakeKeeps(s: State, s': State, o: Tid, t: Tid, u: Tid, kill: bool)
    requires Taking(s, s', o, t, u, kill)
    ensures Inv(s')
  {
    assert ListOk(s, o) && PlaceOk(s, t);
    assert s.place[t] == InList(o);
    TakeLists(s, s', o, t);
    TakeCalls(s, s', o, t, u, kill);
    TakePlaces(s, s', o, t, u, kill);
  }

  lemma MoveCalls(s: State, s': State, t: Tid, u: Tid)
    requires Inv(s) && Running(s, u) && t in s.place && s.place[t].InList? && t in s.threads
    requires s'.kids.Keys == s.kids.Keys && s' == s.(kids := s'.kids, moving := s.moving[u := t], place := s.place[t := MovedBy(u)])
    ensures CallsOk(s')
  {
    ThreadsStay(s, s');
    PendingsStay(s, s', t);
    MovingsStay(s, s', t);
    assert MovingOk(s', u);
  }

  /** The same for a detach. */
  lemma MoveKeeps(s: State, s': State, o: Tid, t: Tid, u: Tid)
    requires Inv(s) && o in s.kids && t in s.kids[o] && Running(s, u)
    requires s' == s.(kids := s.kids[o := Except(s.kids[o], t)], moving := s.moving[u := t], place := s.place[t := MovedBy(u)])
    ensures Inv(s')
  {
    assert ListOk(s, o) && PlaceOk(s, t);
    assert s.place[t] == InList(o);
    TakeLists(s, s', o, t);
    MoveCalls(s, s', t, u);
    PlacesStay(s, s', t);
    assert PlaceOk(s', t);
  }

  /** `s'` is `s` after a thread that a call of `u` holds went back on list `o`. */
  ghost predicate Giving(s: State, s': State, o: Tid, t: Tid, u: Tid) {
    && Inv(s) && o in s.kids && t in s.place && t in s.threads
    && s'.kids == s.kids[o := s.kids[o] + [t]] && s'.place == s.place[t := InList(o)]
    && s'.threads == s.threads && s'.active == s.active && s'.exiting == s.exiting
    && (|| (s.place[t] == PendingOf(u) && s'.pending == s.pending - {u} && s'.moving == s.moving && u in s.threads && !s.threads[u].run.Joining?)
        || (s.place[t] == MovedBy(u) && s'.moving == s.moving - {u} && s'.pending == s.pending))
  }

  lemma GiveLists(s: State, s': State, o: Tid, t: Tid)
    requires o in s.kids && t in s.place && !s.place[t].InList?
    requires forall x {:trigger ListOk(s, x)} :: x in s.kids ==> ListOk(s, x)
    requires s'.kids == s.kids[o := s.kids[o] + [t]] && s'.place == s.place[t := InList(o)]
    ensures forall x {:trigger ListOk(s', x)} :: x in s'.kids ==> ListOk(s', x)
  {
    forall x | x in s'.kids ensures ListOk(s', x) { assert ListOk(s, x); }
  }

  lemma GiveCalls(s: State, s': State, o: Tid, t: Tid, u: Tid)
    requires Giving(s, s', o, t, u)
    ensures CallsOk(s')
  {
    ThreadsStay(s, s');
    PendingsStay(s, s', t);
    MovingsStay(s, s', t);
  }

  lemma GiveKeeps(s: State, s': State, o: Tid, t: Tid, u: Tid)
    requires Giving(s, s', o, t, u)
    ensures Inv(s')
  {
    assert PlaceOk(s, t);
    GiveLists(s, s', o, t);
    GiveCalls(s, s', o, t, u);
    PlacesStay(s, s', t);
    assert PlaceOk(s', t);
  }

  /** An exited thread is nobody's caller and waits for nothing. */
  lemma ExitedIsQuiet(s: State, t: Tid)
    requires Inv(s) && t in s.threads && s.threads[t].run == Exited
    ensures t !in s.pending && t !in s.moving && t !in s.active
  {
    assert ThreadOk(s, t);
    assert t in s.pending ==> PendingOk(s, t);
    assert t in s.moving ==> MovingOk(s, t);
  }

  /** `s'` is `s` after an exited thread that nothing else refers to was freed. */
  ghost predicate Freeing(s: State, s': State, t: Tid, u: Tid) {
    && Inv(s) && t in s.threads && s.threads[t].run == Exited && t in s.place
    && s'.threads == s.threads - {t} && s'.place == s.place[t := Freed]
    && s'.active == s.active && s'.exiting == s.exiting && s'.moving == s.moving
    && (|| (s.place[t].InList? && s.place[t].owner in s.kids && s'.pending == s.pending
            && s'.kids == s.kids[s.place[t].owner := Except(s.kids[s.place[t].owner], t)])
        || (s.place[t] == PendingOf(u) && s'.kids == s.kids && s'.pending == s.pending - {u} && u in s.threads && !s.threads[u].run.Joining?))
  }

  lemma SameLists(s: State, s': State, t: Tid)
    requires forall x {:trigger ListOk(s, x)} :: x in s.kids ==> ListOk(s, x)
    requires s'.kids == s.kids && t in s.place && !s.place[t].InList? && t in s'.place && s'.place == s.place[t := s'.place[t]] && !s'.place[t].InList?
    ensures forall x {:trigger ListOk(s', x)} :: x in s'.kids ==> ListOk(s', x)
  {
    forall x | x in s'.kids ensures ListOk(s', x) { assert ListOk(s, x); }
  }

  lemma FreeCalls(s: State, s': State, t: Tid, u: Tid)
    requires Freeing(s, s', t, u) && t !in s.pending && t !in s.moving
    ensures CallsOk(s')
  {
    ThreadsStay(s, s');
    PendingsStay(s, s', t);
    MovingsStay(s, s', t);
  }

  lemma FreeListsOk(s: State, s': State, t: Tid, u: Tid)
    requires Freeing(s, s', t, u)
    ensures forall x {:trigger ListOk(s', x)} :: x in s'.kids ==> ListOk(s', x)
  {
    assert PlaceOk(s, t);
    if s.place[t] == PendingOf(u) { SameLists(s, s', t); } else { TakeLists(s, s', s.place[t].owner, t); }
  }

  lemma FreeKeeps(s: State, s': State, t: Tid, u: Tid)
    requires Freeing(s, s', t, u)
    ensures Inv(s')
  {
    ExitedIsQuiet(s, t);
    assert PlaceOk(s, t);
    FreeListsOk(s, s', t, u);
    FreeCalls(s, s', t, u);
    PlacesStay(s, s', t);
  }

  /** An exiting parent that has waited for its child forgets it. */
  lemma DropKeeps(s: State, s': State, t: Tid, u: Tid)
    requires Inv(s) && t in s.threads && s.threads[t].run == Exited && t in s.place && s.place[t] == PendingOf(u)
    requires s' == s.(pending := s.pending - {u}, place := s.place[t := Dropped]) && u in s.threads && !s.threads[u].run.Joining?
    ensures Inv(s')
  {
    assert PlaceOk(s, t);
    SameLists(s, s', t);
    ThreadsStay(s, s');
    PendingsStay(s, s', t);
    MovingsStay(s, s', t);
    PlacesStay(s, s', t);
  }

  lemma StepKeeps(s: State, op: Op)
    requires Inv(s) && Legal(s, op)
    ensures Inv(Step(s, op))
  {
    if op.Clone? {
      CloneKeeps(s, op.u, op.t, op.sub);
    } else if op.JoinReturn? {
      ReturnKeeps(s, op.u);
    } else if op.DetachTake? || op.DetachGive? || op.JoinTake? || op.TryJoin? || op.KillPop? {
      ListStepKeeps(s, op);
    } else if op.Activate? || op.SeeEmpty? || op.Flag? || op.Unflag? {
      FlagsKeep(s, op);
    } else {
      RunStepKeeps(s, op);
    }
  }

  lemma RunStepKeeps(s: State, op: Op)
    requires Inv(s) && Legal(s, op) && (op.Block? || op.Visit? || op.Finish? || op.Doze?)
    ensures Inv(Step(s, op))
  {
    if op.Block? {
      BlockKeeps(s, op.u);
    } else if op.Visit? {
      VisitKeeps(s, op.t);
    } else {
      assert op.u in s.pending ==> PendingOk(s, op.u);
      assert op.u in s.moving ==> MovingOk(s, op.u);
      RunKeeps(s, op.u, if op.Finish? then Finished else Sleeping, s.active);
    }
  }

  lemma DetachGiveKeeps(s: State, u: Tid)
    requires Inv(s) && Legal(s, DetachGive(u))
    ensures Inv(Step(s, DetachGive(u)))
  {
    assert MovingOk(s, u) && PlaceOk(s, s.moving[u]);
    GiveKeeps(s, Step(s, DetachGive(u)), INIT, s.moving[u], u);
  }

  lemma PopKeeps(s: State, u: Tid)
    requires Inv(s) && Legal(s, KillPop(u))
    ensures Inv(PopStep(s, u))
  {
    var t := s.kids[u][|s.kids[u]| - 1];
    assert ListOk(s, u) && t in s.kids[u] && PlaceOk(s, t);
    TakeKeeps(s, PopStep(s, u), u, t, u, true);
  }

  lemma TryKeeps(s: State, u: Tid, t: Tid)
    requires Inv(s) && Legal(s, TryJoin(u, t))
    ensures Inv(TryStep(s, u, t))
  {
    if TryStep(s, u, t) != s {
      assert ListOk(s, MainOf(s, u)) && PlaceOk(s, t);
      FreeKeeps(s, TryStep(s, u, t), t, u);
    }
  }

  lemma ListStepKeeps(s: State, op: Op)
    requires Inv(s) && Legal(s, op)
    requires op.DetachTake? || op.DetachGive? || op.JoinTake? || op.TryJoin? || op.KillPop?
    ensures Inv(Step(s, op))
  {
    if op.DetachGive? {
      DetachGiveKeeps(s, op.u);
    } else if op.KillPop? {
      PopKeeps(s, op.u);
    } else if op.TryJoin? {
      TryKeeps(s, op.u, op.t);
    } else if Step(s, op) != s {
      if op.DetachTake? {
        MoveKeeps(s, Step(s, op), MainOf(s, op.u), op.t, op.u);
      } else {
        TakeKeeps(s, Step(s, op), MainOf(s, op.u), op.t, op.u, false);
      }
    }
  }

  lemma ReturnKeeps(s: State, u: Tid)
    requires Inv(s) && Legal(s, JoinReturn(u))
    ensures Inv(Step(s, JoinReturn(u)))
  {
    var s' := Step(s, JoinReturn(u));
    var p := s.pending[u];
    assert PendingOk(s, u) && ThreadOk(s, u);
    if !p.phase.ok {
      GiveKeeps(s, s', if p.kill then u else MainOf(s, u), p.target, u);
    } else if p.kill {
      DropKeeps(s, s', p.target, u);
    } else {
      FreeKeeps(s, s', p.target, u);
    }
  }

  // ----- whole runs

  const INITIAL := State(map[INIT := Thread(INIT, Ready, false)], map[INIT := []], map[], map[], {INIT}, {}, map[])

  ghost predicate Steps(s: State, op: Op, s': State) {
    Inv(s) ==> Legal(s, op) && s' == Step(s, op)
  }

  ghost predicate IsRun(ops: seq<Op>, trace: seq<State>) {
    && |trace| == |ops| + 1 && trace[0] == INITIAL
    && forall i :: 0 <= i < |ops| ==> Steps(trace[i], ops[i], trace[i + 1])
  }

  lemma InitialOk()
    ensures Inv(INITIAL)
  {
    assert ListOk(INITIAL, INIT) && ThreadOk(INITIAL, INIT);
  }

  lemma {:induction false} TraceKeeps(ops: seq<Op>, trace: seq<State>, k: nat)
    requires IsRun(ops, trace) && k <= |ops|
    ensures Inv(trace[k])
  {
    if k == 0 {
      InitialOk();
    } else {
      TraceKeeps(ops, trace, k - 1);
      assert Steps(trace[k - 1], ops[k - 1], trace[k - 1 + 1]);
      StepKeeps(trace[k - 1], ops[k - 1]);
    }
  }

  // ----- concrete runs, step by step

  /** The first `k` steps of `ops` are legal and lead to `s`. */
  ghost predicate After(ops: seq<Op>, k: nat, s: State) {
    k <= |ops| && exists trace :: IsRun(ops[..k], trace) && trace[k] == s
  }

  lemma Extend(ops: seq<Op>, k: nat, s: State, s': State)
    requires k < |ops| && After(ops, k, s) && Steps(s, ops[k], s')
    ensures After(ops, k + 1, s')
  {
    var trace :| IsRun(ops[..k], trace) && trace[k] == s;
    var r := trace + [s'];
    forall i | 0 <= i < k + 1
      ensures Steps(r[i], ops[..k + 1][i], r[i + 1])
    {
      assert i < k ==> Steps(trace[i], ops[..k][i], trace[i + 1]);
    }
    assert IsRun(ops[..k + 1], r) && r[k + 1] == s';
  }

  lemma Next(ops: seq<Op>, k: nat, s: State) returns (s': State)
    requires k < |ops| && Inv(s) && Legal(s, ops[k]) && After(ops, k, s)
    ensures Inv(s') && s' == Step(s, ops[k]) && After(ops, k + 1, s')
  {
    StepKeeps(s, ops[k]);
    s' := Step(s, ops[k]);
    Extend(ops, k, s, s');
  }

  /** The same with the next state given. */
  lemma Reach(ops: seq<Op>, k: nat, s: State, s': State)
    requires k < |ops| && Inv(s) && After(ops, k, s) && Legal(s, ops[k]) && Step(s, ops[k]) == s'
    ensures Inv(s') && After(ops, k + 1, s')
  {
    var _ := Next(ops, k, s);
  }

  lemma NoSteps(ops: seq<Op>)
    ensures After(ops, 0, INITIAL)
  {
    assert IsRun(ops[..0], [INITIAL]);
  }

  // ----- who owns a thread

  predicate Listing(s: State, o: Tid, t: Tid) { o in s.kids && t in s.kids[o] }
  predicate Waits(s: State, u: Tid, t: Tid) { u in s.pending && s.pending[u].target == t }
  predicate Moves(s: State, u: Tid, t: Tid) { u in s.moving && s.moving[u] == t }
  predicate Reaped(s: State, t: Tid) { t in s.place && (s.place[t] == Dropped || s.place[t] == Freed) }

  /** At every point of every run, a thread other than init is in exactly one child list, or the
      target of exactly one join under way, or in the hands of exactly one detach, or reaped. */
  lemma RunOwnership(ops: seq<Op>, trace: seq<State>, k: nat, t: Tid)
    requires IsRun(ops, trace) && k <= |ops| && t in trace[k].threads && t != INIT
    ensures var s := trace[k];
            && ((exists o :: Listing(s, o, t)) || (exists u :: Waits(s, u, t)) || (exists u :: Moves(s, u, t)) || Reaped(s, t))
            && (forall o, x :: Listing(s, o, t) && Listing(s, x, t) ==> o == x)
            && (forall o :: Listing(s, o, t) ==> NoDup(s.kids[o]))
            && (forall u, x :: Waits(s, u, t) && Waits(s, x, t) ==> u == x)
            && (forall u, x :: Moves(s, u, t) && Moves(s, x, t) ==> u == x)
            && (forall o, u :: !(Listing(s, o, t) && Waits(s, u, t)))
            && (forall o, u :: !(Listing(s, o, t) && Moves(s, u, t)))
            && (forall u, x :: !(Waits(s, u, t) && Moves(s, x, t)))
            && (Reaped(s, t) ==> forall x :: !Listing(s, x, t) && !Waits(s, x, t) && !Moves(s, x, t))
  {
    TraceKeeps(ops, trace, k);
    var s := trace[k];
    assert ThreadOk(s, t) && PlaceOk(s, t);
    assert s.place[t].Dropped? ==> Reaped(s, t);
    match s.place[t] {
      case InList(o) => assert Listing(s, o, t);
      case PendingOf(u) => assert Waits(s, u, t);
      case MovedBy(u) => assert Moves(s, u, t);
      case _ =>
    }
    OnePlace(s, t);
  }

  lemma OnePlace(s: State, t: Tid)
    requires Inv(s) && t in s.place
    ensures forall o :: Listing(s, o, t) ==> s.place[t] == InList(o) && NoDup(s.kids[o])
    ensures forall u :: Waits(s, u, t) ==> s.place[t] == PendingOf(u)
    ensures forall u :: Moves(s, u, t) ==> s.place[t] == MovedBy(u)
  {
    forall o | Listing(s, o, t) ensures s.place[t] == InList(o) && NoDup(s.kids[o]) { assert ListOk(s, o); }
    forall u | Waits(s, u, t) ensures s.place[t] == PendingOf(u) { assert PendingOk(s, u); }
    forall u | Moves(s, u, t) ensures s.place[t] == MovedBy(u) { assert MovingOk(s, u); }
  }

  lemma OthersFreeNothing(s: State, op: Op)
    requires Inv(s) && Legal(s, op) && !op.JoinReturn? && !op.TryJoin?
    ensures forall t :: t in s.threads ==> t in Step(s, op).threads
  {}

  lemma TryFrees(s: State, u: Tid, x: Tid, t: Tid)
    requires Inv(s) && Legal(s, TryJoin(u, x)) && t in s.threads && t !in TryStep(s, u, x).threads
    ensures t in s.place && s.place[t].InList? && s.threads[t].run == Exited
  {
    assert IsChild(s, u, x) ==> ListOk(s, MainOf(s, u));
  }

  lemma ReturnFrees(s: State, u: Tid, t: Tid)
    requires Inv(s) && Legal(s, JoinReturn(u)) && t in s.threads && t !in ReturnStep(s, u).threads
    ensures t in s.place && s.place[t] == PendingOf(u) && s.threads[t].run == Exited
  {
    assert PendingOk(s, u);
  }

  /** The two steps that free a thread. */
  lemma Frees(s: State, op: Op, t: Tid)
    requires Inv(s) && Legal(s, op) && t in s.threads && t !in Step(s, op).threads
    ensures t in s.place && s.threads[t].run == Exited
    ensures (op.JoinReturn? && s.place[t] == PendingOf(op.u)) || (op.TryJoin? && s.place[t].InList?)
  {
    if op.JoinReturn? {
      ReturnFrees(s, op.u, t);
    } else if op.TryJoin? {
      TryFrees(s, op.u, op.t, t);
    } else {
      OthersFreeNothing(s, op);
    }
  }

  /** A ThreadInfo is freed only when the thread has exited and is on no active list. */
  lemma FreedWhenExited(s: State, op: Op, t: Tid)
    requires Inv(s) && Legal(s, op) && t in s.threads && t !in Step(s, op).threads
    ensures s.threads[t].run == Exited && t !in s.active && !Reaped(s, t)
    ensures forall u :: u in s.pending && s.pending[u].target == t ==> op == JoinReturn(u)
  {
    Frees(s, op, t);
    assert ThreadOk(s, t);
    forall u | u in s.pending && s.pending[u].target == t
      ensures op == JoinReturn(u)
    {
      assert PendingOk(s, u);
    }
  }

  /** And it is freed at most once: what is gone never comes back. */
  lemma {:induction false} FreedForGood(ops: seq<Op>, trace: seq<State>, i: nat, k: nat, t: Tid)
    requires IsRun(ops, trace) && i <= k <= |ops| && t in trace[i].kids && t !in trace[i].threads
    ensures t in trace[k].kids && t !in trace[k].threads
    decreases k
  {
    if i < k {
      FreedForGood(ops, trace, i, k - 1, t);
      TraceKeeps(ops, trace, k - 1);
      assert Steps(trace[k - 1], ops[k - 1], trace[k - 1 + 1]);
      StepKeys(trace[k - 1], ops[k - 1]);
    }
  }

  /** Thread ids are never forgotten. */
  lemma KidsStay(s: State, op: Op)
    requires Inv(s) && Legal(s, op)
    ensures forall t :: t in s.kids ==> t in Step(s, op).kids
  {}

  lemma BlockKeys(s: State, u: Tid)
    requires Inv(s) && Legal(s, Block(u))
    ensures BlockStep(s, u).threads.Keys == s.threads.Keys
  {
    assert PendingOk(s, u);
  }

  lemma PopKeys(s: State, u: Tid)
    requires Inv(s) && Legal(s, KillPop(u))
    ensures PopStep(s, u).threads.Keys == s.threads.Keys
  {
    assert ListOk(s, u) && PlaceOk(s, s.kids[u][|s.kids[u]| - 1]);
  }

  lemma NoNewThreads(s: State, op: Op)
    requires Inv(s) && Legal(s, op) && !op.Clone? && !op.Block? && !op.KillPop?
    ensures forall t :: t in Step(s, op).threads ==> t in s.threads
  {}

  /** Only Clone makes new threads, with ids never used before. */
  lemma StepKeys(s: State, op: Op)
    requires Inv(s) && Legal(s, op)
    ensures forall t :: t in s.kids ==> t in Step(s, op).kids
    ensures forall t :: t in Step(s, op).threads && t !in s.threads ==> op.Clone? && t == op.t && t !in s.kids
  {
    KidsStay(s, op);
    if op.Block? {
      BlockKeys(s, op.u);
    } else if op.KillPop? {
      PopKeys(s, op.u);
    } else if !op.Clone? {
      NoNewThreads(s, op);
    }
  }
}
