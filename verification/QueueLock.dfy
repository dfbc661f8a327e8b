/** The queueing lock: a counting semaphore whose waiters are served in the order they came. The
    steps are the sections under its spinlock.
 */
module QueueLock {
  import opened Wrappers

  type Tid = nat

  /** The lock, and the history its promises are about: the calls of Lock in order, the grants in
      order, the number of calls of Unlock, and the threads that are past Lock. */
  datatype State = State(
    count: nat, queue: seq<Tid>, arrivals: seq<Tid>, grants: seq<Tid>, unlocks: nat, inside: multiset<Tid>)

  datatype Op = Lock(t: Tid) | Unlock(t: Tid)

  function Initial(count: nat): State { State(count, [], [], [], 0, multiset{}) }

  function Step(s: State, op: Op): State {
    match op
    case Lock(t) =>
      var s1 := s.(arrivals := s.arrivals + [t]);
      if s.count > 0 then
        s1.(count := s.count - 1, grants := s.grants + [t], inside := s.inside + multiset{t})
      else s1.(queue := s.queue + [t])
    case Unlock(t) =>
      var s1 := s.(unlocks := s.unlocks + 1, inside := s.inside - multiset{t});
      if s.queue == [] then s1.(count := s.count + 1)
      else
        s1.(queue := s.queue[1..], grants := s.grants + [s.queue[0]], inside := s1.inside + multiset{s.queue[0]})
  }

  ghost predicate IsRun(initial: nat, ops: seq<Op>, trace: seq<State>) {
    && |trace| == |ops| + 1 && trace[0] == Initial(initial)
    && forall i :: 0 <= i < |ops| ==> Steps(trace[i], ops[i], trace[i + 1])
  }

  predicate Steps(s: State, op: Op, s': State) { s' == Step(s, op) }

  /** Nothing is granted twice or made up, threads queue only while the count is zero, and grants
      go out in the order of arrival: the arrivals are the grants followed by the queue. */
  predicate Inv(s: State, initial: nat) {
    && s.count + |s.grants| == initial + s.unlocks
    && (s.queue != [] ==> s.count == 0)
    && s.arrivals == s.grants + s.queue
  }

  lemma StepKeeps(s: State, op: Op, initial: nat)
    requires Inv(s, initial)
    ensures Inv(Step(s, op), initial)
  {}

  lemma {:induction false} RunKeeps(initial: nat, ops: seq<Op>, trace: seq<State>, k: nat)
    requires IsRun(initial, ops, trace) && k <= |ops|
    ensures Inv(trace[k], initial)
  {
    if k > 0 {
      RunKeeps(initial, ops, trace, k - 1);
      assert Steps(trace[k - 1], ops[k - 1], trace[k - 1 + 1]);
      StepKeeps(trace[k - 1], ops[k - 1], initial);
    }
  }

  // ----- the lock from its calls alone

  /** The threads that called Lock in the first `k` operations, in order. */
  function LockCalls(ops: seq<Op>, k: nat): (r: seq<Tid>)
    requires k <= |ops|
    ensures |r| <= k
  {
    if k == 0 then [] else LockCalls(ops, k - 1) + if ops[k - 1].Lock? then [ops[k - 1].t] else []
  }

  function UnlockCalls(ops: seq<Op>, k: nat): (r: seq<Tid>)
    requires k <= |ops|
    ensures |r| <= k
  {
    if k == 0 then [] else UnlockCalls(ops, k - 1) + if ops[k - 1].Unlock? then [ops[k - 1].t] else []
  }

  /** The history agrees with the calls of the first `k` operations. */
  predicate Recorded(s: State, ops: seq<Op>, k: nat)
    requires k <= |ops|
  {
    s.arrivals == LockCalls(ops, k) && s.unlocks == |UnlockCalls(ops, k)|
  }

  lemma {:induction false} RunCalls(initial: nat, ops: seq<Op>, trace: seq<State>, k: nat)
    requires IsRun(initial, ops, trace) && k <= |ops|
    ensures Recorded(trace[k], ops, k)
  {
    if k == 0 {
      NoCalls(initial, ops);
    } else {
      RunCalls(initial, ops, trace, k - 1);
      CallsNext(initial, ops, trace, k);
    }
  }

  lemma NoCalls(initial: nat, ops: seq<Op>)
    ensures Recorded(Initial(initial), ops, 0)
  {}

  lemma CallsNext(initial: nat, ops: seq<Op>, trace: seq<State>, k: nat)
    requires IsRun(initial, ops, trace) && 0 < k <= |ops| && Recorded(trace[k - 1], ops, k - 1)
    ensures Recorded(trace[k], ops, k)
  {
    StepRecorded(trace[k - 1], ops, k);
    assert Steps(trace[k - 1], ops[k - 1], trace[k - 1 + 1]);
  }

  lemma StepRecorded(s: State, ops: seq<Op>, k: nat)
    requires 0 < k <= |ops| && Recorded(s, ops, k - 1)
    ensures Recorded(Step(s, ops[k - 1]), ops, k)
  {}

  /** In every run the calls so far decide everything: with `n` permits given out in all, the first `n`
      callers of Lock have one, the others wait in the order they called, and the count is what is
      left over. */
  lemma RunIsDecided(initial: nat, ops: seq<Op>, trace: seq<State>, k: nat)
    requires IsRun(initial, ops, trace) && k <= |ops|
    ensures var s, calls, permits := trace[k], LockCalls(ops, k), initial + |UnlockCalls(ops, k)|;
            var n := if |calls| < permits then |calls| else permits;
            s.grants == calls[..n] && s.queue == calls[n..] && s.count == permits - n
  {
    RunKeeps(initial, ops, trace, k);
    RunCalls(initial, ops, trace, k);
  }

  /** If only threads past Lock call Unlock: those past Lock are the ones with a grant that have not
      called Unlock since. */
  lemma {:induction false} RunInside(initial: nat, ops: seq<Op>, trace: seq<State>, k: nat)
    requires IsRun(initial, ops, trace) && Disciplined(ops, trace) && k <= |ops|
    ensures trace[k].inside + multiset(UnlockCalls(ops, k)) == multiset(trace[k].grants)
  {
    if k > 0 {
      RunInside(initial, ops, trace, k - 1);
      assert Steps(trace[k - 1], ops[k - 1], trace[k - 1 + 1]) && MayDo(trace[k - 1], ops[k - 1]);
      StepInside(trace[k - 1], ops[k - 1], UnlockCalls(ops, k - 1));
    }
  }

  lemma StepInside(s: State, op: Op, unlocked: seq<Tid>)
    requires MayDo(s, op) && s.inside + multiset(unlocked) == multiset(s.grants)
    ensures var s' := Step(s, op);
            s'.inside + multiset(unlocked + if op.Unlock? then [op.t] else []) == multiset(s'.grants)
  {
    if op.Lock? {
      assert multiset(s.grants + [op.t]) == multiset(s.grants) + multiset{op.t};
      assert unlocked + [] == unlocked;
    } else {
      assert multiset(unlocked + [op.t]) == multiset(unlocked) + multiset{op.t};
      assert s.queue != [] ==> multiset(s.grants + [s.queue[0]]) == multiset(s.grants) + multiset{s.queue[0]};
    }
  }

  // ----- who is past Lock

  /** Only a thread that is past Lock calls Unlock. */
  predicate Disciplined(ops: seq<Op>, trace: seq<State>) {
    |trace| == |ops| + 1 && forall i :: 0 <= i < |ops| ==> MayDo(trace[i], ops[i])
  }

  predicate MayDo(s: State, op: Op) { op.Unlock? ==> op.t in s.inside }

  lemma StepCounts(s: State, op: Op, initial: nat)
    requires |s.inside| + s.count == initial && MayDo(s, op)
    ensures |Step(s, op).inside| + Step(s, op).count == initial
  {}

  /** The threads past Lock and the count add up to the initial count; so with an initial count of
      one, at most one thread is past Lock. */
  lemma {:induction false} RunExcludes(initial: nat, ops: seq<Op>, trace: seq<State>, k: nat)
    requires IsRun(initial, ops, trace) && Disciplined(ops, trace) && k <= |ops|
    ensures |trace[k].inside| + trace[k].count == initial
    ensures initial == 1 ==> forall t, u :: t in trace[k].inside && u in trace[k].inside ==> t == u
  {
    if k > 0 {
      RunExcludes(initial, ops, trace, k - 1);
      assert Steps(trace[k - 1], ops[k - 1], trace[k - 1 + 1]) && MayDo(trace[k - 1], ops[k - 1]);
      StepCounts(trace[k - 1], ops[k - 1], initial);
    }
    forall x, y | x != y && x in trace[k].inside && y in trace[k].inside
      ensures initial != 1
    {
      SizeAtLeast(trace[k].inside, x, y);
    }
  }

  lemma SizeAtLeast(m: multiset<Tid>, x: Tid, y: Tid)
    requires x != y && x in m && y in m
    ensures |m| >= 2
  {
    var r := m - multiset{x, y};
    assert m == r + multiset{x, y};
  }

  // ----- the lock itself

  class QueueLock {
    var count: nat
    var queue: seq<Tid>
    ghost var st: State

    ghost predicate Valid()
      reads this
    {
      count == st.count && queue == st.queue
    }

    constructor (initial: nat)
      ensures Valid() && st == Initial(initial)
    {
      count, queue, st := initial, [], Initial(initial);
    }

    /** True when the caller goes on at once, false when it has to block. */
    method Lock(t: Tid) returns (granted: bool)
      requires Valid()
      modifies this
      ensures Valid() && st == Step(old(st), Op.Lock(t)) && granted == (old(count) > 0)
      ensures count == (if granted then old(count) - 1 else 0) && queue == if granted then old(queue) else old(queue) + [t]
    {
      if count > 0 {
        count := count - 1;
        granted := true;
      } else {
        queue := queue + [t];
        granted := false;
      }
      st := Step(st, Op.Lock(t));
    }

    /** The waiter that becomes ready, if there is one. */
    method Unlock(t: Tid) returns (woken: Option<Tid>)
      requires Valid()
      modifies this
      ensures Valid() && st == Step(old(st), Op.Unlock(t))
      ensures old(queue) == [] ==> woken == None && count == old(count) + 1 && queue == []
      ensures old(queue) != [] ==> woken == Some(old(queue)[0]) && count == old(count) && queue == old(queue)[1..]
    {
      if queue == [] {
        count := count + 1;
        woken := None;
      } else {
        woken := Some(queue[0]);
        queue := queue[1..];
      }
      st := Step(st, Op.Unlock(t));
    }
  }
}
