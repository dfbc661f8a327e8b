/** Mounting, unmounting and the reference counts that decide whether a mount is busy. The part
    of a path operation that walks directory nodes is an input: it fails with some error or it
    finds a node the operation accepts.
 */
module MountTable {
  import opened Wrappers
  import opened Sequences
  import opened MountTree

  datatype Error =
    | FileNotFound | PermissionDenied | FileExists | OpenFolder | NotAFolder
    | FolderAlreadyMounted | UnmountRoot | NotAMountPoint | MountPointBusy | InvalidFD

  datatype Walk = Fails(error: Error) | Finds

  datatype Desc = Desc(mount: Id, refs: nat)

  /** `left` counts, per mount, the references that unmounted children left behind. */
  datatype State = State(ms: Mounts, descs: map<Id, Desc>, left: map<Id, nat>)

  datatype Op =
    | DoMount(path: string, id: Id, walk: Walk)
    | DoUnmount(path: string)
    | DoOpen(path: string, id: Id, walk: Walk)
    | DoClose(desc: Id)
    | DoAddRef(desc: Id)
    | DoAccess(path: string, walk: Walk)      // any other path operation: finds, uses, releases

  type Status = Result<(), Error>

  /** Prepared paths have no trailing slash. */
  predicate Prepared(p: string) { p == "" || p[|p| - 1] != '/' }

  ghost function OpenOn(s: State, m: Id): set<Id> {
    set d | d in s.descs && s.descs[d].mount == m
  }

  /** The reference count of every mount but the root is its open descriptors, plus the mounts
      below it, plus what unmounted children left behind. */
  ghost predicate Counted(s: State) {
    forall m {:trigger CountOk(s, m)} :: m in s.ms && m != ROOT ==> CountOk(s, m)
  }

  ghost predicate CountOk(s: State, m: Id)
    requires m in s.ms
  {
    m in s.left && s.ms[m].refCount == |OpenOn(s, m)| + |s.ms[m].children| + s.left[m]
  }

  ghost predicate Inv(s: State) {
    && SelfFinding(s.ms) && Counted(s) && ROOT in s.left
    && forall d :: d in s.descs ==> d != 0 && s.descs[d].mount in s.ms && s.descs[d].refs > 0
  }

  const INITIAL := State(map[ROOT := Mount("", ROOT, [], 2)], map[], map[ROOT := 0])

  // ----- what the operations do

  function Acquired(ms: Mounts, m: Id): Mounts
    requires m in ms
  {
    if m == ROOT then ms else ms[m := ms[m].(refCount := ms[m].refCount + 1)]
  }

  function Released(ms: Mounts, m: Id): Mounts
    requires m in ms && (m == ROOT || ms[m].refCount > 0)
  {
    if m == ROOT then ms else ms[m := ms[m].(refCount := ms[m].refCount - 1)]
  }

  ghost predicate Legal(s: State, op: Op) {
    match op
    case DoMount(p, y, _) => Prepared(p) && y !in s.ms
    case DoUnmount(p) => Prepared(p)
    case DoOpen(p, d, _) => Prepared(p) && d !in s.descs && d != 0
    case DoClose(d) => d == 0 || d in s.descs
    case DoAddRef(d) => d == 0 || d in s.descs
    case DoAccess(p, _) => Prepared(p)
  }

  ghost function Step(s: State, op: Op): (State, Status)
    requires Inv(s) && Legal(s, op)
  {
    match op
    case DoMount(p, y, walk) => MountStep(s, p, y, walk)
    case DoUnmount(p) => UnmountStep(s, p)
    case DoOpen(p, d, walk) => if walk.Fails? then (s, Err(walk.error)) else (Opened(s, Lookup(s.ms, p), d), Ok(()))
    case DoClose(d) => if d == 0 then (s, Err(InvalidFD)) else (Closed(s, d), Ok(()))
    case DoAddRef(d) => if d == 0 then (s, Err(InvalidFD)) else (Counting(s, d, s.descs[d].refs + 1), Ok(()))
    case DoAccess(p, walk) => (s, if walk.Fails? then Err(walk.error) else Ok(()))
  }

  ghost function MountStep(s: State, p: string, y: Id, walk: Walk): (State, Status)
    requires Inv(s)
  {
    var r := Lookup(s.ms, p);
    if p == s.ms[r].path then (s, Err(FolderAlreadyMounted))
    else if walk.Fails? then (s, Err(walk.error))
    else (Mounted(s, p, y, r), Ok(()))
  }

  ghost function Mounted(s: State, p: string, y: Id, r: Id): State
    requires r in s.ms
  {
    s.(ms := WithMount(Acquired(s.ms, r), y, p, r), left := s.left[y := 0])
  }

  ghost function UnmountStep(s: State, p: string): (State, Status)
    requires Inv(s)
  {
    var m := Lookup(s.ms, p);
    if m == ROOT then (s, Err(UnmountRoot))
    else if p != s.ms[m].path then (s, Err(NotAMountPoint))
    else if s.ms[m].refCount != 0 then (s, Err(MountPointBusy))
    else (Unmounted(s, m), Ok(()))
  }

  ghost function Unmounted(s: State, m: Id): State
    requires Inv(s) && m in s.ms && m != ROOT
  {
    assert Linked(s.ms, m);
    var r := s.ms[m].parent;
    s.(ms := WithoutMount(s.ms, m), left := s.left[r := (if r in s.left then s.left[r] else 0) + 1] - {m})
  }

  ghost function Opened(s: State, m: Id, d: Id): State
    requires m in s.ms
  {
    s.(ms := Acquired(s.ms, m), descs := s.descs[d := Desc(m, 1)])
  }

  ghost function Counting(s: State, d: Id, n: nat): State
    requires d in s.descs
  {
    s.(descs := s.descs[d := s.descs[d].(refs := n)])
  }

  ghost function Closed(s: State, d: Id): State
    requires Inv(s) && d in s.descs
  {
    var desc := s.descs[d];
    if desc.refs > 1 then Counting(s, d, desc.refs - 1)
    else
      HasReference(s, d);
      s.(ms := Released(s.ms, desc.mount), descs := s.descs - {d})
  }

  /** A mount with an open descriptor has a reference to give back. */
  lemma HasReference(s: State, d: Id)
    requires Inv(s) && d in s.descs
    ensures s.descs[d].mount == ROOT || s.ms[s.descs[d].mount].refCount > 0
  {
    var m := s.descs[d].mount;
    if m != ROOT {
      assert CountOk(s, m);
      assert d in OpenOn(s, m);
    }
  }

  // ----- every operation keeps the counts

  lemma ReleaseUndoes(ms: Mounts, m: Id)
    requires m in ms
    ensures Released(Acquired(ms, m), m) == ms
  {}

  lemma AcquiredShape(ms: Mounts, m: Id)
    requires m in ms
    ensures SameShape(ms, Acquired(ms, m))
  {}

  lemma ReleasedShape(ms: Mounts, m: Id)
    requires m in ms && (m == ROOT || ms[m].refCount > 0)
    ensures SameShape(ms, Released(ms, m))
  {}

  lemma OpenKeeps(s: State, m: Id, d: Id)
    requires Inv(s) && m in s.ms && d !in s.descs && d != 0
    ensures Inv(Opened(s, m, d))
  {
    var s' := Opened(s, m, d);
    AcquiredShape(s.ms, m);
    SameShapeSelfFinding(s.ms, s'.ms);
    OpenCounts(s, m, d);
  }

  lemma OpenCounts(s: State, m: Id, d: Id)
    requires Counted(s) && m in s.ms && d !in s.descs
    ensures Counted(Opened(s, m, d))
  {
    var s' := Opened(s, m, d);
    forall k | k in s'.ms && k != ROOT
      ensures CountOk(s', k)
    {
      assert CountOk(s, k);
      assert OpenOn(s', k) == if k == m then OpenOn(s, k) + {d} else OpenOn(s, k);
    }
  }

  lemma CloseKeeps(s: State, d: Id)
    requires Inv(s) && d in s.descs && s.descs[d].refs == 1
    ensures Inv(Closed(s, d))
  {
    HasReference(s, d);
    var m := s.descs[d].mount;
    var s' := Closed(s, d);
    ReleasedShape(s.ms, m);
    SameShapeSelfFinding(s.ms, s'.ms);
    CloseCounts(s, d, s');
  }

  lemma CloseCounts(s: State, d: Id, s': State)
    requires Counted(s) && d in s.descs && s.descs[d].mount in s.ms
    requires s.descs[d].mount == ROOT || s.ms[s.descs[d].mount].refCount > 0
    requires s' == s.(ms := Released(s.ms, s.descs[d].mount), descs := s.descs - {d})
    ensures Counted(s')
  {
    var m := s.descs[d].mount;
    forall k | k in s'.ms && k != ROOT
      ensures CountOk(s', k)
    {
      assert CountOk(s, k);
      assert OpenOn(s', k) == if k == m then OpenOn(s, k) - {d} else OpenOn(s, k);
    }
  }

  lemma RefsKeep(s: State, d: Id, n: nat)
    requires Inv(s) && d in s.descs && n > 0
    ensures Inv(Counting(s, d, n))
  {
    var s' := Counting(s, d, n);
    forall k | k in s'.ms && k != ROOT
      ensures CountOk(s', k)
    {
      assert CountOk(s, k);
      assert OpenOn(s', k) == OpenOn(s, k);
    }
  }

  lemma MountStepKeeps(s: State, p: string, y: Id, walk: Walk)
    requires Inv(s) && y !in s.ms
    ensures Inv(MountStep(s, p, y, walk).0)
  {
    if p != s.ms[Lookup(s.ms, p)].path && walk.Finds? { MountedKeeps(s, p, y); }
  }

  lemma MountedKeeps(s: State, p: string, y: Id)
    requires Inv(s) && y !in s.ms && p != s.ms[Lookup(s.ms, p)].path
    ensures Inv(Mounted(s, p, y, Lookup(s.ms, p)))
  {
    var r := Lookup(s.ms, p);
    var ms1 := Acquired(s.ms, r);
    AcquiredShape(s.ms, r);
    SameShapeSelfFinding(s.ms, ms1);
    SameShapeFind(s.ms, ms1, ROOT, p);
    assert p != "" by { assert Found(s.ms, ROOT); }
    MountKeeps(ms1, y, p);
    MountCounts(s, p, y, r);
  }

  lemma MountCounts(s: State, p: string, y: Id, r: Id)
    requires Counted(s) && y !in s.ms && r in s.ms && y != ROOT && ROOT in s.ms
    requires forall d :: d in s.descs ==> s.descs[d].mount in s.ms
    ensures Counted(Mounted(s, p, y, r))
  {
    var s' := Mounted(s, p, y, r);
    forall k | k in s'.ms && k != ROOT
      ensures CountOk(s', k)
    {
      assert k != y ==> CountOk(s, k);
      assert OpenOn(s', k) == OpenOn(s, k);
      assert k == y ==> OpenOn(s, k) == {};
    }
  }

  lemma UnmountedKeeps(s: State, m: Id)
    requires Inv(s) && m in s.ms && m != ROOT && s.ms[m].refCount == 0
    ensures Inv(Unmounted(s, m))
  {
    assert CountOk(s, m);
    UnmountKeeps(s.ms, m);
    UnmountCounts(s, m);
    forall d | d in s.descs
      ensures s.descs[d].mount != m
    {
      assert s.descs[d].mount == m ==> d in OpenOn(s, m);
    }
  }

  lemma UnmountCounts(s: State, m: Id)
    requires Inv(s) && m in s.ms && m != ROOT
    ensures Counted(Unmounted(s, m))
  {
    assert Linked(s.ms, m);
    var r := s.ms[m].parent;
    var s' := Unmounted(s, m);
    assert NoDup(s.ms[r].children);
    ExceptNoDup(s.ms[r].children, m);
    forall k | k in s'.ms && k != ROOT
      ensures CountOk(s', k)
    {
      assert CountOk(s, k);
      assert OpenOn(s', k) == OpenOn(s, k);
    }
  }

  lemma UnmountStepKeeps(s: State, p: string)
    requires Inv(s)
    ensures Inv(UnmountStep(s, p).0)
  {
    var m := Lookup(s.ms, p);
    if m != ROOT && p == s.ms[m].path && s.ms[m].refCount == 0 { UnmountedKeeps(s, m); }
  }

  lemma ClosedKeeps(s: State, d: Id)
    requires Inv(s) && d in s.descs
    ensures Inv(Closed(s, d))
  {
    if s.descs[d].refs > 1 { RefsKeep(s, d, s.descs[d].refs - 1); } else { CloseKeeps(s, d); }
  }

  lemma StepKeeps(s: State, op: Op)
    requires Inv(s) && Legal(s, op)
    ensures Inv(Step(s, op).0)
  {
    match op {
      case DoMount(p, y, walk) =>
        MountStepKeeps(s, p, y, walk);
      case DoUnmount(p) => UnmountStepKeeps(s, p);
      case DoOpen(p, d, walk) =>
        if walk.Finds? { OpenKeeps(s, Lookup(s.ms, p), d); }
      case DoClose(d) =>
        if d != 0 { ClosedKeeps(s, d); }
      case DoAddRef(d) =>
        if d != 0 { RefsKeep(s, d, s.descs[d].refs + 1); }
      case DoAccess(_, _) =>
    }
  }

  /** A call that fails leaves every mount, count and descriptor as it was. */
  lemma FailureChangesNothing(s: State, op: Op)
    requires Inv(s) && Legal(s, op) && Step(s, op).1.Err?
    ensures Step(s, op).0 == s
  {}

  // ----- whole runs

  ghost predicate IsRun(ops: seq<Op>, trace: seq<State>) {
    && |trace| == |ops| + 1 && trace[0] == INITIAL
    && forall i :: 0 <= i < |ops| ==> Steps(trace[i], ops[i], trace[i + 1])
  }

  ghost predicate Steps(s: State, op: Op, s': State) {
    Inv(s) ==> Legal(s, op) && s' == Step(s, op).0
  }

  lemma InitialOk()
    ensures Inv(INITIAL)
  {}

  lemma {:induction false} RunKeeps(ops: seq<Op>, trace: seq<State>, k: nat)
    requires IsRun(ops, trace) && k <= |ops|
    ensures Inv(trace[k])
  {
    if k == 0 {
      InitialOk();
    } else {
      RunKeeps(ops, trace, k - 1);
      assert Steps(trace[k - 1], ops[k - 1], trace[k - 1 + 1]);
      StepKeeps(trace[k - 1], ops[k - 1]);
    }
  }

  /** In every reachable mount tree, lookup returns the one mount whose path is the longest
      component prefix of the path given. */
  lemma RunLookupIsLongest(ops: seq<Op>, trace: seq<State>, k: nat, p: string, x: Id)
    requires IsRun(ops, trace) && k <= |ops| && x in trace[k].ms && Applies(trace[k].ms, x, p)
    ensures var ms := trace[k].ms;
            && WellFormed(ms)
            && Applies(ms, Lookup(ms, p), p)
            && |ms[x].path| <= |ms[Lookup(ms, p)].path|
            && (|ms[x].path| == |ms[Lookup(ms, p)].path| ==> x == Lookup(ms, p))
  {
    RunKeeps(ops, trace, k);
    LookupIsLongest(trace[k].ms, p, x);
  }

  // ----- what makes a mount busy

  /** The step unmounts a mount whose parent is `m`. */
  ghost predicate UnmountsBelow(s: State, op: Op, m: Id) {
    && Inv(s) && Legal(s, op) && op.DoUnmount? && Step(s, op).1.Ok?
    && s.ms[Lookup(s.ms, op.path)].parent == m
  }

  /** How often a child of `m` was unmounted in the first `k` steps, since `m` is mounted. */
  ghost function UnmountedBelow(ops: seq<Op>, trace: seq<State>, k: nat, m: Id): nat
    requires |trace| == |ops| + 1 && k <= |ops|
  {
    if k == 0 || m !in trace[k - 1].ms then 0
    else UnmountedBelow(ops, trace, k - 1, m) + if UnmountsBelow(trace[k - 1], ops[k - 1], m) then 1 else 0
  }

  lemma StepLeft(s: State, op: Op, m: Id)
    requires Inv(s) && Legal(s, op) && m in Step(s, op).0.ms
    ensures m in s.ms ==> m in s.left
    ensures m in Step(s, op).0.left
    ensures Step(s, op).0.left[m] == (if m in s.ms then s.left[m] else 0) + if m in s.ms && UnmountsBelow(s, op, m) then 1 else 0
  {
    HasLeft(s, m);
    if op.DoUnmount? { UnmountLeft(s, op.path, m); }
  }

  lemma HasLeft(s: State, m: Id)
    requires Inv(s)
    ensures m in s.ms ==> m in s.left
  {
    assert m in s.ms && m != ROOT ==> CountOk(s, m);
  }

  lemma UnmountLeft(s: State, p: string, m: Id)
    requires Inv(s) && m in UnmountStep(s, p).0.ms
    ensures m in s.ms && m in s.left && m in UnmountStep(s, p).0.left
    ensures UnmountStep(s, p).0.left[m] ==
              s.left[m] + if UnmountStep(s, p).1.Ok? && s.ms[Lookup(s.ms, p)].parent == m then 1 else 0
  {
    HasLeft(s, m);
    var x := Lookup(s.ms, p);
    if UnmountStep(s, p).1.Ok? {
      assert Linked(s.ms, x) && UnmountStep(s, p).0 == Unmounted(s, x);
    }
  }

  /** The references left behind on a mount are those of the children unmounted from it. */
  lemma {:induction false} LeftIsUnmounted(ops: seq<Op>, trace: seq<State>, k: nat, m: Id)
    requires IsRun(ops, trace) && k <= |ops| && m in trace[k].ms
    ensures m in trace[k].left && trace[k].left[m] == UnmountedBelow(ops, trace, k, m)
  {
    if k > 0 {
      RunKeeps(ops, trace, k - 1);
      assert Steps(trace[k - 1], ops[k - 1], trace[k - 1 + 1]);
      StepLeft(trace[k - 1], ops[k - 1], m);
      if m in trace[k - 1].ms { LeftIsUnmounted(ops, trace, k - 1, m); }
    }
  }

  /** Nothing is open on `m`, nothing is mounted below it, and since it is mounted no mount below it
      was unmounted: a child that is unmounted leaves its reference on the parent. */
  ghost predicate Idle(ops: seq<Op>, trace: seq<State>, k: nat, m: Id)
    requires |trace| == |ops| + 1 && k <= |ops| && m in trace[k].ms
  {
    OpenOn(trace[k], m) == {} && trace[k].ms[m].children == [] && UnmountedBelow(ops, trace, k, m) == 0
  }

  lemma IdleIffUnreferenced(ops: seq<Op>, trace: seq<State>, k: nat, m: Id)
    requires IsRun(ops, trace) && k <= |ops| && m in trace[k].ms && m != ROOT
    ensures trace[k].ms[m].refCount == 0 <==> Idle(ops, trace, k, m)
  {
    RunKeeps(ops, trace, k);
    LeftIsUnmounted(ops, trace, k, m);
    assert CountOk(trace[k], m);
  }

  /** In every run, Unmount succeeds if and only if the path is that of an idle mount. */
  lemma RunUnmountIff(ops: seq<Op>, trace: seq<State>, k: nat, p: string)
    requires IsRun(ops, trace) && k <= |ops| && Prepared(p)
    ensures Inv(trace[k])
    ensures Step(trace[k], DoUnmount(p)).1 == Ok(()) <==>
              exists m :: m in trace[k].ms && m != ROOT && trace[k].ms[m].path == p && Idle(ops, trace, k, m)
  {
    RunKeeps(ops, trace, k);
    var s := trace[k];
    var r := Lookup(s.ms, p);
    if Step(s, DoUnmount(p)).1 == Ok(()) {
      IdleIffUnreferenced(ops, trace, k, r);
    }
    if exists m :: m in s.ms && m != ROOT && s.ms[m].path == p && Idle(ops, trace, k, m) {
      var m :| m in s.ms && m != ROOT && s.ms[m].path == p && Idle(ops, trace, k, m);
      assert Found(s.ms, m);
      IdleIffUnreferenced(ops, trace, k, m);
    }
  }

  // ----- a mount that stays busy

  function BusyRun(): seq<Op> { [DoMount("a", 1, Finds), DoMount("a/b", 2, Finds), DoUnmount("a/b")] }

  const ONE := State(
    map[ROOT := Mount("", ROOT, [1], 2), 1 := Mount("a", ROOT, [], 0)], map[], map[ROOT := 0, 1 := 0])

  const TWO := State(
    map[ROOT := Mount("", ROOT, [1], 2), 1 := Mount("a", ROOT, [2], 1), 2 := Mount("a/b", 1, [], 0)],
    map[], map[ROOT := 0, 1 := 0, 2 := 0])

  const LEFT := State(
    map[ROOT := Mount("", ROOT, [1], 2), 1 := Mount("a", ROOT, [], 1)], map[], map[ROOT := 0, 1 := 1])

  lemma BusyFirst()
    ensures Inv(ONE) && Steps(INITIAL, DoMount("a", 1, Finds), ONE)
  {
    InitialOk();
    assert Choice(INITIAL.ms, ROOT, "a") == None && Lookup(INITIAL.ms, "a") == ROOT;
    assert [] + [1] == [1];
    assert Mounted(INITIAL, "a", 1, ROOT) == ONE;
    MountStepKeeps(INITIAL, "a", 1, Finds);
  }

  lemma FirstOnly(ms: Mounts, c: Id, p: string)
    requires c in ms
    ensures First(ms, [c], p) == if Covers(ms[c].path, p) then Some(c) else None
  {
    assert Covers(ms[c].path, p) ==> FirstCovering(ms, [c], p, 0) == 0;
  }

  lemma LookupInOne()
    requires Inv(ONE)
    ensures Lookup(ONE.ms, "a/b") == 1
  {
    var ms := ONE.ms;
    FirstOnly(ms, 1, "a/b");
    assert Covers("a", "a/b");
    assert Choice(ms, ROOT, "a/b") == Some(1) && Choice(ms, 1, "a/b") == None;
    assert Find(ms, 1, "a/b") == 1;
  }

  lemma BusySecond()
    requires Inv(ONE)
    ensures Inv(TWO) && Steps(ONE, DoMount("a/b", 2, Finds), TWO)
  {
    LookupInOne();
    assert [] + [2] == [2];
    assert Mounted(ONE, "a/b", 2, 1) == TWO;
    MountStepKeeps(ONE, "a/b", 2, Finds);
  }

  lemma LookupInTwo()
    requires Inv(TWO)
    ensures Lookup(TWO.ms, "a/b") == 2
  {
    var ms := TWO.ms;
    FirstOnly(ms, 1, "a/b");
    FirstOnly(ms, 2, "a/b");
    assert Covers("a", "a/b") && Covers("a/b", "a/b");
    assert Choice(ms, ROOT, "a/b") == Some(1) && Choice(ms, 1, "a/b") == Some(2) && Choice(ms, 2, "a/b") == None;
    assert Find(ms, 2, "a/b") == 2 && Find(ms, 1, "a/b") == 2;
  }

  lemma UnmountedTwo()
    requires Inv(TWO)
    ensures Unmounted(TWO, 2) == LEFT
  {
    ExceptSingle(2);
    assert WithoutMount(TWO.ms, 2) == LEFT.ms;
    assert Unmounted(TWO, 2).left == LEFT.left;
  }

  lemma BusyThird()
    requires Inv(TWO)
    ensures Inv(LEFT) && Steps(TWO, DoUnmount("a/b"), LEFT)
  {
    LookupInTwo();
    UnmountedTwo();
    UnmountStepKeeps(TWO, "a/b");
  }

  lemma LeftIsBusy()
    requires Inv(LEFT)
    ensures Step(LEFT, DoUnmount("a")).1 == Err(MountPointBusy) && OpenOn(LEFT, 1) == {}
  {
    var ms := LEFT.ms;
    FirstOnly(ms, 1, "a");
    assert Covers("a", "a");
    assert Choice(ms, ROOT, "a") == Some(1) && Choice(ms, 1, "a") == None;
    assert Find(ms, 1, "a") == 1 && Lookup(ms, "a") == 1;
  }

  /** Mount "a", mount "a/b", unmount "a/b": nothing is open on "a" and nothing is mounted below it,
      and it cannot be unmounted. */
  lemma UnmountCanStayBusy() returns (trace: seq<State>)
    ensures IsRun(BusyRun(), trace) && Inv(trace[3])
    ensures 1 in trace[3].ms && trace[3].ms[1].path == "a" && trace[3].ms[1].children == [] && OpenOn(trace[3], 1) == {}
    ensures Step(trace[3], DoUnmount("a")).1 == Err(MountPointBusy)
  {
    BusyFirst();
    BusySecond();
    BusyThird();
    LeftIsBusy();
    trace := [INITIAL, ONE, TWO, LEFT];
    ThreeSteps(BusyRun(), trace);
  }

  lemma ThreeSteps(ops: seq<Op>, trace: seq<State>)
    requires |ops| == 3 && |trace| == 4 && trace[0] == INITIAL
    requires Steps(trace[0], ops[0], trace[1]) && Steps(trace[1], ops[1], trace[2]) && Steps(trace[2], ops[2], trace[3])
    ensures IsRun(ops, trace)
  {}

  // ----- the implementation

  class Vfs {
    var ms: Mounts
    var descs: map<Id, Desc>
    ghost var st: State

    ghost predicate Valid()
      reads this
    {
      Inv(st) && st.ms == ms && st.descs == descs
    }

    constructor ()
      ensures Valid() && st == INITIAL
    {
      ms, descs := INITIAL.ms, map[];
      st := INITIAL;
      new;
      InitialOk();
    }

    /** Index of the first child that covers `p`, or the number of children. */
    method FirstChild(cs: seq<Id>, p: string) returns (i: nat)
      requires forall c :: c in cs ==> c in ms
      ensures i == FirstCovering(ms, cs, p, 0)
    {
      i := 0;
      while i < |cs|
        invariant 0 <= i <= |cs| && FirstCovering(ms, cs, p, i) == FirstCovering(ms, cs, p, 0)
      {
        assert cs[i] in cs;
        var covers := MountCmp(p, ms[cs[i]].path);
        if covers { return; }
        i := i + 1;
      }
    }

    /** Walks down greedily, holding a reference on the mount it is at and only on that one. */
    method FindMountPoint(p: string) returns (r: Id)
      requires WellFormed(ms)
      modifies this`ms
      ensures r in old(ms) && r == Lookup(old(ms), p) && ms == Acquired(old(ms), r)
    {
      ghost var ms0 := ms;
      r := ROOT;
      while true
        invariant r in ms0 && ms == Acquired(ms0, r) && Find(ms0, r, p) == Lookup(ms0, p)
        decreases |p| + 1 - |ms0[r].path|
      {
        var cs := ms[r].children;
        assert cs == ms0[r].children;
        AcquiredFirst(ms0, r, p);
        var i := FirstChild(cs, p);
        if i == |cs| { return; }
        MoveReference(r, cs[i], ms0);
        r := cs[i];
      }
    }

    /** Takes the reference on the child, then drops the one on its parent. */
    method MoveReference(r: Id, next: Id, ghost ms0: Mounts)
      requires Down(ms0) && r in ms0 && next in ms0[r].children && ms == Acquired(ms0, r)
      modifies this`ms
      ensures next in ms0 && ms == Acquired(ms0, next)
    {
      MoveDown(ms0, r, next);
      ms := ms[next := ms[next].(refCount := ms[next].refCount + 1)];
      if r != ROOT { ms := ms[r := ms[r].(refCount := ms[r].refCount - 1)]; }
    }

    /** AdvancePath, then: is anything of the path left below the mount? */
    method AtMountPoint(p: string, m: string) returns (at: bool)
      requires Prepared(p) && m <= p && (m == "" || Covers(m, p))
      ensures at == (p == m)
    {
      var rest := p[|m|..];
      if rest != "" && rest[0] == '/' { rest := rest[1..]; }
      at := rest == "";
      assert p == m + p[|m|..];
      assert |p| == |m| + 1 ==> p[|p| - 1] == p[|m|..][0];
    }

    method ReleaseMountPoint(m: Id)
      requires m in ms && (m == ROOT || ms[m].refCount > 0)
      modifies this`ms
      ensures ms == Released(old(ms), m)
    {
      if m != ROOT { ms := ms[m := ms[m].(refCount := ms[m].refCount - 1)]; }
    }

    /** FindMountPoint, and whether the path is that of the mount found. */
    method Locate(p: string) returns (m: Id, at: bool)
      requires Valid() && Prepared(p)
      modifies this`ms
      ensures m in st.ms && m == Lookup(st.ms, p) && ms == Acquired(st.ms, m)
      ensures at == (p == st.ms[m].path)
    {
      m := FindMountPoint(p);
      LookupPrefix(st.ms, p);
      at := AtMountPoint(p, ms[m].path);
    }

    /** Drops the reference that FindMountPoint took. */
    method GiveBack(m: Id)
      requires m in st.ms && ms == Acquired(st.ms, m)
      modifies this`ms
      ensures ms == st.ms
    {
      ReleaseUndoes(st.ms, m);
      ReleaseMountPoint(m);
    }

    method Mount(p: string, y: Id, walk: Walk) returns (r: Status)
      requires Valid() && Legal(st, DoMount(p, y, walk))
      modifies this
      ensures Valid() && (st, r) == Step(old(st), DoMount(p, y, walk))
    {
      var m, at := Locate(p);
      if at {
        GiveBack(m);
        return Err(FolderAlreadyMounted);
      }
      if walk.Fails? {
        GiveBack(m);
        return Err(walk.error);
      }
      // the new mount inherits the reference on its parent
      MountedKeeps(st, p, y);
      ms := WithMount(ms, y, p, m);
      st := Mounted(st, p, y, m);
      r := Ok(());
    }

    method Unmount(p: string) returns (r: Status)
      requires Valid() && Prepared(p)
      modifies this
      ensures Valid() && (st, r) == Step(old(st), DoUnmount(p))
    {
      var m, at := Locate(p);
      if m == ROOT {
        return Err(UnmountRoot);
      }
      if !at {
        GiveBack(m);
        return Err(NotAMountPoint);
      }
      if ms[m].refCount == 1 {
        UnmountLeaf(st, ms, m);
        UnmountedKeeps(st, m);
        ms := WithoutMount(ms, m);
        st := Unmounted(st, m);
        return Ok(());
      } else {
        GiveBack(m);
        return Err(MountPointBusy);
      }
    }

    method Open(p: string, d: Id, walk: Walk) returns (r: Status)
      requires Valid() && Legal(st, DoOpen(p, d, walk))
      modifies this
      ensures Valid() && (st, r) == Step(old(st), DoOpen(p, d, walk))
    {
      var m := FindMountPoint(p);
      if walk.Fails? {
        GiveBack(m);
        return Err(walk.error);
      }
      OpenKeeps(st, m, d);
      descs := descs[d := Desc(m, 1)];
      st := Opened(st, m, d);
      r := Ok(());
    }

    method Close(d: Id) returns (r: Status)
      requires Valid() && Legal(st, DoClose(d))
      modifies this
      ensures Valid() && (st, r) == Step(old(st), DoClose(d))
    {
      if d == 0 { return Err(InvalidFD); }
      ClosedKeeps(st, d);
      HasReference(st, d);
      var desc := descs[d];
      if desc.refs - 1 == 0 {
        ReleaseMountPoint(desc.mount);
        descs := descs - {d};
      } else {
        descs := descs[d := desc.(refs := desc.refs - 1)];
      }
      st := Closed(st, d);
      r := Ok(());
    }

    method AddRef(d: Id) returns (r: Status)
      requires Valid() && Legal(st, DoAddRef(d))
      modifies this
      ensures Valid() && (st, r) == Step(old(st), DoAddRef(d))
    {
      if d == 0 { return Err(InvalidFD); }
      RefsKeep(st, d, st.descs[d].refs + 1);
      descs := descs[d := descs[d].(refs := descs[d].refs + 1)];
      st := Counting(st, d, st.descs[d].refs + 1);
      r := Ok(());
    }

    /** Any other path operation: whatever the walk finds, the mount is released again. */
    method Access(p: string, walk: Walk) returns (r: Status)
      requires Valid() && Prepared(p)
      modifies this
      ensures Valid() && (st, r) == Step(old(st), DoAccess(p, walk))
    {
      var m := FindMountPoint(p);
      GiveBack(m);
      r := if walk.Fails? then Err(walk.error) else Ok(());
    }
  }

  lemma AcquiredFirst(ms: Mounts, r: Id, p: string)
    requires Down(ms) && r in ms
    ensures var cs := ms[r].children;
            && (forall c :: c in cs ==> c in Acquired(ms, r))
            && var i := FirstCovering(Acquired(ms, r), cs, p, 0);
               Choice(ms, r, p) == if i == |cs| then None else Some(cs[i])
  {}

  /** Taking the reference on the child and dropping the one on the parent. */
  lemma MoveDown(ms: Mounts, r: Id, c: Id)
    requires Down(ms) && r in ms && c in ms[r].children
    ensures c != r && c in ms && c != ROOT
    ensures var ms1 := Acquired(ms, r);
            && var ms2 := ms1[c := ms1[c].(refCount := ms1[c].refCount + 1)];
            && (r != ROOT ==> ms2[r].refCount > 0)
            && Acquired(ms, c) == if r != ROOT then ms2[r := ms2[r].(refCount := ms2[r].refCount - 1)] else ms2
  {}

  lemma LookupPrefix(ms: Mounts, p: string)
    requires WellFormed(ms)
    ensures var m := Lookup(ms, p); m in ms && ms[m].path <= p && (ms[m].path == "" || Covers(ms[m].path, p))
  {}

  lemma UnmountLeaf(s: State, ms: Mounts, m: Id)
    requires Inv(s) && m in s.ms && m != ROOT && ms == Acquired(s.ms, m)
    ensures s.ms[m].parent in s.ms && ms[m].parent in ms && WithoutMount(ms, m) == WithoutMount(s.ms, m)
  {
    assert Linked(s.ms, m);
  }
}
