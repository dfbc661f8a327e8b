/** What each call does to the mounts and the descriptors, entry by entry, and which lookups end
    somewhere else after a mount or an unmount.
 */
module MountEffects {
  import opened Wrappers
  import opened Sequences
  import opened MountTree
  import opened MountTable

  /** `m` is mounted at path `p`. */
  ghost predicate MountedAt(s: State, m: Id, p: string) { m in s.ms && s.ms[m].path == p }

  ghost predicate NothingAt(s: State, p: string) { forall m :: !MountedAt(s, m, p) }

  lemma LookupAt(s: State, p: string)
    requires Inv(s)
    ensures s.ms[Lookup(s.ms, p)].path == p <==> exists m :: MountedAt(s, m, p)
    ensures forall m :: MountedAt(s, m, p) ==> m == Lookup(s.ms, p)
  {
    forall m | MountedAt(s, m, p)
      ensures m == Lookup(s.ms, p)
    {
      assert Found(s.ms, m);
    }
    assert s.ms[Lookup(s.ms, p)].path == p ==> MountedAt(s, Lookup(s.ms, p), p);
  }

  // ----- Mount

  lemma MountStatus(s: State, p: string, y: Id, walk: Walk)
    requires Inv(s) && Legal(s, DoMount(p, y, walk))
    ensures var r := Step(s, DoMount(p, y, walk)).1;
            && (r == Ok(()) <==> walk.Finds? && forall m :: !MountedAt(s, m, p))
            && (r.Err? ==> r.error == if exists m :: MountedAt(s, m, p) then FolderAlreadyMounted else walk.error)
  {
    LookupAt(s, p);
  }

  /** One new mount, last among the children of the mount its path belonged to, which gets a reference
      unless it is the root; all other mounts and all descriptors are as they were. */
  lemma MountEffect(s: State, p: string, y: Id, walk: Walk)
    requires Inv(s) && Legal(s, DoMount(p, y, walk)) && Step(s, DoMount(p, y, walk)).1.Ok?
    ensures var s', r := Step(s, DoMount(p, y, walk)).0, Lookup(s.ms, p);
            && s'.ms.Keys == s.ms.Keys + {y} && s'.descs == s.descs
            && s'.ms[y] == Mount(p, r, [], 0)
            && s'.ms[r] == s.ms[r].(children := s.ms[r].children + [y], refCount := s.ms[r].refCount + if r == ROOT then 0 else 1)
            && forall m :: m in s.ms && m != r ==> s'.ms[m] == s.ms[m]
  {}

  /** The lookups that ended at its parent and lie below its path now end at the new mount; no other
      lookup changes. */
  lemma MountLookups(s: State, p: string, y: Id, walk: Walk, q: string)
    requires Inv(s) && Legal(s, DoMount(p, y, walk)) && Step(s, DoMount(p, y, walk)).1.Ok?
    ensures var s', r := Step(s, DoMount(p, y, walk)).0, Lookup(s.ms, p);
            Down(s'.ms) && Lookup(s'.ms, q) == if Lookup(s.ms, q) == r && Covers(p, q) then y else Lookup(s.ms, q)
  {
    var r := Lookup(s.ms, p);
    var ms1 := Acquired(s.ms, r);
    StepKeeps(s, DoMount(p, y, walk));
    AcquiredShape(s.ms, r);
    SameShapeFind(s.ms, ms1, ROOT, q);
    assert p != "" by { assert Found(s.ms, ROOT); }
    LongerThanParent(s.ms, p);
    FindAfterMount(ms1, y, p, r, ROOT, q);
  }

  // ----- Unmount

  lemma UnmountStatus(s: State, p: string)
    requires Inv(s) && Legal(s, DoUnmount(p))
    ensures var r := Step(s, DoUnmount(p)).1;
            && (r == Ok(()) <==> exists m :: m != ROOT && MountedAt(s, m, p) && s.ms[m].refCount == 0)
            && (r == Err(MountPointBusy) <==> exists m :: m != ROOT && MountedAt(s, m, p) && s.ms[m].refCount != 0)
            && (r == Err(UnmountRoot) <==> forall m :: m in s.ms && m != ROOT ==> !Covers(s.ms[m].path, p))
            && (r.Err? ==> r.error == MountPointBusy || r.error == UnmountRoot || r.error == NotAMountPoint)
  {
    var x := Lookup(s.ms, p);
    LookupAt(s, p);
    if x != ROOT {
      assert Covers(s.ms[x].path, p);
    } else {
      forall m | m in s.ms && m != ROOT
        ensures !Covers(s.ms[m].path, p)
      {
        if Covers(s.ms[m].path, p) { LookupIsLongest(s.ms, p, m); }
      }
      assert forall m :: MountedAt(s, m, p) ==> m == ROOT;
    }
  }

  /** Mount `m` is gone, its parent has all its other children in their order, and all other mounts are
      as they were. */
  ghost predicate Removed(ms: Mounts, ms': Mounts, m: Id) {
    && m in ms && m != ROOT && ms'.Keys == ms.Keys - {m}
    && var r := ms[m].parent;
       && r in ms && r != m
       && (exists i :: 0 <= i < |ms[r].children| && ms[r].children[i] == m &&
             ms'[r] == ms[r].(children := ms[r].children[..i] + ms[r].children[i + 1..]))
       && forall x :: x in ms && x != m && x != r ==> ms'[x] == ms[x]
  }

  lemma WithoutRemoves(ms: Mounts, m: Id)
    requires WellFormed(ms) && m in ms && m != ROOT
    ensures ms[m].parent in ms && Removed(ms, WithoutMount(ms, m), m)
  {
    assert Linked(ms, m);
    var cs := ms[ms[m].parent].children;
    var i :| 0 <= i < |cs| && cs[i] == m;
    assert NoDup(cs);
    ExceptIsRemoveAt(cs, i);
  }

  lemma UnmountEffect(s: State, p: string, m: Id)
    requires Inv(s) && Legal(s, DoUnmount(p)) && Step(s, DoUnmount(p)).1.Ok? && MountedAt(s, m, p)
    ensures Removed(s.ms, Step(s, DoUnmount(p)).0.ms, m) && Step(s, DoUnmount(p)).0.descs == s.descs
  {
    LookupAt(s, p);
    WithoutRemoves(s.ms, m);
  }

  /** Afterwards nothing is mounted there. */
  lemma UnmountClears(s: State, p: string)
    requires Inv(s) && Legal(s, DoUnmount(p)) && Step(s, DoUnmount(p)).1.Ok?
    ensures NothingAt(Step(s, DoUnmount(p)).0, p)
  {
    var m := Lookup(s.ms, p);
    LookupAt(s, p);
    assert MountedAt(s, m, p);
    UnmountEffect(s, p, m);
    RemovedClears(s, Step(s, DoUnmount(p)).0, m, p);
  }

  lemma RemovedClears(s: State, s': State, m: Id, p: string)
    requires Removed(s.ms, s'.ms, m) && forall x :: MountedAt(s, x, p) ==> x == m
    ensures NothingAt(s', p)
  {
    forall x
      ensures !MountedAt(s', x, p)
    {
      assert x in s'.ms ==> x in s.ms && x != m && s'.ms[x].path == s.ms[x].path;
      assert MountedAt(s, x, p) ==> x == m;
    }
  }

  /** Another child of the parent of `m` is mounted at a directory above `m`: it was mounted later. */
  ghost predicate Sheltered(ms: Mounts, m: Id)
    requires Down(ms) && m in ms && ms[m].parent in ms
  {
    exists c :: c in ms[ms[m].parent].children && c != m && c in ms && Covers(ms[c].path, ms[m].path)
  }

  /** A lookup that ended at `y` gets as far as its parent when `y` is gone. */
  lemma {:induction false} FindAtParent(ms: Mounts, y: Id, x: Id, q: string)
    requires Down(ms) && y in ms && y != ROOT && ms[y].children == [] && ms[y].parent in ms && ms[y].parent != y
    requires x in ms && x != y && Find(ms, x, q) == y && Down(WithoutMount(ms, y))
    ensures Find(WithoutMount(ms, y), x, q) == Find(WithoutMount(ms, y), ms[y].parent, q)
    decreases |q| + 1 - |ms[x].path|
  {
    var c := Choice(ms, x, q).value;
    if c != y {
      ChoiceAfterUnmount(ms, y, x, q);
      FindAtParent(ms, y, c, q);
    }
  }

  lemma IsLeaf(s: State, m: Id)
    requires Inv(s) && m in s.ms && m != ROOT && s.ms[m].refCount == 0
    ensures s.ms[m].children == [] && s.ms[m].parent in s.ms && m in s.ms[s.ms[m].parent].children
  {
    assert CountOk(s, m) && Linked(s.ms, m);
  }

  /** Lookups that ended elsewhere do not change. */
  lemma OtherLookups(s: State, p: string, m: Id, q: string)
    requires Inv(s) && Legal(s, DoUnmount(p)) && Step(s, DoUnmount(p)).1.Ok? && MountedAt(s, m, p) && Lookup(s.ms, q) != m
    ensures var ms' := Step(s, DoUnmount(p)).0.ms; Down(ms') && Lookup(ms', q) == Lookup(s.ms, q)
  {
    LookupAt(s, p);
    StepKeeps(s, DoUnmount(p));
    IsLeaf(s, m);
    FindAfterUnmount(s.ms, m, ROOT, q);
  }

  /** A lookup that ended at the mount that is gone ends at its parent if and only if no sibling is
      mounted above it; otherwise it ends at the longest mount that is left, like every lookup. */
  lemma UnmountLookups(s: State, p: string, m: Id, q: string)
    requires Inv(s) && Legal(s, DoUnmount(p)) && Step(s, DoUnmount(p)).1.Ok? && MountedAt(s, m, p) && Lookup(s.ms, q) == m
    ensures var ms' := Step(s, DoUnmount(p)).0.ms;
            && Down(ms') && s.ms[m].parent in s.ms
            && (Lookup(ms', q) == s.ms[m].parent <==> !Sheltered(s.ms, m))
  {
    LookupAt(s, p);
    UnmountStepKeeps(s, p);
    IsLeaf(s, m);
    LookupsWithout(s.ms, m, q);
  }

  lemma LookupsWithout(ms: Mounts, m: Id, q: string)
    requires SelfFinding(ms) && m in ms && m != ROOT && ms[m].children == [] && ms[m].parent in ms
    requires SelfFinding(WithoutMount(ms, m)) && Lookup(ms, q) == m
    ensures Lookup(WithoutMount(ms, m), q) == ms[m].parent <==> !Sheltered(ms, m)
  {
    var ms', r := WithoutMount(ms, m), ms[m].parent;
    WithoutRemoves(ms, m);
    FindAtParent(ms, m, ROOT, q);
    if Sheltered(ms, m) {
      var c :| c in ms[r].children && c != m && c in ms && Covers(ms[c].path, ms[m].path);
      CoversTrans(ms[c].path, ms[m].path, q);
      assert ms'[c].path == ms[c].path && ms'[r].path == ms[r].path;
      LookupIsLongest(ms', q, c);
    } else {
      NoShelter(ms, m, q);
    }
  }

  lemma NoShelter(ms: Mounts, m: Id, q: string)
    requires SelfFinding(ms) && m in ms && m != ROOT && ms[m].parent in ms && ms[m].parent != m
    requires Lookup(ms, q) == m && !Sheltered(ms, m) && Down(WithoutMount(ms, m)) && ms[m].parent in WithoutMount(ms, m)
    ensures Find(WithoutMount(ms, m), ms[m].parent, q) == ms[m].parent
  {
    var ms', r := WithoutMount(ms, m), ms[m].parent;
    var c := Choice(ms', r, q);
    if c.Some? {
      var x := c.value;
      assert x in ms[r].children && x != m && ms'[x].path == ms[x].path;
      LookupIsLongest(ms, q, x);
      CoversNested(ms[x].path, ms[m].path, q);
      assert false;
    }
  }

  // ----- descriptors

  /** Open: one new descriptor with one user, and one reference on the mount the path belongs to. */
  lemma OpenEffect(s: State, p: string, d: Id, walk: Walk)
    requires Inv(s) && Legal(s, DoOpen(p, d, walk))
    ensures var (s', r) := Step(s, DoOpen(p, d, walk));
            && r == (if walk.Finds? then Ok(()) else Err(walk.error))
            && (r.Ok? ==>
                  var m := Lookup(s.ms, p);
                  && s'.descs == s.descs[d := Desc(m, 1)] && s'.ms.Keys == s.ms.Keys
                  && s'.ms[m] == s.ms[m].(refCount := s.ms[m].refCount + if m == ROOT then 0 else 1)
                  && forall x :: x in s.ms && x != m ==> s'.ms[x] == s.ms[x])
  {}

  /** Close: one user less, and with the last one the descriptor and its reference are gone. */
  lemma CloseEffect(s: State, d: Id)
    requires Inv(s) && Legal(s, DoClose(d))
    ensures var (s', r) := Step(s, DoClose(d));
            if d == 0 then r == Err(InvalidFD)
            else if s.descs[d].refs > 1 then
              r == Ok(()) && s'.ms == s.ms && s'.descs == s.descs[d := Desc(s.descs[d].mount, s.descs[d].refs - 1)]
            else
              var m := s.descs[d].mount;
              && r == Ok(()) && s'.descs == s.descs - {d} && s'.ms.Keys == s.ms.Keys && m in s.ms
              && (m != ROOT ==> s.ms[m].refCount > 0 && s'.ms[m] == s.ms[m].(refCount := s.ms[m].refCount - 1))
              && forall x :: x in s.ms && (x != m || m == ROOT) ==> s'.ms[x] == s.ms[x]
  {
    if d != 0 { HasReference(s, d); }
  }

  lemma OthersEffect(s: State, op: Op)
    requires Inv(s) && Legal(s, op) && (op.DoAddRef? || op.DoAccess?)
    ensures var (s', r) := Step(s, op);
            && s'.ms == s.ms
            && (op.DoAccess? ==> s'.descs == s.descs && r == if op.walk.Finds? then Ok(()) else Err(op.walk.error))
            && (op.DoAddRef? && op.desc == 0 ==> r == Err(InvalidFD))
            && (op.DoAddRef? && op.desc != 0 ==>
                  r == Ok(()) && s'.descs == s.descs[op.desc := Desc(s.descs[op.desc].mount, s.descs[op.desc].refs + 1)])
  {}

  // ----- over whole runs

  /** In every run, after a successful Unmount nothing is mounted at its path. */
  lemma RunUnmountClears(ops: seq<Op>, trace: seq<State>, k: nat, p: string)
    requires IsRun(ops, trace) && k < |ops| && ops[k] == DoUnmount(p)
    ensures Inv(trace[k]) && Legal(trace[k], DoUnmount(p))
    ensures Step(trace[k], DoUnmount(p)).1.Ok? ==> NothingAt(trace[k + 1], p)
  {
    RunKeeps(ops, trace, k);
    assert Steps(trace[k], ops[k], trace[k + 1]);
    if Step(trace[k], DoUnmount(p)).1.Ok? { UnmountClears(trace[k], p); }
  }

  // ----- a sheltered mount

  const LATER := State(
    map[ROOT := Mount("", ROOT, [1, 2], 2), 1 := Mount("a/b", ROOT, [], 0), 2 := Mount("a", ROOT, [], 0)],
    map[], map[ROOT := 0, 1 := 0, 2 := 0])

  const EARLIER := State(
    map[ROOT := Mount("", ROOT, [1], 2), 1 := Mount("a/b", ROOT, [], 0)], map[], map[ROOT := 0, 1 := 0])

  lemma EarlierMounted()
    ensures Inv(EARLIER) && Steps(INITIAL, DoMount("a/b", 1, Finds), EARLIER)
  {
    InitialOk();
    assert Choice(INITIAL.ms, ROOT, "a/b") == None && Lookup(INITIAL.ms, "a/b") == ROOT;
    assert [] + [1] == [1];
    assert Mounted(INITIAL, "a/b", 1, ROOT) == EARLIER;
    MountStepKeeps(INITIAL, "a/b", 1, Finds);
  }

  lemma LaterMounted()
    requires Inv(EARLIER)
    ensures Inv(LATER) && Steps(EARLIER, DoMount("a", 2, Finds), LATER)
  {
    FirstOnly(EARLIER.ms, 1, "a");
    assert Choice(EARLIER.ms, ROOT, "a") == None && Lookup(EARLIER.ms, "a") == ROOT;
    assert [1] + [2] == [1, 2];
    assert Mounted(EARLIER, "a", 2, ROOT) == LATER;
    MountStepKeeps(EARLIER, "a", 2, Finds);
  }

  /** Mount "a/b", then "a", and unmount "a/b": lookups below "a/b" now end at "a", not at the root,
      which was its parent. */
  lemma ShelteredHappens() returns (trace: seq<State>)
    ensures IsRun([DoMount("a/b", 1, Finds), DoMount("a", 2, Finds)], trace) && Inv(trace[2])
    ensures MountedAt(trace[2], 1, "a/b") && trace[2].ms[1].parent == ROOT && Sheltered(trace[2].ms, 1)
    ensures Legal(trace[2], DoUnmount("a/b")) && Step(trace[2], DoUnmount("a/b")).1.Ok?
  {
    EarlierMounted();
    LaterMounted();
    LaterSheltered();
    trace := [INITIAL, EARLIER, LATER];
    TwoSteps([DoMount("a/b", 1, Finds), DoMount("a", 2, Finds)], trace);
  }

  lemma LaterSheltered()
    requires Inv(LATER)
    ensures MountedAt(LATER, 1, "a/b") && LATER.ms[1].parent == ROOT && Sheltered(LATER.ms, 1)
    ensures Legal(LATER, DoUnmount("a/b")) && Step(LATER, DoUnmount("a/b")).1.Ok?
  {
    assert Covers("a", "a/b") && 2 in LATER.ms[ROOT].children;
    assert MountedAt(LATER, 1, "a/b");
    UnmountStatus(LATER, "a/b");
  }

  lemma TwoSteps(ops: seq<Op>, trace: seq<State>)
    requires |ops| == 2 && |trace| == 3 && trace[0] == INITIAL
    requires Steps(trace[0], ops[0], trace[1]) && Steps(trace[1], ops[1], trace[2])
    ensures IsRun(ops, trace)
  {}
}
