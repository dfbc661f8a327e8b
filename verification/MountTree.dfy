/** The mount tree and its lookup: FindMountPoint walks down from the root mount, at every level
    into the first child whose path covers the path looked for. Paths are prepared paths.
 */
module MountTree {
  import opened Wrappers
  import opened Sequences

  type Id = nat

  const ROOT: Id := 0

  datatype Mount = Mount(path: string, parent: Id, children: seq<Id>, refCount: nat)

  type Mounts = map<Id, Mount>

  /** MountCmp: `m` is `p` or a directory prefix of it. */
  predicate Covers(m: string, p: string) {
    m <= p && (|m| == |p| || p[|m|] == '/')
  }

  lemma CoversTrans(a: string, b: string, c: string)
    requires Covers(a, b) && Covers(b, c)
    ensures Covers(a, c)
  {}

  /** Two prefixes of the same path: the shorter covers the longer. */
  lemma CoversNested(a: string, b: string, p: string)
    requires Covers(a, p) && Covers(b, p) && |a| <= |b|
    ensures Covers(a, b)
  {}

  /** Mount `m` applies to path `p`; the root mount applies to every path. */
  predicate Applies(ms: Mounts, m: Id, p: string)
    requires m in ms
  {
    m == ROOT || Covers(ms[m].path, p)
  }

  /** Child links lead to mounts that link back, and paths get longer on the way down. */
  ghost predicate Down(ms: Mounts) {
    && ROOT in ms && ms[ROOT].path == ""
    && (forall m, c :: m in ms && c in ms[m].children ==>
          c in ms && c != ROOT && ms[c].parent == m && |ms[m].path| < |ms[c].path|)
  }

  ghost predicate NoDups(ms: Mounts) {
    forall m :: m in ms ==> NoDup(ms[m].children)
  }

  /** A mount is in the child list of its parent. */
  predicate Linked(ms: Mounts, c: Id)
    requires c in ms
  {
    ms[c].parent in ms && c in ms[ms[c].parent].children
  }

  ghost predicate WellFormed(ms: Mounts) {
    Down(ms) && NoDups(ms) && forall c {:trigger Linked(ms, c)} :: c in ms && c != ROOT ==> Linked(ms, c)
  }

  /** Position of the first child in `cs` from `from` on whose path covers `p`, or |cs|. */
  function FirstCovering(ms: Mounts, cs: seq<Id>, p: string, from: nat): (i: nat)
    requires from <= |cs| && forall c :: c in cs ==> c in ms
    ensures from <= i <= |cs|
    ensures i < |cs| ==> Covers(ms[cs[i]].path, p)
    ensures forall k :: from <= k < i ==> !Covers(ms[cs[k]].path, p)
    decreases |cs| - from
  {
    if from == |cs| || Covers(ms[cs[from]].path, p) then from else FirstCovering(ms, cs, p, from + 1)
  }

  /** The child of `m` the descent goes into, if any. */
  ghost function Choice(ms: Mounts, m: Id, p: string): (c: Option<Id>)
    requires Down(ms) && m in ms
    ensures c.Some? ==> c.value in ms[m].children && c.value in ms && Covers(ms[c.value].path, p)
  {
    First(ms, ms[m].children, p)
  }

  function First(ms: Mounts, cs: seq<Id>, p: string): (c: Option<Id>)
    requires forall c :: c in cs ==> c in ms
    ensures c.Some? ==> c.value in cs && Covers(ms[c.value].path, p)
  {
    var i := FirstCovering(ms, cs, p, 0);
    if i == |cs| then None else Some(cs[i])
  }

  /** Where the greedy descent from mount `m` ends. */
  ghost function Find(ms: Mounts, m: Id, p: string): (r: Id)
    requires Down(ms) && m in ms
    ensures r in ms && |ms[m].path| <= |ms[r].path|
    ensures r == m || Covers(ms[r].path, p)
    decreases |p| + 1 - |ms[m].path|
  {
    var c := Choice(ms, m, p);
    if c.None? then m else Find(ms, c.value, p)
  }

  ghost function Lookup(ms: Mounts, p: string): Id
    requires Down(ms)
  {
    Find(ms, ROOT, p)
  }

  /** Every mount is found by its own path. This is what Mount and Unmount keep. */
  ghost predicate SelfFinding(ms: Mounts) {
    WellFormed(ms) && forall m {:trigger Found(ms, m)} :: m in ms ==> Found(ms, m)
  }

  ghost predicate Found(ms: Mounts, m: Id)
    requires Down(ms) && m in ms
  {
    Lookup(ms, ms[m].path) == m
  }

  // ----- greedy is longest

  lemma {:induction false} DescentKeepsUp(ms: Mounts, m: Id, x: Id, p: string)
    requires Down(ms) && m in ms && x in ms && Applies(ms, x, p)
    requires Find(ms, m, ms[x].path) == x
    ensures |ms[x].path| <= |ms[Find(ms, m, p)].path|
    decreases |p| + 1 - |ms[m].path|
  {
    var cs, q := ms[m].children, ms[x].path;
    if First(ms, cs, q).Some? {
      assert x != ROOT by { assert x == ROOT ==> |q| == 0; }
      FirstForLonger(ms, cs, q, p);
      var c := First(ms, cs, p).value;
      if Some(c) == First(ms, cs, q) { DescentKeepsUp(ms, c, x, p); }
    }
  }

  /** Lookups of a path and of one below it take the same child, or the longer one takes a child
      whose path the shorter one does not reach. */
  lemma FirstForLonger(ms: Mounts, cs: seq<Id>, q: string, p: string)
    requires (forall c :: c in cs ==> c in ms) && Covers(q, p) && First(ms, cs, q).Some?
    ensures First(ms, cs, p).Some?
    ensures First(ms, cs, p) == First(ms, cs, q) || |q| < |ms[First(ms, cs, p).value].path|
  {
    var i, j := FirstCovering(ms, cs, p, 0), FirstCovering(ms, cs, q, 0);
    CoversTrans(ms[cs[j]].path, q, p);
    assert i <= j;
    if i < j && |ms[cs[i]].path| <= |q| {
      CoversNested(ms[cs[i]].path, q, p);
      assert false;
    }
  }

  /** The greedy first-match descent returns the mount with the longest path that is a component
      prefix of `p`, over the whole tree. */
  lemma LookupIsLongest(ms: Mounts, p: string, x: Id)
    requires SelfFinding(ms) && x in ms && Applies(ms, x, p)
    ensures Applies(ms, Lookup(ms, p), p)
    ensures |ms[x].path| <= |ms[Lookup(ms, p)].path|
    ensures |ms[x].path| == |ms[Lookup(ms, p)].path| ==> x == Lookup(ms, p)
  {
    var r := Lookup(ms, p);
    assert Found(ms, x) && Found(ms, r) && Found(ms, ROOT);
    DescentKeepsUp(ms, ROOT, x, p);
    if |ms[x].path| == |ms[r].path| {
      assert ms[x].path == p[..|ms[x].path|] == ms[r].path;
    }
  }

  /** No two mounts have the same path. */
  lemma PathsUnique(ms: Mounts, x: Id, y: Id)
    requires SelfFinding(ms) && x in ms && y in ms && ms[x].path == ms[y].path
    ensures x == y
  {
    assert Found(ms, x) && Found(ms, y);
  }

  // ----- reference counts do not matter for lookup

  predicate SameShape(ms: Mounts, ms': Mounts) {
    && ms'.Keys == ms.Keys
    && forall m :: m in ms ==> ms'[m] == ms[m].(refCount := ms'[m].refCount)
  }

  lemma {:induction false} SameCovering(ms: Mounts, ms': Mounts, cs: seq<Id>, p: string, from: nat)
    requires from <= |cs| && forall c :: c in cs ==> c in ms && c in ms' && ms'[c].path == ms[c].path
    ensures FirstCovering(ms', cs, p, from) == FirstCovering(ms, cs, p, from)
    decreases |cs| - from
  {}

  lemma SameShapeDown(ms: Mounts, ms': Mounts)
    requires Down(ms) && SameShape(ms, ms')
    ensures Down(ms')
  {}

  lemma {:induction false} SameShapeFind(ms: Mounts, ms': Mounts, m: Id, p: string)
    requires Down(ms) && SameShape(ms, ms') && m in ms
    ensures Down(ms') && Find(ms', m, p) == Find(ms, m, p)
    decreases |p| + 1 - |ms[m].path|
  {
    SameShapeDown(ms, ms');
    SameCovering(ms, ms', ms[m].children, p, 0);
    var c := Choice(ms, m, p);
    if c.Some? { SameShapeFind(ms, ms', c.value, p); }
  }

  lemma SameShapeSelfFinding(ms: Mounts, ms': Mounts)
    requires SelfFinding(ms) && SameShape(ms, ms')
    ensures SelfFinding(ms')
  {
    SameShapeDown(ms, ms');
    assert forall m :: m in ms ==> NoDup(ms[m].children);
    forall c | c in ms' && c != ROOT
      ensures Linked(ms', c)
    {
      assert Linked(ms, c);
    }
    forall m | m in ms'
      ensures Found(ms', m)
    {
      assert Found(ms, m);
      SameShapeFind(ms, ms', ROOT, ms[m].path);
    }
  }

  // ----- adding a mount

  function WithMount(ms: Mounts, y: Id, p: string, r: Id): Mounts
    requires r in ms
  {
    ms[r := ms[r].(children := ms[r].children + [y])][y := Mount(p, r, [], 0)]
  }

  lemma WithMountDown(ms: Mounts, y: Id, p: string, r: Id)
    requires Down(ms) && r in ms && y !in ms && |ms[r].path| < |p|
    ensures Down(WithMount(ms, y, p, r))
  {
    var ms' := WithMount(ms, y, p, r);
    forall m, c | m in ms' && c in ms'[m].children
      ensures c in ms' && c != ROOT && ms'[c].parent == m && |ms'[m].path| < |ms'[c].path|
    {
      assert m in ms && (c in ms[m].children || (c == y && m == r));
    }
  }

  lemma WithMountNoDups(ms: Mounts, y: Id, p: string, r: Id)
    requires Down(ms) && NoDups(ms) && r in ms && y !in ms
    ensures NoDups(WithMount(ms, y, p, r))
  {}

  lemma WithMountLinked(ms: Mounts, y: Id, p: string, r: Id, c: Id)
    requires WellFormed(ms) && r in ms && y !in ms && c != ROOT && (c == y || c in ms)
    ensures Linked(WithMount(ms, y, p, r), c)
  {
    assert c != y ==> Linked(ms, c);
  }

  lemma {:induction false} AppendCovering(ms: Mounts, ms': Mounts, cs: seq<Id>, y: Id, p: string, from: nat)
    requires from <= |cs| && (forall c :: c in cs ==> c in ms && c in ms' && ms'[c].path == ms[c].path) && y in ms'
    ensures var i := FirstCovering(ms, cs, p, from);
            FirstCovering(ms', cs + [y], p, from) ==
              if i < |cs| then i else if Covers(ms'[y].path, p) then |cs| else |cs| + 1
    decreases |cs| - from
  {
    assert (cs + [y])[|cs|] == y;
    if from < |cs| {
      assert (cs + [y])[from] == cs[from];
      if !Covers(ms[cs[from]].path, p) { AppendCovering(ms, ms', cs, y, p, from + 1); }
    }
  }

  lemma AppendFirst(ms: Mounts, ms': Mounts, cs: seq<Id>, y: Id, p: string)
    requires (forall c :: c in cs ==> c in ms && c in ms' && ms'[c].path == ms[c].path) && y in ms'
    ensures First(ms', cs + [y], p) ==
              if First(ms, cs, p).None? && Covers(ms'[y].path, p) then Some(y) else First(ms, cs, p)
  {
    AppendCovering(ms, ms', cs, y, p, 0);
  }

  lemma ChoiceAfterMount(ms: Mounts, y: Id, p: string, r: Id, m: Id, q: string)
    requires Down(ms) && r in ms && y !in ms && |ms[r].path| < |p| && m in ms
    requires Down(WithMount(ms, y, p, r))
    ensures Choice(WithMount(ms, y, p, r), m, q) ==
              if Choice(ms, m, q).None? && m == r && Covers(p, q) then Some(y) else Choice(ms, m, q)
  {
    var ms' := WithMount(ms, y, p, r);
    var cs := ms[m].children;
    assert forall c :: c in cs ==> ms'[c].path == ms[c].path;
    if m == r {
      AppendFirst(ms, ms', cs, y, q);
    } else {
      SameCovering(ms, ms', cs, q, 0);
    }
  }

  /** The new mount is reached exactly from where lookups used to end at its parent. */
  lemma {:induction false} FindAfterMount(ms: Mounts, y: Id, p: string, r: Id, m: Id, q: string)
    requires Down(ms) && r in ms && y !in ms && |ms[r].path| < |p| && m in ms
    requires Down(WithMount(ms, y, p, r))
    ensures Find(WithMount(ms, y, p, r), m, q) == if Find(ms, m, q) == r && Covers(p, q) then y else Find(ms, m, q)
    decreases |q| + 1 - |ms[m].path|
  {
    var ms' := WithMount(ms, y, p, r);
    ChoiceAfterMount(ms, y, p, r, m, q);
    var c := Choice(ms, m, q);
    if c.Some? {
      FindAfterMount(ms, y, p, r, c.value, q);
      if m == r { NotAbove(ms, c.value, r, q); }
    } else if m == r && Covers(p, q) {
      assert Choice(ms', y, q) == None;
    }
  }

  /** A descent never comes back to a mount it went below. */
  lemma NotAbove(ms: Mounts, c: Id, r: Id, q: string)
    requires Down(ms) && r in ms && c in ms[r].children
    ensures Find(ms, c, q) != r
  {}

  /** Mounting at a path that is not a mount keeps every mount findable. */
  lemma MountKeeps(ms: Mounts, y: Id, p: string)
    requires SelfFinding(ms) && y !in ms && p != ms[Lookup(ms, p)].path && p != ""
    ensures SelfFinding(WithMount(ms, y, p, Lookup(ms, p)))
  {
    var r := Lookup(ms, p);
    LongerThanParent(ms, p);
    WithMountDown(ms, y, p, r);
    WithMountNoDups(ms, y, p, r);
    var ms' := WithMount(ms, y, p, r);
    forall c | c in ms' && c != ROOT
      ensures Linked(ms', c)
    {
      WithMountLinked(ms, y, p, r, c);
    }
    forall m | m in ms'
      ensures Found(ms', m)
    {
      SelfAfterMount(ms, y, p, m);
    }
  }

  lemma SelfAfterMount(ms: Mounts, y: Id, p: string, m: Id)
    requires SelfFinding(ms) && y !in ms && p != "" && |ms[Lookup(ms, p)].path| < |p| && (m == y || m in ms)
    requires Down(WithMount(ms, y, p, Lookup(ms, p)))
    ensures var ms' := WithMount(ms, y, p, Lookup(ms, p)); Lookup(ms', ms'[m].path) == m
  {
    var r := Lookup(ms, p);
    var ms' := WithMount(ms, y, p, r);
    FindAfterMount(ms, y, p, r, ROOT, ms'[m].path);
    if m != y {
      assert ms'[m].path == ms[m].path && Found(ms, m);
      assert m == r ==> !Covers(p, ms[m].path);
    }
  }

  lemma LongerThanParent(ms: Mounts, p: string)
    requires Down(ms) && p != ms[Lookup(ms, p)].path && p != ""
    ensures |ms[Lookup(ms, p)].path| < |p|
  {}

  // ----- removing a mount without children

  function WithoutMount(ms: Mounts, y: Id): Mounts
    requires y in ms && ms[y].parent in ms
  {
    var r := ms[y].parent;
    ms[r := ms[r].(children := Except(ms[r].children, y))] - {y}
  }

  lemma WithoutMountDown(ms: Mounts, y: Id)
    requires Down(ms) && y in ms && y != ROOT && ms[y].children == [] && ms[y].parent in ms
    ensures Down(WithoutMount(ms, y))
  {
    var ms' := WithoutMount(ms, y);
    var r := ms[y].parent;
    forall m, c | m in ms' && c in ms'[m].children
      ensures c in ms' && c != ROOT && ms'[c].parent == m && |ms'[m].path| < |ms'[c].path|
    {
      assert c in ms[m].children;
    }
  }

  lemma WithoutMountNoDups(ms: Mounts, y: Id)
    requires NoDups(ms) && y in ms && ms[y].parent in ms
    ensures NoDups(WithoutMount(ms, y))
  {
    var r := ms[y].parent;
    assert NoDup(ms[r].children);
    ExceptNoDup(ms[r].children, y);
  }

  lemma WithoutMountLinked(ms: Mounts, y: Id, c: Id)
    requires WellFormed(ms) && y in ms && y != ROOT && ms[y].children == [] && ms[y].parent in ms
    requires c in ms && c != y && c != ROOT
    ensures Linked(WithoutMount(ms, y), c)
  {
    assert Linked(ms, c);
  }

  /** Leaving out a child that was not chosen does not change which child is chosen. */
  lemma {:induction false} ExceptFirst(ms: Mounts, ms': Mounts, cs: seq<Id>, y: Id, p: string)
    requires (forall c :: c in cs ==> c in ms) && (forall c :: c in cs && c != y ==> c in ms' && ms'[c].path == ms[c].path)
    requires First(ms, cs, p) != Some(y)
    ensures First(ms', Except(cs, y), p) == First(ms, cs, p)
  {
    if cs != [] {
      TailFirst(ms, cs, p);
      if cs[0] == y {
        ExceptFirst(ms, ms', cs[1..], y, p);
        assert Except(cs, y) == Except(cs[1..], y);
      } else {
        ExceptHead(cs, y);
        TailFirst(ms', Except(cs, y), p);
        if !Covers(ms[cs[0]].path, p) { ExceptFirst(ms, ms', cs[1..], y, p); }
      }
    }
  }

  lemma ExceptHead(cs: seq<Id>, y: Id)
    requires cs != [] && cs[0] != y
    ensures Except(cs, y) != [] && Except(cs, y)[0] == cs[0] && Except(cs, y)[1..] == Except(cs[1..], y)
  {}

  lemma TailFirst(ms: Mounts, cs: seq<Id>, p: string)
    requires cs != [] && forall c :: c in cs ==> c in ms
    ensures First(ms, cs, p) == if Covers(ms[cs[0]].path, p) then Some(cs[0]) else First(ms, cs[1..], p)
  {}

  lemma ChoiceAfterUnmount(ms: Mounts, y: Id, m: Id, q: string)
    requires Down(ms) && y in ms && y != ROOT && ms[y].children == [] && ms[y].parent in ms
    requires m in ms && m != y && Down(WithoutMount(ms, y)) && Choice(ms, m, q) != Some(y)
    ensures Choice(WithoutMount(ms, y), m, q) == Choice(ms, m, q)
  {
    var ms' := WithoutMount(ms, y);
    var cs := ms[m].children;
    ChildrenAfterUnmount(ms, y, m);
    ExceptFirst(ms, ms', cs, y, q);
    assert First(ms', ms'[m].children, q) == First(ms, cs, q);
  }

  lemma ChildrenAfterUnmount(ms: Mounts, y: Id, m: Id)
    requires Down(ms) && y in ms && ms[y].parent in ms && m in ms && m != y
    ensures m in WithoutMount(ms, y) && WithoutMount(ms, y)[m].children == Except(ms[m].children, y)
    ensures forall c :: c in ms[m].children && c != y ==> c in WithoutMount(ms, y) && WithoutMount(ms, y)[c].path == ms[c].path
  {
    if m != ms[y].parent { ExceptAbsent(ms[m].children, y); }
  }

  lemma {:induction false} FindAfterUnmount(ms: Mounts, y: Id, m: Id, q: string)
    requires Down(ms) && y in ms && y != ROOT && ms[y].children == [] && ms[y].parent in ms
    requires m in ms && m != y && Find(ms, m, q) != y && Down(WithoutMount(ms, y))
    ensures Find(WithoutMount(ms, y), m, q) == Find(ms, m, q)
    decreases |q| + 1 - |ms[m].path|
  {
    var c := Choice(ms, m, q);
    assert Choice(ms, y, q) == None && Find(ms, y, q) == y;
    ChoiceAfterUnmount(ms, y, m, q);
    if c.Some? { FindAfterUnmount(ms, y, c.value, q); }
  }

  lemma UnmountKeeps(ms: Mounts, y: Id)
    requires SelfFinding(ms) && y in ms && y != ROOT && ms[y].children == []
    ensures ms[y].parent in ms && SelfFinding(WithoutMount(ms, y))
  {
    assert Linked(ms, y);
    WithoutMountDown(ms, y);
    WithoutMountNoDups(ms, y);
    var ms' := WithoutMount(ms, y);
    forall c | c in ms' && c != ROOT
      ensures Linked(ms', c)
    {
      WithoutMountLinked(ms, y, c);
    }
    forall m | m in ms'
      ensures Found(ms', m)
    {
      assert ms'[m].path == ms[m].path && Found(ms, m);
      FindAfterUnmount(ms, y, ROOT, ms[m].path);
    }
  }

  /** MountCmp, character by character. */
  method MountCmp(path: string, mount: string) returns (r: bool)
    ensures r == Covers(mount, path)
  {
    var i := 0;
    while true
      invariant 0 <= i <= |mount| && i <= |path| && path[..i] == mount[..i]
      decreases |mount| - i
    {
      if i == |mount| {
        assert mount[..i] == mount;
        return i == |path| || path[i] == '/';
      }
      if i == |path| || mount[i] != path[i] {
        return false;
      }
      i := i + 1;
    }
  }
}
