/** The file operations with the references they take and give back while they run: every walk
    holds the node it is at, every error path releases what it holds, and a release destroys a
    node nothing refers to any more.
 */
module TempFsOps {
  import opened Wrappers
  import opened Sequences
  import opened TempFs

  /** What a finished walk holds on to. */
  function Held(nodes: Nodes, w: Walk): Nodes
    requires w.WRoot? ==> ROOT in nodes
    requires w.WFound? ==> w.node in nodes && w.parent in nodes
    requires w.WMissing? ==> w.parent in nodes
  {
    match w
    case WErr(_) => nodes
    case WRoot => Bumped(nodes, ROOT)
    case WFound(n, p) => Bumped(Bumped(nodes, p), n)
    case WMissing(p) => Bumped(nodes, p)
  }

  predicate Alive(nodes: Nodes, n: Id) {
    n in nodes && nodes[n].linkCount + nodes[n].refCount > 0
  }

  ghost predicate AllAlive(nodes: Nodes) {
    forall n :: n in nodes ==> Alive(nodes, n)
  }

  lemma InvAlive(s: State)
    requires Inv(s)
    ensures AllAlive(s.nodes)
  {
    forall n | n in s.nodes
      ensures Alive(s.nodes, n)
    {
      assert CountOk(s, n);
    }
  }

  /** Counts do not matter for a walk. */
  lemma {:induction false} SameTreeWalk(nodes: Nodes, t: Id, cur: Id, cs: seq<string>, u: User, mustExist: bool)
    requires Closed(nodes) && t in nodes && cur in nodes && cs != [] && Closed(Bumped(nodes, t))
    ensures WalkFrom(Bumped(nodes, t), cur, cs, u, mustExist) == WalkFrom(nodes, cur, cs, u, mustExist)
    decreases cs
  {
    var c := Child(nodes[cur], cs[0], u);
    if c.Ok? && c.value.Some? && |cs| > 1 { SameTreeWalk(nodes, t, c.value.value, cs[1..], u, mustExist); }
  }

  /** One component further. */
  lemma WalkStep(N: Nodes, cur: Id, cs: seq<string>, i: nat, u: User, mustExist: bool)
    requires Closed(N) && cur in N && i < |cs|
    ensures var c, last := Child(N[cur], cs[i], u), i + 1 == |cs|;
            WalkFrom(N, cur, cs[i..], u, mustExist) ==
              if c.Err? then WErr(c.error)
              else if c.value.None? then (if mustExist || !last then WErr(FileNotFound) else WMissing(cur))
              else if last then WFound(c.value.value, cur)
              else WalkFrom(N, c.value.value, cs[i + 1..], u, mustExist)
  {
    assert cs[i..][0] == cs[i] && cs[i..][1..] == cs[i + 1..];
  }

  /** With the target referenced, walks find the same and everything is still alive. */
  lemma TargetHeld(s: State, t: Id, cs: seq<string>, u: User)
    requires Inv(s) && t in s.nodes
    ensures Closed(Bumped(s.nodes, t)) && AllAlive(Bumped(s.nodes, t))
    ensures FolderFor(Bumped(s.nodes, t), cs, u) == FolderFor(s.nodes, cs, u)
    ensures Reap(Dropped(Bumped(s.nodes, t), t), t) == s.nodes
  {
    InvAlive(s);
    ReleaseUndoes(s.nodes, t);
    assert SameTree(s.nodes, Bumped(s.nodes, t));
    SameTreeKeeps(s.nodes, Bumped(s.nodes, t));
    if cs != [] { SameTreeWalk(s.nodes, t, ROOT, cs, u, false); }
  }

  /** What deleting entry `i` does to the maps while both references are held. */
  lemma DeleteEdits(N: Nodes, p: Id, i: nat, n: Id)
    requires p in N && i < |N[p].entries| && n in N && N[n].linkCount > 0 && n != p
    ensures var nodes := Bumped(Bumped(N, p), n);
            && var nodes1 := nodes[p := nodes[p].(entries := RemoveAt(nodes[p].entries, i))];
            && nodes1[n := nodes1[n].(linkCount := nodes1[n].linkCount - 1)] == Bumped(Bumped(Unlinked(N, p, i, n), p), n)
  {}

  lemma LinkEdits(N: Nodes, p: Id, name: string, t: Id)
    requires p in N && t in N && p != t
    ensures var nodes := Bumped(Bumped(N, t), p);
            && var nodes1 := nodes[t := nodes[t].(linkCount := nodes[t].linkCount + 1)];
            && nodes1[p := nodes1[p].(entries := nodes1[p].entries + [Entry(name, t)])] == Bumped(Bumped(WithLink(N, p, name, t), t), p)
  {}

  /** Giving back a reference taken on a live node undoes taking it. */
  lemma ReleaseUndoes(nodes: Nodes, n: Id)
    requires Alive(nodes, n)
    ensures Reap(Dropped(Bumped(nodes, n), n), n) == nodes
  {}

  /** Giving back the first of two references leaves the second. */
  lemma ReleaseFirst(nodes: Nodes, a: Id, b: Id)
    requires Alive(nodes, a) && b in nodes
    ensures Reap(Dropped(Bumped(Bumped(nodes, a), b), a), a) == Bumped(nodes, b)
  {}

  class Vfs {
    var nodes: Nodes
    var descs: map<Id, Desc>
    ghost var st: State

    ghost predicate Valid()
      reads this
    {
      Inv(st) && st.nodes == nodes && st.descs == descs
    }

    /** A fresh file system with an empty root directory. */
    constructor (owner: User, perms: Perms)
      ensures Valid() && IsInitial(st)
    {
      nodes, descs := map[ROOT := Node(Directory, owner, perms, 1, 0, [])], map[];
      st := State(map[ROOT := Node(Directory, owner, perms, 1, 0, [])], map[]);
      new;
      InitialOk(st);
    }

    method AcquireNode(n: Id)
      requires n in nodes
      modifies this`nodes
      ensures nodes == Bumped(old(nodes), n)
    {
      nodes := nodes[n := nodes[n].(refCount := nodes[n].refCount + 1)];
    }

    method ReleaseNode(n: Id)
      requires n in nodes && nodes[n].refCount > 0
      modifies this`nodes
      ensures nodes == Reap(Dropped(old(nodes), n), n)
    {
      nodes := nodes[n := nodes[n].(refCount := nodes[n].refCount - 1)];
      if nodes[n].refCount == 0 && nodes[n].linkCount == 0 {
        nodes := nodes - {n};
      }
    }

    method FindEntry(d: Id, name: string) returns (i: nat)
      requires d in nodes
      ensures i == IndexOf(nodes[d].entries, name, 0)
    {
      var es := nodes[d].entries;
      i := 0;
      while i < |es|
        invariant 0 <= i <= |es| && IndexOf(es, name, i) == IndexOf(es, name, 0)
      {
        if es[i].name == name { return; }
        i := i + 1;
      }
    }

    /** One step of a walk: the node must be a directory the user may enter. */
    method FindChild(d: Id, name: string, u: User, ghost N: Nodes) returns (r: Result<Option<Id>, Error>)
      requires Closed(N) && d in N && nodes == Bumped(N, d)
      ensures r == Child(N[d], name, u)
      ensures r.Ok? && r.value.Some? ==> r.value.value in N
    {
      var n := nodes[d];
      if n.kind != Directory { return Err(FileNotFound); }
      if !Allowed(u, n, {Execute}) { return Err(PermissionDenied); }
      var k := FindEntry(d, name);
      if k == |n.entries| { return Ok(None); }
      return Ok(Some(n.entries[k].id));
    }

    /** Walks to the end of the path, releasing every directory it leaves. */
    method AcquirePath(cs: seq<string>, u: User, mustExist: bool) returns (w: Walk)
      requires Closed(nodes) && AllAlive(nodes)
      modifies this`nodes
      ensures w == WalkPath(old(nodes), cs, u, mustExist) && nodes == Held(old(nodes), w)
    {
      ghost var N := nodes;
      AcquireNode(ROOT);
      if cs == [] { return WRoot; }
      var cur := ROOT;
      var i := 0;
      assert cs[0..] == cs;
      while true
        invariant 0 <= i < |cs| && cur in N && nodes == Bumped(N, cur)
        invariant WalkFrom(N, cur, cs[i..], u, mustExist) == WalkFrom(N, ROOT, cs, u, mustExist)
        decreases |cs| - i
      {
        WalkStep(N, cur, cs, i, u, mustExist);
        var c := FindChild(cur, cs[i], u, N);
        if c.Err? {
          GiveBack(cur, N);
          return WErr(c.error);
        }
        if c.value.None? {
          if mustExist || i + 1 < |cs| {
            GiveBack(cur, N);
            return WErr(FileNotFound);
          }
          return WMissing(cur);
        }
        var next := c.value.value;
        AcquireNode(next);
        if i + 1 == |cs| { return WFound(next, cur); }
        ReleaseFirst(N, cur, next);
        ReleaseNode(cur);
        cur := next;
        i := i + 1;
      }
    }

    /** Drops the one reference that is held. */
    method GiveBack(n: Id, ghost N: Nodes)
      requires Alive(N, n) && nodes == Bumped(N, n)
      modifies this`nodes
      ensures nodes == N
    {
      ReleaseUndoes(N, n);
      ReleaseNode(n);
    }

    /** Gives back everything a walk holds. */
    method ReleaseWalk(w: Walk, ghost N: Nodes)
      requires AllAlive(N) && (w.WRoot? ==> ROOT in N) && (w.WMissing? ==> w.parent in N)
      requires (w.WFound? ==> w.node in N && w.parent in N) && nodes == Held(N, w)
      modifies this`nodes
      ensures nodes == N
    {
      match w {
        case WErr(_) =>
        case WRoot => GiveBack(ROOT, N);
        case WFound(n, p) =>
          ReleaseFirst(N, p, n);
          ReleaseNode(p);
          GiveBack(n, N);
        case WMissing(p) => GiveBack(p, N);
      }
    }

    /** CreateNode with one reference, AddEntry, and the reference on the folder given back. */
    method AddNode(p: Id, name: string, id: Id, n: Node)
      requires Inv(st) && p in st.nodes && id !in st.nodes && nodes == Bumped(st.nodes, p)
      requires n.linkCount == 1 && n.refCount == 0
      modifies this`nodes
      ensures nodes == Bumped(WithNew(st.nodes, p, name, id, n), id)
    {
      ghost var N := st.nodes;
      nodes := nodes[id := n.(refCount := 1)];
      nodes := nodes[p := nodes[p].(entries := nodes[p].entries + [Entry(name, id)])];
      InvAlive(st);
      ghost var M := Bumped(WithNew(N, p, name, id, n), id);
      assert nodes == Bumped(M, p);
      ReleaseUndoes(M, p);
      ReleaseNode(p);
    }

    /** The folder a new entry goes into, referenced, or the reason why there is none. */
    method AcquireFolder(cs: seq<string>, u: User) returns (r: Result<Id, Error>)
      requires Closed(nodes) && AllAlive(nodes)
      modifies this`nodes
      ensures r == FolderFor(old(nodes), cs, u)
      ensures nodes == if r.Ok? then Bumped(old(nodes), r.value) else old(nodes)
    {
      ghost var N := nodes;
      var w := AcquirePath(cs, u, false);
      if w.WErr? { return Err(w.error); }
      if !w.WMissing? {
        ReleaseWalk(w, N);
        return Err(FileExists);
      }
      if !Allowed(u, nodes[w.parent], {Write}) {
        ReleaseWalk(w, N);
        return Err(PermissionDenied);
      }
      r := Ok(w.parent);
    }

    /** CreateFile, CreateFolder and CreateDeviceFile. */
    method Create(cs: seq<string>, u: User, kind: Kind, perms: Perms, id: Id) returns (r: Status)
      requires Valid() && Legal(st, Op.Create(cs, u, kind, perms, id))
      modifies this
      ensures Valid() && (st, r) == Step(old(st), Op.Create(cs, u, kind, perms, id))
    {
      ghost var n := NewNode(kind, u, perms);
      CreateStepKeeps(st, cs, u, n, id);
      InvAlive(st);
      var p := AcquireFolder(cs, u);
      if p.Err? { return Err(p.error); }
      AddNode(p.value, cs[|cs| - 1], id, Node(kind, u, perms, 1, 0, []));
      ReleaseUndoes(WithNew(st.nodes, p.value, Last(cs), id, n), id);
      ReleaseNode(id);
      st := CreateStep(st, cs, u, n, id).0;
      r := Ok(());
    }

    /** The node a hard link is to name, referenced, or the reason why there is none. */
    method AcquireTarget(target: seq<string>, u: User) returns (r: Result<Id, Error>)
      requires Valid()
      modifies this`nodes
      ensures r == LinkTarget(st, target, u)
      ensures nodes == if r.Ok? then Bumped(st.nodes, r.value) else st.nodes
    {
      InvAlive(st);
      var t := AcquirePath(target, u, true);
      if t.WErr? { return Err(t.error); }
      if t.WFound? {
        ReleaseFirst(st.nodes, t.parent, t.node);
        ReleaseNode(t.parent);
      }
      var node := if t.WRoot? then ROOT else t.node;
      ReleaseUndoes(st.nodes, node);
      if nodes[node].kind == Directory {
        ReleaseNode(node);
        return Err(HardlinkToFolder);
      }
      return Ok(node);
    }

    /** linkCount.Inc, AddEntry, and the references on parent and target given back. */
    method AddLink(p: Id, name: string, node: Id)
      requires Inv(st) && p in st.nodes && node in st.nodes && p != node && nodes == Bumped(Bumped(st.nodes, node), p)
      modifies this`nodes
      ensures nodes == WithLink(st.nodes, p, name, node)
    {
      InvAlive(st);
      LinkEdits(st.nodes, p, name, node);
      nodes := nodes[node := nodes[node].(linkCount := nodes[node].linkCount + 1)];
      nodes := nodes[p := nodes[p].(entries := nodes[p].entries + [Entry(name, node)])];
      LinkReleases(st.nodes, p, name, node);
      ReleaseNode(p);
      ReleaseNode(node);
    }

    /** CreateHardLink: the second walk runs with the target referenced. */
    method Link(cs: seq<string>, u: User, target: seq<string>) returns (r: Status)
      requires Valid()
      modifies this
      ensures Valid() && (st, r) == Step(old(st), Op.Link(cs, u, target))
    {
      LinkStepKeeps(st, cs, u, target);
      var t := AcquireTarget(target, u);
      if t.Err? { return Err(t.error); }
      var node := t.value;
      TargetHeld(st, node, cs, u);
      var p := AcquireFolder(cs, u);
      if p.Err? {
        ReleaseNode(node);
        return Err(p.error);
      }
      AddLink(p.value, cs[|cs| - 1], node);
      st := LinkStep(st, cs, u, target).0;
      r := Ok(());
    }

    /** RemoveEntry, linkCount.Dec, and both references given back. */
    method RemoveLink(p: Id, i: nat, n: Id)
      requires Inv(st) && p in st.nodes && i < |st.nodes[p].entries| && n in st.nodes && st.nodes[n].linkCount > 0 && n != p
      requires nodes == Bumped(Bumped(st.nodes, p), n)
      modifies this`nodes
      ensures nodes == Reap(Unlinked(st.nodes, p, i, n), n)
    {
      InvAlive(st);
      DeleteEdits(st.nodes, p, i, n);
      nodes := nodes[p := nodes[p].(entries := RemoveAt(nodes[p].entries, i))];
      nodes := nodes[n := nodes[n].(linkCount := nodes[n].linkCount - 1)];
      DeleteReleases(st.nodes, p, i, n, nodes);
      ReleaseNode(n);
      ReleaseNode(p);
    }

    method Delete(cs: seq<string>, u: User) returns (r: Status)
      requires Valid()
      modifies this
      ensures Valid() && (st, r) == Step(old(st), Op.Delete(cs, u))
    {
      DeleteStepKeeps(st, cs, u);
      InvAlive(st);
      var w := AcquirePath(cs, u, true);
      if w.WErr? { return Err(w.error); }
      if w.WRoot? {
        ReleaseWalk(w, st.nodes);
        return Err(DeleteMountPoint);
      }
      var n, p := w.node, w.parent;
      if !Allowed(u, nodes[p], {Write}) {
        ReleaseWalk(w, st.nodes);
        return Err(PermissionDenied);
      }
      if nodes[n].kind == Directory && nodes[n].entries != [] {
        ReleaseWalk(w, st.nodes);
        return Err(FolderNotEmpty);
      }
      // the search by name cannot fail: the walk found this entry
      var i := FindEntry(p, cs[|cs| - 1]);
      EntryCounts(st, p, Last(cs), n);
      assert DirOk(st.nodes, n);
      assert n != p;
      RemoveLink(p, i, n);
      st := DeleteStep(st, cs, u).0;
      r := Ok(());
    }

    /** The node Open is about, found or created, with one reference on it. */
    method AcquireOpenTarget(cs: seq<string>, u: User, create: bool, failIfExist: bool, id: Id, ghost op: Op) returns (r: Result<Id, Error>)
      requires Valid() && op.Open? && op.cs == cs && op.u == u && op.create == create && op.failIfExist == failIfExist && op.id == id
      requires Legal(st, op)
      modifies this`nodes
      ensures var t := OpenTarget(st, op);
              if t.Ok? then r == Ok(t.value.1) && t.value.1 in t.value.0.nodes && nodes == Bumped(t.value.0.nodes, t.value.1)
              else r == Err(t.error) && nodes == st.nodes
    {
      InvAlive(st);
      var w := AcquirePath(cs, u, !create);
      if w.WErr? { return Err(w.error); }
      if w.WMissing? {
        var folder := nodes[w.parent];
        if !Allowed(u, folder, {Write}) {
          ReleaseWalk(w, st.nodes);
          return Err(PermissionDenied);
        }
        AddNode(w.parent, cs[|cs| - 1], id, NewFile(u, folder));
        return Ok(id);
      }
      if failIfExist {
        ReleaseWalk(w, st.nodes);
        return Err(FileExists);
      }
      if w.WRoot? { return Ok(ROOT); }
      ReleaseFirst(st.nodes, w.parent, w.node);
      ReleaseNode(w.parent);
      return Ok(w.node);
    }

    method Open(cs: seq<string>, u: User, req: set<Right>, create: bool, failIfExist: bool, id: Id, d: Id) returns (r: Status)
      requires Valid() && Legal(st, Op.Open(cs, u, req, create, failIfExist, id, d))
      modifies this
      ensures Valid() && (st, r) == Step(old(st), Op.Open(cs, u, req, create, failIfExist, id, d))
    {
      ghost var op := Op.Open(cs, u, req, create, failIfExist, id, d);
      OpenStepKeeps(st, op);
      OpenTargetKeeps(st, op);
      var t := AcquireOpenTarget(cs, u, create, failIfExist, id, op);
      if t.Err? { return Err(t.error); }
      var n := t.value;
      ghost var s1 := OpenTarget(st, op).value.0;
      InvAlive(s1);
      ReleaseUndoes(s1.nodes, n);
      if !Allowed(u, nodes[n], req) {
        ReleaseNode(n);
        st := s1;
        return Err(PermissionDenied);
      }
      if nodes[n].kind == Directory {
        ReleaseNode(n);
        st := s1;
        return Err(OpenFolder);
      }
      descs := descs[d := Desc(n, 1)];
      st := Opened(s1, n, d);
      r := Ok(());
    }

    method Close(d: Id) returns (r: Status)
      requires Valid() && Legal(st, Op.Close(d))
      modifies this
      ensures Valid() && (st, r) == Step(old(st), Op.Close(d))
    {
      if d == 0 { return Err(InvalidFD); }
      ClosedKeeps(st, d);
      OpenCounts(st, d);
      var desc := descs[d];
      if desc.refs - 1 == 0 {
        ReleaseNode(desc.node);
        descs := descs - {d};
      } else {
        descs := descs[d := desc.(refs := desc.refs - 1)];
      }
      st := ClosedDesc(st, d);
      r := Ok(());
    }

    method AddRef(d: Id) returns (r: Status)
      requires Valid() && Legal(st, Op.AddRef(d))
      modifies this
      ensures Valid() && (st, r) == Step(old(st), Op.AddRef(d))
    {
      if d == 0 { return Err(InvalidFD); }
      RefsKeep(st, d, descs[d].refs + 1);
      descs := descs[d := descs[d].(refs := descs[d].refs + 1)];
      st := WithRefs(st, d, st.descs[d].refs + 1);
      r := Ok(());
    }
  }

  lemma LinkReleases(N: Nodes, p: Id, name: string, t: Id)
    requires p in N && t in N && p != t && Alive(N, p) && Alive(N, t)
    ensures var M := WithLink(N, p, name, t);
            && Reap(Dropped(Bumped(Bumped(M, t), p), p), p) == Bumped(M, t)
            && Reap(Dropped(Bumped(M, t), t), t) == M
  {}

  /** Deleting holds references on node and parent; what is left after giving both back. */
  lemma DeleteReleases(N: Nodes, p: Id, i: nat, n: Id, nodes: Nodes)
    requires p in N && i < |N[p].entries| && n in N && N[n].linkCount > 0 && n != p && Alive(N, p)
    requires nodes == Bumped(Bumped(Unlinked(N, p, i, n), p), n)
    ensures nodes[n].refCount > 0
    ensures var nodes1 := Reap(Dropped(nodes, n), n);
            && p in nodes1 && nodes1[p].refCount > 0
            && Reap(Dropped(nodes1, p), p) == Reap(Unlinked(N, p, i, n), n)
  {}
}
