/** What each file operation answers and what it changes, node by node, and what a walk means in terms
    of directory entries and rights.
 */
module TempFsEffects {
  import opened Wrappers
  import opened Sequences
  import opened TempFs

  // ----- rights

  /** The superuser may do everything; others what the first of owner, group and other that fits gives. */
  lemma AllowedIff(u: User, n: Node, right: Right)
    ensures Allowed(u, n, {right}) <==>
              || u.uid == 0
              || (u.uid == n.owner.uid && right in n.perms.owner)
              || (u.uid != n.owner.uid && u.gid == n.owner.gid && right in n.perms.group)
              || (u.uid != n.owner.uid && u.gid != n.owner.gid && right in n.perms.other)
  {}

  lemma AllowedEach(u: User, n: Node, req: set<Right>)
    ensures Allowed(u, n, req) <==> forall right :: right in req ==> Allowed(u, n, {right})
  {}

  // ----- the walk

  /** User `u` may walk through node `d`. */
  predicate Enters(nodes: Nodes, d: Id, u: User) {
    d in nodes && nodes[d].kind == Directory && Allowed(u, nodes[d], {Execute})
  }

  predicate Names(n: Node, name: string, id: Id) { exists e :: e in n.entries && e == Entry(name, id) }

  predicate HasName(n: Node, name: string) { exists e :: e in n.entries && e.name == name }

  /** `ds` are the nodes on the way along `cs`, each a directory the user may enter but the last. */
  ghost predicate Chain(nodes: Nodes, ds: seq<Id>, cs: seq<string>, u: User) {
    && |ds| == |cs| + 1 && (forall i :: 0 <= i < |ds| ==> ds[i] in nodes)
    && forall i :: 0 <= i < |cs| ==> Enters(nodes, ds[i], u) && Names(nodes[ds[i]], cs[i], ds[i + 1])
  }

  /** Why the walk along `cs` ends at `d` after `k` components with this result. */
  predicate EndsWith(nodes: Nodes, d: Id, cs: seq<string>, k: nat, u: User, mustExist: bool, w: Walk)
    requires d in nodes && k <= |cs|
  {
    match w
    case WRoot => cs == []
    case WFound(n, _) => k == |cs| > 0 && d == n
    case WMissing(p) => k == |cs| - 1 && d == p && !mustExist && Enters(nodes, d, u) && !HasName(nodes[d], cs[k])
    case WErr(e) =>
      && k < |cs|
      && ((e == FileNotFound && nodes[d].kind != Directory)
          || (e == PermissionDenied && nodes[d].kind == Directory && !Allowed(u, nodes[d], {Execute}))
          || (e == FileNotFound && Enters(nodes, d, u) && !HasName(nodes[d], cs[k]) && (mustExist || k + 1 < |cs|)))
  }

  lemma IndexOfHas(n: Node, name: string)
    ensures IndexOf(n.entries, name, 0) == |n.entries| <==> !HasName(n, name)
    ensures IndexOf(n.entries, name, 0) < |n.entries| ==> Names(n, name, n.entries[IndexOf(n.entries, name, 0)].id)
  {
    var i := IndexOf(n.entries, name, 0);
    if i < |n.entries| { assert n.entries[i] in n.entries && n.entries[i].name == name; }
    if HasName(n, name) {
      var e :| e in n.entries && e.name == name;
      var k :| 0 <= k < |n.entries| && n.entries[k] == e;
    }
  }

  /** A walk follows one directory entry per component, through directories the user may enter, and the
      result says how it ended. */
  lemma {:induction false} WalkTrace(nodes: Nodes, cur: Id, cs: seq<string>, u: User, mustExist: bool) returns (ds: seq<Id>)
    requires Closed(nodes) && cur in nodes && cs != []
    ensures 0 < |ds| <= |cs| + 1 && ds[0] == cur && Chain(nodes, ds, cs[..|ds| - 1], u)
    ensures var w := WalkFrom(nodes, cur, cs, u, mustExist);
            && EndsWith(nodes, Last(ds), cs, |ds| - 1, u, mustExist, w)
            && (w.WFound? ==> |ds| > 1 && w.parent == ds[|ds| - 2])
    decreases cs
  {
    var c := Child(nodes[cur], cs[0], u);
    if c.Ok? && c.value.Some? {
      ChildNamed(nodes, cur, cs[0], u);
      if |cs| == 1 {
        ds := [cur, c.value.value];
      } else {
        var more := WalkTrace(nodes, c.value.value, cs[1..], u, mustExist);
        ds := [cur] + more;
        ChainCons(nodes, cur, more, cs, u);
        EndsCons(nodes, Last(more), cs, |more| - 1, u, mustExist, WalkFrom(nodes, cur, cs, u, mustExist));
      }
    } else {
      ds := [cur];
      EndsHere(nodes, cur, cs, u, mustExist);
    }
  }

  lemma ChildNamed(nodes: Nodes, cur: Id, name: string, u: User)
    requires cur in nodes && Child(nodes[cur], name, u).Ok? && Child(nodes[cur], name, u).value.Some?
    ensures Enters(nodes, cur, u) && Names(nodes[cur], name, Child(nodes[cur], name, u).value.value)
  {
    IndexOfHas(nodes[cur], name);
  }

  /** The walk stops at its first node. */
  lemma EndsHere(nodes: Nodes, cur: Id, cs: seq<string>, u: User, mustExist: bool)
    requires Closed(nodes) && cur in nodes && cs != []
    requires var c := Child(nodes[cur], cs[0], u); c.Err? || c.value.None?
    ensures EndsWith(nodes, cur, cs, 0, u, mustExist, WalkFrom(nodes, cur, cs, u, mustExist))
    ensures !WalkFrom(nodes, cur, cs, u, mustExist).WFound?
  {
    IndexOfHas(nodes[cur], cs[0]);
  }

  lemma EndsCons(nodes: Nodes, d: Id, cs: seq<string>, k: nat, u: User, mustExist: bool, w: Walk)
    requires d in nodes && |cs| > 1 && k <= |cs| - 1 && !w.WRoot? && EndsWith(nodes, d, cs[1..], k, u, mustExist, w)
    ensures EndsWith(nodes, d, cs, k + 1, u, mustExist, w)
  {}

  lemma ChainCons(nodes: Nodes, cur: Id, more: seq<Id>, cs: seq<string>, u: User)
    requires |cs| > 1 && 0 < |more| <= |cs| && Chain(nodes, more, cs[1..][..|more| - 1], u)
    requires Enters(nodes, cur, u) && Names(nodes[cur], cs[0], more[0])
    ensures Chain(nodes, [cur] + more, cs[..|more|], u)
  {
    var ds, rest := [cur] + more, cs[1..][..|more| - 1];
    forall i | 0 <= i < |more|
      ensures Enters(nodes, ds[i], u) && Names(nodes[ds[i]], cs[..|more|][i], ds[i + 1])
    {
      if i > 0 { assert rest[i - 1] == cs[i] && ds[i] == more[i - 1] && ds[i + 1] == more[i]; }
    }
  }

  /** Where names are unique there is only one way along the components. */
  lemma {:induction false} ChainUnique(s: State, ds: seq<Id>, ds': seq<Id>, cs: seq<string>, u: User, k: nat)
    requires Inv(s) && Chain(s.nodes, ds, cs, u) && Chain(s.nodes, ds', cs, u) && ds[0] == ds'[0] && k <= |cs|
    ensures ds[k] == ds'[k]
  {
    if k > 0 {
      ChainUnique(s, ds, ds', cs, u, k - 1);
      assert DirOk(s.nodes, ds[k - 1]);
      OneNamed(s.nodes[ds[k - 1]], cs[k - 1], ds[k], ds'[k]);
    }
  }

  lemma OneNamed(n: Node, name: string, a: Id, b: Id)
    requires UniqueNames(n.entries) && Names(n, name, a) && Names(n, name, b)
    ensures a == b
  {
    var i :| 0 <= i < |n.entries| && n.entries[i] == Entry(name, a);
    var j :| 0 <= j < |n.entries| && n.entries[j] == Entry(name, b);
  }

  // ----- where a new entry goes

  /** The folder a create or link may add an entry to, or the error. */
  predicate GoesInto(nodes: Nodes, w: Walk, u: User, r: Result<Id, Error>) {
    match w
    case WErr(e) => r == Err(e)
    case WRoot => r == Err(FileExists)
    case WFound(_, _) => r == Err(FileExists)
    case WMissing(p) => p in nodes && r == if Allowed(u, nodes[p], {Write}) then Ok(p) else Err(PermissionDenied)
  }

  // ----- Create

  lemma CreateStatus(s: State, op: Op)
    requires Inv(s) && Legal(s, op) && op.Create?
    ensures var w, r := WalkPath(s.nodes, op.cs, op.u, false), Step(s, op).1;
            && (r.Ok? <==> w.WMissing? && Allowed(op.u, s.nodes[w.parent], {Write}))
            && GoesInto(s.nodes, w, op.u, if r.Ok? then Ok(w.parent) else Err(r.error))
            && (r.Err? ==> Step(s, op).0 == s)
  {}

  /** A new node with one link and no reference, and its name last in the folder. */
  lemma CreateEffect(s: State, op: Op)
    requires Inv(s) && Legal(s, op) && op.Create? && Step(s, op).1.Ok?
    ensures var s', p := Step(s, op).0, WalkPath(s.nodes, op.cs, op.u, false).parent;
            && s'.descs == s.descs && s'.nodes.Keys == s.nodes.Keys + {op.id}
            && s'.nodes[op.id] == Node(op.kind, op.u, op.perms, 1, 0, [])
            && s'.nodes[p] == s.nodes[p].(entries := s.nodes[p].entries + [Entry(Last(op.cs), op.id)])
            && forall x :: x in s.nodes && x != p ==> s'.nodes[x] == s.nodes[x]
  {}

  // ----- Link

  lemma LinkStatus(s: State, op: Op)
    requires Inv(s) && op.Link?
    ensures var t, w, r := WalkPath(s.nodes, op.target, op.u, true), WalkPath(s.nodes, op.cs, op.u, false), Step(s, op).1;
            && (t.WErr? ==> r == Err(t.error))
            && (t.WRoot? || (t.WFound? && s.nodes[t.node].kind == Directory) ==> r == Err(HardlinkToFolder))
            && (t.WFound? && s.nodes[t.node].kind != Directory ==>
                  && (r.Ok? ==> w.WMissing?)
                  && GoesInto(s.nodes, w, op.u, if r.Ok? then Ok(w.parent) else Err(r.error)))
            && !t.WMissing? && (r.Err? ==> Step(s, op).0 == s)
  {}

  /** One more name for the node, last in the folder, and one more link. */
  lemma LinkEffect(s: State, op: Op)
    requires Inv(s) && op.Link? && Step(s, op).1.Ok?
    ensures var s', p := Step(s, op).0, WalkPath(s.nodes, op.cs, op.u, false).parent;
            var n := WalkPath(s.nodes, op.target, op.u, true).node;
            && s'.descs == s.descs && s'.nodes.Keys == s.nodes.Keys && n != p
            && s'.nodes[p] == s.nodes[p].(entries := s.nodes[p].entries + [Entry(Last(op.cs), n)])
            && s'.nodes[n] == s.nodes[n].(linkCount := s.nodes[n].linkCount + 1)
            && forall x :: x in s.nodes && x != p && x != n ==> s'.nodes[x] == s.nodes[x]
  {}

  // ----- Delete

  lemma DeleteStatus(s: State, op: Op)
    requires Inv(s) && op.Delete?
    ensures var w, r := WalkPath(s.nodes, op.cs, op.u, true), Step(s, op).1;
            && !w.WMissing? && (r.Err? ==> Step(s, op).0 == s)
            && (w.WErr? ==> r == Err(w.error)) && (w.WRoot? ==> r == Err(DeleteMountPoint))
            && (w.WFound? ==> r == if !Allowed(op.u, s.nodes[w.parent], {Write}) then Err(PermissionDenied)
                                   else if s.nodes[w.node].kind == Directory && s.nodes[w.node].entries != [] then Err(FolderNotEmpty)
                                   else Ok(()))
  {}

  /** Exactly the entry that was named is gone from the folder, the others are there in their order, the
      node has one link less, and is gone if that was the last one and nobody has it open. */
  ghost predicate Unlinks(s: State, s': State, p: Id, n: Id, name: string) {
    && p in s.nodes && n in s.nodes && n != p && s.nodes[n].linkCount > 0 && s'.descs == s.descs
    && s'.nodes.Keys == s.nodes.Keys - (if s.nodes[n].linkCount == 1 && Opens(s.descs, n) == {} then {n} else {})
    && (exists i :: 0 <= i < |s.nodes[p].entries| && s.nodes[p].entries[i] == Entry(name, n) &&
          s'.nodes[p] == s.nodes[p].(entries := s.nodes[p].entries[..i] + s.nodes[p].entries[i + 1..]))
    && (n in s'.nodes ==> s'.nodes[n] == s.nodes[n].(linkCount := s.nodes[n].linkCount - 1))
    && forall x :: x in s.nodes && x != p && x != n ==> s'.nodes[x] == s.nodes[x]
  }

  lemma DeleteEffect(s: State, op: Op)
    requires Inv(s) && op.Delete? && Step(s, op).1.Ok?
    ensures var w := WalkPath(s.nodes, op.cs, op.u, true); Unlinks(s, Step(s, op).0, w.parent, w.node, Last(op.cs))
  {
    var w := WalkPath(s.nodes, op.cs, op.u, true);
    EntryCounts(s, w.parent, Last(op.cs), w.node);
    assert CountOk(s, w.node) && DirOk(s.nodes, w.node);
    var es := s.nodes[w.parent].entries;
    var i := IndexOf(es, Last(op.cs), 0);
    assert es[i] == Entry(Last(op.cs), w.node) && RemoveAt(es, i) == es[..i] + es[i + 1..];
    assert w.node != w.parent;
  }

  /** The name is free afterwards: the same walk finds the folder and not the name. */
  lemma DeleteFreesName(s: State, op: Op)
    requires Inv(s) && op.Delete? && Step(s, op).1.Ok?
    ensures var s' := Step(s, op).0;
            Closed(s'.nodes) && WalkPath(s'.nodes, op.cs, op.u, false) == WMissing(WalkPath(s.nodes, op.cs, op.u, true).parent)
  {
    var w := WalkPath(s.nodes, op.cs, op.u, true);
    DeleteEffect(s, op);
    StepKeeps(s, op);
    EntryCounts(s, w.parent, Last(op.cs), w.node);
    assert DirOk(s.nodes, w.node);
    WalkWithout(s, Step(s, op).0, w.parent, w.node, Last(op.cs), ROOT, op.cs, op.u);
  }

  /** On the way to the deleted entry the walk does not pass the node that is gone or has no entries. */
  lemma {:induction false} WalkWithout(s: State, s': State, p: Id, n: Id, name: string, cur: Id, cs: seq<string>, u: User)
    requires Inv(s) && Inv(s') && Unlinks(s, s', p, n, name) && s.nodes[n].entries == []
    requires cur in s.nodes && cs != [] && Last(cs) == name && WalkFrom(s.nodes, cur, cs, u, true) == WFound(n, p)
    ensures cur in s'.nodes && WalkFrom(s'.nodes, cur, cs, u, false) == WMissing(p)
    decreases cs
  {
    assert cur != n;
    ChildWithout(s, s', p, n, name, cur, cs[0], u);
    if |cs| > 1 {
      var next := Child(s.nodes[cur], cs[0], u).value.value;
      assert next != n;
      assert Last(cs[1..]) == name;
      WalkWithout(s, s', p, n, name, next, cs[1..], u);
    }
  }

  lemma ChildWithout(s: State, s': State, p: Id, n: Id, name: string, cur: Id, c: string, u: User)
    requires Inv(s) && Unlinks(s, s', p, n, name) && cur in s.nodes && cur in s'.nodes && cur != n
    requires Child(s.nodes[cur], c, u).Ok? && Child(s.nodes[cur], c, u).value.Some?
    ensures Child(s'.nodes[cur], c, u) == if cur == p && c == name then Ok(None) else Child(s.nodes[cur], c, u)
  {
    if cur == p {
      assert DirOk(s.nodes, p);
      var es := s.nodes[p].entries;
      var i :| 0 <= i < |es| && es[i] == Entry(name, n) && s'.nodes[p] == s.nodes[p].(entries := es[..i] + es[i + 1..]);
      assert es[..i] + es[i + 1..] == RemoveAt(es, i);
      IndexWithout(es, i, c);
    }
  }

  lemma UniqueIndex(es: seq<Entry>, name: string, k: nat)
    requires UniqueNames(es) && k < |es| && es[k].name == name
    ensures IndexOf(es, name, 0) == k
  {}

  lemma IndexWithout(es: seq<Entry>, i: nat, c: string)
    requires i < |es| && UniqueNames(es)
    ensures var r, k, j := RemoveAt(es, i), IndexOf(es, c, 0), IndexOf(RemoveAt(es, i), c, 0);
            && (c == es[i].name ==> j == |r|)
            && (c != es[i].name && k < |es| ==> j < |r| && r[j] == es[k])
  {
    var r, k := RemoveAt(es, i), IndexOf(es, c, 0);
    RemoveAtEntries(es, i);
    if c != es[i].name && k < |es| {
      UniqueIndex(r, c, if k < i then k else k - 1);
    }
  }

  // ----- Open, Close and AddRef

  /** The node Open is about when it exists. */
  predicate Existing(w: Walk, n: Id) { (w.WRoot? && n == ROOT) || (w.WFound? && w.node == n) }

  lemma OpenExisting(s: State, op: Op, n: Id)
    requires Inv(s) && Legal(s, op) && op.Open? && Existing(WalkPath(s.nodes, op.cs, op.u, !op.create), n)
    ensures n in s.nodes
    ensures var (s', r) := Step(s, op);
            if op.failIfExist then s' == s && r == Err(FileExists)
            else if !Allowed(op.u, s.nodes[n], op.req) then s' == s && r == Err(PermissionDenied)
            else if s.nodes[n].kind == Directory then s' == s && r == Err(OpenFolder)
            else
              && r == Ok(()) && s'.descs == s.descs[op.desc := Desc(n, 1)] && s'.nodes.Keys == s.nodes.Keys
              && s'.nodes[n] == s.nodes[n].(refCount := s.nodes[n].refCount + 1)
              && forall x :: x in s.nodes && x != n ==> s'.nodes[x] == s.nodes[x]
  {}

  /** A file that does not exist is created if the folder may be written, with the folder's rights but
      Execute; it is opened if these allow the access, and stays behind if they do not. */
  lemma OpenMissing(s: State, op: Op, p: Id)
    requires Inv(s) && Legal(s, op) && op.Open? && WalkPath(s.nodes, op.cs, op.u, !op.create) == WMissing(p)
    ensures p in s.nodes && op.create
    ensures var f, perms := s.nodes[p], s.nodes[p].perms;
            var file := Node(File, op.u, Perms(perms.owner - {Execute}, perms.group - {Execute}, perms.other - {Execute}), 1, 0, []);
            var (s', r) := Step(s, op);
            if !Allowed(op.u, f, {Write}) then s' == s && r == Err(PermissionDenied)
            else
              && s'.nodes.Keys == s.nodes.Keys + {op.id}
              && s'.nodes[p] == f.(entries := f.entries + [Entry(Last(op.cs), op.id)])
              && (forall x :: x in s.nodes && x != p ==> s'.nodes[x] == s.nodes[x])
              && if Allowed(op.u, file, op.req) then
                   r == Ok(()) && s'.nodes[op.id] == file.(refCount := 1) && s'.descs == s.descs[op.desc := Desc(op.id, 1)]
                 else r == Err(PermissionDenied) && s'.nodes[op.id] == file && s'.descs == s.descs
  {}

  lemma OpenFails(s: State, op: Op, e: Error)
    requires Inv(s) && Legal(s, op) && op.Open? && WalkPath(s.nodes, op.cs, op.u, !op.create) == WErr(e)
    ensures Step(s, op) == (s, Err(e))
  {}

  /** Close: one user less; with the last one the descriptor is gone and its node has one reference
      less, and is gone if it has no link and nobody else has it open. */
  lemma CloseEffect(s: State, d: Id)
    requires Inv(s) && Legal(s, Close(d))
    ensures d == 0 ==> Step(s, Close(d)) == (s, Err(InvalidFD))
    ensures d != 0 && s.descs[d].refs > 1 ==>
              Step(s, Close(d)) == (State(s.nodes, s.descs[d := Desc(s.descs[d].node, s.descs[d].refs - 1)]), Ok(()))
    ensures d != 0 && s.descs[d].refs == 1 ==>
              var (s', r) := Step(s, Close(d));
              var n := s.descs[d].node;
              && r == Ok(()) && n in s.nodes && s.nodes[n].refCount > 0 && s'.descs == s.descs - {d}
              && s'.nodes.Keys == s.nodes.Keys - (if s.nodes[n].linkCount == 0 && s.nodes[n].refCount == 1 then {n} else {})
              && (n in s'.nodes ==> s'.nodes[n] == s.nodes[n].(refCount := s.nodes[n].refCount - 1))
              && forall x :: x in s.nodes && x != n ==> s'.nodes[x] == s.nodes[x]
  {
    if d != 0 { OpenCounts(s, d); }
  }

  lemma AddRefEffect(s: State, d: Id)
    requires Inv(s) && Legal(s, AddRef(d))
    ensures Step(s, AddRef(d)) ==
              if d == 0 then (s, Err(InvalidFD))
              else (State(s.nodes, s.descs[d := Desc(s.descs[d].node, s.descs[d].refs + 1)]), Ok(()))
  {}
}
