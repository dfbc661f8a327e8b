/** Files and directories of one in-memory file system: directory entries and open descriptors
    keep nodes alive through two counts, and a node is destroyed when both are zero. Paths are
    prepared paths given as their components; there are no symbolic links.
 */
module TempFs {
  import opened Wrappers
  import opened Sequences

  type Id = nat

  const ROOT: Id := 0

  datatype Right = Read | Write | Execute
  datatype Perms = Perms(owner: set<Right>, group: set<Right>, other: set<Right>)
  datatype User = User(uid: nat, gid: nat)
  datatype Kind = File | Directory | Device
  datatype Entry = Entry(name: string, id: Id)

  datatype Node = Node(kind: Kind, owner: User, perms: Perms, linkCount: nat, refCount: nat, entries: seq<Entry>)

  type Nodes = map<Id, Node>

  datatype Desc = Desc(node: Id, refs: nat)

  datatype State = State(nodes: Nodes, descs: map<Id, Desc>)

  datatype Error =
    | FileNotFound | PermissionDenied | FileExists | HardlinkToFolder | DeleteMountPoint
    | FolderNotEmpty | OpenFolder | InvalidFD

  type Status = Result<(), Error>

  function Rights(u: User, n: Node): set<Right> {
    if u.uid == n.owner.uid then n.perms.owner
    else if u.gid == n.owner.gid then n.perms.group
    else n.perms.other
  }

  predicate Allowed(u: User, n: Node, req: set<Right>) {
    u.uid == 0 || req <= Rights(u, n)
  }

  // ----- directories

  predicate UniqueNames(es: seq<Entry>) {
    forall i, j :: 0 <= i < j < |es| ==> es[i].name != es[j].name
  }

  /** Position of the first entry with this name from `from` on, or the number of entries. */
  function IndexOf(es: seq<Entry>, name: string, from: nat): (i: nat)
    requires from <= |es|
    ensures from <= i <= |es|
    ensures i < |es| ==> es[i].name == name
    ensures forall k :: from <= k < i ==> es[k].name != name
    decreases |es| - from
  {
    if from == |es| || es[from].name == name then from else IndexOf(es, name, from + 1)
  }

  // ----- the walk

  datatype Walk = WErr(error: Error) | WRoot | WFound(node: Id, parent: Id) | WMissing(parent: Id)

  /** Entries lead to nodes that exist. */
  ghost predicate Closed(nodes: Nodes) {
    ROOT in nodes && forall d, e :: d in nodes && e in nodes[d].entries ==> e.id in nodes
  }

  function Last<T>(s: seq<T>): T
    requires s != []
  {
    s[|s| - 1]
  }

  /** Walks from node `cur` along the components that are left. */
  ghost function WalkFrom(nodes: Nodes, cur: Id, cs: seq<string>, u: User, mustExist: bool): (w: Walk)
    requires Closed(nodes) && cur in nodes && cs != []
    ensures !w.WRoot?
    ensures w.WFound? ==> w.node in nodes && w.parent in nodes && HasEntry(nodes[w.parent], Last(cs), w.node)
    ensures w.WMissing? ==> !mustExist && w.parent in nodes && LacksEntry(nodes[w.parent], Last(cs))
    decreases cs
  {
    match Child(nodes[cur], cs[0], u)
    case Err(e) => WErr(e)
    case Ok(None) => if mustExist || |cs| > 1 then WErr(FileNotFound) else WMissing(cur)
    case Ok(Some(id)) =>
      if |cs| == 1 then WFound(id, cur)
      else
        assert Last(cs[1..]) == Last(cs);
        WalkFrom(nodes, id, cs[1..], u, mustExist)
  }

  /** One step of a walk: what the directory `n` has under this name. */
  function Child(n: Node, name: string, u: User): (r: Result<Option<Id>, Error>)
    ensures r.Ok? && r.value.Some? ==> HasEntry(n, name, r.value.value) && exists e :: e in n.entries && e.id == r.value.value
    ensures r.Ok? && r.value.None? ==> LacksEntry(n, name)
  {
    if n.kind != Directory then Err(FileNotFound)
    else if !Allowed(u, n, {Execute}) then Err(PermissionDenied)
    else
      var i := IndexOf(n.entries, name, 0);
      if i == |n.entries| then Ok(None)
      else
        assert n.entries[i] in n.entries;
        Ok(Some(n.entries[i].id))
  }

  /** `n` is a directory whose first entry of this name leads to node `id`. */
  predicate HasEntry(n: Node, name: string, id: Id) {
    var i := IndexOf(n.entries, name, 0);
    n.kind == Directory && i < |n.entries| && n.entries[i].id == id
  }

  predicate LacksEntry(n: Node, name: string) {
    n.kind == Directory && IndexOf(n.entries, name, 0) == |n.entries|
  }

  ghost function WalkPath(nodes: Nodes, cs: seq<string>, u: User, mustExist: bool): (w: Walk)
    requires Closed(nodes)
  {
    if cs == [] then WRoot else WalkFrom(nodes, ROOT, cs, u, mustExist)
  }

  // ----- the counts

  /** The directory entries that name `n`, as pairs of directory and name. */
  ghost function Links(nodes: Nodes, n: Id): set<(Id, string)> {
    set d, e | d in nodes && e in nodes[d].entries && e.id == n :: (d, e.name)
  }

  ghost function Opens(descs: map<Id, Desc>, n: Id): set<Id> {
    set d | d in descs && descs[d].node == n
  }

  /** linkCount is the number of entries naming the node (and one more for the root), refCount is
      the number of its open descriptors, and one of them is not zero. */
  ghost predicate CountOk(s: State, n: Id)
    requires n in s.nodes
  {
    Counted(s, n) && s.nodes[n].linkCount + s.nodes[n].refCount > 0
  }

  ghost predicate Counted(s: State, n: Id)
    requires n in s.nodes
  {
    && s.nodes[n].linkCount == |Links(s.nodes, n)| + (if n == ROOT then 1 else 0)
    && s.nodes[n].refCount == |Opens(s.descs, n)|
  }

  ghost predicate DirOk(nodes: Nodes, d: Id)
    requires d in nodes
  {
    && UniqueNames(nodes[d].entries)
    && (nodes[d].kind != Directory ==> nodes[d].entries == [])
  }

  ghost predicate DescsOk(s: State) {
    forall d :: d in s.descs ==>
      d != 0 && s.descs[d].refs > 0 && s.descs[d].node in s.nodes && s.nodes[s.descs[d].node].kind != Directory
  }

  ghost predicate Inv(s: State) {
    && Closed(s.nodes) && s.nodes[ROOT].kind == Directory && DescsOk(s)
    && (forall n {:trigger CountOk(s, n)} :: n in s.nodes ==> CountOk(s, n))
    && (forall d {:trigger DirOk(s.nodes, d)} :: d in s.nodes ==> DirOk(s.nodes, d))
  }

  // ----- the operations

  datatype Op =
    | Create(cs: seq<string>, u: User, kind: Kind, perms: Perms, id: Id)
    | Link(cs: seq<string>, u: User, target: seq<string>)
    | Delete(cs: seq<string>, u: User)
    | Open(cs: seq<string>, u: User, req: set<Right>, create: bool, failIfExist: bool, id: Id, desc: Id)
    | Close(desc: Id)
    | AddRef(desc: Id)

  /** New nodes and descriptors get addresses nothing live has. */
  predicate Legal(s: State, op: Op) {
    match op
    case Create(_, _, _, _, id) => id !in s.nodes
    case Open(_, _, _, _, _, id, d) => id !in s.nodes && d !in s.descs && d != 0
    case Close(d) => d == 0 || d in s.descs
    case AddRef(d) => d == 0 || d in s.descs
    case _ => true
  }

  function AddEntry(nodes: Nodes, p: Id, name: string, id: Id): Nodes
    requires p in nodes
  {
    nodes[p := nodes[p].(entries := nodes[p].entries + [Entry(name, id)])]
  }

  /** A new node with its first directory entry. */
  function WithNew(nodes: Nodes, p: Id, name: string, id: Id, n: Node): Nodes
    requires p in nodes
  {
    AddEntry(nodes, p, name, id)[id := n]
  }

  function WithLink(nodes: Nodes, p: Id, name: string, t: Id): Nodes
    requires p in nodes && t in nodes
  {
    AddEntry(nodes[t := nodes[t].(linkCount := nodes[t].linkCount + 1)], p, name, t)
  }

  /** ReleaseNode's test: destroy the node when nothing refers to it. */
  function Reap(nodes: Nodes, n: Id): Nodes
    requires n in nodes
  {
    if nodes[n].linkCount == 0 && nodes[n].refCount == 0 then nodes - {n} else nodes
  }

  function Unlinked(nodes: Nodes, p: Id, i: nat, n: Id): Nodes
    requires p in nodes && i < |nodes[p].entries| && n in nodes && nodes[n].linkCount > 0
  {
    var nodes1 := nodes[p := nodes[p].(entries := RemoveAt(nodes[p].entries, i))];
    nodes1[n := nodes1[n].(linkCount := nodes[n].linkCount - 1)]
  }

  function Bumped(nodes: Nodes, n: Id): Nodes
    requires n in nodes
  {
    nodes[n := nodes[n].(refCount := nodes[n].refCount + 1)]
  }

  function Dropped(nodes: Nodes, n: Id): Nodes
    requires n in nodes && nodes[n].refCount > 0
  {
    nodes[n := nodes[n].(refCount := nodes[n].refCount - 1)]
  }

  /** What Open gives a file it creates: the folder's permissions without Execute. */
  function FilePerms(p: Perms): Perms {
    Perms(p.owner - {Execute}, p.group - {Execute}, p.other - {Execute})
  }

  function NewFile(u: User, folder: Node): Node {
    Node(File, u, FilePerms(folder.perms), 1, 0, [])
  }

  /** The state after Open has found or created its node, before the rights are checked. */
  ghost function OpenTarget(s: State, op: Op): (r: Result<(State, Id), Error>)
    requires Inv(s) && op.Open?
    ensures r.Ok? ==> r.value.1 in r.value.0.nodes
  {
    match WalkPath(s.nodes, op.cs, op.u, !op.create)
    case WErr(e) => Err(e)
    case WMissing(p) =>
      if !Allowed(op.u, s.nodes[p], {Write}) then Err(PermissionDenied)
      else Ok((s.(nodes := WithNew(s.nodes, p, Last(op.cs), op.id, NewFile(op.u, s.nodes[p]))), op.id))
    case WRoot => if op.failIfExist then Err(FileExists) else Ok((s, ROOT))
    case WFound(n, _) => if op.failIfExist then Err(FileExists) else Ok((s, n))
  }

  /** The node a hard link is to name; folders cannot be linked. */
  ghost function LinkTarget(s: State, target: seq<string>, u: User): (r: Result<Id, Error>)
    requires Inv(s)
    ensures r.Ok? ==> r.value in s.nodes && s.nodes[r.value].kind != Directory
  {
    match WalkPath(s.nodes, target, u, true)
    case WErr(e) => Err(e)
    case WRoot => Err(HardlinkToFolder)
    case WMissing(_) => Err(FileNotFound)
    case WFound(t, _) => if s.nodes[t].kind == Directory then Err(HardlinkToFolder) else Ok(t)
  }

  /** The folder a new entry goes into, which must not have it yet. */
  ghost function FolderFor(nodes: Nodes, cs: seq<string>, u: User): (r: Result<Id, Error>)
    requires Closed(nodes)
    ensures r.Ok? ==> cs != [] && r.value in nodes && LacksEntry(nodes[r.value], Last(cs))
  {
    match WalkPath(nodes, cs, u, false)
    case WErr(e) => Err(e)
    case WRoot => Err(FileExists)
    case WFound(_, _) => Err(FileExists)
    case WMissing(p) => if !Allowed(u, nodes[p], {Write}) then Err(PermissionDenied) else Ok(p)
  }

  function NewNode(kind: Kind, u: User, perms: Perms): Node {
    Node(kind, u, perms, 1, 0, [])
  }

  ghost function Step(s: State, op: Op): (State, Status)
    requires Inv(s) && Legal(s, op)
  {
    match op
    case Create(cs, u, kind, perms, id) => CreateStep(s, cs, u, NewNode(kind, u, perms), id)
    case Link(cs, u, target) => LinkStep(s, cs, u, target)
    case Delete(cs, u) => DeleteStep(s, cs, u)
    case Open(_, _, _, _, _, _, _) => OpenStep(s, op)
    case Close(d) => if d == 0 then (s, Err(InvalidFD)) else (ClosedDesc(s, d), Ok(()))
    case AddRef(d) => if d == 0 then (s, Err(InvalidFD)) else (WithRefs(s, d, s.descs[d].refs + 1), Ok(()))
  }

  ghost function CreateStep(s: State, cs: seq<string>, u: User, n: Node, id: Id): (State, Status)
    requires Inv(s)
  {
    match FolderFor(s.nodes, cs, u)
    case Err(e) => (s, Err(e))
    case Ok(p) => (s.(nodes := WithNew(s.nodes, p, Last(cs), id, n)), Ok(()))
  }

  ghost function LinkStep(s: State, cs: seq<string>, u: User, target: seq<string>): (State, Status)
    requires Inv(s)
  {
    match LinkTarget(s, target, u)
    case Err(e) => (s, Err(e))
    case Ok(t) =>
      match FolderFor(s.nodes, cs, u)
      case Err(e) => (s, Err(e))
      case Ok(p) => (s.(nodes := WithLink(s.nodes, p, Last(cs), t)), Ok(()))
  }

  ghost function DeleteStep(s: State, cs: seq<string>, u: User): (State, Status)
    requires Inv(s)
  {
    match WalkPath(s.nodes, cs, u, true)
    case WErr(e) => (s, Err(e))
    case WRoot => (s, Err(DeleteMountPoint))
    case WMissing(_) => (s, Err(FileNotFound))
    case WFound(n, p) =>
      if !Allowed(u, s.nodes[p], {Write}) then (s, Err(PermissionDenied))
      else if s.nodes[n].kind == Directory && s.nodes[n].entries != [] then (s, Err(FolderNotEmpty))
      else
        EntryCounts(s, p, Last(cs), n);
        (s.(nodes := Reap(Unlinked(s.nodes, p, IndexOf(s.nodes[p].entries, Last(cs), 0), n), n)), Ok(()))
  }

  ghost function OpenStep(s: State, op: Op): (State, Status)
    requires Inv(s) && op.Open?
  {
    match OpenTarget(s, op)
    case Err(e) => (s, Err(e))
    case Ok((s1, n)) =>
      if !Allowed(op.u, s1.nodes[n], op.req) then (s1, Err(PermissionDenied))
      else if s1.nodes[n].kind == Directory then (s1, Err(OpenFolder))
      else (Opened(s1, n, op.desc), Ok(()))
  }

  ghost function Opened(s: State, n: Id, d: Id): State
    requires n in s.nodes
  {
    State(Bumped(s.nodes, n), s.descs[d := Desc(n, 1)])
  }

  ghost function WithRefs(s: State, d: Id, k: nat): State
    requires d in s.descs
  {
    s.(descs := s.descs[d := s.descs[d].(refs := k)])
  }

  ghost function ClosedDesc(s: State, d: Id): State
    requires Inv(s) && d in s.descs
  {
    if s.descs[d].refs > 1 then WithRefs(s, d, s.descs[d].refs - 1)
    else
      OpenCounts(s, d);
      var n := s.descs[d].node;
      State(Reap(Dropped(s.nodes, n), n), s.descs - {d})
  }

  lemma EntryCounts(s: State, p: Id, name: string, n: Id)
    requires Inv(s) && p in s.nodes && HasEntry(s.nodes[p], name, n)
    ensures n in s.nodes && s.nodes[n].linkCount > 0
  {
    var i := IndexOf(s.nodes[p].entries, name, 0);
    var e := s.nodes[p].entries[i];
    assert e in s.nodes[p].entries;
    assert CountOk(s, n) && (p, e.name) in Links(s.nodes, n);
  }

  lemma OpenCounts(s: State, d: Id)
    requires Inv(s) && d in s.descs
    ensures s.descs[d].node in s.nodes && s.nodes[s.descs[d].node].refCount > 0
  {
    var n := s.descs[d].node;
    assert CountOk(s, n) && d in Opens(s.descs, n);
  }

  // ----- how the links change

  predicate InDir(nodes: Nodes, d: Id, e: Entry) { d in nodes && e in nodes[d].entries }

  lemma SameLinks(nodes: Nodes, nodes': Nodes, x: Id)
    requires forall d, e :: InDir(nodes, d, e) <==> InDir(nodes', d, e)
    ensures Links(nodes', x) == Links(nodes, x)
  {
    forall d: Id, e: Entry | e.id == x
      ensures InDir(nodes, d, e) ==> (d, e.name) in Links(nodes', x)
      ensures InDir(nodes', d, e) ==> (d, e.name) in Links(nodes, x)
    {
      assert InDir(nodes, d, e) <==> InDir(nodes', d, e);
    }
  }

  /** `nodes'` has exactly one more entry, in directory `p`. */
  ghost predicate EntryAdded(nodes: Nodes, nodes': Nodes, p: Id, e: Entry) {
    forall d, f :: InDir(nodes', d, f) <==> InDir(nodes, d, f) || (d == p && f == e)
  }

  lemma AddedLinks(nodes: Nodes, nodes': Nodes, p: Id, e: Entry, x: Id)
    requires p in nodes && LacksEntry(nodes[p], e.name) && EntryAdded(nodes, nodes', p, e)
    ensures Links(nodes', x) == Links(nodes, x) + if x == e.id then {(p, e.name)} else {}
    ensures (p, e.name) !in Links(nodes, x)
  {
    forall d: Id, f: Entry | f.id == x
      ensures InDir(nodes, d, f) ==> (d, f.name) in Links(nodes', x)
      ensures InDir(nodes', d, f) ==> (d, f.name) in Links(nodes, x) || (d == p && f == e)
    {
      assert InDir(nodes', d, f) <==> InDir(nodes, d, f) || (d == p && f == e);
    }
    assert InDir(nodes', p, e);
  }

  lemma RemovedLinks(nodes: Nodes, nodes': Nodes, p: Id, e: Entry, x: Id)
    requires p in nodes && UniqueNames(nodes[p].entries) && e in nodes[p].entries
    requires forall d, f :: InDir(nodes', d, f) <==> InDir(nodes, d, f) && !(d == p && f == e)
    ensures Links(nodes', x) == Links(nodes, x) - if x == e.id then {(p, e.name)} else {}
    ensures (p, e.name) in Links(nodes, e.id)
  {
    assert InDir(nodes, p, e);
    forall d: Id, f: Entry | f.id == x
      ensures InDir(nodes, d, f) && (d, f.name) != (p, e.name) ==> (d, f.name) in Links(nodes', x)
      ensures InDir(nodes', d, f) ==> (d, f.name) in Links(nodes, x) && (d, f.name) != (p, e.name)
    {
      assert InDir(nodes', d, f) <==> InDir(nodes, d, f) && !(d == p && f == e);
    }
  }

  lemma RemoveAtEntries(es: seq<Entry>, i: nat)
    requires i < |es| && UniqueNames(es)
    ensures UniqueNames(RemoveAt(es, i))
    ensures forall f :: f in RemoveAt(es, i) <==> f in es && f != es[i]
  {}

  // ----- every operation keeps the counts

  lemma AppendUnique(n: Node, e: Entry)
    requires LacksEntry(n, e.name) && UniqueNames(n.entries)
    ensures UniqueNames(n.entries + [e])
  {}

  lemma AddedCount(s: State, s': State, p: Id, e: Entry, x: Id)
    requires p in s.nodes && LacksEntry(s.nodes[p], e.name) && EntryAdded(s.nodes, s'.nodes, p, e)
    requires x in s.nodes && x in s'.nodes && CountOk(s, x) && s'.descs == s.descs
    requires s'.nodes[x].linkCount == s.nodes[x].linkCount + (if x == e.id then 1 else 0)
    requires s'.nodes[x].refCount == s.nodes[x].refCount
    ensures CountOk(s', x)
  {
    AddedLinks(s.nodes, s'.nodes, p, e, x);
  }

  lemma AddedClosed(nodes: Nodes, nodes': Nodes, p: Id, e: Entry)
    requires Closed(nodes) && EntryAdded(nodes, nodes', p, e) && e.id in nodes'
    requires forall x :: x in nodes ==> x in nodes'
    ensures Closed(nodes')
  {
    forall d, f | d in nodes' && f in nodes'[d].entries
      ensures f.id in nodes'
    {
      assert InDir(nodes', d, f);
      assert InDir(nodes, d, f) ==> f.id in nodes;
    }
  }

  lemma NewCount(s: State, s': State, p: Id, e: Entry)
    requires Closed(s.nodes) && DescsOk(s) && p in s.nodes && LacksEntry(s.nodes[p], e.name)
    requires EntryAdded(s.nodes, s'.nodes, p, e) && e.id !in s.nodes && s'.descs == s.descs
    requires e.id in s'.nodes && s'.nodes[e.id].linkCount == 1 && s'.nodes[e.id].refCount == 0
    ensures CountOk(s', e.id)
  {
    AddedLinks(s.nodes, s'.nodes, p, e, e.id);
    assert Links(s.nodes, e.id) == {} && Opens(s.descs, e.id) == {};
  }

  lemma NewEntries(nodes: Nodes, p: Id, name: string, id: Id, n: Node)
    requires p in nodes && id !in nodes && n.entries == []
    ensures EntryAdded(nodes, WithNew(nodes, p, name, id, n), p, Entry(name, id))
  {}

  lemma NewKeeps(s: State, p: Id, name: string, id: Id, n: Node)
    requires Inv(s) && p in s.nodes && LacksEntry(s.nodes[p], name) && id !in s.nodes
    requires n.linkCount == 1 && n.refCount == 0 && n.entries == []
    ensures Inv(s.(nodes := WithNew(s.nodes, p, name, id, n)))
  {
    var s' := s.(nodes := WithNew(s.nodes, p, name, id, n));
    var e := Entry(name, id);
    NewEntries(s.nodes, p, name, id, n);
    AddedClosed(s.nodes, s'.nodes, p, e);
    NewShape(s, p, name, id, n);
    forall x | x in s'.nodes
      ensures CountOk(s', x)
    {
      if x == id {
        NewCount(s, s', p, e);
      } else {
        assert CountOk(s, x);
        AddedCount(s, s', p, e, x);
      }
    }
    NewDirs(s.nodes, p, name, id, n);
  }

  lemma NewDirs(nodes: Nodes, p: Id, name: string, id: Id, n: Node)
    requires p in nodes && LacksEntry(nodes[p], name) && id !in nodes && n.entries == []
    requires forall d {:trigger DirOk(nodes, d)} :: d in nodes ==> DirOk(nodes, d)
    ensures var nodes' := WithNew(nodes, p, name, id, n);
            forall d {:trigger DirOk(nodes', d)} :: d in nodes' ==> DirOk(nodes', d)
  {
    var nodes' := WithNew(nodes, p, name, id, n);
    forall d | d in nodes'
      ensures DirOk(nodes', d)
    {
      assert d != id ==> DirOk(nodes, d);
      AddedDirOk(nodes, nodes', p, Entry(name, id), d);
    }
  }

  lemma AddedDirOk(nodes: Nodes, nodes': Nodes, p: Id, e: Entry, d: Id)
    requires p in nodes && LacksEntry(nodes[p], e.name) && d in nodes'
    requires d in nodes ==> DirOk(nodes, d) && nodes'[d].kind == nodes[d].kind
    requires d in nodes ==> nodes'[d].entries == nodes[d].entries + if d == p then [e] else []
    requires d !in nodes ==> nodes'[d].entries == []
    ensures DirOk(nodes', d)
  {}

  lemma NewShape(s: State, p: Id, name: string, id: Id, n: Node)
    requires p in s.nodes && id !in s.nodes && DescsOk(s)
    ensures var nodes' := WithNew(s.nodes, p, name, id, n);
            && nodes'.Keys == s.nodes.Keys + {id} && nodes'[id] == n
            && (forall x :: x in s.nodes ==>
                  nodes'[x] == s.nodes[x].(entries := s.nodes[x].entries + if x == p then [Entry(name, id)] else []))
            && DescsOk(s.(nodes := nodes'))
  {}

  lemma LinkEntries(nodes: Nodes, p: Id, name: string, t: Id)
    requires p in nodes && t in nodes
    ensures EntryAdded(nodes, WithLink(nodes, p, name, t), p, Entry(name, t))
  {}

  lemma LinkKeeps(s: State, p: Id, name: string, t: Id)
    requires Inv(s) && p in s.nodes && t in s.nodes && LacksEntry(s.nodes[p], name) && s.nodes[t].kind != Directory
    ensures Inv(s.(nodes := WithLink(s.nodes, p, name, t)))
  {
    var s' := s.(nodes := WithLink(s.nodes, p, name, t));
    var e := Entry(name, t);
    LinkEntries(s.nodes, p, name, t);
    AddedClosed(s.nodes, s'.nodes, p, e);
    LinkShape(s, p, name, t);
    forall x | x in s'.nodes
      ensures CountOk(s', x)
    {
      assert CountOk(s, x);
      AddedCount(s, s', p, e, x);
    }
    forall d | d in s'.nodes
      ensures DirOk(s'.nodes, d)
    {
      assert DirOk(s.nodes, d);
      if d == p { AppendUnique(s.nodes[p], e); }
    }
  }

  lemma LinkShape(s: State, p: Id, name: string, t: Id)
    requires p in s.nodes && t in s.nodes && DescsOk(s) && t != p
    ensures var nodes' := WithLink(s.nodes, p, name, t);
            && nodes'.Keys == s.nodes.Keys
            && (forall x :: x in s.nodes ==>
                  && nodes'[x].linkCount == s.nodes[x].linkCount + (if x == t then 1 else 0)
                  && nodes'[x].refCount == s.nodes[x].refCount && nodes'[x].kind == s.nodes[x].kind
                  && nodes'[x].entries == s.nodes[x].entries + if x == p then [Entry(name, t)] else [])
            && DescsOk(s.(nodes := nodes'))
  {}

  /** Everything Inv asks for, except that nothing may refer to `n` any more. */
  ghost predicate InvBut(s: State, n: Id) {
    && Closed(s.nodes) && s.nodes[ROOT].kind == Directory && DescsOk(s) && n in s.nodes
    && (forall x {:trigger Counted(s, x)} :: x in s.nodes ==> Counted(s, x) && (x == n || CountOk(s, x)))
    && (forall d {:trigger DirOk(s.nodes, d)} :: d in s.nodes ==> DirOk(s.nodes, d))
  }

  /** A node without links and descriptors is named by no entry and no descriptor. */
  lemma Unreferenced(s: State, n: Id)
    requires n in s.nodes && Counted(s, n) && s.nodes[n].linkCount == 0 && s.nodes[n].refCount == 0
    ensures forall d, f :: InDir(s.nodes, d, f) ==> f.id != n
    ensures forall d :: d in s.descs ==> s.descs[d].node != n
  {
    forall d: Id, f: Entry | InDir(s.nodes, d, f)
      ensures f.id != n
    {
      assert f.id == n ==> (d, f.name) in Links(s.nodes, n);
    }
    forall d | d in s.descs
      ensures s.descs[d].node != n
    {
      assert s.descs[d].node == n ==> d in Opens(s.descs, n);
    }
  }

  /** Destroying it therefore leaves nothing dangling. */
  lemma ReapKeeps(s: State, n: Id)
    requires InvBut(s, n) && s.nodes[n].entries == []
    ensures Inv(s.(nodes := Reap(s.nodes, n)))
  {
    var s' := s.(nodes := Reap(s.nodes, n));
    assert Counted(s, n) && Counted(s, ROOT);
    if s.nodes[n].linkCount == 0 && s.nodes[n].refCount == 0 {
      Unreferenced(s, n);
      assert forall d, f :: InDir(s'.nodes, d, f) <==> InDir(s.nodes, d, f);
      forall d, f | d in s'.nodes && f in s'.nodes[d].entries
        ensures f.id in s'.nodes
      {
        assert InDir(s.nodes, d, f);
      }
      forall x | x in s'.nodes
        ensures CountOk(s', x)
      {
        assert Counted(s, x);
        SameLinks(s.nodes, s'.nodes, x);
      }
      forall x | x in s'.nodes
        ensures DirOk(s'.nodes, x)
      {
        assert DirOk(s.nodes, x);
      }
    } else {
      forall x | x in s'.nodes
        ensures CountOk(s', x)
      {
        assert Counted(s, x);
      }
    }
  }

  lemma UnlinkedEntries(nodes: Nodes, p: Id, i: nat, n: Id)
    requires p in nodes && i < |nodes[p].entries| && n in nodes && nodes[n].linkCount > 0 && n != p
    requires UniqueNames(nodes[p].entries)
    ensures forall d, f :: InDir(Unlinked(nodes, p, i, n), d, f) <==> InDir(nodes, d, f) && !(d == p && f == nodes[p].entries[i])
  {}

  lemma UnlinkShape(s: State, p: Id, i: nat, n: Id)
    requires p in s.nodes && i < |s.nodes[p].entries| && n in s.nodes && s.nodes[n].linkCount > 0 && n != p && DescsOk(s)
    ensures var nodes' := Unlinked(s.nodes, p, i, n);
            && nodes'.Keys == s.nodes.Keys
            && (forall x :: x in s.nodes ==>
                  && nodes'[x].linkCount == s.nodes[x].linkCount - (if x == n then 1 else 0)
                  && nodes'[x].refCount == s.nodes[x].refCount && nodes'[x].kind == s.nodes[x].kind
                  && nodes'[x].entries == if x == p then RemoveAt(s.nodes[p].entries, i) else s.nodes[x].entries)
            && DescsOk(s.(nodes := nodes'))
  {}

  lemma RemovedCount(s: State, s': State, p: Id, e: Entry, x: Id)
    requires p in s.nodes && UniqueNames(s.nodes[p].entries) && e in s.nodes[p].entries
    requires forall d, f :: InDir(s'.nodes, d, f) <==> InDir(s.nodes, d, f) && !(d == p && f == e)
    requires x in s.nodes && x in s'.nodes && CountOk(s, x) && s'.descs == s.descs
    requires s'.nodes[x].linkCount == s.nodes[x].linkCount - (if x == e.id then 1 else 0)
    requires s'.nodes[x].refCount == s.nodes[x].refCount
    ensures Counted(s', x) && (x == e.id || CountOk(s', x))
  {
    RemovedLinks(s.nodes, s'.nodes, p, e, x);
  }

  lemma UnlinkCounts(s: State, p: Id, i: nat, n: Id)
    requires Inv(s) && p in s.nodes && i < |s.nodes[p].entries| && s.nodes[p].entries[i].id == n
    requires n in s.nodes && s.nodes[n].linkCount > 0 && n != p
    ensures InvBut(s.(nodes := Unlinked(s.nodes, p, i, n)), n)
  {
    var s' := s.(nodes := Unlinked(s.nodes, p, i, n));
    var e := s.nodes[p].entries[i];
    assert e in s.nodes[p].entries;
    assert DirOk(s.nodes, p);
    UnlinkedEntries(s.nodes, p, i, n);
    UnlinkShape(s, p, i, n);
    forall d, f | d in s'.nodes && f in s'.nodes[d].entries
      ensures f.id in s'.nodes
    {
      assert InDir(s'.nodes, d, f) && InDir(s.nodes, d, f);
    }
    forall x | x in s'.nodes
      ensures Counted(s', x) && (x == n || CountOk(s', x))
    {
      assert CountOk(s, x);
      RemovedCount(s, s', p, e, x);
    }
    forall x | x in s'.nodes
      ensures DirOk(s'.nodes, x)
    {
      assert DirOk(s.nodes, x);
      if x == p { RemoveAtEntries(s.nodes[p].entries, i); }
    }
  }

  lemma DeleteKeeps(s: State, p: Id, i: nat, n: Id)
    requires Inv(s) && p in s.nodes && i < |s.nodes[p].entries| && s.nodes[p].entries[i].id == n
    requires n in s.nodes && s.nodes[n].linkCount > 0 && s.nodes[n].entries == []
    ensures Inv(s.(nodes := Reap(Unlinked(s.nodes, p, i, n), n)))
  {
    UnlinkCounts(s, p, i, n);
    ReapKeeps(s.(nodes := Unlinked(s.nodes, p, i, n)), n);
  }

  /** Nodes changed their counts only. */
  predicate SameTree(nodes: Nodes, nodes': Nodes) {
    && nodes'.Keys == nodes.Keys
    && forall x :: x in nodes ==> nodes'[x].entries == nodes[x].entries && nodes'[x].kind == nodes[x].kind
  }

  lemma SameTreeKeeps(nodes: Nodes, nodes': Nodes)
    requires Closed(nodes) && SameTree(nodes, nodes')
    ensures Closed(nodes')
    ensures forall x :: Links(nodes', x) == Links(nodes, x)
    ensures forall d {:trigger DirOk(nodes', d)} :: d in nodes && DirOk(nodes, d) ==> DirOk(nodes', d)
  {}

  lemma OpenCount(s: State, n: Id, d: Id, x: Id)
    requires n in s.nodes && x in s.nodes && d !in s.descs && CountOk(s, x)
    requires Links(Bumped(s.nodes, n), x) == Links(s.nodes, x)
    ensures CountOk(State(Bumped(s.nodes, n), s.descs[d := Desc(n, 1)]), x)
  {
    MoreOpens(s.descs, n, d, x);
  }

  lemma MoreOpens(descs: map<Id, Desc>, n: Id, d: Id, x: Id)
    requires d !in descs
    ensures Opens(descs[d := Desc(n, 1)], x) == Opens(descs, x) + if x == n then {d} else {}
    ensures d !in Opens(descs, x)
  {}

  lemma OpenKeeps(s: State, n: Id, d: Id)
    requires Inv(s) && n in s.nodes && s.nodes[n].kind != Directory && d !in s.descs && d != 0
    ensures Inv(Opened(s, n, d))
  {
    var s' := Opened(s, n, d);
    SameTreeKeeps(s.nodes, s'.nodes);
    OpenDescs(s, n, d);
    forall x | x in s'.nodes
      ensures CountOk(s', x)
    {
      assert CountOk(s, x);
      OpenCount(s, n, d, x);
    }
    forall x | x in s'.nodes
      ensures DirOk(s'.nodes, x)
    {
      assert DirOk(s.nodes, x);
    }
  }

  lemma OpenDescs(s: State, n: Id, d: Id)
    requires DescsOk(s) && n in s.nodes && s.nodes[n].kind != Directory && d != 0
    ensures DescsOk(Opened(s, n, d))
  {}

  lemma CloseKeeps(s: State, d: Id)
    requires Inv(s) && d in s.descs && s.descs[d].refs == 1
    ensures Inv(ClosedDesc(s, d))
  {
    OpenCounts(s, d);
    var n := s.descs[d].node;
    assert DirOk(s.nodes, n);
    CloseCounts(s, d);
    ReapKeeps(State(Dropped(s.nodes, n), s.descs - {d}), n);
  }

  /** With the descriptor gone and its reference given back, the counts still fit. */
  lemma CloseCounts(s: State, d: Id)
    requires Inv(s) && d in s.descs && s.descs[d].node in s.nodes && s.nodes[s.descs[d].node].refCount > 0
    ensures InvBut(State(Dropped(s.nodes, s.descs[d].node), s.descs - {d}), s.descs[d].node)
  {
    var n := s.descs[d].node;
    var s1 := State(Dropped(s.nodes, n), s.descs - {d});
    SameTreeKeeps(s.nodes, s1.nodes);
    forall x | x in s1.nodes
      ensures Counted(s1, x) && (x == n || CountOk(s1, x))
    {
      assert CountOk(s, x);
      FewerOpens(s.descs, d, x);
    }
    forall x | x in s1.nodes
      ensures DirOk(s1.nodes, x)
    {
      assert DirOk(s.nodes, x);
    }
  }

  lemma FewerOpens(descs: map<Id, Desc>, d: Id, x: Id)
    requires d in descs
    ensures |Opens(descs - {d}, x)| == |Opens(descs, x)| - if x == descs[d].node then 1 else 0
  {
    assert Opens(descs - {d}, x) == Opens(descs, x) - {d};
  }

  lemma RefsKeep(s: State, d: Id, k: nat)
    requires Inv(s) && d in s.descs && k > 0
    ensures Inv(WithRefs(s, d, k))
  {
    var s' := WithRefs(s, d, k);
    forall x | x in s'.nodes
      ensures CountOk(s', x)
    {
      assert CountOk(s, x);
      SameOpens(s.descs, d, k, x);
    }
    assert DescsOk(s');
    assert forall x {:trigger DirOk(s'.nodes, x)} :: x in s'.nodes ==> DirOk(s'.nodes, x);
  }

  lemma SameOpens(descs: map<Id, Desc>, d: Id, k: nat, x: Id)
    requires d in descs
    ensures Opens(descs[d := descs[d].(refs := k)], x) == Opens(descs, x)
  {}

  lemma CreateStepKeeps(s: State, cs: seq<string>, u: User, n: Node, id: Id)
    requires Inv(s) && id !in s.nodes && n.linkCount == 1 && n.refCount == 0 && n.entries == []
    ensures Inv(CreateStep(s, cs, u, n, id).0)
  {
    var p := FolderFor(s.nodes, cs, u);
    if p.Ok? { NewKeeps(s, p.value, Last(cs), id, n); }
  }

  lemma LinkStepKeeps(s: State, cs: seq<string>, u: User, target: seq<string>)
    requires Inv(s)
    ensures Inv(LinkStep(s, cs, u, target).0)
  {
    var t, p := LinkTarget(s, target, u), FolderFor(s.nodes, cs, u);
    if t.Ok? && p.Ok? { LinkKeeps(s, p.value, Last(cs), t.value); }
  }

  lemma DeleteStepKeeps(s: State, cs: seq<string>, u: User)
    requires Inv(s)
    ensures Inv(DeleteStep(s, cs, u).0)
  {
    var w := WalkPath(s.nodes, cs, u, true);
    if DeleteStep(s, cs, u).1.Ok? {
      EntryCounts(s, w.parent, Last(cs), w.node);
      assert DirOk(s.nodes, w.node);
      DeleteKeeps(s, w.parent, IndexOf(s.nodes[w.parent].entries, Last(cs), 0), w.node);
    }
  }

  lemma OpenStepKeeps(s: State, op: Op)
    requires Inv(s) && op.Open? && Legal(s, op)
    ensures Inv(OpenStep(s, op).0)
  {
    OpenTargetKeeps(s, op);
    var t := OpenTarget(s, op);
    if t.Ok? && t.value.0.nodes[t.value.1].kind != Directory { OpenKeeps(t.value.0, t.value.1, op.desc); }
  }

  lemma ClosedKeeps(s: State, d: Id)
    requires Inv(s) && d in s.descs
    ensures Inv(ClosedDesc(s, d))
  {
    if s.descs[d].refs > 1 { RefsKeep(s, d, s.descs[d].refs - 1); } else { CloseKeeps(s, d); }
  }

  lemma StepKeeps(s: State, op: Op)
    requires Inv(s) && Legal(s, op)
    ensures Inv(Step(s, op).0)
  {
    match op {
      case Create(cs, u, kind, perms, id) => CreateStepKeeps(s, cs, u, NewNode(kind, u, perms), id);
      case Link(cs, u, target) => LinkStepKeeps(s, cs, u, target);
      case Delete(cs, u) => DeleteStepKeeps(s, cs, u);
      case Open(_, _, _, _, _, _, _) => OpenStepKeeps(s, op);
      case Close(d) => if d != 0 { ClosedKeeps(s, d); }
      case AddRef(d) => if d != 0 { RefsKeep(s, d, s.descs[d].refs + 1); }
    }
  }

  lemma OpenTargetKeeps(s: State, op: Op)
    requires Inv(s) && op.Open? && Legal(s, op)
    ensures OpenTarget(s, op).Ok? ==>
              var (s1, n) := OpenTarget(s, op).value; Inv(s1) && n in s1.nodes && s1.descs == s.descs
  {
    var w := WalkPath(s.nodes, op.cs, op.u, !op.create);
    if w.WMissing? { NewKeeps(s, w.parent, Last(op.cs), op.id, NewFile(op.u, s.nodes[w.parent])); }
  }

  // ----- whole runs

  ghost predicate Steps(s: State, op: Op, s': State) {
    Inv(s) ==> Legal(s, op) && s' == Step(s, op).0
  }

  /** A fresh file system: an empty root directory. */
  predicate IsInitial(s: State) {
    && s.nodes.Keys == {ROOT} && s.descs == map[]
    && s.nodes[ROOT].kind == Directory && s.nodes[ROOT].linkCount == 1
    && s.nodes[ROOT].refCount == 0 && s.nodes[ROOT].entries == []
  }

  ghost predicate IsRun(ops: seq<Op>, trace: seq<State>) {
    && |trace| == |ops| + 1 && IsInitial(trace[0])
    && forall i :: 0 <= i < |ops| ==> Steps(trace[i], ops[i], trace[i + 1])
  }

  lemma InitialOk(s: State)
    requires IsInitial(s)
    ensures Inv(s)
  {}

  lemma {:induction false} RunKeeps(ops: seq<Op>, trace: seq<State>, k: nat)
    requires IsRun(ops, trace) && k <= |ops|
    ensures Inv(trace[k])
  {
    if k == 0 {
      InitialOk(trace[0]);
    } else {
      RunKeeps(ops, trace, k - 1);
      assert Steps(trace[k - 1], ops[k - 1], trace[k - 1 + 1]);
      StepKeeps(trace[k - 1], ops[k - 1]);
    }
  }

  /** At every point of every run: the two counts are what they are meant to be, nothing refers
      to a node that is gone, and a node that exists is still referred to. */
  lemma RunLifetimes(ops: seq<Op>, trace: seq<State>, k: nat, n: Id)
    requires IsRun(ops, trace) && k <= |ops|
    ensures var s := trace[k];
            && (n in s.nodes ==> s.nodes[n].linkCount == |Links(s.nodes, n)| + (if n == ROOT then 1 else 0))
            && (n in s.nodes ==> s.nodes[n].refCount == |Opens(s.descs, n)|)
            && (n in s.nodes <==> n == ROOT || Links(s.nodes, n) != {} || Opens(s.descs, n) != {})
  {
    RunKeeps(ops, trace, k);
    var s := trace[k];
    if n in s.nodes {
      assert CountOk(s, n);
    } else {
      assert forall d, e :: d in s.nodes && e in s.nodes[d].entries ==> e.id != n;
      assert Links(s.nodes, n) == {};
      assert Opens(s.descs, n) == {};
    }
  }

  /** The one kind of call that fails and still changes something: Open creates the file and
      then finds that the rights asked for are not given by the folder's permissions. */
  ghost predicate CreatesThenFails(s: State, op: Op)
    requires Inv(s)
  {
    && op.Open? && op.create
    && var w := WalkPath(s.nodes, op.cs, op.u, false);
       && w.WMissing? && Allowed(op.u, s.nodes[w.parent], {Write})
       && !Allowed(op.u, NewFile(op.u, s.nodes[w.parent]), op.req)
  }

  lemma FailureChangesIff(s: State, op: Op)
    requires Inv(s) && Legal(s, op) && Step(s, op).1.Err?
    ensures Step(s, op).0 != s <==> CreatesThenFails(s, op)
  {}

  // ----- it happens

  /** The root directory a TempFS starts with. */
  const FRESH_ROOT := Node(Directory, User(0, 0),
    Perms({Read, Write, Execute}, {Read, Execute}, {Read, Execute}), 1, 0, [])

  const EMPTY := State(map[ROOT := FRESH_ROOT], map[])

  const FOLDER := Node(Directory, User(0, 0), Perms({Write, Execute}, {Write, Execute}, {Write, Execute}), 1, 0, [])

  const WITH_FOLDER := State(map[ROOT := FRESH_ROOT.(entries := [Entry("d", 5)]), 5 := FOLDER], map[])

  const MAKE_FOLDER := Create(["d"], User(0, 0), Directory, FOLDER.perms, 5)

  /** User 1 opens a new file in the folder for reading. */
  const OPEN_NEW := Open(["d", "f"], User(1, 1), {Read}, true, false, 6, 7)

  lemma FolderMade()
    ensures Inv(EMPTY) && Legal(EMPTY, MAKE_FOLDER) && Step(EMPTY, MAKE_FOLDER) == (WITH_FOLDER, Ok(())) && Inv(WITH_FOLDER)
  {
    InitialOk(EMPTY);
    assert WalkPath(EMPTY.nodes, ["d"], User(0, 0), false) == WMissing(ROOT);
    var s := Step(EMPTY, MAKE_FOLDER).0;
    assert s.nodes[ROOT].entries == [Entry("d", 5)] && s.nodes == WITH_FOLDER.nodes;
    StepKeeps(EMPTY, MAKE_FOLDER);
  }

  lemma NewFileDenied()
    requires Inv(WITH_FOLDER)
    ensures Legal(WITH_FOLDER, OPEN_NEW) && Step(WITH_FOLDER, OPEN_NEW).1 == Err(PermissionDenied)
    ensures CreatesThenFails(WITH_FOLDER, OPEN_NEW)
  {
    var nodes, cs, u := WITH_FOLDER.nodes, OPEN_NEW.cs, OPEN_NEW.u;
    assert IndexOf(nodes[ROOT].entries, "d", 0) == 0;
    assert cs[1..] == ["f"];
    assert WalkFrom(nodes, 5, ["f"], u, false) == WMissing(5);
    assert WalkPath(nodes, cs, u, false) == WMissing(5);
  }

  /** On a fresh file system root makes a folder that everyone may write but not read; a user who
      opens a new file there for reading is refused, and the file is there. */
  lemma FailureCanChange() returns (trace: seq<State>)
    ensures IsRun([MAKE_FOLDER], trace) && Inv(trace[1]) && Legal(trace[1], OPEN_NEW)
    ensures Step(trace[1], OPEN_NEW).1 == Err(PermissionDenied) && Step(trace[1], OPEN_NEW).0 != trace[1]
  {
    FolderMade();
    NewFileDenied();
    FailureChangesIff(WITH_FOLDER, OPEN_NEW);
    trace := [EMPTY, WITH_FOLDER];
    assert Steps(trace[0], [MAKE_FOLDER][0], trace[1]);
  }
}
