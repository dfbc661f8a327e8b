/** The memory manager's process maps over physical memory: what each operation does to the
    machine state, what every run of operations keeps, and the in-place implementation.
 */
module MemoryManager {
  import opened Wrappers
  import opened PageTables

  /** `free` is what the page allocator may hand out, `held` was handed out to the kernel and is
      not mapped, `roots` are the live process maps, and `lost` are pages whose mapping was
      removed or replaced without giving the frame back. */
  datatype State = State(mem: Mem, free: set<Frame>, held: set<Frame>, lost: set<Frame>, roots: set<Frame>)

  datatype Op =
    | Create(root: Frame)
    | AllocPage(f: Frame)
    | FreePage(f: Frame)
    | MapPhys(root: Frame, v: VPage, f: Frame)
    | MapAlloc(root: Frame, v: VPage, f: Frame)
    | Unmap(root: Frame, v: VPage)
    | Fork(parent: Frame, child: Frame)
    | FreeMap(root: Frame)

  ghost predicate MemOk(mem: Mem) {
    forall f :: f in mem ==> f < MAX_FRAME && |mem[f]| == 512
  }

  /** Memory changed at most in the frames of `where`. */
  ghost predicate OnlyChanged(mem: Mem, mem': Mem, where: set<Frame>) {
    && mem'.Keys == mem.Keys
    && forall f :: f in mem ==> |mem'[f]| == |mem[f]| && (f !in where ==> mem'[f] == mem[f])
  }

  ghost function Tables(mem: Mem, root: Frame): set<Frame> {
    set f | f in mem && exists s: Slot :: !s.Leaf? && At(mem, root, s) == Some(f)
  }

  /** Every frame is in exactly one place: free, held, lost, or one position of one live map. */
  ghost predicate Inv(s: State) {
    && MemOk(s.mem)
    && s.free <= s.mem.Keys && s.held <= s.mem.Keys && s.lost <= s.mem.Keys
    && s.free !! s.held !! s.lost
    && (forall r :: r in s.roots ==> Tree(s.mem, r))
    && (forall r, f :: r in s.roots && Owns(s.mem, r, f) ==> f !in s.free && f !in s.held && f !in s.lost)
    && (forall r, q, f :: r in s.roots && q in s.roots && Owns(s.mem, r, f) && Owns(s.mem, q, f) ==> r == q)
    && (forall f {:trigger Placed(s, f)} :: f in s.mem ==> Placed(s, f))
  }

  ghost predicate Placed(s: State, f: Frame) {
    f in s.free || f in s.held || f in s.lost || exists r :: r in s.roots && Owns(s.mem, r, f)
  }

  // ----- what one operation does

  /** Exactly the missing tables on the walk to `v` were added, from frames that were free. */
  ghost predicate PathBuilt(mem: Mem, free: set<Frame>, mem': Mem, root: Frame, v: VPage) {
    && Tree(mem', root)
    && OnlyChanged(mem, mem', free + Tables(mem, root))
    && (forall t :: t != LeafOf(v) && !(OnPath(v, t) && At(mem, root, t).None?) ==>
          At(mem', root, t) == At(mem, root, t))
    && (forall t :: OnPath(v, t) && At(mem, root, t).None? ==>
          At(mem', root, t).Some? && At(mem', root, t).value in free)
  }

  ghost function NewTables(mem: Mem, free: set<Frame>, mem': Mem, root: Frame, v: VPage): set<Frame> {
    set f | f in free && exists t :: OnPath(v, t) && At(mem, root, t).None? && At(mem', root, t) == Some(f)
  }

  function AsSet(f: Option<Frame>): set<Frame> {
    if f.Some? then {f.value} else {}
  }

  ghost predicate Next(s: State, op: Op, s': State) {
    match op
    case Create(r) =>
      && r in s.free
      && OnlyChanged(s.mem, s'.mem, s.free)
      && (forall t :: At(s'.mem, r, t) == if t == Top then Some(r) else None)
      && s' == s.(mem := s'.mem, free := s.free - {r}, roots := s.roots + {r})
    case AllocPage(f) =>
      && f in s.free
      && OnlyChanged(s.mem, s'.mem, s.free)
      && s' == s.(mem := s'.mem, free := s.free - {f}, held := s.held + {f})
    case FreePage(f) =>
      && f in s.held
      && OnlyChanged(s.mem, s'.mem, s.free + {f})
      && s' == s.(mem := s'.mem, free := s.free + {f}, held := s.held - {f})
    case MapPhys(r, v, f) =>
      && r in s.roots && f in s.held
      && PathBuilt(s.mem, s.free, s'.mem, r, v)
      && Translate(s'.mem, r, v) == Some(f)
      && s' == s.(mem := s'.mem, free := s.free - NewTables(s.mem, s.free, s'.mem, r, v), held := s.held - {f},
                  lost := s.lost + AsSet(Translate(s.mem, r, v)))
    case MapAlloc(r, v, f) =>
      && r in s.roots
      && Translate(s'.mem, r, v) == Some(f)
      && if Translate(s.mem, r, v).Some? then s' == s && Translate(s.mem, r, v) == Some(f)
         else
           && f in s.free
           && PathBuilt(s.mem, s.free, s'.mem, r, v)
           && s' == s.(mem := s'.mem, free := s.free - NewTables(s.mem, s.free, s'.mem, r, v) - {f})
    case Unmap(r, v) =>
      && r in s.roots && At(s.mem, r, Low(v.i, v.j)).Some?
      && Tree(s'.mem, r)
      && OnlyChanged(s.mem, s'.mem, Tables(s.mem, r))
      && (forall t :: At(s'.mem, r, t) == if t == LeafOf(v) then None else At(s.mem, r, t))
      && s' == s.(mem := s'.mem, lost := s.lost + AsSet(Translate(s.mem, r, v)))
    case Fork(p, c) =>
      && p in s.roots
      && OnlyChanged(s.mem, s'.mem, s.free)
      && Tree(s'.mem, c)
      && Footprint(s'.mem, c) <= s.free
      && Copied(s.mem, p, s'.mem, c)
      && s' == s.(mem := s'.mem, free := s.free - Footprint(s'.mem, c), roots := s.roots + {c})
    case FreeMap(r) =>
      && r in s.roots
      && s'.free == s.free + Footprint(s.mem, r)
      && OnlyChanged(s.mem, s'.mem, s'.free)
      && s' == s.(mem := s'.mem, free := s'.free, roots := s.roots - {r})
  }

  /** The two maps have the same virtual pages, with equal contents in different frames. */
  ghost predicate Copied(mem: Mem, p: Frame, mem': Mem, c: Frame) {
    forall v :: CopiedPage(mem, p, mem', c, v)
  }

  ghost predicate CopiedPage(mem: Mem, p: Frame, mem': Mem, c: Frame, v: VPage) {
    match (Translate(mem, p, v), Translate(mem', c, v))
    case (None, None) => true
    case (Some(f), Some(g)) => f != g && f in mem && g in mem' && mem[f] == mem'[g]
    case _ => false
  }

  // ----- every operation keeps every frame in one place

  lemma OthersUnaffected(s: State, mem': Mem, where: set<Frame>, r: Frame)
    requires Inv(s) && r in s.roots && OnlyChanged(s.mem, mem', where)
    requires forall f :: Owns(s.mem, r, f) ==> f !in where
    ensures Tree(mem', r) && forall t :: At(mem', r, t) == At(s.mem, r, t)
    ensures forall f :: Owns(mem', r, f) <==> Owns(s.mem, r, f)
  {
    forall f: Frame | Owns(s.mem, r, f)
      ensures f in mem' && mem'[f] == s.mem[f]
    {
      var t :| At(s.mem, r, t) == Some(f);
    }
    SameFramesSameTree(s.mem, mem', r);
  }

  /** The frames that are free, held, lost or part of map `r`. */
  ghost predicate Near(s: State, r: Frame, f: Frame) {
    f in s.free || f in s.held || f in s.lost || Owns(s.mem, r, f)
  }

  /** An operation that moves frames only between the pools and one map keeps the invariant. */
  lemma OneMapKeeps(s: State, s': State, r: Frame)
    requires Inv(s) && r in s.roots && s'.roots == s.roots && Tree(s'.mem, r)
    requires OnlyChanged(s.mem, s'.mem, s.free + s.held + Tables(s.mem, r))
    requires s'.free !! s'.held !! s'.lost
    requires forall f :: Near(s, r, f) <==> Near(s', r, f)
    requires forall f :: Owns(s'.mem, r, f) ==> f !in s'.free && f !in s'.held && f !in s'.lost
    ensures Inv(s')
  {
    forall q | q in s.roots && q != r
      ensures Tree(s'.mem, q) && forall f :: Owns(s'.mem, q, f) <==> Owns(s.mem, q, f)
    {
      forall f | Owns(s.mem, q, f)
        ensures f !in s.free + s.held + Tables(s.mem, r)
      {
        assert f in Tables(s.mem, r) ==> Owns(s.mem, r, f);
      }
      OthersUnaffected(s, s'.mem, s.free + s.held + Tables(s.mem, r), q);
    }
    forall q, f | q in s.roots && q != r && Owns(s.mem, q, f)
      ensures !Near(s, r, f)
    {}
    forall f | f in s.mem
      ensures Placed(s', f)
    {
      assert Placed(s, f);
      if !Near(s, r, f) {
        var q :| q in s.roots && Owns(s.mem, q, f);
        assert q != r;
      } else {
        assert Near(s', r, f);
      }
    }
    forall f | Near(s', r, f)
      ensures f in s.mem
    {
      if Owns(s.mem, r, f) {
        var t :| At(s.mem, r, t) == Some(f);
      }
    }
  }

  /** Adding a map whose frames all came from the free pool keeps the invariant. */
  lemma NewMapKeeps(s: State, s': State, c: Frame)
    requires Inv(s) && Tree(s'.mem, c) && OnlyChanged(s.mem, s'.mem, s.free)
    requires forall f :: Owns(s'.mem, c, f) ==> f in s.free
    requires s' == s.(mem := s'.mem, free := s'.free, roots := s.roots + {c})
    requires forall f :: f in s'.free <==> f in s.free && !Owns(s'.mem, c, f)
    ensures Inv(s') && c !in s.roots
  {
    assert At(s'.mem, c, Top) == Some(c) && Owns(s'.mem, c, c);
    assert forall q :: q in s.roots ==> At(s.mem, q, Top) == Some(q) && Owns(s.mem, q, q);
    forall q | q in s.roots
      ensures Tree(s'.mem, q) && forall f :: Owns(s'.mem, q, f) <==> Owns(s.mem, q, f)
    {
      OthersUnaffected(s, s'.mem, s.free, q);
    }
    forall f | f in s.mem
      ensures Placed(s', f)
    {
      NewMapPlaced(s, s', c, f);
    }
  }

  lemma NewMapPlaced(s: State, s': State, c: Frame, f: Frame)
    requires Placed(s, f) && s' == s.(mem := s'.mem, free := s'.free, roots := s.roots + {c})
    requires f in s'.free <==> f in s.free && !Owns(s'.mem, c, f)
    requires forall q :: q in s.roots ==> (Owns(s'.mem, q, f) <==> Owns(s.mem, q, f))
    ensures Placed(s', f)
  {
    if f in s.free {
      assert f in s'.free || (c in s'.roots && Owns(s'.mem, c, f));
    } else if f !in s.held && f !in s.lost {
      var q :| q in s.roots && Owns(s.mem, q, f);
      assert q in s'.roots && Owns(s'.mem, q, f);
    }
  }

  lemma DropMapKeeps(s: State, r: Frame, s': State)
    requires Inv(s) && Next(s, FreeMap(r), s')
    ensures Inv(s')
  {
    forall q | q in s'.roots
      ensures Tree(s'.mem, q) && forall f :: Owns(s'.mem, q, f) <==> Owns(s.mem, q, f)
    {
      OthersUnaffected(s, s'.mem, s'.free, q);
    }
    forall f | f in s.mem
      ensures Placed(s', f)
    {
      assert Placed(s, f);
      if f !in s.free && f !in s.held && f !in s.lost {
        var q :| q in s.roots && Owns(s.mem, q, f);
        assert q == r ==> f in Footprint(s.mem, r);
        assert q != r ==> q in s'.roots && Owns(s'.mem, q, f);
      }
    }
  }

  lemma PoolMoveKeeps(s: State, f: Frame, s': State)
    requires Inv(s) && (Next(s, AllocPage(f), s') || Next(s, FreePage(f), s'))
    ensures Inv(s')
  {
    forall q | q in s.roots
      ensures Tree(s'.mem, q) && forall g :: Owns(s'.mem, q, g) <==> Owns(s.mem, q, g)
    {
      OthersUnaffected(s, s'.mem, s.free + {f}, q);
    }
    forall g | g in s.mem
      ensures Placed(s', g)
    {
      assert Placed(s, g);
      if g !in s.free && g !in s.held && g !in s.lost {
        var q :| q in s.roots && Owns(s.mem, q, g);
        assert q in s'.roots && Owns(s'.mem, q, g);
      }
    }
  }

  /** Who owns what after building a path and hanging page `f` at its end. */
  lemma MappedOwns(s: State, s': State, r: Frame, v: VPage, f: Frame)
    requires Inv(s) && r in s.roots && PathBuilt(s.mem, s.free, s'.mem, r, v) && Translate(s'.mem, r, v) == Some(f)
    ensures forall g :: Owns(s'.mem, r, g) <==>
              g == f || g in NewTables(s.mem, s.free, s'.mem, r, v) || (Owns(s.mem, r, g) && Translate(s.mem, r, v) != Some(g))
    ensures f !in NewTables(s.mem, s.free, s'.mem, r, v)
  {
    var leaf := LeafOf(v);
    forall g
      ensures Owns(s'.mem, r, g) <==>
                g == f || g in NewTables(s.mem, s.free, s'.mem, r, v) || (Owns(s.mem, r, g) && Translate(s.mem, r, v) != Some(g))
    {
      if Owns(s'.mem, r, g) {
        var t :| At(s'.mem, r, t) == Some(g);
        if t != leaf && !(OnPath(v, t) && At(s.mem, r, t).None?) {
          assert At(s.mem, r, t) == Some(g);
        }
      }
      if Owns(s.mem, r, g) && Translate(s.mem, r, v) != Some(g) {
        var t :| At(s.mem, r, t) == Some(g);
        assert At(s'.mem, r, t) == Some(g);
      }
    }
    assert At(s'.mem, r, leaf) == Some(f);
  }

  /** The page that was mapped there belongs to the map. */
  lemma LeafOwned(mem: Mem, r: Frame, v: VPage)
    requires Tree(mem, r)
    ensures Translate(mem, r, v).Some? ==> Owns(mem, r, Translate(mem, r, v).value)
  {}

  lemma MapPhysKeeps(s: State, r: Frame, v: VPage, f: Frame, s': State)
    requires Inv(s) && Next(s, MapPhys(r, v, f), s')
    ensures Inv(s')
  {
    MappedOwns(s, s', r, v, f);
    LeafOwned(s.mem, r, v);
    HeldNotFree(s, f, NewTables(s.mem, s.free, s'.mem, r, v));
    MovedOnce(s, s', r, f, NewTables(s.mem, s.free, s'.mem, r, v), AsSet(Translate(s.mem, r, v)));
    OneMapKeeps(s, s', r);
  }

  lemma HeldNotFree(s: State, f: Frame, tables: set<Frame>)
    requires Inv(s) && f in s.held && tables <= s.free
    ensures f !in tables && s.free - tables == s.free - tables - {f}
  {}

  lemma MapAllocKeeps(s: State, r: Frame, v: VPage, f: Frame, s': State)
    requires Inv(s) && Next(s, MapAlloc(r, v, f), s')
    ensures Inv(s')
  {
    if Translate(s.mem, r, v).None? {
      MappedOwns(s, s', r, v, f);
      MovedOnce(s, s', r, f, NewTables(s.mem, s.free, s'.mem, r, v), {});
      OneMapKeeps(s, s', r);
    }
  }

  /** The map gains the page and the new tables from the pools, and the frames in `gone` are lost. */
  lemma MovedOnce(s: State, s': State, r: Frame, f: Frame, tables: set<Frame>, gone: set<Frame>)
    requires Inv(s) && r in s.roots && tables <= s.free && (f in s.free || f in s.held) && f !in tables
    requires s'.free == s.free - tables - {f} && s'.held == s.held - {f} && s'.lost == s.lost + gone
    requires forall g :: g in gone ==> Owns(s.mem, r, g)
    requires forall g :: Owns(s'.mem, r, g) <==> g == f || g in tables || (Owns(s.mem, r, g) && g !in gone)
    ensures s'.free !! s'.held !! s'.lost
    ensures forall g :: Near(s, r, g) <==> Near(s', r, g)
    ensures forall g :: Owns(s'.mem, r, g) ==> g !in s'.free && g !in s'.held && g !in s'.lost
  {}

  lemma UnmappedOwns(mem: Mem, mem': Mem, r: Frame, leaf: Slot)
    requires Tree(mem, r) && leaf.Leaf?
    requires forall t :: At(mem', r, t) == if t == leaf then None else At(mem, r, t)
    ensures forall g: Frame :: Owns(mem', r, g) <==> Owns(mem, r, g) && At(mem, r, leaf) != Some(g)
  {}

  lemma UnmapKeeps(s: State, r: Frame, v: VPage, s': State)
    requires Inv(s) && Next(s, Unmap(r, v), s')
    ensures Inv(s')
  {
    UnmappedOwns(s.mem, s'.mem, r, LeafOf(v));
    var leaf := Translate(s.mem, r, v);
    assert leaf.Some? ==> Owns(s.mem, r, leaf.value);
    assert forall f :: Near(s, r, f) <==> Near(s', r, f);
    OneMapKeeps(s, s', r);
  }

  lemma NewRootTree(mem: Mem, r: Frame)
    requires Backed(mem, r) && forall t :: At(mem, r, t) == if t == Top then Some(r) else None
    ensures Tree(mem, r) && forall f :: Owns(mem, r, f) <==> f == r
  {
    assert At(mem, r, Top) == Some(r);
  }

  lemma FootprintOwns(mem: Mem, r: Frame, f: Frame)
    requires Tree(mem, r)
    ensures f in Footprint(mem, r) <==> Owns(mem, r, f)
  {}

  lemma NextKeeps(s: State, op: Op, s': State)
    requires Inv(s) && Next(s, op, s')
    ensures Inv(s')
  {
    match op {
      case Create(r) =>
        NewRootTree(s'.mem, r);
        NewMapKeeps(s, s', r);
      case AllocPage(f) => PoolMoveKeeps(s, f, s');
      case FreePage(f) => PoolMoveKeeps(s, f, s');
      case MapPhys(r, v, f) => MapPhysKeeps(s, r, v, f, s');
      case MapAlloc(r, v, f) => MapAllocKeeps(s, r, v, f, s');
      case Unmap(r, v) => UnmapKeeps(s, r, v, s');
      case Fork(p, c) =>
        forall f ensures f in Footprint(s'.mem, c) <==> Owns(s'.mem, c, f) {
          FootprintOwns(s'.mem, c, f);
        }
        NewMapKeeps(s, s', c);
      case FreeMap(r) => DropMapKeeps(s, r, s');
    }
  }

  // ----- whole runs

  ghost predicate IsRun(ops: seq<Op>, trace: seq<State>) {
    && |trace| == |ops| + 1
    && forall i :: 0 <= i < |ops| ==> Next(trace[i], ops[i], trace[i + 1])
  }

  lemma {:induction false} RunKeeps(ops: seq<Op>, trace: seq<State>, k: nat)
    requires IsRun(ops, trace) && Inv(trace[0]) && k <= |ops|
    ensures Inv(trace[k]) && trace[k].mem.Keys == trace[0].mem.Keys
  {
    if k > 0 {
      RunKeeps(ops, trace, k - 1);
      NextKeeps(trace[k - 1], ops[k - 1], trace[k]);
    }
  }

  /** After booting no process map exists; the kernel holds the frames of devices, the others are free. */
  function Boot(mem: Mem, devices: set<Frame>): State {
    State(mem, mem.Keys - devices, devices, {}, {})
  }

  lemma BootOk(mem: Mem, devices: set<Frame>)
    requires MemOk(mem) && devices <= mem.Keys
    ensures Inv(Boot(mem, devices))
  {
    var s := Boot(mem, devices);
    assert forall f :: f in mem ==> Placed(s, f);
  }

  /** The two operations that drop a mapped page without returning its frame. */
  predicate Drops(s: State, op: Op) {
    (op.Unmap? || op.MapPhys?) && Translate(s.mem, op.root, op.v).Some?
  }

  lemma {:induction false} NothingDropped(ops: seq<Op>, trace: seq<State>, k: nat)
    requires IsRun(ops, trace) && k <= |ops|
    requires forall i :: 0 <= i < |ops| ==> !Drops(trace[i], ops[i])
    ensures trace[k].lost == trace[0].lost
  {
    if k > 0 {
      NothingDropped(ops, trace, k - 1);
      assert Next(trace[k - 1], ops[k - 1], trace[k]) && !Drops(trace[k - 1], ops[k - 1]);
    }
  }

  lemma {:induction false} LostGrows(ops: seq<Op>, trace: seq<State>, i: nat, k: nat)
    requires IsRun(ops, trace) && i <= k <= |ops|
    ensures trace[i].lost <= trace[k].lost
    decreases k
  {
    if i < k {
      LostGrows(ops, trace, i, k - 1);
      assert Next(trace[k - 1], ops[k - 1], trace[k]);
    }
  }

  /** A dropped page was in a map, so it was not lost before. */
  lemma DropLoses(s: State, op: Op, s': State)
    requires Inv(s) && Next(s, op, s') && Drops(s, op)
    ensures exists f :: f in s'.lost && f !in s.lost
  {
    var f := Translate(s.mem, op.root, op.v).value;
    assert Owns(s.mem, op.root, f);
    assert f in s'.lost;
  }

  /** The same live maps with the same frames. */
  ghost predicate SameMaps(s: State, s': State) {
    s'.roots == s.roots && forall r, f :: r in s.roots ==> (Owns(s'.mem, r, f) <==> Owns(s.mem, r, f))
  }

  /** Conservation: after any run that leaves the same live maps with the same frames, and the same
      pages held, the free frames are those of before, unless (and only unless) some step dropped a
      mapped page: an unmap of it, or a map over it. */
  lemma RunReturnsFrames(ops: seq<Op>, trace: seq<State>)
    requires IsRun(ops, trace) && Inv(trace[0])
    requires SameMaps(trace[0], trace[|ops|]) && trace[|ops|].held == trace[0].held
    ensures trace[|ops|].free == trace[0].free <==> forall i :: 0 <= i < |ops| ==> !Drops(trace[i], ops[i])
  {
    RunKeeps(ops, trace, |ops|);
    FreeIffLost(trace[0], trace[|ops|]);
    if forall i :: 0 <= i < |ops| ==> !Drops(trace[i], ops[i]) {
      NothingDropped(ops, trace, |ops|);
    } else {
      var i :| 0 <= i < |ops| && Drops(trace[i], ops[i]);
      RunKeeps(ops, trace, i);
      assert Next(trace[i], ops[i], trace[i + 1]);
      DropLoses(trace[i], ops[i], trace[i + 1]);
      LostGrows(ops, trace, 0, i);
      LostGrows(ops, trace, i + 1, |ops|);
    }
  }

  lemma FreeIffLost(s: State, s': State)
    requires Inv(s) && Inv(s') && s'.mem.Keys == s.mem.Keys && SameMaps(s, s') && s'.held == s.held
    ensures s'.free == s.free <==> s'.lost == s.lost
  {
    forall f | f in s.mem
      ensures f in s.free || f in s.lost <==> f in s'.free || f in s'.lost
    {
      assert Placed(s, f) && Placed(s', f);
      assert (exists r :: r in s.roots && Owns(s.mem, r, f)) <==> (exists r :: r in s'.roots && Owns(s'.mem, r, f));
    }
  }

  /** Every frame is in exactly one place at every point of every run. */
  ghost predicate InMap(s: State, f: Frame) {
    exists r :: r in s.roots && f in Footprint(s.mem, r)
  }

  lemma ExactlyOnePlace(ops: seq<Op>, trace: seq<State>, k: nat, f: Frame)
    requires IsRun(ops, trace) && Inv(trace[0]) && k <= |ops| && f in trace[0].mem
    ensures var s := trace[k];
            && (f in s.free || f in s.held || f in s.lost || InMap(s, f))
            && (f in s.free ==> f !in s.held && f !in s.lost && !InMap(s, f))
            && (f in s.held ==> f !in s.lost && !InMap(s, f))
            && (f in s.lost ==> !InMap(s, f))
            && (forall r, q, t, u :: r in s.roots && q in s.roots && At(s.mem, r, t) == Some(f) && At(s.mem, q, u) == Some(f)
                  ==> r == q && t == u)
  {
    RunKeeps(ops, trace, k);
    var s := trace[k];
    assert Placed(s, f);
    if f !in s.free && f !in s.held && f !in s.lost {
      var r :| r in s.roots && Owns(s.mem, r, f);
      assert f in Footprint(s.mem, r);
    }
    forall r, q, t, u | r in s.roots && q in s.roots && At(s.mem, r, t) == Some(f) && At(s.mem, q, u) == Some(f)
      ensures r == q && t == u
    {
      assert Owns(s.mem, r, f) && Owns(s.mem, q, f);
    }
  }

  /** Mapping and unmapping change the translation of exactly one virtual page, whichever tables had
      to be added, and the contents of no other page; the allocating form changes nothing at all if
      the page is mapped already. */
  lemma OnePageChanges(s: State, op: Op, s': State, u: VPage)
    requires Inv(s) && Next(s, op, s') && (op.MapPhys? || op.MapAlloc? || op.Unmap?)
    ensures Translate(s'.mem, op.root, u) ==
              if u != op.v then Translate(s.mem, op.root, u) else if op.Unmap? then None else Some(op.f)
    ensures u != op.v && Translate(s.mem, op.root, u).Some? ==>
              var f := Translate(s.mem, op.root, u).value; f in s.mem && f in s'.mem && s'.mem[f] == s.mem[f]
    ensures op.MapAlloc? && Translate(s.mem, op.root, op.v).Some? ==> s' == s
    ensures Tree(s'.mem, op.root)
  {
    if u != op.v && Translate(s.mem, op.root, u).Some? {
      var f := Translate(s.mem, op.root, u).value;
      assert Owns(s.mem, op.root, f);
      PageIsNoTable(s.mem, op.root, u);
    }
  }

  lemma PageIsNoTable(mem: Mem, r: Frame, u: VPage)
    requires Tree(mem, r) && Translate(mem, r, u).Some?
    ensures Translate(mem, r, u).value in mem && Translate(mem, r, u).value !in Tables(mem, r)
  {}

  /** Nothing one process does changes what another one sees: an operation on another map leaves
      the translation of `r` and the contents of all its pages alone. */
  lemma OtherMapsUntouched(s: State, op: Op, s': State, r: Frame, v: VPage)
    requires Inv(s) && Next(s, op, s') && r in s.roots
    requires (op.MapPhys? || op.MapAlloc? || op.Unmap? || op.FreeMap?) ==> op.root != r
    ensures Translate(s'.mem, r, v) == Translate(s.mem, r, v)
    ensures Translate(s.mem, r, v).Some? ==>
              var f := Translate(s.mem, r, v).value; f in s.mem && f in s'.mem && s'.mem[f] == s.mem[f]
  {
    var changed := ChangedBy(s, op);
    assert OnlyChanged(s.mem, s'.mem, changed);
    forall f | Owns(s.mem, r, f)
      ensures f !in changed
    {
      assert op.MapPhys? || op.MapAlloc? || op.Unmap? ==> (f in Tables(s.mem, op.root) ==> Owns(s.mem, op.root, f));
    }
    OthersUnaffected(s, s'.mem, changed, r);
    assert Translate(s.mem, r, v).Some? ==> Owns(s.mem, r, Translate(s.mem, r, v).value);
  }

  ghost function ChangedBy(s: State, op: Op): set<Frame> {
    match op
    case Create(_) => s.free
    case AllocPage(_) => s.free
    case FreePage(f) => s.free + {f}
    case MapPhys(r, _, _) => s.free + Tables(s.mem, r)
    case MapAlloc(r, _, _) => s.free + Tables(s.mem, r)
    case Unmap(r, _) => Tables(s.mem, r)
    case Fork(_, _) => s.free
    case FreeMap(r) => s.free + Footprint(s.mem, r)
  }
}
