/** Forking a process map: what the three nested copy loops have done so far, why they never
    run out of frames, and that the finished copy is the parent's map.
 */
module ForkMap {
  import opened Wrappers
  import opened PageTables
  import opened MemoryManager

  /** Page `v` comes before position (i, j, k) of the three nested loops. */
  predicate Before(v: VPage, i: nat, j: nat, k: nat) {
    v.i < i || (v.i == i && (v.j < j || (v.j == j && v.k < k)))
  }

  /** Exactly the pages before (i, j, k) are copied. */
  ghost predicate PagesDone(mem0: Mem, p: Frame, mem: Mem, c: Frame, i: nat, j: nat, k: nat) {
    forall v :: if Before(v, i, j, k) then CopiedPage(mem0, p, mem, c, v) else Translate(mem, c, v) == None
  }

  /** The parent's frames whose position the child does not have yet. */
  ghost function Todo(mem0: Mem, p: Frame, mem: Mem, c: Frame): set<Frame> {
    set f | f in mem0 && exists t :: At(mem0, p, t) == Some(f) && At(mem, c, t).None?
  }

  /** The child took its frames from the free pool, one per position it shares with the parent. */
  ghost predicate FramesDone(s0: State, s: State, p: Frame, c: Frame) {
    Inv(s) && Taken(s0, s, p, c)
  }

  ghost predicate Taken(s0: State, s: State, p: Frame, c: Frame) {
    && p in s0.roots && s.roots == s0.roots + {c}
    && s.held == s0.held && s.lost == s0.lost
    && FromFree(s0.mem, s0.free, s.mem, s.free, c)
    && (forall t :: At(s.mem, c, t).Some? ==> At(s0.mem, p, t).Some?)
    && |Todo(s0.mem, p, s.mem, c)| <= |s.free|
  }

  ghost predicate FromFree(mem0: Mem, free0: set<Frame>, mem: Mem, free: set<Frame>, c: Frame) {
    && OnlyChanged(mem0, mem, free0)
    && (forall f :: Owns(mem, c, f) ==> f in free0)
    && (forall f :: f in free <==> f in free0 && !Owns(mem, c, f))
  }

  ghost predicate ForkState(s0: State, s: State, p: Frame, c: Frame, i: nat, j: nat, k: nat) {
    FramesDone(s0, s, p, c) && PagesDone(s0.mem, p, s.mem, c, i, j, k)
  }

  lemma ParentUnchanged(s0: State, s: State, p: Frame, c: Frame)
    requires Inv(s0) && FramesDone(s0, s, p, c)
    ensures forall t :: At(s.mem, p, t) == At(s0.mem, p, t)
    ensures forall f :: Owns(s0.mem, p, f) ==> f in s.mem && f in s0.mem && s.mem[f] == s0.mem[f]
  {
    OthersUnaffected(s0, s.mem, s0.free, p);
    forall f | Owns(s0.mem, p, f)
      ensures f in s0.mem
    {
      var t :| At(s0.mem, p, t) == Some(f);
    }
  }

  // ----- start and end of the loops

  lemma ForkStarts(s0: State, s: State, p: Frame, c: Frame)
    requires Inv(s0) && p in s0.roots && Next(s0, Create(c), s) && Inv(s)
    requires |Footprint(s0.mem, p)| <= |s0.free|
    ensures ForkState(s0, s, p, c, 0, 0, 0)
  {
    NewRootTree(s.mem, c);
    TodoAtStart(s0.mem, p, s.mem, c);
  }

  lemma TodoAtStart(mem0: Mem, p: Frame, mem: Mem, c: Frame)
    requires Tree(mem0, p)
    ensures |Todo(mem0, p, mem, c)| <= |Footprint(mem0, p)| - 1
  {
    assert At(mem0, p, Top) == Some(p) && At(mem, c, Top) == Some(c);
    FootprintOwns(mem0, p, p);
    forall f | f in Todo(mem0, p, mem, c)
      ensures f in Footprint(mem0, p) - {p}
    {
      var t :| At(mem0, p, t) == Some(f) && At(mem, c, t).None?;
      assert t != Top;
    }
    SubsetSize(Todo(mem0, p, mem, c), Footprint(mem0, p) - {p});
  }

  lemma {:induction false} SubsetSize<T>(a: set<T>, b: set<T>)
    requires a <= b
    ensures |a| <= |b|
  {
    if a != {} {
      var x :| x in a;
      SubsetSize(a - {x}, b - {x});
    }
  }

  lemma ForkEnds(s0: State, s: State, p: Frame, c: Frame)
    requires Inv(s0) && ForkState(s0, s, p, c, 512, 0, 0)
    ensures Next(s0, Fork(p, c), s)
  {
    forall f
      ensures f in Footprint(s.mem, c) <==> Owns(s.mem, c, f)
    {
      FootprintOwns(s.mem, c, f);
    }
    forall v
      ensures CopiedPage(s0.mem, p, s.mem, c, v)
    {
      assert Before(v, 512, 0, 0);
    }
    assert s.free == s0.free - Footprint(s.mem, c);
  }

  // ----- moving on

  /** A subtree the parent does not have holds no pages, so the loops may skip it. */
  lemma SkipMid(s0: State, s: State, p: Frame, c: Frame, i: Index)
    requires ForkState(s0, s, p, c, i, 0, 0) && At(s0.mem, p, Mid(i)).None?
    ensures ForkState(s0, s, p, c, i + 1, 0, 0)
  {}

  lemma SkipLow(s0: State, s: State, p: Frame, c: Frame, i: Index, j: Index)
    requires ForkState(s0, s, p, c, i, j, 0) && At(s0.mem, p, Low(i, j)).None?
    ensures ForkState(s0, s, p, c, i, j + 1, 0)
  {}

  lemma SkipLeaf(s0: State, s: State, p: Frame, c: Frame, v: VPage)
    requires ForkState(s0, s, p, c, v.i, v.j, v.k) && Translate(s0.mem, p, v).None?
    ensures ForkState(s0, s, p, c, v.i, v.j, v.k + 1)
  {
    forall u
      ensures if Before(u, v.i, v.j, v.k + 1) then CopiedPage(s0.mem, p, s.mem, c, u) else Translate(s.mem, c, u) == None
    {
      assert Before(u, v.i, v.j, v.k + 1) <==> Before(u, v.i, v.j, v.k) || u == v;
      assert !Before(v, v.i, v.j, v.k);
    }
  }

  lemma LowDone(s0: State, s: State, p: Frame, c: Frame, i: Index, j: Index)
    requires ForkState(s0, s, p, c, i, j, 512)
    ensures ForkState(s0, s, p, c, i, j + 1, 0)
  {}

  lemma MidDone(s0: State, s: State, p: Frame, c: Frame, i: Index)
    requires ForkState(s0, s, p, c, i, 512, 0)
    ensures ForkState(s0, s, p, c, i + 1, 0, 0)
  {}

  // ----- copying one page

  /** Writing into a page the kernel holds touches no map. */
  lemma HeldWriteKeeps(s: State, f: Frame, row: seq<Word>)
    requires Inv(s) && f in s.held && |row| == 512
    ensures var s' := s.(mem := s.mem[f := row]);
            && Inv(s')
            && forall r, t :: r in s.roots ==> At(s'.mem, r, t) == At(s.mem, r, t)
  {
    var s' := s.(mem := s.mem[f := row]);
    forall r | r in s.roots
      ensures Tree(s'.mem, r) && forall g :: Owns(s'.mem, r, g) <==> Owns(s.mem, r, g)
      ensures forall t :: At(s'.mem, r, t) == At(s.mem, r, t)
    {
      OthersUnaffected(s, s'.mem, {f}, r);
    }
    forall g | g in s.mem
      ensures Placed(s', g)
    {
      assert Placed(s, g);
      if g !in s.free && g !in s.held && g !in s.lost {
        var r :| r in s.roots && Owns(s.mem, r, g);
        assert Owns(s'.mem, r, g);
      }
    }
  }

  /** The parent's frames for the positions that copying page `v` adds to the child. */
  ghost function Added(mem0: Mem, p: Frame, mem: Mem, c: Frame, v: VPage): set<Frame> {
    AsSet(At(mem0, p, LeafOf(v)))
    + (if At(mem, c, Mid(v.i)).None? then AsSet(At(mem0, p, Mid(v.i))) else {})
    + (if At(mem, c, Low(v.i, v.j)).None? then AsSet(At(mem0, p, Low(v.i, v.j))) else {})
  }

  function Missing(mem: Mem, root: Frame, v: VPage): nat {
    if At(mem, root, Mid(v.i)).None? then 2
    else if At(mem, root, Low(v.i, v.j)).None? then 1
    else 0
  }

  lemma AddedSize(mem0: Mem, p: Frame, mem: Mem, c: Frame, v: VPage)
    requires Tree(mem0, p) && Translate(mem0, p, v).Some? && Translate(mem, c, v).None?
    ensures |Added(mem0, p, mem, c, v)| == 1 + Missing(mem, c, v)
    ensures Added(mem0, p, mem, c, v) <= Todo(mem0, p, mem, c)
  {}

  /** There is always a frame left for the page and for the tables it still needs. */
  lemma RoomLeft(s0: State, s: State, p: Frame, c: Frame, v: VPage)
    requires Inv(s0) && FramesDone(s0, s, p, c) && Translate(s0.mem, p, v).Some? && Translate(s.mem, c, v).None?
    ensures 1 + Missing(s.mem, c, v) <= |s.free|
  {
    AddedSize(s0.mem, p, s.mem, c, v);
    SubsetSize(Added(s0.mem, p, s.mem, c, v), Todo(s0.mem, p, s.mem, c));
  }

  lemma ForkRoom(s0: State, s: State, p: Frame, c: Frame, v: VPage, src: Frame)
    requires Inv(s0) && ForkState(s0, s, p, c, v.i, v.j, v.k) && Translate(s0.mem, p, v) == Some(src)
    ensures src in s.mem && 1 + Missing(s.mem, c, v) <= |s.free| && c in s.roots
  {
    StillThere(s0, s, p, c, v, src);
    assert !Before(v, v.i, v.j, v.k);
    RoomLeft(s0, s, p, c, v);
  }

  lemma StillThere(s0: State, s: State, p: Frame, c: Frame, v: VPage, src: Frame)
    requires Inv(s0) && FramesDone(s0, s, p, c) && Translate(s0.mem, p, v) == Some(src)
    ensures src in s.mem
  {
    ParentUnchanged(s0, s, p, c);
    assert Owns(s0.mem, p, src);
  }

  /** A free frame was taken and filled with the contents of `src`. */
  ghost predicate Filled(s: State, s1: State, c: Frame, src: Frame, dest: Frame) {
    && dest in s.free && src in s.mem && |s.mem[src]| == 512
    && s1.mem == s.mem[dest := s.mem[src]] && s1.free == s.free - {dest} && s1.held == s.held + {dest}
    && s1.lost == s.lost && s1.roots == s.roots
    && Inv(s1) && (forall t :: At(s1.mem, c, t) == At(s.mem, c, t))
  }

  /** `s` to `s2`: a frame was filled with the parent's page and mapped at `v`. */
  ghost predicate CopyStep(s: State, s1: State, s2: State, c: Frame, v: VPage, src: Frame, dest: Frame) {
    && Filled(s, s1, c, src, dest)
    && Next(s1, MapPhys(c, v, dest), s2)
    && |s2.free| == |s1.free| - Missing(s1.mem, c, v)
  }

  /** The positions of `c` gained page `dest` at `v` and the missing tables on the way to it. */
  ghost predicate Extended(mem: Mem, mem2: Mem, c: Frame, v: VPage, dest: Frame) {
    && At(mem2, c, LeafOf(v)) == Some(dest)
    && (forall t :: t != LeafOf(v) && !(OnPath(v, t) && At(mem, c, t).None?) ==> At(mem2, c, t) == At(mem, c, t))
    && (forall t :: OnPath(v, t) ==> At(mem2, c, t).Some?)
  }

  lemma CopyPositions(mem: Mem, mem1: Mem, free1: set<Frame>, mem2: Mem, c: Frame, v: VPage, dest: Frame)
    requires forall t :: At(mem1, c, t) == At(mem, c, t)
    requires PathBuilt(mem1, free1, mem2, c, v) && Translate(mem2, c, v) == Some(dest)
    ensures Extended(mem, mem2, c, v, dest)
  {}

  lemma CopyChanges(mem: Mem, mem1: Mem, free1: set<Frame>, mem2: Mem, free: set<Frame>, c: Frame, dest: Frame)
    requires forall t :: At(mem1, c, t) == At(mem, c, t)
    requires OnlyChanged(mem, mem1, {dest}) && OnlyChanged(mem1, mem2, free1 + Tables(mem1, c)) && dest in free && free1 <= free
    ensures OnlyChanged(mem, mem2, free + Tables(mem, c))
  {}

  lemma CopyOwns(s: State, s1: State, s2: State, c: Frame, v: VPage, src: Frame, dest: Frame)
    requires Inv(s) && CopyStep(s, s1, s2, c, v, src, dest) && c in s.roots && Translate(s.mem, c, v).None?
    ensures OwnsStep(s, s2, c)
  {
    MappedOwns(s1, s2, c, v, dest);
    SamePositions(s.mem, s1.mem, c);
    CopyOwnsStep(s, s2, c, dest, NewTables(s1.mem, s1.free, s2.mem, c, v));
  }

  lemma CopyOwnsStep(s: State, s2: State, c: Frame, dest: Frame, tables: set<Frame>)
    requires forall f :: Owns(s2.mem, c, f) <==> f == dest || f in tables || Owns(s.mem, c, f)
    requires s2.free == s.free - {dest} - tables && dest in s.free && tables <= s.free
    requires forall f :: Owns(s.mem, c, f) ==> f !in s.free
    ensures OwnsStep(s, s2, c)
  {}

  lemma SamePositions(mem: Mem, mem1: Mem, c: Frame)
    requires forall t :: At(mem1, c, t) == At(mem, c, t)
    ensures forall f :: Owns(mem1, c, f) <==> Owns(mem, c, f)
  {}

  lemma TodoShrinks(mem0: Mem, p: Frame, mem: Mem, mem2: Mem, c: Frame, v: VPage, dest: Frame)
    requires Tree(mem0, p) && Translate(mem0, p, v).Some? && Translate(mem, c, v).None?
    requires Extended(mem, mem2, c, v, dest)
    ensures |Todo(mem0, p, mem2, c)| <= |Todo(mem0, p, mem, c)| - 1 - Missing(mem, c, v)
  {
    AddedSize(mem0, p, mem, c, v);
    var todo, added := Todo(mem0, p, mem, c), Added(mem0, p, mem, c, v);
    StillTodo(mem0, p, mem, mem2, c, v, dest);
    SubsetSize(Todo(mem0, p, mem2, c), todo - added);
  }

  lemma StillTodo(mem0: Mem, p: Frame, mem: Mem, mem2: Mem, c: Frame, v: VPage, dest: Frame)
    requires Tree(mem0, p) && Extended(mem, mem2, c, v, dest)
    ensures Todo(mem0, p, mem2, c) <= Todo(mem0, p, mem, c) - Added(mem0, p, mem, c, v)
  {
    forall f | f in Todo(mem0, p, mem2, c)
      ensures f in Todo(mem0, p, mem, c) && f !in Added(mem0, p, mem, c, v)
    {
      var t :| At(mem0, p, t) == Some(f) && At(mem2, c, t).None?;
      assert t != LeafOf(v) && t != Mid(v.i) && t != Low(v.i, v.j);
      assert At(mem, c, t).None?;
      assert At(mem0, p, LeafOf(v)) != Some(f) && At(mem0, p, Mid(v.i)) != Some(f) && At(mem0, p, Low(v.i, v.j)) != Some(f);
    }
  }

  lemma SharedPositions(mem0: Mem, p: Frame, mem: Mem, mem2: Mem, c: Frame, v: VPage, dest: Frame)
    requires Extended(mem, mem2, c, v, dest) && Translate(mem0, p, v).Some?
    requires forall t :: At(mem, c, t).Some? ==> At(mem0, p, t).Some?
    ensures forall t :: At(mem2, c, t).Some? ==> At(mem0, p, t).Some?
  {}

  lemma CopyFromFree(mem0: Mem, free0: set<Frame>, mem: Mem, free: set<Frame>, mem2: Mem, free2: set<Frame>, c: Frame)
    requires FromFree(mem0, free0, mem, free, c)
    requires OnlyChanged(mem, mem2, free + Tables(mem, c))
    requires forall f :: Owns(mem2, c, f) ==> Owns(mem, c, f) || f in free
    requires forall f :: f in free2 <==> f in free && !Owns(mem2, c, f)
    requires forall f :: Owns(mem, c, f) ==> Owns(mem2, c, f)
    ensures FromFree(mem0, free0, mem2, free2, c)
  {}

  lemma StillOwned(mem: Mem, mem2: Mem, c: Frame, v: VPage, dest: Frame)
    requires Extended(mem, mem2, c, v, dest) && Translate(mem, c, v).None?
    ensures forall f :: Owns(mem, c, f) ==> Owns(mem2, c, f)
  {}

  lemma CopyFrames(s0: State, s: State, s2: State, p: Frame, c: Frame, v: VPage, dest: Frame)
    requires Tree(s0.mem, p) && Taken(s0, s, p, c)
    requires Translate(s0.mem, p, v).Some? && Translate(s.mem, c, v).None?
    requires Extended(s.mem, s2.mem, c, v, dest) && OnlyChanged(s.mem, s2.mem, s.free + Tables(s.mem, c))
    requires OwnsStep(s, s2, c) && PoolsStep(s, s2, c, v)
    ensures Taken(s0, s2, p, c)
  {
    assert FromFree(s0.mem, s0.free, s2.mem, s2.free, c) by {
      StillOwned(s.mem, s2.mem, c, v, dest);
      CopyFromFree(s0.mem, s0.free, s.mem, s.free, s2.mem, s2.free, c);
    }
    TodoShrinks(s0.mem, p, s.mem, s2.mem, c, v, dest);
    SharedPositions(s0.mem, p, s.mem, s2.mem, c, v, dest);
  }

  /** The copied page is not written again while its tables are built. */
  lemma CopyContents(s: State, s1: State, s2: State, c: Frame, v: VPage, src: Frame, dest: Frame)
    requires CopyStep(s, s1, s2, c, v, src, dest)
    ensures dest in s2.mem && s2.mem[dest] == s.mem[src]
  {
    forall t: Slot | !t.Leaf?
      ensures At(s1.mem, c, t) != Some(dest)
    {
      assert At(s1.mem, c, t).Some? ==> Owns(s1.mem, c, At(s1.mem, c, t).value);
    }
    assert dest !in s1.free + Tables(s1.mem, c);
  }

  lemma CopyPages(mem0: Mem, p: Frame, mem: Mem, mem2: Mem, c: Frame, v: VPage, src: Frame, dest: Frame)
    requires PagesDone(mem0, p, mem, c, v.i, v.j, v.k) && Extended(mem, mem2, c, v, dest)
    requires Translate(mem0, p, v) == Some(src) && src != dest && src in mem0 && dest in mem2 && mem2[dest] == mem0[src]
    requires forall u :: Translate(mem, c, u).Some? ==>
               Translate(mem, c, u).value in mem && Translate(mem, c, u).value in mem2
               && mem2[Translate(mem, c, u).value] == mem[Translate(mem, c, u).value]
    ensures PagesDone(mem0, p, mem2, c, v.i, v.j, v.k + 1)
  {
    forall u
      ensures if Before(u, v.i, v.j, v.k + 1) then CopiedPage(mem0, p, mem2, c, u) else Translate(mem2, c, u) == None
    {
      if u != v {
        assert Translate(mem2, c, u) == Translate(mem, c, u);
        assert Before(u, v.i, v.j, v.k + 1) <==> Before(u, v.i, v.j, v.k);
      }
    }
  }

  lemma PageKept(s: State, s2: State, c: Frame, u: VPage)
    requires Inv(s) && c in s.roots && OnlyChanged(s.mem, s2.mem, s.free + Tables(s.mem, c))
    ensures Translate(s.mem, c, u).Some? ==>
              var g := Translate(s.mem, c, u).value; g in s.mem && g in s2.mem && s2.mem[g] == s.mem[g]
  {
    if Translate(s.mem, c, u).Some? {
      var g := Translate(s.mem, c, u).value;
      assert Owns(s.mem, c, g);
      assert forall t: Slot :: !t.Leaf? ==> At(s.mem, c, t) != Some(g);
    }
  }

  ghost predicate OwnsStep(s: State, s2: State, c: Frame) {
    && (forall f :: Owns(s2.mem, c, f) ==> Owns(s.mem, c, f) || f in s.free)
    && (forall f :: f in s2.free <==> f in s.free && !Owns(s2.mem, c, f))
  }

  ghost predicate PoolsStep(s: State, s2: State, c: Frame, v: VPage) {
    && s2.held == s.held && s2.lost == s.lost && s2.roots == s.roots
    && |s2.free| == |s.free| - 1 - Missing(s.mem, c, v)
  }

  lemma CopyPools(s: State, s1: State, s2: State, c: Frame, v: VPage, dest: Frame)
    requires dest in s.free && dest !in s.held && Translate(s1.mem, c, v).None?
    requires forall t :: At(s1.mem, c, t) == At(s.mem, c, t)
    requires s1.free == s.free - {dest} && s1.held == s.held + {dest} && s1.lost == s.lost && s1.roots == s.roots
    requires s2.held == s1.held - {dest} && s2.lost == s1.lost + AsSet(Translate(s1.mem, c, v)) && s2.roots == s1.roots
    requires |s2.free| == |s1.free| - Missing(s1.mem, c, v)
    ensures PoolsStep(s, s2, c, v)
  {}

  lemma CopyEffect(s: State, s1: State, s2: State, c: Frame, v: VPage, src: Frame, dest: Frame)
    requires CopyStep(s, s1, s2, c, v, src, dest) && dest in s.mem && |s.mem[dest]| == 512
    ensures Extended(s.mem, s2.mem, c, v, dest) && OnlyChanged(s.mem, s2.mem, s.free + Tables(s.mem, c))
  {
    CopyPositions(s.mem, s1.mem, s1.free, s2.mem, c, v, dest);
    CopyChanges(s.mem, s1.mem, s1.free, s2.mem, s.free, c, dest);
  }

  lemma CopySteps(s: State, s1: State, s2: State, c: Frame, v: VPage, src: Frame, dest: Frame)
    requires Inv(s) && CopyStep(s, s1, s2, c, v, src, dest) && c in s.roots && Translate(s.mem, c, v).None?
    ensures OwnsStep(s, s2, c) && PoolsStep(s, s2, c, v)
  {
    CopyOwns(s, s1, s2, c, v, src, dest);
    CopyPools(s, s1, s2, c, v, dest);
  }

  lemma CopyTaken(s0: State, s: State, s1: State, s2: State, p: Frame, c: Frame, v: VPage, src: Frame, dest: Frame)
    requires Inv(s0) && Inv(s) && Taken(s0, s, p, c) && CopyStep(s, s1, s2, c, v, src, dest)
    requires Translate(s0.mem, p, v).Some? && Translate(s.mem, c, v).None?
    ensures Taken(s0, s2, p, c)
  {
    CopyEffect(s, s1, s2, c, v, src, dest);
    CopySteps(s, s1, s2, c, v, src, dest);
    CopyFrames(s0, s, s2, p, c, v, dest);
  }

  lemma CopyPagesDone(s0: State, s: State, s1: State, s2: State, p: Frame, c: Frame, v: VPage, src: Frame, dest: Frame)
    requires PagesDone(s0.mem, p, s.mem, c, v.i, v.j, v.k) && Inv(s) && CopyStep(s, s1, s2, c, v, src, dest) && c in s.roots
    requires Translate(s0.mem, p, v) == Some(src) && src in s0.mem && s.mem[src] == s0.mem[src] && src != dest
    ensures PagesDone(s0.mem, p, s2.mem, c, v.i, v.j, v.k + 1)
  {
    CopyEffect(s, s1, s2, c, v, src, dest);
    CopyContents(s, s1, s2, c, v, src, dest);
    forall u { PageKept(s, s2, c, u); }
    CopyPages(s0.mem, p, s.mem, s2.mem, c, v, src, dest);
  }

  lemma SourceKept(s0: State, s: State, p: Frame, c: Frame, v: VPage, src: Frame)
    requires Inv(s0) && FramesDone(s0, s, p, c) && Translate(s0.mem, p, v) == Some(src)
    ensures src in s0.mem && src in s.mem && s.mem[src] == s0.mem[src] && src !in s.free && c in s.roots
  {
    ParentUnchanged(s0, s, p, c);
    assert Owns(s0.mem, p, src);
  }

  lemma CopyKeepsTaken(s0: State, s: State, s1: State, s2: State, p: Frame, c: Frame, v: VPage, src: Frame, dest: Frame)
    requires Inv(s0) && ForkState(s0, s, p, c, v.i, v.j, v.k) && CopyStep(s, s1, s2, c, v, src, dest)
    requires Translate(s0.mem, p, v) == Some(src)
    ensures Taken(s0, s2, p, c)
  {
    assert Translate(s.mem, c, v).None? by { assert !Before(v, v.i, v.j, v.k); }
    CopyTaken(s0, s, s1, s2, p, c, v, src, dest);
  }

  lemma CopyKeepsPages(s0: State, s: State, s1: State, s2: State, p: Frame, c: Frame, v: VPage, src: Frame, dest: Frame)
    requires Inv(s0) && ForkState(s0, s, p, c, v.i, v.j, v.k) && CopyStep(s, s1, s2, c, v, src, dest)
    requires Translate(s0.mem, p, v) == Some(src)
    ensures PagesDone(s0.mem, p, s2.mem, c, v.i, v.j, v.k + 1)
  {
    SourceKept(s0, s, p, c, v, src);
    CopyPagesDone(s0, s, s1, s2, p, c, v, src, dest);
  }

  /** One round of the inner loop. */
  lemma CopyKeepsForkState(s0: State, s: State, s1: State, s2: State, p: Frame, c: Frame, v: VPage, src: Frame, dest: Frame)
    requires Inv(s0) && ForkState(s0, s, p, c, v.i, v.j, v.k) && CopyStep(s, s1, s2, c, v, src, dest)
    requires Translate(s0.mem, p, v) == Some(src) && Inv(s2)
    ensures ForkState(s0, s2, p, c, v.i, v.j, v.k + 1)
  {
    CopyKeepsTaken(s0, s, s1, s2, p, c, v, src, dest);
    CopyKeepsPages(s0, s, s1, s2, p, c, v, src, dest);
  }
}
