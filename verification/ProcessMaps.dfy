/** The in-place implementation of the process maps: table entries are written one at a time
    into physical memory, and frames come from and go back to the page allocator.
 */
module ProcessMaps {
  import opened Wrappers
  import opened PageTables
  import opened MemoryManager
  import opened ForkMap
  import opened UnmapEffect

  /** What the table code needs to know about one map: a tree none of whose frames is free. */
  ghost predicate Sound(mem: Mem, free: set<Frame>, root: Frame) {
    && MemOk(mem) && free <= mem.Keys && Tree(mem, root)
    && forall f :: Owns(mem, root, f) ==> f !in free
  }

  /** One level of the walk was made present: `next` is at `c`, everything else is as before. */
  ghost predicate Grown(mem: Mem, free: set<Frame>, mem': Mem, free': set<Frame>, root: Frame, c: Slot, next: Frame) {
    && Sound(mem', free', root)
    && (forall t :: At(mem', root, t) == if t == c then Some(next) else At(mem, root, t))
    && (if At(mem, root, c).Some? then mem' == mem && free' == free
        else next in free && free' == free - {next})
  }

  lemma ZeroedKeeps(mem: Mem, free: set<Frame>, root: Frame, g: Frame)
    requires Sound(mem, free, root) && g in free
    ensures Sound(mem[g := ZEROS], free, root) && forall t :: At(mem[g := ZEROS], root, t) == At(mem, root, t)
  {
    forall f: Frame | Owns(mem, root, f)
      ensures f in mem[g := ZEROS] && mem[g := ZEROS][f] == mem[f]
    {
      var t :| At(mem, root, t) == Some(f);
    }
    SameFramesSameTree(mem, mem[g := ZEROS], root);
  }

  lemma AttachKeepsSound(mem: Mem, free: set<Frame>, mem': Mem, root: Frame, c: Slot, g: Frame)
    requires Sound(mem, free, root) && MemOk(mem') && Tree(mem', root) && mem'.Keys == mem.Keys
    requires forall t :: At(mem', root, t) == if t == c then Some(g) else At(mem, root, t)
    ensures Sound(mem', free - {g}, root)
  {}

  /** Both tables of the walk to `v` are present, `t1` being the lower one. */
  ghost predicate PathPresent(mem: Mem, free: set<Frame>, mem': Mem, free': set<Frame>, root: Frame, v: VPage, t1: Frame) {
    && Sound(mem', free', root)
    && At(mem', root, Low(v.i, v.j)) == Some(t1)
    && (forall t :: !(OnPath(v, t) && At(mem, root, t).None?) ==> At(mem', root, t) == At(mem, root, t))
    && (forall t :: OnPath(v, t) && At(mem, root, t).None? ==> At(mem', root, t).Some? && At(mem', root, t).value in free - free')
  }

  /** The frames that are no longer free are the tables that were added. */
  ghost predicate FramesTaken(mem: Mem, free: set<Frame>, mem': Mem, free': set<Frame>, root: Frame, v: VPage) {
    && free' <= free
    && free - free' <= NewTables(mem, free, mem', root, v)
    && |free'| == |free| - Missing(mem, root, v)
    && (Missing(mem, root, v) == 0 ==> mem' == mem && free' == free)
  }

  lemma OnlyChangedBoth(mem: Mem, mem1: Mem, mem2: Mem, w1: set<Frame>, w2: set<Frame>, w: set<Frame>)
    requires OnlyChanged(mem, mem1, w1) && OnlyChanged(mem1, mem2, w2) && w1 <= w && w2 <= w
    ensures OnlyChanged(mem, mem2, w)
  {}

  lemma GrownTwice(mem: Mem, free: set<Frame>, mem1: Mem, free1: set<Frame>, mem2: Mem, free2: set<Frame>,
                   root: Frame, v: VPage, t2: Frame, t1: Frame)
    requires Sound(mem, free, root)
    requires Grown(mem, free, mem1, free1, root, Mid(v.i), t2)
    requires Grown(mem1, free1, mem2, free2, root, Low(v.i, v.j), t1)
    ensures PathPresent(mem, free, mem2, free2, root, v, t1)
    ensures FramesTaken(mem, free, mem2, free2, root, v)
  {}

  lemma TablesOnWalk(mem: Mem, free: set<Frame>, mem1: Mem, free1: set<Frame>, mem2: Mem, free2: set<Frame>,
                     root: Frame, v: VPage, t2: Frame, t1: Frame)
    requires Sound(mem, free, root)
    requires Grown(mem, free, mem1, free1, root, Mid(v.i), t2)
    requires Grown(mem1, free1, mem2, free2, root, Low(v.i, v.j), t1)
    ensures {root, t2, t1} + free1 + free <= free + Tables(mem, root)
  {
    var mid, low := Mid(v.i), Low(v.i, v.j);
    assert At(mem, root, Top) == Some(root) && root in Tables(mem, root);
    assert At(mem, root, mid).Some? ==> At(mem, root, mid) == Some(t2);
    assert At(mem1, root, low) == At(mem, root, low);
    assert t2 in free + Tables(mem, root);
    assert t1 in free + Tables(mem, root);
  }

  /** `mem'` is `mem` with page `f` hung below table `t1` at the end of the walk to `v`. */
  ghost predicate Hung(mem: Mem, mem': Mem, root: Frame, v: VPage, f: Frame) {
    && Tree(mem', root)
    && forall t :: At(mem', root, t) == if t == LeafOf(v) then Some(f) else At(mem, root, t)
  }

  lemma AddedTables(mem: Mem, free: set<Frame>, mem1: Mem, free1: set<Frame>, mem2: Mem, root: Frame, v: VPage, t1: Frame, f: Frame)
    requires PathPresent(mem, free, mem1, free1, root, v, t1) && FramesTaken(mem, free, mem1, free1, root, v)
    requires Hung(mem1, mem2, root, v, f)
    ensures free1 == free - NewTables(mem, free, mem2, root, v)
  {
    assert forall t :: OnPath(v, t) ==> At(mem2, root, t) == At(mem1, root, t);
    assert NewTables(mem, free, mem2, root, v) == NewTables(mem, free, mem1, root, v);
  }

  /** With the path present and page `f` hung at its end, the map operation is complete. */
  lemma FinishMap(mem: Mem, free: set<Frame>, mem1: Mem, free1: set<Frame>, mem2: Mem, root: Frame, v: VPage, t1: Frame, f: Frame)
    requires PathPresent(mem, free, mem1, free1, root, v, t1) && Hung(mem1, mem2, root, v, f)
    requires OnlyChanged(mem, mem2, free + Tables(mem, root))
    ensures PathBuilt(mem, free, mem2, root, v) && Translate(mem2, root, v) == Some(f)
  {}

  lemma InvSound(s: State, root: Frame)
    requires Inv(s) && root in s.roots
    ensures Sound(s.mem, s.free, root)
  {}

  /** What one call of the table code did for page `v`. */
  ghost predicate TablesMapped(mem: Mem, free: set<Frame>, mem': Mem, free': set<Frame>, root: Frame, v: VPage, f: Frame) {
    && PathBuilt(mem, free, mem', root, v) && Translate(mem', root, v) == Some(f)
    && free' == free - NewTables(mem, free, mem', root, v)
    && |free'| == |free| - Missing(mem, root, v)
  }

  lemma PhysMapped(s: State, mem: Mem, free: set<Frame>, root: Frame, v: VPage, f: Frame) returns (s': State)
    requires Inv(s) && root in s.roots && f in s.held && TablesMapped(s.mem, s.free, mem, free, root, v, f)
    ensures Inv(s') && s'.mem == mem && s'.free == free && Next(s, MapPhys(root, v, f), s')
  {
    s' := State(mem, free, s.held - {f}, s.lost + AsSet(Translate(s.mem, root, v)), s.roots);
    NextKeeps(s, MapPhys(root, v, f), s');
  }

  lemma HeldOutside(s: State, root: Frame, f: Frame)
    requires Inv(s) && root in s.roots && f in s.held
    ensures Outside(s.mem, s.free, root, f)
  {}

  /** A frame that may be hung into the tree: it exists, is not free and not part of it. */
  ghost predicate Outside(mem: Mem, free: set<Frame>, root: Frame, f: Frame) {
    Backed(mem, f) && f < MAX_FRAME && f !in free && !Owns(mem, root, f)
  }

  lemma StaysOutside(mem: Mem, free: set<Frame>, mem1: Mem, free1: set<Frame>, root: Frame, v: VPage, t1: Frame, f: Frame)
    requires Outside(mem, free, root, f) && PathPresent(mem, free, mem1, free1, root, v, t1)
    requires mem1.Keys == mem.Keys && free1 <= free
    ensures Outside(mem1, free1, root, f)
  {}

  lemma Unmapping(s: State, root: Frame, v: VPage) returns (s': State)
    requires Inv(s) && root in s.roots && Missing(s.mem, root, v) == 0 && WalkBacked(s.mem, root, v)
    ensures Inv(s') && Next(s, Unmap(root, v), s') && s'.mem == Cleared(s.mem, root, v) && s'.free == s.free && s'.roots == s.roots
  {
    PresentWalk(s.mem, root, v);
    Detach(s.mem, root, Low(v.i, v.j), v.k);
    assert WalkedLow(s.mem, root, v) in Tables(s.mem, root);
    s' := s.(mem := Cleared(s.mem, root, v), lost := s.lost + AsSet(Translate(s.mem, root, v)));
    NextKeeps(s, Unmap(root, v), s');
  }

  // ----- freeing a subtree

  ghost function UnderFrames(mem: Mem, root: Frame, c: Slot): set<Frame> {
    set f | f in mem && exists t :: Under(c, t) && At(mem, root, t) == Some(f)
  }

  /** The frames below the first `x` entries of the table at `c`. */
  ghost function UnderFirst(mem: Mem, root: Frame, c: Slot, x: nat): set<Frame>
    requires !c.Leaf? && x <= 512
  {
    set f | f in mem && exists t, y: Index :: y < x && Under(Child(c, y), t) && At(mem, root, t) == Some(f)
  }

  lemma UnderFirstNone(mem: Mem, root: Frame, c: Slot)
    requires !c.Leaf?
    ensures UnderFirst(mem, root, c, 0) == {}
  {}

  lemma UnderFirstStep(mem: Mem, root: Frame, c: Slot, x: Index)
    requires !c.Leaf? && Tree(mem, root)
    ensures UnderFirst(mem, root, c, x + 1) == UnderFirst(mem, root, c, x) + UnderFrames(mem, root, Child(c, x))
    ensures UnderFirst(mem, root, c, x) !! UnderFrames(mem, root, Child(c, x))
  {}

  lemma UnderAll(mem: Mem, root: Frame, c: Slot, f: Frame)
    requires !c.Leaf? && Tree(mem, root) && At(mem, root, c) == Some(f)
    ensures UnderFrames(mem, root, c) == UnderFirst(mem, root, c, 512) + {f}
    ensures f !in UnderFirst(mem, root, c, 512)
  {
    forall g
      ensures g in UnderFrames(mem, root, c) <==> g in UnderFirst(mem, root, c, 512) + {f}
    {
      if g in UnderFrames(mem, root, c) && g != f {
        var t :| Under(c, t) && At(mem, root, t) == Some(g);
        assert t != c;
        var y: Index := if c.Top? then t.i else if c.Mid? then t.j else t.k;
        assert Under(Child(c, y), t);
      }
      if g in UnderFirst(mem, root, c, 512) {
        var t, y: Index :| Under(Child(c, y), t) && At(mem, root, t) == Some(g);
        assert Under(c, t);
      }
    }
    assert forall t, y: Index :: Under(Child(c, y), t) ==> t != c;
  }

  lemma SubFrames(mem: Mem, root: Frame, c: Slot, x: Index, f: Frame)
    requires !c.Leaf? && Tree(mem, root) && At(mem, root, c) == Some(f)
    ensures UnderFrames(mem, root, Child(c, x)) <= UnderFrames(mem, root, c) - {f}
  {}

  lemma AbsentHasNoFrames(mem: Mem, root: Frame, c: Slot)
    requires At(mem, root, c).None?
    ensures UnderFrames(mem, root, c) == {}
  {}

  lemma UnderTop(mem: Mem, root: Frame)
    ensures UnderFrames(mem, root, Top) == Footprint(mem, root)
  {}

  lemma RootInFootprint(mem: Mem, root: Frame)
    requires Tree(mem, root)
    ensures root in Footprint(mem, root)
  {
    assert At(mem, root, Top) == Some(root);
    FootprintOwns(mem, root, root);
  }

  function Level(c: Slot): nat {
    match c case Top => 3 case Mid(_) => 2 case Low(_, _) => 1 case Leaf(_, _, _) => 0
  }

  /** A page is mapped in the child if and only if it was mapped in the parent, in another frame with
      the same contents. */
  ghost predicate SamePage(mem: Mem, parent: Frame, mem': Mem, child: Frame, v: VPage) {
    var f, g := Translate(mem, parent, v), Translate(mem', child, v);
    (f.Some? <==> g.Some?) && (f.Some? && g.Some? ==> f != g && f.value in mem && g.value in mem' && mem'[g.value] == mem[f.value])
  }

  lemma ForkedPages(s: State, p: Frame, c: Frame, s': State)
    requires Inv(s) && Next(s, Fork(p, c), s')
    ensures c !in s.roots && forall v :: SamePage(s.mem, p, s'.mem, c, v)
  {
    assert At(s'.mem, c, Top) == Some(c) && Owns(s'.mem, c, c);
    FootprintOwns(s'.mem, c, c);
    assert c in s.roots ==> At(s.mem, c, Top) == Some(c) && Owns(s.mem, c, c);
    forall v
      ensures SamePage(s.mem, p, s'.mem, c, v)
    {
      assert CopiedPage(s.mem, p, s'.mem, c, v);
    }
  }

  class Manager {
    var mem: Mem
    var free: set<Frame>
    ghost var st: State               // the machine state, with the pools the code does not record

    ghost predicate Valid()
      reads this
    {
      Inv(st) && st.mem == mem && st.free == free
    }

    constructor (mem: Mem, devices: set<Frame>)
      requires MemOk(mem) && devices <= mem.Keys
      ensures Valid() && st == Boot(mem, devices)
    {
      BootOk(mem, devices);
      this.mem, this.free := mem, mem.Keys - devices;
      st := Boot(mem, devices);
    }

    // ----- the page allocator

    method TakeFrame() returns (f: Frame)
      requires free != {}
      modifies this`free
      ensures f in old(free) && free == old(free) - {f}
    {
      f :| f in free;
      free := free - {f};
    }

    /** Giving a frame back overwrites its first words with the free-list node. Giving back a
        frame that is already free is not allowed. */
    method PutFrame(f: Frame)
      requires Backed(mem, f) && f !in free
      modifies this`mem, this`free
      ensures free == old(free) + {f} && OnlyChanged(old(mem), mem, {f})
    {
      var row: seq<Word> := [0, 0, f * 4096, 4096] + mem[f][4..];
      mem := mem[f := row];
      free := free + {f};
    }

    method AllocatePages() returns (f: Frame)
      requires Valid() && free != {}
      modifies this
      ensures Valid() && Next(old(st), AllocPage(f), st) && mem == old(mem)
      ensures f in old(free) && free == old(free) - {f} && st.held == old(st).held + {f}
    {
      f := TakeFrame();
      ghost var s' := st.(free := free, held := st.held + {f});
      NextKeeps(st, AllocPage(f), s');
      st := s';
    }

    method FreePages(f: Frame)
      requires Valid() && f in st.held
      modifies this
      ensures Valid() && Next(old(st), FreePage(f), st)
      ensures free == old(free) + {f} && st.held == old(st).held - {f} && st.roots == old(st).roots
    {
      PutFrame(f);
      ghost var s' := st.(mem := mem, free := free, held := st.held - {f});
      NextKeeps(st, FreePage(f), s');
      st := s';
    }

    /** for(i) table[i] = 0 */
    method ZeroFrame(g: Frame)
      requires Backed(mem, g)
      modifies this`mem
      ensures mem == old(mem)[g := ZEROS]
    {
      var i := 0;
      while i < 512
        invariant 0 <= i <= 512 && OnlyChanged(old(mem), mem, {g})
        invariant forall k :: 0 <= k < i ==> mem[g][k] == 0
      {
        mem := Write(mem, g, i, 0);
        i := i + 1;
      }
      assert mem[g] == ZEROS;
    }

    method CreateProcessMap() returns (root: Frame)
      requires Valid() && free != {}
      modifies this
      ensures Valid() && Next(old(st), Create(root), st) && mem[root] == ZEROS
      ensures root in old(free) && free == old(free) - {root} && st.roots == old(st).roots + {root}
      ensures forall v :: Translate(mem, root, v) == None
    {
      root := TakeFrame();
      ZeroFrame(root);
      DecodeEntry(0);
      forall t
        ensures At(mem, root, t) == if t == Top then Some(root) else None
      {
        assert forall y: Index :: Follow(mem, Some(root), y) == None;
        if t != Top { NothingBelow(mem, root, Top, t); }
      }
      ghost var s' := st.(mem := mem, free := free, roots := st.roots + {root});
      NextKeeps(st, Create(root), s');
      st := s';
    }

    /** The table that entry `x` of `table` names, added as a new zeroed table if it is absent. */
    method Descend(root: Frame, ghost p: Slot, table: Frame, x: Index) returns (next: Frame)
      requires Sound(mem, free, root) && (p.Top? || p.Mid?) && At(mem, root, p) == Some(table)
      requires At(mem, root, Child(p, x)).None? ==> free != {}
      modifies this`mem, this`free
      ensures Grown(old(mem), old(free), mem, free, root, Child(p, x), next)
      ensures OnlyChanged(old(mem), mem, old(free) + {table})
    {
      ghost var c := Child(p, x);
      ChildFollows(mem, root, p, x);
      var entry := mem[table][x];
      if !Present(entry) {
        next := TakeFrame();
        ZeroedKeeps(mem, old(free), root, next);
        ZeroFrame(next);
        ghost var mem1 := mem;
        assert Owns(mem, root, table);
        Attach(mem, root, p, x, next);
        mem := Write(mem, table, x, Entry(next));
        AttachKeepsSound(mem1, old(free), mem, root, c, next);
      } else {
        next := FrameOf(entry);
      }
    }

    /** The lower table of the walk to `v`, with the missing tables added. */
    method BuildPath(root: Frame, v: VPage) returns (t1: Frame)
      requires Sound(mem, free, root) && Missing(mem, root, v) <= |free|
      modifies this`mem, this`free
      ensures PathPresent(old(mem), old(free), mem, free, root, v, t1)
      ensures FramesTaken(old(mem), old(free), mem, free, root, v)
      ensures OnlyChanged(old(mem), mem, old(free + Tables(mem, root))) && t1 in old(free + Tables(mem, root))
    {
      var t2 := Descend(root, Top, root, v.i);
      ghost var mem1, free1 := mem, free;
      t1 := Descend(root, Mid(v.i), t2, v.j);
      GrownTwice(old(mem), old(free), mem1, free1, mem, free, root, v, t2, t1);
      TablesOnWalk(old(mem), old(free), mem1, free1, mem, free, root, v, t2, t1);
      OnlyChangedBoth(old(mem), mem1, mem, old(free) + {root}, free1 + {t2}, old(free + Tables(mem, root)));
    }

    /** pml1[index] = phys | flags */
    method HangPage(root: Frame, v: VPage, t1: Frame, phys: Frame)
      requires Sound(mem, free, root) && At(mem, root, Low(v.i, v.j)) == Some(t1)
      requires Backed(mem, phys) && phys < MAX_FRAME && !Owns(mem, root, phys)
      modifies this`mem
      ensures Hung(old(mem), mem, root, v, phys) && OnlyChanged(old(mem), mem, {t1})
    {
      Attach(mem, root, Low(v.i, v.j), v.k, phys);
      mem := Write(mem, t1, v.k, Entry(phys));
    }

    method MapTables(root: Frame, phys: Frame, v: VPage)
      requires Sound(mem, free, root) && Outside(mem, free, root, phys) && Missing(mem, root, v) <= |free|
      modifies this`mem, this`free
      ensures TablesMapped(old(mem), old(free), mem, free, root, v, phys)
    {
      var t1 := BuildPath(root, v);
      ghost var mem1 := mem;
      StaysOutside(old(mem), old(free), mem, free, root, v, t1, phys);
      HangPage(root, v, t1, phys);
      OnlyChangedBoth(old(mem), mem1, mem, old(free + Tables(mem, root)), {t1}, old(free + Tables(mem, root)));
      AddedTables(old(mem), old(free), mem1, free, mem, root, v, t1, phys);
      FinishMap(old(mem), old(free), mem1, free, mem, root, v, t1, phys);
    }

    method MapProcessPage(root: Frame, phys: Frame, virt: nat)
      requires Valid() && root in st.roots && phys in st.held && Missing(mem, root, PageOf(virt)) <= |free|
      modifies this
      ensures Valid() && Next(old(st), MapPhys(root, PageOf(virt), phys), st)
      ensures Translate(mem, root, PageOf(virt)) == Some(phys) && st.held == old(st).held - {phys}
      ensures |free| == |old(free)| - old(Missing(mem, root, PageOf(virt)))
    {
      var v := PageOf(virt);
      assert Sound(mem, free, root) && Outside(mem, free, root, phys) by {
        InvSound(st, root);
        HeldOutside(st, root, phys);
      }
      MapTables(root, phys, v);
      st := PhysMapped(st, mem, free, root, v, phys);
    }

    method MapTablesAlloc(root: Frame, virt: nat) returns (phys: Frame)
      requires Sound(mem, free, root)
      requires Translate(mem, root, PageOf(virt)).None? ==> Missing(mem, root, PageOf(virt)) + 1 <= |free|
      modifies this`mem, this`free
      ensures Translate(mem, root, PageOf(virt)) == Some(phys)
      ensures old(Translate(mem, root, PageOf(virt))).Some? ==> mem == old(mem) && free == old(free)
      ensures old(Translate(mem, root, PageOf(virt))).None? ==>
                && phys in old(free)
                && PathBuilt(old(mem), old(free), mem, root, PageOf(virt))
                && free == old(free) - NewTables(old(mem), old(free), mem, root, PageOf(virt)) - {phys}
    {
      var v := PageOf(virt);
      var t1 := BuildPath(root, v);
      var entry := mem[t1][v.k];
      assert Translate(mem, root, v) == Decode(entry) == old(Translate(mem, root, v));
      if Present(entry) {
        phys := FrameOf(entry);
        assert Missing(old(mem), root, v) == 0;
      } else {
        phys := HangNew(root, v, t1, old(mem), old(free));
      }
    }

    /** A page from the pool at the end of the path that was built. */
    method HangNew(root: Frame, v: VPage, t1: Frame, ghost mem0: Mem, ghost free0: set<Frame>) returns (phys: Frame)
      requires Sound(mem0, free0, root) && Translate(mem0, root, v).None? && Missing(mem0, root, v) + 1 <= |free0|
      requires PathPresent(mem0, free0, mem, free, root, v, t1) && FramesTaken(mem0, free0, mem, free, root, v)
      requires OnlyChanged(mem0, mem, free0 + Tables(mem0, root)) && t1 in free0 + Tables(mem0, root)
      modifies this`mem, this`free
      ensures Translate(mem, root, v) == Some(phys) && phys in free0
      ensures PathBuilt(mem0, free0, mem, root, v)
      ensures free == free0 - NewTables(mem0, free0, mem, root, v) - {phys}
    {
      ghost var mem1, free1 := mem, free;
      assert free != {};
      phys := TakeFrame();
      HangPage(root, v, t1, phys);
      OnlyChangedBoth(mem0, mem1, mem, free0 + Tables(mem0, root), {t1}, free0 + Tables(mem0, root));
      AddedTables(mem0, free0, mem1, free1, mem, root, v, t1, phys);
      FinishMap(mem0, free0, mem1, free1, mem, root, v, t1, phys);
    }

    /** The allocating form: nothing changes if the page is mapped already. */
    method MapProcessPageAlloc(root: Frame, virt: nat) returns (phys: Frame)
      requires Valid() && root in st.roots
      requires Translate(mem, root, PageOf(virt)).None? ==> Missing(mem, root, PageOf(virt)) + 1 <= |free|
      modifies this
      ensures Valid() && Next(old(st), MapAlloc(root, PageOf(virt), phys), st)
      ensures Translate(mem, root, PageOf(virt)) == Some(phys)
      ensures if old(Translate(mem, root, PageOf(virt))).Some? then mem == old(mem) && free == old(free) else phys in old(free)
    {
      InvSound(st, root);
      phys := MapTablesAlloc(root, virt);
      ghost var s' := st.(mem := mem, free := free);
      NextKeeps(st, MapAlloc(root, PageOf(virt), phys), s');
      st := s';
    }

    /** Follows the entries of the walk as they are and clears the word it ends at. */
    method ClearWalked(root: Frame, virt: nat)
      requires WalkBacked(mem, root, PageOf(virt))
      modifies this`mem
      ensures mem == Cleared(old(mem), root, PageOf(virt))
    {
      var v := PageOf(virt);
      var t2 := FrameOf(mem[root][v.i]);
      var t1 := FrameOf(mem[t2][v.j]);
      mem := Write(mem, t1, v.k, 0);
    }

    /** With the tables present the entry of the page is cleared and its frame is not given back. With
        tables absent another word of memory is cleared: nothing else happens if that hurts no map. */
    method UnmapProcessPage(root: Frame, virt: nat)
      requires Valid() && root in st.roots && WalkBacked(mem, root, PageOf(virt))
      modifies this`mem, this`st
      ensures mem == Cleared(old(mem), root, PageOf(virt)) && st.free == old(st).free && st.roots == old(st).roots
      ensures old(Missing(mem, root, PageOf(virt))) == 0 ==> Valid() && Next(old(st), Unmap(root, PageOf(virt)), st)
      ensures old(Missing(mem, root, PageOf(virt))) > 0 && !old(Hurts(st, WalkedLow(mem, root, PageOf(virt)), PageOf(virt).k)) ==>
                Valid() && st == old(st).(mem := mem)
    {
      ghost var v := PageOf(virt);
      ClearWalked(root, virt);
      if Missing(st.mem, root, v) == 0 {
        st := Unmapping(st, root, v);
      } else if !Hurts(st, WalkedLow(st.mem, root, v), v.k) {
        HarmlessKeeps(st, WalkedLow(st.mem, root, v), v.k);
        st := st.(mem := mem);
      }
    }

    /** Frees the table or page at position `c`, children first, a table after all its entries. */
    method FreeSubtree(table: Frame, level: nat, ghost mem0: Mem, ghost root: Frame, ghost c: Slot)
      requires level == Level(c) && Tree(mem0, root) && At(mem0, root, c) == Some(table)
      requires mem.Keys == mem0.Keys
      requires forall f :: f in UnderFrames(mem0, root, c) ==> f !in free && mem[f] == mem0[f]
      modifies this`mem, this`free
      ensures free == old(free) + UnderFrames(mem0, root, c)
      ensures OnlyChanged(old(mem), mem, UnderFrames(mem0, root, c))
      decreases level, 1
    {
      if level > 0 {
        UnderAll(mem0, root, c, table);
        UnderFirstNone(mem0, root, c);
        ghost var all := UnderFrames(mem0, root, c);
        ghost var done := {};
        var x := 0;
        while x < 512
          invariant 0 <= x <= 512 && done == UnderFirst(mem0, root, c, x) && done <= all - {table}
          invariant free == old(free) + done && OnlyChanged(old(mem), mem, done)
        {
          UnderFirstStep(mem0, root, c, x);
          SubFrames(mem0, root, c, x, table);
          FreeEntry(table, x, level, mem0, root, c);
          done := done + UnderFrames(mem0, root, Child(c, x));
          x := x + 1;
        }
      } else {
        assert UnderFrames(mem0, root, c) == {table};
      }
      PutFrame(table);
    }

    /** Frees what is under entry `x` of a table. */
    method FreeEntry(table: Frame, x: Index, level: nat, ghost mem0: Mem, ghost root: Frame, ghost c: Slot)
      requires level == Level(c) > 0 && Tree(mem0, root) && At(mem0, root, c) == Some(table)
      requires mem.Keys == mem0.Keys && table in mem && mem[table] == mem0[table]
      requires forall f :: f in UnderFrames(mem0, root, Child(c, x)) ==> f !in free && mem[f] == mem0[f]
      modifies this`mem, this`free
      ensures free == old(free) + UnderFrames(mem0, root, Child(c, x))
      ensures OnlyChanged(old(mem), mem, UnderFrames(mem0, root, Child(c, x)))
      decreases level, 0
    {
      ChildFollows(mem0, root, c, x);
      var entry := mem[table][x];
      if Present(entry) {
        FreeSubtree(FrameOf(entry), level - 1, mem0, root, Child(c, x));
      } else {
        AbsentHasNoFrames(mem0, root, Child(c, x));
      }
    }

    method FreeProcessMap(root: Frame)
      requires Valid() && root in st.roots
      modifies this
      ensures Valid() && Next(old(st), FreeMap(root), st)
      ensures free == old(free) + old(Footprint(mem, root)) && st.roots == old(st).roots - {root}
    {
      UnderTop(mem, root);
      FreeSubtree(root, 3, mem, root, Top);
      ghost var s' := st.(mem := mem, free := free, roots := st.roots - {root});
      NextKeeps(st, FreeMap(root), s');
      st := s';
    }

    /** A fresh frame with a copy of page `src`. */
    method CopyPage(src: Frame, ghost child: Frame) returns (dest: Frame)
      requires Valid() && child in st.roots && src in mem && free != {}
      modifies this
      ensures Valid() && Filled(old(st), st, child, src, dest)
    {
      dest := AllocatePages();
      HeldWriteKeeps(st, dest, mem[src]);
      mem := mem[dest := mem[src]];
      st := st.(mem := mem);
    }

    /** The innermost loop body: a fresh frame gets the parent's page and is mapped at `v`. */
    method ForkPage(child: Frame, src: Frame, v: VPage, ghost s0: State, ghost parent: Frame)
      requires Valid() && Inv(s0) && ForkState(s0, st, parent, child, v.i, v.j, v.k)
      requires Translate(s0.mem, parent, v) == Some(src)
      modifies this
      ensures Valid() && ForkState(s0, st, parent, child, v.i, v.j, v.k + 1)
    {
      ghost var s := st;
      ForkRoom(s0, s, parent, child, v, src);
      var dest, s1 := CopyAndMap(child, src, v);
      CopyKeepsForkState(s0, s, s1, st, parent, child, v, src, dest);
    }

    method CopyAndMap(child: Frame, src: Frame, v: VPage) returns (dest: Frame, ghost s1: State)
      requires Valid() && child in st.roots && src in mem && 1 + Missing(mem, child, v) <= |free|
      modifies this
      ensures Valid() && Filled(old(st), s1, child, src, dest) && Next(s1, MapPhys(child, v, dest), st)
      ensures |free| == |s1.free| - Missing(s1.mem, child, v)
    {
      dest := CopyPage(src, child);
      s1 := st;
      IndicesInvert(v);
      MapProcessPage(child, dest, VirtOf(v));
    }

    method ForkEntry(child: Frame, t1: Frame, v: VPage, ghost s0: State, ghost parent: Frame)
      requires Valid() && Inv(s0) && ForkState(s0, st, parent, child, v.i, v.j, v.k)
      requires At(s0.mem, parent, Low(v.i, v.j)) == Some(t1)
      modifies this
      ensures Valid() && ForkState(s0, st, parent, child, v.i, v.j, v.k + 1)
    {
      var page := ReadEntry(s0, parent, child, Low(v.i, v.j), t1, v.k);
      if page.Some? {
        ForkPage(child, page.value, v, s0, parent);
      } else {
        SkipLeaf(s0, st, parent, child, v);
      }
    }

    /** The loop over one PML1 table of the parent. */
    method ForkLow(child: Frame, t1: Frame, i: Index, j: Index, ghost s0: State, ghost parent: Frame)
      requires Valid() && Inv(s0) && ForkState(s0, st, parent, child, i, j, 0) && At(s0.mem, parent, Low(i, j)) == Some(t1)
      modifies this
      ensures Valid() && ForkState(s0, st, parent, child, i, j + 1, 0)
    {
      var k := 0;
      while k < 512
        invariant 0 <= k <= 512 && Valid() && ForkState(s0, st, parent, child, i, j, k)
      {
        ForkEntry(child, t1, VPage(i, j, k), s0, parent);
        k := k + 1;
      }
      LowDone(s0, st, parent, child, i, j);
    }

    /** The loop over one PML2 table of the parent. */
    method ForkMid(child: Frame, t2: Frame, i: Index, ghost s0: State, ghost parent: Frame)
      requires Valid() && Inv(s0) && ForkState(s0, st, parent, child, i, 0, 0) && At(s0.mem, parent, Mid(i)) == Some(t2)
      modifies this
      ensures Valid() && ForkState(s0, st, parent, child, i + 1, 0, 0)
    {
      var j := 0;
      while j < 512
        invariant 0 <= j <= 512 && Valid() && ForkState(s0, st, parent, child, i, j, 0)
      {
        var t1 := ReadEntry(s0, parent, child, Mid(i), t2, j);
        if t1.Some? {
          ForkLow(child, t1.value, i, j, s0, parent);
        } else {
          SkipLow(s0, st, parent, child, i, j);
        }
        j := j + 1;
      }
      MidDone(s0, st, parent, child, i);
    }

    method ForkTop(child: Frame, parent: Frame, i: Index, ghost s0: State)
      requires Valid() && Inv(s0) && ForkState(s0, st, parent, child, i, 0, 0) && At(s0.mem, parent, Top) == Some(parent)
      modifies this
      ensures Valid() && ForkState(s0, st, parent, child, i + 1, 0, 0)
    {
      var t2 := ReadEntry(s0, parent, child, Top, parent, i);
      if t2.Some? {
        ForkMid(child, t2.value, i, s0, parent);
      } else {
        SkipMid(s0, st, parent, child, i);
      }
    }

    /** The child gets every page of the parent in frames of its own. One free frame for every
        table and page of the parent is enough. */
    method ForkProcessMap(parent: Frame) returns (child: Frame)
      requires Valid() && parent in st.roots && |Footprint(mem, parent)| <= |free|
      modifies this
      ensures Valid() && Next(old(st), Fork(parent, child), st)
      ensures child !in old(st).roots && st.roots == old(st).roots + {child}
      ensures forall v :: SamePage(old(mem), parent, mem, child, v)
    {
      ghost var s0 := st;
      RootInFootprint(mem, parent);
      child := CreateProcessMap();
      ForkStarts(s0, st, parent, child);
      var i := 0;
      while i < 512
        invariant 0 <= i <= 512 && Valid() && ForkState(s0, st, parent, child, i, 0, 0)
      {
        ForkTop(child, parent, i, s0);
        i := i + 1;
      }
      ForkEnds(s0, st, parent, child);
      ForkedPages(s0, parent, child, st);
    }

    /** Entry `x` of the parent's table at position `p`: what it was when the fork started. */
    method ReadEntry(ghost s0: State, ghost parent: Frame, ghost child: Frame, ghost p: Slot, table: Frame, x: Index)
      returns (r: Option<Frame>)
      requires Valid() && Inv(s0) && FramesDone(s0, st, parent, child)
      requires !p.Leaf? && At(s0.mem, parent, p) == Some(table)
      ensures r == At(s0.mem, parent, Child(p, x))
    {
      ParentUnchanged(s0, st, parent, child);
      ChildFollows(mem, parent, p, x);
      assert Owns(s0.mem, parent, table) && Backed(mem, table);
      var entry := mem[table][x];
      r := if Present(entry) then Some(FrameOf(entry)) else None;
    }
  }

  method FirstMap(mem: Mem) returns (m: Manager, root: Frame, ghost s1: State)
    requires MemOk(mem) && |mem.Keys| >= 4
    ensures m.Valid() && fresh(m) && s1 == m.st && Next(Boot(mem, {}), Create(root), s1)
    ensures Translate(s1.mem, root, PageOf(0)).None? && Missing(s1.mem, root, PageOf(0)) == 2 && |s1.free| >= 3
  {
    m := new Manager(mem, {});
    assert m.free == mem.Keys;
    root := m.CreateProcessMap();
    s1 := m.st;
    BootOk(mem, {});
    FreshMap(Boot(mem, {}), root, s1, PageOf(0));
  }

  lemma FreshMap(s: State, r: Frame, s': State, v: VPage)
    requires Inv(s) && Next(s, Create(r), s') && |s.free| >= 4
    ensures Translate(s'.mem, r, v).None? && Missing(s'.mem, r, v) == 2 && |s'.free| >= 3
  {
    assert s'.free == s.free - {r};
  }

  lemma MappedHasTables(mem: Mem, r: Frame, v: VPage)
    requires Translate(mem, r, v).Some?
    ensures Missing(mem, r, v) == 0
  {
    assert At(mem, r, Low(v.i, v.j)).Some?;
  }

  lemma TwoSteps(a: Op, b: Op, s0: State, s1: State, s2: State)
    requires Next(s0, a, s1) && Next(s1, b, s2)
    ensures IsRun([a, b], [s0, s1, s2])
  {}

  lemma RunThen(ops: seq<Op>, trace: seq<State>, op: Op, s: State)
    requires IsRun(ops, trace) && Next(trace[|ops|], op, s)
    ensures IsRun(ops + [op], trace + [s])
  {
    var trace' := trace + [s];
    forall i | 0 <= i < |ops|
      ensures Next(trace'[i], (ops + [op])[i], trace'[i + 1])
    {
      assert Next(trace[i], ops[i], trace[i + 1]);
    }
  }

  lemma TwoMore(a: Op, b: Op, c: Op, d: Op, s0: State, s1: State, s2: State, s3: State, s4: State)
    requires IsRun([a, b], [s0, s1, s2]) && Next(s2, c, s3) && Next(s3, d, s4)
    ensures IsRun([a, b, c, d], [s0, s1, s2, s3, s4])
  {
    RunThen([a, b], [s0, s1, s2], c, s3);
    assert [s0, s1, s2] + [s3] == [s0, s1, s2, s3] && [a, b] + [c] == [a, b, c];
    RunThen([a, b, c], [s0, s1, s2, s3], d, s4);
    assert [s0, s1, s2, s3] + [s4] == [s0, s1, s2, s3, s4] && [a, b, c] + [d] == [a, b, c, d];
  }

  /** The four steps, from booting to freeing the map. */
  ghost predicate LostSteps(mem: Mem, s1: State, s2: State, s3: State, s4: State, r: Frame, v: VPage, f: Frame) {
    && Next(Boot(mem, {}), Create(r), s1) && Translate(s1.mem, r, v).None?
    && Next(s1, MapAlloc(r, v, f), s2) && Next(s2, Unmap(r, v), s3) && Next(s3, FreeMap(r), s4)
  }

  /** Mapping a page, unmapping it and freeing the map: on every machine with four frames or more
      this can be done, and the page does not come back. */
  method LostPage(mem: Mem) returns (m: Manager, root: Frame, phys: Frame, ghost s1: State, ghost s2: State, ghost s3: State)
    requires MemOk(mem) && |mem.Keys| >= 4
    ensures m.Valid() && LostSteps(mem, s1, s2, s3, m.st, root, PageOf(0), phys)
  {
    m, root, s1 := FirstMap(mem);
    phys := m.MapProcessPageAlloc(root, 0);
    s2 := m.st;
    MappedHasTables(s2.mem, root, PageOf(0));
    PresentWalk(s2.mem, root, PageOf(0));
    m.UnmapProcessPage(root, 0);
    s3 := m.st;
    m.FreeProcessMap(root);
  }

  /** Those steps are a run from booting. */
  lemma LostIsRun(mem: Mem, s1: State, s2: State, s3: State, s4: State, r: Frame, v: VPage, f: Frame)
    requires LostSteps(mem, s1, s2, s3, s4, r, v, f)
    ensures IsRun([Create(r), MapAlloc(r, v, f), Unmap(r, v), FreeMap(r)], [Boot(mem, {}), s1, s2, s3, s4])
  {
    TwoSteps(Create(r), MapAlloc(r, v, f), Boot(mem, {}), s1, s2);
    TwoMore(Create(r), MapAlloc(r, v, f), Unmap(r, v), FreeMap(r), Boot(mem, {}), s1, s2, s3, s4);
  }

  /** Its unmap drops a mapped page. Afterwards no map is left, nothing is held, and all frames are
      free but that one. */
  lemma LostFrame(mem: Mem, s1: State, s2: State, s3: State, s4: State, r: Frame, v: VPage, f: Frame)
    requires MemOk(mem) && Inv(s4) && LostSteps(mem, s1, s2, s3, s4, r, v, f)
    ensures Drops(s2, Unmap(r, v)) && s4.roots == {} && s4.held == {} && f in mem && s4.free == mem.Keys - {f}
  {
    PoolsAfter(mem, s1, s2, s3, s4, r, v, f);
    BootOk(mem, {});
    OnlyLostMissing(Boot(mem, {}), s4, f);
  }

  lemma PoolsAfter(mem: Mem, s1: State, s2: State, s3: State, s4: State, r: Frame, v: VPage, f: Frame)
    requires LostSteps(mem, s1, s2, s3, s4, r, v, f)
    ensures s4.roots == {} && s4.held == {} && s4.lost == {f} && s4.mem.Keys == mem.Keys && Drops(s2, Unmap(r, v))
  {}

  /** Without maps and held pages, what is not lost is free. */
  lemma OnlyLostMissing(s: State, s': State, f: Frame)
    requires Inv(s) && Inv(s') && s'.mem.Keys == s.mem.Keys
    requires s.roots == s'.roots == {} && s.held == s'.held == {} && s.lost == {} && s'.lost == {f}
    ensures f in s.free && s'.free == s.free - {f}
  {
    assert forall g :: g in s.mem ==> Placed(s, g) && Placed(s', g);
  }

  // ----- an unmap that changes a page of another map

  /** Frame 0, a device's, is page 0 of map `q`; its first word is zero and its second is not. */
  ghost predicate PageZeroOf(s: State, q: Frame, row: seq<Word>) {
    && q in s.roots && Translate(s.mem, q, VPage(0, 0, 0)) == Some(0) && |row| == 512 && row[0] == 0 && row[1] != 0
    && 0 in s.mem && s.mem[0] == row
  }

  lemma DeviceMapped(s: State, q: Frame, s': State, row: seq<Word>)
    requires Inv(s) && 0 in s.held && s.mem[0] == row && |row| == 512 && row[0] == 0 && row[1] != 0
    requires Next(s, MapPhys(q, VPage(0, 0, 0), 0), s')
    ensures PageZeroOf(s', q, row)
  {
    assert 0 !in Tables(s.mem, q);
  }

  lemma OtherCreated(s: State, q: Frame, r: Frame, s': State, row: seq<Word>)
    requires Inv(s) && PageZeroOf(s, q, row) && Next(s, Create(r), s')
    ensures PageZeroOf(s', q, row) && r != q
  {
    assert Owns(s.mem, q, 0);
    assert At(s.mem, q, Top) == Some(q) && Owns(s.mem, q, q);
    OtherMapsUntouched(s, Create(r), s', q, VPage(0, 0, 0));
  }

  /** Map `r` unmapped its second page, and map `q`, whose first page is frame 0, lost the second word
      of that page. */
  ghost predicate Strayed(s: State, mem': Mem, q: Frame, r: Frame, row: seq<Word>) {
    var v := VPage(0, 0, 1);
    && PageZeroOf(s, q, row) && r in s.roots && r != q
    && WalkBacked(s.mem, r, v) && mem' == Cleared(s.mem, r, v)
    && !OnlyPage(s, mem', r, v) && 0 in mem' && mem'[0] == row[..1] + [0] + row[2..]
  }

  /** In a new map nothing is mapped, and the walk goes through frame 0. */
  lemma StrayClears(s: State, q: Frame, r: Frame, row: seq<Word>)
    requires Inv(s) && PageZeroOf(s, q, row) && r in s.roots && r != q && r in s.mem && s.mem[r] == ZEROS
    ensures WalkBacked(s.mem, r, VPage(0, 0, 1)) && Strayed(s, Cleared(s.mem, r, VPage(0, 0, 1)), q, r, row)
  {
    var v := VPage(0, 0, 1);
    assert At(s.mem, r, Top) == Some(r);
    assert WalkedMid(s.mem, r, v) == 0 && WalkedLow(s.mem, r, v) == 0;
    assert At(s.mem, q, LeafOf(VPage(0, 0, 0))) == Some(0) && HurtsAt(s.mem, LeafOf(VPage(0, 0, 0)), 0, 1);
    assert Follow(s.mem, Some(r), 0) == None;
    assert Missing(s.mem, r, v) == 2;
    UnmapOnlyPageIff(s, r, v);
  }

  /** A machine with a device at frame 0, and an empty map. */
  method MapBesideDevice(mem: Mem) returns (m: Manager, q: Frame)
    requires MemOk(mem) && |mem.Keys| >= 5 && 0 in mem
    ensures fresh(m) && m.Valid() && q in m.st.roots && 0 in m.st.held && m.mem[0] == mem[0] && |m.free| >= 3
  {
    m := new Manager(mem, {0});
    assert |mem.Keys - {0}| == |mem.Keys| - 1;
    q := m.CreateProcessMap();
  }

  /** The device is mapped. */
  method MapDevice(mem: Mem) returns (m: Manager, q: Frame)
    requires MemOk(mem) && |mem.Keys| >= 5 && 0 in mem && mem[0][0] == 0 && mem[0][1] != 0
    ensures fresh(m) && m.Valid() && PageZeroOf(m.st, q, mem[0]) && |m.free| >= 1
  {
    m, q := MapBesideDevice(mem);
    ghost var s0 := m.st;
    ZeroPage();
    m.MapProcessPage(q, 0, 0);
    DeviceMapped(s0, q, m.st, mem[0]);
  }

  lemma ZeroPage()
    ensures PageOf(0) == VPage(0, 0, 0) && PageOf(4096) == VPage(0, 0, 1)
  {}

  /** A second map, which is empty. */
  method AnotherMap(m: Manager, q: Frame, ghost row: seq<Word>) returns (r: Frame)
    requires m.Valid() && PageZeroOf(m.st, q, row) && |m.free| >= 1
    modifies m
    ensures m.Valid() && PageZeroOf(m.st, q, row) && r in m.st.roots && r != q && r in m.mem && m.mem[r] == ZEROS
  {
    ghost var s := m.st;
    r := m.CreateProcessMap();
    OtherCreated(s, q, r, m.st, row);
  }

  /** On every machine with such a frame 0: unmapping an absent page of the second map changes a word of
      the first one's page. */
  method StrayUnmap(mem: Mem) returns (m: Manager, q: Frame, r: Frame, ghost s: State)
    requires MemOk(mem) && |mem.Keys| >= 5 && 0 in mem && mem[0][0] == 0 && mem[0][1] != 0
    ensures Inv(s) && Strayed(s, m.mem, q, r, mem[0])
  {
    m, q := MapDevice(mem);
    r := AnotherMap(m, q, mem[0]);
    s := m.st;
    StrayClears(s, q, r, mem[0]);
    ZeroPage();
    m.UnmapProcessPage(r, 4096);
  }
}
