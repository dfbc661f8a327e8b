/** The page allocator: runs of physical pages out of the free list. It hands out pages under the
    page tables, which know it as a set of free frames.
 */
module PagePool {
  import opened Wrappers
  import opened FreeList
  import PhysicalMap

  const PAGE: nat := 4096

  /** Where the kernel sees frame `f` when it sees physical memory from page `high` on. */
  function Addr(high: nat, f: nat): nat { (high + f) * PAGE }

  /** The frames `f` to `f + n - 1`. */
  function Run(f: nat, n: nat): (r: set<nat>)
    ensures forall i :: i in r <==> f <= i < f + n
  {
    if n == 0 then {} else Run(f, n - 1) + {f + n - 1}
  }

  /** Nothing lies below the kernel's view of physical memory. */
  predicate InView(segs: seq<Segment>, high: nat) { forall s :: s in segs ==> s.base >= high * PAGE }

  /** An address no segment reaches. */
  function Limit(segs: seq<Segment>): nat {
    if segs == [] then 0 else Limit(segs[1..]) + segs[0].End()
  }

  lemma {:induction false} BelowLimit(segs: seq<Segment>, a: int)
    requires Covered(segs, a)
    ensures a < Limit(segs)
  {
    var s :| s in segs && s.Contains(a);
    if s in segs[1..] { BelowLimit(segs[1..], a); }
  }

  /** The frames that are free, whole. */
  ghost function Frames(segs: seq<Segment>, high: nat): (r: set<nat>)
    ensures forall f: nat :: f in r <==> Covered(segs, Addr(high, f))
  {
    forall a | Covered(segs, a)
      ensures a < Limit(segs)
    {
      BelowLimit(segs, a);
    }
    set f: nat | f < Limit(segs) && Covered(segs, Addr(high, f))
  }

  /** The pages of memory are free or not as a whole. */
  lemma WholePage(segs: seq<Segment>, p: nat, a: nat)
    requires AllOnGrid(segs, PAGE) && p * PAGE <= a < p * PAGE + PAGE
    ensures Covered(segs, a) <==> Covered(segs, p * PAGE)
  {
    forall s | s in segs
      ensures s.Contains(a) <==> s.Contains(p * PAGE)
    {
      assert OnGrid(s, PAGE);
    }
  }

  lemma OfPage(high: nat, f: nat, n: nat, i: nat, a: nat)
    requires Addr(high, i) <= a < Addr(high, i) + PAGE
    ensures Addr(high, f) <= a < Addr(high, f) + n * PAGE <==> i in Run(f, n)
  {}

  /** Losing the bytes of a run of pages is losing the frames. */
  lemma FramesLose(segs: seq<Segment>, segs': seq<Segment>, high: nat, f: nat, n: nat)
    requires forall a :: Covered(segs', a) <==> Covered(segs, a) && !(Addr(high, f) <= a < Addr(high, f) + n * PAGE)
    ensures Frames(segs', high) == Frames(segs, high) - Run(f, n)
  {
    forall i: nat
      ensures i in Frames(segs', high) <==> i in Frames(segs, high) && i !in Run(f, n)
    {
      OfPage(high, f, n, i, Addr(high, i));
    }
  }

  lemma FramesGain(segs: seq<Segment>, segs': seq<Segment>, high: nat, f: nat, n: nat)
    requires forall a :: Covered(segs', a) <==> Covered(segs, a) || Addr(high, f) <= a < Addr(high, f) + n * PAGE
    ensures Frames(segs', high) == Frames(segs, high) + Run(f, n)
  {
    forall i: nat
      ensures i in Frames(segs', high) <==> i in Frames(segs, high) || i in Run(f, n)
    {
      OfPage(high, f, n, i, Addr(high, i));
    }
  }

  /** The bytes of a run are free if and only if its frames are. */
  lemma RunCovered(segs: seq<Segment>, high: nat, f: nat, n: nat, a: nat)
    requires AllOnGrid(segs, PAGE) && Addr(high, f) <= a < Addr(high, f) + n * PAGE
    ensures exists i :: i in Run(f, n) && (Covered(segs, a) <==> i in Frames(segs, high))
  {
    var i := a / PAGE - high;
    assert i in Run(f, n);
    WholePage(segs, high + i, a);
  }

  lemma RunFree(segs: seq<Segment>, high: nat, f: nat, n: nat)
    requires AllOnGrid(segs, PAGE) && Run(f, n) <= Frames(segs, high)
    ensures forall a :: Addr(high, f) <= a < Addr(high, f) + n * PAGE ==> Covered(segs, a)
  {
    forall a: nat | Addr(high, f) <= a < Addr(high, f) + n * PAGE
      ensures Covered(segs, a)
    {
      RunCovered(segs, high, f, n, a);
    }
  }

  lemma RunNotFree(segs: seq<Segment>, high: nat, f: nat, n: nat)
    requires AllOnGrid(segs, PAGE) && Run(f, n) !! Frames(segs, high)
    ensures NotFree(segs, Segment(Addr(high, f), n * PAGE))
  {
    forall a: nat | Addr(high, f) <= a < Addr(high, f) + n * PAGE
      ensures !Covered(segs, a)
    {
      RunCovered(segs, high, f, n, a);
    }
  }

  /** In a canonical list a run of free frames lies in one segment: first fit fails only if there
      is no run of `n` free frames anywhere. */
  lemma FitIffRun(segs: seq<Segment>, high: nat, n: nat)
    requires Canonical(segs) && AllOnGrid(segs, PAGE) && n > 0 && InView(segs, high)
    ensures (exists s :: s in segs && s.size >= n * PAGE) <==> exists f :: Run(f, n) <= Frames(segs, high)
  {
    if exists s :: s in segs && s.size >= n * PAGE {
      var s :| s in segs && s.size >= n * PAGE;
      FrontIsRun(segs, high, s, n);
    }
    if exists f :: Run(f, n) <= Frames(segs, high) {
      var f :| Run(f, n) <= Frames(segs, high);
      RunFree(segs, high, f, n);
      var s := IntervalHasSegment(segs, Addr(high, f), Addr(high, f) + n * PAGE);
    }
  }

  lemma FrameAt(s: Segment, high: nat) returns (f: nat)
    requires OnGrid(s, PAGE) && s.base >= high * PAGE
    ensures f == s.base / PAGE - high && Addr(high, f) == s.base
  {
    f := s.base / PAGE - high;
  }

  /** The front of a large enough segment is a run of free frames. */
  lemma FrontIsRun(segs: seq<Segment>, high: nat, s: Segment, n: nat)
    requires AllOnGrid(segs, PAGE) && s in segs && s.size >= n * PAGE && s.base >= high * PAGE
    ensures var f := s.base / PAGE - high; f >= 0 && Addr(high, f) == s.base && Run(f, n) <= Frames(segs, high)
  {
    var f := FrameAt(s, high);
    forall i | i in Run(f, n)
      ensures Covered(segs, Addr(high, i))
    {
      assert s.Contains(Addr(high, i));
    }
  }

  // ----- what the operations keep

  ghost predicate PoolOk(segs: seq<Segment>, high: nat) {
    Canonical(segs) && AllOnGrid(segs, PAGE) && InView(segs, high)
  }

  lemma InViewCovered(segs: seq<Segment>, segs': seq<Segment>, high: nat)
    requires InView(segs, high) && Canonical(segs')
    requires forall a :: Covered(segs', a) && a < high * PAGE ==> Covered(segs, a)
    ensures InView(segs', high)
  {
    forall s | s in segs'
      ensures s.base >= high * PAGE
    {
      assert s.Contains(s.base) && Covered(segs', s.base);
    }
  }

  lemma TakenKeeps(segs: seq<Segment>, high: nat, i: nat, size: nat, f: nat, n: nat)
    requires PoolOk(segs, high) && i < |segs| && size == n * PAGE <= segs[i].size && Addr(high, f) == segs[i].base
    ensures var segs' := Used(segs, i, size);
            PoolOk(segs', high) && Frames(segs', high) == Frames(segs, high) - Run(f, n)
  {
    var segs' := Used(segs, i, size);
    UsedLoses(segs, i, size);
    UsedOnGrid(segs, i, size, PAGE);
    InViewCovered(segs, segs', high);
    FramesLose(segs, segs', high, f, n);
  }

  lemma GivenKeeps(segs: seq<Segment>, high: nat, f: nat, n: nat)
    requires PoolOk(segs, high) && n > 0 && Run(f, n) !! Frames(segs, high)
    ensures var segs' := Freed(segs, Addr(high, f), n * PAGE);
            NotFree(segs, Segment(Addr(high, f), n * PAGE)) && PoolOk(segs', high) && Frames(segs', high) == Frames(segs, high) + Run(f, n)
  {
    var segs' := Freed(segs, Addr(high, f), n * PAGE);
    RunNotFree(segs, high, f, n);
    FreedGains(segs, Addr(high, f), n * PAGE);
    FreedOnGrid(segs, Addr(high, f), n * PAGE, PAGE);
    InViewCovered(segs, segs', high);
    FramesGain(segs, segs', high, f, n);
  }

  // ----- the allocator object

  class Pool {
    const list: List
    const high: nat

    ghost predicate Valid()
      reads list
    {
      PoolOk(list.segs, high)
    }

    ghost function Free(): set<nat>
      reads list
    {
      Frames(list.segs, high)
    }

    /** Takes over the list the boot loader built. */
    constructor (list: List, high: nat)
      requires PoolOk(list.segs, high)
      ensures Valid() && this.list == list && this.high == high
    {
      this.list, this.high := list, high;
    }

    /** _AllocatePages: the first of `n` adjacent frames; fails only if no `n` adjacent frames are free. */
    method AllocatePages(n: nat) returns (r: Option<nat>)
      requires Valid() && n > 0
      modifies list
      ensures Valid()
      ensures r.None? <==> forall f :: !(Run(f, n) <= old(Free()))
      ensures r.None? ==> Free() == old(Free())
      ensures r.Some? ==> Run(r.value, n) <= old(Free()) && Free() == old(Free()) - Run(r.value, n)
    {
      FitIffRun(list.segs, high, n);
      var base := list.FindFree(n * PAGE);
      if base.None? { return None; }
      var f := Take(base.value, n, FirstFit(list.segs, n * PAGE, 0));
      r := Some(f);
    }

    method Take(base: nat, n: nat, ghost i: nat) returns (f: nat)
      requires Valid() && n > 0 && i < |list.segs| && base == list.segs[i].base && list.segs[i].size >= n * PAGE
      modifies list
      ensures Valid() && Run(f, n) <= old(Free()) && Free() == old(Free()) - Run(f, n)
    {
      FrontIsRun(list.segs, high, list.segs[i], n);
      f := base / PAGE - high;
      TakenKeeps(list.segs, high, i, n * PAGE, f, n);
      list.MarkUsed(base, n * PAGE, i);
    }

    /** _FreePages */
    method FreePages(f: nat, n: nat)
      requires Valid() && n > 0 && Run(f, n) !! Free()
      modifies list
      ensures Valid() && Free() == old(Free()) + Run(f, n)
    {
      GivenKeeps(list.segs, high, f, n);
      list.MarkFree((high + f) * PAGE, n * PAGE);
    }

    /** One frame, as the page tables take it: any free frame, and there is one if any frame is free. */
    method TakeFrame() returns (f: nat)
      requires Valid() && Free() != {}
      modifies list
      ensures Valid() && f in old(Free()) && Free() == old(Free()) - {f}
    {
      ghost var g :| g in Free();
      OneFrame(g);
      var r := AllocatePages(1);
      assert Run(g, 1) <= old(Free());
      f := r.value;
      OneFrame(f);
    }

    method PutFrame(f: nat)
      requires Valid() && f !in Free()
      modifies list
      ensures Valid() && Free() == old(Free()) + {f}
    {
      OneFrame(f);
      FreePages(f, 1);
    }
  }

  lemma OneFrame(f: nat)
    ensures Run(f, 1) == {f}
  {}

  /** From the firmware's memory map to the first pool: exactly the frames of usable memory are free. */
  method BootPool(a: array<PhysicalMap.Desc>, count: nat, high: nat) returns (pool: Pool)
    requires count <= a.Length && PhysicalMap.FirmwareOk(a[..count])
    modifies a
    ensures fresh(pool) && fresh(pool.list) && pool.Valid() && pool.high == high
    ensures forall f: nat :: f in pool.Free() <==> old(PhysicalMap.Usable(a[..count], f * PAGE))
  {
    var list, n := PhysicalMap.BuildFreeList(a, count, high * PAGE);
    BootListOk(a[..n], list.segs, high);
    pool := new Pool(list, high);
  }

  lemma BootListOk(m: seq<PhysicalMap.Desc>, segs: seq<Segment>, high: nat)
    requires PhysicalMap.Spaced(m) && PhysicalMap.AreSegments(m, segs, high * PAGE)
    ensures AllOnGrid(segs, PAGE) && InView(segs, high)
  {
    forall s | s in segs
      ensures OnGrid(s, PAGE) && s.base >= high * PAGE
    {
      var i :| 0 <= i < |segs| && segs[i] == s;
      assert PhysicalMap.DescOk(m[i]) && s == PhysicalMap.SegmentOf(m[i], high * PAGE);
      SumOnGrid(m[i].start, high * PAGE, PAGE);
    }
  }
}
