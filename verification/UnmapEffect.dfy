/** What UnmapProcessPage writes. It follows the entries of the walk without asking whether they are
    present and clears the word it ends at, so the word need not be an entry for its page.
 */
module UnmapEffect {
  import opened Wrappers
  import opened PageTables
  import opened MemoryManager
  import opened ForkMap

  function WalkedMid(mem: Mem, root: Frame, v: VPage): Frame { FrameOf(Read(mem, root, v.i)) }

  /** The frame that is taken for the lower table. */
  function WalkedLow(mem: Mem, root: Frame, v: VPage): Frame { FrameOf(Read(mem, WalkedMid(mem, root, v), v.j)) }

  /** There is memory at all addresses that are followed. */
  predicate WalkBacked(mem: Mem, root: Frame, v: VPage) {
    Backed(mem, root) && Backed(mem, WalkedMid(mem, root, v)) && Backed(mem, WalkedLow(mem, root, v))
  }

  function Cleared(mem: Mem, root: Frame, v: VPage): Mem
    requires WalkBacked(mem, root, v)
  {
    Write(mem, WalkedLow(mem, root, v), v.k, 0)
  }

  lemma PresentWalk(mem: Mem, root: Frame, v: VPage)
    requires Tree(mem, root) && Missing(mem, root, v) == 0
    ensures WalkBacked(mem, root, v) && At(mem, root, Low(v.i, v.j)) == Some(WalkedLow(mem, root, v))
  {
    assert At(mem, root, Top) == Some(root);
    assert At(mem, root, Mid(v.i)) == Some(WalkedMid(mem, root, v));
    assert At(mem, root, Low(v.i, v.j)) == Some(WalkedLow(mem, root, v));
  }

  // ----- clearing any word of memory

  /** Clearing word `k` of frame `f` hurts the position `t` where the frame is: it is a table and the
      word is a present entry, or it is a page and the word is not zero. */
  predicate HurtsAt(mem: Mem, t: Slot, f: Frame, k: Index) {
    if t.Leaf? then Read(mem, f, k) != 0 else Present(Read(mem, f, k))
  }

  ghost predicate Hurts(s: State, f: Frame, k: Index) {
    exists q, t :: q in s.roots && At(s.mem, q, t) == Some(f) && HurtsAt(s.mem, t, f, k)
  }

  ghost predicate SameRow(mem: Mem, mem': Mem, f: Frame) { forall x: Index :: Read(mem', f, x) == Read(mem, f, x) }

  /** Position `t` of map `q` names the same frame, and a page the same contents. */
  ghost predicate SameAt(mem: Mem, mem': Mem, q: Frame, t: Slot) {
    && At(mem', q, t) == At(mem, q, t)
    && (t.Leaf? && At(mem, q, t).Some? ==> SameRow(mem, mem', At(mem, q, t).value))
  }

  lemma ElsewhereSame(mem: Mem, q: Frame, f: Frame, k: Index)
    requires Tree(mem, q) && Backed(mem, f) && !Owns(mem, q, f)
    ensures var mem' := Write(mem, f, k, 0); Tree(mem', q) && forall t :: SameAt(mem, mem', q, t)
  {
    var mem' := Write(mem, f, k, 0);
    forall g: Frame | Owns(mem, q, g)
      ensures g in mem' && mem'[g] == mem[g]
    {
      var t :| At(mem, q, t) == Some(g);
    }
    SameFramesSameTree(mem, mem', q);
    forall t
      ensures SameAt(mem, mem', q, t)
    {
      assert t.Leaf? && At(mem, q, t).Some? ==> Owns(mem, q, At(mem, q, t).value);
    }
  }

  lemma ZeroStays(mem: Mem, f: Frame, k: Index)
    requires Backed(mem, f) && Read(mem, f, k) == 0
    ensures Write(mem, f, k, 0) == mem
  {
    assert mem[f][..k] + [0] + mem[f][k + 1..] == mem[f];
  }

  /** The pages of a map keep their contents when a word of a table is written. */
  lemma PagesKept(mem: Mem, q: Frame, p: Slot, f: Frame, k: Index, t: Slot)
    requires Tree(mem, q) && !p.Leaf? && At(mem, q, p) == Some(f) && Backed(mem, f) && t.Leaf? && At(mem, q, t).Some?
    ensures SameRow(mem, Write(mem, f, k, 0), At(mem, q, t).value)
  {
    ReadWrite(mem, f, k, 0);
    assert At(mem, q, t) == Some(f) ==> t == p;
  }

  lemma AbsentStays(mem: Mem, q: Frame, p: Slot, f: Frame, k: Index)
    requires Tree(mem, q) && !p.Leaf? && At(mem, q, p) == Some(f) && Backed(mem, f) && !Present(Read(mem, f, k))
    ensures var mem' := Write(mem, f, k, 0); Tree(mem', q) && forall t :: SameAt(mem, mem', q, t)
  {
    var mem' := Write(mem, f, k, 0);
    var c := Child(p, k);
    DecodeEntry(0);
    ChildFollows(mem, q, p, k);
    WriteEntry(mem, q, p, k, 0);
    forall t
      ensures SameAt(mem, mem', q, t)
    {
      if Under(c, t) && t != c {
        NothingBelow(mem, q, c, t);
        NothingBelow(mem', q, c, t);
      }
      if t.Leaf? && At(mem, q, t).Some? { PagesKept(mem, q, p, f, k, t); }
    }
    SameTree(mem, mem', q);
  }

  lemma SameTree(mem: Mem, mem': Mem, q: Frame)
    requires Tree(mem, q) && mem'.Keys == mem.Keys && (forall f :: f in mem ==> |mem'[f]| == |mem[f]|)
    requires forall t :: SameAt(mem, mem', q, t)
    ensures Tree(mem', q)
  {
    assert forall t :: At(mem', q, t) == At(mem, q, t) by {
      forall t
        ensures At(mem', q, t) == At(mem, q, t)
      {
        assert SameAt(mem, mem', q, t);
      }
    }
  }

  /** A write that hurts no position of a map leaves the map as it is. */
  lemma HarmlessSame(s: State, f: Frame, k: Index, q: Frame)
    requires Inv(s) && Backed(s.mem, f) && !Hurts(s, f, k) && q in s.roots
    ensures var mem' := Write(s.mem, f, k, 0); Tree(mem', q) && forall t :: SameAt(s.mem, mem', q, t)
  {
    if Owns(s.mem, q, f) {
      var t :| At(s.mem, q, t) == Some(f);
      assert !HurtsAt(s.mem, t, f, k);
      if t.Leaf? {
        ZeroStays(s.mem, f, k);
      } else {
        AbsentStays(s.mem, q, t, f, k);
      }
    } else {
      ElsewhereSame(s.mem, q, f, k);
    }
  }

  /** A write that hurts a position shows: an entry is gone, or a word of a page. */
  lemma HurtShows(mem: Mem, q: Frame, t: Slot, f: Frame, k: Index)
    requires Tree(mem, q) && At(mem, q, t) == Some(f) && HurtsAt(mem, t, f, k) && Backed(mem, f)
    ensures !SameAt(mem, Write(mem, f, k, 0), q, if t.Leaf? then t else Child(t, k))
    ensures At(mem, q, if t.Leaf? then t else Child(t, k)).Some?
  {
    var mem' := Write(mem, f, k, 0);
    ReadWrite(mem, f, k, 0);
    if t.Leaf? {
      assert Read(mem', f, k) != Read(mem, f, k);
    } else {
      DecodeEntry(0);
      ChildFollows(mem, q, t, k);
      WriteEntry(mem, q, t, k, 0);
    }
  }

  // ----- the unmap

  /** At most the page at `v` of map `root` changed, in all maps. */
  ghost predicate OnlyPage(s: State, mem': Mem, root: Frame, v: VPage) {
    forall q, t :: q in s.roots && !(q == root && t == LeafOf(v)) ==> SameAt(s.mem, mem', q, t)
  }

  lemma ClearedPresent(s: State, root: Frame, v: VPage)
    requires Inv(s) && root in s.roots && WalkBacked(s.mem, root, v) && Missing(s.mem, root, v) == 0
    ensures OnlyPage(s, Cleared(s.mem, root, v), root, v)
  {
    var f := WalkedLow(s.mem, root, v);
    PresentWalk(s.mem, root, v);
    Detach(s.mem, root, Low(v.i, v.j), v.k);
    forall q, t | q in s.roots && !(q == root && t == LeafOf(v))
      ensures SameAt(s.mem, Cleared(s.mem, root, v), q, t)
    {
      if q == root {
        if t.Leaf? && At(s.mem, q, t).Some? { PagesKept(s.mem, q, Low(v.i, v.j), f, v.k, t); }
      } else {
        assert Owns(s.mem, root, f);
        ElsewhereSame(s.mem, q, f, v.k);
      }
    }
  }

  /** For every address: unmapping changes nothing but the page at `v` if and only if the tables of the
      walk are present, or the word that is cleared instead is no present entry of a table and no
      word other than zero of a page of any map. */
  lemma UnmapOnlyPageIff(s: State, root: Frame, v: VPage)
    requires Inv(s) && root in s.roots && WalkBacked(s.mem, root, v)
    ensures OnlyPage(s, Cleared(s.mem, root, v), root, v) <==>
              Missing(s.mem, root, v) == 0 || !Hurts(s, WalkedLow(s.mem, root, v), v.k)
  {
    var f, mem' := WalkedLow(s.mem, root, v), Cleared(s.mem, root, v);
    if Missing(s.mem, root, v) == 0 {
      ClearedPresent(s, root, v);
    } else if Hurts(s, f, v.k) {
      var q, t :| q in s.roots && At(s.mem, q, t) == Some(f) && HurtsAt(s.mem, t, f, v.k);
      HurtShows(s.mem, q, t, f, v.k);
    } else {
      forall q, t | q in s.roots
        ensures SameAt(s.mem, mem', q, t)
      {
        HarmlessSame(s, f, v.k, q);
      }
    }
  }

  /** In the harmless case every frame stays in its place. */
  lemma HarmlessKeeps(s: State, f: Frame, k: Index)
    requires Inv(s) && Backed(s.mem, f) && !Hurts(s, f, k)
    ensures Inv(s.(mem := Write(s.mem, f, k, 0)))
  {
    var s' := s.(mem := Write(s.mem, f, k, 0));
    forall q | q in s.roots
      ensures Tree(s'.mem, q) && forall g :: Owns(s'.mem, q, g) <==> Owns(s.mem, q, g)
    {
      HarmlessSame(s, f, k, q);
      SameOwns(s.mem, s'.mem, q);
    }
    forall g | g in s.mem
      ensures Placed(s', g)
    {
      assert Placed(s, g);
      if g !in s.free && g !in s.held && g !in s.lost {
        var q :| q in s.roots && Owns(s.mem, q, g);
        assert q in s'.roots && Owns(s'.mem, q, g);
      }
    }
  }

  lemma SameOwns(mem: Mem, mem': Mem, q: Frame)
    requires forall t :: SameAt(mem, mem', q, t)
    ensures forall g :: Owns(mem', q, g) <==> Owns(mem, q, g)
  {
    forall g: Frame
      ensures Owns(mem', q, g) <==> Owns(mem, q, g)
    {
      if Owns(mem, q, g) {
        var t :| At(mem, q, t) == Some(g);
        assert SameAt(mem, mem', q, t) && At(mem', q, t) == Some(g);
      }
      if Owns(mem', q, g) {
        var t :| At(mem', q, t) == Some(g);
        assert SameAt(mem, mem', q, t) && At(mem, q, t) == Some(g);
      }
    }
  }
}
