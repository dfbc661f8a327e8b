/** User page tables in physical memory: a root table (PML3) whose present entries name PML2
    tables, whose entries name PML1 tables, whose entries name the mapped page frames.
    A frame is 512 words whatever it holds; only following entries from a root says which
    frames are tables. This module defines the translation and what one entry write does to it.
 */
module PageTables {
  import opened Wrappers

  type Frame = nat
  type Word = nat
  type Mem = map<Frame, seq<Word>>
  type Index = x: nat | x < 512

  const MAX_FRAME: nat := 0x100_0000_0000     // 40 address bits above the page offset

  const ZEROS: seq<Word> := seq(512, _ => 0)

  // ----- entries: bit 0 is "present", bits 12..51 are the frame number

  predicate Present(e: Word) { e % 2 == 1 }

  function FrameOf(e: Word): Frame { (e / 4096) % MAX_FRAME }

  /** PML_SET_ADDR | P | RW | US */
  function Entry(f: Frame): Word { f * 4096 + 7 }

  function Decode(e: Word): Option<Frame> {
    if Present(e) then Some(FrameOf(e)) else None
  }

  lemma DecodeEntry(f: Frame)
    requires f < MAX_FRAME
    ensures Decode(Entry(f)) == Some(f) && Decode(0) == None
  {
    assert (f * 4096 + 7) / 4096 == f;
  }

  // ----- virtual pages and the index macros

  datatype VPage = VPage(i: Index, j: Index, k: Index)

  /** GET_PML3_INDEX, GET_PML2_INDEX and GET_PML1_INDEX of a virtual address. */
  function PageOf(virt: nat): VPage {
    VPage(virt / 0x4000_0000 % 512, virt / 0x20_0000 % 512, virt / 4096 % 512)
  }

  /** (k << 12) | (j << 21) | (i << 30) */
  function VirtOf(v: VPage): nat {
    v.k * 4096 + v.j * 0x20_0000 + v.i * 0x4000_0000
  }

  /** The address the fork loops build is taken apart again into the same three indices. */
  lemma IndicesInvert(v: VPage)
    ensures PageOf(VirtOf(v)) == v
  {
    assert VirtOf(v) / 4096 == v.k + v.j * 512 + v.i * 0x4_0000;
    assert VirtOf(v) / 0x20_0000 == v.j + v.i * 512;
    assert VirtOf(v) / 0x4000_0000 == v.i;
  }

  lemma AddressInvert(virt: nat)
    requires virt % 4096 == 0 && virt < 0x80_0000_0000
    ensures VirtOf(PageOf(virt)) == virt
  {
    var page := virt / 4096;
    var upper := page / 512;
    assert virt == 4096 * page && page == 512 * upper + page % 512 && upper == 512 * (upper / 512) + upper % 512;
    var v := VPage(upper / 512, upper % 512, page % 512);
    assert VirtOf(v) == virt;
    IndicesInvert(v);
  }

  lemma DisjointBitsAdd(a: bv64, b: bv64)
    requires a & b == 0
    ensures a | b == a + b
  {}

  /** The same on 64-bit words, with the shifts and masks as the macros write them. */
  lemma ShiftsInvert(i: bv64, j: bv64, k: bv64)
    requires i < 512 && j < 512 && k < 512
    ensures var virt := (k << 12) | (j << 21) | (i << 30);
            (virt >> 30) & 0x1FF == i && (virt >> 21) & 0x1FF == j && (virt >> 12) & 0x1FF == k
  {}

  /** The or-ed fields do not overlap, so they are the sum VirtOf writes. */
  lemma ShiftsAdd(i: bv64, j: bv64, k: bv64)
    requires i < 512 && j < 512 && k < 512
    ensures (k << 12) | (j << 21) | (i << 30) == (k << 12) + (j << 21) + (i << 30)
  {
    DisjointBitsAdd(k << 12, j << 21);
    DisjointBitsAdd((k << 12) | (j << 21), i << 30);
  }

  // ----- positions in the tree

  datatype Slot = Top | Mid(i: Index) | Low(i: Index, j: Index) | Leaf(i: Index, j: Index, k: Index)

  function LeafOf(v: VPage): Slot { Leaf(v.i, v.j, v.k) }

  function Child(p: Slot, x: Index): Slot
    requires !p.Leaf?
  {
    match p
    case Top => Mid(x)
    case Mid(i) => Low(i, x)
    case Low(i, j) => Leaf(i, j, x)
  }

  /** The tables the walk to `v` passes below the root. */
  predicate OnPath(v: VPage, s: Slot) { s == Mid(v.i) || s == Low(v.i, v.j) }

  predicate Backed(mem: Mem, f: Frame) { f in mem && |mem[f]| == 512 }

  function Read(mem: Mem, f: Frame, x: Index): Word {
    if Backed(mem, f) then mem[f][x] else 0
  }

  function Follow(mem: Mem, t: Option<Frame>, x: Index): Option<Frame> {
    if t.Some? then Decode(Read(mem, t.value, x)) else None
  }

  /** The frame at a position of the tree below `root`. */
  function At(mem: Mem, root: Frame, s: Slot): Option<Frame> {
    match s
    case Top => Some(root)
    case Mid(i) => Follow(mem, Some(root), i)
    case Low(i, j) => Follow(mem, Follow(mem, Some(root), i), j)
    case Leaf(i, j, k) => Follow(mem, Follow(mem, Follow(mem, Some(root), i), j), k)
  }

  /** Long-mode translation of a virtual page. */
  function Translate(mem: Mem, root: Frame, v: VPage): Option<Frame> {
    At(mem, root, LeafOf(v))
  }

  ghost predicate Owns(mem: Mem, root: Frame, f: Frame) {
    exists s :: At(mem, root, s) == Some(f)
  }

  ghost function Footprint(mem: Mem, root: Frame): set<Frame> {
    set f | f in mem && Owns(mem, root, f)
  }

  /** The map is a tree: every frame exists and no frame is at two positions. */
  ghost predicate Tree(mem: Mem, root: Frame) {
    && (forall s :: At(mem, root, s).Some? ==> Backed(mem, At(mem, root, s).value))
    && (forall s, t :: At(mem, root, s).Some? && At(mem, root, s) == At(mem, root, t) ==> s == t)
  }

  lemma ChildFollows(mem: Mem, root: Frame, p: Slot, x: Index)
    requires !p.Leaf?
    ensures At(mem, root, Child(p, x)) == Follow(mem, At(mem, root, p), x)
  {}

  /** A walk only reads frames of its own tree. */
  lemma SameFramesSameWalk(mem: Mem, mem': Mem, root: Frame)
    requires forall f :: Owns(mem, root, f) ==> (Backed(mem, f) <==> Backed(mem', f)) && (f in mem && f in mem' ==> mem[f] == mem'[f])
    ensures forall s :: At(mem', root, s) == At(mem, root, s)
  {
    forall f, x: Index | Owns(mem, root, f)
      ensures Read(mem', f, x) == Read(mem, f, x)
    {}
    forall s
      ensures At(mem', root, s) == At(mem, root, s)
    {
      assert At(mem, root, Top) == Some(root);
      match s {
        case Top =>
        case Mid(i) =>
        case Low(i, j) =>
          assert At(mem, root, Mid(i)).Some? ==> Owns(mem, root, At(mem, root, Mid(i)).value);
        case Leaf(i, j, k) =>
          assert At(mem, root, Mid(i)).Some? ==> Owns(mem, root, At(mem, root, Mid(i)).value);
          assert At(mem, root, Low(i, j)).Some? ==> Owns(mem, root, At(mem, root, Low(i, j)).value);
      }
    }
  }

  lemma SameFramesSameTree(mem: Mem, mem': Mem, root: Frame)
    requires Tree(mem, root)
    requires forall f :: Owns(mem, root, f) ==> f in mem' && mem[f] == mem'[f]
    ensures forall s :: At(mem', root, s) == At(mem, root, s)
    ensures Tree(mem', root)
    ensures forall f :: Owns(mem', root, f) <==> Owns(mem, root, f)
  {
    forall f: Frame | Owns(mem, root, f)
      ensures Backed(mem, f) && Backed(mem', f)
    {
      var s :| At(mem, root, s) == Some(f);
    }
    SameFramesSameWalk(mem, mem', root);
    forall s | At(mem', root, s).Some?
      ensures Backed(mem', At(mem', root, s).value)
    {
      assert Owns(mem, root, At(mem, root, s).value);
    }
  }

  // ----- one entry write

  predicate Under(c: Slot, s: Slot) {
    match c
    case Top => true
    case Mid(i) => !s.Top? && s.i == i
    case Low(i, j) => (s.Low? || s.Leaf?) && s.i == i && s.j == j
    case Leaf(_, _, _) => s == c
  }

  function Write(mem: Mem, f: Frame, x: Index, w: Word): (mem': Mem)
    requires Backed(mem, f)
    ensures mem'.Keys == mem.Keys
    ensures forall g :: g in mem ==> |mem'[g]| == |mem[g]| && (g != f ==> mem'[g] == mem[g])
  {
    var row: seq<Word> := mem[f][..x] + [w] + mem[f][x + 1..];
    mem[f := row]
  }

  lemma ReadWrite(mem: Mem, f: Frame, x: Index, w: Word)
    requires Backed(mem, f)
    ensures forall g, y: Index :: Read(Write(mem, f, x, w), g, y) == if g == f && y == x then w else Read(mem, g, y)
  {}

  /** Writing one entry of one table changes that position and what hangs below it, nothing else. */
  lemma WriteEntry(mem: Mem, root: Frame, p: Slot, x: Index, w: Word)
    requires Tree(mem, root) && !p.Leaf? && At(mem, root, p).Some?
    ensures var mem' := Write(mem, At(mem, root, p).value, x, w);
            && (forall s :: !Under(Child(p, x), s) ==> At(mem', root, s) == At(mem, root, s))
            && At(mem', root, Child(p, x)) == Decode(w)
  {
    var f := At(mem, root, p).value;
    var mem' := Write(mem, f, x, w);
    ReadWrite(mem, f, x, w);
    forall q: Slot, y: Index | !q.Leaf? && Child(q, y) != Child(p, x)
      ensures Follow(mem', At(mem, root, q), y) == Follow(mem, At(mem, root, q), y)
    {
      assert At(mem, root, q) == Some(f) ==> q == p;
    }
    forall s | !Under(Child(p, x), s)
      ensures At(mem', root, s) == At(mem, root, s)
    {
      WalkUnchanged(mem, mem', root, Child(p, x), s);
    }
    WalkUnchanged(mem, mem', root, Child(p, x), p);
    ChildFollows(mem', root, p, x);
  }

  lemma WalkUnchanged(mem: Mem, mem': Mem, root: Frame, c: Slot, s: Slot)
    requires !Under(c, s)
    requires forall q: Slot, y: Index :: !q.Leaf? && Child(q, y) != c ==> Follow(mem', At(mem, root, q), y) == Follow(mem, At(mem, root, q), y)
    ensures At(mem', root, s) == At(mem, root, s)
  {
    match s {
      case Top =>
      case Mid(i) =>
        assert Child(Top, i) == s;
      case Low(i, j) =>
        assert Child(Top, i) == Mid(i) && Child(Mid(i), j) == s;
        assert Follow(mem', At(mem, root, Top), i) == Follow(mem, At(mem, root, Top), i);
      case Leaf(i, j, k) =>
        assert Child(Top, i) == Mid(i) && Child(Mid(i), j) == Low(i, j) && Child(Low(i, j), k) == s;
        assert Follow(mem', At(mem, root, Top), i) == Follow(mem, At(mem, root, Top), i);
        assert Follow(mem', At(mem, root, Mid(i)), j) == Follow(mem, At(mem, root, Mid(i)), j);
    }
  }

  /** Nothing is reachable below an absent position or below an all-zero table. */
  lemma NothingBelow(mem: Mem, root: Frame, c: Slot, s: Slot)
    requires Under(c, s) && s != c
    requires At(mem, root, c).None? || (forall y: Index :: Follow(mem, At(mem, root, c), y) == None)
    ensures At(mem, root, s) == None
  {
    match s {
      case Top =>
      case Mid(_) =>
      case Low(i, j) =>
        assert c == Mid(i) || c == Top;
      case Leaf(i, j, k) =>
        assert c == Mid(i) || c == Low(i, j) || c == Top;
    }
  }

  /** Hanging a frame that is not part of the tree below table `p`: exactly that position changes
      and the tree stays a tree. A new table has to be all zero and go to an empty position; a
      page may replace another page. */
  lemma Attach(mem: Mem, root: Frame, p: Slot, x: Index, g: Frame)
    requires Tree(mem, root) && !p.Leaf? && At(mem, root, p).Some?
    requires Backed(mem, g) && g < MAX_FRAME && !Owns(mem, root, g)
    requires p.Low? || (At(mem, root, Child(p, x)).None? && mem[g] == ZEROS)
    ensures var mem' := Write(mem, At(mem, root, p).value, x, Entry(g));
            && (forall s :: At(mem', root, s) == if s == Child(p, x) then Some(g) else At(mem, root, s))
            && Tree(mem', root)
  {
    var f := At(mem, root, p).value;
    var c := Child(p, x);
    var mem' := Write(mem, f, x, Entry(g));
    DecodeEntry(g);
    WriteEntry(mem, root, p, x, Entry(g));
    assert Owns(mem, root, f);
    forall s
      ensures At(mem', root, s) == if s == c then Some(g) else At(mem, root, s)
    {
      if Under(c, s) && s != c {
        assert !p.Low?;
        forall y: Index
          ensures Follow(mem', At(mem', root, c), y) == None
        {
          assert mem'[g][y] == 0;
        }
        NothingBelow(mem', root, c, s);
        NothingBelow(mem, root, c, s);
      }
    }
    forall s, t | At(mem', root, s).Some? && At(mem', root, s) == At(mem', root, t)
      ensures s == t
    {
      assert At(mem, root, s) != Some(g) && At(mem, root, t) != Some(g);
    }
  }

  /** Clearing a page entry removes exactly that page. */
  lemma Detach(mem: Mem, root: Frame, p: Slot, x: Index)
    requires Tree(mem, root) && p.Low? && At(mem, root, p).Some?
    ensures var mem' := Write(mem, At(mem, root, p).value, x, 0);
            && (forall s :: At(mem', root, s) == if s == Child(p, x) then None else At(mem, root, s))
            && Tree(mem', root)
  {
    DecodeEntry(0);
    WriteEntry(mem, root, p, x, 0);
  }
}
