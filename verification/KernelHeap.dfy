/** The kernel heap: first-fit allocation from a free list that grows at `pos`, with the size
    of every live block stored in a 64-byte header in front of it.
 */
module KernelHeap {
  import opened Wrappers
  import opened Sequences
  import opened FreeList

  const HEAP_BASE: nat := 0xFFFF_FF00_0000_0000
  const HEADER: nat := 64
  const PAGE: nat := 4096

  /** `live` maps the base of every block handed out and not yet freed to its size. */
  datatype Heap = Heap(segs: seq<Segment>, pos: nat, live: map<nat, nat>)

  const EMPTY := Heap([], HEAP_BASE, map[])

  function BlockSize(request: nat): (size: nat)
    ensures size % 64 == 0 && request + HEADER <= size < request + HEADER + 64
  {
    (request + 63) / 64 * 64 + 64
  }

  function Pages(size: nat): (n: nat)
    ensures size <= n * PAGE < size + PAGE
  {
    (size + 4095) / 4096
  }

  function Block(h: Heap, b: nat): Segment
    requires b in h.live
  {
    Segment(b, h.live[b])
  }

  ghost predicate InLive(h: Heap, a: int) {
    exists b :: b in h.live && Block(h, b).Contains(a)
  }

  predicate Aligned(s: Segment) { OnGrid(s, 64) }

  /** Every address of the heap is either free or in a live block. */
  ghost predicate Parted(h: Heap) {
    && (forall a :: HEAP_BASE <= a < h.pos <==> Covered(h.segs, a) || InLive(h, a))
    && (forall a :: InLive(h, a) ==> !Covered(h.segs, a))
  }

  /** Free segments and live blocks partition [HEAP_BASE, pos), all in units of 64 bytes. */
  ghost predicate Inv(h: Heap) {
    && Canonical(h.segs)
    && HEAP_BASE <= h.pos && h.pos % PAGE == 0
    && AllOnGrid(h.segs, 64)
    && (forall b :: b in h.live ==> Aligned(Block(h, b)))
    && Parted(h)
    && (forall b, c :: b in h.live && c in h.live && b != c ==> Disjoint(Block(h, b), Block(h, c)))
  }

  function Reserved(h: Heap, size: nat): Heap {
    h.(segs := Freed(h.segs, h.pos, Pages(size) * PAGE), pos := h.pos + Pages(size) * PAGE)
  }

  /** The heap in which the second search succeeds. */
  function Ready(h: Heap, size: nat): Heap {
    if FirstFit(h.segs, size, 0) < |h.segs| then h else Reserved(h, size)
  }

  /** Heap after Allocate(request), and the base of the new block; the caller gets base + HEADER. */
  function Allocated(h: Heap, request: nat): (r: (Heap, nat))
    requires Inv(h)
  {
    var size := BlockSize(request);
    ReadyFits(h, size);
    Placed(Ready(h, size), size)
  }

  /** The first segment that fits gives its front to a new block. */
  function Placed(h: Heap, size: nat): (Heap, nat)
    requires FirstFit(h.segs, size, 0) < |h.segs|
  {
    var i := FirstFit(h.segs, size, 0);
    var base := h.segs[i].base;
    (Heap(Used(h.segs, i, size), h.pos, h.live[base := size]), base)
  }

  function Released(h: Heap, base: nat): Heap
    requires base in h.live
  {
    Heap(Freed(h.segs, base, h.live[base]), h.pos, h.live - {base})
  }

  // ----- each operation keeps the partition

  lemma ReservedAligned(pos: nat, size: nat)
    requires pos % PAGE == 0 && size > 0
    ensures Aligned(Segment(pos, Pages(size) * PAGE)) && (pos + Pages(size) * PAGE) % PAGE == 0
  {
    var q, n := pos / 4096, Pages(size);
    assert pos == 64 * (64 * q) && n * PAGE == 64 * (64 * n);
    Multiple(64 * q, 64);
    Multiple(64 * n, 64);
    assert pos + n * PAGE == 4096 * (q + n);
    Multiple(q + n, 4096);
  }

  lemma Multiple(k: nat, m: nat)
    requires m == 64 || m == 4096
    ensures (m * k) % m == 0
  {}

  lemma RequestFits(base: nat, request: nat)
    requires base % 64 == 0
    ensures (base + HEADER) % 64 == 0 && HEADER + request <= BlockSize(request) && BlockSize(request) % 64 == 0
  {}

  lemma ReservedKeeps(h: Heap, size: nat)
    requires Inv(h) && size > 0
    ensures Inv(Reserved(h, size))
    ensures exists s :: s in Reserved(h, size).segs && s.size >= size
  {
    var n := Pages(size) * PAGE;
    ReservedAligned(h.pos, size);
    assert NotFree(h.segs, Segment(h.pos, n));
    FreedGains(h.segs, h.pos, n);
    FreedOnGrid(h.segs, h.pos, n, 64);
    var h' := Reserved(h, size);
    assert forall a :: InLive(h', a) <==> InLive(h, a);
    var s := IntervalHasSegment(h'.segs, h.pos, h.pos + n);
    assert forall b :: b in h.live ==> Block(h', b) == Block(h, b);
  }

  /** The search after ReserveNew always succeeds. */
  lemma ReadyFits(h: Heap, size: nat)
    requires Inv(h) && size > 0
    ensures Inv(Ready(h, size)) && Ready(h, size).live == h.live
    ensures FirstFit(Ready(h, size).segs, size, 0) < |Ready(h, size).segs|
  {
    if FirstFit(h.segs, size, 0) == |h.segs| {
      ReservedKeeps(h, size);
    }
  }

  /** Turning the front of a free segment into a live block keeps the partition. */
  lemma TakeKeeps(h: Heap, i: nat, size: nat)
    requires Inv(h) && i < |h.segs| && 64 <= size <= h.segs[i].size && size % 64 == 0
    ensures h.segs[i].base !in h.live && h.segs[i].base % 64 == 0
    ensures Inv(Heap(Used(h.segs, i, size), h.pos, h.live[h.segs[i].base := size]))
  {
    var seg := h.segs[i];
    var block := Segment(seg.base, size);
    var h' := Heap(Used(h.segs, i, size), h.pos, h.live[seg.base := size]);
    assert seg in h.segs && Aligned(seg);
    UsedOnGrid(h.segs, i, size, 64);
    TakenFromFree(h, seg, size);
    TakenParted(h, h', i, size);
    NewBlocks(h, h', block);
  }

  lemma TakenParted(h: Heap, h': Heap, i: nat, size: nat)
    requires Canonical(h.segs) && Parted(h) && i < |h.segs| && size <= h.segs[i].size
    requires h.segs[i].base !in h.live
    requires h' == Heap(Used(h.segs, i, size), h.pos, h.live[h.segs[i].base := size])
    ensures Canonical(h'.segs) && Parted(h')
  {
    var seg := h.segs[i];
    var block := Segment(seg.base, size);
    UsedLoses(h.segs, i, size);
    NewBlock(h, h', block);
    forall a
      ensures block.Contains(a) ==> Covered(h.segs, a)
      ensures Covered(h'.segs, a) <==> Covered(h.segs, a) && !block.Contains(a)
    {
      assert seg in h.segs && (block.Contains(a) ==> seg.Contains(a));
    }
  }

  lemma NewBlocks(h: Heap, h': Heap, block: Segment)
    requires block.base !in h.live && h'.live == h.live[block.base := block.size]
    requires forall b, c :: b in h.live && c in h.live && b != c ==> Disjoint(Block(h, b), Block(h, c))
    requires forall b :: b in h.live ==> Disjoint(Block(h, b), block)
    requires forall b :: b in h.live ==> Aligned(Block(h, b))
    requires Aligned(block)
    ensures forall b, c :: b in h'.live && c in h'.live && b != c ==> Disjoint(Block(h', b), Block(h', c))
    ensures forall b :: b in h'.live ==> Aligned(Block(h', b))
  {
    assert forall b :: b in h'.live ==> Block(h', b) == if b == block.base then block else Block(h, b);
  }

  lemma NewBlock(h: Heap, h': Heap, block: Segment)
    requires block.base !in h.live && h'.live == h.live[block.base := block.size]
    ensures forall a :: InLive(h', a) <==> InLive(h, a) || block.Contains(a)
  {
    forall a
      ensures InLive(h', a) <==> InLive(h, a) || block.Contains(a)
    {
      if InLive(h, a) {
        var b :| b in h.live && Block(h, b).Contains(a);
        assert Block(h', b).Contains(a);
      }
      if block.Contains(a) {
        assert Block(h', block.base).Contains(a);
      }
      if InLive(h', a) && !block.Contains(a) {
        var b :| b in h'.live && Block(h', b).Contains(a);
        assert Block(h, b).Contains(a);
      }
    }
  }

  /** Allocate keeps the partition; the new block is new, large enough and 64-byte aligned. */
  lemma AllocatedKeeps(h: Heap, request: nat)
    requires Inv(h)
    ensures var (h', base) := Allocated(h, request);
            && Inv(h')
            && base !in h.live && h'.live == h.live[base := BlockSize(request)]
            && h'.pos >= h.pos
            && (base + HEADER) % 64 == 0 && base + HEADER + request <= base + BlockSize(request)
  {
    var size := BlockSize(request);
    ReadyFits(h, size);
    PlacedKeeps(Ready(h, size), size);
    RequestFits(Placed(Ready(h, size), size).1, request);
  }

  lemma PlacedKeeps(h: Heap, size: nat)
    requires Inv(h) && 64 <= size && size % 64 == 0 && FirstFit(h.segs, size, 0) < |h.segs|
    ensures var (h', base) := Placed(h, size);
            && Inv(h')
            && base !in h.live && h'.live == h.live[base := size]
            && h'.pos == h.pos && base % 64 == 0
  {
    TakeKeeps(h, FirstFit(h.segs, size, 0), size);
  }

  lemma TakenFromFree(h: Heap, seg: Segment, size: nat)
    requires Inv(h) && seg in h.segs && 0 < size <= seg.size
    ensures forall b :: b in h.live ==> Disjoint(Block(h, b), Segment(seg.base, size))
    ensures seg.base !in h.live
  {
    forall b | b in h.live
      ensures Disjoint(Block(h, b), Segment(seg.base, size))
    {
      var s := Block(h, b);
      var a := if s.base < seg.base then seg.base else s.base;
      assert s.Contains(a) && seg.Contains(a) ==> InLive(h, a) && Covered(h.segs, a);
    }
    assert forall b :: b in h.live ==> Aligned(Block(h, b));
  }

  lemma LiveNotFree(h: Heap, base: nat)
    requires Inv(h) && base in h.live
    ensures NotFree(h.segs, Block(h, base)) && Aligned(Block(h, base))
  {
    assert forall a :: Block(h, base).Contains(a) ==> InLive(h, a);
  }

  /** Free of a live block keeps the partition. */
  lemma ReleasedKeeps(h: Heap, base: nat)
    requires Inv(h) && base in h.live
    ensures Inv(Released(h, base))
  {
    var block := Block(h, base);
    LiveNotFree(h, base);
    FreedOnGrid(h.segs, block.base, block.size, 64);
    ReleasedParted(h, base);
    FewerBlocks(h, Released(h, base), base);
  }

  lemma FewerBlocks(h: Heap, h': Heap, base: nat)
    requires base in h.live && h'.live == h.live - {base}
    requires forall b, c :: b in h.live && c in h.live && b != c ==> Disjoint(Block(h, b), Block(h, c))
    requires forall b :: b in h.live ==> Aligned(Block(h, b))
    ensures forall b, c :: b in h'.live && c in h'.live && b != c ==> Disjoint(Block(h', b), Block(h', c))
    ensures forall b :: b in h'.live ==> Aligned(Block(h', b))
  {
    forall b, c | b in h'.live && c in h'.live && b != c
      ensures Disjoint(Block(h', b), Block(h', c))
    {
      assert Disjoint(Block(h, b), Block(h, c));
    }
    forall b | b in h'.live
      ensures Aligned(Block(h', b))
    {
      assert Aligned(Block(h, b));
    }
  }

  lemma ReleasedParted(h: Heap, base: nat)
    requires Canonical(h.segs) && Parted(h) && base in h.live && h.live[base] > 0
    requires NotFree(h.segs, Block(h, base))
    requires forall b :: b in h.live && b != base ==> Disjoint(Block(h, b), Block(h, base))
    ensures Canonical(Released(h, base).segs) && Parted(Released(h, base))
  {
    var h' := Released(h, base);
    FreedGains(h.segs, base, h.live[base]);
    DeadBlock(h, h', base);
    assert forall a :: Block(h, base).Contains(a) <==> base <= a < base + h.live[base];
  }

  lemma DeadBlock(h: Heap, h': Heap, base: nat)
    requires base in h.live && h'.live == h.live - {base}
    requires forall b :: b in h.live && b != base ==> Disjoint(Block(h, b), Block(h, base))
    ensures forall a :: InLive(h, a) <==> InLive(h', a) || Block(h, base).Contains(a)
    ensures forall a :: InLive(h', a) ==> !Block(h, base).Contains(a)
  {
    forall a
      ensures InLive(h, a) <==> InLive(h', a) || Block(h, base).Contains(a)
      ensures InLive(h', a) ==> !Block(h, base).Contains(a)
    {
      if InLive(h, a) && !Block(h, base).Contains(a) {
        var b :| b in h.live && Block(h, b).Contains(a);
        assert b in h'.live && Block(h', b).Contains(a);
      }
      if InLive(h', a) {
        var b :| b in h'.live && Block(h', b).Contains(a);
        assert Block(h, b).Contains(a) && Disjoint(Block(h, b), Block(h, base));
      }
    }
  }

  // ----- whole runs

  /** Free(0) is the null pointer; any other argument is a pointer Allocate returned. */
  datatype Op = Alloc(request: nat) | Free(ptr: nat)

  predicate Legal(h: Heap, op: Op) {
    match op
    case Alloc(_) => true
    case Free(p) => p == 0 || (p >= HEADER && p - HEADER in h.live)
  }

  function Step(h: Heap, op: Op): Heap
    requires Inv(h) && Legal(h, op)
  {
    match op
    case Alloc(n) => Allocated(h, n).0
    case Free(p) => if p == 0 then h else Released(h, p - HEADER)
  }

  /** `trace` is the sequence of heaps a run of `ops` goes through, from the empty heap. */
  ghost predicate IsRun(ops: seq<Op>, trace: seq<Heap>) {
    && |trace| == |ops| + 1
    && trace[0] == EMPTY
    && forall i :: 0 <= i < |ops| ==>
         Inv(trace[i]) ==> Legal(trace[i], ops[i]) && trace[i + 1] == Step(trace[i], ops[i])
  }

  /** In every run, after every operation, the partition holds. */
  lemma {:induction false} RunKeepsPartition(ops: seq<Op>, trace: seq<Heap>, k: nat)
    requires IsRun(ops, trace) && k <= |ops|
    ensures Inv(trace[k])
  {
    if k > 0 {
      RunKeepsPartition(ops, trace, k - 1);
      var h, op := trace[k - 1], ops[k - 1];
      match op {
        case Alloc(n) => AllocatedKeeps(h, n);
        case Free(p) => if p != 0 { ReleasedKeeps(h, p - HEADER); }
      }
    }
  }

  /** Once every block is freed the heap is one single segment again (or was never used). */
  lemma AllFreedIsOneSegment(ops: seq<Op>, trace: seq<Heap>, k: nat)
    requires IsRun(ops, trace) && k <= |ops| && trace[k].live == map[]
    ensures var h := trace[k];
            h.pos >= HEAP_BASE &&
            h.segs == if h.pos == HEAP_BASE then [] else [Segment(HEAP_BASE, h.pos - HEAP_BASE)]
  {
    RunKeepsPartition(ops, trace, k);
    var h := trace[k];
    assert forall a :: !InLive(h, a);
    if h.pos == HEAP_BASE {
      NothingCovered(h.segs);
    } else {
      OneIntervalOneSegment(h.segs, HEAP_BASE, h.pos);
    }
  }

  // ----- what the operations do, address by address

  /** Free of a pointer: its block is no longer live, exactly its addresses become free, and nothing
      else changes; Free of the null pointer changes nothing. */
  lemma FreeEffect(h: Heap, ptr: nat)
    requires Inv(h) && Legal(h, Free(ptr))
    ensures ptr == 0 ==> Step(h, Free(ptr)) == h
    ensures ptr != 0 ==>
              var h', b := Step(h, Free(ptr)), ptr - HEADER;
              && h'.live == h.live - {b} && h'.pos == h.pos
              && forall a :: Covered(h'.segs, a) <==> Covered(h.segs, a) || b <= a < b + h.live[b]
  {
    if ptr != 0 {
      var b := ptr - HEADER;
      LiveNotFree(h, b);
      FreedGains(h.segs, b, h.live[b]);
    }
  }

  /** Some free segment has room for `size` bytes. */
  predicate HasRoom(h: Heap, size: nat) { exists s :: s in h.segs && s.size >= size }

  /** Allocate: one new live block of the rounded size, whose addresses are no longer free; the heap
      grows only if no free segment has room, and then by as few pages as hold the block. */
  lemma AllocEffect(h: Heap, request: nat)
    requires Inv(h)
    ensures var h', b, size := Step(h, Alloc(request)), Allocated(h, request).1, BlockSize(request);
            && b !in h.live && h'.live == h.live[b := size]
            && h'.pos == (if HasRoom(h, size) then h.pos else h.pos + (size + 4095) / 4096 * 4096)
            && (forall a :: b <= a < b + size ==> Covered(h.segs, a) || h.pos <= a < h'.pos)
            && (forall a :: Covered(h'.segs, a) <==> (Covered(h.segs, a) || h.pos <= a < h'.pos) && !(b <= a < b + size))
  {
    var size := BlockSize(request);
    ReadyFits(h, size);
    AllocatedKeeps(h, request);
    ReadyEffect(h, size);
    PlacedEffect(Ready(h, size), size);
  }

  lemma ReadyEffect(h: Heap, size: nat)
    requires Inv(h) && size > 0
    ensures var h' := Ready(h, size);
            && h'.live == h.live
            && h'.pos == (if HasRoom(h, size) then h.pos else h.pos + (size + 4095) / 4096 * 4096)
            && forall a :: Covered(h'.segs, a) <==> Covered(h.segs, a) || h.pos <= a < h'.pos
  {
    var i := FirstFit(h.segs, size, 0);
    if i < |h.segs| {
      assert h.segs[i] in h.segs;
    } else {
      ReservedAligned(h.pos, size);
      assert NotFree(h.segs, Segment(h.pos, Pages(size) * PAGE));
      FreedGains(h.segs, h.pos, Pages(size) * PAGE);
    }
  }

  lemma PlacedEffect(h: Heap, size: nat)
    requires Inv(h) && FirstFit(h.segs, size, 0) < |h.segs|
    ensures var (h', b) := Placed(h, size);
            && (forall a :: b <= a < b + size ==> Covered(h.segs, a))
            && (forall a :: Covered(h'.segs, a) <==> Covered(h.segs, a) && !(b <= a < b + size))
  {
    var i := FirstFit(h.segs, size, 0);
    UsedLoses(h.segs, i, size);
    forall a | h.segs[i].base <= a < h.segs[i].base + size
      ensures Covered(h.segs, a)
    {
      assert h.segs[i].Contains(a);
    }
  }

  /** First fit: with room, the block starts where the first free segment starts that is large enough. */
  lemma AllocIsFirstFit(h: Heap, request: nat, k: nat)
    requires Inv(h) && k < |h.segs| && h.segs[k].size >= BlockSize(request)
    requires forall j :: 0 <= j < k ==> h.segs[j].size < BlockSize(request)
    ensures Allocated(h, request).1 == h.segs[k].base
  {
    assert FirstFit(h.segs, BlockSize(request), 0) == k;
    ReadyFits(h, BlockSize(request));
  }

  /** A block is live after an operation if it was allocated by it, or was live and was not freed by it. */
  lemma LiveAfter(h: Heap, op: Op, b: nat)
    requires Inv(h) && Legal(h, op)
    ensures b in Step(h, op).live <==>
              (op.Alloc? && Allocated(h, op.request).1 == b) || (op != Free(b + HEADER) && b in h.live)
  {
    if op.Alloc? { AllocEffect(h, op.request); } else { FreeEffect(h, op.ptr); }
  }

  /** None of the operations from `i` to before `k` takes the block back. */
  predicate Kept(ops: seq<Op>, i: nat, k: nat, b: nat) {
    k <= |ops| && forall j :: i <= j < k ==> ops[j] != Free(b + HEADER)
  }

  /** The block was given by one of the first `k` operations and not freed since. */
  ghost predicate InUse(gave: nat -> bool, ops: seq<Op>, k: nat, b: nat) {
    exists i: nat :: gave(i) && i < k && Kept(ops, i + 1, k, b)
  }

  lemma InUseNext(gave: nat -> bool, ops: seq<Op>, k: nat, b: nat)
    requires 0 < k <= |ops|
    ensures InUse(gave, ops, k, b) <==> gave(k - 1) || (ops[k - 1] != Free(b + HEADER) && InUse(gave, ops, k - 1, b))
  {
    if InUse(gave, ops, k - 1, b) && ops[k - 1] != Free(b + HEADER) {
      var i: nat :| gave(i) && i < k - 1 && Kept(ops, i + 1, k - 1, b);
      assert Kept(ops, i + 1, k, b);
    }
    if InUse(gave, ops, k, b) && !gave(k - 1) {
      var i: nat :| gave(i) && i < k && Kept(ops, i + 1, k, b);
      assert Kept(ops, i + 1, k - 1, b);
    }
    if gave(k - 1) { assert Kept(ops, k, k, b); }
  }

  /** Operation `i` of the run allocated the block at `b`. */
  ghost function Gave(ops: seq<Op>, trace: seq<Heap>, b: nat): nat -> bool {
    (i: nat) => i < |ops| && i < |trace| && ops[i].Alloc? && Inv(trace[i]) && Allocated(trace[i], ops[i].request).1 == b
  }

  lemma RunStep(ops: seq<Op>, trace: seq<Heap>, k: nat)
    requires IsRun(ops, trace) && k < |ops|
    ensures Inv(trace[k]) && Legal(trace[k], ops[k]) && trace[k + 1] == Step(trace[k], ops[k])
  {
    RunKeepsPartition(ops, trace, k);
    var h, op, h' := trace[k], ops[k], trace[k + 1];
    assert Legal(h, op) && h' == Step(h, op);
  }

  lemma RunLiveAfter(ops: seq<Op>, trace: seq<Heap>, k: nat, b: nat)
    requires IsRun(ops, trace) && k < |ops|
    ensures b in trace[k + 1].live <==> Gave(ops, trace, b)(k) || (ops[k] != Free(b + HEADER) && b in trace[k].live)
  {
    RunStep(ops, trace, k);
    LiveAfter(trace[k], ops[k], b);
  }

  /** In every run a block is live if and only if it was allocated and not freed since. */
  lemma {:induction false} RunLiveIff(ops: seq<Op>, trace: seq<Heap>, k: nat, b: nat)
    requires IsRun(ops, trace) && k <= |ops|
    ensures b in trace[k].live <==> InUse(Gave(ops, trace, b), ops, k, b)
  {
    if k > 0 {
      RunLiveIff(ops, trace, k - 1, b);
      RunLiveAfter(ops, trace, k - 1, b);
      InUseNext(Gave(ops, trace, b), ops, k, b);
    }
  }

  /** Every block the run allocates is freed later in the run. */
  ghost predicate FreesAll(ops: seq<Op>, trace: seq<Heap>) {
    forall i: nat, b: nat :: Gave(ops, trace, b)(i) ==> !Kept(ops, i + 1, |ops|, b)
  }

  /** Such a run ends with one single free segment, or was never given memory. */
  lemma RunFreesAll(ops: seq<Op>, trace: seq<Heap>)
    requires IsRun(ops, trace) && FreesAll(ops, trace)
    ensures var h := trace[|ops|];
            h.pos >= HEAP_BASE && h.segs == if h.pos == HEAP_BASE then [] else [Segment(HEAP_BASE, h.pos - HEAP_BASE)]
  {
    var h := trace[|ops|];
    forall b | b in h.live
      ensures false
    {
      var n: nat := |ops|;
      RunLiveIff(ops, trace, n, b);
    }
    assert h.live == map[];
    AllFreedIsOneSegment(ops, trace, |ops|);
  }

  // ----- the allocator object

  class Allocator {
    const list: List
    var pos: nat
    var headers: map<nat, nat>        // the size words in front of the blocks
    ghost var live: map<nat, nat>

    ghost function Abs(): Heap
      reads this, list
    {
      Heap(list.segs, pos, live)
    }

    ghost predicate Valid()
      reads this, list
    {
      Inv(Abs()) && forall b :: b in live ==> b in headers && headers[b] == live[b]
    }

    constructor ()
      ensures Valid() && Abs() == EMPTY && fresh(list)
    {
      list := new List();
      pos, headers, live := HEAP_BASE, map[], map[];
    }

    method ReserveNew(size: nat)
      requires Valid() && size > 0
      modifies this`pos, list
      ensures Valid() && Abs() == Reserved(old(Abs()), size)
    {
      ReservedKeeps(Abs(), size);
      var pages := (size + 4095) / 4096;
      assert NotFree(list.segs, Segment(pos, pages * PAGE));
      list.MarkFree(pos, pages * PAGE);
      pos := pos + pages * PAGE;
    }

    /** FindFree, with ReserveNew and a second search when the first one fails. */
    method FindOrReserve(size: nat) returns (base: nat, ghost i: nat)
      requires Valid() && size > 0
      modifies this`pos, list
      ensures Valid() && Abs() == Ready(old(Abs()), size)
      ensures i == FirstFit(list.segs, size, 0) && i < |list.segs| && base == list.segs[i].base
    {
      ReadyFits(Abs(), size);
      var g := list.FindFree(size);
      if g.None? {
        ReserveNew(size);
        g := list.FindFree(size);
      }
      i := FirstFit(list.segs, size, 0);
      base := g.value;
    }

    method Allocate(request: nat) returns (ptr: nat)
      requires Valid()
      modifies this, list
      ensures Valid()
      ensures Abs() == Allocated(old(Abs()), request).0 && ptr == Allocated(old(Abs()), request).1 + HEADER
    {
      AllocatedKeeps(Abs(), request);
      var size := (request + 63) / 64 * 64 + 64;
      var base, i := FindOrReserve(size);
      list.MarkUsed(base, size, i);
      headers := headers[base := size];
      live := live[base := size];
      ptr := base + HEADER;
    }

    method Free(ptr: nat)
      requires Valid() && Legal(Abs(), Op.Free(ptr))
      modifies this`live, list
      ensures Valid() && Abs() == Step(old(Abs()), Op.Free(ptr))
    {
      if ptr == 0 { return; }
      var base := ptr - HEADER;
      ReleasedKeeps(Abs(), base);
      var size := headers[base];
      LiveNotFree(Abs(), base);
      list.MarkFree(base, size);
      live := live - {base};
    }
  }
}
