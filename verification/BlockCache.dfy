/** Cached block devices: reads and writes of any range go through cached blocks, and together
    they behave as a flat array of bytes. The device itself is only read, one block at a time.
 */
module BlockCache {
  import opened Wrappers

  datatype Error = InvalidBuffer

  // ----- blocks of a byte array

  /** Where block `b` starts: Start(b, size), in a form that is easy to count with. */
  function Start(b: nat, size: nat): nat { if b == 0 then 0 else Start(b - 1, size) + size }

  lemma {:induction false} StartIsProduct(b: nat, size: nat)
    ensures Start(b, size) == b * size
  {
    if b > 0 {
      StartIsProduct(b - 1, size);
      assert (b - 1) * size + size == b * size;
    }
  }

  lemma {:induction false} BlocksApart(b: nat, c: nat, size: nat)
    requires b < c
    ensures Start(b, size) + size <= Start(c, size)
  {
    if b + 1 < c { BlocksApart(b, c - 1, size); }
  }

  predicate HasBlock(n: nat, b: nat, size: nat) { Start(b, size) + size <= n }

  function Slice(s: seq<Byte>, b: nat, size: nat): (r: seq<Byte>)
    requires HasBlock(|s|, b, size)
    ensures |r| == size
  {
    s[Start(b, size)..Start(b, size) + size]
  }

  function Overwritten(s: seq<Byte>, pos: nat, data: seq<Byte>): (r: seq<Byte>)
    requires pos + |data| <= |s|
    ensures |r| == |s|
    ensures forall x {:trigger r[x]} :: 0 <= x < |s| ==> r[x] == if pos <= x < pos + |data| then data[x - pos] else s[x]
  {
    s[..pos] + data + s[pos + |data|..]
  }

  /** A write inside block `b` changes that block and no other. */
  lemma WriteInBlock(s: seq<Byte>, b: nat, size: nat, offs: nat, data: seq<Byte>, c: nat)
    requires HasBlock(|s|, b, size) && HasBlock(|s|, c, size) && offs + |data| <= size
    ensures Start(b, size) + offs + |data| <= |s|
    ensures var s' := Overwritten(s, Start(b, size) + offs, data);
            Slice(s', c, size) == if c == b then Overwritten(Slice(s, b, size), offs, data) else Slice(s, c, size)
  {
    if c < b { BlocksApart(c, b, size); }
    if b < c { BlocksApart(b, c, size); }
    var lo, clo := Start(b, size), Start(c, size);
    if c == b { WriteInside(s, lo, size, offs, data); } else { WriteOutside(s, clo, size, lo + offs, data); }
  }

  lemma WriteInside(s: seq<Byte>, lo: nat, size: nat, offs: nat, data: seq<Byte>)
    requires lo + size <= |s| && offs + |data| <= size
    ensures Overwritten(s, lo + offs, data)[lo..lo + size] == Overwritten(s[lo..lo + size], offs, data)
  {}

  lemma WriteOutside(s: seq<Byte>, lo: nat, size: nat, pos: nat, data: seq<Byte>)
    requires lo + size <= |s| && pos + |data| <= |s| && (pos + |data| <= lo || lo + size <= pos)
    ensures Overwritten(s, pos, data)[lo..lo + size] == s[lo..lo + size]
  {}

  lemma SubSlice(s: seq<Byte>, lo: nat, size: nat, offs: nat, n: nat)
    requires lo + size <= |s| && offs + n <= size
    ensures s[lo..lo + size][offs..offs + n] == s[lo + offs..lo + offs + n]
  {
    var whole := s[lo..lo + size];
    var part := whole[offs..offs + n];
    assert forall k :: 0 <= k < n ==> part[k] == whole[offs + k];
  }

  lemma SliceAt(s: seq<Byte>, b: nat, size: nat, offs: nat, n: nat)
    requires HasBlock(|s|, b, size) && offs + n <= size
    ensures Start(b, size) + offs + n <= |s|
    ensures Slice(s, b, size)[offs..offs + n] == s[Start(b, size) + offs..Start(b, size) + offs + n]
  {
    SubSlice(s, Start(b, size), size, offs, n);
  }

  lemma WriteOn(s: seq<Byte>, pos: nat, data: seq<Byte>, n: nat, m: nat)
    requires n + m <= |data| && pos + n + m <= |s|
    ensures Overwritten(Overwritten(s, pos, data[..n]), pos + n, data[n..][..m]) == Overwritten(s, pos, data[..n + m])
  {}

  lemma ReadOn(s: seq<Byte>, pos: nat, n: nat, m: nat)
    requires pos + n + m <= |s|
    ensures s[pos..pos + n] + s[pos + n..pos + n + m] == s[pos..pos + n + m]
  {}

  /** The loop is at block `b` and at position `pos` in it, or done. */
  predicate Cursor(b: nat, last: nat, size: nat, pos: nat, end: nat) {
    if b <= last then Start(b, size) <= pos < Start(b, size) + size && pos <= end else pos == end
  }

  /** GetBlocks is at block `b` and has read the first `done` bytes. */
  predicate Got(s: seq<Byte>, pos: nat, len: nat, acc: nat, last: nat, size: nat, b: nat, done: nat, out: seq<Byte>) {
    && done <= len && done <= acc && pos + len <= |s| && b <= last + 1
    && Cursor(b, last, size, pos + done, pos + len) && out == s[pos..pos + done]
  }

  /** After one more block, or after the part of it that the caller's buffer has room for. */
  lemma GotNext(s: seq<Byte>, pos: nat, len: nat, acc: nat, last: nat, size: nat, b: nat, done: nat, out: seq<Byte>, rem: nat, part: seq<Byte>)
    requires Got(s, pos, len, acc, last, size, b, done, out) && b <= last && done + rem <= len
    requires Cursor(b + 1, last, size, pos + done + rem, pos + len)
    requires part == s[pos + done..pos + done + Min(rem, acc - done)]
    ensures if done + rem <= acc then Got(s, pos, len, acc, last, size, b + 1, done + rem, out + part)
            else acc < len && out + part == s[pos..pos + acc]
  {
    ReadOn(s, pos, done, |part|);
  }

  /** Each round but the last goes to the end of its block, the last one to the end of the range. */
  lemma Advance(n: nat, b: nat, last: nat, size: nat, pos: nat, end: nat)
    requires b <= last && Cursor(b, last, size, pos, end) && HasBlock(n, last, size)
    requires Start(last, size) <= end < Start(last, size) + size
    ensures HasBlock(n, b, size)
    ensures Cursor(b + 1, last, size, pos + Min(Start(b, size) + size - pos, end - pos), end)
  {
    if b < last { BlocksApart(b, last, size); }
  }

  lemma DivBounds(x: nat, size: nat)
    requires size > 0
    ensures Start(x / size, size) <= x < Start(x / size, size) + size
  {
    StartIsProduct(x / size, size);
    assert x == (x / size) * size + x % size;
  }

  // ----- what the calls do to the flat bytes

  type Flat = seq<seq<Byte>>

  datatype Op = Set(dev: nat, pos: nat, data: seq<Byte>, acc: nat) | Get(dev: nat, pos: nat, len: nat, acc: nat)

  /** The blocks a call touches exist; when the range ends on a block boundary this includes one
      block behind it. */
  predicate InRange(flat: Flat, sizes: seq<nat>, dev: nat, pos: nat, len: nat) {
    && dev < |flat| && dev < |sizes| && sizes[dev] > 0
    && HasBlock(|flat[dev]|, (pos + len) / sizes[dev], sizes[dev])
  }

  lemma InRangeFits(flat: Flat, sizes: seq<nat>, dev: nat, pos: nat, len: nat)
    requires InRange(flat, sizes, dev, pos, len)
    ensures pos + len < |flat[dev]|
  {
    DivBounds(pos + len, sizes[dev]);
  }

  /** A write that cannot read all of the caller's buffer still writes what it can read. */
  function AfterSet(flat: Flat, dev: nat, pos: nat, data: seq<Byte>, acc: nat): Flat
    requires dev < |flat| && pos + |data| <= |flat[dev]|
  {
    flat[dev := Overwritten(flat[dev], pos, data[..Min(|data|, acc)])]
  }

  predicate Legal(flat: Flat, op: Op) {
    op.dev < |flat| && op.pos + (if op.Set? then |op.data| else op.len) <= |flat[op.dev]|
  }

  function Step(flat: Flat, op: Op): Flat
    requires Legal(flat, op)
  {
    match op
    case Set(dev, pos, data, acc) => AfterSet(flat, dev, pos, data, acc)
    case Get(_, _, _, _) => flat
  }

  ghost predicate IsRun(ops: seq<Op>, trace: seq<Flat>) {
    |trace| == |ops| + 1 && forall i :: 0 <= i < |ops| ==> Legal(trace[i], ops[i]) && trace[i + 1] == Step(trace[i], ops[i])
  }

  /** Operation `op` writes byte `x` of device `dev`. */
  predicate Writes(op: Op, dev: nat, x: nat) {
    op.Set? && op.dev == dev && op.pos <= x < op.pos + Min(|op.data|, op.acc)
  }

  /** The last of the first `k` operations that writes the byte, or `k` if none does. */
  function LastWrite(ops: seq<Op>, k: nat, dev: nat, x: nat): (i: nat)
    requires k <= |ops|
    ensures i <= k
  {
    if k == 0 then 0
    else if Writes(ops[k - 1], dev, x) then k - 1
    else
      var i := LastWrite(ops, k - 1, dev, x);
      if i == k - 1 then k else i
  }

  /** Every byte holds what the last write to it put there, or what the device held. */
  lemma {:induction false} LastWriteWins(ops: seq<Op>, trace: seq<Flat>, k: nat, dev: nat, x: nat)
    requires IsRun(ops, trace) && k <= |ops| && dev < |trace[0]| && x < |trace[0][dev]|
    ensures dev < |trace[k]| && |trace[k][dev]| == |trace[0][dev]|
    ensures var i := LastWrite(ops, k, dev, x);
            && (i < k ==> Writes(ops[i], dev, x) && trace[k][dev][x] == ops[i].data[x - ops[i].pos])
            && (i == k ==> trace[k][dev][x] == trace[0][dev][x])
            && (forall j :: i < j < k ==> !Writes(ops[j], dev, x))
  {
    if k > 0 {
      LastWriteWins(ops, trace, k - 1, dev, x);
      assert Legal(trace[k - 1], ops[k - 1]) && trace[k - 1 + 1] == Step(trace[k - 1], ops[k - 1]);
      ByteAfter(trace[k - 1], ops[k - 1], dev, x);
    }
  }

  lemma ByteAfter(flat: Flat, op: Op, dev: nat, x: nat)
    requires Legal(flat, op) && dev < |flat| && x < |flat[dev]|
    ensures dev < |Step(flat, op)| && |Step(flat, op)[dev]| == |flat[dev]|
    ensures Step(flat, op)[dev][x] == if Writes(op, dev, x) then op.data[x - op.pos] else flat[dev][x]
  {}

  // ----- the cache

  class CachedBlock {
    const subID: nat
    const blockID: nat
    var refCount: nat
    const data: array<Byte>

    constructor (subID: nat, blockID: nat, size: nat)
      ensures this.subID == subID && this.blockID == blockID && refCount == 1 && data.Length == size && fresh(data)
    {
      this.subID, this.blockID, refCount := subID, blockID, 1;
      data := new Byte[size];
    }
  }

  predicate IsBlock(c: CachedBlock, dev: nat, b: nat) { c.subID == dev && c.blockID == b }

  /** At most one cached block per device and block, each with bytes of its own. */
  predicate Unique(cache: seq<CachedBlock>) {
    forall i, j :: 0 <= i < j < |cache| ==>
      cache[i] != cache[j] && cache[i].data != cache[j].data && !IsBlock(cache[i], cache[j].subID, cache[j].blockID)
  }

  predicate Fits(c: CachedBlock, flat: Flat, sizes: seq<nat>) {
    && c.subID < |flat| && c.subID < |sizes| && c.data.Length == sizes[c.subID]
    && HasBlock(|flat[c.subID]|, c.blockID, sizes[c.subID])
  }

  ghost predicate Current(c: CachedBlock, flat: Flat, sizes: seq<nat>)
    reads c.data
  {
    Fits(c, flat, sizes) && c.data[..] == BytesOf(c, flat, sizes)
  }

  /** What the flat bytes say a cached block holds. */
  function BytesOf(c: CachedBlock, flat: Flat, sizes: seq<nat>): seq<Byte>
    requires Fits(c, flat, sizes)
  {
    Slice(flat[c.subID], c.blockID, sizes[c.subID])
  }

  /** The flat bytes after a write at `offs` of a cached block. */
  function WrittenTo(flat: Flat, sizes: seq<nat>, cb: CachedBlock, offs: nat, data: seq<Byte>): Flat
    requires Fits(cb, flat, sizes) && offs + |data| <= sizes[cb.subID]
  {
    flat[cb.subID := Overwritten(flat[cb.subID], Start(cb.blockID, sizes[cb.subID]) + offs, data)]
  }

  ghost predicate IsCached(cache: seq<CachedBlock>, dev: nat, b: nat) {
    exists i :: 0 <= i < |cache| && IsBlock(cache[i], dev, b)
  }

  lemma CachedSnoc(cache: seq<CachedBlock>, c: CachedBlock, dev: nat, b: nat)
    ensures IsCached(cache + [c], dev, b) <==> IsCached(cache, dev, b) || IsBlock(c, dev, b)
  {
    var cache' := cache + [c];
    if IsCached(cache, dev, b) {
      var i :| 0 <= i < |cache| && IsBlock(cache[i], dev, b);
      assert cache'[i] == cache[i];
    }
    assert cache'[|cache|] == c;
  }

  predicate SameShape(flat: Flat, device: Flat, sizes: seq<nat>) {
    |flat| == |device| == |sizes| && forall d :: 0 <= d < |flat| ==> |flat[d]| == |device[d]| && sizes[d] > 0
  }

  /** Blocks that are not cached are as on the device. */
  ghost predicate Untouched(cache: seq<CachedBlock>, flat: Flat, device: Flat, sizes: seq<nat>)
    requires SameShape(flat, device, sizes)
  {
    forall d, b: nat {:trigger Slice(flat[d], b, sizes[d])} :: 0 <= d < |flat| && HasBlock(|flat[d]|, b, sizes[d]) && !IsCached(cache, d, b) ==>
      Slice(flat[d], b, sizes[d]) == Slice(device[d], b, sizes[d])
  }

  /** A write into a cached block leaves what is said about blocks that are not cached. */
  lemma StillUntouched(cache: seq<CachedBlock>, flat: Flat, device: Flat, sizes: seq<nat>, cb: CachedBlock, offs: nat, data: seq<Byte>)
    requires SameShape(flat, device, sizes) && Untouched(cache, flat, device, sizes) && cb in cache
    requires Fits(cb, flat, sizes) && offs + |data| <= sizes[cb.subID]
    ensures var flat' := WrittenTo(flat, sizes, cb, offs, data);
            SameShape(flat', device, sizes) && Untouched(cache, flat', device, sizes)
  {
    var flat' := WrittenTo(flat, sizes, cb, offs, data);
    forall d, c: nat | 0 <= d < |flat| && HasBlock(|flat[d]|, c, sizes[d]) && !IsCached(cache, d, c)
      ensures Slice(flat'[d], c, sizes[d]) == Slice(device[d], c, sizes[d])
    {
      assert Slice(flat[d], c, sizes[d]) == Slice(device[d], c, sizes[d]);
      if d == cb.subID { WriteInBlock(flat[d], cb.blockID, sizes[d], offs, data, c); }
    }
  }

  /** It changes that cached block and no other. */
  lemma OtherBlocks(flat: Flat, sizes: seq<nat>, cb: CachedBlock, offs: nat, data: seq<Byte>, c: CachedBlock)
    requires Fits(cb, flat, sizes) && Fits(c, flat, sizes) && offs + |data| <= sizes[cb.subID]
    requires c == cb || !IsBlock(c, cb.subID, cb.blockID)
    ensures var flat' := WrittenTo(flat, sizes, cb, offs, data);
            && Fits(c, flat', sizes)
            && BytesOf(c, flat', sizes) == if c == cb then Overwritten(BytesOf(c, flat, sizes), offs, data) else BytesOf(c, flat, sizes)
  {
    if c.subID == cb.subID { WriteInBlock(flat[cb.subID], cb.blockID, sizes[cb.subID], offs, data, c.blockID); }
  }

  class Driver {
    const sizes: seq<nat>
    const device: Flat
    var cache: seq<CachedBlock>
    ghost var flat: Flat

    ghost predicate Good(held: set<CachedBlock>)
      reads this, cache, set c | c in cache :: c.data
    {
      && SameShape(flat, device, sizes) && Unique(cache) && Untouched(cache, flat, device, sizes)
      && (forall i :: 0 <= i < |cache| ==> Current(cache[i], flat, sizes))
      && (forall i :: 0 <= i < |cache| ==> cache[i].refCount == if cache[i] in held then 1 else 0)
    }

    /** Between calls no block is referenced. */
    ghost predicate Valid()
      reads this, cache, set c | c in cache :: c.data
    {
      Good({})
    }

    constructor (sizes: seq<nat>, device: Flat)
      requires |sizes| == |device| && forall d :: 0 <= d < |sizes| ==> sizes[d] > 0
      ensures Valid() && flat == device && this.sizes == sizes && this.device == device
    {
      this.sizes, this.device := sizes, device;
      cache, flat := [], device;
    }

    /** The loop of GetCachedBlock. */
    method FindCached(dev: nat, b: nat) returns (i: nat)
      ensures i <= |cache| && (i < |cache| ==> IsBlock(cache[i], dev, b))
      ensures i == |cache| ==> !IsCached(cache, dev, b)
    {
      i := 0;
      while i < |cache|
        invariant 0 <= i <= |cache| && forall k :: 0 <= k < i ==> !IsBlock(cache[k], dev, b)
      {
        if cache[i].subID == dev && cache[i].blockID == b { return; }
        i := i + 1;
      }
    }

    /** ScheduleOperation of the RAM device, reading one block. */
    method ReadBlock(cb: CachedBlock, dev: nat, b: nat)
      requires dev < |device| && dev < |sizes| && HasBlock(|device[dev]|, b, sizes[dev]) && cb.data.Length == sizes[dev]
      modifies cb.data
      ensures cb.data[..] == Slice(device[dev], b, sizes[dev])
    {
      StartIsProduct(b, sizes[dev]);
      var k := 0;
      while k < sizes[dev]
        invariant 0 <= k <= sizes[dev]
        invariant forall j :: 0 <= j < k ==> cb.data[j] == Slice(device[dev], b, sizes[dev])[j]
      {
        cb.data[k] := device[dev][b * sizes[dev] + k];
        k := k + 1;
      }
    }

    /** A reference on the cached block, which is read from the device if it is new. */
    method Acquire(dev: nat, b: nat) returns (cb: CachedBlock)
      requires Valid() && dev < |sizes| && HasBlock(|flat[dev]|, b, sizes[dev])
      modifies this`cache, cache
      ensures Good({cb}) && cb in cache && IsBlock(cb, dev, b)
      ensures forall c :: c in cache ==> c in old(cache) || (fresh(c) && fresh(c.data))
    {
      var i := FindCached(dev, b);
      if i < |cache| {
        cb := cache[i];
        cb.refCount := cb.refCount + 1;
      } else {
        cb := Load(dev, b);
      }
    }

    /** A new block, read from the device and referenced. */
    method Load(dev: nat, b: nat) returns (cb: CachedBlock)
      requires Valid() && dev < |sizes| && HasBlock(|flat[dev]|, b, sizes[dev]) && !IsCached(cache, dev, b)
      modifies this`cache
      ensures Good({cb}) && fresh(cb) && fresh(cb.data) && IsBlock(cb, dev, b) && cache == old(cache) + [cb]
    {
      cb := new CachedBlock(dev, b, sizes[dev]);
      ReadBlock(cb, dev, b);
      assert Slice(flat[dev], b, sizes[dev]) == Slice(device[dev], b, sizes[dev]);
      forall d, x { CachedSnoc(cache, cb, d, x); }
      cache := cache + [cb];
    }

    method Release(cb: CachedBlock)
      requires Good({cb}) && cb in cache
      modifies cb
      ensures Valid()
    {
      cb.refCount := cb.refCount - 1;
    }

    /** kmemcpy_usersafe out of a block; it stops where the caller's buffer cannot be accessed. */
    method CopyOut(cb: CachedBlock, offs: nat, n: nat) returns (out: seq<Byte>)
      requires offs + n <= cb.data.Length
      ensures out == cb.data[..][offs..offs + n]
    {
      out := [];
      while |out| < n
        invariant |out| <= n && out == cb.data[offs..offs + |out|]
      {
        out := out + [cb.data[offs + |out|]];
      }
      assert cb.data[..][offs..offs + n] == cb.data[offs..offs + n];
    }

    /** kmemcpy_usersafe into a block. */
    method CopyIn(cb: CachedBlock, offs: nat, data: seq<Byte>)
      requires offs + |data| <= cb.data.Length
      modifies cb.data
      ensures cb.data[..] == Overwritten(old(cb.data[..]), offs, data)
    {
      var k := 0;
      while k < |data|
        invariant 0 <= k <= |data|
        invariant forall x :: 0 <= x < cb.data.Length ==>
                    cb.data[x] == if offs <= x < offs + k then data[x - offs] else old(cb.data[x])
      {
        cb.data[offs + k] := data[k];
        k := k + 1;
      }
    }

    method Offset(dev: nat, b: nat, pos: nat) returns (offs: nat)
      requires dev < |sizes| && Start(b, sizes[dev]) <= pos
      ensures offs == pos - Start(b, sizes[dev])
    {
      StartIsProduct(b, sizes[dev]);
      offs := pos - b * sizes[dev];
    }

    /** One round of GetData. */
    method GetRound(dev: nat, b: nat, pos: nat, len: nat, acc: nat) returns (rem: nat, out: seq<Byte>)
      requires Valid() && dev < |sizes| && HasBlock(|flat[dev]|, b, sizes[dev]) && Start(b, sizes[dev]) <= pos < Start(b, sizes[dev]) + sizes[dev]
      modifies this`cache, cache
      ensures Valid() && rem == Min(Start(b, sizes[dev]) + sizes[dev] - pos, len) && pos + rem <= |flat[dev]|
      ensures out == flat[dev][pos..pos + Min(rem, acc)]
      ensures forall c :: c in cache ==> c in old(cache) || (fresh(c) && fresh(c.data))
    {
      var offs := Offset(dev, b, pos);
      assert sizes[dev] - offs == Start(b, sizes[dev]) + sizes[dev] - pos;
      rem := Min(sizes[dev] - offs, len);
      var n := Min(rem, acc);
      SliceAt(flat[dev], b, sizes[dev], offs, n);
      out := ReadCached(dev, b, offs, n);
    }

    method ReadCached(dev: nat, b: nat, offs: nat, n: nat) returns (out: seq<Byte>)
      requires Valid() && dev < |sizes| && HasBlock(|flat[dev]|, b, sizes[dev]) && offs + n <= sizes[dev]
      modifies this`cache, cache
      ensures Valid() && out == Slice(flat[dev], b, sizes[dev])[offs..offs + n]
      ensures forall c :: c in cache ==> c in old(cache) || (fresh(c) && fresh(c.data))
    {
      var cb := Acquire(dev, b);
      out := CopyOut(cb, offs, n);
      Release(cb);
    }

    /** Writes into a cached block and so into the flat bytes. */
    method WriteBlock(cb: CachedBlock, offs: nat, data: seq<Byte>)
      requires Good({cb}) && cb in cache && offs + |data| <= sizes[cb.subID]
      modifies cb.data, this`flat
      ensures Good({cb}) && Fits(cb, old(flat), sizes) && flat == WrittenTo(old(flat), sizes, cb, offs, data)
    {
      StillUntouched(cache, flat, device, sizes, cb, offs, data);
      CopyInOne(cb, offs, data);
      flat := WrittenTo(flat, sizes, cb, offs, data);
    }

    /** Only the bytes of this block change, so all blocks agree with the new flat bytes. */
    method CopyInOne(cb: CachedBlock, offs: nat, data: seq<Byte>)
      requires Unique(cache) && cb in cache && Fits(cb, flat, sizes) && offs + |data| <= cb.data.Length
      requires forall c :: c in cache ==> Current(c, flat, sizes)
      modifies cb.data
      ensures forall c :: c in cache ==> Current(c, WrittenTo(flat, sizes, cb, offs, data), sizes)
    {
      CopyIn(cb, offs, data);
      forall c | c in cache
        ensures Current(c, WrittenTo(flat, sizes, cb, offs, data), sizes)
      {
        assert old(Current(c, flat, sizes));
        OtherBlocks(flat, sizes, cb, offs, data, c);
        if c != cb { assert c.data[..] == old(c.data[..]); }
      }
    }

    /** One round of SetData. */
    method SetRound(dev: nat, b: nat, pos: nat, data: seq<Byte>, acc: nat) returns (rem: nat)
      requires Valid() && dev < |sizes| && HasBlock(|flat[dev]|, b, sizes[dev]) && Start(b, sizes[dev]) <= pos < Start(b, sizes[dev]) + sizes[dev]
      modifies this, cache, set c | c in cache :: c.data
      ensures Valid() && rem == Min(Start(b, sizes[dev]) + sizes[dev] - pos, |data|) && pos + rem <= |old(flat)[dev]|
      ensures flat == old(flat)[dev := Overwritten(old(flat)[dev], pos, data[..Min(rem, acc)])]
      ensures forall c :: c in cache ==> c in old(cache) || (fresh(c) && fresh(c.data))
    {
      var offs := Offset(dev, b, pos);
      assert sizes[dev] - offs == Start(b, sizes[dev]) + sizes[dev] - pos;
      rem := Min(sizes[dev] - offs, |data|);
      WriteCached(dev, b, offs, data[..Min(rem, acc)]);
    }

    method WriteCached(dev: nat, b: nat, offs: nat, data: seq<Byte>)
      requires Valid() && dev < |sizes| && HasBlock(|flat[dev]|, b, sizes[dev]) && offs + |data| <= sizes[dev]
      modifies this, cache, set c | c in cache :: c.data
      ensures Valid() && flat == old(flat)[dev := Overwritten(old(flat)[dev], Start(b, sizes[dev]) + offs, data)]
      ensures forall c :: c in cache ==> c in old(cache) || (fresh(c) && fresh(c.data))
    {
      ghost var before := flat;
      var cb := Acquire(dev, b);
      WriteBlock(cb, offs, data);
      assert flat == before[dev := Overwritten(before[dev], Start(b, sizes[dev]) + offs, data)];
      Release(cb);
    }

    /** The first and the last block of a range. */
    method Blocks(dev: nat, pos: nat, len: nat) returns (first: nat, last: nat)
      requires InRange(flat, sizes, dev, pos, len)
      ensures Spans(dev, pos, len, first, last)
    {
      InRangeFits(flat, sizes, dev, pos, len);
      var size := sizes[dev];
      first, last := pos / size, (pos + len) / size;
      DivBounds(pos, size);
      DivBounds(pos + len, size);
      FirstNotAfterLast(pos, len, size);
    }

    /** `last` is the block of `end`, and can be read. */
    ghost predicate Ends(dev: nat, last: nat, end: nat)
      reads this`flat
    {
      && dev < |sizes| && dev < |flat| && HasBlock(|flat[dev]|, last, sizes[dev])
      && Start(last, sizes[dev]) <= end < Start(last, sizes[dev]) + sizes[dev]
    }

    /** The blocks from `first` to `last` are those of the range. */
    ghost predicate Spans(dev: nat, pos: nat, len: nat, first: nat, last: nat)
      reads this`flat
    {
      first <= last && Ends(dev, last, pos + len) && Cursor(first, last, sizes[dev], pos, pos + len)
    }

    /** Reads any range: the flat bytes, as far as the caller's buffer can be accessed. */
    method GetData(dev: nat, pos: nat, len: nat, acc: nat) returns (res: Result<(), Error>, out: seq<Byte>)
      requires Valid() && InRange(flat, sizes, dev, pos, len)
      modifies this`cache, cache
      ensures Valid() && pos + len <= |flat[dev]| && out == flat[dev][pos..pos + Min(len, acc)]
      ensures res.Ok? <==> len <= acc
    {
      var first, last := Blocks(dev, pos, len);
      res, out := GetBlocks(dev, pos, len, acc, first, last);
    }

    /** The next block of a read of which the first `done` bytes are there. */
    method GetNext(dev: nat, pos: nat, len: nat, acc: nat, last: nat, b: nat, done: nat, out: seq<Byte>) returns (rem: nat, out': seq<Byte>)
      requires Valid() && b <= last && Ends(dev, last, pos + len) && Got(flat[dev], pos, len, acc, last, sizes[dev], b, done, out)
      modifies this`cache, cache
      ensures Valid()
      ensures if done + rem <= acc then Got(flat[dev], pos, len, acc, last, sizes[dev], b + 1, done + rem, out')
              else acc < len && out' == flat[dev][pos..pos + acc]
      ensures forall c :: c in cache ==> c in old(cache) || (fresh(c) && fresh(c.data))
    {
      Advance(|flat[dev]|, b, last, sizes[dev], pos + done, pos + len);
      var part;
      rem, part := GetRound(dev, b, pos + done, len - done, acc - done);
      GotNext(flat[dev], pos, len, acc, last, sizes[dev], b, done, out, rem, part);
      out' := out + part;
    }

    method SetNext(dev: nat, b: nat, last: nat, pos: nat, end: nat, data: seq<Byte>, acc: nat) returns (rem: nat)
      requires Valid() && b <= last && Ends(dev, last, end) && Cursor(b, last, sizes[dev], pos, end) && |data| == end - pos
      modifies this, cache, set c | c in cache :: c.data
      ensures Valid() && Cursor(b + 1, last, sizes[dev], pos + rem, end) && pos + rem <= end <= |old(flat)[dev]|
      ensures flat == old(flat)[dev := Overwritten(old(flat)[dev], pos, data[..Min(rem, acc)])]
      ensures forall c :: c in cache ==> c in old(cache) || (fresh(c) && fresh(c.data))
    {
      Advance(|flat[dev]|, b, last, sizes[dev], pos, end);
      rem := SetRound(dev, b, pos, data, acc);
    }

    method GetBlocks(dev: nat, pos: nat, len: nat, acc: nat, first: nat, last: nat) returns (res: Result<(), Error>, out: seq<Byte>)
      requires Valid() && Spans(dev, pos, len, first, last)
      modifies this`cache, cache
      ensures Valid() && out == flat[dev][pos..pos + Min(len, acc)]
      ensures res.Ok? <==> len <= acc
    {
      var b, done := first, 0;
      out := [];
      ghost var s, size := flat[dev], sizes[dev];
      while b <= last
        invariant Valid() && Got(s, pos, len, acc, last, size, b, done, out)
        invariant forall c :: c in cache ==> c in old(cache) || (fresh(c) && fresh(c.data))
      {
        var rem;
        rem, out := GetNext(dev, pos, len, acc, last, b, done, out);
        if acc - done < rem { return Err(InvalidBuffer), out; }
        done := done + rem;
        b := b + 1;
      }
      return Ok(()), out;
    }

    /** Writes any range of the flat bytes, as far as the caller's buffer can be accessed. */
    method SetData(dev: nat, pos: nat, data: seq<Byte>, acc: nat) returns (res: Result<(), Error>)
      requires Valid() && InRange(flat, sizes, dev, pos, |data|)
      modifies this, cache, set c | c in cache :: c.data
      ensures Valid() && Legal(old(flat), Set(dev, pos, data, acc)) && flat == Step(old(flat), Set(dev, pos, data, acc))
      ensures res.Ok? <==> |data| <= acc
    {
      var first, last := Blocks(dev, pos, |data|);
      res := SetBlocks(dev, pos, data, acc, first, last);
    }

    /** The next block of data[done..], after data[..done] was written over `s` at `pos`. */
    method SetRest(dev: nat, b: nat, last: nat, pos: nat, data: seq<Byte>, done: nat, acc: nat, ghost s: seq<Byte>) returns (rem: nat)
      requires Valid() && b <= last && Ends(dev, last, pos + |data|) && done <= |data| && done <= acc && pos + |data| <= |s|
      requires Cursor(b, last, sizes[dev], pos + done, pos + |data|) && flat[dev] == Overwritten(s, pos, data[..done])
      modifies this, cache, set c | c in cache :: c.data
      ensures Valid() && Cursor(b + 1, last, sizes[dev], pos + done + rem, pos + |data|) && done + rem <= |data|
      ensures flat == old(flat)[dev := Overwritten(s, pos, data[..done + Min(rem, acc - done)])]
      ensures forall c :: c in cache ==> c in old(cache) || (fresh(c) && fresh(c.data))
    {
      rem := SetNext(dev, b, last, pos + done, pos + |data|, data[done..], acc - done);
      WriteOn(s, pos, data, done, Min(rem, acc - done));
    }

    method SetBlocks(dev: nat, pos: nat, data: seq<Byte>, acc: nat, first: nat, last: nat) returns (res: Result<(), Error>)
      requires Valid() && Spans(dev, pos, |data|, first, last)
      modifies this, cache, set c | c in cache :: c.data
      ensures Valid() && flat == AfterSet(old(flat), dev, pos, data, acc)
      ensures res.Ok? <==> |data| <= acc
    {
      ghost var s := flat[dev];
      var size, len := sizes[dev], |data|;
      var b, done := first, 0;
      assert Overwritten(s, pos, data[..0]) == s;
      while b <= last
        invariant first <= b <= last + 1 && 0 <= done <= len && done <= acc && Valid()
        invariant flat == old(flat)[dev := Overwritten(s, pos, data[..done])]
        invariant Cursor(b, last, size, pos + done, pos + len)
        invariant forall c :: c in cache ==> c in old(cache) || (fresh(c) && fresh(c.data))
      {
        var rem := SetRest(dev, b, last, pos, data, done, acc, s);
        if acc - done < rem { return Err(InvalidBuffer); }
        done := done + rem;
        b := b + 1;
      }
      assert data[..done] == data[..Min(|data|, acc)];
      return Ok(());
    }
  }

  lemma FirstNotAfterLast(pos: nat, len: nat, size: nat)
    requires size > 0
    ensures pos / size <= (pos + len) / size
  {
    var a, b := pos / size, (pos + len) / size;
    DivBounds(pos, size);
    DivBounds(pos + len, size);
    if b < a { BlocksApart(b, a, size); }
  }
}
