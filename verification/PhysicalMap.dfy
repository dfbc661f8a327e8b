/** The firmware's memory map is cleaned up in place at boot: usable descriptors are marked, joined
    with the ones next to them and moved together; the rest becomes the first free list.
 */
module PhysicalMap {
  import opened Sequences
  import opened FreeList

  const PAGE: nat := 4096

  /** The start address of a descriptor that no longer counts: all 64 bits set. */
  const NONE: nat := 0xFFFF_FFFF_FFFF_FFFF

  datatype Type =
    | LoaderCode | LoaderData | BootServicesCode | BootServicesData | ConventionalMemory
    | UnusableMemory | OtherType(code: nat)

  datatype Desc = Desc(kind: Type, start: nat, pages: nat)

  predicate IsUsable(t: Type) {
    t == LoaderCode || t == LoaderData || t == BootServicesCode || t == BootServicesData || t == ConventionalMemory
  }

  function End(d: Desc): nat { d.start + d.pages * PAGE }

  predicate Has(d: Desc, x: int) { d.start <= x < End(d) }

  predicate Live(d: Desc) { d.start != NONE }

  predicate DescOk(d: Desc) { d.start % PAGE == 0 && d.pages > 0 && End(d) <= NONE }

  /** Address `x` is usable memory in the firmware's map. */
  ghost predicate Usable(m: seq<Desc>, x: int) {
    exists i :: 0 <= i < |m| && IsUsable(m[i].kind) && Has(m[i], x)
  }

  ghost predicate Covers(m: seq<Desc>, x: int) {
    exists i :: 0 <= i < |m| && Live(m[i]) && Has(m[i], x)
  }

  predicate Separate(d: Desc, e: Desc) { End(d) <= e.start || End(e) <= d.start }

  predicate Touching(d: Desc, e: Desc) { End(d) == e.start || End(e) == d.start }

  /** What the firmware promises of the usable descriptors: aligned, not empty, inside the 64-bit
      address space, and disjoint. The others may hold anything. */
  predicate FirmwareOk(m: seq<Desc>) {
    && (forall i :: 0 <= i < |m| && IsUsable(m[i].kind) ==> DescOk(m[i]))
    && (forall i, j :: 0 <= i < j < |m| && IsUsable(m[i].kind) && IsUsable(m[j].kind) ==> Separate(m[i], m[j]))
  }

  predicate Clean(m: seq<Desc>) {
    && (forall i :: 0 <= i < |m| && Live(m[i]) ==> m[i].kind == ConventionalMemory && DescOk(m[i]))
    && (forall i, j :: 0 <= i < j < |m| && Live(m[i]) && Live(m[j]) ==> Separate(m[i], m[j]))
  }

  /** The first `n` descriptors touch nothing behind them. */
  predicate Settled(m: seq<Desc>, n: nat) {
    forall i, j :: 0 <= i < n && i < j < |m| && Live(m[i]) && Live(m[j]) ==> !Touching(m[i], m[j])
  }

  ghost predicate SameCover(m: seq<Desc>, m': seq<Desc>) {
    forall x :: Covers(m, x) <==> Covers(m', x)
  }

  // ----- marking

  function Marked(d: Desc): Desc {
    if IsUsable(d.kind) then d.(kind := ConventionalMemory) else d.(kind := UnusableMemory, start := NONE)
  }

  predicate AllMarked(m: seq<Desc>, m': seq<Desc>) {
    |m'| == |m| && forall i :: 0 <= i < |m| ==> m'[i] == Marked(m[i])
  }

  lemma MarkedOk(m: seq<Desc>, m': seq<Desc>)
    requires FirmwareOk(m) && AllMarked(m, m')
    ensures Clean(m') && forall x :: Covers(m', x) <==> Usable(m, x)
  {}

  // ----- joining

  /** Descriptor `s` takes over the pages of descriptor `c`, which then no longer counts. */
  function Joined(m: seq<Desc>, s: nat, c: nat): seq<Desc>
    requires s < c < |m|
  {
    var start := if m[c].start == End(m[s]) then m[s].start else m[c].start;
    m[s := m[s].(start := start, pages := m[s].pages + m[c].pages)][c := m[c].(start := NONE)]
  }

  predicate CanJoin(m: seq<Desc>, s: nat, c: nat) {
    s < c < |m| && Live(m[s]) && Live(m[c]) && Touching(m[s], m[c])
  }

  lemma JoinedEnds(m: seq<Desc>, s: nat, c: nat)
    requires Clean(m) && CanJoin(m, s, c)
    ensures var m' := Joined(m, s, c);
            && |m'| == |m| && Live(m'[s]) && !Live(m'[c]) && DescOk(m'[s]) && m'[s].kind == ConventionalMemory
            && (forall k :: 0 <= k < |m| && k != s && k != c ==> m'[k] == m[k])
            && (m'[s].start == m[s].start || m'[s].start == m[c].start)
            && (End(m'[s]) == End(m[s]) || End(m'[s]) == End(m[c]))
            && (forall x :: Has(m'[s], x) <==> Has(m[s], x) || Has(m[c], x))
  {}

  lemma JoinedClean(m: seq<Desc>, s: nat, c: nat)
    requires Clean(m) && CanJoin(m, s, c)
    ensures Clean(Joined(m, s, c))
  {}

  lemma JoinedCover(m: seq<Desc>, s: nat, c: nat)
    requires Clean(m) && CanJoin(m, s, c)
    ensures SameCover(m, Joined(m, s, c))
  {
    JoinedEnds(m, s, c);
    var m' := Joined(m, s, c);
    forall x
      ensures Covers(m, x) <==> Covers(m', x)
    {
      if Covers(m, x) {
        var i :| 0 <= i < |m| && Live(m[i]) && Has(m[i], x);
        var k := if i == c then s else i;
        assert Live(m'[k]) && Has(m'[k], x);
      }
      if Covers(m', x) {
        var i :| 0 <= i < |m'| && Live(m'[i]) && Has(m'[i], x);
        if i == s {
          assert Has(m[s], x) || Has(m[c], x);
        } else {
          assert Live(m[i]) && Has(m[i], x);
        }
      }
    }
  }

  /** Joining behind `s` gives no earlier descriptor a new neighbour. */
  lemma JoinedSettled(m: seq<Desc>, s: nat, c: nat)
    requires Clean(m) && CanJoin(m, s, c) && Settled(m, s)
    ensures Settled(Joined(m, s, c), s)
  {}

  function LiveCount(m: seq<Desc>): nat {
    if m == [] then 0 else LiveCount(m[..|m| - 1]) + if Live(m[|m| - 1]) then 1 else 0
  }

  lemma {:induction false} LiveCountUpdate(m: seq<Desc>, i: nat, d: Desc)
    requires i < |m|
    ensures LiveCount(m[i := d]) == LiveCount(m) - (if Live(m[i]) then 1 else 0) + (if Live(d) then 1 else 0)
  {
    var n := |m| - 1;
    var m' := m[i := d];
    if i == n {
      assert m'[..n] == m[..n];
    } else {
      LiveCountUpdate(m[..n], i, d);
      assert m'[..n] == m[..n][i := d];
    }
  }

  /** Every join uses up one descriptor, so the restarts come to an end. */
  lemma JoinedCount(m: seq<Desc>, s: nat, c: nat)
    requires Clean(m) && CanJoin(m, s, c)
    ensures LiveCount(Joined(m, s, c)) == LiveCount(m) - 1
  {
    JoinedEnds(m, s, c);
    var m' := Joined(m, s, c);
    var m1 := m[s := m'[s]];
    LiveCountUpdate(m, s, m'[s]);
    LiveCountUpdate(m1, c, m'[c]);
    assert m' == m1[c := m'[c]];
  }

  // ----- moving together

  /** The descriptors that count, in order. */
  function Kept(m: seq<Desc>): seq<Desc> {
    if m == [] then []
    else Kept(m[..|m| - 1]) + if Live(m[|m| - 1]) then [m[|m| - 1]] else []
  }

  lemma {:induction false} KeptRemove(m: seq<Desc>, s: nat)
    requires s < |m| && !Live(m[s])
    ensures Kept(RemoveAt(m, s)) == Kept(m)
    decreases |m|
  {
    var n := |m| - 1;
    if s == n {
      assert RemoveAt(m, s) == m[..n];
    } else {
      KeptRemove(m[..n], s);
      RemovedFront(m, s);
    }
  }

  lemma RemovedFront(m: seq<Desc>, s: nat)
    requires s < |m| - 1
    ensures var n, w := |m| - 1, RemoveAt(m, s); w[..n - 1] == RemoveAt(m[..n], s) && w[n - 1] == m[n]
  {}

  lemma {:induction false} KeptAll(m: seq<Desc>)
    requires forall i :: 0 <= i < |m| ==> Live(m[i])
    ensures Kept(m) == m
  {
    if m != [] {
      KeptAll(m[..|m| - 1]);
      assert m == m[..|m| - 1] + [m[|m| - 1]];
    }
  }

  lemma {:induction false} KeptIn(m: seq<Desc>, d: Desc)
    ensures d in Kept(m) <==> d in m && Live(d)
  {
    if m != [] {
      KeptIn(m[..|m| - 1], d);
      assert m == m[..|m| - 1] + [m[|m| - 1]];
    }
  }

  lemma KeptCover(m: seq<Desc>)
    ensures SameCover(m, Kept(m))
  {
    var r := Kept(m);
    forall x
      ensures Covers(m, x) <==> Covers(r, x)
    {
      if Covers(m, x) {
        var i :| 0 <= i < |m| && Live(m[i]) && Has(m[i], x);
        KeptIn(m, m[i]);
        var k :| 0 <= k < |r| && r[k] == m[i];
      }
      if Covers(r, x) {
        var i :| 0 <= i < |r| && Live(r[i]) && Has(r[i], x);
        KeptIn(m, r[i]);
        var k :| 0 <= k < |m| && m[k] == r[i];
      }
    }
  }

  /** With a gap between any two. */
  predicate Spaced(m: seq<Desc>) {
    && (forall i :: 0 <= i < |m| ==> Live(m[i]) && m[i].kind == ConventionalMemory && DescOk(m[i]))
    && (forall i, j :: 0 <= i < j < |m| ==> Separate(m[i], m[j]) && !Touching(m[i], m[j]))
  }

  lemma {:induction false} KeptSpaced(m: seq<Desc>)
    requires Clean(m) && Settled(m, |m|)
    ensures Spaced(Kept(m))
  {
    if m != [] {
      var n := |m| - 1;
      KeptSpaced(m[..n]);
      var r := Kept(m[..n]);
      forall i | 0 <= i < |r| && Live(m[n])
        ensures Separate(r[i], m[n]) && !Touching(r[i], m[n])
      {
        KeptIn(m[..n], r[i]);
        var k :| 0 <= k < n && m[..n][k] == r[i];
        assert Live(m[k]);
      }
    }
  }

  // ----- the three passes

  method Mark(a: array<Desc>, count: nat)
    requires count <= a.Length
    modifies a
    ensures AllMarked(old(a[..count]), a[..count])
  {
    var s := 0;
    while s < count
      invariant 0 <= s <= count
      invariant forall i :: 0 <= i < s ==> a[i] == Marked(old(a[i]))
      invariant forall i :: s <= i < count ==> a[i] == old(a[i])
    {
      var d := a[s];
      if d.kind == LoaderCode || d.kind == LoaderData || d.kind == BootServicesCode
         || d.kind == BootServicesData || d.kind == ConventionalMemory {
        a[s] := d.(kind := ConventionalMemory);
      } else {
        a[s] := d.(kind := UnusableMemory, start := NONE);
      }
      s := s + 1;
    }
  }

  /** The inner loop: joins descriptor `s` with the first one behind it that touches it. */
  method JoinOne(a: array<Desc>, count: nat, s: nat) returns (joined: bool)
    requires s < count <= a.Length && Clean(a[..count]) && Live(a[s])
    modifies a
    ensures joined ==> exists c :: CanJoin(old(a[..count]), s, c) && a[..count] == Joined(old(a[..count]), s, c)
    ensures !joined ==> a[..] == old(a[..]) && forall c :: s < c < count && Live(a[c]) ==> !Touching(a[s], a[c])
  {
    ghost var m := a[..count];
    var start, end := a[s].start, End(a[s]);
    var c := s + 1;
    while c < count
      invariant s < c <= count && a[..] == old(a[..])
      invariant forall k :: s < k < c && Live(a[k]) ==> !Touching(a[s], a[k])
    {
      var cmp := a[c];
      if cmp.kind == ConventionalMemory && cmp.start != NONE {
        if cmp.start == end {
          assert CanJoin(m, s, c);
          a[s] := a[s].(pages := a[s].pages + cmp.pages);
          a[c] := a[c].(start := NONE);
          assert a[..count] == Joined(m, s, c);
          return true;
        } else if End(cmp) == start {
          assert CanJoin(m, s, c);
          a[s] := a[s].(start := cmp.start, pages := a[s].pages + cmp.pages);
          a[c] := a[c].(start := NONE);
          assert a[..count] == Joined(m, s, c);
          return true;
        }
      }
      assert Live(m[c]) ==> m[c].kind == ConventionalMemory;
      c := c + 1;
    }
    return false;
  }

  method JoinAll(a: array<Desc>, count: nat)
    requires count <= a.Length && Clean(a[..count])
    modifies a
    ensures Clean(a[..count]) && Settled(a[..count], count) && SameCover(old(a[..count]), a[..count])
  {
    var s := 0;
    while s < count
      invariant 0 <= s <= count && Clean(a[..count]) && Settled(a[..count], s) && SameCover(old(a[..count]), a[..count])
      decreases LiveCount(a[..count]), count - s
    {
      ghost var m := a[..count];
      if a[s].kind != ConventionalMemory || a[s].start == NONE {
        SettleDead(m, s);
        s := s + 1;
      } else {
        var joined := JoinOne(a, count, s);
        if joined {
          ghost var c :| CanJoin(m, s, c) && a[..count] == Joined(m, s, c);
          JoinedClean(m, s, c);
          JoinedCover(m, s, c);
          JoinedSettled(m, s, c);
          JoinedCount(m, s, c);
        } else {
          assert a[..count] == m;
          SettleOne(m, s);
          s := s + 1;
        }
      }
    }
  }

  lemma SettleDead(m: seq<Desc>, s: nat)
    requires Clean(m) && Settled(m, s) && s < |m| && (m[s].kind != ConventionalMemory || !Live(m[s]))
    ensures Settled(m, s + 1)
  {}

  lemma SettleOne(m: seq<Desc>, s: nat)
    requires Settled(m, s) && s < |m| && forall c :: s < c < |m| && Live(m[c]) ==> !Touching(m[s], m[c])
    ensures Settled(m, s + 1)
  {}

  /** Moves the descriptors behind `s` down by one. */
  method Shift(a: array<Desc>, count: nat, s: nat)
    requires s < count <= a.Length
    modifies a
    ensures a[..count - 1] == RemoveAt(old(a[..count]), s)
  {
    var m := s + 1;
    while m < count
      invariant s < m <= count
      invariant forall k :: 0 <= k < s ==> a[k] == old(a[k])
      invariant forall k :: s <= k < m - 1 ==> a[k] == old(a[k + 1])
      invariant forall k :: m <= k < count ==> a[k] == old(a[k])
    {
      a[m - 1] := a[m];
      m := m + 1;
    }
  }

  /** Drops the dead descriptor at `s`. */
  method Drop(a: array<Desc>, n: nat, s: nat)
    requires s < n <= a.Length && !Live(a[s])
    modifies a
    ensures Kept(a[..n - 1]) == Kept(old(a[..n]))
    ensures forall k :: 0 <= k < s ==> a[k] == old(a[k])
  {
    ghost var m := a[..n];
    KeptRemove(m, s);
    Shift(a, n, s);
    forall k | 0 <= k < s
      ensures a[k] == m[k]
    {
      assert a[..n - 1][k] == m[k];
    }
  }

  method Compact(a: array<Desc>, count: nat) returns (n: nat)
    requires count <= a.Length
    modifies a
    ensures n <= count && a[..n] == Kept(old(a[..count]))
  {
    n := count;
    var s := 0;
    while s < n
      invariant 0 <= s <= n <= count && Kept(a[..n]) == Kept(old(a[..count]))
      invariant forall k :: 0 <= k < s ==> Live(a[k])
      decreases n - s
    {
      if a[s].start != NONE {
        s := s + 1;
      } else {
        Drop(a, n, s);
        n := n - 1;
      }
    }
    KeptAll(a[..n]);
  }

  /** The usable memory is kept exactly, in disjoint descriptors of which no two are adjacent. */
  method CleanupMemMap(a: array<Desc>, count: nat) returns (n: nat)
    requires count <= a.Length && FirmwareOk(a[..count])
    modifies a
    ensures n <= count && Spaced(a[..n])
    ensures forall x :: Covers(a[..n], x) <==> old(Usable(a[..count], x))
  {
    ghost var m0 := a[..count];
    Mark(a, count);
    MarkedOk(m0, a[..count]);
    ghost var m1 := a[..count];
    JoinAll(a, count);
    ghost var m2 := a[..count];
    n := Compact(a, count);
    KeptSpaced(m2);
    KeptCover(m2);
  }

  // ----- the list handed to the kernel

  /** The kernel sees physical memory at a fixed distance. */
  function SegmentOf(d: Desc, offset: nat): Segment { Segment(d.start + offset, d.pages * PAGE) }

  predicate AreSegments(m: seq<Desc>, segs: seq<Segment>, offset: nat) {
    |segs| == |m| && forall i :: 0 <= i < |m| ==> segs[i] == SegmentOf(m[i], offset)
  }

  lemma SpacedIsCanonical(m: seq<Desc>, segs: seq<Segment>, offset: nat)
    requires Spaced(m) && AreSegments(m, segs, offset)
    ensures Canonical(segs)
  {}

  lemma SegmentsCover(m: seq<Desc>, segs: seq<Segment>, offset: nat)
    requires Spaced(m) && AreSegments(m, segs, offset)
    ensures forall x :: Covered(segs, x) <==> Covers(m, x - offset)
  {
    forall x
      ensures Covered(segs, x) <==> Covers(m, x - offset)
    {
      if Covered(segs, x) {
        var i :| 0 <= i < |segs| && segs[i].Contains(x);
        assert Live(m[i]) && Has(m[i], x - offset);
      }
      if Covers(m, x - offset) {
        var i :| 0 <= i < |m| && Live(m[i]) && Has(m[i], x - offset);
        assert segs[i].Contains(x) && segs[i] in segs;
      }
    }
  }

  /** Build, and the Init of the free list that reads what Build linked: exactly the usable
      memory, in the order of the map, in canonical form. */
  method BuildFreeList(a: array<Desc>, count: nat, offset: nat) returns (list: List, n: nat)
    requires count <= a.Length && FirmwareOk(a[..count])
    modifies a
    ensures fresh(list) && Canonical(list.segs)
    ensures n <= count && Spaced(a[..n]) && AreSegments(a[..n], list.segs, offset)
    ensures forall x :: Covered(list.segs, x) <==> old(Usable(a[..count], x - offset))
  {
    n := CleanupMemMap(a, count);
    var linked: seq<PhysicalSegment> := [];
    var i := 0;
    while i < n
      invariant 0 <= i <= n <= a.Length && |linked| == i
      invariant forall k :: 0 <= k < i ==> linked[k] == PhysicalSegment(a[k].start + offset, a[k].pages)
    {
      assert a[..n][i].kind == ConventionalMemory;
      if a[i].kind == ConventionalMemory {
        linked := linked + [PhysicalSegment(a[i].start + offset, a[i].pages)];
      }
      i := i + 1;
    }
    list := new List();
    list.Init(linked);
    SpacedIsCanonical(a[..n], list.segs, offset);
    SegmentsCover(a[..n], list.segs, offset);
  }
}
