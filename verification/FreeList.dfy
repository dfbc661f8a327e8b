/** The first-fit, coalescing free list that hands out physical pages and kernel heap
    memory. A segment's list node lives at the segment's own base address, so a node is
    identified by its position in the list; list order matters because search is first fit.
 */
module FreeList {
  import opened Wrappers
  import opened Sequences

  datatype Segment = Segment(base: nat, size: nat) {
    function End(): nat { base + size }
    predicate Contains(a: int) { base <= a < End() }
  }

  /** A run of free pages, as the boot loader passes it on. */
  datatype PhysicalSegment = PhysicalSegment(base: nat, numPages: nat)

  /** Address `a` lies in some free segment. */
  ghost predicate Covered(segs: seq<Segment>, a: int) {
    exists s :: s in segs && s.Contains(a)
  }

  /** Non-overlapping and with a gap between them. */
  predicate Apart(s: Segment, t: Segment) {
    s.End() < t.base || t.End() < s.base
  }

  predicate Disjoint(s: Segment, t: Segment) {
    s.End() <= t.base || t.End() <= s.base
  }

  /** Non-empty segments, pairwise disjoint and pairwise non-adjacent. */
  predicate Canonical(segs: seq<Segment>) {
    && (forall i :: 0 <= i < |segs| ==> segs[i].size > 0)
    && (forall i, j :: 0 <= i < j < |segs| ==> Apart(segs[i], segs[j]))
  }

  /** Canonical, except that the segment at `c` may touch its neighbours. */
  predicate CanonicalBut(segs: seq<Segment>, c: nat) {
    && c < |segs|
    && (forall i :: 0 <= i < |segs| ==> segs[i].size > 0)
    && (forall i, j :: 0 <= i < j < |segs| ==> Disjoint(segs[i], segs[j]))
    && (forall i, j :: 0 <= i < j < |segs| && i != c && j != c ==> Apart(segs[i], segs[j]))
  }

  /** The address range of `s` is entirely outside the free list. */
  ghost predicate NotFree(segs: seq<Segment>, s: Segment) {
    forall a :: s.Contains(a) ==> !Covered(segs, a)
  }

  predicate Touches(s: Segment, cmp: Segment) {
    s.base == cmp.End() || s.End() == cmp.base
  }

  /** Position of the first segment from `from` on that touches `cmp`, or |segs|. */
  function FirstTouching(segs: seq<Segment>, cmp: Segment, from: nat): (t: nat)
    requires from <= |segs|
    ensures from <= t <= |segs|
    ensures forall k :: from <= k < t ==> !Touches(segs[k], cmp)
    ensures t < |segs| ==> Touches(segs[t], cmp)
    decreases |segs| - from
  {
    if from == |segs| || Touches(segs[from], cmp) then from else FirstTouching(segs, cmp, from + 1)
  }

  /** The segment at `keep` takes over the memory of the one at `drop`. */
  function Absorb(segs: seq<Segment>, keep: nat, drop: nat): (r: seq<Segment>)
    requires keep < |segs| && drop < |segs| && keep != drop
    ensures |r| == |segs| - 1
  {
    RemoveAt(segs[keep := Segment(segs[keep].base, segs[keep].size + segs[drop].size)], drop)
  }

  /** One merge: the list after joining the segments at `t` and `c`, and where the merged one is. */
  function Merge(segs: seq<Segment>, c: nat, t: nat): (r: (seq<Segment>, nat))
    requires c < |segs| && t < |segs| && c != t
    ensures |r.0| == |segs| - 1 && r.1 < |r.0|
  {
    var (keep, drop) := if segs[t].base == segs[c].End() then (c, t) else (t, c);
    (Absorb(segs, keep, drop), if drop < keep then keep - 1 else keep)
  }

  /** What repeated joining around the segment at `c` leaves behind. */
  function Join(segs: seq<Segment>, c: nat): seq<Segment>
    requires c < |segs|
    decreases |segs|
  {
    var t := FirstTouching(segs, segs[c], 0);
    if t == |segs| || t == c then segs
    else var (segs', c') := Merge(segs, c, t); Join(segs', c')
  }

  function Freed(segs: seq<Segment>, base: nat, size: nat): seq<Segment> {
    Join(segs + [Segment(base, size)], |segs|)
  }

  function Used(segs: seq<Segment>, i: nat, size: nat): seq<Segment>
    requires i < |segs|
  {
    if segs[i].size > size then
      Freed(RemoveAt(segs, i), segs[i].base + size, segs[i].size - size)
    else
      RemoveAt(segs, i)
  }

  /** First segment from `from` on with at least `size` bytes, or |segs|. */
  function FirstFit(segs: seq<Segment>, size: nat, from: nat): (t: nat)
    requires from <= |segs|
    ensures from <= t <= |segs|
    ensures forall k :: from <= k < t ==> segs[k].size < size
    ensures t < |segs| ==> segs[t].size >= size
    decreases |segs| - from
  {
    if from == |segs| || segs[from].size >= size then from else FirstFit(segs, size, from + 1)
  }

  // ----- one merge

  lemma EraseCoverage(segs: seq<Segment>, i: nat)
    requires i < |segs|
    ensures forall a :: Covered(segs, a) <==> Covered(RemoveAt(segs, i), a) || segs[i].Contains(a)
  {}

  lemma AbsorbCoverage(segs: seq<Segment>, keep: nat, drop: nat)
    requires keep < |segs| && drop < |segs| && keep != drop
    requires segs[keep].End() == segs[drop].base
    ensures forall a :: Covered(Absorb(segs, keep, drop), a) <==> Covered(segs, a)
  {
    var grown := segs[keep := Segment(segs[keep].base, segs[keep].size + segs[drop].size)];
    var r := Absorb(segs, keep, drop);
    forall a
      ensures Covered(r, a) <==> Covered(segs, a)
    {
      if Covered(segs, a) {
        var k :| 0 <= k < |segs| && segs[k].Contains(a);
        var m := if k == drop then keep else k;
        assert grown[m].Contains(a);
        assert r[if m < drop then m else m - 1] == grown[m];
      }
      if Covered(r, a) {
        var k :| 0 <= k < |r| && r[k].Contains(a);
        var m := if k < drop then k else k + 1;
        assert grown[m].Contains(a);
        assert segs[m].Contains(a) || segs[drop].Contains(a);
      }
    }
  }

  lemma AbsorbCanonical(segs: seq<Segment>, c: nat, keep: nat, drop: nat)
    requires CanonicalBut(segs, c) && keep < |segs| && drop < |segs| && keep != drop
    requires c == keep || c == drop
    requires segs[keep].End() == segs[drop].base
    ensures CanonicalBut(Absorb(segs, keep, drop), if drop < keep then keep - 1 else keep)
  {
    var r := Absorb(segs, keep, drop);
    var k' := if drop < keep then keep - 1 else keep;
    forall i, j | 0 <= i < j < |r|
      ensures Disjoint(r[i], r[j])
      ensures i != k' && j != k' ==> Apart(r[i], r[j])
    {
      var m, n := if i < drop then i else i + 1, if j < drop then j else j + 1;
      assert Disjoint(segs[m], segs[n]);
      assert m < drop ==> Disjoint(segs[m], segs[drop]);
      assert drop < m ==> Disjoint(segs[drop], segs[m]);
      assert n < drop ==> Disjoint(segs[n], segs[drop]);
      assert drop < n ==> Disjoint(segs[drop], segs[n]);
    }
  }

  lemma MergeCanonical(segs: seq<Segment>, c: nat, t: nat)
    requires CanonicalBut(segs, c) && t < |segs| && t != c && Touches(segs[t], segs[c])
    ensures CanonicalBut(Merge(segs, c, t).0, Merge(segs, c, t).1)
  {
    var (keep, drop) := if segs[t].base == segs[c].End() then (c, t) else (t, c);
    AbsorbCanonical(segs, c, keep, drop);
  }

  /** Joining at the first segment that touches `c` is the next step of the whole join. */
  lemma JoinMerged(segs: seq<Segment>, c: nat, t: nat)
    requires CanonicalBut(segs, c) && t < |segs|
    requires t == FirstTouching(segs, segs[c], 0)
    ensures t != c && CanonicalBut(Merge(segs, c, t).0, Merge(segs, c, t).1)
    ensures Join(segs, c) == Join(Merge(segs, c, t).0, Merge(segs, c, t).1)
  {
    MergeCanonical(segs, c, t);
  }

  lemma MergeCoverage(segs: seq<Segment>, c: nat, t: nat)
    requires c < |segs| && t < |segs| && t != c && Touches(segs[t], segs[c])
    ensures forall a :: Covered(Merge(segs, c, t).0, a) <==> Covered(segs, a)
  {
    var (keep, drop) := if segs[t].base == segs[c].End() then (c, t) else (t, c);
    AbsorbCoverage(segs, keep, drop);
  }

  /** Joining restores canonical form without gaining or losing an address. */
  lemma {:induction false} JoinRestores(segs: seq<Segment>, c: nat)
    requires CanonicalBut(segs, c)
    ensures Canonical(Join(segs, c))
    ensures forall a :: Covered(Join(segs, c), a) <==> Covered(segs, a)
    decreases |segs|
  {
    var t := FirstTouching(segs, segs[c], 0);
    if t < |segs| {
      assert t != c;
      var (segs', c') := Merge(segs, c, t);
      MergeCanonical(segs, c, t);
      MergeCoverage(segs, c, t);
      JoinRestores(segs', c');
    } else {
      forall i, j | 0 <= i < j < |segs|
        ensures Apart(segs[i], segs[j])
      {
        assert !Touches(segs[i], segs[c]) && !Touches(segs[j], segs[c]);
      }
    }
  }

  lemma AppendCoverage(segs: seq<Segment>, s: Segment)
    ensures forall a :: Covered(segs + [s], a) <==> Covered(segs, a) || s.Contains(a)
  {}

  lemma NotFreeIsDisjoint(segs: seq<Segment>, s: Segment, i: nat)
    requires s.size > 0 && NotFree(segs, s) && i < |segs| && segs[i].size > 0
    ensures Disjoint(segs[i], s)
  {
    if !Disjoint(segs[i], s) {
      var a := if segs[i].base < s.base then s.base else segs[i].base;
      assert s.Contains(a) && segs[i].Contains(a);
      assert Covered(segs, a);
    }
  }

  /** MarkFree: the covered set gains exactly [base, base+size) and the form stays canonical. */
  lemma FreedGains(segs: seq<Segment>, base: nat, size: nat)
    requires Canonical(segs) && size > 0 && NotFree(segs, Segment(base, size))
    ensures Canonical(Freed(segs, base, size))
    ensures forall a :: Covered(Freed(segs, base, size), a) <==> Covered(segs, a) || base <= a < base + size
  {
    var s := Segment(base, size);
    PushedCanonicalBut(segs, s);
    JoinRestores(segs + [s], |segs|);
    AppendCoverage(segs, s);
  }

  lemma PushedCanonicalBut(segs: seq<Segment>, s: Segment)
    requires Canonical(segs) && s.size > 0 && NotFree(segs, s)
    ensures CanonicalBut(segs + [s], |segs|)
  {
    forall i | 0 <= i < |segs|
      ensures Disjoint(segs[i], s)
    {
      NotFreeIsDisjoint(segs, s, i);
    }
  }

  /** What is left of a segment that is partly used may be marked free again. */
  lemma RemainderFits(segs: seq<Segment>, i: nat, size: nat)
    requires Canonical(segs) && i < |segs| && size <= segs[i].size
    ensures Canonical(RemoveAt(segs, i))
    ensures NotFree(RemoveAt(segs, i), Segment(segs[i].base + size, segs[i].size - size))
  {
    OthersAvoid(segs, i);
    assert forall a :: Segment(segs[i].base + size, segs[i].size - size).Contains(a) ==> segs[i].Contains(a);
  }

  lemma RemainderJoins(segs: seq<Segment>, i: nat, size: nat)
    requires Canonical(segs) && i < |segs|
    ensures size < segs[i].size ==>
              CanonicalBut(RemoveAt(segs, i) + [Segment(segs[i].base + size, segs[i].size - size)], |segs| - 1)
  {
    if size < segs[i].size {
      RemainderFits(segs, i, size);
      PushedCanonicalBut(RemoveAt(segs, i), Segment(segs[i].base + size, segs[i].size - size));
    }
  }

  /** MarkUsed: the covered set loses exactly the first `size` bytes of the segment, and the
      join that follows never merges anything. */
  lemma UsedLoses(segs: seq<Segment>, i: nat, size: nat)
    requires Canonical(segs) && i < |segs| && size <= segs[i].size
    ensures Canonical(Used(segs, i, size))
    ensures forall a :: Covered(Used(segs, i, size), a) <==>
              Covered(segs, a) && !(segs[i].base <= a < segs[i].base + size)
    ensures segs[i].size > size ==>
              Used(segs, i, size) == RemoveAt(segs, i) + [Segment(segs[i].base + size, segs[i].size - size)]
  {
    var rest := RemoveAt(segs, i);
    EraseCoverage(segs, i);
    OthersAvoid(segs, i);
    if segs[i].size > size {
      var s := Segment(segs[i].base + size, segs[i].size - size);
      RemainderFits(segs, i, size);
      FreedGains(rest, s.base, s.size);
      var all := rest + [s];
      forall k | 0 <= k < |rest|
        ensures !Touches(all[k], s)
      {
        assert Apart(all[k], segs[i]);
      }
      assert FirstTouching(all, s, 0) == |all|;
    }
  }

  lemma OthersAvoid(segs: seq<Segment>, i: nat)
    requires Canonical(segs) && i < |segs|
    ensures forall a :: Covered(RemoveAt(segs, i), a) ==> !segs[i].Contains(a)
    ensures forall k :: 0 <= k < |segs| - 1 ==> Apart(RemoveAt(segs, i)[k], segs[i])
  {}

  // ----- where in the list memory goes

  /** No segment from `from` on but those at `t` and `u` touches the range. */
  predicate OnlyTouch(segs: seq<Segment>, s: Segment, t: nat, u: nat) {
    forall k :: 0 <= k < |segs| && k != t && k != u ==> !Touches(segs[k], s)
  }

  /** Memory that touches nothing becomes the last segment of the list. */
  lemma FreedAppends(segs: seq<Segment>, s: Segment)
    requires s.size > 0 && forall k :: 0 <= k < |segs| ==> !Touches(segs[k], s)
    ensures Freed(segs, s.base, s.size) == segs + [s]
  {
    JoinStays(segs + [s], |segs|);
  }

  /** Nothing to join. */
  lemma JoinStays(segs: seq<Segment>, c: nat)
    requires c < |segs| && segs[c].size > 0 && forall k :: 0 <= k < |segs| && k != c ==> !Touches(segs[k], segs[c])
    ensures Join(segs, c) == segs
  {
    var t := FirstTouching(segs, segs[c], 0);
    assert t < |segs| ==> t == c;
  }

  /** Memory in front of one segment takes it over and becomes the last segment. */
  lemma FreedBefore(segs: seq<Segment>, s: Segment, t: nat)
    requires s.size > 0 && Canonical(segs) && t < |segs| && segs[t].base == s.End() && OnlyTouch(segs, s, t, t)
    requires forall k :: 0 <= k < |segs| ==> Disjoint(segs[k], s)
    ensures Freed(segs, s.base, s.size) == RemoveAt(segs, t) + [Segment(s.base, s.size + segs[t].size)]
  {
    var all, c := segs + [s], |segs|;
    var joined := RemoveAt(segs, t) + [Segment(s.base, s.size + segs[t].size)];
    assert all[t] == segs[t];
    assert FirstTouching(all, s, 0) == t;
    assert Merge(all, c, t).0 == joined;
    forall k | 0 <= k < |segs| - 1
      ensures !Touches(joined[k], joined[|segs| - 1])
    {
      var m := if k < t then k else k + 1;
      assert joined[k] == segs[m] && !Touches(segs[m], s) && (m < t ==> Apart(segs[m], segs[t])) && (t < m ==> Apart(segs[t], segs[m]));
    }
    JoinStays(joined, |segs| - 1);
  }

  /** Memory behind one segment is added to it where it stands. */
  lemma FreedBehind(segs: seq<Segment>, s: Segment, u: nat)
    requires s.size > 0 && Canonical(segs) && u < |segs| && segs[u].End() == s.base && OnlyTouch(segs, s, u, u)
    requires forall k :: 0 <= k < |segs| ==> Disjoint(segs[k], s)
    ensures Freed(segs, s.base, s.size) == segs[u := Segment(segs[u].base, segs[u].size + s.size)]
  {
    var all, c := segs + [s], |segs|;
    var joined := segs[u := Segment(segs[u].base, segs[u].size + s.size)];
    assert all[u] == segs[u];
    assert FirstTouching(all, s, 0) == u;
    assert Merge(all, c, u).0 == joined;
    forall k | 0 <= k < |segs| && k != u
      ensures !Touches(joined[k], joined[u])
    {
      assert !Touches(segs[k], s) && (k < u ==> Apart(segs[k], segs[u])) && (u < k ==> Apart(segs[u], segs[k]));
    }
    JoinStays(joined, u);
  }

  // ----- segments on a grid stay on it

  /** Base and size are multiples of `unit`. */
  predicate OnGrid(s: Segment, unit: nat)
    requires unit > 0
  {
    s.base % unit == 0 && s.size % unit == 0 && s.size >= unit
  }

  predicate AllOnGrid(segs: seq<Segment>, unit: nat)
    requires unit > 0
  {
    forall s :: s in segs ==> OnGrid(s, unit)
  }

  /** The units in use: 64 bytes in the kernel heap, a page for physical memory. */
  predicate IsUnit(unit: nat) { unit == 64 || unit == 4096 }

  lemma SumOnGrid(a: nat, b: nat, unit: nat)
    requires IsUnit(unit) && a % unit == 0 && b % unit == 0
    ensures (a + b) % unit == 0 && (a > b ==> (a - b) % unit == 0 && a - b >= unit)
  {
    if unit == 64 { Sum64(a, b); } else { Sum4096(a, b); }
  }

  lemma Sum64(a: nat, b: nat)
    requires a % 64 == 0 && b % 64 == 0
    ensures (a + b) % 64 == 0 && (a > b ==> (a - b) % 64 == 0 && a - b >= 64)
  {}

  lemma Sum4096(a: nat, b: nat)
    requires a % 4096 == 0 && b % 4096 == 0
    ensures (a + b) % 4096 == 0 && (a > b ==> (a - b) % 4096 == 0 && a - b >= 4096)
  {
    var p, q := a / 4096, b / 4096;
    assert a == 4096 * p && b == 4096 * q;
    Pages(p + q);
    Pages(p - q);
  }

  lemma Pages(k: int)
    ensures (4096 * k) % 4096 == 0
  {}

  lemma AbsorbOnGrid(segs: seq<Segment>, keep: nat, drop: nat, unit: nat)
    requires IsUnit(unit) && keep < |segs| && drop < |segs| && keep != drop && AllOnGrid(segs, unit)
    ensures AllOnGrid(Absorb(segs, keep, drop), unit)
  {
    assert OnGrid(segs[keep], unit) && OnGrid(segs[drop], unit);
    var merged := Segment(segs[keep].base, segs[keep].size + segs[drop].size);
    SumOnGrid(segs[keep].size, segs[drop].size, unit);
    forall s | s in Absorb(segs, keep, drop)
      ensures OnGrid(s, unit)
    {
      assert s == merged || s in segs;
    }
  }

  lemma {:induction false} JoinOnGrid(segs: seq<Segment>, c: nat, unit: nat)
    requires IsUnit(unit) && c < |segs| && AllOnGrid(segs, unit)
    ensures AllOnGrid(Join(segs, c), unit)
    decreases |segs|
  {
    var t := FirstTouching(segs, segs[c], 0);
    if t < |segs| && t != c {
      if segs[t].base == segs[c].End() {
        AbsorbOnGrid(segs, c, t, unit);
      } else {
        AbsorbOnGrid(segs, t, c, unit);
      }
      JoinOnGrid(Merge(segs, c, t).0, Merge(segs, c, t).1, unit);
    }
  }

  lemma FreedOnGrid(segs: seq<Segment>, base: nat, size: nat, unit: nat)
    requires IsUnit(unit) && AllOnGrid(segs, unit) && OnGrid(Segment(base, size), unit)
    ensures AllOnGrid(Freed(segs, base, size), unit)
  {
    JoinOnGrid(segs + [Segment(base, size)], |segs|, unit);
  }

  lemma UsedOnGrid(segs: seq<Segment>, i: nat, size: nat, unit: nat)
    requires IsUnit(unit) && AllOnGrid(segs, unit) && i < |segs| && size <= segs[i].size && size % unit == 0
    ensures AllOnGrid(Used(segs, i, size), unit)
  {
    assert OnGrid(segs[i], unit);
    ErasedOnGrid(segs, i, unit);
    if segs[i].size > size {
      SumOnGrid(segs[i].base, size, unit);
      SumOnGrid(segs[i].size, size, unit);
      FreedOnGrid(RemoveAt(segs, i), segs[i].base + size, segs[i].size - size, unit);
    }
  }

  lemma ErasedOnGrid(segs: seq<Segment>, i: nat, unit: nat)
    requires unit > 0 && AllOnGrid(segs, unit) && i < |segs|
    ensures AllOnGrid(RemoveAt(segs, i), unit)
  {}

  // ----- canonical form is determined by the covered set

  /** Consecutive covered addresses sit in the same segment of a canonical list. */
  lemma SameSegment(segs: seq<Segment>, s: Segment, a: nat)
    requires Canonical(segs) && s in segs && s.Contains(a) && Covered(segs, a + 1)
    ensures s.Contains(a + 1)
  {}

  /** An interval that is wholly free is part of one single segment. */
  lemma {:induction false} IntervalInOneSegment(segs: seq<Segment>, s: Segment, lo: nat, hi: nat)
    requires Canonical(segs) && s in segs && s.Contains(lo) && lo < hi
    requires forall a :: lo <= a < hi ==> Covered(segs, a)
    ensures hi <= s.End()
    decreases hi
  {
    if hi > lo + 1 {
      IntervalInOneSegment(segs, s, lo, hi - 1);
      SameSegment(segs, s, hi - 2);
    }
  }

  /** A free interval has a segment that contains all of it. */
  lemma IntervalHasSegment(segs: seq<Segment>, lo: nat, hi: nat) returns (s: Segment)
    requires Canonical(segs) && lo < hi
    requires forall a :: lo <= a < hi ==> Covered(segs, a)
    ensures s in segs && s.base <= lo && hi <= s.End()
  {
    assert Covered(segs, lo);
    s :| s in segs && s.Contains(lo);
    IntervalInOneSegment(segs, s, lo, hi);
  }

  /** Two canonical lists covering the same addresses hold the same segments. */
  lemma CanonicalIsUnique(segs: seq<Segment>, other: seq<Segment>)
    requires Canonical(segs) && Canonical(other)
    requires forall a :: Covered(segs, a) <==> Covered(other, a)
    ensures forall s :: s in segs <==> s in other
  {
    forall s | s in segs
      ensures s in other
    {
      SegmentShared(segs, other, s);
    }
    forall s | s in other
      ensures s in segs
    {
      SegmentShared(other, segs, s);
    }
  }

  lemma SegmentShared(segs: seq<Segment>, other: seq<Segment>, s: Segment)
    requires Canonical(segs) && Canonical(other) && s in segs
    requires forall a :: Covered(segs, a) <==> Covered(other, a)
    ensures s in other
  {
    assert s.size > 0;
    forall a | s.base <= a < s.End()
      ensures Covered(other, a)
    {
      assert Covered(segs, a);
    }
    var t := IntervalHasSegment(other, s.base, s.End());
    forall a | t.base <= a < t.End()
      ensures Covered(segs, a)
    {
      assert Covered(other, a);
    }
    var u := IntervalHasSegment(segs, t.base, t.End());
    OneAtPoint(segs, s, u, s.base);
  }

  /** No address is in two segments. */
  lemma OneAtPoint(segs: seq<Segment>, s: Segment, t: Segment, a: int)
    requires Canonical(segs) && s in segs && t in segs && s.Contains(a) && t.Contains(a)
    ensures s == t
  {
    var i :| 0 <= i < |segs| && segs[i] == s;
    var j :| 0 <= j < |segs| && segs[j] == t;
    assert i == j;
  }

  lemma NothingCovered(segs: seq<Segment>)
    requires Canonical(segs) && forall a :: !Covered(segs, a)
    ensures segs == []
  {
    if segs != [] { FirstCovered(segs); }
  }

  lemma FirstCovered(segs: seq<Segment>)
    requires Canonical(segs) && segs != []
    ensures Covered(segs, segs[0].base)
  {
    assert segs[0] in segs && segs[0].Contains(segs[0].base);
  }

  /** A canonical list that covers one interval is that one segment. */
  lemma OneIntervalOneSegment(segs: seq<Segment>, lo: nat, hi: nat)
    requires Canonical(segs) && lo < hi
    requires forall a :: Covered(segs, a) <==> lo <= a < hi
    ensures segs == [Segment(lo, hi - lo)]
  {
    var whole := [Segment(lo, hi - lo)];
    assert |segs| > 1 ==> Apart(segs[0], segs[1]);
    forall a
      ensures Covered(whole, a) <==> lo <= a < hi
    {
      if lo <= a < hi { assert whole[0] in whole && whole[0].Contains(a); }
    }
    CanonicalIsUnique(segs, whole);
    assert whole[0] in whole && whole[0] in segs;
    forall i | 0 <= i < |segs|
      ensures segs[i] == whole[0]
    {
      assert segs[i] in segs;
    }
  }

  // ----- the list object

  class List {
    var segs: seq<Segment>

    constructor ()
      ensures segs == []
    {
      segs := [];
    }

    /** Takes over the segments the boot loader linked, in their order. */
    method Init(list: seq<PhysicalSegment>)
      modifies this
      ensures |segs| == |old(segs)| + |list| && segs[..|old(segs)|] == old(segs)
      ensures forall k :: 0 <= k < |list| ==> segs[|old(segs)| + k] == Segment(list[k].base, list[k].numPages * 4096)
    {
      ghost var n := |segs|;
      var i := 0;
      while i < |list|
        invariant 0 <= i <= |list| && |segs| == n + i && segs[..n] == old(segs)
        invariant forall k :: 0 <= k < i ==> segs[n + k] == Segment(list[k].base, list[k].numPages * 4096)
      {
        segs := segs + [Segment(list[i].base, list[i].numPages * 4096)];
        i := i + 1;
      }
    }

    /** Base of the first segment that fits, or None when no segment does. */
    method FindFree(size: nat) returns (r: Option<nat>)
      ensures r.None? <==> forall s :: s in segs ==> s.size < size
      ensures r.Some? ==> var i := FirstFit(segs, size, 0); i < |segs| && r.value == segs[i].base
    {
      var i := 0;
      while i < |segs|
        invariant 0 <= i <= |segs|
        invariant forall k :: 0 <= k < i ==> segs[k].size < size
        invariant FirstFit(segs, size, i) == FirstFit(segs, size, 0)
      {
        if segs[i].size >= size {
          return Some(segs[i].base);
        }
        i := i + 1;
      }
      return None;
    }

    method MarkFree(base: nat, size: nat)
      requires Canonical(segs) && size > 0 && NotFree(segs, Segment(base, size))
      modifies this
      ensures segs == Freed(old(segs), base, size)
      ensures Canonical(segs)
      ensures forall a :: Covered(segs, a) <==> old(Covered(segs, a)) || base <= a < base + size
    {
      FreedGains(segs, base, size);
      PushedCanonicalBut(segs, Segment(base, size));
      PushAndJoin(base, size);
    }

    method PushAndJoin(base: nat, size: nat)
      requires CanonicalBut(segs + [Segment(base, size)], |segs|)
      modifies this
      ensures segs == Freed(old(segs), base, size)
    {
      segs := segs + [Segment(base, size)];
      JoinAdjacent(|segs| - 1);
    }

    /** Takes the first `size` bytes of the free segment that starts at `base`. */
    method MarkUsed(base: nat, size: nat, ghost i: nat)
      requires Canonical(segs) && i < |segs| && segs[i].base == base && size <= segs[i].size
      modifies this
      ensures segs == Used(old(segs), i, size)
      ensures Canonical(segs)
      ensures forall a :: Covered(segs, a) <==> old(Covered(segs, a)) && !(base <= a < base + size)
    {
      UsedLoses(segs, i, size);
      RemainderJoins(segs, i, size);
      var k := IndexOf(base, i);
      var node := segs[k];
      EraseAndRest(k, node, size);
    }

    /** Takes the node off the list and puts the rest of its segment back. */
    method EraseAndRest(k: nat, node: Segment, size: nat)
      requires k < |segs| && node == segs[k] && size <= node.size
      requires size < node.size ==> CanonicalBut(RemoveAt(segs, k) + [Segment(node.base + size, node.size - size)], |segs| - 1)
      modifies this
      ensures segs == Used(old(segs), k, size)
    {
      segs := RemoveAt(segs, k);
      if node.size > size {
        PushAndJoin(node.base + size, node.size - size);
      }
    }

    /** The node of the segment that starts at `base`; the source has its address. */
    method IndexOf(base: nat, ghost i: nat) returns (k: nat)
      requires Canonical(segs) && i < |segs| && segs[i].base == base
      ensures k == i
    {
      k := 0;
      while segs[k].base != base
        invariant 0 <= k <= i
        decreases i - k
      {
        k := k + 1;
      }
    }

    /** Joins the segment at `c` with whatever touches it, restarting after every join. */
    method JoinAdjacent(c: nat)
      requires CanonicalBut(segs, c)
      modifies this
      ensures segs == Join(old(segs), c)
      decreases |segs|
    {
      var t := Touching(segs[c]);
      if t < |segs| {
        JoinMerged(segs, c, t);
        var c' := MergeAt(c, t);
        JoinAdjacent(c');
      }
    }

    /** The segment at the lower address takes over the other one, whose node goes. */
    method MergeAt(c: nat, t: nat) returns (c': nat)
      requires c < |segs| && t < |segs| && c != t && Touches(segs[t], segs[c])
      modifies this
      ensures segs == Merge(old(segs), c, t).0 && c' == Merge(old(segs), c, t).1
    {
      var cmp, tmp := segs[c], segs[t];
      if tmp.base == cmp.End() {
        segs := segs[c := Segment(cmp.base, cmp.size + tmp.size)];
        segs := RemoveAt(segs, t);
        c' := if t < c then c - 1 else c;
      } else {
        segs := segs[t := Segment(tmp.base, tmp.size + cmp.size)];
        segs := RemoveAt(segs, c);
        c' := if c < t then t - 1 else t;
      }
    }

    /** The scan of JoinAdjacent: the first segment that touches `cmp`, or the end. */
    method Touching(cmp: Segment) returns (t: nat)
      ensures t == FirstTouching(segs, cmp, 0)
    {
      t := 0;
      while t < |segs| && segs[t].base != cmp.End() && segs[t].End() != cmp.base
        invariant 0 <= t <= |segs|
        invariant FirstTouching(segs, cmp, t) == FirstTouching(segs, cmp, 0)
      {
        t := t + 1;
      }
    }
  }
}
