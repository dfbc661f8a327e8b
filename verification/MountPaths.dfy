/** Mount lookup in terms of path components: a mount's path covers a path when its components are
    the first components of that path.
 */
module MountPaths {
  import opened Paths
  import opened MountTree
  import MountTable

  lemma {:induction false} JoinSplit(s: string)
    ensures Join(Split(s)) == s
  {
    if s != "" {
      JoinSplit(Front(s));
      FrontLast(s);
      SplitSnoc(Front(s), Last(s));
      JoinSnoc(Split(Front(s)), Last(s));
    }
  }

  /** Appending a character to the last component, or starting a new one. */
  lemma JoinSnoc(r: seq<string>, c: char)
    requires r != []
    ensures Join(if c == SEP then r + [""] else Front(r) + [Last(r) + [c]]) == Join(r) + [c]
  {}

  lemma {:induction false} JoinAppend(a: seq<string>, b: seq<string>)
    requires a != [] && b != []
    ensures Join(a + b) == Join(a) + [SEP] + Join(b)
    decreases |b|
  {
    if |b| == 1 {
      assert a + b == a + [b[0]];
      JoinPush(a, b[0]);
    } else {
      JoinAppend(a, Front(b));
      assert a + b == (a + Front(b)) + [Last(b)];
      JoinPush(a + Front(b), Last(b));
      Regroup(Join(a) + [SEP], Join(Front(b)), [SEP], Last(b));
    }
  }

  lemma Regroup(w: string, x: string, y: string, z: string)
    ensures (w + x) + y + z == w + (x + y + z)
  {}

  lemma JoinPush(a: seq<string>, x: string)
    requires a != []
    ensures Join(a + [x]) == Join(a) + [SEP] + x
  {
    FrontSnoc(a, x);
  }

  lemma CoversGivesPrefix(m: string, p: string)
    requires Covers(m, p)
    ensures Split(m) <= Split(p)
  {
    if |m| < |p| {
      var rest := p[|m| + 1..];
      assert p == m + [SEP] + rest;
      SplitAppend(m, rest);
    } else {
      assert m == p;
    }
  }

  lemma PrefixGivesCovers(m: string, p: string)
    requires Split(m) <= Split(p)
    ensures Covers(m, p)
  {
    var a, tail := Split(m), Split(p)[|Split(m)|..];
    assert Split(p) == a + tail;
    JoinSplit(m);
    JoinSplit(p);
    if tail == [] {
      assert a + tail == a;
    } else {
      JoinAppend(a, tail);
      assert p == m + [SEP] + Join(tail);
    }
  }

  /** MountCmp accepts exactly the component prefixes. */
  lemma CoversIsComponentPrefix(m: string, p: string)
    ensures Covers(m, p) <==> Split(m) <= Split(p)
  {
    if Covers(m, p) { CoversGivesPrefix(m, p); }
    if Split(m) <= Split(p) { PrefixGivesCovers(m, p); }
  }

  /** In every reachable mount tree, no mount whose components are a prefix of those of `p` has more
      components than the mount that lookup returns, and the latter's are such a prefix too. */
  lemma RunLookupByComponents(ops: seq<MountTable.Op>, trace: seq<MountTable.State>, k: nat, p: string, x: Id)
    requires MountTable.IsRun(ops, trace) && k <= |ops| && x in trace[k].ms && x != ROOT
    requires Split(trace[k].ms[x].path) <= Split(p)
    ensures var ms := trace[k].ms;
            && Down(ms) && Lookup(ms, p) != ROOT
            && Split(ms[x].path) <= Split(ms[Lookup(ms, p)].path) <= Split(p)
  {
    var ms := trace[k].ms;
    CoversIsComponentPrefix(ms[x].path, p);
    MountTable.RunLookupIsLongest(ops, trace, k, p, x);
    var r := Lookup(ms, p);
    NotRoot(ms, x);
    CoversIsComponentPrefix(ms[r].path, p);
    CoversNested(ms[x].path, ms[r].path, p);
    CoversIsComponentPrefix(ms[x].path, ms[r].path);
  }

  lemma NotRoot(ms: Mounts, x: Id)
    requires WellFormed(ms) && x in ms && x != ROOT
    ensures |ms[x].path| > 0 && ms[ROOT].path == ""
  {
    assert Linked(ms, x);
  }
}
