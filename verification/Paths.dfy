/** What a prepared path means: the components of the absolute path, without empty ones, with
    "." skipped and ".." taking back the component before it, joined by single slashes.
 */
module Paths {
  const SEP: char := '/'
  const NUL: char := '\0'

  function Last<T>(s: seq<T>): T
    requires s != []
  {
    s[|s| - 1]
  }

  function Front<T>(s: seq<T>): seq<T>
    requires s != []
  {
    s[..|s| - 1]
  }

  lemma FrontLast<T>(s: seq<T>)
    requires s != []
    ensures Front(s) + [Last(s)] == s
  {}

  lemma FrontSnoc<T>(s: seq<T>, x: T)
    ensures Front(s + [x]) == s && Last(s + [x]) == x
  {}

  /** The pieces between slashes; always at least one, possibly empty ones. */
  function Split(s: string): (r: seq<string>)
    ensures r != []
  {
    if s == "" then [""]
    else if Last(s) == SEP then Split(Front(s)) + [""]
    else var r := Split(Front(s)); Front(r) + [Last(r) + [Last(s)]]
  }

  function Join(cs: seq<string>): string {
    if cs == [] then ""
    else if |cs| == 1 then cs[0]
    else Join(Front(cs)) + [SEP] + Last(cs)
  }

  /** The left fold over the components: what is resolved so far, and what is still to come. */
  function Resolve(done: seq<string>, rest: seq<string>): seq<string>
    decreases rest
  {
    if rest == [] then done
    else if rest[0] == "." then Resolve(done, rest[1..])
    else if rest[0] == ".." then Resolve(if done == [] then [] else Front(done), rest[1..])
    else Resolve(done + [rest[0]], rest[1..])
  }

  function NonEmpty(cs: seq<string>): seq<string> {
    if cs == [] then []
    else NonEmpty(Front(cs)) + if Last(cs) == "" then [] else [Last(cs)]
  }

  /** The components a full path stands for. */
  function Canonical(full: string): seq<string> {
    Resolve([], NonEmpty(Split(full)))
  }

  // ----- the string operations of the source

  /** Runs of slashes become one slash. */
  function Squeeze(s: string): string {
    if s == "" then ""
    else if Last(s) == SEP && Front(s) != "" && Last(Front(s)) == SEP then Squeeze(Front(s))
    else Squeeze(Front(s)) + [Last(s)]
  }

  function DropTrailing(s: string): string {
    if s != "" && Last(s) == SEP then Front(s) else s
  }

  function StripLeading(s: string): (r: string)
    ensures r == "" || r[0] != SEP
    ensures |r| <= |s|
  {
    if s == "" || s[0] != SEP then s else StripLeading(s[1..])
  }

  predicate NoSep(c: string) { forall i :: 0 <= i < |c| ==> c[i] != SEP }

  predicate Clean(cs: seq<string>) {
    forall i :: 0 <= i < |cs| ==> cs[i] != "" && cs[i] != "." && cs[i] != ".." && NoSep(cs[i])
  }

  predicate NoNul(s: string) { NUL !in s }

  // ----- Split and Join

  lemma {:induction false} SplitNoSep(s: string)
    ensures forall i :: 0 <= i < |Split(s)| ==> NoSep(Split(s)[i])
  {
    if s != "" { SplitNoSep(Front(s)); }
  }

  lemma {:induction false} SplitWithoutSep(c: string)
    requires NoSep(c)
    ensures Split(c) == [c]
  {
    if c != "" {
      SplitWithoutSep(Front(c));
      FrontLast(c);
    }
  }

  /** A slash separates: the pieces of a/b are the pieces of a and the pieces of b. */
  lemma {:induction false} SplitAppend(a: string, b: string)
    ensures Split(a + [SEP] + b) == Split(a) + Split(b)
    decreases |b|
  {
    var s := a + [SEP] + b;
    if b == "" {
      assert s == a + [SEP] && Front(s) == a;
    } else {
      assert Front(s) == a + [SEP] + Front(b) && Last(s) == Last(b);
      SplitAppend(a, Front(b));
      var ra, rb := Split(a), Split(Front(b));
      if Last(b) == SEP {
        assert (ra + rb) + [""] == ra + (rb + [""]);
      } else {
        assert Front(ra + rb) == ra + Front(rb) && Last(ra + rb) == Last(rb);
      }
    }
  }

  lemma {:induction false} SplitJoin(cs: seq<string>)
    requires cs != [] && forall i :: 0 <= i < |cs| ==> NoSep(cs[i])
    ensures Split(Join(cs)) == cs
  {
    if |cs| == 1 {
      SplitWithoutSep(cs[0]);
    } else {
      assert Join(cs) == Join(Front(cs)) + [SEP] + Last(cs);
      SplitJoin(Front(cs));
      SplitWithoutSep(Last(cs));
      SplitAppend(Join(Front(cs)), Last(cs));
      FrontLast(cs);
    }
  }

  lemma {:induction false} NonEmptyAppend(a: seq<string>, b: seq<string>)
    ensures NonEmpty(a + b) == NonEmpty(a) + NonEmpty(b)
    decreases |b|
  {
    if b == [] {
      assert a + b == a;
    } else {
      assert Front(a + b) == a + Front(b) && Last(a + b) == Last(b);
      NonEmptyAppend(a, Front(b));
    }
  }

  lemma {:induction false} NonEmptyKeeps(cs: seq<string>)
    requires forall i :: 0 <= i < |cs| ==> cs[i] != ""
    ensures NonEmpty(cs) == cs
  {
    if cs != [] {
      NonEmptyKeeps(Front(cs));
      FrontLast(cs);
    }
  }

  lemma {:induction false} NonEmptyIs(cs: seq<string>)
    requires forall i :: 0 <= i < |cs| ==> NoSep(cs[i])
    ensures forall i :: 0 <= i < |NonEmpty(cs)| ==> NonEmpty(cs)[i] != "" && NoSep(NonEmpty(cs)[i])
  {
    if cs != [] { NonEmptyIs(Front(cs)); }
  }

  // ----- the two clean-up passes do not change the non-empty components

  lemma {:induction false} SqueezeShape(s: string)
    ensures Squeeze(s) == "" <==> s == ""
    ensures s != "" ==> Last(Squeeze(s)) == Last(s) && Squeeze(s)[0] == s[0]
    ensures |Squeeze(s)| <= |s|
  {
    if s != "" { SqueezeShape(Front(s)); }
  }

  /** Squeezing runs of slashes keeps the non-empty components. */
  lemma {:induction false} SqueezeKeeps(s: string)
    ensures NonEmpty(Split(Squeeze(s))) == NonEmpty(Split(s))
  {
    if s != "" {
      var f := Front(s);
      SqueezeKeeps(f);
      SqueezeShape(f);
      FrontLast(s);
      if Last(s) == SEP && f != "" && Last(f) == SEP {
        NonEmptySnoc(Split(f), "");
      } else {
        LastPiece(f, Squeeze(f), Last(s));
      }
    }
  }

  /** Appending the same character to two strings with the same non-empty components. */
  lemma LastPiece(f: string, g: string, c: char)
    requires NonEmpty(Split(f)) == NonEmpty(Split(g))
    requires (f == "") == (g == "") && (f != "" ==> Last(f) == Last(g))
    ensures NonEmpty(Split(f + [c])) == NonEmpty(Split(g + [c]))
  {
    SplitSnoc(f, c);
    SplitSnoc(g, c);
    var rf, rg := Split(f), Split(g);
    SplitEnds(f);
    SplitEnds(g);
    if c == SEP {
      NonEmptyAppend(rf, [""]);
      NonEmptyAppend(rg, [""]);
    } else {
      FrontLast(rf);
      FrontLast(rg);
      NonEmptySnoc(Front(rf), Last(rf));
      NonEmptySnoc(Front(rg), Last(rg));
      NonEmptySnoc(Front(rf), Last(rf) + [c]);
      NonEmptySnoc(Front(rg), Last(rg) + [c]);
      if Last(rf) != "" {
        assert Last(NonEmpty(rf)) == Last(rf) && Front(NonEmpty(rf)) == NonEmpty(Front(rf));
        assert Last(NonEmpty(rg)) == Last(rg) && Front(NonEmpty(rg)) == NonEmpty(Front(rg));
      }
    }
  }

  lemma SplitSnoc(f: string, c: char)
    ensures Split(f + [c]) == if c == SEP then Split(f) + [""] else Front(Split(f)) + [Last(Split(f)) + [c]]
  {}

  lemma NonEmptySnoc(cs: seq<string>, c: string)
    ensures NonEmpty(cs + [c]) == NonEmpty(cs) + if c == "" then [] else [c]
  {}

  /** The last piece is empty exactly when the string is empty or ends in a slash. */
  lemma SplitEnds(s: string)
    ensures Last(Split(s)) == "" <==> s == "" || Last(s) == SEP
  {}

  lemma DropTrailingKeeps(s: string)
    ensures NonEmpty(Split(DropTrailing(s))) == NonEmpty(Split(s))
  {}

  lemma {:induction false} StripLeadingKeeps(s: string)
    ensures NonEmpty(Split(StripLeading(s))) == NonEmpty(Split(s))
  {
    if s != "" && s[0] == SEP {
      StripLeadingKeeps(s[1..]);
      assert s == "" + [SEP] + s[1..];
      SplitAppend("", s[1..]);
      assert Split("") == [""];
      NonEmptyAppend([""], Split(s[1..]));
      assert NonEmpty([""]) == [] by { assert Front([""]) == []; }
    }
  }

  /** No empty pieces, unless the whole path is empty. */
  predicate Squeezed(s: string) {
    s == "" || forall i :: 0 <= i < |Split(s)| ==> Split(s)[i] != ""
  }

  predicate NoDouble(s: string) {
    forall i :: 0 <= i < |s| - 1 ==> !(s[i] == SEP && s[i + 1] == SEP)
  }

  lemma {:induction false} SqueezeNoDouble(s: string)
    ensures NoDouble(Squeeze(s))
  {
    if s != "" {
      SqueezeNoDouble(Front(s));
      SqueezeShape(Front(s));
    }
  }

  /** Single slashes only, none in front and none at the end: then no piece is empty. */
  lemma {:induction false} NoDoublePieces(s: string)
    requires s != "" && s[0] != SEP && NoDouble(s)
    ensures forall i :: 0 <= i < |Split(s)| - 1 ==> Split(s)[i] != ""
    ensures Last(Split(s)) == "" <==> Last(s) == SEP
  {
    SplitEnds(s);
    if |s| > 1 {
      NoDoublePieces(Front(s));
      assert !(s[|s| - 2] == SEP && s[|s| - 1] == SEP);
      assert Last(Front(s)) == s[|s| - 2];
    } else {
      assert Front(s) == "";
    }
  }

  lemma NoDoubleTrimmed(q: string)
    requires NoDouble(q) && (q == "" || q[0] != SEP)
    ensures var d := DropTrailing(q); NoDouble(d) && (d == "" || (d[0] != SEP && Last(d) != SEP))
  {}

  lemma CleanedIsSqueezed(s: string)
    requires s == "" || s[0] != SEP
    ensures Squeezed(DropTrailing(Squeeze(s)))
  {
    SqueezeShape(s);
    SqueezeNoDouble(s);
    NoDoubleTrimmed(Squeeze(s));
    var d := DropTrailing(Squeeze(s));
    if d != "" { NoDoublePieces(d); }
  }

  /** A squeezed path has at most half as many pieces as characters, so 255 characters need no
      more than 128 stack entries. */
  lemma PiecesFit(s: string)
    requires Squeezed(s)
    ensures 2 * |Split(s)| <= |s| + 2
  {
    if s != "" {
      SplitLength(s);
      SumNonEmpty(Split(s));
    }
  }

  function Total(cs: seq<string>): nat {
    if cs == [] then 0 else Total(Front(cs)) + |Last(cs)|
  }

  lemma {:induction false} SplitLength(s: string)
    ensures Total(Split(s)) + |Split(s)| == |s| + 1
  {
    if s == "" {
      assert Front([""]) == [];
    } else {
      SplitLength(Front(s));
      var r := Split(Front(s));
      if Last(s) == SEP {
        assert Front(r + [""]) == r;
      } else {
        var t := Front(r) + [Last(r) + [Last(s)]];
        assert Front(t) == Front(r) && Last(t) == Last(r) + [Last(s)];
      }
    }
  }

  lemma {:induction false} SumNonEmpty(cs: seq<string>)
    requires forall i :: 0 <= i < |cs| ==> cs[i] != ""
    ensures Total(cs) >= |cs|
  {
    if cs != [] { SumNonEmpty(Front(cs)); }
  }

  // ----- Resolve

  /** Resolving clean-or-special components gives clean components. */
  lemma {:induction false} ResolveClean(done: seq<string>, rest: seq<string>)
    requires Clean(done) && forall i :: 0 <= i < |rest| ==> rest[i] != "" && NoSep(rest[i])
    ensures Clean(Resolve(done, rest))
    decreases rest
  {
    if rest != [] {
      if rest[0] == "." {
        ResolveClean(done, rest[1..]);
      } else if rest[0] == ".." {
        ResolveClean(if done == [] then [] else Front(done), rest[1..]);
      } else {
        ResolveClean(done + [rest[0]], rest[1..]);
      }
    }
  }

  lemma {:induction false} ResolveOfClean(done: seq<string>, rest: seq<string>)
    requires Clean(rest)
    ensures Resolve(done, rest) == done + rest
    decreases rest
  {
    if rest != [] {
      ResolveOfClean(done + [rest[0]], rest[1..]);
      assert done + [rest[0]] + rest[1..] == done + rest;
    } else {
      assert done + rest == done;
    }
  }

  /** Resolving in two parts. */
  lemma {:induction false} ResolveAppend(done: seq<string>, a: seq<string>, b: seq<string>)
    ensures Resolve(done, a + b) == Resolve(Resolve(done, a), b)
    decreases a
  {
    if a == [] {
      assert a + b == b;
    } else {
      var next := if a[0] == "." then done else if a[0] == ".." then (if done == [] then [] else Front(done)) else done + [a[0]];
      assert (a + b)[0] == a[0] && (a + b)[1..] == a[1..] + b;
      ResolveAppend(next, a[1..], b);
    }
  }

  lemma ResolveOne(done: seq<string>, c: string)
    ensures Resolve(done, [c]) ==
              if c == "." then done else if c == ".." then (if done == [] then [] else Front(done)) else done + [c]
  {
    assert [c][1..] == [];
  }

  // ----- what the components of a path are, in terms of paths

  /** The components of a path in three parts, the middle one a single piece. */
  lemma CanonicalParts(p: string, c: string, q: string)
    requires NoSep(c)
    ensures Canonical(p + [SEP] + c + [SEP] + q) ==
              Resolve(if c == "" then Canonical(p) else Resolve(Canonical(p), [c]), NonEmpty(Split(q)))
  {
    PartsOf(p, c, q);
    var a, b := NonEmpty(Split(p)), NonEmpty(Split(q));
    if c == "" {
      ResolveAppend([], a, b);
      assert a + [] == a;
    } else {
      ResolveAppend([], a + [c], b);
      ResolveAppend([], a, [c]);
    }
  }

  lemma PartsOf(p: string, c: string, q: string)
    requires NoSep(c)
    ensures NonEmpty(Split(p + [SEP] + c + [SEP] + q)) ==
              NonEmpty(Split(p)) + (if c == "" then [] else [c]) + NonEmpty(Split(q))
  {
    SplitAppend(p + [SEP] + c, q);
    SplitAppend(p, c);
    SplitWithoutSep(c);
    NonEmptyAppend(Split(p) + [c], Split(q));
    NonEmptySnoc(Split(p), c);
  }

  lemma CanonicalTwo(p: string, q: string)
    ensures Canonical(p + [SEP] + q) == Resolve(Canonical(p), NonEmpty(Split(q)))
  {
    SplitAppend(p, q);
    NonEmptyAppend(Split(p), Split(q));
    ResolveAppend([], NonEmpty(Split(p)), NonEmpty(Split(q)));
  }

  /** Double slashes and "." can be left out. */
  lemma DotLaw(p: string, q: string)
    ensures Canonical(p + [SEP] + "." + [SEP] + q) == Canonical(p + [SEP] + q)
    ensures Canonical(p + [SEP] + "" + [SEP] + q) == Canonical(p + [SEP] + q)
  {
    CanonicalParts(p, ".", q);
    CanonicalParts(p, "", q);
    CanonicalTwo(p, q);
    ResolveOne(Canonical(p), ".");
  }

  /** An ordinary component and the ".." behind it can be left out. */
  lemma DotDotLaw(p: string, c: string, q: string)
    requires c != "" && c != "." && c != ".." && NoSep(c)
    ensures Canonical(p + [SEP] + c + [SEP] + ".." + [SEP] + q) == Canonical(p + [SEP] + q)
  {
    CanonicalParts(p + [SEP] + c, "..", q);
    SplitWithoutSep(c);
    NonEmptyKeeps([c]);
    CanonicalTwo(p, c);
    CanonicalTwo(p, q);
    ResolveOne(Canonical(p), c);
    ResolveOne(Canonical(p) + [c], "..");
    FrontSnoc(Canonical(p), c);
  }

  /** ".." in front of everything can be left out: the root has no parent. */
  lemma RootLaw(q: string)
    ensures Canonical([SEP] + ".." + [SEP] + q) == Canonical([SEP] + q)
  {
    assert [SEP] + ".." + [SEP] + q == "" + [SEP] + ".." + [SEP] + q && [SEP] + q == "" + [SEP] + q;
    CanonicalParts("", "..", q);
    CanonicalTwo("", q);
    EmptyPath();
    ResolveOne([], "..");
  }

  lemma EmptyPath()
    ensures NonEmpty(Split("")) == [] && Canonical("") == []
  {
    assert NonEmpty([""]) == [] by { assert Front([""]) == []; }
  }

  /** And clean components are the components of their path. */
  lemma CleanLaw(cs: seq<string>)
    requires Clean(cs)
    ensures Canonical(Join(cs)) == cs
  {
    if cs == [] {
      EmptyPath();
    } else {
      SplitJoin(cs);
      NonEmptyKeeps(cs);
      ResolveOfClean([], cs);
      assert [] + cs == cs;
    }
  }

  /** Every prepared path consists of clean components only: none is empty, "." or "..". */
  lemma CanonicalIsClean(full: string)
    ensures Clean(Canonical(full))
  {
    SplitNoSep(full);
    NonEmptyIs(Split(full));
    ResolveClean([], NonEmpty(Split(full)));
  }

  /** No leading and no trailing slash. */
  lemma {:induction false} JoinEnds(cs: seq<string>)
    requires Clean(cs) && cs != []
    ensures var s := Join(cs); s != "" && s[0] != SEP && Last(s) != SEP
  {
    if |cs| > 1 {
      JoinEnds(Front(cs));
      assert Last(Join(cs)) == Last(Last(cs));
    }
  }

  /** Preparing a prepared path again, as an absolute path, gives the same path. */
  lemma Idempotent(full: string)
    ensures Canonical([SEP] + Join(Canonical(full))) == Canonical(full)
  {
    var cs := Canonical(full);
    CanonicalIsClean(full);
    var again := [SEP] + Join(cs);
    assert again == "" + [SEP] + Join(cs);
    SplitAppend("", Join(cs));
    assert Split("") == [""];
    NonEmptyAppend([""], Split(Join(cs)));
    assert NonEmpty([""]) == [] by { assert Front([""]) == []; }
    if cs != [] {
      SplitJoin(cs);
      NonEmptyKeeps(cs);
    }
    assert NonEmpty(Split(again)) == cs;
    ResolveOfClean([], cs);
    assert [] + cs == cs;
  }

  /** What the clean-up passes and the fold compute together is the canonical path. */
  lemma PassesGiveCanonical(full: string)
    ensures var d := DropTrailing(Squeeze(StripLeading(full)));
            && Squeezed(d)
            && Join(Resolve([], Split(d))) == Join(Canonical(full))
  {
    var a := StripLeading(full);
    var q := Squeeze(a);
    StripLeadingKeeps(full);
    SqueezeKeeps(a);
    DropTrailingKeeps(q);
    CleanedIsSqueezed(a);
    FoldOfSqueezed(DropTrailing(q));
  }

  /** Without double slashes only the empty path has an empty piece. */
  lemma FoldOfSqueezed(d: string)
    requires Squeezed(d)
    ensures Join(Resolve([], Split(d))) == Join(Resolve([], NonEmpty(Split(d))))
  {
    if d == "" {
      FoldOfEmpty([""]);
    } else {
      NonEmptyKeeps(Split(d));
    }
  }

  lemma FoldOfEmpty(cs: seq<string>)
    requires cs == [""]
    ensures Join(Resolve([], cs)) == Join(Resolve([], NonEmpty(cs)))
  {
    assert NonEmpty(cs) == [] by { assert Front(cs) == []; }
    assert Resolve([], cs) == [""] by { assert [] + [""] == [""]; assert cs[1..] == []; }
  }
}
