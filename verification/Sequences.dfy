/** Sequences without repetition, and taking an element out of one: by position or by value. */
module Sequences {
  predicate NoDup<T(==)>(s: seq<T>) { forall i, j :: 0 <= i < j < |s| ==> s[i] != s[j] }

  function RemoveAt<T>(s: seq<T>, i: nat): (r: seq<T>)
    requires i < |s|
    ensures |r| == |s| - 1
    ensures forall k :: 0 <= k < |r| ==> r[k] == s[if k < i then k else k + 1]
  {
    s[..i] + s[i + 1..]
  }

  function Except<T(==, !new)>(s: seq<T>, x: T): (r: seq<T>)
    ensures forall y :: y in r <==> y in s && y != x
    ensures |r| <= |s|
  {
    if s == [] then [] else (if s[0] == x then [] else [s[0]]) + Except(s[1..], x)
  }

  lemma NoDupTail<T>(s: seq<T>)
    requires NoDup(s) && s != []
    ensures NoDup(s[1..]) && s[0] !in s[1..]
  {
    var t := s[1..];
    assert forall i :: 0 <= i < |t| ==> t[i] == s[i + 1];
  }

  lemma NoDupCons<T>(x: T, t: seq<T>)
    requires NoDup(t) && x !in t
    ensures NoDup([x] + t)
  {}

  lemma {:induction false} ExceptNoDup<T(!new)>(s: seq<T>, x: T)
    requires NoDup(s)
    ensures NoDup(Except(s, x))
    ensures |Except(s, x)| == |s| - if x in s then 1 else 0
  {
    if s != [] {
      NoDupTail(s);
      ExceptNoDup(s[1..], x);
      NoDupCons(s[0], Except(s[1..], x));
      assert s == [s[0]] + s[1..];
    }
  }

  lemma {:induction false} ExceptAbsent<T(!new)>(s: seq<T>, x: T)
    requires x !in s
    ensures Except(s, x) == s
  {
    if s != [] {
      ExceptAbsent(s[1..], x);
      assert s == [s[0]] + s[1..];
    }
  }

  /** Without repetitions, taking out a value is taking out its position. */
  lemma {:induction false} ExceptIsRemoveAt<T(!new)>(s: seq<T>, i: nat)
    requires NoDup(s) && i < |s|
    ensures Except(s, s[i]) == RemoveAt(s, i)
  {
    NoDupTail(s);
    var rest := s[1..];
    if i == 0 {
      ExceptAbsent(rest, s[0]);
      assert RemoveAt(s, 0) == rest;
    } else {
      ExceptIsRemoveAt(rest, i - 1);
      assert RemoveAt(s, i) == [s[0]] + RemoveAt(rest, i - 1);
    }
  }

  lemma ExceptSingle<T(!new)>(x: T)
    ensures Except([x], x) == []
  {
    assert [x][1..] == [];
  }
}
