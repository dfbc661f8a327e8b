/** Choosing the next thread: the first ready thread of the active list runs and goes to its end. */
module RoundRobin {
  import opened Wrappers
  import opened Sequences

  type Tid = nat

  /** Position of the first ready thread from `from` on, or the length of the list. */
  function FirstReady(active: seq<Tid>, ready: set<Tid>, from: nat): (i: nat)
    requires from <= |active|
    ensures from <= i <= |active|
    ensures i < |active| ==> active[i] in ready
    ensures forall k :: from <= k < i ==> active[k] !in ready
    decreases |active| - from
  {
    if from == |active| || active[from] in ready then from else FirstReady(active, ready, from + 1)
  }

  function Chosen(active: seq<Tid>, ready: set<Tid>): Option<Tid> {
    var i := FirstReady(active, ready, 0);
    if i == |active| then None else Some(active[i])
  }

  function Rotated(active: seq<Tid>, ready: set<Tid>): seq<Tid> {
    var i := FirstReady(active, ready, 0);
    if i == |active| then active else RemoveAt(active, i) + [active[i]]
  }

  /** The idle thread runs exactly when no listed thread is ready. */
  lemma IdleIffNoneReady(active: seq<Tid>, ready: set<Tid>)
    ensures Chosen(active, ready) == None <==> forall t :: t in active ==> t !in ready
  {}

  // ----- who is how far from being chosen

  /** How many threads are before `t`. */
  function IndexOf(ts: seq<Tid>, t: Tid): (i: nat)
    ensures i <= |ts| && (i < |ts| <==> t in ts) && (i < |ts| ==> ts[i] == t)
    ensures forall k :: 0 <= k < i ==> ts[k] != t
  {
    if ts == [] then 0
    else if ts[0] == t then 0
    else
      var i := IndexOf(ts[1..], t);
      assert ts == [ts[0]] + ts[1..];
      assert forall k :: 1 <= k < |ts| ==> ts[k] == ts[1..][k - 1];
      i + 1
  }

  lemma IndexIs(ts: seq<Tid>, t: Tid, i: nat)
    requires NoDup(ts) && i < |ts| && ts[i] == t
    ensures IndexOf(ts, t) == i
  {
    var j := IndexOf(ts, t);
    assert ts[j] == t;
    assert i == j;
  }

  lemma RotatedNoDup(active: seq<Tid>, ready: set<Tid>)
    requires NoDup(active)
    ensures NoDup(Rotated(active, ready)) && forall t :: t in Rotated(active, ready) ==> t in active
  {}

  /** A choice that passes over a ready thread moves a thread from before it to the end. */
  lemma FindMovesUp(active: seq<Tid>, ready: set<Tid>, t: Tid)
    requires NoDup(active) && t in active && t in ready && Chosen(active, ready) != Some(t)
    ensures t in Rotated(active, ready) && IndexOf(Rotated(active, ready), t) == IndexOf(active, t) - 1
  {
    var i, k := FirstReady(active, ready, 0), IndexOf(active, t);
    assert i < k;
    var r := Rotated(active, ready);
    assert r[k - 1] == t;
    RotatedNoDup(active, ready);
    IndexIs(r, t, k - 1);
  }
}
