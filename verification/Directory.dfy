/** Directories as growing arrays of entries, searched with the rest of a path: the search compares
    characters and finds the entry named by the first component.
 */
module Directory {
  import opened Wrappers
  import opened Sequences
  import opened Paths
  import MountPaths
  import MountTree
  import TempFs

  type Entry = TempFs.Entry

  /** What is left of the path after its first component. */
  function Rest(path: string): string { Join(Split(path)[1..]) }

  lemma FirstIsPrefix(path: string, name: string)
    requires NoSep(name)
    ensures MountTree.Covers(name, path) <==> Split(path)[0] == name
  {
    SplitWithoutSep(name);
    MountPaths.CoversIsComponentPrefix(name, path);
    SingletonPrefix(name, Split(path));
  }

  lemma SingletonPrefix(c: string, cs: seq<string>)
    requires cs != []
    ensures [c] <= cs <==> cs[0] == c
  {}

  lemma RestOfAppend(name: string, rest: string)
    requires NoSep(name)
    ensures Rest(name + [SEP] + rest) == rest
  {
    SplitWithoutSep(name);
    SplitAppend(name, rest);
    assert ([name] + Split(rest))[1..] == Split(rest);
    MountPaths.JoinSplit(rest);
  }

  lemma RestOfName(name: string)
    requires NoSep(name)
    ensures Rest(name) == ""
  {
    SplitWithoutSep(name);
    assert [name][1..] == [];
  }

  /** The name is the first component exactly when it covers the path, and what follows the slash
      is the rest. */
  lemma FirstComponent(path: string, name: string)
    requires NoSep(name)
    ensures MountTree.Covers(name, path) <==> Split(path)[0] == name
    ensures MountTree.Covers(name, path) ==> Rest(path) == if |path| == |name| then "" else path[|name| + 1..]
  {
    FirstIsPrefix(path, name);
    if MountTree.Covers(name, path) { RestBehind(path, name); }
  }

  lemma RestBehind(path: string, name: string)
    requires NoSep(name) && MountTree.Covers(name, path)
    ensures Rest(path) == if |path| == |name| then "" else path[|name| + 1..]
  {
    if |path| == |name| {
      assert path == name;
      RestOfName(name);
    } else {
      var rest := path[|name| + 1..];
      Behind(path, name);
      RestOfAppend(name, rest);
    }
  }

  lemma Behind(path: string, name: string)
    requires MountTree.Covers(name, path) && |path| != |name|
    ensures path == name + [SEP] + path[|name| + 1..]
  {}

  /** Compares one name with the front of the path; on a match, what is left of the path. */
  method PathWalk(path: string, name: string) returns (r: Option<string>)
    requires NoSep(name)
    ensures r == if Split(path)[0] == name then Some(Rest(path)) else None
  {
    FirstComponent(path, name);
    var index := 0;
    while true
      invariant 0 <= index <= |name| && index <= |path| && path[..index] == name[..index]
      decreases |name| - index
    {
      if index == |name| {
        assert name[..index] == name;
        if index == |path| {
          assert path[..index] == path && path == name;
          assert MountTree.Covers(name, path) && path[index..] == "";
          return Some(path[index..]);
        }
        if path[index] == SEP { return Some(path[index + 1..]); }
        return None;
      }
      if index == |path| || path[index] != name[index] { return None; }
      index := index + 1;
    }
  }

  class Directory {
    var entries: array<Entry>
    var numEntries: nat

    ghost predicate Valid()
      reads this
    {
      numEntries <= entries.Length
    }

    ghost function Contents(): seq<Entry>
      requires Valid()
      reads this, entries
    {
      entries[..numEntries]
    }

    constructor (capacity: nat)
      ensures Valid() && Contents() == [] && fresh(entries)
    {
      entries := new Entry[capacity](_ => TempFs.Entry("", 0));
      numEntries := 0;
    }

    /** The first entry named by the first component of the path, and the rest of the path. */
    method FindEntry(path: string) returns (i: nat, rest: string)
      requires Valid() && forall e :: e in Contents() ==> NoSep(e.name)
      ensures i == TempFs.IndexOf(Contents(), Split(path)[0], 0)
      ensures i < |Contents()| ==> rest == Rest(path)
    {
      i, rest := 0, path;
      while i < numEntries
        invariant 0 <= i <= numEntries
        invariant TempFs.IndexOf(Contents(), Split(path)[0], i) == TempFs.IndexOf(Contents(), Split(path)[0], 0)
      {
        assert Contents()[i] == entries[i] && entries[i] in Contents();
        var r := PathWalk(path, entries[i].name);
        if r.Some? { return i, r.value; }
        i := i + 1;
      }
    }

    /** A full directory moves to an array with room for 16 more. */
    method AddEntry(e: Entry)
      requires Valid()
      modifies this, entries
      ensures Valid() && Contents() == old(Contents()) + [e]
      ensures entries == old(entries) || fresh(entries)
    {
      if numEntries == entries.Length { Grow(); }
      entries[numEntries] := e;
      numEntries := numEntries + 1;
    }

    method Grow()
      requires Valid()
      modifies this`entries
      ensures Valid() && Contents() == old(Contents()) && fresh(entries) && entries.Length == old(entries.Length) + 16
    {
      var bigger := new Entry[entries.Length + 16](_ => TempFs.Entry("", 0));
      var i := 0;
      while i < numEntries
        invariant 0 <= i <= numEntries <= entries.Length && entries == old(entries)
        invariant forall k :: 0 <= k < i ==> bigger[k] == entries[k]
      {
        bigger[i] := entries[i];
        i := i + 1;
      }
      entries := bigger;
    }

    method RemoveEntry(index: nat)
      requires Valid() && index < |Contents()|
      modifies this`numEntries, entries
      ensures Valid() && Contents() == RemoveAt(old(Contents()), index)
    {
      var i := index + 1;
      while i < numEntries
        invariant index < i <= numEntries == old(numEntries) && numEntries <= entries.Length
        invariant forall k :: 0 <= k < index ==> entries[k] == old(entries[k])
        invariant forall k :: index <= k < i - 1 ==> entries[k] == old(entries[k + 1])
        invariant forall k :: i <= k < numEntries ==> entries[k] == old(entries[k])
      {
        entries[i - 1] := entries[i];
        i := i + 1;
      }
      numEntries := numEntries - 1;
    }
  }

  /** Walking a prepared path name by name goes through its components in order. */
  lemma RestIsTail(path: string)
    requires |Split(path)| > 1
    ensures Split(Rest(path)) == Split(path)[1..]
  {
    SplitNoSep(path);
    SplitJoin(Split(path)[1..]);
  }
}
