/** Pipes: each is a ring of 4096 bytes of which one always stays unused, so that equal positions mean
    empty. It behaves as a first-in first-out queue of at most 4095 bytes. Slots of destroyed
    pipes are used again.
 */
module PipeFs {
  import opened Wrappers

  const SIZE: nat := 4096
  const CAPACITY: nat := 4095

  datatype Error = InvalidBuffer

  // ----- the queue

  /** Writing moves what fits; `acc` bytes of the caller's buffer can be accessed. */
  function Put(q: seq<Byte>, data: seq<Byte>, acc: nat): (seq<Byte>, Result<nat, Error>)
    requires |q| <= CAPACITY
  {
    var n := Min(|data|, CAPACITY - |q|);
    if n <= acc then (q + data[..n], Ok(n)) else (q, Err(InvalidBuffer))
  }

  /** Reading moves what there is, up to the request. */
  function Take(q: seq<Byte>, request: nat, acc: nat): (seq<Byte>, Result<seq<Byte>, Error>) {
    var n := Min(request, |q|);
    if n <= acc then (q[n..], Ok(q[..n])) else (q, Err(InvalidBuffer))
  }

  /** A write into an accessible buffer moves as many bytes as are given or fit into 4095, a read as many
      as are asked for or there; otherwise nothing moves. */
  lemma MovesExactly(q: seq<Byte>, data: seq<Byte>, request: nat, acc: nat)
    requires |q| <= 4095
    ensures var n := if |q| + |data| <= 4095 then |data| else 4095 - |q|;
            Put(q, data, acc) == if n <= acc then (q + data[..n], Ok(n)) else (q, Err(InvalidBuffer))
    ensures var n := if request <= |q| then request else |q|;
            var (rest, res) := Take(q, request, acc);
            if n <= acc then res.Ok? && |res.value| == n && res.value + rest == q else rest == q && res == Err(InvalidBuffer)
  {}

  /** One pipe since it was created: the queue, all bytes written to it, all bytes read from it. */
  datatype History = History(queue: seq<Byte>, written: seq<Byte>, read: seq<Byte>)

  /** The slots of the file system; None is a slot that is free. */
  type Slots = seq<Option<History>>

  datatype Op =
    | Create
    | Destroy(id: nat)
    | Write(id: nat, data: seq<Byte>, acc: nat)
    | Read(id: nat, request: nat, acc: nat)

  predicate Live(ps: Slots, id: nat) { id < |ps| && ps[id].Some? }

  predicate Legal(ps: Slots, op: Op) { op.Create? || Live(ps, op.id) }

  predicate Bounded(ps: Slots) { forall i :: 0 <= i < |ps| && ps[i].Some? ==> |ps[i].value.queue| <= CAPACITY }

  function FirstFree(ps: Slots, from: nat): (i: nat)
    requires from <= |ps|
    ensures from <= i <= |ps|
    ensures i < |ps| ==> ps[i].None?
    ensures forall k :: from <= k < i ==> ps[k].Some?
    decreases |ps| - from
  {
    if from == |ps| || ps[from].None? then from else FirstFree(ps, from + 1)
  }

  function Written(h: History, data: seq<Byte>, acc: nat): History
    requires |h.queue| <= CAPACITY
  {
    var (q, r) := Put(h.queue, data, acc);
    History(q, if r.Ok? then h.written + data[..r.value] else h.written, h.read)
  }

  function WasRead(h: History, request: nat, acc: nat): History {
    var (q, r) := Take(h.queue, request, acc);
    History(q, h.written, if r.Ok? then h.read + r.value else h.read)
  }

  const FRESH := History([], [], [])

  function Step(ps: Slots, op: Op): Slots
    requires Bounded(ps) && Legal(ps, op)
  {
    match op
    case Create =>
      var i := FirstFree(ps, 0);
      if i < |ps| then ps[i := Some(FRESH)] else ps + [Some(FRESH)]
    case Destroy(id) => ps[id := None]
    case Write(id, data, acc) => ps[id := Some(Written(ps[id].value, data, acc))]
    case Read(id, request, acc) => ps[id := Some(WasRead(ps[id].value, request, acc))]
  }

  ghost predicate Steps(ps: Slots, op: Op, ps': Slots) {
    Bounded(ps) ==> Legal(ps, op) && ps' == Step(ps, op)
  }

  ghost predicate IsRun(ops: seq<Op>, trace: seq<Slots>) {
    && |trace| == |ops| + 1 && trace[0] == []
    && forall i :: 0 <= i < |ops| ==> Steps(trace[i], ops[i], trace[i + 1])
  }

  predicate Fifo(h: History) {
    |h.queue| <= CAPACITY && h.written == h.read + h.queue && h.read <= h.written
  }

  predicate AllFifo(ps: Slots) { forall i :: 0 <= i < |ps| && ps[i].Some? ==> Fifo(ps[i].value) }

  lemma StepFifo(ps: Slots, op: Op)
    requires AllFifo(ps) && Bounded(ps) && Legal(ps, op)
    ensures AllFifo(Step(ps, op))
  {}

  /** Whatever the order and the sizes of the calls, for every pipe that is in use: what was read
      from it is what was written to it first, what was written and not read is in its queue, and
      nothing is left over from an earlier pipe in the same slot. */
  lemma {:induction false} RunIsFifo(ops: seq<Op>, trace: seq<Slots>, k: nat)
    requires IsRun(ops, trace) && k <= |ops|
    ensures AllFifo(trace[k]) && Bounded(trace[k])
  {
    if k > 0 {
      RunIsFifo(ops, trace, k - 1);
      assert Steps(trace[k - 1], ops[k - 1], trace[k - 1 + 1]);
      StepFifo(trace[k - 1], ops[k - 1]);
    }
  }

  /** A new pipe never takes the slot of one in use, and no call changes another pipe. */
  lemma OthersUnchanged(ps: Slots, op: Op, i: nat)
    requires Bounded(ps) && Legal(ps, op) && Live(ps, i) && (op.Create? || op.id != i)
    ensures Live(Step(ps, op), i) && Step(ps, op)[i] == ps[i]
  {}

  // ----- the ring

  function Wrap(x: nat): nat { if x < SIZE then x else x - SIZE }

  predicate Positions(b: seq<Byte>, r: nat, w: nat) { |b| == SIZE && r < SIZE && w < SIZE }

  function Used(r: nat, w: nat): nat
    requires r < SIZE && w < SIZE
  {
    if r <= w then w - r else SIZE - r + w
  }

  /** The bytes from the read position to the write position. */
  function Ring(b: seq<Byte>, r: nat, w: nat): (q: seq<Byte>)
    requires Positions(b, r, w)
    ensures |q| == Used(r, w) <= CAPACITY
    ensures forall k {:trigger q[k]} :: 0 <= k < |q| ==> q[k] == b[Wrap(r + k)]
  {
    if r <= w then b[r..w] else b[r..] + b[..w]
  }

  lemma RingTake(b: seq<Byte>, r: nat, w: nat, n: nat)
    requires Positions(b, r, w) && n <= Used(r, w)
    ensures Positions(b, Wrap(r + n), w) && Ring(b, Wrap(r + n), w) == Ring(b, r, w)[n..]
  {}

  predicate InUse(r: nat, w: nat, x: nat) { if r <= w then r <= x < w else r <= x < SIZE || x < w }

  /** The bytes in use did not change. */
  predicate Keeps(b: seq<Byte>, b': seq<Byte>, r: nat, w: nat)
    requires Positions(b, r, w)
  {
    |b'| == SIZE && forall x {:trigger b'[x]} :: 0 <= x < SIZE && InUse(r, w, x) ==> b'[x] == b[x]
  }

  /** `data` stands at position `w` and goes on at the start of the ring. */
  predicate Stands(b: seq<Byte>, w: nat, data: seq<Byte>) {
    |b| == SIZE && w < SIZE && |data| <= SIZE
    && forall k {:trigger data[k]} :: 0 <= k < |data| ==> b[Wrap(w + k)] == data[k]
  }

  lemma RingKept(b: seq<Byte>, b': seq<Byte>, r: nat, w: nat)
    requires Positions(b, r, w) && Keeps(b, b', r, w)
    ensures Ring(b', r, w) == Ring(b, r, w)
  {}

  lemma RingPut(b: seq<Byte>, b': seq<Byte>, r: nat, w: nat, data: seq<Byte>)
    requires Positions(b, r, w) && |data| <= CAPACITY - Used(r, w) && Keeps(b, b', r, w) && Stands(b', w, data)
    ensures Positions(b', r, Wrap(w + |data|)) && Ring(b', r, Wrap(w + |data|)) == Ring(b, r, w) + data
  {}

  /** What a copy of `n` bytes from the caller's offset `from` to position `at` leaves behind when
      `m` bytes were copied. */
  predicate CopiedIn(b: seq<Byte>, b': seq<Byte>, at: nat, data: seq<Byte>, from: nat, m: nat) {
    && |b'| == |b| && at + m <= |b| && from + m <= |data|
    && forall k {:trigger b'[k]} :: 0 <= k < |b| ==> b'[k] == if at <= k < at + m then data[k - at + from] else b[k]
  }

  /** Writing into unused bytes only, in one piece. */
  lemma OnePiece(b: seq<Byte>, b': seq<Byte>, r: nat, w: nat, data: seq<Byte>, m: nat)
    requires Positions(b, r, w) && CopiedIn(b, b', w, data, 0, m) && m <= CAPACITY - Used(r, w)
    ensures Keeps(b, b', r, w) && Stands(b', w, data[..m])
  {}

  /** Two copies, the second from the start of the ring and only if the first reached its end. */
  lemma WroteBoth(b: seq<Byte>, b1: seq<Byte>, b2: seq<Byte>, r: nat, w: nat, data: seq<Byte>, a: nat, n: nat)
    requires Positions(b, r, w) && r <= w && CopiedIn(b, b1, w, data, 0, a) && CopiedIn(b1, b2, 0, data, a, n)
    requires a <= CAPACITY - Used(r, w) && (n > 0 ==> a == SIZE - w && n < r)
    ensures Keeps(b, b2, r, w) && Stands(b2, w, data[..a + n])
  {}

  lemma ReadBoth(b: seq<Byte>, r: nat, w: nat, remA: nat, remB: nat)
    requires Positions(b, r, w) && w < r && remA <= SIZE - r && remB <= w && (remB > 0 ==> remA == SIZE - r)
    ensures b[r..r + remA] + b[..remB] == Ring(b, r, w)[..remA + remB]
  {}

  lemma WrapIsMod(x: nat)
    requires x < 2 * SIZE
    ensures x % SIZE == Wrap(x)
  {}

  /** How many bytes go to or come from the end of the ring, and how many its start. */
  method TwoSizes(roomA: nat, roomB: nat, request: nat) returns (remA: nat, remB: nat)
    ensures remA + remB == Min(request, roomA + roomB) && remA <= roomA && remB <= roomB
    ensures remB > 0 ==> remA == roomA
  {
    remA, remB := roomA, roomB;
    if remA > request {
      remA, remB := request, 0;
    } else if remA + remB > request {
      remB := request - remA;
    }
  }

  class Pipe {
    const buffer: array<Byte>
    var readPos: nat
    var writePos: nat
    var free: bool

    ghost predicate Valid()
      reads this, buffer
    {
      Positions(buffer[..], readPos, writePos)
    }

    ghost function Contents(): (q: seq<Byte>)
      requires Valid()
      reads this, buffer
      ensures |q| <= CAPACITY
    {
      Ring(buffer[..], readPos, writePos)
    }

    constructor ()
      ensures Valid() && Contents() == [] && !free && fresh(buffer)
    {
      buffer := new Byte[SIZE];
      readPos, writePos, free := 0, 0, false;
    }

    /** What CreateNode does with a pipe that is free. */
    method Reopen()
      requires Valid()
      modifies this
      ensures Valid() && Contents() == [] && !free
    {
      free := false;
      readPos := 0;
      writePos := 0;
    }

    /** kmemcpy_usersafe from the caller: stops at the first byte it cannot access. */
    method CopyIn(at: nat, data: seq<Byte>, from: nat, n: nat, acc: nat) returns (m: nat)
      requires at + n <= buffer.Length && from + n <= |data|
      modifies buffer
      ensures m == Min(n, if acc > from then acc - from else 0)
      ensures CopiedIn(old(buffer[..]), buffer[..], at, data, from, m)
    {
      m := 0;
      while m < n && from + m < acc
        invariant 0 <= m <= n && (m == 0 || from + m <= acc)
        invariant forall k :: 0 <= k < buffer.Length ==>
                    buffer[k] == if at <= k < at + m then data[k - at + from] else old(buffer[k])
      {
        buffer[at + m] := data[from + m];
        m := m + 1;
      }
    }

    method CopyOut(at: nat, n: nat, from: nat, acc: nat) returns (ok: bool, out: seq<Byte>)
      requires at + n <= buffer.Length
      ensures ok == (n == 0 || from + n <= acc)
      ensures ok ==> out == buffer[at..at + n]
    {
      out := [];
      while |out| < n && from + |out| < acc
        invariant |out| <= n && (out == [] || from + |out| <= acc) && out == buffer[at..at + |out|]
      {
        out := out + [buffer[at + |out|]];
      }
      ok := |out| == n;
    }

    method Read(request: nat, acc: nat) returns (res: Result<seq<Byte>, Error>)
      requires Valid()
      modifies this`readPos
      ensures Valid() && (Contents(), res) == Take(old(Contents()), request, acc)
    {
      ghost var b, r, w := buffer[..], readPos, writePos;
      if readPos == writePos {
        return Ok([]);
      } else if readPos < writePos {
        var rem := Min(writePos - readPos, request);
        RingTake(b, r, w, rem);
        var ok, out := CopyOut(readPos, rem, 0, acc);
        if !ok { return Err(InvalidBuffer); }
        readPos := readPos + rem;
        assert out == Ring(b, r, w)[..rem];
        return Ok(out);
      } else {
        res := ReadTwo(request, acc);
      }
    }

    /** The bytes run over the end of the ring. */
    method ReadTwo(request: nat, acc: nat) returns (res: Result<seq<Byte>, Error>)
      requires Valid() && writePos < readPos
      modifies this`readPos
      ensures Valid() && (Contents(), res) == Take(old(Contents()), request, acc)
    {
      ghost var b, r, w := buffer[..], readPos, writePos;
      var remA, remB := TwoSizes(SIZE - readPos, writePos, request);
      RingTake(b, r, w, remA + remB);
      var ok, out := CopyOut(readPos, remA, 0, acc);
      if !ok { return Err(InvalidBuffer); }
      var okB, outB := CopyOut(0, remB, remA, acc);
      if !okB { return Err(InvalidBuffer); }
      ReadBoth(b, r, w, remA, remB);
      WrapIsMod(r + (remA + remB));
      readPos := (readPos + remA + remB) % SIZE;
      return Ok(out + outB);
    }

    method Write(data: seq<Byte>, acc: nat) returns (res: Result<nat, Error>)
      requires Valid()
      modifies this`writePos, buffer
      ensures Valid() && (Contents(), res) == Put(old(Contents()), data, acc)
    {
      if writePos < readPos {
        res := WriteOne(data, readPos - writePos - 1, acc);
      } else if readPos > 0 {
        res := WriteTwo(data, acc);
      } else {
        res := WriteOne(data, SIZE - writePos - 1, acc);
      }
    }

    /** The unused bytes are in one piece of `room` bytes. */
    method WriteOne(data: seq<Byte>, room: nat, acc: nat) returns (res: Result<nat, Error>)
      requires Valid() && room == CAPACITY - Used(readPos, writePos) && writePos + room < SIZE
      modifies this`writePos, buffer
      ensures Valid() && (Contents(), res) == Put(old(Contents()), data, acc)
    {
      ghost var b, r, w := buffer[..], readPos, writePos;
      var rem := Min(room, |data|);
      var m := CopyIn(writePos, data, 0, rem, acc);
      OnePiece(b, buffer[..], r, w, data, m);
      RingKept(b, buffer[..], r, w);
      if m < rem { return Err(InvalidBuffer); }
      RingPut(b, buffer[..], r, w, data[..rem]);
      writePos := writePos + rem;
      return Ok(rem);
    }

    /** The unused bytes run over the end of the ring. */
    method WriteTwo(data: seq<Byte>, acc: nat) returns (res: Result<nat, Error>)
      requires Valid() && 0 < readPos <= writePos
      modifies this`writePos, buffer
      ensures Valid() && (Contents(), res) == Put(old(Contents()), data, acc)
    {
      ghost var b, r, w := buffer[..], readPos, writePos;
      var remA, remB := TwoSizes(SIZE - writePos, readPos - 1, |data|);
      var ok := CopyBoth(data, remA, remB, acc);
      RingKept(b, buffer[..], r, w);
      if !ok { return Err(InvalidBuffer); }
      RingPut(b, buffer[..], r, w, data[..remA + remB]);
      WrapIsMod(w + (remA + remB));
      writePos := (writePos + remA + remB) % SIZE;
      return Ok(remA + remB);
    }

    method CopyBoth(data: seq<Byte>, remA: nat, remB: nat, acc: nat) returns (ok: bool)
      requires Valid() && 0 < readPos <= writePos && remA + remB <= |data|
      requires remA <= SIZE - writePos && remB < readPos && (remB > 0 ==> remA == SIZE - writePos)
      modifies buffer
      ensures Keeps(old(buffer[..]), buffer[..], readPos, writePos)
      ensures ok == (remA + remB <= acc)
      ensures ok ==> Stands(buffer[..], writePos, data[..remA + remB])
    {
      ghost var b := buffer[..];
      var m := CopyIn(writePos, data, 0, remA, acc);
      ghost var b1 := buffer[..];
      OnePiece(b, b1, readPos, writePos, data, m);
      if m < remA { return false; }
      var n := CopyIn(0, data, remA, remB, acc);
      WroteBoth(b, b1, buffer[..], readPos, writePos, data, remA, n);
      ok := n == remB;
    }
  }

  class Fs {
    var pipes: seq<Pipe>
    ghost var slots: Slots

    ghost predicate Valid()
      reads this, pipes, set p | p in pipes :: p.buffer
    {
      && |slots| == |pipes|
      && (forall i, j :: 0 <= i < j < |pipes| ==> pipes[i] != pipes[j] && pipes[i].buffer != pipes[j].buffer)
      && (forall i :: 0 <= i < |pipes| ==> SlotOk(pipes[i], slots[i]))
    }

    constructor ()
      ensures Valid() && slots == []
    {
      pipes, slots := [], [];
    }

    /** The loop of CreateNode: the first slot that is free, or the number of slots. */
    method FindFree() returns (id: nat)
      requires Valid()
      ensures id == FirstFree(slots, 0)
    {
      id := 0;
      while id < |pipes|
        invariant 0 <= id <= |pipes| && FirstFree(slots, id) == FirstFree(slots, 0)
      {
        assert SlotOk(pipes[id], slots[id]);
        if pipes[id].free { return; }
        id := id + 1;
      }
    }

    method CreateNode() returns (id: nat)
      requires Valid()
      modifies this, pipes
      ensures Valid() && Bounded(old(slots)) && slots == Step(old(slots), Create)
      ensures Live(slots, id) && slots[id] == Some(History([], [], []))
      ensures !Live(old(slots), id) && forall k: nat :: k < id ==> Live(old(slots), k)
      ensures forall k: nat :: Live(old(slots), k) ==> Live(slots, k) && slots[k] == old(slots)[k]
    {
      id := FindFree();
      if id < |pipes| {
        Reset(id);
      } else {
        Append();
      }
    }

    method Reset(id: nat)
      requires Valid() && id < |pipes|
      modifies this`slots, pipes
      ensures Valid() && slots == old(slots)[id := Some(FRESH)]
    {
      var p := pipes[id];
      assert SlotOk(p, slots[id]);
      p.Reopen();
      slots := slots[id := Some(FRESH)];
    }

    method Append()
      requires Valid()
      modifies this
      ensures Valid() && slots == old(slots) + [Some(FRESH)]
    {
      var p := new Pipe();
      pipes := pipes + [p];
      slots := slots + [Some(FRESH)];
    }

    method DestroyNode(id: nat)
      requires Valid() && Live(slots, id)
      modifies this`slots, pipes
      ensures Valid() && Bounded(old(slots)) && slots == Step(old(slots), Destroy(id))
      ensures !Live(slots, id) && forall k: nat :: Live(old(slots), k) && k != id ==> Live(slots, k) && slots[k] == old(slots)[k]
    {
      pipes[id].free := true;
      slots := slots[id := None];
    }

    method ReadOnce(id: nat, request: nat, acc: nat) returns (res: Result<seq<Byte>, Error>)
      requires Valid() && Live(slots, id)
      modifies this`slots, pipes
      ensures Valid() && Bounded(old(slots)) && slots == Step(old(slots), Read(id, request, acc))
      ensures res == Take(old(slots)[id].value.queue, request, acc).1
    {
      assert SlotOk(pipes[id], slots[id]);
      res := pipes[id].Read(request, acc);
      slots := slots[id := Some(WasRead(slots[id].value, request, acc))];
    }

    method WriteOnce(id: nat, data: seq<Byte>, acc: nat) returns (res: Result<nat, Error>)
      requires Valid() && Live(slots, id)
      modifies this`slots, pipes, set p | p in pipes :: p.buffer
      ensures Valid() && Bounded(old(slots)) && slots == Step(old(slots), Write(id, data, acc))
      ensures res == Put(old(slots)[id].value.queue, data, acc).1
    {
      assert SlotOk(pipes[id], slots[id]);
      res := pipes[id].Write(data, acc);
      slots := slots[id := Some(Written(slots[id].value, data, acc))];
    }

    method WriteRest(id: nat, data: seq<Byte>, done: nat, acc: nat, ghost w: seq<Byte>, ghost ps: seq<Piece>)
      returns (count: Result<nat, Error>, ghost ps': seq<Piece>)
      requires Valid() && Live(slots, id) && done <= |data|
      requires slots[id].value.written == w + All(ps) && MineOf(ps) == data[..done]
      modifies this`slots, pipes, set p | p in pipes :: p.buffer
      ensures Valid() && Live(slots, id) && (count.Ok? ==> done + count.value <= |data|)
      ensures slots[id].value.written == w + All(ps') && MineOf(ps') == data[..if count.Ok? then done + count.value else done]
    {
      count := WriteCounted(id, data[done..], if acc > done then acc - done else 0);
      ps' := ps;
      if count.Ok? { ps' := MoreOfMine(w, ps, data, done, count.value); }
    }

    /** One round, and what it adds to the bytes written. */
    method WriteCounted(id: nat, data: seq<Byte>, acc: nat) returns (count: Result<nat, Error>)
      requires Valid() && Live(slots, id)
      modifies this`slots, pipes, set p | p in pipes :: p.buffer
      ensures Valid() && |slots| == |old(slots)| && (forall i :: 0 <= i < |slots| && i != id ==> slots[i] == old(slots)[i])
      ensures Live(slots, id) && (count.Ok? ==> count.value <= |data|)
      ensures slots[id].value.written == old(slots)[id].value.written + if count.Ok? then data[..count.value] else []
    {
      WrittenGrows(slots[id].value, data, acc);
      count := WriteOnce(id, data, acc);
    }

    /** A call of another process between two rounds; nothing happens if its pipe does not exist. */
    method LetOther(id: nat, op: Op, ghost w: seq<Byte>, ghost ps: seq<Piece>) returns (ghost ps': seq<Piece>)
      requires Valid() && Live(slots, id) && (op.Write? || op.Read?) && slots[id].value.written == w + All(ps)
      modifies this`slots, pipes, set p | p in pipes :: p.buffer
      ensures Valid() && Live(slots, id) && slots[id].value.written == w + All(ps') && MineOf(ps') == MineOf(ps)
    {
      ps' := ps;
      if op.id >= |pipes| { return; }
      assert SlotOk(pipes[op.id], slots[op.id]);
      if pipes[op.id].free { return; }
      if op.Write? {
        var count := WriteCounted(op.id, op.data, op.acc);
        if op.id == id && count.Ok? {
          ps' := ps + [Theirs(op.data[..count.value])];
          WithPiece(w, ps, Theirs(op.data[..count.value]));
        }
      } else {
        var _ := ReadOnce(op.id, op.request, op.acc);
      }
    }

    method LetOthers(id: nat, ops: seq<Op>, ghost w: seq<Byte>, ghost ps: seq<Piece>) returns (ghost ps': seq<Piece>)
      requires Valid() && Live(slots, id) && AreCalls(ops) && slots[id].value.written == w + All(ps)
      modifies this`slots, pipes, set p | p in pipes :: p.buffer
      ensures Valid() && Live(slots, id) && slots[id].value.written == w + All(ps') && MineOf(ps') == MineOf(ps)
    {
      ps' := ps;
      var i := 0;
      while i < |ops|
        invariant 0 <= i <= |ops| && Valid() && Live(slots, id)
        invariant slots[id].value.written == w + All(ps') && MineOf(ps') == MineOf(ps)
      {
        ps' := LetOther(id, ops[i], w, ps');
        i := i + 1;
      }
    }

    /** Writes until everything is written. Between two rounds others read from and write to this and
        other pipes; `others` are their calls, and this call is still waiting (None) when they do not
        read enough. `ps` is what was written to the pipe meanwhile, in order, by this call and by
        the others. */
    method WriteNodeData(id: nat, data: seq<Byte>, acc: nat, others: seq<seq<Op>>)
      returns (res: Option<Result<nat, Error>>, done: nat, ghost ps: seq<Piece>)
      requires Valid() && Live(slots, id) && forall r :: 0 <= r < |others| ==> AreCalls(others[r])
      modifies this`slots, pipes, set p | p in pipes :: p.buffer
      ensures Valid() && Live(slots, id) && done <= |data|
      ensures slots[id].value.written == old(slots)[id].value.written + All(ps) && MineOf(ps) == data[..done]
      ensures res.Some? && res.value.Ok? ==> done == res.value.value == |data|
      ensures res.None? ==> done < |data|
    {
      ghost var w := slots[id].value.written;
      done, ps := 0, [];
      var round := 0;
      while true
        invariant Valid() && Live(slots, id) && done <= |data| && round <= |others|
        invariant slots[id].value.written == w + All(ps) && MineOf(ps) == data[..done]
        decreases |others| - round
      {
        var count;
        count, ps := WriteRest(id, data, done, acc, w, ps);
        if count.Err? { return Some(Err(count.error)), done, ps; }
        done := done + count.value;
        if done == |data| { return Some(Ok(done)), done, ps; }
        if round == |others| { return None, done, ps; }
        ps := LetOthers(id, others[round], w, ps);
        round := round + 1;
      }
    }
  }

  lemma WrittenGrows(h: History, data: seq<Byte>, acc: nat)
    requires |h.queue| <= CAPACITY
    ensures var r := Put(h.queue, data, acc).1;
            && (r.Ok? ==> r.value <= |data|)
            && Written(h, data, acc).written == h.written + if r.Ok? then data[..r.value] else []
  {}

  predicate AreCalls(ops: seq<Op>) { forall k :: 0 <= k < |ops| ==> ops[k].Write? || ops[k].Read? }

  // ----- several writers

  /** Bytes written to one pipe without a break, by the call that is looked at or by another. */
  datatype Piece = Mine(bytes: seq<Byte>) | Theirs(bytes: seq<Byte>)

  function All(ps: seq<Piece>): seq<Byte> {
    if ps == [] then [] else All(ps[..|ps| - 1]) + ps[|ps| - 1].bytes
  }

  function MineOf(ps: seq<Piece>): seq<Byte> {
    if ps == [] then []
    else MineOf(ps[..|ps| - 1]) + if ps[|ps| - 1].Mine? then ps[|ps| - 1].bytes else []
  }

  lemma MoreOfMine(w: seq<Byte>, ps: seq<Piece>, data: seq<Byte>, done: nat, n: nat) returns (ps': seq<Piece>)
    requires done + n <= |data| && MineOf(ps) == data[..done]
    ensures w + All(ps') == (w + All(ps)) + data[done..][..n] && MineOf(ps') == data[..done + n]
  {
    ps' := ps + [Mine(data[done..][..n])];
    WithPiece(w, ps, Mine(data[done..][..n]));
    assert data[..done] + data[done..][..n] == data[..done + n];
  }

  lemma WithPiece(w: seq<Byte>, ps: seq<Piece>, p: Piece)
    ensures w + All(ps + [p]) == (w + All(ps)) + p.bytes
    ensures MineOf(ps + [p]) == MineOf(ps) + if p.Mine? then p.bytes else []
  {
    assert (ps + [p])[..|ps|] == ps;
  }

  /** The bytes of a call stand in the pipe in their order, whatever others write in between. */
  lemma {:induction false} InOrder(ps: seq<Piece>) returns (at: seq<nat>)
    ensures |at| == |MineOf(ps)|
    ensures forall k :: 0 <= k < |at| ==> at[k] < |All(ps)| && All(ps)[at[k]] == MineOf(ps)[k]
    ensures forall k, l :: 0 <= k < l < |at| ==> at[k] < at[l]
  {
    at := [];
    if ps != [] {
      var p := ps[|ps| - 1];
      at := InOrder(ps[..|ps| - 1]);
      if p.Mine? { at := at + seq(|p.bytes|, k requires 0 <= k < |p.bytes| => |All(ps[..|ps| - 1])| + k); }
    }
  }

  ghost predicate SlotOk(p: Pipe, slot: Option<History>)
    reads p, p.buffer
  {
    p.Valid() && p.free == slot.None? && (slot.Some? ==> p.Contents() == slot.value.queue)
  }
}
