/** Path preparation on the caller's character buffer. The buffer holds a zero-terminated string
    and every pass rewrites it in place; the stack holds positions in the buffer.
 */
module PathBuffer {
  import opened Paths

  const STACK_SIZE: nat := 128
  const PATH_BYTES: nat := 256        // what the length test allows
  const CALLER_BYTES: nat := 255      // the buffers the VFS calls pass

  datatype Status = Ok | ErrorInvalidBuffer | ErrorPathTooLong

  /** The buffer holds the zero-terminated string `s`. */
  ghost predicate Holds(b: seq<char>, s: string) {
    |s| < |b| && b[..|s|] == s && b[|s|] == NUL && NoNul(s)
  }

  /** String `c` stands zero-terminated at position `p`. */
  ghost predicate StringAt(b: seq<char>, p: nat, c: string) {
    && p + |c| < |b|
    && (forall k :: 0 <= k < |c| ==> c[k] != NUL && b[p + k] == c[k])
    && b[p + |c|] == NUL
  }

  ghost predicate Ordered(ps: seq<nat>, cs: seq<string>) {
    |ps| == |cs| && forall m, n :: 0 <= m < n < |ps| ==> ps[m] + |cs[m]| < ps[n]
  }

  /** The strings `cs` stand at the positions `ps`, in this order and without overlap. */
  ghost predicate Laid(b: seq<char>, ps: seq<nat>, cs: seq<string>) {
    Ordered(ps, cs) && forall m :: 0 <= m < |ps| ==> StringAt(b, ps[m], cs[m])
  }

  lemma StringUnder(b: seq<char>, p: nat, c: string, l: nat)
    requires StringAt(b, p, c) && l < |c|
    ensures p + l < |b| && b[p + l] == c[l] && c[l] != NUL
  {}

  /** kstrlen */
  method StrLen(b: array<char>, p: nat, ghost c: string) returns (l: nat)
    requires StringAt(b[..], p, c)
    ensures l == |c|
  {
    l := 0;
    while b[p + l] != NUL
      invariant l <= |c|
      decreases |c| - l
    {
      l := l + 1;
    }
    if l < |c| { StringUnder(b[..], p, c, l); }
  }

  /** kstrcmp(&b[p], t) == 0 */
  method StrEquals(b: array<char>, p: nat, t: string, ghost c: string) returns (eq: bool)
    requires StringAt(b[..], p, c) && NoNul(t)
    ensures eq == (c == t)
  {
    var i := 0;
    while i < |t| && b[p + i] == t[i]
      invariant 0 <= i <= |t| && i <= |c| && c[..i] == t[..i]
    {
      assert t[i] != NUL && i < |c| && b[..][p + i] == c[i];
      i := i + 1;
    }
    eq := i == |t| && b[p + i] == NUL;
    assert i < |c| ==> b[..][p + i] == c[i] && c[i] != NUL;
  }

  /** kmemcpy to a lower or equal address, byte by byte; `top` is one past the highest byte it touches. */
  method CopyDown(b: array<char>, dst: nat, src: nat, n: nat) returns (ghost top: nat)
    requires dst <= src && src + n <= b.Length
    modifies b
    ensures top == if n == 0 then 0 else src + n
    ensures forall k :: 0 <= k < b.Length ==>
              b[k] == if dst <= k < dst + n then old(b[k - dst + src]) else old(b[k])
  {
    var i := 0;
    top := 0;
    while i < n
      invariant 0 <= i <= n && top == if i == 0 then 0 else src + i
      invariant forall k :: 0 <= k < b.Length ==>
                  b[k] == if dst <= k < dst + i then old(b[k - dst + src]) else old(b[k])
    {
      b[dst + i] := b[src + i];
      i := i + 1;
      top := src + i;
    }
  }

  /** kmemmove to a higher address, from the end. */
  method CopyUp(b: array<char>, dst: nat, src: nat, n: nat)
    requires src <= dst && dst + n <= b.Length
    modifies b
    ensures forall k :: 0 <= k < b.Length ==>
              b[k] == if dst <= k < dst + n then old(b[k - dst + src]) else old(b[k])
  {
    var i := n;
    while i > 0
      invariant 0 <= i <= n
      invariant forall k :: 0 <= k < b.Length ==>
                  b[k] == if dst + i <= k < dst + n then old(b[k - dst + src]) else old(b[k])
    {
      b[dst + i - 1] := b[src + i - 1];
      i := i - 1;
    }
  }

  function Without<T>(s: seq<T>, i: nat, k: nat): seq<T>
    requires k <= i + 1 <= |s|
  {
    s[..i + 1 - k] + s[i + 1..]
  }

  /** Removes the `k` entries that end at index `i` from the first `n` entries of the stack. */
  method RemoveEntries(stack: array<nat>, n: nat, i: nat, k: nat)
    requires 1 <= k <= i + 1 <= n <= stack.Length
    modifies stack
    ensures stack[..n - k] == Without(old(stack[..n]), i, k)
  {
    ghost var s := stack[..n];
    var j := i + 1;
    while j < n
      invariant i + 1 <= j <= n
      invariant forall m :: 0 <= m < j - k ==> stack[m] == s[if m < i + 1 - k then m else m + k]
      invariant forall m :: j <= m < n ==> stack[m] == s[m]
    {
      stack[j - k] := stack[j];
      j := j + 1;
    }
  }

  // ----- cutting the path into pieces

  /** State of the cutting loop after the first `i` characters of `s`: the finished pieces `done`
      are terminated, the current one runs from `cur` to `i`, the rest of the buffer is as it was. */
  ghost predicate CutInto(b: seq<char>, s: string, i: nat, ps: seq<nat>, cur: nat, done: seq<string>, last: string) {
    && i <= |s| < |b| && NoNul(s)
    && Laid(b, ps, done)
    && (forall m :: 0 <= m < |ps| ==> ps[m] + |done[m]| < cur)
    && cur + |last| == i
    && (forall k :: 0 <= k < |last| ==> last[k] != NUL && b[cur + k] == last[k])
    && (forall k :: i <= k < |s| ==> b[k] == s[k]) && b[|s|] == NUL
  }

  ghost predicate Cut(b: seq<char>, s: string, i: nat, ps: seq<nat>, cur: nat) {
    i <= |s| && var r := Split(s[..i]); CutInto(b, s, i, ps, cur, Front(r), Last(r))
  }

  lemma CutStart(b: seq<char>, s: string)
    requires Holds(b, s)
    ensures Cut(b, s, 0, [], 0)
  {}

  lemma LaidSnoc(b: seq<char>, ps: seq<nat>, cs: seq<string>, p: nat, c: string)
    requires Laid(b, ps, cs) && StringAt(b, p, c)
    requires forall m :: 0 <= m < |ps| ==> ps[m] + |cs[m]| < p
    ensures Laid(b, ps + [p], cs + [c])
  {}

  lemma TerminatePiece(b: seq<char>, s: string, i: nat, ps: seq<nat>, cur: nat, done: seq<string>, last: string)
    requires CutInto(b, s, i, ps, cur, done, last) && i < |s|
    ensures CutInto(b[i := NUL], s, i + 1, ps + [cur], i + 1, done + [last], "")
  {}

  /** The next character is a slash: it becomes the terminator of the current piece. */
  lemma CutAtSep(b: seq<char>, s: string, i: nat, ps: seq<nat>, cur: nat)
    requires Cut(b, s, i, ps, cur) && i < |s| && s[i] == SEP
    ensures Cut(b[i := NUL], s, i + 1, ps + [cur], i + 1)
  {
    var r := Split(s[..i]);
    assert s[..i + 1] == s[..i] + [SEP];
    SplitSnoc(s[..i], SEP);
    FrontSnoc(r, "");
    FrontLast(r);
    TerminatePiece(b, s, i, ps, cur, Front(r), Last(r));
  }

  lemma GrowPiece(b: seq<char>, s: string, i: nat, ps: seq<nat>, cur: nat, done: seq<string>, last: string)
    requires CutInto(b, s, i, ps, cur, done, last) && i < |s|
    ensures CutInto(b, s, i + 1, ps, cur, done, last + [s[i]])
  {}

  lemma CutAtChar(b: seq<char>, s: string, i: nat, ps: seq<nat>, cur: nat)
    requires Cut(b, s, i, ps, cur) && i < |s| && s[i] != SEP
    ensures Cut(b, s, i + 1, ps, cur)
  {
    var r := Split(s[..i]);
    assert s[..i + 1] == s[..i] + [s[i]];
    SplitSnoc(s[..i], s[i]);
    FrontSnoc(Front(r), Last(r) + [s[i]]);
    GrowPiece(b, s, i, ps, cur, Front(r), Last(r));
  }

  lemma CutDone(b: seq<char>, s: string, ps: seq<nat>, cur: nat)
    requires Cut(b, s, |s|, ps, cur)
    ensures Laid(b, ps + [cur], Split(s))
  {
    var r := Split(s);
    assert s[..|s|] == s;
    LaidSnoc(b, ps, Front(r), cur, Last(r));
    FrontLast(r);
  }

  lemma {:induction false} SplitGrows(s: string, i: nat)
    requires i <= |s|
    ensures |Split(s[..i])| <= |Split(s)|
    decreases |s| - i
  {
    if i == |s| {
      assert s[..i] == s;
    } else {
      SplitGrows(s, i + 1);
      assert s[..i + 1] == s[..i] + [s[i]];
      SplitSnoc(s[..i], s[i]);
    }
  }

  method CutPieces(b: array<char>, stack: array<nat>, ghost s: string) returns (n: nat)
    requires Holds(b[..], s) && |Split(s)| <= stack.Length
    modifies b, stack
    ensures n == |Split(s)| <= stack.Length && Laid(b[..], stack[..n], Split(s))
  {
    n := 0;
    var cur := 0;
    var i := 0;
    CutStart(b[..], s);
    while b[i] != NUL
      invariant 0 <= i <= |s| && n < |Split(s)| <= stack.Length
      invariant Cut(b[..], s, i, stack[..n], cur)
      decreases |s| - i
    {
      assert i < |s| && b[i] == s[i] by { NextChar(b[..], s, i, stack[..n], cur); }
      if b[i] == SEP {
        CutHere(b, stack, s, i, n, cur);
        cur := i + 1;
        n := n + 1;
      } else {
        CutAtChar(b[..], s, i, stack[..n], cur);
      }
      i := i + 1;
    }
    assert i == |s| by { NextChar(b[..], s, i, stack[..n], cur); }
    CutDone(b[..], s, stack[..n], cur);
    ghost var ps := stack[..n];
    stack[n] := cur;
    assert stack[..n + 1] == ps + [cur];
    n := n + 1;
  }

  /** Ends the current piece at the slash at `i`. */
  method CutHere(b: array<char>, stack: array<nat>, ghost s: string, i: nat, n: nat, cur: nat)
    requires i < |s| < b.Length && s[i] == SEP && n < |Split(s)| <= stack.Length && Cut(b[..], s, i, stack[..n], cur)
    modifies b, stack
    ensures n + 1 < |Split(s)| && Cut(b[..], s, i + 1, stack[..n + 1], i + 1)
  {
    ghost var before, ps := b[..], stack[..n];
    CutAtSep(before, s, i, ps, cur);
    SplitGrows(s, i + 1);
    PieceCount(b[..][i := NUL], s, i + 1, ps + [cur], i + 1);
    b[i] := NUL;
    stack[n] := cur;
    assert b[..] == before[i := NUL] && stack[..n + 1] == ps + [cur];
  }

  lemma PieceCount(b: seq<char>, s: string, i: nat, ps: seq<nat>, cur: nat)
    requires Cut(b, s, i, ps, cur)
    ensures |ps| + 1 == |Split(s[..i])|
  {}

  lemma NextChar(b: seq<char>, s: string, i: nat, ps: seq<nat>, cur: nat)
    requires Cut(b, s, i, ps, cur)
    ensures i < |s| ==> b[i] == s[i] && b[i] != NUL
    ensures i == |s| ==> b[i] == NUL
  {}

  // ----- removing "." and ".."

  lemma LaidWithout(b: seq<char>, ps: seq<nat>, cs: seq<string>, i: nat, k: nat)
    requires Laid(b, ps, cs) && k <= i + 1 <= |ps|
    ensures Laid(b, Without(ps, i, k), Without(cs, i, k))
  {}

  method RemoveLaid(ghost b: seq<char>, stack: array<nat>, n: nat, i: nat, k: nat, ghost cs: seq<string>)
    returns (ghost cs': seq<string>)
    requires n <= stack.Length && Laid(b, stack[..n], cs) && k <= i + 1 <= n
    modifies stack
    ensures cs' == Without(cs, i, k) && Laid(b, stack[..n - k], cs')
  {
    LaidWithout(b, stack[..n], cs, i, k);
    cs' := Without(cs, i, k);
    if k == 0 {
      assert Without(stack[..n], i, 0) == stack[..n];
    } else {
      RemoveEntries(stack, n, i, k);
    }
  }

  /** How many entries the loop takes out at entry `i`: a ".." takes the one before it along. */
  ghost predicate Drops(cs: seq<string>, i: nat, k: nat)
    requires i < |cs|
  {
    && (k == 0 ==> cs[i] != "." && cs[i] != "..")
    && (k == 1 ==> cs[i] == "." || (cs[i] == ".." && i == 0))
    && (k == 2 ==> cs[i] == ".." && i > 0)
    && k <= 2
  }

  /** One step of the fold, seen as removing entries from the list. */
  lemma DropsStep(done: seq<string>, rest: seq<string>, k: nat) returns (done': seq<string>, rest': seq<string>)
    requires rest != [] && Drops(done + rest, |done|, k)
    ensures k <= |done| + 1 && |done'| == |done| + 1 - k && |rest'| == |rest| - 1
    ensures done' + rest' == Without(done + rest, |done|, k)
    ensures Resolve(done', rest') == Resolve(done, rest)
  {
    assert (done + rest)[|done|] == rest[0];
    rest' := rest[1..];
    done' := if k == 0 then done + [rest[0]] else if k == 1 then done else Front(done);
  }

  method DropsAt(b: array<char>, stack: array<nat>, n: nat, i: nat, ghost cs: seq<string>) returns (k: nat)
    requires i < n <= stack.Length && Laid(b[..], stack[..n], cs)
    ensures Drops(cs, i, k)
  {
    assert StringAt(b[..], stack[..n][i], cs[i]);
    var dot := StrEquals(b, stack[i], ".", cs[i]);
    var dotdot := StrEquals(b, stack[i], "..", cs[i]);
    k := if dot then 1 else if !dotdot then 0 else if i == 0 then 1 else 2;
  }

  /** One round of the index-deleting loop, behind the components in `done`: `k` entries go. */
  method DotsRound(b: array<char>, stack: array<nat>, n: nat, i: nat, ghost done: seq<string>, ghost rest: seq<string>)
    returns (k: nat, ghost done': seq<string>, ghost rest': seq<string>)
    requires i == |done| < n <= stack.Length && Laid(b[..], stack[..n], done + rest)
    modifies stack
    ensures k <= i + 1 && |done'| == i + 1 - k && |rest'| == |rest| - 1
    ensures Laid(old(b[..]), stack[..n - k], done' + rest') && Resolve(done', rest') == Resolve(done, rest)
  {
    k := DropsAt(b, stack, n, i, done + rest);
    done', rest' := DropsStep(done, rest, k);
    ghost var _ := RemoveLaid(b[..], stack, n, i, k, done + rest);
  }

  /** The index-deleting loop computes the left fold. `stackSize - i` drops in every step. */
  method RemoveDots(b: array<char>, stack: array<nat>, size: nat, ghost pieces: seq<string>) returns (n: nat, ghost cs: seq<string>)
    requires size <= stack.Length && Laid(b[..], stack[..size], pieces)
    modifies stack
    ensures n <= size && cs == Resolve([], pieces) && Laid(b[..], stack[..n], cs)
  {
    n := size;
    var i := 0;
    ghost var done, rest := [], pieces;
    assert done + rest == pieces;
    while i < n
      invariant i == |done| && n == |done| + |rest| && n <= size
      invariant Laid(b[..], stack[..n], done + rest) && b[..] == old(b[..])
      invariant Resolve(done, rest) == Resolve([], pieces)
      decreases |rest|
    {
      var k;
      k, done, rest := DotsRound(b, stack, n, i, done, rest);
      n, i := n - k, i + 1 - k;
    }
    cs := done;
    assert done + rest == done;
  }

  // ----- rebuilding the path in place

  /** The pieces from `i` on still stand where they were, and all of them lie behind `pos`. */
  ghost predicate Pending(b: seq<char>, ps: seq<nat>, cs: seq<string>, i: nat, pos: nat) {
    && Ordered(ps, cs) && i <= |cs|
    && (forall m :: i <= m < |cs| ==> StringAt(b, ps[m], cs[m]))
    && (i < |cs| ==> pos + (if i > 0 then 1 else 0) <= ps[i])
  }

  /** Nothing behind `end` was written, so the remaining pieces still stand. */
  lemma PendingNext(b: seq<char>, b': seq<char>, ps: seq<nat>, cs: seq<string>, i: nat, pos: nat, end: nat)
    requires Pending(b, ps, cs, i, pos) && i < |cs| && |b'| == |b|
    requires end <= ps[i] + |cs[i]| && forall k :: end <= k < |b| ==> b'[k] == b[k]
    ensures Pending(b', ps, cs, i + 1, end)
  {}

  lemma JoinNext(cs: seq<string>, i: nat)
    requires i < |cs|
    ensures Join(cs[..i + 1]) == (if i == 0 then "" else Join(cs[..i]) + [SEP]) + cs[i]
  {
    assert Front(cs[..i + 1]) == cs[..i] && Last(cs[..i + 1]) == cs[i];
    assert "" + cs[i] == cs[i];
  }

  lemma {:induction false} JoinNoNul(cs: seq<string>)
    requires forall i :: 0 <= i < |cs| ==> NoNul(cs[i])
    ensures NoNul(Join(cs))
  {
    if |cs| > 1 { JoinNoNul(Front(cs)); }
  }

  /** Copies piece `i` to `pos`; nothing behind its end is written. */
  method PlacePiece(b: array<char>, p: nat, pos: nat, ghost c: string)
    returns (end: nat)
    requires StringAt(b[..], p, c) && pos <= p
    modifies b
    ensures end == pos + |c| && b[..end] == old(b[..pos]) + c
    ensures forall k :: end <= k < b.Length ==> b[k] == old(b[k])
  {
    var l := StrLen(b, p, c);
    ghost var b0 := b[..];
    ghost var _ := CopyDown(b, pos, p, l);
    end := pos + l;
    ghost var b1 := b[..];
    Placed(b0, b1, p, pos, c);
    assert b1[..end] == b[..end];
  }

  lemma Placed(b: seq<char>, b': seq<char>, p: nat, pos: nat, c: string)
    requires StringAt(b, p, c) && pos <= p && |b'| == |b|
    requires forall k {:trigger b'[k]} :: 0 <= k < |b| ==> b'[k] == if pos <= k < pos + |c| then b[k - pos + p] else b[k]
    ensures b'[..pos + |c|] == b[..pos] + c
  {}

  /** Writes the pieces back to the front of the buffer, each write landing before every piece
      that is still to be copied. */
  method Rebuild(b: array<char>, stack: array<nat>, n: nat, ghost cs: seq<string>)
    requires n <= stack.Length && Laid(b[..], stack[..n], cs) && b.Length > 0
    modifies b
    ensures Holds(b[..], Join(cs))
  {
    ghost var ps := stack[..n];
    LaidNoNul(b[..], ps, cs);
    var pos := 0;
    var i := 0;
    assert cs[..0] == [];
    while i < n
      invariant 0 <= i <= n && stack[..n] == ps && 0 <= pos < b.Length
      invariant b[..pos] == Join(cs[..i])
      invariant Pending(b[..], ps, cs, i, pos)
    {
      assert stack[i] == ps[i];
      pos := RebuildOne(b, ps, cs, i, stack[i], pos);
      i := i + 1;
    }
    assert cs[..n] == cs;
    b[pos] := NUL;
    JoinNoNul(cs);
    assert b[..pos] == Join(cs);
  }

  /** Piece `i`, with a slash in front unless it is the first. */
  method RebuildOne(b: array<char>, ghost ps: seq<nat>, ghost cs: seq<string>, i: nat, piece: nat, pos0: nat) returns (pos: nat)
    requires i < |ps| == |cs| && piece == ps[i] && pos0 < b.Length
    requires b[..pos0] == Join(cs[..i]) && Pending(b[..], ps, cs, i, pos0)
    modifies b
    ensures pos < b.Length && b[..pos] == Join(cs[..i + 1]) && Pending(b[..], ps, cs, i + 1, pos)
  {
    ghost var b0 := b[..];
    pos := pos0;
    assert StringAt(b0, piece, cs[i]);
    JoinNext(cs, i);
    if i != 0 {
      b[pos] := SEP;
      pos := pos + 1;
      assert b[..pos] == b0[..pos0] + [SEP];
    }
    assert StringAt(b[..], piece, cs[i]);
    pos := PlacePiece(b, piece, pos, cs[i]);
    PendingNext(b0, b[..], ps, cs, i, pos0, pos);
  }

  lemma LaidNoNul(b: seq<char>, ps: seq<nat>, cs: seq<string>)
    requires Laid(b, ps, cs)
    ensures forall m :: 0 <= m < |cs| ==> NoNul(cs[m])
  {}

  method NormalizePath(b: array<char>, ghost s: string)
    requires Holds(b[..], s) && Squeezed(s) && |s| <= 255
    modifies b
    ensures Holds(b[..], Join(Resolve([], Split(s))))
  {
    PiecesFit(s);
    var stack := new nat[STACK_SIZE];
    var size := CutPieces(b, stack, s);
    ghost var cs;
    size, cs := RemoveDots(b, stack, size, Split(s));
    Rebuild(b, stack, size, cs);
  }

  // ----- making the path absolute and squeezing slashes

  predicate IsRelative(path: string) { path == "" || path[0] != SEP }

  /** The slashes in front of the path. */
  function Slashes(path: string): nat { |path| - |StripLeading(path)| }

  /** How many bytes of its buffer PreparePath touches: the user's path and its terminator, for a
      relative path the full path with its terminator, and for an absolute path as many bytes
      behind the slashes as the whole path has, the terminator included. */
  function Touched(user: string, readable: bool, cwd: string): nat {
    if !readable then 0
    else if |user| > 254 then 255
    else if !IsRelative(user) then Slashes(user) + |user| + 1
    else if cwd == "" || |user| + |cwd| + 2 > PATH_BYTES then |user| + 1
    else |user| + |cwd| + 2
  }

  /** What a caller with 255 bytes has to make sure of, for paths that are not refused. */
  predicate FitsCallers(user: string, readable: bool, cwd: string) {
    readable && |user| <= 254 ==>
      if IsRelative(user) then cwd == "" || |user| + |cwd| != 254 else Slashes(user) + |user| <= 254
  }

  /** Every access stays inside the 255 bytes the callers provide if and only if a relative path does
      not have 254 characters together with the working directory, and an absolute path not more
      than 254 when its leading slashes are counted twice. */
  lemma CallerBufferIff(user: string, readable: bool, cwd: string)
    ensures Touched(user, readable, cwd) <= CALLER_BYTES <==> FitsCallers(user, readable, cwd)
  {}

  lemma {:induction false} Repeated(c: char, n: nat) returns (s: string)
    requires c != NUL
    ensures |s| == n && forall k :: 0 <= k < n ==> s[k] == c
  {
    s := "";
    while |s| < n
      invariant |s| <= n && forall k :: 0 <= k < |s| ==> s[k] == c
    {
      s := s + [c];
    }
  }

  /** There are such calls: a relative path of which one byte is written behind the buffer, */
  lemma OneByteShort() returns (cwd: string, user: string)
    ensures NoNul(cwd) && NoNul(user) && IsRelative(cwd) && IsRelative(user) && |user| <= 254
    ensures |user| + |cwd| + 2 <= PATH_BYTES && Touched(user, true, cwd) == CALLER_BYTES + 1
  {
    cwd := Repeated('d', 100);
    user := Repeated('f', 154);
  }

  /** and a path of 200 slashes, for which the bytes up to position 400 are read. */
  lemma SlashesReadBehind() returns (user: string)
    ensures NoNul(user) && !IsRelative(user) && |user| == 200
    ensures forall cwd :: Touched(user, true, cwd) == 401
  {
    user := Repeated(SEP, 200);
    StripCount(user, 200);
  }

  lemma HoldsAt(b: seq<char>, s: string)
    ensures Holds(b, s) <==> StringAt(b, 0, s)
  {}

  /** `top` is one past the highest byte that is touched besides the path and its terminator. */
  method PrepareRelativePath(b: array<char>, cwd: string, ghost path: string) returns (st: Status, ghost top: nat)
    requires Holds(b[..], path) && NoNul(cwd)
    requires cwd != "" && |path| + |cwd| + 2 <= PATH_BYTES ==> b.Length >= |path| + |cwd| + 2
    modifies b
    ensures st == if cwd != "" && |path| + |cwd| + 2 > PATH_BYTES then ErrorPathTooLong else Ok
    ensures st == Ok ==> Holds(b[..], if cwd == "" then path else cwd + [SEP] + path)
    ensures top == if cwd == "" || |path| + |cwd| + 2 > PATH_BYTES then 0 else |path| + |cwd| + 2
  {
    top := 0;
    HoldsAt(b[..], path);
    var lengthA := StrLen(b, 0, path);
    var lengthB := |cwd|;
    if lengthB == 0 {
      return Ok, 0;
    }
    if lengthA + lengthB + 2 > PATH_BYTES {
      return ErrorPathTooLong, 0;
    }
    CopyUp(b, lengthB + 1, 0, lengthA);
    CopyFrom(b, cwd);
    b[lengthB] := SEP;
    b[lengthA + lengthB + 1] := NUL;
    top := lengthA + lengthB + 2;
    assert b[..lengthB] == cwd;
    Prefixed(old(b[..]), b[..], cwd, path);
    st := Ok;
  }

  /** kmemcpy from another buffer to the start of this one. */
  method CopyFrom(b: array<char>, s: string)
    requires |s| <= b.Length
    modifies b
    ensures b[..|s|] == s && forall k :: |s| <= k < b.Length ==> b[k] == old(b[k])
  {
    var i := 0;
    while i < |s|
      invariant 0 <= i <= |s| && b[..i] == s[..i]
      invariant forall k :: |s| <= k < b.Length ==> b[k] == old(b[k])
    {
      b[i] := s[i];
      i := i + 1;
    }
  }

  /** The working directory, a slash and the moved path. */
  lemma Prefixed(b: seq<char>, b': seq<char>, cwd: string, path: string)
    requires Holds(b, path) && NoNul(cwd) && |cwd| + |path| + 1 < |b'| && b'[..|cwd|] == cwd
    requires b'[|cwd|] == SEP && b'[|cwd| + |path| + 1] == NUL
    requires forall k :: 0 <= k < |path| ==> b'[|cwd| + 1 + k] == b[k]
    ensures Holds(b', cwd + [SEP] + path)
  {
    var full := cwd + [SEP] + path;
    forall k | 0 <= k < |full|
      ensures full[k] != NUL && b'[0 + k] == full[k]
    {
      if k < |cwd| {
        assert cwd[k] in cwd && b'[k] == b'[..|cwd|][k] == cwd[k];
      } else if k > |cwd| {
        assert b'[k] == b[k - |cwd| - 1] == path[k - |cwd| - 1];
      }
    }
    HoldsAt(b', full);
  }

  lemma {:induction false} StripCount(s: string, n: nat)
    requires n <= |s| && (forall k :: 0 <= k < n ==> s[k] == SEP) && (n == |s| || s[n] != SEP)
    ensures StripLeading(s) == s[n..]
  {
    if n > 0 {
      StripCount(s[1..], n - 1);
      assert s[1..][n - 1..] == s[n..];
    }
  }

  /** Copies |path| + 1 bytes from behind the slashes: with slashes in front of the path this reads as
      many bytes behind its terminator. */
  method PrepareAbsolutePath(b: array<char>, ghost path: string) returns (ghost top: nat)
    requires Holds(b[..], path) && Slashes(path) + |path| + 1 <= b.Length
    modifies b
    ensures Holds(b[..], StripLeading(path)) && top == Slashes(path) + |path| + 1
  {
    var slashes := CountSlashes(b, path);
    var length := StrLen(b, 0, path);
    top := CopyDown(b, 0, slashes, length + 1);
    Stripped(old(b[..]), b[..], path, slashes);
  }

  method CountSlashes(b: array<char>, ghost path: string) returns (slashes: nat)
    requires Holds(b[..], path)
    ensures slashes == Slashes(path) <= |path| && StripLeading(path) == path[slashes..] && StringAt(b[..], 0, path)
  {
    HoldsAt(b[..], path);
    slashes := 0;
    while b[slashes] == SEP
      invariant 0 <= slashes <= |path| && forall k :: 0 <= k < slashes ==> path[k] == SEP
      decreases |path| - slashes
    {
      assert slashes < |path| && b[..][0 + slashes] == path[slashes];
      slashes := slashes + 1;
    }
    assert slashes < |path| ==> b[..][0 + slashes] == path[slashes];
    StripCount(path, slashes);
  }

  lemma Stripped(b: seq<char>, b': seq<char>, path: string, n: nat)
    requires Holds(b, path) && n <= |path| && n + |path| + 1 <= |b| && |b'| == |b|
    requires forall k :: 0 <= k < |path| + 1 ==> b'[k] == b[k + n]
    ensures Holds(b', path[n..])
  {
    HoldsAt(b, path);
    var rest := path[n..];
    forall k | 0 <= k < |rest|
      ensures rest[k] != NUL && b'[0 + k] == rest[k]
    {
      assert b[0 + (k + n)] == path[k + n];
    }
    HoldsAt(b', rest);
  }

  lemma SqueezeSnoc(p: string, c: char)
    ensures Squeeze(p + [c]) == if c == SEP && p != "" && Last(p) == SEP then Squeeze(p) else Squeeze(p) + [c]
  {}

  lemma SqueezeStep(s: string, i: nat)
    requires i < |s|
    ensures Squeeze(s[..i + 1]) ==
              if s[i] == SEP && i > 0 && s[i - 1] == SEP then Squeeze(s[..i]) else Squeeze(s[..i]) + [s[i]]
    ensures |Squeeze(s[..i])| <= i
  {
    assert s[..i + 1] == s[..i] + [s[i]];
    SqueezeSnoc(s[..i], s[i]);
    SqueezeShape(s[..i]);
  }

  /** The first `i` characters are squeezed into the first `w` ones, the others stand as they were. */
  ghost predicate SqueezedTo(b: seq<char>, s: string, i: nat, w: nat, lastWasSlash: bool) {
    && w <= i <= |s| < |b| && b[..w] == Squeeze(s[..i])
    && lastWasSlash == (i > 0 && s[i - 1] == SEP)
    && forall k :: i <= k < |s| ==> b[k] == s[k]
  }

  /** A character that is written goes to `w`, which is not behind `i`. */
  lemma WriteChar(b: seq<char>, s: string, i: nat, w: nat, lastWasSlash: bool)
    requires SqueezedTo(b, s, i, w, lastWasSlash) && i < |s| && !(s[i] == SEP && lastWasSlash)
    ensures SqueezedTo(b[w := s[i]], s, i + 1, w + 1, s[i] == SEP)
  {
    SqueezeStep(s, i);
    assert b[w := s[i]][..w + 1] == b[..w] + [s[i]];
  }

  lemma SkipChar(b: seq<char>, s: string, i: nat, w: nat)
    requires SqueezedTo(b, s, i, w, true) && i < |s| && s[i] == SEP
    ensures SqueezedTo(b, s, i + 1, w, true)
  {
    SqueezeStep(s, i);
  }

  lemma SqueezeStart(b: seq<char>, s: string)
    requires Holds(b, s)
    ensures SqueezedTo(b, s, 0, 0, false)
  {}

  /** The squeezing loop of PreparePath, with the terminator put over a trailing slash. */
  method SqueezeSlashes(b: array<char>, ghost s: string)
    requires Holds(b[..], s)
    modifies b
    ensures Holds(b[..], DropTrailing(Squeeze(s)))
  {
    HoldsAt(b[..], s);
    SqueezeNoNul(s);
    SqueezeStart(b[..], s);
    var length := StrLen(b, 0, s);
    var writePos: nat, lastWasSlash, i: nat := 0, false, 0;
    while i < length
      invariant 0 <= i <= length == |s| && SqueezedTo(b[..], s, i, writePos, lastWasSlash)
    {
      writePos, lastWasSlash := SqueezeChar(b, s, i, writePos, lastWasSlash);
      i := i + 1;
    }
    assert s[..length] == s;
    SqueezeShape(s);
    assert b[..writePos] == b[..][..writePos];
    CutSlash(b, writePos, lastWasSlash, Squeeze(s));
  }

  /** Copies the character at `i`, unless it is a slash after a slash. */
  method SqueezeChar(b: array<char>, ghost s: string, i: nat, writePos: nat, lastWasSlash: bool) returns (pos: nat, slash: bool)
    requires i < |s| && SqueezedTo(b[..], s, i, writePos, lastWasSlash)
    modifies b
    ensures SqueezedTo(b[..], s, i + 1, pos, slash)
  {
    var c := b[i];
    ghost var before := b[..];
    assert c == before[i] == s[i];
    pos, slash := writePos, lastWasSlash;
    if c == SEP && lastWasSlash {
      SkipChar(before, s, i, writePos);
    } else {
      WriteChar(before, s, i, writePos, lastWasSlash);
      slash := c == SEP;
      b[writePos] := c;
      assert b[..] == before[writePos := c];
      pos := writePos + 1;
    }
  }

  /** The terminator after what was written, or over its last slash. */
  method CutSlash(b: array<char>, writePos: nat, lastWasSlash: bool, ghost q: string)
    requires writePos < b.Length && b[..writePos] == q && NoNul(q) && lastWasSlash == (q != "" && Last(q) == SEP)
    modifies b
    ensures Holds(b[..], DropTrailing(q))
  {
    if lastWasSlash {
      b[writePos - 1] := NUL;
      assert b[..writePos - 1] == Front(q);
    } else {
      b[writePos] := NUL;
      assert b[..writePos] == q;
    }
  }

  lemma {:induction false} SqueezeNoNul(s: string)
    requires NoNul(s)
    ensures NoNul(Squeeze(s))
  {
    if s != "" { SqueezeNoNul(Front(s)); }
  }

  /** kpathcpy_usersafe: copies at most 255 bytes, the terminator included; `top` is how many. */
  method CopyUserPath(b: array<char>, user: string, readable: bool) returns (ok: bool, ghost top: nat)
    requires b.Length >= CALLER_BYTES && NoNul(user)
    modifies b
    ensures ok == (readable && |user| <= 254)
    ensures ok ==> Holds(b[..], user)
    ensures top == if !readable then 0 else if |user| > 254 then 255 else |user| + 1
  {
    if !readable { return false, 0; }
    var i := 0;
    top := 0;
    while i < 255
      invariant 0 <= i <= 255 && i <= |user| && b[..i] == user[..i] && top == i
    {
      if i == |user| {
        b[i] := NUL;
        assert b[..i] == user[..i] == user;
        return true, i + 1;
      }
      b[i] := user[i];
      i := i + 1;
      top := i;
    }
    return false, top;
  }

  /** A relative path goes on where the working directory ends, an absolute one starts at the root. */
  lemma FullCanonical(cwd: string, user: string)
    ensures Canonical(StripLeading(user)) == Resolve([], NonEmpty(Split(user)))
    ensures Canonical(if cwd == "" then user else cwd + [SEP] + user) ==
              Resolve(Resolve([], NonEmpty(Split(cwd))), NonEmpty(Split(user)))
  {
    StripLeadingKeeps(user);
    CanonicalTwo(cwd, user);
    EmptyPath();
  }

  /** The path that starts at the root, without leading slashes. */
  method MakeAbsolute(b: array<char>, cwd: string, ghost user: string) returns (st: Status, ghost top: nat)
    requires Holds(b[..], user) && NoNul(cwd) && |user| <= 254 && b.Length >= Touched(user, true, cwd)
    modifies b
    ensures st == if IsRelative(user) && cwd != "" && |user| + |cwd| + 2 > PATH_BYTES then ErrorPathTooLong else Ok
    ensures st == Ok ==>
              Holds(b[..], if !IsRelative(user) then StripLeading(user) else if cwd == "" then user else cwd + [SEP] + user)
    ensures top <= |user| + 1 || top == Touched(user, true, cwd)
    ensures Touched(user, true, cwd) <= |user| + 1 || top == Touched(user, true, cwd)
  {
    HoldsAt(b[..], user);
    assert user != "" ==> b[..][0 + 0] == user[0];
    if b[0] != SEP {
      st, top := PrepareRelativePath(b, cwd, user);
    } else {
      top := PrepareAbsolutePath(b, user);
      st := Ok;
    }
  }

  /** The passes behind it; they stay inside the string they are given. */
  method CleanPath(b: array<char>, ghost a: string)
    requires Holds(b[..], a) && IsRelative(a) && |a| <= 255
    modifies b
    ensures Holds(b[..], Join(Canonical(a)))
  {
    assert StripLeading(a) == a;
    SqueezeSlashes(b, a);
    PassesGiveCanonical(a);
    SqueezeShape(a);
    NormalizePath(b, DropTrailing(Squeeze(a)));
  }

  /** Prepares `user` in `b`: a relative path resolved from the working directory, an absolute one from
      the root, or the reason why there is neither. `top` is one past the highest byte of `b` that is
      touched. */
  method PreparePath(b: array<char>, user: string, readable: bool, cwd: string) returns (st: Status, ghost top: nat)
    requires NoNul(user) && NoNul(cwd) && IsRelative(cwd)
    requires b.Length >= CALLER_BYTES && b.Length >= Touched(user, readable, cwd)
    modifies b
    ensures st == if !readable || |user| > 254 then ErrorInvalidBuffer
                  else if IsRelative(user) && cwd != "" && |user| + |cwd| + 2 > PATH_BYTES then ErrorPathTooLong
                  else Ok
    ensures st == Ok && !IsRelative(user) ==> Holds(b[..], Join(Resolve([], NonEmpty(Split(user)))))
    ensures st == Ok && IsRelative(user) ==>
              Holds(b[..], Join(Resolve(Resolve([], NonEmpty(Split(cwd))), NonEmpty(Split(user)))))
    ensures top == Touched(user, readable, cwd)
  {
    var copied;
    copied, top := CopyUserPath(b, user, readable);
    if !copied { return ErrorInvalidBuffer, top; }
    ghost var more;
    st, more := MakeAbsolute(b, cwd, user);
    top := if top < more then more else top;
    if st != Ok { return st, top; }
    CleanPath(b, if !IsRelative(user) then StripLeading(user) else if cwd == "" then user else cwd + [SEP] + user);
    FullCanonical(cwd, user);
  }

  /** The call as the VFS makes it, on the memory from its buffer of 255 bytes on: whether every access
      stayed inside the buffer. */
  method PrepareOnStack(memory: array<char>, user: string, readable: bool, cwd: string) returns (st: Status, ghost inside: bool)
    requires NoNul(user) && NoNul(cwd) && IsRelative(cwd) && memory.Length >= 2 * CALLER_BYTES
    modifies memory
    ensures st == Ok <==> readable && |user| <= 254 && !(IsRelative(user) && cwd != "" && |user| + |cwd| + 2 > PATH_BYTES)
    ensures st == Ok && !IsRelative(user) ==> Holds(memory[..], Join(Resolve([], NonEmpty(Split(user)))))
    ensures st == Ok && IsRelative(user) ==>
              Holds(memory[..], Join(Resolve(Resolve([], NonEmpty(Split(cwd))), NonEmpty(Split(user)))))
    ensures inside <==> FitsCallers(user, readable, cwd)
  {
    CallerBufferIff(user, readable, cwd);
    ghost var top;
    st, top := PreparePath(memory, user, readable, cwd);
    inside := top <= CALLER_BYTES;
  }

  /** For all those calls 255 bytes are enough. */
  method PrepareInCallerBuffer(user: string, readable: bool, cwd: string) returns (st: Status, b: array<char>)
    requires NoNul(user) && NoNul(cwd) && IsRelative(cwd) && FitsCallers(user, readable, cwd)
    ensures b.Length == CALLER_BYTES
    ensures st == Ok && !IsRelative(user) ==> Holds(b[..], Join(Resolve([], NonEmpty(Split(user)))))
    ensures st == Ok && IsRelative(user) ==>
              Holds(b[..], Join(Resolve(Resolve([], NonEmpty(Split(cwd))), NonEmpty(Split(user)))))
    ensures st == Ok <==> readable && |user| <= 254 && !(IsRelative(user) && cwd != "" && |user| + |cwd| + 2 > PATH_BYTES)
  {
    CallerBufferIff(user, readable, cwd);
    b := new char[CALLER_BYTES];
    ghost var top;
    st, top := PreparePath(b, user, readable, cwd);
  }
}
