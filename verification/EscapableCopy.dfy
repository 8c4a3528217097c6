/**
  Copying a container's input until the detach keys are typed (`copyEscapable` in
  container/container.go). The source delivers its bytes in arbitrary reads; a detach sequence is
  recognised when each of its keys arrives in a read of its own.
*/
module EscapableCopy {
  type Byte = bv8

  datatype ReadError = NoError | EOF | Failed(code: int)

  /** What one call of Read returns. */
  datatype Read = Read(data: seq<Byte>, err: ReadError)

  datatype End = Copied | Detached | ReadFailed(code: int) | WriteFailed | ShortWrite

  /** Ctrl-P Ctrl-Q. */
  const DEFAULT_KEYS: seq<Byte> := [16, 17]

  // ---------------------------------------------------------------- what is copied

  /** The next read and the reads after it; the end of the input is an EOF without data. */
  function Take(input: seq<Read>): (Read, seq<Read>) {
    if input == [] then (Read([], EOF), []) else (input[0], input[1..])
  }

  /** The outcome of the loop over the keys: a detach, or a chunk to write and the last read's error. */
  datatype Chunk = Detach(left: seq<Read>) | Write(buf: seq<Byte>, err: ReadError, left: seq<Read>)

  /** The loop over the keys from key `i` on, when `r` has just been read and `buf` is preserved. */
  function MatchKeys(keys: seq<Byte>, i: nat, buf: seq<Byte>, r: Read, left: seq<Read>): Chunk
    requires i < |keys|
    decreases |keys| - i
  {
    if |r.data| != 1 || r.data[0] != keys[i] then Write(buf + r.data, r.err, left)
    else if i == |keys| - 1 then Detach(left)
    else MatchKeys(keys, i + 1, buf + r.data, Take(left).0, Take(left).1)
  }

  lemma {:induction false} MatchKeysConsumes(keys: seq<Byte>, i: nat, buf: seq<Byte>, r: Read, left: seq<Read>)
    requires i < |keys|
    ensures |MatchKeys(keys, i, buf, r, left).left| <= |left|
    ensures left == [] && MatchKeys(keys, i, buf, r, left).Write? && r.err != NoError ==> MatchKeys(keys, i, buf, r, left).err != NoError
    decreases |keys| - i
  {
    if !(|r.data| != 1 || r.data[0] != keys[i]) && i < |keys| - 1 {
      MatchKeysConsumes(keys, i + 1, buf + r.data, Take(left).0, Take(left).1);
    }
  }

  datatype Result = Result(out: seq<Byte>, end: End)

  function EndOf(err: ReadError): End
    requires err != NoError
  {
    if err.EOF? then Copied else ReadFailed(err.code)
  }

  /** What copyEscapable writes to a writer that does not fail, and how it ends. */
  function CopyFrom(input: seq<Read>, keys: seq<Byte>): Result
    requires keys != []
    decreases |input|
  {
    if input == [] then Result([], Copied)
    else
      var (r, left) := Take(input);
      if r.data == [] then
        if r.err != NoError then Result([], EndOf(r.err)) else CopyFrom(left, keys)
      else
        MatchKeysConsumes(keys, 0, [], r, left);
        match MatchKeys(keys, 0, [], r, left)
        case Detach(_) => Result([], Detached)
        case Write(buf, err, left') =>
          if err != NoError then Result(buf, EndOf(err))
          else
            var rest := CopyFrom(left', keys);
            Result(buf + rest.out, rest.end)
  }

  // ---------------------------------------------------------------- every byte, in order

  function Bytes(input: seq<Read>): seq<Byte> {
    if input == [] then [] else input[0].data + Bytes(input[1..])
  }

  /** The reads from `from` on are the keys, one in each. */
  ghost predicate KeysAt(input: seq<Read>, from: nat, keys: seq<Byte>) {
    from + |keys| <= |input| && forall k :: from <= k < from + |keys| ==> input[k].data == [keys[k - from]]
  }

  lemma {:induction false} BytesSplit(input: seq<Read>, n: nat)
    requires n <= |input|
    ensures Bytes(input) == Bytes(input[..n]) + Bytes(input[n..])
    decreases n
  {
    if n == 0 {
      assert input[..0] == [] && input[0..] == input;
    } else {
      BytesSplit(input[1..], n - 1);
      assert input[1..][..n - 1] == input[..n][1..] && input[1..][n - 1..] == input[n..];
    }
  }

  /** A reader that reports errors without data. */
  ghost predicate Clean(input: seq<Read>) {
    forall k :: 0 <= k < |input| && input[k].err != NoError ==> input[k].data == []
  }

  ghost predicate NoErrorBefore(input: seq<Read>, n: nat) {
    n <= |input| && forall k :: 0 <= k < n ==> input[k].err == NoError
  }

  /** Reading stopped after `n` reads with `err`: none, that of the last read, or the end of the input. */
  ghost predicate StopsAt(input: seq<Read>, n: nat, err: ReadError) {
    if err == NoError then NoErrorBefore(input, n)
    else
      || (0 < n <= |input| && input[n - 1].err == err && NoErrorBefore(input, n - 1))
      || (err == EOF && n == |input| && NoErrorBefore(input, n))
  }

  lemma StopsAtShift(input: seq<Read>, m: nat, left: seq<Read>, n: nat, err: ReadError)
    requires NoErrorBefore(input, m) && left == input[m..] && StopsAt(left, n, err)
    ensures StopsAt(input, m + n, err)
  {
    assert forall k :: 0 <= k < |left| ==> left[k] == input[m + k];
    assert forall k :: m <= k < |input| ==> input[k] == left[k - m];
  }

  /** The loop over the keys uses up some of the reads: as many keys as matched, and what is preserved is what was read. */
  lemma {:induction false} MatchKeysIsExact(keys: seq<Byte>, i: nat, buf: seq<Byte>, r: Read, left: seq<Read>) returns (n: nat)
    requires i < |keys|
    ensures n <= |left|
    ensures match MatchKeys(keys, i, buf, r, left)
            case Detach(l) => l == left[n..] && n == |keys| - i - 1 && r.data == [keys[i]] && KeysAt(left, 0, keys[i + 1..])
            case Write(b, err, l) =>
              && l == left[n..] && b == buf + r.data + Bytes(left[..n])
              && (Clean(left) && r.err == NoError ==> StopsAt(left, n, err))
              && (n == 0 && left != [] ==> err == r.err)
    decreases |keys| - i
  {
    if |r.data| != 1 || r.data[0] != keys[i] || i == |keys| - 1 {
      n := 0;
      assert left[..0] == [] && left[0..] == left;
    } else {
      var (next, left') := Take(left);
      var m := MatchKeysIsExact(keys, i + 1, buf + r.data, next, left');
      if left == [] {
        n := 0;
        assert left[..0] == [];
        assert buf + r.data + [] == buf + r.data;
      } else {
        n := m + 1;
        assert left'[..m] == left[1..n] && left'[m..] == left[n..];
        assert left[..n][1..] == left[1..n];
        assert buf + r.data + next.data + Bytes(left[1..n]) == buf + r.data + Bytes(left[..n]);
        assert keys[i + 1..] == [keys[i + 1]] + keys[i + 2..];
        MatchStops(keys, i + 1, buf + r.data, left, m);
      }
    }
  }

  lemma MatchStops(keys: seq<Byte>, i: nat, buf: seq<Byte>, left: seq<Read>, m: nat)
    requires i < |keys| && left != [] && m < |left|
    requires var c := MatchKeys(keys, i, buf, left[0], left[1..]);
             c.Write? ==> (Clean(left[1..]) && left[0].err == NoError ==> StopsAt(left[1..], m, c.err))
                          && c.left == left[1..][m..]
    ensures var c := MatchKeys(keys, i, buf, left[0], left[1..]);
            c.Write? && Clean(left) ==> StopsAt(left, m + 1, c.err) || left[0].err != NoError
    ensures var c := MatchKeys(keys, i, buf, left[0], left[1..]);
            c.Write? && Clean(left) && left[0].err != NoError ==> c == Write(buf + left[0].data, left[0].err, left[1..])
  {
    var c := MatchKeys(keys, i, buf, left[0], left[1..]);
    if c.Write? && Clean(left) && left[0].err == NoError {
      assert forall k :: 0 <= k < |left[1..]| ==> left[1..][k] == left[k + 1];
      StopsAtShift(left, 1, left[1..], m, c.err);
    }
  }

  /** The chunk that starts with the first read. */
  lemma ChunkIsExact(input: seq<Read>, keys: seq<Byte>) returns (n: nat)
    requires keys != [] && input != []
    ensures 0 < n <= |input|
    ensures var c := MatchKeys(keys, 0, [], input[0], input[1..]);
            if c.Detach? then KeysAt(input, 0, keys)
            else
              && c.left == input[n..] && c.buf == Bytes(input[..n])
              && (Clean(input) && input[0].data != [] ==> StopsAt(input, n, c.err))
  {
    hide MatchKeys;
    var r, left := input[0], input[1..];
    var used := MatchKeysIsExact(keys, 0, [], r, left);
    n := used + 1;
    var c := MatchKeys(keys, 0, [], r, left);
    assert forall k :: 0 <= k < |left| ==> left[k] == input[k + 1];
    assert keys == [keys[0]] + keys[1..];
    assert input[..n][1..] == left[..used];
    if c.Write? && Clean(input) && r.data != [] { StopsAtShift(input, 1, left, used, c.err); }
  }

  /** What holds of the rest of the input after `m` reads holds of the input. */
  lemma Join(input: seq<Read>, m: nat, n: nat, keys: seq<Byte>)
    requires m <= |input| && n <= |input| - m
    ensures Bytes(input[..m]) + Bytes(input[m..][..n]) == Bytes(input[..m + n])
    ensures KeysAt(input[m..], n, keys) ==> KeysAt(input, m + n, keys)
    ensures Clean(input) ==> Clean(input[m..])
  {
    BytesSplit(input[..m + n], m);
    assert input[..m + n][..m] == input[..m] && input[..m + n][m..] == input[m..][..n];
    assert forall k :: m <= k < |input| ==> input[k] == input[m..][k - m];
  }

  /**
    However the input is cut into reads: without a detach exactly the bytes of the reads up to the
    first error or the end of the input are written, in order; with a detach exactly the detach
    keys, each read alone at the end, are left out.
  */
  lemma {:induction false} CopyIsExact(input: seq<Read>, keys: seq<Byte>) returns (n: nat, err: ReadError)
    requires keys != []
    ensures n <= |input| && CopyFrom(input, keys).out == Bytes(input[..n])
    ensures CopyFrom(input, keys).end == Detached ==> KeysAt(input, n, keys)
    ensures CopyFrom(input, keys).end != Detached ==>
              err != NoError && CopyFrom(input, keys).end == if err == EOF then Copied else ReadFailed(err.code)
    ensures CopyFrom(input, keys).end != Detached && Clean(input) ==> StopsAt(input, n, err)
    decreases |input|
  {
    hide MatchKeys;
    hide Clean;
    hide KeysAt;
    n, err := 0, EOF;
    if input == [] { return; }
    var r, left := input[0], input[1..];
    if r.data == [] {
      assert input[..1] == [r] && Bytes([r]) == [] by { assert [r][1..] == []; }
      if r.err != NoError { return 1, r.err; }
      var m, e := CopyIsExact(left, keys);
      Join(input, 1, m, keys);
      if CopyFrom(left, keys).end != Detached && Clean(input) { StopsAtShift(input, 1, left, m, e); }
      return m + 1, e;
    }
    var used := ChunkIsExact(input, keys);
    var c := MatchKeys(keys, 0, [], r, left);
    if c.Detach? {
      assert input[..0] == [];
    } else if c.err != NoError {
      n, err := used, c.err;
    } else {
      MatchKeysConsumes(keys, 0, [], r, left);
      var m, e := CopyIsExact(c.left, keys);
      Join(input, used, m, keys);
      if CopyFrom(c.left, keys).end != Detached && Clean(input) { StopsAtShift(input, used, c.left, m, e); }
      n, err := used + m, e;
    }
  }

  /** A detach sequence typed at the start of a chunk is always recognised. */
  lemma {:induction false} KeysDetach(keys: seq<Byte>, i: nat, buf: seq<Byte>, r: Read, left: seq<Read>)
    requires i < |keys| && r.data == [keys[i]] && KeysAt(left, 0, keys[i + 1..])
    ensures MatchKeys(keys, i, buf, r, left).Detach?
    decreases |keys| - i
  {
    if i < |keys| - 1 {
      var next := left[0];
      forall k | 0 <= k < |keys[i + 2..]| ensures left[1..][k].data == [keys[i + 2..][k]] {
        assert left[k + 1].data == [keys[i + 1..][k + 1]];
      }
      KeysDetach(keys, i + 1, buf + r.data, next, left[1..]);
    }
  }

  lemma TypedKeysDetach(input: seq<Read>, keys: seq<Byte>)
    requires keys != [] && KeysAt(input, 0, keys)
    ensures CopyFrom(input, keys) == Result([], Detached)
  {
    forall k | 0 <= k < |keys[1..]| ensures input[1..][k].data == [keys[1..][k]] {
      assert input[k + 1].data == [keys[k + 1]];
    }
    KeysDetach(keys, 0, [], input[0], input[1..]);
  }

  // ---------------------------------------------------------------- when the keys are recognised

  /** A chunk of `u` reads: keys of the sequence from its first on, one in each read, and then a read that is not the next key. */
  ghost predicate ChunkEnds(input: seq<Read>, keys: seq<Byte>, u: nat) {
    && 0 < u <= |input| && u <= |keys|
    && (forall k :: 0 <= k < u - 1 ==> input[k].data == [keys[k]])
    && input[u - 1].data != [keys[u - 1]] && input[u - 1].err == NoError
  }

  /** A chunk begins with read `n`. */
  ghost predicate Begins(input: seq<Read>, keys: seq<Byte>, n: nat)
    decreases n
  {
    n == 0 || exists u: nat :: ChunkEnds(input, keys, u) && u <= n && Begins(input[u..], keys, n - u)
  }

  lemma ChunkTail(r: Read, left: seq<Read>, keys: seq<Byte>, i: nat, u: nat)
    requires i + 1 < |keys| && left != [] && r.data == [keys[i]]
    ensures ChunkEnds([r] + left, keys[i..], u + 1) <==> ChunkEnds([left[0]] + left[1..], keys[i + 1..], u)
  {
    var inp, ks, tail := [r] + left, keys[i..], keys[i + 1..];
    assert [left[0]] + left[1..] == left;
    assert forall k :: 0 <= k < |left| ==> inp[k + 1] == left[k];
    assert forall k :: 0 <= k < |tail| ==> tail[k] == ks[k + 1];
    if ChunkEnds(left, tail, u) {
      forall k | 0 <= k < u ensures inp[k].data == [ks[k]] { if k > 0 { assert inp[k] == left[k - 1]; } }
    }
    if ChunkEnds(inp, ks, u + 1) {
      forall k | 0 <= k < u - 1 ensures left[k].data == [tail[k]] { assert inp[k + 1].data == [ks[k + 1]]; }
    }
  }

  /** The loop over the keys ends where the chunk does. */
  lemma {:induction false} EndsMatch(keys: seq<Byte>, i: nat, buf: seq<Byte>, r: Read, left: seq<Read>, u: nat)
    requires i < |keys| && ChunkEnds([r] + left, keys[i..], u)
    ensures var c := MatchKeys(keys, i, buf, r, left);
            c.Write? && c.err == NoError && c.left == ([r] + left)[u..]
    decreases |keys| - i
  {
    if u > 1 {
      assert ([r] + left)[0] == r && r.data == [keys[i]];
      ChunkTail(r, left, keys, i, u - 1);
      EndsMatch(keys, i + 1, buf + r.data, left[0], left[1..], u - 1);
      assert ([left[0]] + left[1..])[u - 1..] == ([r] + left)[u..];
    } else {
      assert ([r] + left)[1..] == left;
    }
  }

  lemma {:induction false} MatchEnds(keys: seq<Byte>, i: nat, buf: seq<Byte>, r: Read, left: seq<Read>) returns (u: nat)
    requires i < |keys| && MatchKeys(keys, i, buf, r, left).Write? && MatchKeys(keys, i, buf, r, left).err == NoError
    ensures ChunkEnds([r] + left, keys[i..], u)
    decreases |keys| - i
  {
    if r.data != [keys[i]] {
      u := 1;
    } else if left == [] {
      assert false;
    } else {
      u := MatchEnds(keys, i + 1, buf + r.data, left[0], left[1..]);
      ChunkTail(r, left, keys, i, u);
      u := u + 1;
    }
  }

  /** The copy goes on after a chunk as if the input began there. */
  lemma ChunkIsPassed(input: seq<Read>, keys: seq<Byte>, u: nat)
    requires keys != [] && ChunkEnds(input, keys, u)
    ensures CopyFrom(input, keys).end == CopyFrom(input[u..], keys).end
  {
    hide MatchKeys;
    assert [input[0]] + input[1..] == input && keys[0..] == keys;
    CopyUnfolds(input, keys);
    if input[0].data == [] {
      assert u == 1;
    } else {
      EndsMatch(keys, 0, [], input[0], input[1..], u);
    }
  }

  lemma LaterDetachHasChunk(input: seq<Read>, keys: seq<Byte>) returns (u: nat)
    requires keys != [] && CopyFrom(input, keys).end == Detached && !KeysAt(input, 0, keys)
    ensures ChunkEnds(input, keys, u)
  {
    hide MatchKeys;
    hide KeysAt;
    CopyUnfolds(input, keys);
    assert [input[0]] + input[1..] == input && keys[0..] == keys;
    if input[0].data == [] {
      u := 1;
    } else {
      var _ := ChunkIsExact(input, keys);
      u := MatchEnds(keys, 0, [], input[0], input[1..]);
    }
  }

  lemma KeysAtShift(input: seq<Read>, u: nat, n: nat, keys: seq<Byte>)
    requires u <= |input|
    ensures KeysAt(input, u + n, keys) <==> KeysAt(input[u..], n, keys)
  {
    assert forall k :: u <= k < |input| ==> input[k] == input[u..][k - u];
    if KeysAt(input, u + n, keys) {
      forall k | n <= k < n + |keys| ensures input[u..][k].data == [keys[k - n]] { assert input[u + k].data == [keys[u + k - (u + n)]]; }
    }
  }

  /** The copy detaches exactly when the keys arrive, one in each read, at the beginning of a chunk. */
  lemma {:induction false} DetachesExactly(input: seq<Read>, keys: seq<Byte>)
    requires keys != []
    ensures CopyFrom(input, keys).end == Detached <==> exists n: nat :: Begins(input, keys, n) && KeysAt(input, n, keys)
    decreases |input|
  {
    hide MatchKeys;
    hide KeysAt;
    hide CopyFrom;
    if CopyFrom(input, keys).end == Detached {
      if KeysAt(input, 0, keys) {
        assert Begins(input, keys, 0);
      } else {
        var u := LaterDetachHasChunk(input, keys);
        ChunkIsPassed(input, keys, u);
        DetachesExactly(input[u..], keys);
        var n: nat :| Begins(input[u..], keys, n) && KeysAt(input[u..], n, keys);
        KeysAtShift(input, u, n, keys);
        assert Begins(input, keys, u + n) by { assert Begins(input[u..], keys, u + n - u); }
      }
    }
    if n: nat :| Begins(input, keys, n) && KeysAt(input, n, keys) {
      if n == 0 {
        TypedKeysDetach(input, keys);
      } else {
        var u: nat :| ChunkEnds(input, keys, u) && u <= n && Begins(input[u..], keys, n - u);
        KeysAtShift(input, u, n - u, keys);
        ChunkIsPassed(input, keys, u);
        DetachesExactly(input[u..], keys);
      }
    }
  }

  /** Keys typed after the beginning of a failed match do not detach: the second Ctrl-P ends a chunk. */
  lemma KeysAfterPartialMatch()
    ensures var input := [Read([16], NoError), Read([16], NoError), Read([17], NoError)];
            KeysAt(input, 1, DEFAULT_KEYS) && CopyFrom(input, DEFAULT_KEYS) == Result([16, 16, 17], Copied)
  {
    var a, b, c := Read([16], NoError), Read([16], NoError), Read([17], NoError);
    var keys := DEFAULT_KEYS;
    assert [a, b, c][1..] == [b, c] && [b, c][1..] == [c] && [c][1..] == [];
    assert MatchKeys(keys, 0, [], a, [b, c]) == MatchKeys(keys, 1, [16], b, [c]) == Write([16, 16], NoError, [c]);
    assert MatchKeys(keys, 0, [], c, []) == Write([17], NoError, []);
    assert CopyFrom([c], keys) == Result([17] + CopyFrom([], keys).out, Copied) == Result([17], Copied);
  }

  // ---------------------------------------------------------------- the code

  /** An input stream. */
  class Source {
    var input: seq<Read>
    var closed: bool

    constructor (input: seq<Read>)
      ensures this.input == input && !closed
    {
      this.input, closed := input, false;
    }

    method Next() returns (r: Read)
      modifies this`input
      ensures (r, input) == Take(old(input))
    {
      if input == [] { return Read([], EOF); }
      r := input[0];
      input := input[1..];
    }

    method Close()
      modifies this`closed
      ensures closed
    {
      closed := true;
    }
  }

  /** An output stream; `accepts` are the byte counts of writes that stop short, in order. */
  class Sink {
    var out: seq<Byte>
    var accepts: seq<(nat, bool)>

    constructor (accepts: seq<(nat, bool)>)
      ensures out == [] && this.accepts == accepts
    {
      out, this.accepts := [], accepts;
    }

    /** Writes `p`, or the beginning of it. */
    method Write(p: seq<Byte>) returns (n: nat, failed: bool)
      modifies this
      ensures n <= |p| && out == old(out) + p[..n]
      ensures old(accepts) == [] ==> n == |p| && !failed && accepts == []
    {
      n, failed := |p|, false;
      if accepts != [] {
        n := if accepts[0].0 < |p| then accepts[0].0 else |p|;
        failed := accepts[0].1;
        accepts := accepts[1..];
      }
      out := out + p[..n];
    }
  }

  /** The loop over the keys: `detached`, or the bytes to write and the error of the last read. */
  method MatchLoop(src: Source, keys: seq<Byte>, first: Read) returns (preserved: seq<Byte>, err: ReadError, detached: bool)
    requires keys != []
    modifies src
    ensures var c := MatchKeys(keys, 0, [], first, old(src.input));
            && src.input == c.left
            && detached == c.Detach?
            && (!detached ==> preserved == c.buf && err == c.err)
    ensures src.closed == (old(src.closed) || detached)
  {
    preserved, detached := [], false;
    var r := first;
    var i := 0;
    while true
      invariant 0 <= i < |keys|
      invariant MatchKeys(keys, 0, [], first, old(src.input)) == MatchKeys(keys, i, preserved, r, src.input)
      invariant src.closed == old(src.closed)
      decreases |keys| - i
    {
      preserved := preserved + r.data;
      if |r.data| != 1 || r.data[0] != keys[i] { return preserved, r.err, false; }
      if i == |keys| - 1 {
        src.Close();
        return preserved, r.err, true;
      }
      r := src.Next();
      i := i + 1;
    }
  }

  lemma CopyUnfolds(input: seq<Read>, keys: seq<Byte>)
    requires keys != []
    ensures var (r, left) := Take(input);
            CopyFrom(input, keys) ==
              if r.data == [] then
                if r.err != NoError then Result([], EndOf(r.err)) else CopyFrom(left, keys)
              else
                var c := MatchKeys(keys, 0, [], r, left);
                if c.Detach? then Result([], Detached)
                else if c.err != NoError then Result(c.buf, EndOf(c.err))
                else Result(c.buf + CopyFrom(c.left, keys).out, CopyFrom(c.left, keys).end)
    ensures Take(input).1 == [] || |Take(input).1| < |input|
    ensures input == [] ==> Take(input).0.data == [] && Take(input).0.err.EOF?
  {
    hide MatchKeys;
  }

  /** What one pass through the loop does: it writes `w` and goes on, or ends. */
  ghost predicate Pass(before: seq<Read>, after: seq<Read>, keys: seq<Byte>, w: seq<Byte>, stop: bool, end: End)
    requires keys != []
  {
    var c := CopyFrom(before, keys);
    if !stop then |after| < |before| && c == Result(w + CopyFrom(after, keys).out, CopyFrom(after, keys).end)
    else if end == WriteFailed || end == ShortWrite then w <= c.out
    else c == Result(w, end)
  }

  /** One pass through the loop of copyEscapable. */
  method CopyChunk(dst: Sink, src: Source, keys: seq<Byte>) returns (ghost w: seq<Byte>, n: nat, stop: bool, end: End)
    requires keys != []
    modifies dst, src
    ensures dst.out == old(dst.out) + w && n == |w|
    ensures Pass(old(src.input), src.input, keys, w, stop, end)
    ensures old(dst.accepts) == [] ==> dst.accepts == [] && !(stop && (end == WriteFailed || end == ShortWrite))
    ensures stop && end == Detached ==> w == [] && src.closed
  {
    hide MatchKeys;
    hide CopyFrom;
    hide Take;
    CopyUnfolds(src.input, keys);
    w, n, end := [], 0, Copied;
    var r := src.Next();
    var err := r.err;
    if r.data != [] {
      MatchKeysConsumes(keys, 0, [], r, src.input);
      var preserved, e, detached := MatchLoop(src, keys, r);
      if detached { return [], 0, true, Detached; }
      err := e;
      var failed;
      n, failed := dst.Write(preserved);
      w := preserved[..n];
      if failed { return w, n, true, WriteFailed; }
      if n != |preserved| { return w, n, true, ShortWrite; }
    }
    stop := err != NoError;
    if stop { end := EndOf(err); }
  }

  /**
    copyEscapable. With a writer that does not fail it writes and ends as CopyFrom says and counts
    what it wrote; with any writer, what it wrote is a beginning of that, and counted.
  */
  method CopyEscapable(dst: Sink, src: Source, keys0: seq<Byte>) returns (ghost all: seq<Byte>, written: nat, end: End)
    modifies dst, src
    ensures var c := CopyFrom(old(src.input), if keys0 == [] then [16, 17] else keys0);
            && dst.out == old(dst.out) + all && all <= c.out
            && written == (if end == Detached then 0 else |all|)
            && (end == Detached ==> src.closed)
            && (old(dst.accepts) == [] ==> end != WriteFailed && end != ShortWrite)
            && (end != WriteFailed && end != ShortWrite ==> c == Result(all, end))
    ensures old(dst.accepts) == [] && keys0 != [] ==>
              (end == Detached <==> exists n: nat :: Begins(old(src.input), keys0, n) && KeysAt(old(src.input), n, keys0))
  {
    hide MatchKeys;
    hide KeysAt;
    hide Begins;
    hide CopyFrom;
    hide Take;
    var keys := if keys0 == [] then DEFAULT_KEYS else keys0;
    DetachesExactly(src.input, keys);
    ghost var whole := CopyFrom(src.input, keys);
    all, written := [], 0;
    assert [] + whole.out == whole.out;
    while true
      invariant dst.out == old(dst.out) + all && written == |all|
      invariant whole == Result(all + CopyFrom(src.input, keys).out, CopyFrom(src.input, keys).end)
      invariant old(dst.accepts) == [] ==> dst.accepts == []
      decreases |src.input|
    {
      ghost var before := all;
      ghost var rest := CopyFrom(src.input, keys);
      ghost var w;
      var n, stop;
      w, n, stop, end := CopyChunk(dst, src, keys);
      all := all + w;
      written := written + n;
      if stop {
        assert before + rest.out == before + w + rest.out[|w|..];
        if end == Detached { written := 0; }
        return;
      }
    }
  }
}
