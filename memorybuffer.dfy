/**
 * The in-memory `io.ReadWriteSeeker` of `utils/buffers/memorybuffer.go`: a
 * byte slice and a cursor. Reads stop at the end of the data, writes
 * overwrite at the cursor and grow the data, and seeking past the end grows
 * the data with zero bytes.
 *
 * The slice is a backing store (its capacity) and a length. Every byte past
 * the length is zero, because a new backing store is zeroed and nothing is
 * ever written past the length; so growing within the capacity, which only
 * reslices, adds zero bytes exactly as a reallocation does.
 */
module MemoryBuffer {
  import opened Base

  /** `io.SeekStart`, `io.SeekCurrent` and `io.SeekEnd`. */
  const SeekStart: int := 0
  const SeekCurrent: int := 1
  const SeekEnd: int := 2

  /** The initial capacity and the cap on how much a reallocation adds. */
  const InitialCapacity: nat := 0x4000_0000
  const ExtraSizeLimit: nat := 0x4000_0000

  datatype BufferError = EOF | InvalidWhence | NegativeOffset

  function Zeros(n: nat): (r: bytes)
    ensures |r| == n && forall i :: 0 <= i < n ==> r[i] == 0
  {
    seq(n, _ => 0)
  }

  /** What a reader of the buffer sees: its data and the cursor. */
  datatype State = State(data: bytes, cursor: nat)

  predicate ValidState(s: State) {
    s.cursor <= |s.data|
  }

  /** `extendToSize` on the data: zero bytes up to `size`. */
  function ExtendTo(data: bytes, size: nat): (r: bytes)
    ensures |r| == if size > |data| then size else |data|
    ensures r[..|data|] == data && forall i :: |data| <= i < |r| ==> r[i] == 0
  {
    if size > |data| then data + Zeros(size - |data|) else data
  }

  /** `Read` into a destination of `dstLen` bytes: the bytes copied, or EOF
      at or past the end. */
  function ReadFrom(s: State, dstLen: nat): (r: (State, bytes, Option<BufferError>))
    requires ValidState(s)
    ensures ValidState(r.0) && r.0.data == s.data
    ensures r.2 == Some(EOF) <==> s.cursor == |s.data|
    ensures r.2.None? ==> |r.1| == (if dstLen < |s.data| - s.cursor then dstLen else |s.data| - s.cursor)
    ensures s.cursor + |r.1| <= |s.data| && r.1 == s.data[s.cursor..s.cursor + |r.1|] && r.0.cursor == s.cursor + |r.1|
  {
    if s.cursor >= |s.data| then (s, [], Some(EOF))
    else
      var n := if dstLen < |s.data| - s.cursor then dstLen else |s.data| - s.cursor;
      (State(s.data, s.cursor + n), s.data[s.cursor..s.cursor + n], None)
  }

  /** `Write`: the data grown to hold `src` at the cursor, `src` over what
      was there, and the cursor after it. */
  function WriteAt(s: State, src: bytes): (r: (State, nat))
    requires ValidState(s)
    ensures ValidState(r.0) && r.1 == |src| && r.0.cursor == s.cursor + |src|
    ensures |r.0.data| == if s.cursor + |src| > |s.data| then s.cursor + |src| else |s.data|
    ensures r.0.data[..s.cursor] == s.data[..s.cursor]
    ensures r.0.data[s.cursor..s.cursor + |src|] == src
    ensures s.cursor + |src| <= |s.data| ==> r.0.data[s.cursor + |src|..] == s.data[s.cursor + |src|..]
  {
    var grown := ExtendTo(s.data, s.cursor + |src|);
    var data := grown[..s.cursor] + src + grown[s.cursor + |src|..];
    assert data[..s.cursor] == grown[..s.cursor] && data[s.cursor..s.cursor + |src|] == src;
    assert data[s.cursor + |src|..] == grown[s.cursor + |src|..];
    (State(data, s.cursor + |src|), |src|)
  }

  /** `Seek`: the new position, or an error that leaves the cursor where it
      was; a position past the end grows the data with zeros. */
  function SeekTo(s: State, offset: int, whence: int): (r: (State, int, Option<BufferError>))
    requires ValidState(s)
    ensures ValidState(r.0)
    ensures r.2 == Some(InvalidWhence) <==> whence !in {SeekStart, SeekCurrent, SeekEnd}
    ensures r.2.Some? ==> r.0 == s && r.1 == s.cursor
    ensures r.2.None? ==> r.1 == r.0.cursor && r.0.data == ExtendTo(s.data, r.0.cursor)
  {
    if whence !in {SeekStart, SeekCurrent, SeekEnd} then (s, s.cursor, Some(InvalidWhence))
    else
      var base := if whence == SeekStart then 0 else if whence == SeekCurrent then s.cursor else |s.data|;
      var newOffset := base + offset;
      if newOffset < 0 then (s, s.cursor, Some(NegativeOffset))
      else (State(ExtendTo(s.data, newOffset), newOffset), newOffset, None)
  }

  /** A negative target is refused whatever the base. */
  lemma SeekNegative(s: State, offset: int, whence: int)
    requires ValidState(s) && whence in {SeekStart, SeekCurrent, SeekEnd}
    requires (if whence == SeekStart then 0 else if whence == SeekCurrent then s.cursor else |s.data|) + offset < 0
    ensures SeekTo(s, offset, whence) == (s, s.cursor, Some(NegativeOffset))
  {
  }

  /** Writing, seeking back to where the write began and reading as many
      bytes returns exactly what was written; seeking to the end reports the
      length. */
  lemma WriteSeekRead(s: State, src: bytes)
    requires ValidState(s) && |src| > 0
    ensures var w := WriteAt(s, src).0;
      && SeekTo(w, s.cursor, SeekStart).2.None?
      && ReadFrom(SeekTo(w, s.cursor, SeekStart).0, |src|).1 == src
      && SeekTo(w, 0, SeekEnd).1 == |w.data|
  {
    var w := WriteAt(s, src).0;
    var back := SeekTo(w, s.cursor, SeekStart).0;
    assert back.data == w.data && back.cursor == s.cursor;
  }

  /** A fresh buffer written once holds exactly what was written. */
  lemma FreshWrite(src: bytes)
    ensures WriteAt(State([], 0), src).0 == State(src, |src|)
  {
    var r := WriteAt(State([], 0), src).0;
    assert r.data == r.data[0..|src|];
  }

  class MemoryBuffer {
    /** The backing store of the slice, as long as its capacity. */
    var backing: bytes
    var length: nat
    var cursor: nat

    ghost predicate Valid()
      reads this
    {
      length <= |backing| && cursor <= length && forall i :: length <= i < |backing| ==> backing[i] == 0
    }

    function Contents(): bytes
      reads this
      requires Valid()
    {
      backing[..length]
    }

    function CurrentState(): State
      reads this
      requires Valid()
    {
      State(Contents(), cursor)
    }

    /** `NewMemoryBuffer`: empty, with a zeroed gibibyte of capacity. */
    constructor ()
      ensures Valid() && CurrentState() == State([], 0)
    {
      backing := Zeros(InitialCapacity);
      length := 0;
      cursor := 0;
    }

    method Read(dst: array<byte>) returns (n: nat, err: Option<BufferError>)
      requires Valid()
      modifies this, dst
      ensures Valid()
      ensures var r := ReadFrom(old(CurrentState()), dst.Length);
        && CurrentState() == r.0 && err == r.2 && n == |r.1|
        && dst[..n] == r.1 && dst[n..] == old(dst[n..])
      ensures backing == old(backing) && length == old(length)
    {
      var start := cursor;
      if start >= length {
        return 0, Some(EOF);
      }
      n := if dst.Length < length - start then dst.Length else length - start;
      forall i | 0 <= i < n {
        dst[i] := backing[start + i];
      }
      cursor := cursor + n;
      err := None;
    }

    method Write(src: bytes) returns (n: nat, err: Option<BufferError>)
      requires Valid()
      modifies this
      ensures Valid() && err.None?
      ensures var r := WriteAt(old(CurrentState()), src);
        CurrentState() == r.0 && n == r.1
    {
      var start := cursor;
      var expected := start + |src|;
      if expected > length {
        ExtendToSize(expected);
      }
      backing := backing[..start] + src + backing[start + |src|..];
      cursor := cursor + |src|;
      n := |src|;
      err := None;
    }

    method Seek(offset: int, whence: int) returns (pos: int, err: Option<BufferError>)
      requires Valid()
      modifies this
      ensures Valid()
      ensures var r := SeekTo(old(CurrentState()), offset, whence);
        CurrentState() == r.0 && pos == r.1 && err == r.2
    {
      var baseOffset := 0;
      if whence == SeekStart {
        baseOffset := 0;
      } else if whence == SeekCurrent {
        baseOffset := cursor;
      } else if whence == SeekEnd {
        baseOffset := length;
      } else {
        return cursor, Some(InvalidWhence);
      }
      var newOffset := baseOffset + offset;
      if newOffset < 0 {
        return cursor, Some(NegativeOffset);
      }
      if newOffset <= length {
        cursor := newOffset;
        return cursor, None;
      }
      ExtendToSize(newOffset);
      cursor := newOffset;
      return newOffset, None;
    }

    /** Grows the length to `size`: within the capacity by reslicing,
        otherwise into a new zeroed store with room for twice the growth,
        at most one more gibibyte. */
    method ExtendToSize(size: nat)
      requires Valid() && size > length
      modifies this
      ensures Valid() && length == size && cursor == old(cursor)
      ensures Contents() == ExtendTo(old(Contents()), size)
      ensures |backing| == if size <= old(|backing|) then old(|backing|)
                           else size + (if 2 * (size - old(length)) >= ExtraSizeLimit then ExtraSizeLimit else 2 * (size - old(length)))
    {
      if size <= |backing| {
        length := size;
        assert backing[..size] == backing[..old(length)] + Zeros(size - old(length));
        return;
      }
      var extraSize := 2 * (size - length);
      if extraSize >= ExtraSizeLimit {
        extraSize := ExtraSizeLimit;
      }
      backing := backing[..length] + Zeros(size + extraSize - length);
      length := size;
      assert backing[..size] == old(backing[..length]) + Zeros(size - old(length));
    }
  }
}
