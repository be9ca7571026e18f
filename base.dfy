/**
 * Shared vocabulary: bytes and fixed-width integers, optional values, the
 * outcome of a Go call that may panic, big-endian fields and the H.264 NAL
 * unit types (ITU-T H.264 Table 7-1) used across the media code.
 */
module Base {

  type byte = x: int | 0 <= x < 0x100
  type u16 = x: int | 0 <= x < 0x1_0000
  type u32 = x: int | 0 <= x < 0x1_0000_0000
  type bytes = seq<byte>

  datatype Option<T> = None | Some(value: T)

  /** How a Go call ends: it returns normally, or it panics (an index or slice
      bound out of range, or an explicit `panic`). */
  datatype Exit<T> = Normal(value: T) | Panic

  /** Prepends `xs` to the units of a normal outcome; a panic stays a panic. */
  function PrependUnits<T>(xs: seq<T>, e: Exit<seq<T>>): (r: Exit<seq<T>>)
    ensures e.Panic? <==> r.Panic?
    ensures e.Normal? ==> r.value == xs + e.value
  {
    match e
    case Normal(v) => Normal(xs + v)
    case Panic => Panic
  }

  lemma PrependNothing<T>(e: Exit<seq<T>>)
    ensures PrependUnits([], e) == e
  {
    if e.Normal? {
      assert [] + e.value == e.value;
    }
  }

  lemma PrependTwice<T>(xs: seq<T>, ys: seq<T>, e: Exit<seq<T>>)
    ensures PrependUnits(xs, PrependUnits(ys, e)) == PrependUnits(xs + ys, e)
  {
    if e.Normal? {
      assert xs + (ys + e.value) == xs + ys + e.value;
    }
  }

  // Small facts about slices and concatenation, each proved on its own.

  lemma ConcatAssoc(a: bytes, b: bytes, c: bytes)
    ensures a + (b + c) == a + b + c
  {
  }

  lemma ConcatShift(a: bytes, b: bytes, c: bytes, d: bytes)
    ensures a + (b + c) + d == a + b + (c + d)
  {
  }

  lemma ConsSplit<T>(xs: seq<T>, ys: seq<T>)
    requires |ys| >= 1
    ensures xs + [ys[0]] + ys[1..] == xs + ys
  {
    assert [ys[0]] + ys[1..] == ys;
  }

  lemma ConcatEmpty(a: bytes)
    ensures a + [] == a
  {
  }

  lemma SliceEmpty(s: bytes, i: nat)
    requires i <= |s|
    ensures s[i..i] == []
  {
  }

  lemma SliceSnoc(s: bytes, i: nat, j: nat)
    requires i <= j < |s|
    ensures s[i..j + 1] == s[i..j] + [s[j]]
  {
  }

  lemma SliceSplit(s: bytes, i: nat, j: nat)
    requires i <= j <= |s|
    ensures s[i..] == s[i..j] + s[j..]
  {
  }

  /** Concatenation of a list of byte strings. */
  function Flatten(xs: seq<bytes>): (r: bytes)
    ensures |xs| == 0 ==> r == []
  {
    if |xs| == 0 then [] else xs[0] + Flatten(xs[1..])
  }

  lemma {:induction false} FlattenAppend(xs: seq<bytes>, ys: seq<bytes>)
    ensures Flatten(xs + ys) == Flatten(xs) + Flatten(ys)
  {
    if |xs| == 0 {
      assert xs + ys == ys;
    } else {
      assert (xs + ys)[1..] == xs[1..] + ys;
      FlattenAppend(xs[1..], ys);
    }
  }

  /** `binary.BigEndian.Uint16` on the two bytes at `i`. */
  function U16At(s: bytes, i: nat): u16
    requires i + 2 <= |s|
  {
    (s[i] as int) * 0x100 + s[i + 1]
  }

  /** `binary.BigEndian.Uint32` on the four bytes at `i`. */
  function U32At(s: bytes, i: nat): u32
    requires i + 4 <= |s|
  {
    (((s[i] as int) * 0x100 + s[i + 1]) * 0x100 + s[i + 2]) * 0x100 + s[i + 3]
  }

  /** The two bytes `byte(n >> 8), byte(n & 0xff)`: a big-endian 16-bit field
      holding `n` truncated to 16 bits. */
  function U16Bytes(n: nat): (r: bytes)
    ensures |r| == 2 && U16At(r, 0) == n % 0x1_0000
  {
    [(n / 0x100) % 0x100, n % 0x100]
  }

  /** `binary.BigEndian.PutUint32`. */
  function U32Bytes(n: u32): (r: bytes)
    ensures |r| == 4 && U32At(r, 0) == n
  {
    var high, low := U16Bytes(n / 0x1_0000), U16Bytes(n % 0x1_0000);
    assert U16At(high, 0) == n / 0x1_0000;
    assert U32At(high + low, 0) == U16At(high, 0) * 0x1_0000 + U16At(low, 0);
    high + low
  }

  /** Go's `uint32` subtraction, which wraps around below zero. */
  function Sub32(a: u32, b: u32): (r: u32)
    ensures r == (a - b) % 0x1_0000_0000
  {
    if a >= b then a - b else a - b + 0x1_0000_0000
  }

  /** The `nal_unit_type` field: the low five bits of a NAL unit header. */
  function NalType(header: byte): (t: nat)
    ensures t < 32
  {
    header % 32
  }

  const NalIdr: nat := 5
  const NalSei: nat := 6
  const NalSps: nat := 7
  const NalPps: nat := 8
  const NalAccessUnitDelimiter: nat := 9
  const NalFillerData: nat := 12
  /** RTP-only NAL types of section 5.2 of RFC 6184. */
  const NalStapA: nat := 24
  const NalFuA: nat := 28
}
