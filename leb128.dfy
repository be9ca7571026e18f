/**
 * The `leb128()` unsigned integer of section 4.10.5 of the AV1 bitstream
 * specification, as the AV1 code reads and writes it: seven bits per byte,
 * least significant group first, the top bit set on every byte but the last,
 * and at most eight bytes read. The decoder and encoder belong to a library
 * the source calls; they are defined here from the specification.
 */
module Leb128 {
  import opened Base

  function Pow128(i: nat): (r: nat)
    ensures r >= 1
  {
    if i == 0 then 1 else 128 * Pow128(i - 1)
  }

  /** Decoding: the value and the number of bytes read, or `None` when the
      data ends before the last byte. */
  function Leb128(buf: bytes): (r: Option<(nat, nat)>)
    ensures r.Some? ==> 1 <= r.value.1 <= |buf| && r.value.1 <= 8
  {
    LebFrom(buf, 0)
  }

  /** The value of the groups from byte `i` on, and where they end; group `i`
      is the least significant. */
  function LebFrom(buf: bytes, i: nat): (r: Option<(nat, nat)>)
    requires i < 8
    ensures r.Some? ==> i + 1 <= r.value.1 <= |buf| && r.value.1 <= 8
    decreases 8 - i
  {
    if i >= |buf| then None
    else
      var b := buf[i];
      if b < 128 || i == 7 then Some((b % 128, i + 1))
      else
        match LebFrom(buf, i + 1)
        case None => None
        case Some((higher, end)) => Some((b % 128 + 128 * higher, end))
  }

  /** Encoding, in the fewest bytes. */
  function LebBytes(v: nat): (r: bytes)
    ensures |r| >= 1
  {
    if v < 128 then [v] else [v % 128 + 128] + LebBytes(v / 128)
  }

  /** A value below 128^k takes at most k bytes. */
  lemma {:induction false} LebBytesLength(v: nat, k: nat)
    requires k >= 1 && v < Pow128(k)
    ensures |LebBytes(v)| <= k
    decreases k
  {
    if v >= 128 {
      assert k >= 2 by {
        assert Pow128(1) == 128;
      }
      Pow128Div(v, k - 1);
      LebBytesLength(v / 128, k - 1);
    }
  }

  lemma Pow128Div(v: nat, k: nat)
    requires v < Pow128(k + 1)
    ensures v / 128 < Pow128(k)
  {
    assert Pow128(k + 1) == 128 * Pow128(k);
  }

  lemma {:induction false} LebFromBytes(buf: bytes, i: nat, v: nat, rest: bytes)
    requires i < 8 && v < Pow128(8 - i)
    requires |buf| >= i && buf[i..] == LebBytes(v) + rest
    ensures LebFrom(buf, i) == Some((v, i + |LebBytes(v)|))
    decreases 8 - i
  {
    assert buf[i] == LebBytes(v)[0];
    if v >= 128 {
      assert i < 7 by {
        assert Pow128(1) == 128;
      }
      Pow128Div(v, 8 - i - 1);
      assert buf[i + 1..] == LebBytes(v / 128) + rest by {
        assert buf[i + 1..] == buf[i..][1..];
      }
      LebFromBytes(buf, i + 1, v / 128, rest);
    }
  }

  /** Round trip: an encoded value below 2^56 decodes to itself, reading
      exactly its own bytes, whatever follows. */
  lemma LebRoundTrip(v: nat, rest: bytes)
    requires v < Pow128(8)
    ensures Leb128(LebBytes(v) + rest) == Some((v, |LebBytes(v)|))
  {
    var buf := LebBytes(v) + rest;
    assert buf[0..] == buf;
    LebFromBytes(buf, 0, v, rest);
  }

  /** Data that ends while every byte so far has its top bit set does not
      decode. */
  lemma {:induction false} LebUnterminated(buf: bytes, i: nat)
    requires i < 8 && |buf| < 8 && forall j :: i <= j < |buf| ==> buf[j] >= 128
    ensures LebFrom(buf, i) == None
    decreases 8 - i
  {
    if i < |buf| {
      LebUnterminated(buf, i + 1);
    }
  }
}
