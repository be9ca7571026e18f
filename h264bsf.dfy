/**
 * The AVC bit-stream filter of `codecs/h264/bsf.go`: `AddFilter` frames one
 * NAL unit with its 4-byte big-endian length, `Filter` splits AVCC data into
 * NAL units exactly as `GetAUFromAVC` does, and
 * `removeEmulationPreventionBytes` is meant to undo the emulation
 * prevention of ITU-T H.264 section 7.4.1 (a 0x03 after two zero bytes).
 */
module H264BitStream {
  import opened Base
  import opened Mp4Format

  /** `AddFilter`: the length, truncated to 32 bits by `uint32(len(payload))`,
      then the payload. */
  method AddFilter(payload: bytes) returns (avc: array<byte>)
    ensures fresh(avc)
    ensures avc.Length == 4 + |payload|
    ensures U32At(avc[..], 0) == |payload| % 0x1_0000_0000 && avc[4..] == payload
  {
    avc := new byte[4 + |payload|];
    var size := U32Bytes(|payload| % 0x1_0000_0000);
    avc[0], avc[1], avc[2], avc[3] := size[0], size[1], size[2], size[3];
    forall j | 0 <= j < |payload| {
      avc[4 + j] := payload[j];
    }
    assert avc[..4] == size;
  }

  /** `Filter`: the same loop as `GetAUFromAVC`. */
  method Filter(payload: bytes) returns (aus: Exit<seq<bytes>>)
    requires |payload| < 0x1_0000_0000
    ensures aus == AuFromAvc(payload)
  {
    aus := GetAuFromAvc(payload);
  }

  /** `Filter(AddFilter(x))` is `[x]` for a non-empty unit of a kept type, and
      nothing for a dropped type. */
  lemma FilterAddFilter(x: bytes, framed: bytes)
    requires 0 < |x| < 0x1_0000_0000 - 4
    requires |framed| == 4 + |x| && U32At(framed, 0) == |x| && framed[4..] == x
    ensures AuFromAvc(framed) == Normal(if DropNalUnit(NalType(x[0])) then [] else [x])
  {
    assert framed[4..4 + |x|] == x;
    assert framed[4 + |x|..] == [];
    assert AvccUnits(framed[4 + |x|..]) == Normal([]);
    if !DropNalUnit(NalType(x[0])) {
      assert PrependUnits([x], Normal([])).value == [x];
    }
  }

  /** `Filter` of an empty payload is nil. */
  lemma FilterEmpty()
    ensures AuFromAvc([]) == Normal([])
  {
  }

  // ---------------------------------------------------------------------
  // removeEmulationPreventionBytes

  /** The loop as written, from `idx` with the output so far `ret` and the
      uncopied bytes starting at `copyIdx`: at a `00 00 03` it appends
      `src[copyIdx:idx-copyIdx]` (a slice whose upper bound subtracts
      `copyIdx` once too often and which panics once that bound falls below
      `copyIdx`), then `00 00`. */
  function RemoveEpbAsWrittenFrom(src: bytes, idx: nat, copyIdx: nat, ret: bytes): Exit<bytes>
    requires copyIdx <= idx <= |src|
    decreases |src| - idx
  {
    if idx + 2 < |src| then
      if src[idx] == 0 && src[idx + 1] == 0 && src[idx + 2] == 3 then
        if idx - copyIdx < copyIdx then Panic
        else RemoveEpbAsWrittenFrom(src, idx + 3, idx + 3, ret + src[copyIdx..idx - copyIdx] + [0, 0])
      else RemoveEpbAsWrittenFrom(src, idx + 1, copyIdx, ret)
    else Normal(ret + src[copyIdx..])
  }

  function RemoveEpbAsWritten(src: bytes): Exit<bytes> {
    RemoveEpbAsWrittenFrom(src, 0, 0, [])
  }

  /** `removeEmulationPreventionBytes` as the source writes it. */
  method RemoveEmulationPreventionBytesAsWritten(src: bytes) returns (r: Exit<bytes>)
    ensures r == RemoveEpbAsWritten(src)
  {
    var ret: bytes := [];
    var idx := 0;
    var copyIdx := 0;
    while idx + 2 < |src|
      invariant copyIdx <= idx <= |src|
      invariant RemoveEpbAsWrittenFrom(src, idx, copyIdx, ret) == RemoveEpbAsWritten(src)
      decreases |src| - idx
    {
      if src[idx] == 0 && src[idx + 1] == 0 && src[idx + 2] == 3 {
        if idx - copyIdx < copyIdx {
          return Panic;
        }
        ret := ret + src[copyIdx..idx - copyIdx];
        ret := ret + [0x00, 0x00];
        idx := idx + 3;
        copyIdx := idx;
        continue;
      }
      idx := idx + 1;
    }
    ret := ret + src[copyIdx..];
    return Normal(ret);
  }

  /** ITU-T H.264 section 7.4.1: emulation prevention. In the output, a zero
      pair followed by a byte of at most 3 gets a 0x03 between them. `zeros`
      counts the zero bytes just written (at most two). */
  function Escape(s: bytes, zeros: nat): bytes
    requires zeros <= 2
  {
    if |s| == 0 then []
    else if zeros == 2 && s[0] <= 3 then [3, s[0]] + Escape(s[1..], if s[0] == 0 then 1 else 0)
    else [s[0]] + Escape(s[1..], if s[0] == 0 then zeros + 1 else 0)
  }

  /** The intended reading: every `00 00 03` loses its `03`, and scanning
      resumes after it. */
  function Unescape(s: bytes): bytes {
    if |s| < 3 then s
    else if s[0] == 0 && s[1] == 0 && s[2] == 3 then [0, 0] + Unescape(s[3..])
    else [s[0]] + Unescape(s[1..])
  }

  /** The zero bytes just written. */
  function Zeros(n: nat): bytes
    requires n <= 2
  {
    if n == 0 then [] else if n == 1 then [0] else [0, 0]
  }

  lemma UnescapeEpb(t: bytes)
    ensures Unescape([0, 0, 3] + t) == [0, 0] + Unescape(t)
  {
    assert ([0, 0, 3] + t)[3..] == t;
  }

  lemma UnescapeNonZero(b: byte, t: bytes)
    requires b != 0
    ensures Unescape([b] + t) == [b] + Unescape(t)
  {
    if |t| >= 2 {
      assert ([b] + t)[1..] == t;
    }
  }

  lemma UnescapeZeroNonZero(b: byte, t: bytes)
    requires b != 0
    ensures Unescape([0, b] + t) == [0, b] + Unescape(t)
  {
    if |t| >= 1 {
      assert ([0, b] + t)[1..] == [b] + t;
      UnescapeNonZero(b, t);
    }
  }

  /** A non-zero byte after at most two zeros, which is not the `03` of a
      `00 00 03`, is kept together with the zeros. */
  lemma UnescapeAfterZeros(zeros: nat, b: byte, t: bytes)
    requires zeros <= 2 && b != 0 && (zeros < 2 || b != 3)
    ensures Unescape(Zeros(zeros) + ([b] + t)) == Zeros(zeros) + ([b] + Unescape(t))
  {
    if zeros == 0 {
      assert Zeros(zeros) + ([b] + t) == [b] + t;
      UnescapeNonZero(b, t);
      assert Zeros(zeros) + ([b] + Unescape(t)) == [b] + Unescape(t);
    } else if zeros == 1 {
      assert Zeros(zeros) + ([b] + t) == [0, b] + t;
      UnescapeZeroNonZero(b, t);
      assert Zeros(zeros) + ([b] + Unescape(t)) == [0, b] + Unescape(t);
    } else {
      var s := [0, 0, b] + t;
      assert Zeros(zeros) + ([b] + t) == s;
      assert s[1..] == [0, b] + t;
      UnescapeZeroNonZero(b, t);
      assert Zeros(zeros) + ([b] + Unescape(t)) == [0, 0, b] + Unescape(t);
    }
  }

  /** Removing the emulation prevention bytes inverts inserting them. */
  lemma {:induction false} UnescapeEscape(s: bytes, zeros: nat)
    requires zeros <= 2
    ensures Unescape(Zeros(zeros) + Escape(s, zeros)) == Zeros(zeros) + s
    decreases |s|, 1
  {
    if |s| == 0 {
      assert Zeros(zeros) + Escape(s, zeros) == Zeros(zeros);
      assert Zeros(zeros) + s == Zeros(zeros);
    } else if zeros == 2 && s[0] <= 3 {
      UnescapeEscapeInserted(s);
    } else if s[0] == 0 {
      UnescapeEscapeZero(s, zeros);
    } else {
      UnescapeEscapeNonZero(s, zeros);
    }
  }

  /** The case of a zero `s[0]` after fewer than two zeros. */
  lemma {:induction false} UnescapeEscapeZero(s: bytes, zeros: nat)
    requires zeros < 2 && |s| > 0 && s[0] == 0
    ensures Unescape(Zeros(zeros) + Escape(s, zeros)) == Zeros(zeros) + s
    decreases |s|, 0
  {
    var e := Escape(s[1..], zeros + 1);
    assert Unescape(Zeros(zeros + 1) + e) == Zeros(zeros + 1) + s[1..] by {
      UnescapeEscape(s[1..], zeros + 1);
    }
    assert Zeros(zeros) + Escape(s, zeros) == Zeros(zeros + 1) + e by {
      assert Escape(s, zeros) == [0] + e;
    }
    assert Zeros(zeros + 1) + s[1..] == Zeros(zeros) + s by {
      assert s == [0] + s[1..];
    }
  }

  /** The case where a 0x03 is inserted before `s[0]`. */
  lemma {:induction false} UnescapeEscapeInserted(s: bytes)
    requires |s| > 0 && s[0] <= 3
    ensures Unescape(Zeros(2) + Escape(s, 2)) == Zeros(2) + s
    decreases |s|, 0
  {
    var b, rest := s[0], s[1..];
    var next := if b == 0 then 1 else 0;
    var e := Escape(rest, next);
    assert Zeros(2) + Escape(s, 2) == [0, 0, 3] + ([b] + e) by {
      assert Escape(s, 2) == [3, b] + e;
    }
    assert Unescape([0, 0, 3] + ([b] + e)) == [0, 0] + Unescape([b] + e) by {
      UnescapeEpb([b] + e);
    }
    assert Unescape([b] + e) == [b] + rest by {
      UnescapeEscape(rest, next);
      if b == 0 {
        assert [b] + e == Zeros(1) + e;
      } else {
        UnescapeNonZero(b, e);
        assert Zeros(0) + e == e;
        assert Zeros(0) + rest == rest;
      }
    }
    assert [0, 0] + ([b] + rest) == Zeros(2) + s;
  }

  /** The case of a non-zero `s[0]` written as it is. */
  lemma {:induction false} UnescapeEscapeNonZero(s: bytes, zeros: nat)
    requires zeros <= 2 && |s| > 0 && s[0] != 0 && !(zeros == 2 && s[0] <= 3)
    ensures Unescape(Zeros(zeros) + Escape(s, zeros)) == Zeros(zeros) + s
    decreases |s|, 0
  {
    var b, rest := s[0], s[1..];
    var e := Escape(rest, 0);
    assert Escape(s, zeros) == [b] + e;
    assert s == [b] + rest;
    UnescapeAfterZeros(zeros, b, e);
    UnescapeEscapeFromZero(rest);
  }

  /** `UnescapeEscape` with no zeros written before `s`. */
  lemma {:induction false} UnescapeEscapeFromZero(s: bytes)
    ensures Unescape(Escape(s, 0)) == s
    decreases |s|, 2
  {
    UnescapeEscape(s, 0);
    assert Zeros(0) + Escape(s, 0) == Escape(s, 0);
    assert Zeros(0) + s == s;
  }

  /** One turn of the scan at `idx`. */
  lemma UnescapeAt(src: bytes, idx: nat)
    requires idx + 2 < |src|
    ensures src[idx] == 0 && src[idx + 1] == 0 && src[idx + 2] == 3 ==>
      Unescape(src[idx..]) == [0, 0] + Unescape(src[idx + 3..])
    ensures !(src[idx] == 0 && src[idx + 1] == 0 && src[idx + 2] == 3) ==>
      Unescape(src[idx..]) == [src[idx]] + Unescape(src[idx + 1..])
  {
    assert src[idx..][3..] == src[idx + 3..];
    assert src[idx..][1..] == src[idx + 1..];
  }

  /** The corrected loop: `src[copyIdx:idx]` in place of
      `src[copyIdx:idx-copyIdx]`. */
  method RemoveEmulationPreventionBytes(src: bytes) returns (ret: bytes)
    ensures ret == Unescape(src)
  {
    ret := [];
    var idx := 0;
    var copyIdx := 0;
    while idx + 2 < |src|
      invariant copyIdx <= idx <= |src|
      invariant ret + src[copyIdx..idx] + Unescape(src[idx..]) == Unescape(src)
      decreases |src| - idx
    {
      UnescapeLoopStep(src, ret, copyIdx, idx);
      if src[idx] == 0 && src[idx + 1] == 0 && src[idx + 2] == 3 {
        ret := ret + src[copyIdx..idx];
        ret := ret + [0x00, 0x00];
        idx := idx + 3;
        copyIdx := idx;
        continue;
      }
      idx := idx + 1;
    }
    UnescapeLoopEnd(src, ret, copyIdx, idx);
    ret := ret + src[copyIdx..];
  }

  /** The loop invariant of `RemoveEmulationPreventionBytes` is kept by one
      turn of the loop. */
  lemma UnescapeLoopStep(src: bytes, ret: bytes, copyIdx: nat, idx: nat)
    requires copyIdx <= idx && idx + 2 < |src|
    requires ret + src[copyIdx..idx] + Unescape(src[idx..]) == Unescape(src)
    ensures src[idx] == 0 && src[idx + 1] == 0 && src[idx + 2] == 3 ==>
      ret + src[copyIdx..idx] + [0, 0] + src[idx + 3..idx + 3] + Unescape(src[idx + 3..]) == Unescape(src)
    ensures !(src[idx] == 0 && src[idx + 1] == 0 && src[idx + 2] == 3) ==>
      ret + src[copyIdx..idx + 1] + Unescape(src[idx + 1..]) == Unescape(src)
  {
    UnescapeAt(src, idx);
    if src[idx] == 0 && src[idx + 1] == 0 && src[idx + 2] == 3 {
      SliceEmpty(src, idx + 3);
      ConcatAssoc(ret + src[copyIdx..idx], [0, 0], Unescape(src[idx + 3..]));
      ConcatEmpty(ret + src[copyIdx..idx] + [0, 0]);
    } else {
      SliceSnoc(src, copyIdx, idx);
      ConcatShift(ret, src[copyIdx..idx], [src[idx]], Unescape(src[idx + 1..]));
    }
  }

  /** When fewer than three bytes are left, copying them completes the output. */
  lemma UnescapeLoopEnd(src: bytes, ret: bytes, copyIdx: nat, idx: nat)
    requires copyIdx <= idx <= |src| && idx + 2 >= |src|
    requires ret + src[copyIdx..idx] + Unescape(src[idx..]) == Unescape(src)
    ensures ret + src[copyIdx..] == Unescape(src)
  {
    assert Unescape(src[idx..]) == src[idx..];
    SliceSplit(src, copyIdx, idx);
    ConcatAssoc(ret, src[copyIdx..idx], src[idx..]);
  }

  /** No `00 00 03` anywhere in `s`. */
  predicate NoEpb(s: bytes) {
    forall i :: 0 <= i < |s| - 2 ==> !(s[i] == 0 && s[i + 1] == 0 && s[i + 2] == 3)
  }

  /** Without a `00 00 03` the data comes back unchanged, from the corrected
      loop and (since its faulty branch is never taken) from the source's. */
  lemma {:induction false} NoEpbUnchanged(src: bytes, idx: nat, copyIdx: nat)
    requires copyIdx <= idx <= |src| && NoEpb(src)
    ensures Unescape(src[idx..]) == src[idx..]
    ensures forall ret :: RemoveEpbAsWrittenFrom(src, idx, copyIdx, ret) == Normal(ret + src[copyIdx..])
    decreases |src| - idx
  {
    if idx + 2 < |src| {
      NoEpbUnchanged(src, idx + 1, copyIdx);
      assert src[idx..] == [src[idx]] + src[idx + 1..];
    }
  }

  lemma NoEpbIsIdentity(src: bytes)
    requires NoEpb(src)
    ensures Unescape(src) == src && RemoveEpbAsWritten(src) == Normal(src)
  {
    NoEpbUnchanged(src, 0, 0);
    assert src[0..] == src;
    assert [] + src == src;
  }

  /** The escaped form of `00 00 00 00 01` is `00 00 03 00 00 03 01`; the
      source's loop panics on it, as its second slice has upper bound 0 and
      lower bound 3, while the corrected loop recovers the original. */
  lemma RemoveEpbAsWrittenPanics()
    ensures Escape([0, 0, 0, 0, 1], 0) == [0, 0, 3, 0, 0, 3, 1]
    ensures RemoveEpbAsWritten([0, 0, 3, 0, 0, 3, 1]).Panic?
    ensures Unescape([0, 0, 3, 0, 0, 3, 1]) == [0, 0, 0, 0, 1]
  {
    var s: bytes := [0, 0, 3, 0, 0, 3, 1];
    assert RemoveEpbAsWrittenFrom(s, 3, 3, [0, 0]) == Panic;
    assert [] + s[0..0] + [0, 0] == [0, 0];
    UnescapeEscapeFromZero([0, 0, 0, 0, 1]);
  }

  /** The source's loop on `00 00 03 01 01 01 00 00 03 01`, the escaped form
      of `00 00 01 01 01 00 00 01`, loses the three bytes between the two
      emulation prevention bytes. */
  lemma RemoveEpbAsWrittenLosesBytes()
    ensures RemoveEpbAsWritten([0, 0, 3, 1, 1, 1, 0, 0, 3, 1]) == Normal([0, 0, 0, 0, 1])
  {
    var s: bytes := [0, 0, 3, 1, 1, 1, 0, 0, 3, 1];
    var r := RemoveEpbAsWrittenFrom(s, 9, 9, [0, 0, 0, 0]);
    assert r == Normal([0, 0, 0, 0] + s[9..]);
    assert r.value == [0, 0, 0, 0, 1];
    assert [0, 0] + s[3..3] + [0, 0] == [0, 0, 0, 0];
    assert RemoveEpbAsWrittenFrom(s, 3, 3, [0, 0]) == r;
    assert [] + s[0..0] + [0, 0] == [0, 0];
    assert RemoveEpbAsWrittenFrom(s, 0, 0, []) == r;
  }
}
