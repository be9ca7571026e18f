/**
 * The AVCDecoderConfigurationRecord of ISO/IEC 14496-15 section 5.3.3.1 as
 * this server writes and reads it: one SPS, one PPS and 4-byte NAL unit
 * lengths. `codecs/h264/config.go` and `parser/format/mp4.go` carry two copies
 * of the same writer and reader; both use the definitions here.
 */
module AvcRecord {
  import opened Base

  /** The record written for one SPS and one PPS: version 1, the profile,
      compatibility and level bytes of the SPS, `0xFC | 3` (length size 4),
      `0xE0 | 1` (one SPS), the SPS with its 16-bit length, one PPS with its
      16-bit length. */
  function Record(sps: bytes, pps: bytes): bytes
    requires |sps| >= 4
  {
    [1, sps[1], sps[2], sps[3], 0xFF, 0xE1] + U16Bytes(|sps|) + sps + ([1] + U16Bytes(|pps|)) + pps
  }

  /** The byte layout of a written record: its length is that of the SPS and
      PPS plus 11, and the fields sit where section 5.3.3.1 puts them. */
  lemma RecordLayout(sps: bytes, pps: bytes)
    requires |sps| >= 4
    ensures var r := Record(sps, pps);
      && |r| == |sps| + |pps| + 11
      && r[0] == 1 && r[1..4] == sps[1..4] && r[4] == 0xFF && r[5] == 0xE1
      && U16At(r, 6) == |sps| % 0x1_0000 && r[8..8 + |sps|] == sps
      && r[8 + |sps|] == 1 && U16At(r, 9 + |sps|) == |pps| % 0x1_0000
      && r[11 + |sps|..] == pps
  {
    var r := Record(sps, pps);
    var head := [1, sps[1], sps[2], sps[3], 0xFF, 0xE1] + U16Bytes(|sps|);
    assert r == head + sps + ([1] + U16Bytes(|pps|)) + pps;
    assert r[8..8 + |sps|] == sps;
    assert r[11 + |sps|..] == pps;
  }

  /** How reading a record ends when it does not panic: with an error, with
      nothing (a zero SPS or PPS count, which the readers accept silently), or
      with the first SPS and the first PPS. */
  datatype Parsed =
    | ExtraDataShort
    | ExtraDataInvalid
    | ExtraDataNalu
    | NoSps
    | NoPps
    | Units(sps: bytes, pps: bytes)

  /** The reader: lengths under 11 and a version other than 1 are errors; the
      SPS count is the low five bits of byte 5 and the PPS count the whole
      byte after the SPS; a declared length running past the data is
      errExtraDataNALU. The PPS length field itself is read without a bound
      check and panics when the data ends before it. */
  function Parse(data: bytes): (r: Exit<Parsed>)
    ensures r.Normal? && r.value.Units? ==>
      && |r.value.sps| + |r.value.pps| + 11 <= |data|
      && data[8..8 + |r.value.sps|] == r.value.sps
      && r.value.pps == data[11 + |r.value.sps|..11 + |r.value.sps| + |r.value.pps|]
  {
    if |data| < 11 then Normal(ExtraDataShort)
    else if data[0] != 1 then Normal(ExtraDataInvalid)
    else if data[5] % 32 == 0 then Normal(NoSps)
    else
      var spsLength := U16At(data, 6);
      if |data| < 8 + spsLength || 8 + spsLength >= |data| then Normal(ExtraDataNalu)
      else if data[8 + spsLength] == 0 then Normal(NoPps)
      else
        var offset := 9 + spsLength;
        if offset + 2 > |data| then Panic
        else
          var ppsLength := U16At(data, offset);
          if |data| < offset + 2 + ppsLength then Normal(ExtraDataNalu)
          else Normal(Units(data[8..8 + spsLength], data[offset + 2..offset + 2 + ppsLength]))
  }

  /** Reading back a written record gives the same SPS and PPS, as long as
      both lengths fit their 16-bit fields. */
  lemma ParseRecord(sps: bytes, pps: bytes)
    requires 4 <= |sps| < 0x1_0000 && 1 <= |pps| < 0x1_0000
    ensures Parse(Record(sps, pps)) == Normal(Units(sps, pps))
  {
    RecordLayout(sps, pps);
    var r := Record(sps, pps);
    assert r[5] % 32 == 1;
    assert U16At(r, 6) == |sps| && U16At(r, 9 + |sps|) == |pps|;
    assert r[8..8 + |sps|] == sps;
    assert r[11 + |sps|..11 + |sps| + |pps|] == pps by {
      assert r[11 + |sps|..] == pps;
    }
  }

  /** A record whose 16-bit lengths are truncated does not read back: a
      65536-byte SPS is announced as empty. */
  lemma LongSpsDoesNotRoundTrip(sps: bytes, pps: bytes)
    requires |sps| == 0x1_0000 && |pps| >= 1
    ensures Parse(Record(sps, pps)) != Normal(Units(sps, pps))
  {
    RecordLayout(sps, pps);
  }

  /** The writer, which fills a freshly made buffer by index. */
  method WriteRecord(sps: bytes, pps: bytes) returns (b: array<byte>)
    requires |sps| >= 4
    ensures fresh(b) && b[..] == Record(sps, pps)
  {
    b := new byte[|sps| + |pps| + 8 + 3];
    ghost var r := Record(sps, pps);
    RecordAt(sps, pps);
    WriteSpsHeader(b, sps);
    assert forall j :: 0 <= j < 8 ==> b[j] == r[j];
    CopyInto(b, 8, sps);
    assert forall j :: 0 <= j < 8 + |sps| ==> b[j] == r[j];
    WritePpsHeader(b, 8 + |sps|, pps);
    assert forall j :: 0 <= j < 11 + |sps| ==> b[j] == r[j];
    CopyInto(b, 11 + |sps|, pps);
    assert forall j :: 0 <= j < b.Length ==> b[j] == r[j];
    assert b[..] == r;
  }

  /** `b[0]` to `b[7]`: version, profile, compatibility, level, length size,
      SPS count and the 16-bit SPS length. */
  method WriteSpsHeader(b: array<byte>, sps: bytes)
    requires |sps| >= 4 && b.Length >= 8
    modifies b
    ensures b[0] == 1 && b[1] == sps[1] && b[2] == sps[2] && b[3] == sps[3] && b[4] == 0xFF && b[5] == 0xE1
    ensures b[6] == U16Bytes(|sps|)[0] && b[7] == U16Bytes(|sps|)[1]
    ensures forall j :: 8 <= j < b.Length ==> b[j] == old(b[j])
  {
    b[0] := 0x01;
    b[1] := sps[1];
    b[2] := sps[2];
    b[3] := sps[3];
    b[4] := 0xFF;
    b[5] := 0xE1;
    var spsLength := U16Bytes(|sps|);
    b[6] := spsLength[0];
    b[7] := spsLength[1];
  }

  /** The PPS count 1 and the 16-bit PPS length, at `at`. */
  method WritePpsHeader(b: array<byte>, at: nat, pps: bytes)
    requires at + 3 <= b.Length
    modifies b
    ensures b[at] == 1 && b[at + 1] == U16Bytes(|pps|)[0] && b[at + 2] == U16Bytes(|pps|)[1]
    ensures forall j :: 0 <= j < b.Length && !(at <= j < at + 3) ==> b[j] == old(b[j])
  {
    var ppsLength := U16Bytes(|pps|);
    b[at] := 1;
    b[at + 1] := ppsLength[0];
    b[at + 2] := ppsLength[1];
  }

  /** The record byte by byte. */
  lemma RecordAt(sps: bytes, pps: bytes)
    requires |sps| >= 4
    ensures var r := Record(sps, pps);
      && |r| == |sps| + |pps| + 11
      && r[0] == 1 && r[1] == sps[1] && r[2] == sps[2] && r[3] == sps[3] && r[4] == 0xFF && r[5] == 0xE1
      && r[6] == U16Bytes(|sps|)[0] && r[7] == U16Bytes(|sps|)[1]
      && (forall j :: 8 <= j < 8 + |sps| ==> r[j] == sps[j - 8])
      && r[8 + |sps|] == 1 && r[9 + |sps|] == U16Bytes(|pps|)[0] && r[10 + |sps|] == U16Bytes(|pps|)[1]
      && (forall j :: 11 + |sps| <= j < |r| ==> r[j] == pps[j - 11 - |sps|])
  {
    RecordLayout(sps, pps);
    var r := Record(sps, pps);
    forall j | 8 <= j < 8 + |sps| ensures r[j] == sps[j - 8] {
      assert r[8..8 + |sps|][j - 8] == sps[j - 8];
    }
    forall j | 11 + |sps| <= j < |r| ensures r[j] == pps[j - 11 - |sps|] {
      assert r[11 + |sps|..][j - 11 - |sps|] == pps[j - 11 - |sps|];
    }
  }

  /** `copy(b[at:], src)` where `src` fits. */
  method CopyInto(b: array<byte>, at: nat, src: bytes)
    requires at + |src| <= b.Length
    modifies b
    ensures forall j :: 0 <= j < b.Length ==> b[j] == if at <= j < at + |src| then src[j - at] else old(b[j])
  {
    forall j | 0 <= j < |src| {
      b[at + j] := src[j];
    }
  }

  /** The reader, advancing `offset` through the fields as the source does. */
  method ReadRecord(data: bytes) returns (r: Exit<Parsed>)
    ensures r == Parse(data)
  {
    if |data| < 11 {
      return Normal(ExtraDataShort);
    }
    if data[0] != 0x01 {
      return Normal(ExtraDataInvalid);
    }
    var spsCount := data[5] % 32;
    if spsCount == 0 {
      return Normal(NoSps);
    }
    var offset := 6;
    var spsLength := U16At(data, offset);
    offset := offset + 2;
    if |data| < offset + spsLength {
      return Normal(ExtraDataNalu);
    }
    var spsNalUnit := data[offset..offset + spsLength];
    offset := offset + spsLength;
    if offset >= |data| {
      return Normal(ExtraDataNalu);
    }
    var ppsCount := data[offset];
    offset := offset + 1;
    if ppsCount == 0 {
      return Normal(NoPps);
    }
    if offset + 2 > |data| {
      return Panic;
    }
    var ppsLength := U16At(data, offset);
    offset := offset + 2;
    if |data| < offset + ppsLength {
      return Normal(ExtraDataNalu);
    }
    var ppsNalUnit := data[offset..offset + ppsLength];
    return Normal(Units(spsNalUnit, ppsNalUnit));
  }
}
