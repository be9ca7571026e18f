/**
 * The AV1 codec configuration of `codecs/av1/config.go`: the sequence header
 * OBU as the library decoded it, and the `av1C` record of section 2.3.3 of
 * the AV1 codec ISO media file format binding that `MarshalToExtraData`
 * builds from it: marker and version, profile and level, one byte of tier
 * and colour flags, one zero byte, then the sequence header OBU itself. The
 * sequence-header decoder belongs to the library and is a parameter here.
 */
module Av1Config {
  import opened Base

  /** The fields of the library's sequence header that the record uses. */
  datatype SequenceHeader = SequenceHeader(
    seqProfile: byte, seqLevelIdx: seq<byte>, seqTier: seq<bool>, bitDepth: nat,
    monoChrome: bool, subsamplingX: bool, subsamplingY: bool, chromaSamplePosition: byte)

  /** The zero value of the Go struct. */
  const ZeroHeader := SequenceHeader(0, [], [], 0, false, false, false, 0)

  function Bit(b: bool): nat { if b then 1 else 0 }

  /** The third byte of the record. */
  function ColorByte(h: SequenceHeader): byte
    requires |h.seqTier| > 0
  {
    Bit(h.seqTier[0]) * 128 + Bit(h.bitDepth > 8) * 64 + Bit(h.bitDepth == 12) * 32 + Bit(h.monoChrome) * 16
      + Bit(h.subsamplingX) * 8 + Bit(h.subsamplingY) * 4 + h.chromaSamplePosition % 4
  }

  /** `MarshalToExtraData` on a configuration: an error (`None`) while no
      sequence header was recorded; a panic when the header lists no level
      or no tier for operating point 0. */
  function ExtraData(seqData: Option<bytes>, h: SequenceHeader): (r: Exit<Option<bytes>>)
    ensures seqData.None? ==> r == Normal(None)
    ensures r.Panic? <==> seqData.Some? && (|h.seqLevelIdx| == 0 || |h.seqTier| == 0)
    ensures r.Normal? && r.value.Some? ==> |r.value.value| == 4 + |seqData.value| && r.value.value[4..] == seqData.value
  {
    if seqData.None? then Normal(None)
    else if |h.seqLevelIdx| == 0 || |h.seqTier| == 0 then Panic
    else
      var version := 1;
      Normal(Some([0x80 + version % 0x80, (h.seqProfile % 8) * 32 + h.seqLevelIdx[0] % 32, ColorByte(h), 0] + seqData.value))
  }

  /** The `av1C` record as a reader sees it. */
  datatype Av1CRecord = Av1CRecord(
    version: nat, seqProfile: nat, seqLevelIdx0: nat, seqTier0: bool, highBitdepth: bool, twelveBit: bool,
    monochrome: bool, subsamplingX: bool, subsamplingY: bool, chromaSamplePosition: nat, configObus: bytes)

  /** The bit of `b` whose place value is `place`. */
  function BitAt(b: byte, place: nat): bool
    requires place > 0
  {
    (b / place) % 2 == 1
  }

  /** Reading the record back; `None` when it is shorter than its four fixed
      bytes or the marker bit is clear. */
  function ParseAv1C(d: bytes): (r: Option<Av1CRecord>)
    ensures r.Some? ==> |d| >= 4 && r.value.configObus == d[4..]
  {
    if |d| < 4 || d[0] < 0x80 then None
    else Some(Av1CRecord(d[0] % 0x80, d[1] / 32, d[1] % 32, BitAt(d[2], 128), BitAt(d[2], 64), BitAt(d[2], 32),
                         BitAt(d[2], 16), BitAt(d[2], 8), BitAt(d[2], 4), d[2] % 4, d[4..]))
  }

  /** The six flags and the two-bit field read back from the byte they
      were packed into. */
  lemma PackedBits(t: nat, d0: nat, d1: nat, m: nat, x: nat, y: nat, pos: nat)
    requires t < 2 && d0 < 2 && d1 < 2 && m < 2 && x < 2 && y < 2 && pos < 4
    ensures var c := t * 128 + d0 * 64 + d1 * 32 + m * 16 + x * 8 + y * 4 + pos;
      && BitAt(c, 128) == (t == 1) && BitAt(c, 64) == (d0 == 1) && BitAt(c, 32) == (d1 == 1)
      && BitAt(c, 16) == (m == 1) && BitAt(c, 8) == (x == 1) && BitAt(c, 4) == (y == 1) && c % 4 == pos
  {
    var c := t * 128 + d0 * 64 + d1 * 32 + m * 16 + x * 8 + y * 4 + pos;
    assert c / 128 == t;
    assert c / 64 == t * 2 + d0;
    assert c / 32 == t * 4 + d0 * 2 + d1;
    assert c / 16 == t * 8 + d0 * 4 + d1 * 2 + m;
    assert c / 8 == t * 16 + d0 * 8 + d1 * 4 + m * 2 + x;
    assert c / 4 == t * 32 + d0 * 16 + d1 * 8 + m * 4 + x * 2 + y;
  }

  lemma ColorBits(h: SequenceHeader)
    requires |h.seqTier| > 0
    ensures var c := ColorByte(h);
      && BitAt(c, 128) == h.seqTier[0] && BitAt(c, 64) == (h.bitDepth > 8) && BitAt(c, 32) == (h.bitDepth == 12)
      && BitAt(c, 16) == h.monoChrome && BitAt(c, 8) == h.subsamplingX && BitAt(c, 4) == h.subsamplingY
      && c % 4 == h.chromaSamplePosition % 4
  {
    PackedBits(Bit(h.seqTier[0]), Bit(h.bitDepth > 8), Bit(h.bitDepth == 12), Bit(h.monoChrome),
               Bit(h.subsamplingX), Bit(h.subsamplingY), h.chromaSamplePosition % 4);
  }

  /** Round trip: the record reads back as version 1 with the header's
      profile, level, tier and colour configuration, cut to their field
      widths, followed by the sequence header OBU. */
  lemma ExtraDataReadsBack(seqData: bytes, h: SequenceHeader)
    requires |h.seqLevelIdx| > 0 && |h.seqTier| > 0
    ensures ExtraData(Some(seqData), h).Normal?
    ensures ParseAv1C(ExtraData(Some(seqData), h).value.value) == Some(Av1CRecord(
      1, h.seqProfile % 8, h.seqLevelIdx[0] % 32, h.seqTier[0], h.bitDepth > 8, h.bitDepth == 12,
      h.monoChrome, h.subsamplingX, h.subsamplingY, h.chromaSamplePosition % 4, seqData))
  {
    var d := ExtraData(Some(seqData), h).value.value;
    ColorBits(h);
    var b1 := (h.seqProfile % 8) * 32 + h.seqLevelIdx[0] % 32;
    assert d[0] == 0x81 && d[1] == b1 && d[2] == ColorByte(h);
    assert b1 / 32 == h.seqProfile % 8 && b1 % 32 == h.seqLevelIdx[0] % 32;
    assert d[0] % 0x80 == 1;
  }

  /** The configuration: the sequence header OBU as received and its decoded
      fields. */
  class Config {
    var seqData: Option<bytes>
    var header: SequenceHeader

    /** `NewAV1Config`. */
    constructor ()
      ensures seqData == None && header == ZeroHeader
    {
      seqData := None;
      header := ZeroHeader;
    }

    /** Records `data` and its fields when the library decodes it; an error
        leaves the configuration as it was. */
    method UnmarshalSequenceHeader(data: bytes, decode: bytes -> Option<SequenceHeader>) returns (ok: bool)
      modifies this
      ensures ok <==> decode(data).Some?
      ensures ok ==> seqData == Some(data) && header == decode(data).value
      ensures !ok ==> seqData == old(seqData) && header == old(header)
    {
      var decoded := decode(data);
      if decoded.None? {
        return false;
      }
      header := decoded.value;
      seqData := Some(data);
      return true;
    }

    /** `MarshalToExtraData`: appends the fixed bytes and then the sequence
        header; `ext |= bit << k` sets bits that are still clear, so it is
        written as an addition. */
    method MarshalToExtraData() returns (r: Exit<Option<bytes>>)
      ensures r == ExtraData(seqData, header)
    {
      if seqData.None? {
        return Normal(None);
      }
      var data: bytes := [];
      var version := 1;
      data := data + [0x80 + version % 0x80];
      if |header.seqLevelIdx| == 0 {
        return Panic;
      }
      data := data + [(header.seqProfile % 8) * 32 + header.seqLevelIdx[0] % 32];
      if |header.seqTier| == 0 {
        return Panic;
      }
      var ext: nat := 0;
      ext := ext + Bit(header.seqTier[0]) * 128;
      ext := ext + Bit(header.bitDepth > 8) * 64;
      ext := ext + Bit(header.bitDepth == 12) * 32;
      ext := ext + Bit(header.monoChrome) * 16;
      ext := ext + Bit(header.subsamplingX) * 8;
      ext := ext + Bit(header.subsamplingY) * 4;
      ext := ext + header.chromaSamplePosition % 4;
      assert ext == ColorByte(header);
      data := data + [ext];
      data := data + [0x00];
      assert data == [0x80 + version % 0x80, (header.seqProfile % 8) * 32 + header.seqLevelIdx[0] % 32, ColorByte(header), 0];
      data := data + seqData.value;
      return Normal(Some(data));
    }
  }
}
