/**
 * The frame-assembly gate of `hubs/writers/writer.go`. `BitStreamSummary`
 * collects the units of one frame: for VP8 and H.264 the buffer becomes the
 * unit's payload, for AV1 each OBU is appended with a size field added when
 * it has none. H.264 SEI, SPS and PPS units are dropped. On the marker bit
 * the frame is emitted, but only once a key frame has been seen; before that
 * the buffer is cleared. `WriteAudioPkt` and `WriteVideoPkt` make every time
 * stamp relative to that of the first unit written.
 */
module Writer {
  import opened Base
  import opened Types
  import opened Leb128
  import Av1Bsf

  /** A media unit: payload, time stamps in its own time base, the marker bit
      of its last RTP packet and the key-frame flag. */
  datatype Unit = Unit(payload: bytes, pts: int, dts: int, duration: int, timeBase: int, marker: bool, flag: nat)

  /** The fields of the writer that the gate uses. */
  datatype Gate = Gate(start: bool, keyFrame: bool, buf: bytes)

  const ObuTypeSequenceHeader: nat := 1
  const Uint64Modulus: int := 0x1_0000_0000_0000_0000

  /** The OBU header byte, plus the extension byte when bit 2 is set. */
  function HeaderLength(p: bytes): nat
    requires |p| > 0
  {
    if Av1Bsf.ExtensionFlag(p[0]) then 2 else 1
  }

  /** The header byte with the has-size bit set. */
  function WithSizeBit(h: byte): (r: byte)
    requires !Av1Bsf.HasSizeField(h)
    ensures Av1Bsf.HasSizeField(r) && Av1Bsf.ExtensionFlag(r) == Av1Bsf.ExtensionFlag(h) && r / 8 == h / 8
  {
    h + 2
  }

  /** The OBU as the writer appends it: unchanged when it has a size field,
      otherwise the header with the has-size bit, the size of what follows
      the header as a leb128 (computed as a Go `uint`, so `-1` for a lone
      header byte with its extension flag set), then everything after the
      first header byte. */
  function SizedObuAsWritten(p: bytes): (r: bytes)
    requires |p| > 0
  {
    if Av1Bsf.HasSizeField(p[0]) then p
    else
      var size := |p| - HeaderLength(p);
      [WithSizeBit(p[0])] + LebBytes(if size < 0 then size + Uint64Modulus else size) + p[1..]
  }

  /** The OBU with its size field where section 5.3.1 of the AV1 bitstream
      specification puts it: after the extension byte. */
  function SizedObu(p: bytes): (r: bytes)
    requires |p| > 0
  {
    if Av1Bsf.HasSizeField(p[0]) then p
    else
      var n := if |p| >= HeaderLength(p) then HeaderLength(p) else |p|;
      [WithSizeBit(p[0])] + p[1..n] + LebBytes(|p| - n) + p[n..]
  }

  /** The two agree on every OBU without an extension byte. */
  lemma SizedObuAgrees(p: bytes)
    requires |p| > 0 && !Av1Bsf.ExtensionFlag(p[0])
    ensures SizedObuAsWritten(p) == SizedObu(p)
  {
    assert p[1..1] == [];
  }

  /** An OBU with an extension byte and no size, `34 00 AA`, is written as
      `36 01 00 AA`: the size byte stands where a reader expects the
      extension byte, and the OBU filter of the same system returns nothing
      for it. */
  lemma SizedObuAsWrittenMisplacesSize()
    ensures SizedObuAsWritten([0x34, 0x00, 0xAA]) == [0x36, 0x01, 0x00, 0xAA]
    ensures Av1Bsf.Filter([0x36, 0x01, 0x00, 0xAA]) == Normal([])
  {
    assert LebBytes(1) == [1];
    var q: bytes := [0x36, 0x01, 0x00, 0xAA];
    assert Leb128.Leb128(q[2..]) == Some((0, 1)) by {
      assert q[2..] == [0x00, 0xAA];
    }
    assert Av1Bsf.NextObu(q, 0) == Av1Bsf.Piece(3);
    assert Leb128.Leb128(q[4..]) == None by {
      assert q[4..] == [];
    }
    assert Av1Bsf.NextObu(q, 3) == Av1Bsf.LebError;
  }

  /** Evidently intended: an OBU without a size field, once sized, is split
      back by the OBU filter as exactly one OBU, with its extension byte and
      payload in place. */
  lemma SizedObuSplits(p: bytes)
    requires |p| > 0 && |p| >= HeaderLength(p) && !Av1Bsf.HasSizeField(p[0]) && |p| - HeaderLength(p) < Pow128(8)
    ensures Av1Bsf.Filter(SizedObu(p)) == Normal([SizedObu(p)])
    ensures SizedObu(p) == Av1Bsf.ObuBytes(Av1Bsf.Obu(WithSizeBit(p[0]), if HeaderLength(p) == 2 then p[1] else 0, p[HeaderLength(p)..]))
  {
    var n := HeaderLength(p);
    var o := Av1Bsf.Obu(WithSizeBit(p[0]), if n == 2 then p[1] else 0, p[n..]);
    assert p[1..n] == (if n == 2 then [p[1]] else []);
    assert SizedObu(p) == Av1Bsf.ObuBytes(o);
    assert [o][1..] == [];
    assert Av1Bsf.Encode([o]) == Av1Bsf.ObuBytes(o);
    assert Av1Bsf.Pieces([o]) == [Av1Bsf.ObuBytes(o)];
    assert Av1Bsf.Sized([o]);
    Av1Bsf.FilterRoundTrip([o]);
  }

  /** Whether a unit's payload makes the frame a key frame: a VP8 frame tag
      with the key-frame bit clear, an H.264 IDR slice, an AV1 sequence
      header OBU. */
  predicate IsKey(codec: CodecType, p: bytes) {
    |p| > 0 &&
    match codec
    case CodecTypeVP8 => p[0] % 2 == 0
    case CodecTypeH264 => NalType(p[0]) == NalIdr
    case CodecTypeAV1 => p[0] / 8 == ObuTypeSequenceHeader
    case _ => false
  }

  /** The codec-specific first half of `BitStreamSummary`: the gate after
      taking in the payload, `None` when it is dropped, or a panic when a
      video payload is empty. */
  function Collect(codec: CodecType, g: Gate, p: bytes): (r: Exit<Option<Gate>>)
    ensures r.Panic? <==> |p| == 0 && (codec == CodecTypeVP8 || codec == CodecTypeH264 || codec == CodecTypeAV1)
    ensures r.Normal? && r.value.Some? ==> r.value.value.start == g.start && r.value.value.keyFrame == (g.keyFrame || IsKey(codec, p))
  {
    match codec
    case CodecTypeVP8 =>
      if |p| == 0 then Panic else Normal(Some(Gate(g.start, g.keyFrame || p[0] % 2 == 0, p)))
    case CodecTypeH264 =>
      if |p| == 0 then Panic
      else
        var t := NalType(p[0]);
        if t == NalSei || t == NalSps || t == NalPps then Normal(None)
        else Normal(Some(Gate(g.start, g.keyFrame || t == NalIdr, p)))
    case CodecTypeAV1 =>
      if |p| == 0 then Panic
      else Normal(Some(Gate(g.start, g.keyFrame || p[0] / 8 == ObuTypeSequenceHeader, g.buf + SizedObu(p))))
    case _ => Normal(Some(g))
  }

  /** `BitStreamSummary` on a gate: the gate afterwards and the unit emitted,
      if any. */
  function Summarize(g: Gate, codec: CodecType, u: Unit): Exit<(Gate, Option<Unit>)> {
    match Collect(codec, g, u.payload)
    case Panic => Panic
    case Normal(None) => Normal((g, None))
    case Normal(Some(c)) =>
      if !u.marker then Normal((c, None))
      else if !(c.start || c.keyFrame) then Normal((Gate(false, c.keyFrame, []), None))
      else Normal((Gate(true, false, []), Some(Unit(c.buf, u.pts, u.dts, u.duration, u.timeBase, u.marker, if c.keyFrame then 1 else 0))))
  }

  /** A unit without the marker bit never emits. */
  lemma NonMarkerNeverEmits(g: Gate, codec: CodecType, u: Unit)
    requires !u.marker && Summarize(g, codec, u).Normal?
    ensures Summarize(g, codec, u).value.1 == None
  {
  }

  /** Once a key frame has been seen the gate stays open. */
  lemma StartStays(g: Gate, codec: CodecType, u: Unit)
    requires g.start && Summarize(g, codec, u).Normal?
    ensures Summarize(g, codec, u).value.0.start
  {
  }

  /** Before the first key frame a unit emits nothing and leaves the gate
      closed; a marker unit that is not dropped clears the buffer. */
  lemma WaitsForKeyFrame(g: Gate, codec: CodecType, u: Unit)
    requires !g.start && !g.keyFrame && !IsKey(codec, u.payload) && Summarize(g, codec, u).Normal?
    ensures var s := Summarize(g, codec, u).value;
      s.1 == None && !s.0.start && !s.0.keyFrame && (u.marker && Collect(codec, g, u.payload).value.Some? ==> s.0.buf == [])
  {
  }

  /** A marker unit emits exactly when the gate is open or a key frame has
      been seen; the emitted unit carries the collected buffer and the unit's
      time stamps, its flag is 1 exactly when a key frame was seen since the
      last emit, and the buffer and key-frame mark are reset. */
  lemma EmitsOnMarker(g: Gate, codec: CodecType, u: Unit)
    requires u.marker && Collect(codec, g, u.payload).Normal? && Collect(codec, g, u.payload).value.Some?
    ensures var c := Collect(codec, g, u.payload).value.value;
      var s := Summarize(g, codec, u).value;
      && (s.1.Some? <==> g.start || c.keyFrame)
      && (s.1.Some? ==> s.1.value.payload == c.buf && s.1.value.pts == u.pts && s.1.value.dts == u.dts
                        && (s.1.value.flag == 1 <==> g.keyFrame || IsKey(codec, u.payload)))
      && s.0.buf == [] && !s.0.keyFrame
  {
  }

  /** H.264 SEI, SPS and PPS units are dropped and change nothing. */
  lemma H264ParameterSetsDropped(g: Gate, u: Unit)
    requires |u.payload| > 0 && NalType(u.payload[0]) in {NalSei, NalSps, NalPps}
    ensures Summarize(g, CodecTypeH264, u) == Normal((g, None))
  {
  }

  /** A run of units through the gate: the gate at the end and the units
      emitted, in order. */
  function Run(g: Gate, codec: CodecType, us: seq<Unit>): Exit<(Gate, seq<Unit>)>
    decreases |us|
  {
    if |us| == 0 then Normal((g, []))
    else
      match Summarize(g, codec, us[0])
      case Panic => Panic
      case Normal((g1, out)) =>
        match Run(g1, codec, us[1..])
        case Panic => Panic
        case Normal((g2, outs)) => Normal((g2, (if out.Some? then [out.value] else []) + outs))
  }

  /** Nothing is emitted until a key frame arrives. */
  lemma {:induction false} NoOutputBeforeKeyFrame(g: Gate, codec: CodecType, us: seq<Unit>)
    requires !g.start && !g.keyFrame && forall i :: 0 <= i < |us| ==> !IsKey(codec, us[i].payload)
    requires Run(g, codec, us).Normal?
    ensures Run(g, codec, us).value.1 == [] && !Run(g, codec, us).value.0.start
    decreases |us|
  {
    if |us| > 0 {
      var g1 := Summarize(g, codec, us[0]).value.0;
      assert !g1.start && !g1.keyFrame && Summarize(g, codec, us[0]).value.1 == None;
      assert forall i :: 0 <= i < |us[1..]| ==> !IsKey(codec, us[1..][i].payload) by {
        forall i | 0 <= i < |us[1..]| ensures !IsKey(codec, us[1..][i].payload) {
          assert us[1..][i] == us[i + 1];
        }
      }
      NoOutputBeforeKeyFrame(g1, codec, us[1..]);
    }
  }

  /** Starting closed, the first unit emitted is flagged as a key frame. */
  lemma {:induction false} FirstOutputIsKey(g: Gate, codec: CodecType, us: seq<Unit>)
    requires !g.start && Run(g, codec, us).Normal? && |Run(g, codec, us).value.1| > 0
    ensures Run(g, codec, us).value.1[0].flag == 1
    decreases |us|
  {
    var s := Summarize(g, codec, us[0]).value;
    if s.1.None? {
      assert !s.0.start;
      FirstOutputIsKey(s.0, codec, us[1..]);
    }
  }

  /** The time stamps and payload FFmpeg receives for a unit, before
      rescaling to the stream's time base. */
  datatype Packet = Packet(pts: int, dts: int, duration: int, streamIndex: int, data: bytes, flag: nat)

  class Writer {
    const codec: CodecType
    const index: int
    var setPTS: bool
    var basePTS: int
    var start: bool
    var keyFrame: bool
    var buf: bytes

    /** `NewWriter`. */
    constructor (codec: CodecType, index: int)
      ensures this.codec == codec && this.index == index
      ensures !setPTS && basePTS == 0 && !start && !keyFrame && buf == []
    {
      this.codec := codec;
      this.index := index;
      setPTS := false;
      basePTS := 0;
      start := false;
      keyFrame := false;
      buf := [];
    }

    method BitStreamSummary(u: Unit) returns (r: Exit<Option<Unit>>)
      modifies this
      ensures var s := Summarize(old(Gate(start, keyFrame, buf)), codec, u);
        && (r.Panic? <==> s.Panic?)
        && (r.Normal? ==> r.value == s.value.1 && Gate(start, keyFrame, buf) == s.value.0)
      ensures setPTS == old(setPTS) && basePTS == old(basePTS)
    {
      var p := u.payload;
      if codec == CodecTypeVP8 {
        if |p| == 0 {
          return Panic;
        }
        if p[0] % 2 == 0 {
          keyFrame := true;
        }
        buf := p;
      } else if codec == CodecTypeH264 {
        if |p| == 0 {
          return Panic;
        }
        var naluType := NalType(p[0]);
        if naluType == NalSei {
          return Normal(None);
        }
        if naluType == NalSps || naluType == NalPps {
          return Normal(None);
        }
        if naluType == NalIdr {
          keyFrame := true;
        }
        buf := p;
      } else if codec == CodecTypeAV1 {
        if |p| == 0 {
          return Panic;
        }
        if p[0] / 8 == ObuTypeSequenceHeader {
          keyFrame := true;
        }
        buf := buf + SizedObu(p);
      }
      if !u.marker {
        return Normal(None);
      }
      if keyFrame {
        start := true;
      }
      if !start {
        buf := [];
        return Normal(None);
      }
      var flag := if keyFrame then 1 else 0;
      var out := buf;
      buf := [];
      keyFrame := false;
      return Normal(Some(Unit(out, u.pts, u.dts, u.duration, u.timeBase, u.marker, flag)));
    }

    /** Takes the base time stamp from the first unit written, audio or
        video. */
    method Rebase(u: Unit) returns (pts: int, dts: int)
      modifies this
      ensures setPTS && basePTS == (if old(setPTS) then old(basePTS) else u.pts)
      ensures pts == u.pts - basePTS && dts == u.dts - basePTS
      ensures start == old(start) && keyFrame == old(keyFrame) && buf == old(buf)
    {
      if !setPTS {
        setPTS := true;
        basePTS := u.pts;
      }
      pts := u.pts - basePTS;
      dts := u.dts - basePTS;
    }

    method WriteAudioPkt(u: Unit) returns (pkt: Packet)
      modifies this
      ensures setPTS && basePTS == (if old(setPTS) then old(basePTS) else u.pts)
      ensures pkt == Packet(u.pts - basePTS, u.dts - basePTS, u.duration, index, u.payload, 0)
      ensures start == old(start) && keyFrame == old(keyFrame) && buf == old(buf)
    {
      var pts, dts := Rebase(u);
      pkt := Packet(pts, dts, u.duration, index, u.payload, 0);
    }

    /** `setBitStream` is the bitstream filter the writer was built with. */
    method WriteVideoPkt(u: Unit, setBitStream: bytes -> bytes) returns (pkt: Packet)
      modifies this
      ensures setPTS && basePTS == (if old(setPTS) then old(basePTS) else u.pts)
      ensures pkt == Packet(u.pts - basePTS, u.dts - basePTS, u.duration, index, setBitStream(u.payload), u.flag)
      ensures start == old(start) && keyFrame == old(keyFrame) && buf == old(buf)
    {
      var pts, dts := Rebase(u);
      pkt := Packet(pts, dts, u.duration, index, setBitStream(u.payload), u.flag);
    }
  }
}
