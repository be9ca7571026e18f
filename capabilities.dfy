/**
 * The codec capability tables of `hubs/engines/webrtc.go`: the codecs the
 * server registers with its WebRTC engine, per media kind, each with its
 * RTP payload type, and the retransmission (RTX, RFC 4588) entries that
 * name their codec's payload type in `apt=`. The H.264 fmtp line is
 * rendered by a helper outside this model and is kept as its parameters.
 */
module Capabilities {
  import opened Base

  /** The mime types of the WebRTC library. */
  const MimeTypeOpus := "audio/opus"
  const MimeTypeH264 := "video/H264"
  const MimeTypeVP8 := "video/VP8"
  const MimeTypeAV1 := "video/AV1"
  const MimeTypeRtx := "video/rtx"

  datatype Fmtp =
    | FmtpLine(line: string)
    | H264Fmtp(levelAsymmetryAllowed: int, packetizationMode: int, profileLevelId: string)
      /** `apt=<payload type>`. */
    | AptFmtp(apt: byte)

  datatype CodecParameters = CodecParameters(mimeType: string, clockRate: nat, channels: nat, fmtp: Fmtp, payloadType: byte)

  /** The capability lists per media kind. */
  datatype Table = Table(audio: seq<CodecParameters>, video: seq<CodecParameters>)

  function RtxFor(apt: byte, payloadType: byte): CodecParameters {
    CodecParameters(MimeTypeRtx, 90000, 0, AptFmtp(apt), payloadType)
  }

  const Opus := CodecParameters(MimeTypeOpus, 48000, 2, FmtpLine(""), 96)
  const H264 := CodecParameters(MimeTypeH264, 90000, 0, H264Fmtp(1, 1, "42001f"), 111)
  const VP8 := CodecParameters(MimeTypeVP8, 90000, 0, FmtpLine(""), 123)
  const AV1 := CodecParameters(MimeTypeAV1, 90000, 0, FmtpLine("level-idx=5;profile=0;tier=0"), 125)

  /** `slices.DeleteFunc`: the elements `del` does not select, in order. */
  function DeleteFunc(xs: seq<CodecParameters>, del: CodecParameters -> bool): (r: seq<CodecParameters>)
    ensures |r| <= |xs|
    ensures forall x :: x in r <==> x in xs && !del(x)
    decreases |xs|
  {
    if |xs| == 0 then []
    else (if del(xs[0]) then [] else [xs[0]]) + DeleteFunc(xs[1..], del)
  }

  predicate IsRtx(c: CodecParameters) {
    c.mimeType == MimeTypeRtx
  }

  /** The H.264 list keeps its RTX entry only when RTX is in use. */
  function H264Capabilities(useRtx: bool): seq<CodecParameters> {
    DeleteFunc([H264, RtxFor(111, 112)], c => !useRtx && IsRtx(c))
  }

  /** The VP8 and AV1 lists drop their RTX entry when RTX is in use; the
      AV1 RTX entry reuses VP8's payload type 124. */
  function Vp8Capabilities(useRtx: bool): seq<CodecParameters> {
    DeleteFunc([VP8, RtxFor(123, 124)], c => useRtx && IsRtx(c))
  }

  function Av1CapabilitiesAsWritten(useRtx: bool): seq<CodecParameters> {
    DeleteFunc([AV1, RtxFor(125, 124)], c => useRtx && IsRtx(c))
  }

  /** The AV1 list with its RTX entry on the free payload type 126. */
  function Av1Capabilities(useRtx: bool): seq<CodecParameters> {
    DeleteFunc([AV1, RtxFor(125, 126)], c => useRtx && IsRtx(c))
  }

  /** `GetWebRTCCapabilities`: Opus alone for audio; H.264, then VP8, then
      AV1 for video. */
  function GetWebRtcCapabilitiesAsWritten(useRtx: bool): Table {
    Table([Opus], H264Capabilities(useRtx) + Vp8Capabilities(useRtx) + Av1CapabilitiesAsWritten(useRtx))
  }

  function GetWebRtcCapabilities(useRtx: bool): Table {
    Table([Opus], H264Capabilities(useRtx) + Vp8Capabilities(useRtx) + Av1Capabilities(useRtx))
  }

  /** No two entries share a payload type. */
  predicate DistinctPayloadTypes(cs: seq<CodecParameters>) {
    forall i, j :: 0 <= i < j < |cs| ==> cs[i].payloadType != cs[j].payloadType
  }

  /** Every RTX entry names the payload type of a codec entry of the same
      list that is not itself RTX. */
  predicate AptsResolve(cs: seq<CodecParameters>) {
    forall i :: 0 <= i < |cs| && IsRtx(cs[i]) ==>
      cs[i].fmtp.AptFmtp? && exists j :: 0 <= j < |cs| && !IsRtx(cs[j]) && cs[j].payloadType == cs[i].fmtp.apt
  }

  /** `DeleteFunc` on a codec and its RTX entry. */
  lemma DeletePair(a: CodecParameters, b: CodecParameters, del: CodecParameters -> bool)
    ensures DeleteFunc([a, b], del) == (if del(a) then [] else [a]) + (if del(b) then [] else [b])
  {
    assert [a, b][1..] == [b];
    assert [b][1..] == [];
  }

  lemma NotRtx()
    ensures !IsRtx(H264) && !IsRtx(VP8) && !IsRtx(AV1)
  {
    assert MimeTypeH264[6] != MimeTypeRtx[6];
    assert MimeTypeVP8[6] != MimeTypeRtx[6];
    assert MimeTypeAV1[6] != MimeTypeRtx[6];
  }

  /** The H.264 and VP8 lists each way round... */
  lemma H264Vp8Lists(useRtx: bool)
    ensures H264Capabilities(useRtx) == if useRtx then [H264, RtxFor(111, 112)] else [H264]
    ensures Vp8Capabilities(useRtx) == if useRtx then [VP8] else [VP8, RtxFor(123, 124)]
  {
    NotRtx();
    DeletePair(H264, RtxFor(111, 112), c => !useRtx && IsRtx(c));
    DeletePair(VP8, RtxFor(123, 124), c => useRtx && IsRtx(c));
  }

  /** ... and the AV1 ones. */
  lemma Av1Lists(useRtx: bool)
    ensures Av1CapabilitiesAsWritten(useRtx) == if useRtx then [AV1] else [AV1, RtxFor(125, 124)]
    ensures Av1Capabilities(useRtx) == if useRtx then [AV1] else [AV1, RtxFor(125, 126)]
  {
    NotRtx();
    DeletePair(AV1, RtxFor(125, 124), c => useRtx && IsRtx(c));
    DeletePair(AV1, RtxFor(125, 126), c => useRtx && IsRtx(c));
  }

  /** The video lists, as written and corrected, with RTX in use... */
  lemma VideoListsRtx()
    ensures GetWebRtcCapabilitiesAsWritten(true).video == [H264, RtxFor(111, 112), VP8, AV1]
    ensures GetWebRtcCapabilities(true).video == [H264, RtxFor(111, 112), VP8, AV1]
  {
    H264Vp8Lists(true);
    Av1Lists(true);
    assert [H264, RtxFor(111, 112)] + [VP8] + [AV1] == [H264, RtxFor(111, 112), VP8, AV1];
  }

  /** ... and without it. */
  lemma VideoListsNoRtx()
    ensures GetWebRtcCapabilitiesAsWritten(false).video == [H264, VP8, RtxFor(123, 124), AV1, RtxFor(125, 124)]
    ensures GetWebRtcCapabilities(false).video == [H264, VP8, RtxFor(123, 124), AV1, RtxFor(125, 126)]
  {
    H264Vp8Lists(false);
    Av1Lists(false);
    var v, a, c := [VP8, RtxFor(123, 124)], [AV1, RtxFor(125, 124)], [AV1, RtxFor(125, 126)];
    assert [H264] + v + a == [H264, VP8, RtxFor(123, 124), AV1, RtxFor(125, 124)];
    assert [H264] + v + c == [H264, VP8, RtxFor(123, 124), AV1, RtxFor(125, 126)];
  }

  /** Audio is Opus alone, at 48 kHz in stereo on payload type 96; the H.264
      RTX entry is there exactly when RTX is in use, the VP8 and AV1 ones
      exactly when it is not. */
  lemma CapabilityRules(useRtx: bool)
    ensures var t := GetWebRtcCapabilities(useRtx);
      && t.audio == [Opus] && Opus.clockRate == 48000 && Opus.channels == 2 && Opus.payloadType == 96
      && (RtxFor(111, 112) in t.video <==> useRtx)
      && (RtxFor(123, 124) in t.video <==> !useRtx)
      && (RtxFor(125, 126) in t.video <==> !useRtx)
  {
    VideoListsRtx();
    VideoListsNoRtx();
  }

  /** As written, without RTX the VP8 and AV1 retransmission entries both
      use payload type 124. */
  lemma DuplicateRtxPayloadType()
    ensures !DistinctPayloadTypes(GetWebRtcCapabilitiesAsWritten(false).video)
  {
    VideoListsRtx();
    VideoListsNoRtx();
    var v := GetWebRtcCapabilitiesAsWritten(false).video;
    assert v[2].payloadType == v[4].payloadType;
  }

  /** Corrected, every payload type is used once either way, and every RTX
      entry points at a codec of the list. */
  lemma CapabilitiesWellFormed(useRtx: bool)
    ensures DistinctPayloadTypes(GetWebRtcCapabilities(useRtx).video)
    ensures AptsResolve(GetWebRtcCapabilities(useRtx).video)
  {
    var v := GetWebRtcCapabilities(useRtx).video;
    if useRtx {
      VideoListsRtx();
      assert !IsRtx(v[0]) && v[0].payloadType == 111;
    } else {
      VideoListsNoRtx();
      assert !IsRtx(v[1]) && v[1].payloadType == 123;
      assert !IsRtx(v[3]) && v[3].payloadType == 125;
    }
  }

  const TransportWideCc := "http://www.ietf.org/id/draft-holmer-rmcat-transport-wide-cc-extensions-01"
  const AbsSendTime := "http://www.webrtc.org/experiments/rtp-hdrext/abs-send-time"

  /** `GetWHEPRTPHeaderExtensionCapabilities` and
      `GetWHIPRTPHeaderExtensionCapabilities`, as (audio, video) lists of
      extension URIs; a nil list is empty. */
  function WhepHeaderExtensions(): (r: (seq<string>, seq<string>))
    ensures r.0 == [] && r.1 == [TransportWideCc, AbsSendTime]
  {
    ([], [TransportWideCc, AbsSendTime])
  }

  function WhipHeaderExtensions(): (r: (seq<string>, seq<string>))
    ensures r.0 == [] && r.1 == []
  {
    ([], [])
  }
}
