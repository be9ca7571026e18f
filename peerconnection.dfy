/**
 * `createReceiverPeerConnection` of the browser client: two receive-only
 * transceivers, and the video transceiver's codec preferences restricted to
 * H.264 with profile-level-id 4d001f and packetization-mode 1. The browser's
 * peer connection is a class whose transceivers the method changes.
 */
module ReceiverPeerConnection {
  import opened Base
  import opened Fmtp

  /** One entry of `RTCRtpSender.getCapabilities('video').codecs`. */
  datatype CodecCapability = CodecCapability(
    mimeType: string,
    clockRate: nat,
    channels: Option<nat>,
    sdpFmtpLine: Option<string>)

  datatype Kind = Video | Audio
  datatype Direction = SendRecv | SendOnly | RecvOnly | Inactive

  /** A transceiver; `preferences` is `None` until `setCodecPreferences`. */
  datatype Transceiver = Transceiver(kind: Kind, direction: Direction, preferences: Option<seq<CodecCapability>>)

  /** What the function ends with: a logged "no suitable codec" error, or the
      preferences set. */
  datatype Outcome = NoSuitableCodec | PreferencesSet

  /** `String.prototype.toLowerCase` on ASCII letters. */
  function ToLower(s: string): (r: string)
    ensures |r| == |s|
    ensures forall i :: 0 <= i < |s| ==> r[i] == (if 'A' <= s[i] <= 'Z' then (s[i] as int + 32) as char else s[i])
  {
    if |s| == 0 then [] else
      var c := s[0];
      [if 'A' <= c <= 'Z' then (c as int + 32) as char else c] + ToLower(s[1..])
  }

  /** The `filter` callback of the video codecs. */
  predicate IsPreferredH264(codec: CodecCapability) {
    MatchesPreferred(codec.mimeType, FmtpParams(codec.sdpFmtpLine))
  }

  /** The test inside the callback, on the mime type and the parsed fmtp map. */
  predicate MatchesPreferred(mimeType: string, params: Params) {
    && ToLower(mimeType) == "video/h264"
    && "profile-level-id" in params && params["profile-level-id"] == Some("4d001f")
    && "packetization-mode" in params && params["packetization-mode"] == Some("1")
  }

  /** `xs` is an order-preserving subsequence of `ys`. */
  predicate IsSubsequence<T(==)>(xs: seq<T>, ys: seq<T>) {
    if |xs| == 0 then true
    else if |ys| == 0 then false
    else if xs[0] == ys[0] then IsSubsequence(xs[1..], ys[1..])
    else IsSubsequence(xs, ys[1..])
  }

  /** `Array.prototype.filter`. */
  function Filter<T>(ys: seq<T>, keep: T -> bool): (xs: seq<T>)
    ensures |xs| <= |ys|
  {
    if |ys| == 0 then []
    else if keep(ys[0]) then [ys[0]] + Filter(ys[1..], keep)
    else Filter(ys[1..], keep)
  }

  /** The kept elements keep their order, and an element is kept iff it is
      in the input and the callback accepts it. */
  lemma {:induction false} FilterSpec<T>(ys: seq<T>, keep: T -> bool)
    ensures IsSubsequence(Filter(ys, keep), ys)
    ensures forall x :: x in Filter(ys, keep) <==> x in ys && keep(x)
  {
    if |ys| > 0 {
      FilterSpec(ys[1..], keep);
      var xs := Filter(ys, keep);
      if keep(ys[0]) {
        assert xs[1..] == Filter(ys[1..], keep);
      }
      forall x ensures x in ys <==> x == ys[0] || x in ys[1..] {
        assert ys == [ys[0]] + ys[1..];
      }
    }
  }

  /** The kept list of the source: the H.264 4d001f / mode 1 capabilities. */
  function H264Filtered(codecs: seq<CodecCapability>): seq<CodecCapability> {
    Filter(codecs, IsPreferredH264)
  }

  /** The audio `filter` callback only logs and returns `undefined`, which is
      falsy: nothing is kept. */
  function OpusFiltered(codecs: seq<CodecCapability>): seq<CodecCapability> {
    Filter(codecs, LogsOnly)
  }

  /** The audio callback: its value is `undefined`. */
  predicate LogsOnly(codec: CodecCapability) {
    false
  }

  lemma {:induction false} OpusFilteredIsEmpty(codecs: seq<CodecCapability>)
    ensures OpusFiltered(codecs) == []
  {
    if |codecs| > 0 {
      OpusFilteredIsEmpty(codecs[1..]);
    }
  }

  /** A codec is kept iff its lowercased mime type is video/h264, its
      profile-level-id is 4d001f and its packetization-mode is 1. */
  lemma H264FilteredMembership(codecs: seq<CodecCapability>, c: CodecCapability)
    ensures IsSubsequence(H264Filtered(codecs), codecs)
    ensures c in H264Filtered(codecs) <==>
      c in codecs && ToLower(c.mimeType) == "video/h264"
      && FmtpParams(c.sdpFmtpLine).Keys >= {"profile-level-id", "packetization-mode"}
      && FmtpParams(c.sdpFmtpLine)["profile-level-id"] == Some("4d001f")
      && FmtpParams(c.sdpFmtpLine)["packetization-mode"] == Some("1")
  {
    FilterSpec(codecs, IsPreferredH264);
  }

  /** The browser's peer connection, reduced to its list of transceivers. */
  class PeerConnection {
    var transceivers: seq<Transceiver>

    constructor ()
      ensures transceivers == []
    {
      transceivers := [];
    }

    /** `addTransceiver(kind, { direction })`: returns the new transceiver's index. */
    method AddTransceiver(kind: Kind, direction: Direction) returns (index: nat)
      modifies this
      ensures transceivers == old(transceivers) + [Transceiver(kind, direction, None)]
      ensures index == |old(transceivers)|
    {
      index := |transceivers|;
      transceivers := transceivers + [Transceiver(kind, direction, None)];
    }

    /** `transceiver.setCodecPreferences(codecs)`. */
    method SetCodecPreferences(index: nat, codecs: seq<CodecCapability>)
      requires index < |transceivers|
      modifies this
      ensures transceivers == old(transceivers)[index := old(transceivers)[index].(preferences := Some(codecs))]
    {
      transceivers := transceivers[index := transceivers[index].(preferences := Some(codecs))];
    }
  }

  /** createReceiverPeerConnection with the capability list the browser
      reports. Both transceivers are receive-only; only the video one gets
      preferences, exactly the filtered list, and only when it is non-empty. */
  method CreateReceiverPeerConnection(codecs: seq<CodecCapability>) returns (pc: PeerConnection, outcome: Outcome)
    ensures fresh(pc)
    ensures outcome == (if H264Filtered(codecs) == [] then NoSuitableCodec else PreferencesSet)
    ensures pc.transceivers == [
      Transceiver(Video, RecvOnly, if outcome == NoSuitableCodec then None else Some(H264Filtered(codecs))),
      Transceiver(Audio, RecvOnly, None)]
  {
    pc := new PeerConnection();
    var videoTx := pc.AddTransceiver(Video, RecvOnly);
    var audioTx := pc.AddTransceiver(Audio, RecvOnly);
    var h264FilteredCodec := FilterPreferredH264(codecs);
    if |h264FilteredCodec| == 0 {
      outcome := NoSuitableCodec;
      return;
    }
    pc.SetCodecPreferences(videoTx, h264FilteredCodec);
    outcome := PreferencesSet;
  }

  /** The `codecs.filter(...)` call, one `parseSdpFmtpLine` per capability. */
  method FilterPreferredH264(codecs: seq<CodecCapability>) returns (kept: seq<CodecCapability>)
    ensures kept == H264Filtered(codecs)
  {
    kept := [];
    var i := 0;
    while i < |codecs|
      invariant 0 <= i <= |codecs|
      invariant kept == Filter(codecs[..i], IsPreferredH264)
    {
      var codec := codecs[i];
      var keep := KeepsCodec(codec);
      FilterPrefix(codecs, i, IsPreferredH264);
      kept := kept + (if keep then [codec] else []);
      i := i + 1;
    }
    assert codecs[..|codecs|] == codecs;
  }

  /** The `filter` callback: parses the capability's fmtp line and tests it. */
  method KeepsCodec(codec: CodecCapability) returns (keep: bool)
    ensures keep == IsPreferredH264(codec)
  {
    var sdpFmtpLines := ParseSdpFmtpLine(codec.sdpFmtpLine);
    keep := MatchesPreferred(codec.mimeType, sdpFmtpLines);
  }

  /** Filtering one more element of `ys`. */
  lemma FilterPrefix<T(!new)>(ys: seq<T>, i: nat, keep: T -> bool)
    requires i < |ys|
    ensures Filter(ys[..i + 1], keep) == Filter(ys[..i], keep) + (if keep(ys[i]) then [ys[i]] else [])
  {
    assert ys[..i + 1] == ys[..i] + [ys[i]];
    FilterSnoc(ys[..i], ys[i], keep);
  }

  lemma {:induction false} FilterSnoc<T(!new)>(ys: seq<T>, y: T, keep: T -> bool)
    ensures Filter(ys + [y], keep) == Filter(ys, keep) + (if keep(y) then [y] else [])
  {
    if |ys| == 0 {
      assert ys + [y] == [y];
    } else {
      assert (ys + [y])[1..] == ys[1..] + [y];
      FilterSnoc(ys[1..], y, keep);
    }
  }
}
