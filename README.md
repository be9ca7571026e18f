# mediaserver-go core, modelled in Dafny

mediaserver-go is a media server. It takes in live streams over WHIP (WebRTC), RTP, RTMP and files, and it distributes them through media hubs. It sends them out over WHEP (WebRTC), HLS and LL-HLS, and it can record them to files. This project models the byte-level media plumbing and the small sequential state machines of that server, and proves properties about them. Everything else in the server is glue around the WebRTC library, FFmpeg, goroutines and HTTP, and is not modelled.

What is modelled, by module:

- `Fmtp` and `ReceiverPeerConnection`: the browser client's parsing of an SDP `a=fmtp` line into a parameter map, and its receiver peer connection. The receiver keeps only the H.264 codecs with `profile-level-id=4d001f` and `packetization-mode=1`.
- `H264Config` and `AvcRecord`: the H.264 AVCDecoderConfigurationRecord (section 5.3.3.1 of ISO/IEC 14496-15), written and read back.
- `Mp4Format`: the MP4 extra data, the SPS/PPS reader and the AVCC length-prefixed access-unit splitter with its NAL-type filter (Table 7-1 of ITU-T H.264).
- `H264BitStream`: the AVC bitstream filter and the removal of emulation prevention bytes (section 7.4.1 of ITU-T H.264).
- `AnnexB`: the Annex B start-code splitter (Annex B of ITU-T H.264).
- `H264Rtp` and `H264Params`: RTP depacketisation of single NAL unit, STAP-A and FU-A packets (sections 5.6, 5.7.1 and 5.8 of RFC 6184), with the SPS/PPS latch, and the SPS/PPS extraction.
- `Aac`: the AudioSpecificConfig fields (section 1.6.2.1 of ISO/IEC 14496-3).
- `Leb128`, `Av1Rtp`, `Av1Bsf` and `Av1Config`:
  - the leb128 integers of section 4.10.5 of the AV1 bitstream specification;
  - the AV1 RTP aggregation header (section 4.4 of the AV1 RTP payload format);
  - the OBU splitter (section 5.3 of the AV1 bitstream specification);
  - the `av1C` record (section 2.3.3 of the AV1 ISO media file format binding).
- `Writer`: the frame-assembly gate of the recording writer. It drops output until a key frame, adds the AV1 size field and emits a frame on the marker bit. It also makes time stamps relative to the first one.
- `MemoryBuffer`: the in-memory `io.ReadWriteSeeker`.
- `Ntp`: NTP timestamps (section 6 of RFC 5905).
- `RtpStats`: the receiver statistics. These are sequence-number cycles and the expected and lost counts of appendix A.1 and A.3 of RFC 3550, plus the delay since the last sender report.
- `Abs`, `PlayoutDelay` and `Rtx`: the WHEP sender's state machines:
  - adaptive spatial and temporal layer selection;
  - the playout-delay header extension;
  - retransmission packets (section 4 of RFC 4588).
- `HlsWindow`: the HLS and LL-HLS playlists. Each keeps a sliding window of three segments, and the handler keeps the stored segment files.
- `Capabilities`, `Types`, `Codecs` and `Containers`:
  - the codec capability tables registered with the WebRTC engine;
  - the media and codec type mappings;
  - the recording file extension;
  - the choice of output container.

Go runtime panics (an index or slice out of range, closing a closed channel) are an explicit outcome (`Exit.Panic` in `Base`). They are not excluded by preconditions. The library decoders (the mediacommon SPS and sequence-header parsers, the codec callback of the AV1 depacketiser, the writer's bitstream filter) are function parameters. Clock readings are integer parameters.

Where the code does something other than what its authors evidently meant, the model has both the code as written and a corrected version (see "## Findings"). The state-changing methods use the corrected one.

## Model

| member | source | states |
|---|---|---|
| Fmtp.SplitJoin | webclients/scripts/webrtc/sdp.js:9-10 | the pieces of `split` never contain the separator and glue back to the original text |
| Fmtp.SplitNoSeparator | webclients/scripts/webrtc/sdp.js:10 | text without the separator splits into itself alone |
| Fmtp.SplitAtFirst | webclients/scripts/webrtc/sdp.js:10 | the first piece ends at the first separator and the rest is the split of what follows |
| Fmtp.TrimStart | webclients/scripts/webrtc/sdp.js:10 | the result is a suffix of the input that does not start with white space |
| Fmtp.TrimEnd | webclients/scripts/webrtc/sdp.js:10 | the result is a prefix of the input that does not end with white space |
| Fmtp.ParseSdpFmtpLine | webclients/scripts/webrtc/sdp.js:2-15 | the map the `forEach` loop fills is the tokens stored in order, skipping the key `__proto__`, which an assignment on an object literal does not make an own property; an undefined line gives the empty map |
| Fmtp.StoreSkippingProto | webclients/scripts/webrtc/sdp.js:11 | one assignment of the loop: a `__proto__` token leaves the own properties as they were, any other token sets its key to its value |
| Fmtp.ParamsKeys | webclients/scripts/webrtc/sdp.js:9-11 | a key is in the map iff it is not `__proto__` and some token has it as its key |
| Fmtp.ParamsLastWins | webclients/scripts/webrtc/sdp.js:11 | on a duplicate key other than `__proto__` the value of the last token with that key is kept |
| Fmtp.TokenWithoutEquals | webclients/scripts/webrtc/sdp.js:10-11 | a token without `=` records its whole trimmed text as key, with value undefined |
| Fmtp.TokenValueBetweenEquals | webclients/scripts/webrtc/sdp.js:10 | for `a=b=c` the key is `a` and the value only `b`, kept as text |
| Fmtp.TokenKeyValue | webclients/scripts/webrtc/sdp.js:10 | for `a=b` the key is `a` and the value `b` |
| Fmtp.FmtpParams | webclients/scripts/webrtc/sdp.js:2-15 | definition of the parsed map; characterised by Fmtp.ParseSdpFmtpLine and Fmtp.ParamsKeys |
| Fmtp.Split | webclients/scripts/webrtc/sdp.js:9-10 | each piece is free of the separator; characterised by Fmtp.SplitJoin |
| Fmtp.Trim | webclients/scripts/webrtc/sdp.js:10 | definition of `trim`; characterised by Fmtp.TrimStart and Fmtp.TrimEnd |
| Fmtp.KeyOf | webclients/scripts/webrtc/sdp.js:10 | definition of a token's key; characterised by Fmtp.TokenWithoutEquals and Fmtp.TokenKeyValue |
| Fmtp.ValueOf | webclients/scripts/webrtc/sdp.js:10 | definition of a token's value; characterised by Fmtp.TokenWithoutEquals and Fmtp.TokenValueBetweenEquals |
| ReceiverPeerConnection.ToLower | webclients/scripts/webrtc/peerconnection.js:20 | each ASCII capital becomes its small letter and every other character stays |
| ReceiverPeerConnection.FilterSpec | webclients/scripts/webrtc/peerconnection.js:18 | `filter` keeps an order-preserving subsequence, exactly the elements the callback accepts |
| ReceiverPeerConnection.OpusFilteredIsEmpty | webclients/scripts/webrtc/peerconnection.js:28-30 | the audio callback returns nothing, so its filtered list is always empty |
| ReceiverPeerConnection.H264FilteredMembership | webclients/scripts/webrtc/peerconnection.js:18-22 | a codec is kept iff its lowercased mime type is video/h264 with profile-level-id 4d001f and packetization-mode 1; the kept list is a subsequence |
| ReceiverPeerConnection.PeerConnection.constructor | webclients/scripts/webrtc/peerconnection.js:4-6 | a new peer connection has no transceivers |
| ReceiverPeerConnection.PeerConnection.AddTransceiver | webclients/scripts/webrtc/peerconnection.js:13-14 | appends one transceiver of the kind and direction, without preferences, and returns its index |
| ReceiverPeerConnection.PeerConnection.SetCodecPreferences | webclients/scripts/webrtc/peerconnection.js:31 | sets that one transceiver's preferences and changes no other |
| ReceiverPeerConnection.CreateReceiverPeerConnection | webclients/scripts/webrtc/peerconnection.js:2-32 | two recvonly transceivers, video then audio; only video gets preferences, exactly the filtered list, and an empty list ends with the error before any preference is set |
| ReceiverPeerConnection.FilterPreferredH264 | webclients/scripts/webrtc/peerconnection.js:18-22 | the loop keeps exactly the filtered list |
| ReceiverPeerConnection.KeepsCodec | webclients/scripts/webrtc/peerconnection.js:18-22 | the callback parses the fmtp line and accepts exactly the preferred H.264 codecs |
| H264Config.AfterInit | codecs/h264/config.go:41-60 | success iff SPS of at least 4 bytes, non-empty PPS and an SPS the decoder accepts; then profile, compatibility and level are SPS bytes 1-3; an empty SPS or PPS is errInvalidSize; an error changes nothing |
| H264Config.Marshal | codecs/h264/config.go:133-152 | errNeedSPSPPS iff the SPS or PPS is empty; otherwise the record is len(sps)+len(pps)+11 bytes |
| H264Config.UnmarshalErrorsKeepFields | codecs/h264/config.go:66-83 | short data, a bad version byte and an overlong SPS length are reported, and a zero SPS count returns nil; none changes the configuration |
| H264Config.UnmarshalRecord | codecs/h264/config.go:66-110 | reading a written record is `init` with the same SPS and PPS |
| H264Config.MarshalUnmarshal | codecs/h264/config.go:66-110 | a configuration set by `init` survives marshalling and unmarshalling |
| H264Config.Config.constructor | codecs/h264/config.go:24-34 | the zero configuration |
| H264Config.Config.Init | codecs/h264/config.go:41-60 | the new state and the error are those of AfterInit |
| H264Config.Config.UnmarshalFromSpsPps | codecs/h264/config.go:62-64 | the same as `init` |
| H264Config.Config.UnmarshalFromExtraData | codecs/h264/config.go:66-110 | the new state and the error are those of the record read followed by `init` |
| H264Config.Config.MarshalToExtraData | codecs/h264/config.go:133-152 | the result is Marshal of the state |
| AvcRecord.RecordLayout | codecs/h264/config.go:137-150 | the record is len(sps)+len(pps)+11 bytes: version 1, SPS bytes 1-3, `FF E1`, the 16-bit SPS length, the SPS, `01`, the 16-bit PPS length, the PPS |
| AvcRecord.Parse | codecs/h264/config.go:66-107 | the SPS and PPS it finds are slices of the data at the offsets the record format gives them |
| AvcRecord.ParseRecord | codecs/h264/config.go:66-110 | reading a written record gives back its SPS and PPS when both lengths fit 16 bits |
| AvcRecord.LongSpsDoesNotRoundTrip | codecs/h264/config.go:144-145 | a 65536-byte SPS has its length truncated and does not read back |
| AvcRecord.WriteRecord | codecs/h264/config.go:137-150 | the buffer filled by index is exactly the record |
| AvcRecord.WriteSpsHeader | codecs/h264/config.go:138-145 | writes bytes 0-7 and leaves the rest |
| AvcRecord.WritePpsHeader | codecs/h264/config.go:147-149 | writes the PPS count and length and leaves the rest |
| AvcRecord.RecordAt | codecs/h264/config.go:137-150 | the record byte by byte |
| AvcRecord.CopyInto | codecs/h264/config.go:146 | `copy` writes the source bytes at the offset and leaves the rest |
| AvcRecord.ReadRecord | codecs/h264/config.go:66-107 | the reader advancing `offset` computes Parse |
| Mp4Format.ExtraDataForAvc | parser/format/mp4.go:30-49 | nil iff the SPS or PPS is empty; otherwise len(sps)+len(pps)+11 bytes whose length fields hold both sizes big-endian; an SPS of 1-3 bytes panics |
| Mp4Format.ExtraDataForAvcBytes | parser/format/mp4.go:30-49 | the buffer filled by index is ExtraDataForAvc |
| Mp4Format.AfterUnmarshal | parser/format/mp4.go:65-115 | a short body and a bad version are errors; the fields change only on success, and then hold body bytes 1-3 |
| Mp4Format.ExtraData.constructor | parser/format/mp4.go:57-63 | the zero value |
| Mp4Format.ExtraData.Unmarshal | parser/format/mp4.go:65-115 | the new fields and the error are those of AfterUnmarshal |
| Mp4Format.UnmarshalExtraDataForAvc | parser/format/mp4.go:30-115 | the extra data of a pair reads back into that pair and its profile bytes |
| Mp4Format.SpsPpsFromAvcc | parser/format/mp4.go:117-129 | (nil, nil) for data under 11 bytes or a version other than 1; otherwise the SPS is the slice after the first length |
| Mp4Format.SpsPpsAgreesWithParse | parser/format/mp4.go:117-129 | whenever the strict reader finds both units, this one finds the same two |
| Mp4Format.SpsPpsFromExtraDataForAvc | parser/format/mp4.go:117-129 | reading a written record gives back its SPS and PPS |
| Mp4Format.AvccUnitsKept | parser/format/mp4.go:140-167 | every unit returned is non-empty and not SEI, filler data or access unit delimiter |
| Mp4Format.GetAuFromAvc | parser/format/mp4.go:140-167 | the loop over a 32-bit offset computes AuFromAvc, panics included |
| Mp4Format.AvccStep | parser/format/mp4.go:151-164 | one turn of the loop: the unit at the offset, then the units after it |
| Mp4Format.AvccRoundTrip | parser/format/mp4.go:140-167 | splitting length-prefixed non-empty units gives them back in order, dropped types removed |
| Mp4Format.GetAuFromAvcRoundTrip | parser/format/mp4.go:140-167 | the same for `GetAUFromAVC` on at least one unit |
| Mp4Format.AvccUnits | parser/format/mp4.go:151-164 | definition of the loop over length-prefixed units; characterised by Mp4Format.AvccUnitsKept and Mp4Format.AvccRoundTrip |
| Mp4Format.AuFromAvc | parser/format/mp4.go:140-167 | definition of `GetAUFromAVC`; characterised by Mp4Format.GetAuFromAvc and Mp4Format.GetAuFromAvcRoundTrip |
| H264Rtp.StapAggregate | codecs/h264/rtpparser.go:122-139 | reading an aggregation of units with 16-bit sizes gives back the units |
| H264Rtp.StapCovers | codecs/h264/rtpparser.go:122-139 | units read without error are consecutive size-prefixed slices that cover the rest of the payload |
| H264Rtp.FuA | codecs/h264/rtpparser.go:142-168 | a filler or one-byte FU changes nothing; a start rebuilds the NAL header from the F/NRI bits and the FU type and starts over; a middle packet appends only to a started unit; a unit is handed out iff the end bit is set and fragments exist |
| H264Rtp.MiddleThenEndFeeds | codecs/h264/rtpparser.go:156-167 | middle packets and an end packet after a started unit hand out the whole unit once, at the end |
| H264Rtp.FuRoundTrip | codecs/h264/rtpparser.go:142-168 | the FU-A packets of a NAL unit hand out exactly that unit, whatever fragments were pending |
| H264Rtp.Depacketize | codecs/h264/rtpparser.go:107-173 | an empty payload gives nil; types 1-23 are returned whole; an overrunning STAP-A size gives nil; FU-A is FuA; it panics iff the type is 0, 25-27 or 29-31 or a STAP-A size is cut short |
| H264Rtp.StapRoundTrip | codecs/h264/rtpparser.go:122-139 | a STAP-A packet of units that fit 16-bit sizes gives back the units |
| H264Rtp.LatchUnit | codecs/h264/rtpparser.go:33-50 | an SPS becomes pending and clears the pending PPS; a PPS becomes pending; an IDR sets the flag; SEI, AUD, filler, SPS and PPS are not passed on; an empty unit panics |
| H264Rtp.LatchedStep | codecs/h264/rtpparser.go:33-50 | one more non-empty unit keeps LatchedFrom: the passed-on units grow by that unit exactly when it is forwarded |
| H264Rtp.LatchSpec | codecs/h264/rtpparser.go:33-50 | the loop panics iff some unit is empty; otherwise the units passed on are exactly ForwardedUnits of its input, in order and with repeats, and the flag is 1 iff one of them is an IDR |
| H264Rtp.ParseStep | codecs/h264/rtpparser.go:30-70 | nothing is returned until both an SPS and a PPS are pending; then they become the stored pair and the units and flag returned are those of Latch over the depacketised units, whose pending SPS and PPS the state keeps; the callback gets a configuration iff the pair changed and `init` accepts it |
| H264Rtp.SpsAloneWaits | codecs/h264/rtpparser.go:38-41 | an SPS alone clears the pending PPS, so nothing is returned |
| H264Rtp.ReadStapA | codecs/h264/rtpparser.go:123-139 | the loop over `currOffset` computes the STAP-A units |
| H264Rtp.RtpParser.constructor | codecs/h264/rtpparser.go:24-28 | all fields empty |
| H264Rtp.RtpParser.ParsePayload | codecs/h264/rtpparser.go:107-173 | the result and the new fragments are Depacketize's; no other field changes |
| H264Rtp.RtpParser.LatchUnits | codecs/h264/rtpparser.go:31-50 | the units passed on, the IDR flag and the new pending SPS and PPS are those of Latch, and the loop panics exactly when Latch does; the fragments and the reported SPS and PPS stay |
| H264Rtp.RtpParser.Parse | codecs/h264/rtpparser.go:30-70 | the result and the new state are ParseStep's |
| H264Rtp.StapFrom | codecs/h264/rtpparser.go:123-139 | definition of the STAP-A loop from an offset; characterised by H264Rtp.StapAggregate and H264Rtp.StapCovers |
| H264Rtp.Reassemble | codecs/h264/rtpparser.go:142-168 | definition of feeding FU-A packets in turn; characterised by H264Rtp.MiddleThenEndFeeds |
| H264Rtp.Latch | codecs/h264/rtpparser.go:33-50 | definition of the loop over the units; characterised by H264Rtp.LatchSpec |
| H264Rtp.ForwardedUnits | codecs/h264/rtpparser.go:33-50 | reference definition: the units that are passed on, in order; characterised by H264Rtp.ForwardedMembers and H264Rtp.LatchSpec |
| H264Rtp.ForwardedMembers | codecs/h264/rtpparser.go:33-50 | a unit is among the forwarded ones iff it is one of the units and is not empty, SEI, delimiter, filler, SPS or PPS |
| H264Rtp.ParseForwards | codecs/h264/rtpparser.go:30-70 | once both an SPS and a PPS are pending, exactly the forwarded units of the packet are returned, in order and with repeats, and the flag is 1 iff one of them is an IDR |
| H264Params.ExtractParams | parser/codecparser/h264.go:6-60 | an empty payload gives (nil, nil); an SPS unit gives (payload, nil); a PPS unit (nil, payload); any type other than SPS, PPS and STAP-A gives (nil, nil) |
| H264Params.H264ExtractParams | parser/codecparser/h264.go:6-60 | the loop that reslices the payload computes ExtractParams |
| H264Params.LastOfType | parser/codecparser/h264.go:44-52 | a non-empty result is one of the units and has the type asked for |
| H264Params.StapParamsAggregate | parser/codecparser/h264.go:20-55 | scanning an aggregation keeps its last SPS and last PPS, or what was found before when there is none |
| H264Params.ExtractFromStapA | parser/codecparser/h264.go:20-55 | for a STAP-A packet of non-empty units the last SPS and the last PPS win, nil when there is none |
| H264Params.ZeroSizeStops | parser/codecparser/h264.go:33-35 | a size of 0 stops the scan and what follows is not looked at |
| H264Params.OversizeIsNil | parser/codecparser/h264.go:37-39 | a size larger than what is left gives (nil, nil), discarding what was found before |
| H264Params.OversizeAfter | parser/codecparser/h264.go:37-39 | the same, after any number of well-formed units |
| H264Params.LastOfTypeIsLast | parser/codecparser/h264.go:44-52 | the result is empty iff no unit has the type; otherwise it is a unit of that type after which no unit has it |
| H264BitStream.AddFilter | codecs/h264/bsf.go:12-17 | 4+n bytes: the length truncated to 32 bits, big-endian, then the payload |
| H264BitStream.Filter | codecs/h264/bsf.go:19-46 | the same split as `GetAUFromAVC`, panics included |
| H264BitStream.FilterAddFilter | codecs/h264/bsf.go:12-46 | `Filter(AddFilter(x))` is `[x]` for a non-empty unit of a kept type, and empty for SEI, filler data and AUD |
| H264BitStream.FilterEmpty | codecs/h264/bsf.go:20-22 | an empty payload gives nil |
| H264BitStream.RemoveEmulationPreventionBytesAsWritten | codecs/h264/bsf.go:79-95 | the loop as written computes RemoveEpbAsWritten, with its slice bound `idx-copyIdx` |
| H264BitStream.UnescapeEscape | codecs/h264/bsf.go:79-95 | removing emulation prevention bytes inverts inserting them (ITU-T H.264 section 7.4.1) |
| H264BitStream.RemoveEmulationPreventionBytes | codecs/h264/bsf.go:79-95 | the corrected loop computes Unescape: every `00 00 03` loses its `03` |
| H264BitStream.UnescapeLoopStep | codecs/h264/bsf.go:83-92 | one turn of the corrected loop keeps its invariant |
| H264BitStream.UnescapeLoopEnd | codecs/h264/bsf.go:93 | copying the last bytes completes the output |
| H264BitStream.NoEpbUnchanged | codecs/h264/bsf.go:83-94 | without `00 00 03` both loops copy the rest unchanged |
| H264BitStream.NoEpbIsIdentity | codecs/h264/bsf.go:79-95 | data without `00 00 03` is returned unchanged, as written and corrected |
| H264BitStream.RemoveEpbAsWrittenPanics | codecs/h264/bsf.go:85 | the escaped form of `00 00 00 00 01` makes the loop as written panic, and the corrected one recovers it |
| H264BitStream.RemoveEpbAsWrittenLosesBytes | codecs/h264/bsf.go:85 | the loop as written drops the bytes between two emulation prevention bytes |
| H264BitStream.RemoveEpbAsWrittenFrom | codecs/h264/bsf.go:79-95 | definition of the loop as written, from a given index; characterised by H264BitStream.RemoveEmulationPreventionBytesAsWritten |
| H264BitStream.RemoveEpbAsWritten | codecs/h264/bsf.go:79-95 | definition of the removal as written; characterised by H264BitStream.RemoveEpbAsWrittenPanics, H264BitStream.RemoveEpbAsWrittenLosesBytes and H264BitStream.NoEpbIsIdentity |
| H264BitStream.Unescape | codecs/h264/bsf.go:79-95 | corrected definition of the removal; characterised by H264BitStream.UnescapeEscape and H264BitStream.NoEpbIsIdentity |
| H264BitStream.Escape | codecs/h264/bsf.go:79-95 | reference definition of the insertion that the removal undoes (section 7.4.1 of ITU-T H.264); characterised by H264BitStream.UnescapeEscape |
| AnnexB.RemoveAnnexB | codecs/h264/format.go:3-42 | the loop as written computes SplitAnnexB, its out-of-range reads as panics |
| AnnexB.ScanAfterFirst | codecs/h264/format.go:16-40 | after a start code the pieces still to come concatenate to the rest of the data, each but the last ending with a start code |
| AnnexB.ScanFound | codecs/h264/format.go:16-22 | appending the piece up to a found start code keeps that shape |
| AnnexB.ScanBeforeFirst | codecs/h264/format.go:7-37 | before any start code, a non-empty result follows some start code in the data |
| AnnexB.RemoveAnnexBPieces | codecs/h264/format.go:3-42 | a non-empty result concatenates to the data after a start code, each piece but the last ending with the next start code and the last running to the end |
| AnnexB.NoStartCodeNoPieces | codecs/h264/format.go:38-41 | without a start code the result is empty |
| AnnexB.BothStartCodes | codecs/h264/format.go:16-35 | both `00 00 01` and `00 00 00 01` are recognised, and a piece includes the start code that ends it |
| AnnexB.TrailingZeroPanics | codecs/h264/format.go:12 | a unit followed by one trailing zero byte makes the loop read past the end |
| AnnexB.ExtraZerosHideStartCode | codecs/h264/format.go:36 | after `00 00 00 00` the loop jumps over a start code that begins at the second zero |
| AnnexB.FixedMove | codecs/h264/format.go:8-36 | the corrected step: it finds a start code exactly where one begins, and skips only positions that hold none |
| AnnexB.FirstStartCode | codecs/h264/format.go:7-37 | the first position at or after `from` where a start code begins |
| AnnexB.FixedAfterFirst | codecs/h264/format.go:16-40 | the corrected scan after a start code, with none skipped so far, gives the same shape with no start code missed, and never panics |
| AnnexB.FixedFound | codecs/h264/format.go:16-22 | the corrected scan keeps that shape, with no start code missed, when it appends a piece |
| AnnexB.FixedBeforeFirst | codecs/h264/format.go:7-37 | the corrected scan stops at the first start code of the data |
| AnnexB.FixedFirstFound | codecs/h264/format.go:16-22 | after the first start code the corrected result has the pieces shape and misses no start code |
| AnnexB.FixedSplitAnnexBPieces | codecs/h264/format.go:3-42 | corrected: empty iff the data holds no start code; otherwise pieces that concatenate to the data after the first start code, each but the last ending with the next one, no start code beginning inside a piece before the one that ends it, and none in the last piece |
| AnnexB.ScanFrom | codecs/h264/format.go:7-41 | definition of the loop as written, from a given index; characterised by AnnexB.ScanAfterFirst and AnnexB.ScanBeforeFirst |
| AnnexB.SplitAnnexB | codecs/h264/format.go:3-42 | definition of `RemoveAnnexB` as written; characterised by AnnexB.RemoveAnnexBPieces and AnnexB.BothStartCodes |
| AnnexB.FixedFrom | codecs/h264/format.go:7-41 | corrected definition of the loop, from a given index; characterised by AnnexB.FixedAfterFirst and AnnexB.FixedBeforeFirst |
| AnnexB.FixedSplitAnnexB | codecs/h264/format.go:3-42 | corrected definition of `RemoveAnnexB`; characterised by AnnexB.FixedSplitAnnexBPieces |
| Aac.ParseAudioSpecificConfig | parsers/format/aac.go:27-53 | fewer than 2 bytes is an error; success iff the top five bits of byte 0 are below 4 and the sampling index (byte 0 bits 2-0, byte 1 bit 7) below 13; then the fields are the table entries and `(data[1] & 0x78) >> 3`; an error leaves the fields unchanged |
| Aac.ParseAscBytes | parsers/format/aac.go:33-51 | the fields packed where ISO/IEC 14496-3 puts them are read back |
| Aac.ParseAscRejects | parsers/format/aac.go:33-43 | a profile index of 4 or more, or a sampling index of 13 or more, is reported with that index |
| Leb128.Leb128 | codecs/av1/rtpparser.go:62 | a decoded value reads between 1 and 8 bytes, all inside the data |
| Leb128.LebFrom | codecs/av1/rtpparser.go:62 | the groups from byte `i` end inside the data and within 8 bytes |
| Leb128.LebBytes | hubs/writers/writer.go:101 | the encoding has at least one byte |
| Leb128.LebBytesLength | hubs/writers/writer.go:101 | a value below 128^k takes at most k bytes |
| Leb128.LebRoundTrip | codecs/av1/rtpparser.go:62 | an encoded value below 2^56 decodes to itself, reading exactly its own bytes, whatever follows |
| Leb128.LebUnterminated | codecs/av1/rtpparser.go:62-66 | data that ends while every byte has its top bit set does not decode |
| Leb128.LebFromBytes | codecs/av1/rtpparser.go:62 | the encoding of a value below 128^(8-i), read from byte i, decodes to that value after exactly its own bytes |
| Av1Rtp.NextElement | codecs/av1/rtpparser.go:58-72 | a found element lies after the offset and inside the payload |
| Av1Rtp.ElementsStop | codecs/av1/rtpparser.go:61-72 | a leb128 error ends the loop keeping the fragments so far; a length past the end panics |
| Av1Rtp.ElementsJoin | codecs/av1/rtpparser.go:73-74 | the first element with Z = 1 is appended to the last fragment, and panics when there is none |
| Av1Rtp.ElementsStep | codecs/av1/rtpparser.go:75-86 | any other element is appended as a new fragment, and the callback gets the first one when N = 1 and it decodes |
| Av1Rtp.NextPrefixed | codecs/av1/rtpparser.go:61-67 | an element behind its leb128 length is read back with what follows it |
| Av1Rtp.NextRaw | codecs/av1/rtpparser.go:68-70 | the W-th element runs to the end of the payload |
| Av1Rtp.Av1Parse | codecs/av1/rtpparser.go:39-96 | an empty payload panics; Y = 1 returns nothing; otherwise the result is nothing or exactly the new fragments |
| Av1Rtp.NewObuDiscardsFragments | codecs/av1/rtpparser.go:47-49 | Z = 0 discards the pending fragments |
| Av1Rtp.ElementsBody | codecs/av1/rtpparser.go:54-90 | the elements after the first are appended one each |
| Av1Rtp.PacketElements | codecs/av1/rtpparser.go:54-90 | the loop over a whole body collects exactly its elements |
| Av1Rtp.PacketRoundTrip | codecs/av1/rtpparser.go:39-96 | a packet with Z = 0 and Y = 0 returns exactly its elements, with leb128 lengths or with the W-th running to the end |
| Av1Rtp.ContinuationJoins | codecs/av1/rtpparser.go:73-74 | a single-element continuation joins it to the last pending fragment |
| Av1Rtp.FragmentedObu | codecs/av1/rtpparser.go:73-95 | an OBU split over two packets (Y = 1, then Z = 1) comes out whole after the second |
| Av1Rtp.ContinuationWithoutFragmentPanics | codecs/av1/rtpparser.go:74 | a continuation with nothing pending indexes `fragments[-1]` |
| Av1Rtp.LebErrorReturnsNil | codecs/av1/rtpparser.go:62-66 | a leb128 error returns nil and keeps the fragments |
| Av1Rtp.ReadElements | codecs/av1/rtpparser.go:51-90 | the loop computes ElementsFrom |
| Av1Rtp.ReadElement | codecs/av1/rtpparser.go:58-89 | one turn of the loop: where it stops, or the state it goes on with |
| Av1Rtp.Av1RtpParser.constructor | codecs/av1/rtpparser.go:16-20 | no fragments |
| Av1Rtp.Av1RtpParser.Parse | codecs/av1/rtpparser.go:39-96 | the result, the new fragments and the callback's header are those of Av1Parse |
| Av1Rtp.ElementsFrom | codecs/av1/rtpparser.go:54-90 | definition of the element loop from an offset; characterised by Av1Rtp.ElementsStop, Av1Rtp.ElementsBody and Av1Rtp.PacketElements |
| Av1Rtp.ZBit | codecs/av1/rtpparser.go:42 | definition of Z; characterised by Av1Rtp.NewObuDiscardsFragments and Av1Rtp.ContinuationJoins |
| Av1Rtp.YBit | codecs/av1/rtpparser.go:43 | definition of Y; characterised by Av1Rtp.FragmentedObu |
| Av1Rtp.WField | codecs/av1/rtpparser.go:44 | definition of W; characterised by Av1Rtp.PacketRoundTrip |
| Av1Rtp.NBit | codecs/av1/rtpparser.go:45 | definition of N; characterised by Av1Rtp.PacketRoundTrip |
| Av1Bsf.NextObu | codecs/av1/bsf.go:15-35 | a found OBU ends after its start and inside the data; without a size field it runs to the end |
| Av1Bsf.Filter | codecs/av1/bsf.go:12-39 | an empty payload gives nil |
| Av1Bsf.ObusCover | codecs/av1/bsf.go:15-36 | the OBUs split off are non-empty and concatenate to the data from the offset on |
| Av1Bsf.FilterCovers | codecs/av1/bsf.go:12-39 | unless a size fails to decode and the result is nil, the OBUs are contiguous, header-inclusive slices covering the whole payload in order |
| Av1Bsf.ObuStep | codecs/av1/bsf.go:16-35 | a written OBU (header, extension byte if flagged, size if flagged, data) is split off exactly |
| Av1Bsf.SizedObuStep | codecs/av1/bsf.go:19-33 | the extension flag skips one byte before the leb128 size |
| Av1Bsf.UnsizedObuRunsToEnd | codecs/av1/bsf.go:25 | an OBU without a size field extends to the end of the payload |
| Av1Bsf.ObusEncoded | codecs/av1/bsf.go:15-36 | written OBUs from the offset on are split back into their own bytes |
| Av1Bsf.FilterRoundTrip | codecs/av1/bsf.go:12-39 | OBUs written one after another, each but the last with its size, come back exactly |
| Av1Bsf.OversizedObuPanics | codecs/av1/bsf.go:34 | a size larger than the data makes the slice panic |
| Av1Bsf.FilterObus | codecs/av1/bsf.go:12-39 | the loop that appends to `result` computes Filter |
| Av1Bsf.ObusFrom | codecs/av1/bsf.go:15-36 | definition of the loop from an offset; characterised by Av1Bsf.ObusCover and Av1Bsf.ObusEncoded |
| Av1Bsf.LebErrorGivesNil | codecs/av1/bsf.go:26-33 | after OBUs that carry their sizes, an OBU whose size field does not decode makes the whole result nil |
| Av1Config.ExtraData | codecs/av1/config.go:41-71 | an error while no sequence header was recorded, a panic exactly when operating point 0 has no level or no tier, otherwise four fixed bytes followed by the sequence header OBU |
| Av1Config.ParseAv1C | codecs/av1/config.go:48-69 | a record that reads back carries everything after its four fixed bytes as the configuration OBUs |
| Av1Config.PackedBits | codecs/av1/config.go:60-66 | each of the six flags and the two-bit sample position is read back from the byte it was packed into |
| Av1Config.ColorBits | codecs/av1/config.go:52-67 | the tier and colour byte holds the tier, the two bit-depth flags, monochrome, the two subsampling flags and the sample position |
| Av1Config.ExtraDataReadsBack | codecs/av1/config.go:41-71 | round trip: the record reads back as version 1 with the header's profile, level, tier and colour fields cut to their widths, followed by the OBU |
| Av1Config.Config.constructor | codecs/av1/config.go:14-16 | no sequence header and the zero header |
| Av1Config.Config.UnmarshalSequenceHeader | codecs/av1/config.go:18-31 | success exactly when the decoder accepts the data, which is then recorded with its fields; an error changes nothing |
| Av1Config.Config.MarshalToExtraData | codecs/av1/config.go:41-71 | the bytes appended one by one are ExtraData of the configuration |
| Writer.WithSizeBit | hubs/writers/writer.go:100 | setting bit 1 of the OBU header gives a header with a size field and the same type and extension flag |
| Writer.SizedObuAgrees | hubs/writers/writer.go:87-102 | without an extension byte the size field as written is where it belongs |
| Writer.SizedObuAsWrittenMisplacesSize | hubs/writers/writer.go:95-102 | an OBU with an extension byte gets its size field ahead of the extension byte, and the OBU filter then returns nothing for it |
| Writer.SizedObuSplits | hubs/writers/writer.go:86-105 | corrected: an OBU given its size field after the extension byte is split back by the OBU filter as exactly that one OBU |
| Writer.Collect | hubs/writers/writer.go:67-106 | with the corrected AV1 size placement: an empty video payload panics; otherwise the key-frame mark is set exactly by a key unit (VP8 tag bit clear, H.264 IDR, AV1 sequence header) |
| Writer.NonMarkerNeverEmits | hubs/writers/writer.go:108-110 | a unit without the marker bit emits nothing |
| Writer.StartStays | hubs/writers/writer.go:112-114 | once open the gate stays open |
| Writer.WaitsForKeyFrame | hubs/writers/writer.go:112-119 | before the first key frame nothing is emitted and a marker unit clears the buffer |
| Writer.EmitsOnMarker | hubs/writers/writer.go:108-137 | a marker unit emits exactly when the gate is open or a key frame was seen; the unit carries the buffer, the unit's time stamps and flag 1 exactly on a key frame; buffer and mark are reset |
| Writer.H264ParameterSetsDropped | hubs/writers/writer.go:75-81 | H.264 SEI, SPS and PPS units are dropped and change nothing |
| Writer.NoOutputBeforeKeyFrame | hubs/writers/writer.go:67-138 | over any run of units without a key unit, nothing is emitted and the gate stays closed |
| Writer.FirstOutputIsKey | hubs/writers/writer.go:112-137 | starting closed, the first unit emitted is flagged as a key frame |
| Writer.Writer.constructor | hubs/writers/writer.go:15-25 | no base time stamp, gate closed, empty buffer |
| Writer.Writer.BitStreamSummary | hubs/writers/writer.go:67-138 | with the corrected AV1 size placement: the result, the panic and the new gate are those of Summarize |
| Writer.Writer.Rebase | hubs/writers/writer.go:49-54 | the first unit written fixes the base time stamp and every time stamp is made relative to it |
| Writer.Writer.WriteAudioPkt | hubs/writers/writer.go:48-65 | the packet holds the rebased time stamps, the duration, the stream index, the payload and flag 0 |
| Writer.Writer.WriteVideoPkt | hubs/writers/writer.go:140-163 | the packet holds the rebased time stamps, the duration, the stream index, the unit's flag and the filtered payload |
| Writer.HeaderLength | hubs/writers/writer.go:87-97 | definition: the header byte and the extension byte when bit 2 is set; characterised by Writer.SizedObuSplits |
| Writer.SizedObuAsWritten | hubs/writers/writer.go:98-105 | definition of the size insertion as written; characterised by Writer.SizedObuAgrees and Writer.SizedObuAsWrittenMisplacesSize |
| Writer.SizedObu | hubs/writers/writer.go:98-105 | corrected definition of the size insertion, the size after the extension byte; characterised by Writer.SizedObuSplits |
| Writer.IsKey | hubs/writers/writer.go:68-94 | definition of a key unit per codec; characterised by Writer.Collect |
| Writer.Summarize | hubs/writers/writer.go:67-138 | definition of `BitStreamSummary` on a gate, with the corrected AV1 size placement; characterised by Writer.NonMarkerNeverEmits, Writer.WaitsForKeyFrame and Writer.EmitsOnMarker |
| Writer.Run | hubs/writers/writer.go:67-138 | definition of a run of units through the gate; characterised by Writer.NoOutputBeforeKeyFrame and Writer.FirstOutputIsKey |
| MemoryBuffer.Zeros | utils/buffers/memorybuffer.go:79 | a new slice of n zero bytes |
| MemoryBuffer.ExtendTo | utils/buffers/memorybuffer.go:68-82 | the data keeps its bytes and grows with zeros up to the size |
| MemoryBuffer.ReadFrom | utils/buffers/memorybuffer.go:22-30 | EOF exactly at the end; otherwise as many bytes as fit, taken from the cursor on, and the cursor moves past them |
| MemoryBuffer.WriteAt | utils/buffers/memorybuffer.go:32-41 | the data grows to hold the source at the cursor, keeps what lies before and after it, and the cursor ends after it |
| MemoryBuffer.SeekTo | utils/buffers/memorybuffer.go:43-66 | an unknown whence and a negative target are errors that change nothing; otherwise the cursor moves to the target and the data grows with zeros to reach it |
| MemoryBuffer.SeekNegative | utils/buffers/memorybuffer.go:55-58 | a negative target is refused from every base |
| MemoryBuffer.WriteSeekRead | utils/buffers/memorybuffer.go:22-66 | writing, seeking back and reading as many bytes returns what was written; seeking to the end reports the length |
| MemoryBuffer.FreshWrite | utils/buffers/memorybuffer.go:15-41 | a fresh buffer written once holds exactly the bytes written |
| MemoryBuffer.MemoryBuffer.constructor | utils/buffers/memorybuffer.go:15-20 | empty, with the cursor at 0 |
| MemoryBuffer.MemoryBuffer.Read | utils/buffers/memorybuffer.go:22-30 | copies into the destination what ReadFrom reads and leaves the rest of the destination alone |
| MemoryBuffer.MemoryBuffer.Write | utils/buffers/memorybuffer.go:32-41 | the new contents and cursor are those of WriteAt |
| MemoryBuffer.MemoryBuffer.Seek | utils/buffers/memorybuffer.go:43-66 | the new contents, cursor, position and error are those of SeekTo |
| MemoryBuffer.MemoryBuffer.ExtendToSize | utils/buffers/memorybuffer.go:68-82 | the contents grow with zeros to the size; the capacity stays when it suffices and otherwise becomes the size plus twice the growth, at most one gibibyte more |
| Ntp.AsUint64 | utils/ntp/ntp.go:24 | a non-negative duration keeps its value; a negative one wraps |
| Ntp.FractionOf | utils/ntp/ntp.go:26-30 | the fraction of a nanosecond remainder stays below 2^32 |
| Ntp.GetNtpTime | utils/ntp/ntp.go:23-32 | the upper 32 bits are the whole seconds since 1900 modulo 2^32, the lower 32 the rounded fraction of the remaining nanoseconds |
| Ntp.NanosOf | utils/ntp/ntp.go:11-15 | the nanoseconds of a fraction are at most one second |
| Ntp.Duration | utils/ntp/ntp.go:9-17 | every timestamp converts to a duration that fits a signed 64-bit count of nanoseconds |
| Ntp.FractionRoundTrip | utils/ntp/ntp.go:11-30 | the fraction of a nanosecond remainder converts back to exactly that remainder |
| Ntp.NtpRoundTrip | utils/ntp/ntp.go:9-32 | Duration undoes GetNtpTime on every instant from 1900 to the end of NTP era 0 |
| Ntp.NtpEraWraps | utils/ntp/ntp.go:31 | an instant one era (2^32 s) later has the same timestamp |
| Types.NewMediaType | utils/types/type.go:18-27 | "video" and "audio" give their media types, every other string the unknown one |
| Types.MediaTypeRoundTrip | utils/types/type.go:18-31 | every media type reads back from its string |
| Types.MediaTypeFromFFmpeg | utils/types/type.go:37-46 | FFmpeg's audio and video media types map to ours and everything else to unknown |
| Types.CodecTypeFromFFmpeg | utils/types/type.go:60-75 | the codec is unknown exactly for an identifier other than the five known ones |
| Types.CodecTypeFromFFmpegInverse | utils/types/type.go:60-75 | each known codec's FFmpeg identifier maps back to it |
| Types.LowerChar | utils/types/type.go:78 | an ASCII capital becomes its small letter and every other character stays |
| Types.UpperChar | utils/types/type.go:78 | the inverse mapping, used to state case-insensitivity |
| Types.ToLower | utils/types/type.go:78 | lowering keeps the length |
| Types.ToUpper | utils/types/type.go:78 | upper-casing keeps the length |
| Types.ToLowerIdempotent | utils/types/type.go:78 | lowering twice is lowering once |
| Types.LowerOfUpper | utils/types/type.go:78 | lowering an upper-cased string equals lowering the string |
| Types.CodecTypeFromMimeType | utils/types/type.go:77-91 | a known codec is returned only for a mime type that lowers to that codec's mime type |
| Types.MimeTypeCaseInsensitive | utils/types/type.go:77-91 | a codec is recognised exactly from the spellings that lower to its mime type |
| Types.UpperMimeType | utils/types/type.go:77-91 | each known codec is recognised from its mime type in capitals |
| Types.LowerIsIdentity | utils/types/type.go:78 | a string without ASCII capitals is its own lower case |
| Types.MediaTypeString | utils/types/type.go:12-31 | definition of the media type strings; characterised by Types.MediaTypeRoundTrip |
| Types.MimeTypeOf | utils/types/type.go:77-91 | definition of each known codec's lower-case mime type; characterised by Types.CodecTypeFromMimeType and Types.UpperMimeType |
| Types.AvCodecIdOf | utils/types/type.go:60-75 | definition of each known codec's FFmpeg identifier; characterised by Types.CodecTypeFromFFmpegInverse |
| Codecs.GetExtension | codecs/codecs.go:55-86 | with VP8 or H.264 video the extension is webm/mkv or mp4/m4v depending on audio; other video is an error; audio alone is accepted only as VP8 or H.264; neither gives "" |
| Codecs.AudioOnlyRejected | codecs/codecs.go:75-83 | an Opus or AAC recording without video gets no extension although a container can be made for it |
| Codecs.FixedGetExtension | codecs/codecs.go:55-86 | corrected: agrees with GetExtension whenever there is video, and gives "" with neither codec |
| Codecs.ExtensionMatchesContainer | codecs/codecs.go:55-86 | corrected: an extension exists exactly when a container can be made, and it belongs to that container's family |
| Codecs.VideoExtension | codecs/codecs.go:57-74 | definition of the extension with video; characterised by Codecs.GetExtension and Codecs.FixedGetExtension |
| Containers.NewContainer | hubs/containers/containers.go:17-42 | with video, VP8 gives WebM and H.264 gives MP4; audio alone, Opus gives WebM and AAC gives MP4; anything else fails, and neither gives "unsupported codec" |
| Containers.VideoDecides | hubs/containers/containers.go:19-28 | with a video codec the audio codec plays no part |
| RtpStats.OrDisjoint | ingress/sessions/rtpinbounder/stats.go:84 | or-ing a value below 2^k into a multiple of 2^k adds it |
| RtpStats.Receive | ingress/sessions/rtpinbounder/stats.go:50-63 | the first packet sets base and highest number; a packet at most half the space ahead becomes the highest and adds a cycle when it wraps; one behind changes neither; count and bytes grow modulo 2^32; the cycle stays a multiple of 2^16 |
| RtpStats.ExtMaxSeqNo | ingress/sessions/rtpinbounder/stats.go:83-85 | `cycle \| maxSeqNo` is the sum of the two and fits 32 bits |
| RtpStats.ReportCounts | ingress/sessions/rtpinbounder/stats.go:98-103 | expected is extended highest minus base plus one, lost is expected minus received, and the interval counts are differences from the previous report, all modulo 2^32 |
| RtpStats.Wire | ingress/sessions/rtpinbounder/stats.go:50 | the wire sequence numbers are the extended ones modulo 2^16 |
| RtpStats.ForwardStep | ingress/sessions/rtpinbounder/stats.go:54-58 | a packet less than half the space ahead of the tracked extended number is tracked as that number plus its distance, across a wrap if there is one |
| RtpStats.TrackStep | ingress/sessions/rtpinbounder/stats.go:50-63 | one packet of an ascending run is counted and tracked, and the base stays |
| RtpStats.TracksAscending | ingress/sessions/rtpinbounder/stats.go:44-75 | after an ascending run the state tracks its last extended number and has counted every packet |
| RtpStats.ExpectedAndLost | ingress/sessions/rtpinbounder/stats.go:50-99 | after an ascending run from a fresh state, expected is the span of the run and lost is the numbers never seen |
| RtpStats.AscendingSpan | ingress/sessions/rtpinbounder/stats.go:98-99 | an ascending run spans at least as many numbers as it has packets, so lost is never negative |
| RtpStats.DlsrOf | ingress/sessions/rtpinbounder/stats.go:111-113 | whole milliseconds, truncated and cut to 32 bits, become seconds in the upper 16 bits and thousandths as 1/65536 s in the lower |
| RtpStats.HighIsAligned | ingress/sessions/rtpinbounder/stats.go:112 | the shifted seconds leave the low 16 bits clear |
| RtpStats.DlsrUnits | ingress/sessions/rtpinbounder/stats.go:108-114 | corrected: the field is the elapsed time since the last sender report in units of 1/65536 s, for any delay under 65536 s |
| RtpStats.MillisecondUnits | ingress/sessions/rtpinbounder/stats.go:112-113 | seconds and thousandths together give the milliseconds in units of 1/65536 s |
| RtpStats.DlsrAsWrittenWrong | ingress/sessions/rtpinbounder/stats.go:111 | half a second after a report that arrived at a whole second the field as written is not 32768 |
| RtpStats.Stats.constructor | ingress/sessions/rtpinbounder/stats.go:37-42 | zero counters and the given clock rate and SSRC |
| RtpStats.Stats.CalcRTPStats | ingress/sessions/rtpinbounder/stats.go:44-63 | the sequence state becomes Receive of the old one and nothing else changes |
| RtpStats.Stats.UpdateSR | ingress/sessions/rtpinbounder/stats.go:77-81 | records the report's NTP time and its arrival time |
| RtpStats.Stats.GetReceiverReport | ingress/sessions/rtpinbounder/stats.go:93-133 | the counts are ReportCounts and become the previous ones; the last sequence number, the middle 32 bits of the NTP time, and the corrected delay since the last sender report |
| RtpStats.Forward | ingress/sessions/rtpinbounder/stats.go:54 | definition of the 16-bit `(sn-maxSeqNo)&0x8000 == 0` test; characterised by RtpStats.ForwardStep and RtpStats.Receive |
| RtpStats.TruncDiv | ingress/sessions/rtpinbounder/stats.go:111 | definition of Go's integer `/`; characterised by RtpStats.TruncDivTowardZero |
| RtpStats.TruncDivTowardZero | ingress/sessions/rtpinbounder/stats.go:111 | the quotient rounds toward zero: the remainder has the dividend's sign and is below the divisor, and negating the dividend negates the quotient |
| RtpStats.DlsrAsWritten | ingress/sessions/rtpinbounder/stats.go:108-114 | definition of the field as written, from the nanosecond within the current second; characterised by RtpStats.DlsrAsWrittenWrong |
| RtpStats.Dlsr | ingress/sessions/rtpinbounder/stats.go:108-114 | corrected definition of the field, from the Unix time; characterised by RtpStats.DlsrUnits |
| Abs.RidLayer | egress/sessions/whep/adaptivebitratestreaming.go:65-82 | "1" and "2" name layers 1 and 2 and every other rid the base layer |
| Abs.IsLayerMatch | egress/sessions/whep/adaptivebitratestreaming.go:170-186 | layer 0 matches "" and "0", layers 1 and 2 their own rid, any other layer number every rid |
| Abs.MatchIsRidLayer | egress/sessions/whep/adaptivebitratestreaming.go:170-186 | a rid matches at most one of the three layers, the one it names |
| Abs.SwitchLayer | egress/sessions/whep/adaptivebitratestreaming.go:200-208 | "1" switches to layer 1 and every other rid to layer 2 |
| Abs.SetMaxSpatial | egress/sessions/whep/adaptivebitratestreaming.go:65-82 | the spatial maximum becomes the larger of itself and the rid's layer, nothing else changes, and the invariant is kept |
| Abs.SetMaxTemporal | egress/sessions/whep/adaptivebitratestreaming.go:84-96 | the temporal maximum becomes the larger of itself and the temporal id, nothing else changes, and the invariant is kept |
| Abs.Upgrade | egress/sessions/whep/adaptivebitratestreaming.go:98-131 | one temporal step if there is one, else one spatial step that restarts the temporal layers at 0, else nothing; the invariant is kept |
| Abs.UpgradeProgress | egress/sessions/whep/adaptivebitratestreaming.go:98-131 | an upgrade changes nothing exactly at both maxima, and otherwise raises the targets in lexicographic order |
| Abs.UpgradesMonotone | egress/sessions/whep/adaptivebitratestreaming.go:98-131 | any number of upgrades keeps the invariant, never lowers the spatial target and never touches the spatial maximum or the current layer |
| Abs.CanSendSpatial | egress/sessions/whep/adaptivebitratestreaming.go:133-143 | a unit of the current layer is sent; one of neither the current layer nor a key frame of the target layer is not, and nothing changes |
| Abs.SwitchOnKeyFrame | egress/sessions/whep/adaptivebitratestreaming.go:133-143 | the current layer changes only on a key frame of the target layer, and becomes the target |
| Abs.IsTargetTemporal | egress/sessions/whep/adaptivebitratestreaming.go:196-198 | a temporal id is wanted exactly when it is at most the target |
| Abs.CanSendTemporal | egress/sessions/whep/adaptivebitratestreaming.go:145-168 | a VP8 or extended AV1 unit raises the temporal maximum and is sent exactly when its temporal id is at most the target; an AV1 header error is not sent; every other unit is sent unchanged |
| Abs.Tick | egress/sessions/whep/adaptivebitratestreaming.go:42-60 | an upgrade is asked for exactly at the sixth tick in a row that sent packets without a NACK, which resets the count |
| Abs.TicksUpgrade | egress/sessions/whep/adaptivebitratestreaming.go:33-63 | a run of ticks changes the layers only by upgrading them, once per tick that asked |
| Abs.QuietUpgrades | egress/sessions/whep/adaptivebitratestreaming.go:33-63 | over ticks without NACKs that all send packets the handler upgrades once every six ticks |
| Abs.AbsHandler.constructor | egress/sessions/whep/adaptivebitratestreaming.go:27-31 | every layer counter at 0 |
| Abs.AbsHandler.SetMaxSpatialLayer | egress/sessions/whep/adaptivebitratestreaming.go:65-82 | the new layers are SetMaxSpatial of the old |
| Abs.AbsHandler.SetMaxTemporalLayer | egress/sessions/whep/adaptivebitratestreaming.go:84-96 | the new layers are SetMaxTemporal of the old |
| Abs.AbsHandler.UpgradeLayer | egress/sessions/whep/adaptivebitratestreaming.go:98-131 | the new layers are Upgrade of the old |
| Abs.AbsHandler.CanSendSpatialLayer | egress/sessions/whep/adaptivebitratestreaming.go:133-143 | the answer and the new layers are those of CanSendSpatial |
| Abs.AbsHandler.CanSendTemporalLayer | egress/sessions/whep/adaptivebitratestreaming.go:145-168 | the answer and the new layers are those of CanSendTemporal |
| Abs.AbsHandler.Run | egress/sessions/whep/adaptivebitratestreaming.go:33-63 | the loop over the counter readings leaves the layers that Ticks gives |
| Abs.Ticks | egress/sessions/whep/adaptivebitratestreaming.go:33-63 | definition of a run of ticks; characterised by Abs.TicksUpgrade and Abs.QuietUpgrades |
| Abs.Upgrades | egress/sessions/whep/adaptivebitratestreaming.go:98-131 | definition of n upgrades in a row; characterised by Abs.UpgradesMonotone |
| PlayoutDelay.Encode | egress/sessions/whep/playoutdelay/playoutdelay.go:47-52 | the extension is three bytes |
| PlayoutDelay.DecodeMin | egress/sessions/whep/playoutdelay/playoutdelay.go:47-52 | the minimum field is 12 bits |
| PlayoutDelay.DecodeMax | egress/sessions/whep/playoutdelay/playoutdelay.go:47-52 | the maximum field is 12 bits |
| PlayoutDelay.EncodeRoundTrip | egress/sessions/whep/playoutdelay/playoutdelay.go:47-52 | the three bytes carry the minimum and the maximum modulo 2^12 |
| PlayoutDelay.SplitLow | egress/sessions/whep/playoutdelay/playoutdelay.go:47-49 | bits 11..4 and 3..0 of the minimum make it up modulo 2^12 |
| PlayoutDelay.SplitHigh | egress/sessions/whep/playoutdelay/playoutdelay.go:49-51 | bits 11..8 and 7..0 of the maximum make it up modulo 2^12 |
| PlayoutDelay.NextMin | egress/sessions/whep/playoutdelay/playoutdelay.go:35-45 | not in use the minimum is 0; in use it grows by one exactly when the interval has elapsed and it is below the target |
| PlayoutDelay.UpdatesApproachTarget | egress/sessions/whep/playoutdelay/playoutdelay.go:37-40 | updates raise the minimum one unit at a time until it reaches the target and then stop |
| PlayoutDelay.Handler.constructor | egress/sessions/whep/playoutdelay/playoutdelay.go:20-29 | target 60, minimum 0, a zeroed three-byte payload, a 300 ms interval and the creation time |
| PlayoutDelay.Handler.SetTargetMin | egress/sessions/whep/playoutdelay/playoutdelay.go:31-33 | only the target changes |
| PlayoutDelay.Handler.GetPayload | egress/sessions/whep/playoutdelay/playoutdelay.go:35-54 | the id, the payload buffer and true; the minimum becomes NextMin, and the buffer and the update time change exactly when the minimum does, the buffer to the encoding of the minimum and the minimum plus 5 |
| Rtx.Recover | egress/sessions/whep/remotetrack.go:222-232 | a packet is recovered exactly when the payload holds the original sequence number |
| Rtx.RecoverRtx | egress/sessions/whep/remotetrack.go:222-232 | round trip: the receiver rebuilds exactly the retransmitted packet |
| Rtx.RtxKeepsHeader | egress/sessions/whep/remotetrack.go:223-228 | the RTX header differs from the original only in sequence number and payload type |
| Rtx.RemoteRtx.constructor | egress/sessions/whep/remotetrack.go:217-220 | the given sequence number and payload type |
| Rtx.RemoteRtx.GetRtxSeq | egress/sessions/whep/remotetrack.go:234-238 | the current number, and the counter moves on by one modulo 2^16 |
| Rtx.RemoteRtx.MakeRtxPacket | egress/sessions/whep/remotetrack.go:222-232 | the packet is RtxOf the original with the RTX stream's next number and payload type, and that number is used up |
| Rtx.RtxOf | egress/sessions/whep/remotetrack.go:222-232 | definition of the RTX packet for a given number and payload type; characterised by Rtx.RecoverRtx and Rtx.RtxKeepsHeader |
| Capabilities.DeleteFunc | hubs/engines/webrtc.go:197-199 | the kept entries are exactly those not selected, never more than before |
| Capabilities.DeletePair | hubs/engines/webrtc.go:197-199 | deleting from a codec and its RTX entry keeps each one not selected, in order |
| Capabilities.NotRtx | hubs/engines/webrtc.go:62-252 | the H.264, VP8 and AV1 entries are not RTX entries |
| Capabilities.H264Vp8Lists | hubs/engines/webrtc.go:62-226 | the H.264 list keeps its RTX entry exactly with RTX in use, the VP8 list exactly without |
| Capabilities.Av1Lists | hubs/engines/webrtc.go:228-252 | the AV1 list keeps its RTX entry exactly without RTX in use |
| Capabilities.VideoListsRtx | hubs/engines/webrtc.go:10-17 | with RTX in use: H.264, its RTX entry, VP8, AV1 |
| Capabilities.VideoListsNoRtx | hubs/engines/webrtc.go:10-17 | without RTX: H.264, VP8, its RTX entry, AV1, its RTX entry |
| Capabilities.CapabilityRules | hubs/engines/webrtc.go:10-252 | audio is Opus alone at 48 kHz in stereo on payload type 96; the H.264 RTX entry is there exactly with RTX in use, the VP8 and AV1 ones exactly without |
| Capabilities.DuplicateRtxPayloadType | hubs/engines/webrtc.go:246 | as written, without RTX the VP8 and AV1 RTX entries share payload type 124 |
| Capabilities.CapabilitiesWellFormed | hubs/engines/webrtc.go:10-252 | corrected: every payload type is used once and every RTX entry names a codec of the list |
| Capabilities.WhepHeaderExtensions | hubs/engines/webrtc.go:26-35 | WHEP offers transport-wide congestion control and abs-send-time on video and nothing on audio |
| Capabilities.WhipHeaderExtensions | hubs/engines/webrtc.go:19-47 | WHIP offers no header extension on either kind |
| Capabilities.RtxFor | hubs/engines/webrtc.go:78-85 | definition: a `video/rtx` entry at 90000 Hz whose fmtp names the protected payload type; characterised by Capabilities.CapabilitiesWellFormed |
| Capabilities.H264Capabilities | hubs/engines/webrtc.go:62-200 | definition of the H.264 list; characterised by Capabilities.H264Vp8Lists |
| Capabilities.Vp8Capabilities | hubs/engines/webrtc.go:202-226 | definition of the VP8 list; characterised by Capabilities.H264Vp8Lists |
| Capabilities.Av1CapabilitiesAsWritten | hubs/engines/webrtc.go:228-252 | definition of the AV1 list as written, its RTX entry on payload type 124; characterised by Capabilities.Av1Lists and Capabilities.DuplicateRtxPayloadType |
| Capabilities.Av1Capabilities | hubs/engines/webrtc.go:228-252 | corrected definition of the AV1 list, its RTX entry on payload type 126; characterised by Capabilities.CapabilitiesWellFormed |
| Capabilities.GetWebRtcCapabilitiesAsWritten | hubs/engines/webrtc.go:10-17 | definition of the tables as written; characterised by Capabilities.VideoListsRtx, Capabilities.VideoListsNoRtx and Capabilities.CapabilityRules |
| Capabilities.GetWebRtcCapabilities | hubs/engines/webrtc.go:10-17 | corrected definition of the tables; characterised by Capabilities.CapabilitiesWellFormed |
| HlsWindow.NatString | egress/servers/hls.go:271 | a decimal numeral starts with a digit |
| HlsWindow.Itoa | egress/servers/hls.go:271 | a numeral starts with a minus sign or a digit |
| HlsWindow.SegmentUri | egress/servers/hls.go:253 | a segment file name starts with a letter |
| HlsWindow.PartUri | egress/servers/hls.go:292-293 | a part file name starts with a letter |
| HlsWindow.GoDiv2 | egress/servers/hls.go:352 | Go's truncating division by two, which is Euclidean on non-negative numbers |
| HlsWindow.GoRem2 | egress/servers/hls.go:353 | the truncating remainder, which with the quotient rebuilds the number |
| HlsWindow.LoadOrStore | egress/servers/hls.go:133-140 | the key has an entry afterwards: the old one, or a new open and empty one |
| HlsWindow.Publish | egress/servers/hls.go:274-276 | storing and closing panics exactly when the entry was already closed, and otherwise leaves it closed with the payload |
| HlsWindow.Slide | egress/servers/hls.go:261-272 | a full window drops its oldest segment, counts it in the media sequence number and returns it; otherwise the segment is just appended |
| HlsWindow.LastN | egress/servers/hls.go:261-265 | keeps at most n elements |
| HlsWindow.SlideWindow | egress/servers/hls.go:261-272 | the window keeps the three newest segments, ends with the new one, and every segment that entered is in it or counted by the media sequence number |
| HlsWindow.AppendHls | egress/servers/hls.go:247-283 | part 0 only stashes payload and duration; part 1 slides the completed segment (both durations, numbered title) into the window and stores the stashed payload followed by this one under its name, panicking if that file was closed already |
| HlsWindow.AppendLlhls | egress/servers/hls.go:285-349 | part 0 becomes the pending part with a hint for part 1; part 1 slides the HLS playlist's newest segment, carrying the pending parts and part 1, into the LL-HLS window (as Slide does, returning what it evicts), or leaves the window alone when the HLS playlist is empty, and hints at the next segment's part 0; each part's file is stored and a second close panics |
| HlsWindow.FreshInv | egress/servers/hls.go:153-157 | a new handler satisfies the invariant |
| HlsWindow.NumeralNotFileName | egress/servers/hls.go:364 | a segment title is never the name of a stored file |
| HlsWindow.AppendHlsInv | egress/servers/hls.go:247-283 | the invariant is kept, and what is evicted is the oldest segment of a full window |
| HlsWindow.AppendLlhlsInv | egress/servers/hls.go:285-349 | the invariant is kept |
| HlsWindow.AppendBothInv | egress/servers/hls.go:351-358 | the two appends keep the invariant and return the oldest segment of a full HLS window, if any |
| HlsWindow.AppendMediaInv | egress/servers/hls.go:351-365 | AppendMedia, as written and corrected, keeps the invariant |
| HlsWindow.AsWrittenKeepsEvicted | egress/servers/hls.go:364 | as written, the removal under the title removes nothing, so the evicted segment's file stays stored |
| HlsWindow.AppendMediaDropsEvicted | egress/servers/hls.go:360-364 | corrected, exactly the evicted segment's file is removed |
| HlsWindow.EvictedFileAsWritten | egress/servers/hls.go:351-365 | media number 7 on a full window evicts segment 0, whose file stays stored as written and is gone corrected |
| HlsWindow.WindowOfHolds | egress/servers/hls.go:247-283 | the example handler satisfies the invariant |
| HlsWindow.LookupLlhls | egress/servers/hls.go:165-179 | a number below the media sequence number is an error; one whose segment is in the window gives the playlist; any other gives nothing yet |
| HlsWindow.HlsHandler.constructor | egress/servers/hls.go:153-157 | the fresh state: empty playlists and no stored file |
| HlsWindow.HlsHandler.LoadOrStoreMedia | egress/servers/hls.go:133-140 | the map becomes LoadOrStore of the old one and the entry is returned; the playlists are untouched |
| HlsWindow.HlsHandler.StoreAndClose | egress/servers/hls.go:274-276 | the panic and the new map are those of Publish |
| HlsWindow.HlsHandler.AppendMediaHls | egress/servers/hls.go:247-283 | the new state, the evicted segment and the panic are those of AppendHls |
| HlsWindow.HlsHandler.AppendMediaLlhls | egress/servers/hls.go:285-349 | the new state, the evicted segment and the panic are those of AppendLlhls |
| HlsWindow.HlsHandler.AppendMedia | egress/servers/hls.go:351-365 | the new state and the panic are those of the corrected AppendMedia |
| HlsWindow.HlsHandler.GetMediaM3U8Llhls | egress/servers/hls.go:165-179 | the loop over the window answers LookupLlhls |
| HlsWindow.AppendBoth | egress/servers/hls.go:351-357 | definition of the two appends of `AppendMedia`; characterised by HlsWindow.AppendBothInv |
| HlsWindow.AppendMediaAsWritten | egress/servers/hls.go:351-365 | definition of `AppendMedia` as written; characterised by HlsWindow.AsWrittenKeepsEvicted and HlsWindow.EvictedFileAsWritten |
| HlsWindow.AppendMediaCorrected | egress/servers/hls.go:351-365 | corrected definition of `AppendMedia`; characterised by HlsWindow.AppendMediaDropsEvicted |
| HlsWindow.LlhlsClosesSegment | egress/servers/hls.go:312-330 | part 1 of a segment in the HLS window makes it, with the pending parts and this one, the newest segment of the LL-HLS window, which keeps its three newest segments |

## Left out

- Library decoders: the mediacommon H.264 SPS parser, the AV1 sequence-header parser, the AV1 depacketiser's codec callback and the writer's bitstream filter are function parameters. What they compute is not modelled.
- Leb128: the library that encodes and decodes leb128 is not part of this model. The module defines leb128 from section 4.10.5 of the AV1 bitstream specification.
- `OBUBitStreamFilter.AddFilter` returns its payload unchanged, so it has no member of its own.
- Width, height and pixel format: the values the codec configs take from decoded sequence headers come from the library decoders and are parameters.
- State after a panic: a method that panics returns `Exit.Panic`. The model says nothing about the fields it has already changed.
- Signed 64-bit overflow of the Go `int` and `time.Duration` values is not modelled (except where `Ntp` wraps explicitly). Neither are payloads of 4 GiB or more, whose length no longer fits a 32-bit length field.
- Floating point: jitter, the fraction lost of a receiver report and the HLS segment durations are not modelled as floats. Durations are integer microseconds, and jitter and fraction lost are left out.
- Clocks: `time.Now()`, tickers and durations are integer nanosecond parameters. `NTPTime.Time` is the epoch plus `Duration`, so only `Duration` is modelled. `time.Time.Sub` saturation is not modelled.
- Writer.Writer.WriteVideoPkt, Writer.Writer.WriteAudioPkt: FFmpeg's `av_rescale_q` rescales the time stamps and durations from the unit's time base to the writer's. That rescaling is not modelled: the time stamps stay in the unit's own time base.
- Aliasing of Go slices is not modelled: the writer's reused buffer, the RTX header's CSRC and extension slices shared with the original packet, and `append` onto a shared backing array in the HLS handler. The model works on values.
- Av1Rtp.NextElement, Av1Rtp.ElementsStop, Av1Bsf.NextObu, Av1Bsf.OversizedObuPanics, Mp4Format.SpsPpsFromAvcc, Mp4Format.AvccUnits, Mp4Format.GetAuFromAvc, H264BitStream.Filter, AvcRecord.ReadRecord: a slice `s[a:b]` whose bound `b` runs past `len(s)` is modelled as a panic. Go only panics past `cap(s)`, so the model assumes that every input slice's capacity equals its length. A caller passing a slice with spare capacity would get a longer piece instead of the panic.
- AnnexB.RemoveAnnexBPieces: promises no maximality for the loop as written, because that loop can jump over a start code (`ExtraZerosHideStartCode`, see "## Findings"). Only the corrected scanner, in `FixedSplitAnnexBPieces`, misses no start code.
- Writer.Collect, Writer.Writer.BitStreamSummary: use the corrected AV1 size placement, `SizedObu`. The placement as written is `SizedObuAsWritten`, and the `hubs/writers/writer.go:99-102` row of "## Findings" shows where the two differ. For an OBU without an extension byte they agree (`SizedObuAgrees`).
- ToLower in the codec and media type mappings is ASCII only. Unicode case folding is not modelled.
- `BitStreamAnnexB`: its `AddFilter` is an unconditional panic ("implement me"). Its `Filter` reads up to three bytes past any zero pair without a length check and slices `payload[idx-unitSize : unitSize]`. It is an unfinished filter and is not modelled. The Annex B splitting that is used is `RemoveAnnexB` in `AnnexB`.
- Abs: the compare-and-swap loops and atomics are modelled as sequential updates. The ticker is a sequence of counter readings, logging is left out, and the VP8 and AV1 layer fields come from header parsers and are inputs.
- HlsWindow: the playlist marshalling to text, the waiting with time-outs in the playlist getters, `strconv.Atoi` of the request, `SetPayload`, `GetPayload` and `GetMasterM3U8`, the locks, and the channels are left out. A channel is represented by a closed flag, and closing it twice panics.
- PlayoutDelay: the clock is a parameter. The header-extension registration with the WebRTC library is left out.
- Rtx: the packet cache, the NACK handling and the writing to the track belong to the WebRTC library and are left out.
- Capabilities: the rendering of the H.264 fmtp line is a helper outside this model and is kept as its parameters.
- `DropNalUnit` is a predicate on the NAL unit type and has no contract of its own. The lemmas of the AVCC filter state its effect.
- RtpStats.ExpectedAndLost: stated only for ascending runs that start in the first cycle and span fewer than 2^32 sequence numbers. Reordered and duplicated packets are covered only step by step, by `Receive`.
- Ntp.NtpRoundTrip: stated only for instants in NTP era 0 (1900 to 2036). Later instants wrap, as `NtpEraWraps` states.
- Ingest over RTMP, RTP and files, the FFmpeg demuxing and muxing itself, the session and hub plumbing, goroutines, HTTP handlers and the browser client's UI are outside this model. So are the files that repeat a modelled one for another transport.

## Findings

| source | as written | input that shows it | evidently intended | confidence | as-written member | corrected member |
|---|---|---|---|---|---|---|
| codecs/h264/bsf.go:85 | copies `src[copyIdx:idx-copyIdx]` | `00 00 03 00 00 03 01` panics, and `00 00 03 01 01 01 00 00 03 01` loses bytes | copy `src[copyIdx:idx]` | not executed | H264BitStream.RemoveEpbAsWrittenPanics | H264BitStream.RemoveEmulationPreventionBytes |
| codecs/h264/format.go:12 | reads three bytes ahead without checking the length | `00 00 01 65 00` panics | stop when fewer than three bytes remain | not executed | AnnexB.TrailingZeroPanics | AnnexB.FixedSplitAnnexBPieces |
| codecs/h264/format.go:36 | moves on by 4 after `00 00 00` and a non-one byte | `00 00 00 00 01 65` gives no unit | move on by 2, so a start code at the second zero is found | not executed | AnnexB.ExtraZerosHideStartCode | AnnexB.FixedSplitAnnexBPieces |
| hubs/writers/writer.go:99-102 | puts the size field right after the first header byte | `34 00 AA` becomes `36 01 00 AA`, which the OBU filter rejects | put the size field after the extension byte | not executed | Writer.SizedObuAsWrittenMisplacesSize | Writer.SizedObuSplits |
| ingress/sessions/rtpinbounder/stats.go:111 | measures the delay with `time.Now().Nanosecond()` | a report at 1 700 000 000 s read 0.5 s later does not give 32768 | measure with `UnixNano()`, the clock the report time was taken from | not executed | RtpStats.DlsrAsWrittenWrong | RtpStats.DlsrUnits |
| codecs/codecs.go:75-83 | the audio-only switch compares against the VP8 and H.264 types | Opus or AAC audio alone gives an error | Opus gives mka and AAC gives m4a | not executed | Codecs.AudioOnlyRejected | Codecs.ExtensionMatchesContainer |
| egress/servers/hls.go:364 | deletes the evicted segment's file under its title | media 7 on a full window keeps `output_0.m4s` | delete it under its URI | not executed | HlsWindow.EvictedFileAsWritten | HlsWindow.AppendMediaDropsEvicted |
| hubs/engines/webrtc.go:246 | the AV1 RTX entry uses payload type 124 | without RTX, payload type 124 appears twice in the video list | a payload type of its own (126 here) | not executed | Capabilities.DuplicateRtxPayloadType | Capabilities.CapabilitiesWellFormed |
