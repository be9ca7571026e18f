/**
 * The retransmission packets of `egress/sessions/whep/remotetrack.go`: an
 * RTX packet (section 4 of RFC 4588) repeats the header of the packet it
 * retransmits, with the RTX stream's own sequence number and payload type,
 * and carries the original sequence number in two big-endian bytes ahead
 * of the original payload.
 */
module Rtx {
  import opened Base

  const SeqModulus: nat := 0x1_0000

  /** The RTP fixed header (section 5.1 of RFC 3550) and its extensions. */
  datatype Header = Header(
    version: byte, padding: bool, extension: bool, marker: bool,
    payloadType: byte, sequenceNumber: u16, timestamp: u32, ssrc: u32,
    csrc: seq<u32>, extensionProfile: u16, extensions: seq<(byte, bytes)>)

  datatype Packet = Packet(header: Header, payload: bytes)

  /** The RTX packet that retransmits `p`, sent as number `rtxSn` with
      payload type `rtxPt`; `osn` is the original sequence number. */
  function RtxOf(p: Packet, osn: u16, rtxSn: u16, rtxPt: byte): Packet {
    Packet(p.header.(sequenceNumber := rtxSn, payloadType := rtxPt), U16Bytes(osn) + p.payload)
  }

  /** What a receiver rebuilds from an RTX packet once it knows the payload
      type of the original stream: nothing when the payload cannot hold the
      original sequence number. */
  function Recover(rtx: Packet, originalPt: byte): (r: Option<Packet>)
    ensures r.Some? <==> |rtx.payload| >= 2
  {
    if |rtx.payload| < 2 then None
    else Some(Packet(rtx.header.(sequenceNumber := U16At(rtx.payload, 0), payloadType := originalPt), rtx.payload[2..]))
  }

  /** Retransmitting a packet under its own sequence number loses nothing:
      the receiver gets back exactly that packet, whatever number and
      payload type the RTX stream used. */
  lemma RecoverRtx(p: Packet, rtxSn: u16, rtxPt: byte)
    ensures Recover(RtxOf(p, p.header.sequenceNumber, rtxSn, rtxPt), p.header.payloadType) == Some(p)
  {
    var rtx := RtxOf(p, p.header.sequenceNumber, rtxSn, rtxPt);
    assert rtx.payload[2..] == p.payload;
  }

  /** The RTX header differs from the original only in the sequence number
      and the payload type. */
  lemma RtxKeepsHeader(p: Packet, osn: u16, rtxSn: u16, rtxPt: byte)
    ensures var h := RtxOf(p, osn, rtxSn, rtxPt).header;
      && h.sequenceNumber == rtxSn && h.payloadType == rtxPt
      && h.(sequenceNumber := p.header.sequenceNumber, payloadType := p.header.payloadType) == p.header
  {
  }

  class RemoteRtx {
    var sequenceNumber: u16
    var payloadType: byte

    constructor (sequenceNumber: u16, payloadType: byte)
      ensures this.sequenceNumber == sequenceNumber && this.payloadType == payloadType
    {
      this.sequenceNumber := sequenceNumber;
      this.payloadType := payloadType;
    }

    /** `getRTXSeq`: the current number, then the counter moves on by one,
        wrapping at 16 bits. */
    method GetRtxSeq() returns (sn: u16)
      modifies this
      ensures sn == old(sequenceNumber) && sequenceNumber == (old(sequenceNumber) + 1) % SeqModulus
      ensures payloadType == old(payloadType)
    {
      sn := sequenceNumber;
      sequenceNumber := (sequenceNumber + 1) % SeqModulus;
    }

    /** `makeRTXPacket`: the payload buffer holds the original sequence
        number and then a copy of the original payload. */
    method MakeRtxPacket(p: Packet, osn: u16) returns (r: Packet)
      modifies this
      ensures r == RtxOf(p, osn, old(sequenceNumber), payloadType)
      ensures sequenceNumber == (old(sequenceNumber) + 1) % SeqModulus && payloadType == old(payloadType)
    {
      var buf := new byte[2 + |p.payload|];
      var sn := GetRtxSeq();
      var header := p.header.(sequenceNumber := sn, payloadType := payloadType);
      buf[0] := osn / 0x100;
      buf[1] := osn % 0x100;
      var i := 0;
      while i < |p.payload|
        modifies buf
        invariant 0 <= i <= |p.payload|
        invariant buf[0] == osn / 0x100 && buf[1] == osn % 0x100
        invariant forall j :: 0 <= j < i ==> buf[2 + j] == p.payload[j]
      {
        buf[2 + i] := p.payload[i];
        i := i + 1;
      }
      assert buf[..] == U16Bytes(osn) + p.payload;
      r := Packet(header, buf[..]);
    }
  }
}
