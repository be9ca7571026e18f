/**
 * `H264ExtractParams` of `parser/codecparser/h264.go`: the SPS and PPS of an
 * RTP payload, found without depacketising it. A single SPS or PPS NAL unit
 * is returned as it is; a STAP-A aggregation is scanned for its last SPS and
 * its last PPS. A nil slice is the empty sequence: every slice the function
 * returns otherwise is non-empty.
 */
module H264Params {
  import opened Base
  import H264Rtp

  /** The STAP-A loop on what is left of the payload, with the SPS and PPS
      found so far. Fewer than two bytes left or a size of 0 stop the scan; a
      size larger than what is left gives (nil, nil). */
  function StapParams(rest: bytes, sps: bytes, pps: bytes): (r: (bytes, bytes))
    decreases |rest|
  {
    if |rest| < 2 then (sps, pps)
    else
      var size := U16At(rest, 0);
      var after := rest[2..];
      if size == 0 then (sps, pps)
      else if size > |after| then ([], [])
      else
        var nalu := after[..size];
        var t := NalType(nalu[0]);
        StapParams(after[size..], if t == NalSps then nalu else sps, if t == NalPps then nalu else pps)
  }

  function ExtractParams(payload: bytes): (r: (bytes, bytes))
    ensures |payload| == 0 ==> r == ([], [])
    ensures |payload| > 0 && NalType(payload[0]) == NalSps ==> r == (payload, [])
    ensures |payload| > 0 && NalType(payload[0]) == NalPps ==> r == ([], payload)
    ensures |payload| > 0 && NalType(payload[0]) !in {NalSps, NalPps, NalStapA} ==> r == ([], [])
  {
    if |payload| < 1 then ([], [])
    else
      var t := NalType(payload[0]);
      if t == NalSps then (payload, [])
      else if t == NalPps then ([], payload)
      else if t == NalStapA then StapParams(payload[1..], [], [])
      else ([], [])
  }

  /** `H264ExtractParams`, reslicing `payload` as the loop goes. */
  method H264ExtractParams(payload: bytes) returns (sps: bytes, pps: bytes)
    ensures (sps, pps) == ExtractParams(payload)
  {
    if |payload| < 1 {
      return [], [];
    }
    var typ := NalType(payload[0]);
    if typ == NalSps {
      return payload, [];
    } else if typ == NalPps {
      return [], payload;
    } else if typ != NalStapA {
      return [], [];
    }
    var rest := payload[1..];
    sps, pps := [], [];
    while |rest| > 0
      invariant StapParams(payload[1..], [], []) == StapParams(rest, sps, pps)
      decreases |rest|
    {
      if |rest| < 2 {
        break;
      }
      var size := U16At(rest, 0);
      rest := rest[2..];
      if size == 0 {
        break;
      }
      if size > |rest| {
        return [], [];
      }
      var nalu := rest[..size];
      rest := rest[size..];
      typ := NalType(nalu[0]);
      if typ == NalSps {
        sps := nalu;
      } else if typ == NalPps {
        pps := nalu;
      }
    }
  }

  /** The last unit of type `t` in `units`, or nil. */
  function LastOfType(units: seq<bytes>, t: nat): (r: bytes)
    requires forall i :: 0 <= i < |units| ==> |units[i]| > 0
    ensures |r| > 0 ==> r in units && NalType(r[0]) == t
  {
    if |units| == 0 then []
    else
      var later := LastOfType(units[1..], t);
      if |later| > 0 then later
      else if NalType(units[0][0]) == t then units[0]
      else []
  }

  /** `LastOfType` finds the last unit of type `t`: it is empty iff no unit
      has that type, and otherwise it is a unit of that type after which no
      unit has it. */
  lemma {:induction false} LastOfTypeIsLast(units: seq<bytes>, t: nat)
    requires forall i :: 0 <= i < |units| ==> |units[i]| > 0
    ensures |LastOfType(units, t)| == 0 <==> forall i :: 0 <= i < |units| ==> NalType(units[i][0]) != t
    ensures |LastOfType(units, t)| > 0 ==>
      exists i :: 0 <= i < |units| && units[i] == LastOfType(units, t) &&
        NalType(units[i][0]) == t && forall j :: i < j < |units| ==> NalType(units[j][0]) != t
    decreases |units|
  {
    if |units| > 0 {
      var rest := units[1..];
      LastOfTypeIsLast(rest, t);
      assert forall i :: 0 < i < |units| ==> units[i] == rest[i - 1];
      if |LastOfType(rest, t)| > 0 {
        var k :| 0 <= k < |rest| && rest[k] == LastOfType(rest, t) &&
          NalType(rest[k][0]) == t && forall j :: k < j < |rest| ==> NalType(rest[j][0]) != t;
        assert units[k + 1] == rest[k];
      } else if NalType(units[0][0]) == t {
        assert units[0] == LastOfType(units, t);
      }
    }
  }

  /** Scanning an aggregation of non-empty units keeps the last SPS and the
      last PPS among them, or what was found before when there is none. */
  lemma {:induction false} StapParamsAggregate(units: seq<bytes>, sps: bytes, pps: bytes)
    requires H264Rtp.Fits16(units) && forall i :: 0 <= i < |units| ==> |units[i]| > 0
    ensures var lastSps, lastPps := LastOfType(units, NalSps), LastOfType(units, NalPps);
      StapParams(H264Rtp.Aggregate(units), sps, pps) == (if |lastSps| > 0 then lastSps else sps, if |lastPps| > 0 then lastPps else pps)
    decreases |units|
  {
    if |units| > 0 {
      var u := units[0];
      var agg := H264Rtp.Aggregate(units);
      var tail := H264Rtp.Aggregate(units[1..]);
      assert agg == U16Bytes(|u|) + (u + tail);
      assert U16At(agg, 0) == U16At(U16Bytes(|u|), 0) == |u|;
      assert agg[2..] == u + tail;
      assert (u + tail)[..|u|] == u && (u + tail)[|u|..] == tail;
      var t := NalType(u[0]);
      assert H264Rtp.Fits16(units[1..]) by {
        forall i | 0 <= i < |units| - 1 ensures |units[1..][i]| < 0x1_0000 {
          assert units[1..][i] == units[i + 1];
        }
      }
      assert forall i :: 0 <= i < |units| - 1 ==> units[1..][i] == units[i + 1];
      StapParamsAggregate(units[1..], if t == NalSps then u else sps, if t == NalPps then u else pps);
    }
  }

  /** For a STAP-A packet of non-empty units: the last SPS and the last PPS
      win, nil when there is none. */
  lemma ExtractFromStapA(header: byte, units: seq<bytes>)
    requires header % 32 == NalStapA
    requires H264Rtp.Fits16(units) && forall i :: 0 <= i < |units| ==> |units[i]| > 0
    ensures ExtractParams([header] + H264Rtp.Aggregate(units)) == (LastOfType(units, NalSps), LastOfType(units, NalPps))
  {
    assert ([header] + H264Rtp.Aggregate(units))[1..] == H264Rtp.Aggregate(units);
    StapParamsAggregate(units, [], []);
  }

  /** A size of 0 stops the scan: what follows it is not looked at. */
  lemma ZeroSizeStops(more: bytes, sps: bytes, pps: bytes)
    ensures StapParams([0, 0] + more, sps, pps) == (sps, pps)
  {
  }

  /** A declared size larger than what is left discards everything found
      so far. */
  lemma OversizeIsNil(units: seq<bytes>, size: u16, more: bytes)
    requires H264Rtp.Fits16(units) && forall i :: 0 <= i < |units| ==> |units[i]| > 0
    requires 0 < size && |more| < size
    ensures StapParams(H264Rtp.Aggregate(units) + U16Bytes(size) + more, [], []) == ([], [])
  {
    OversizeAfter(units, size, more, [], []);
  }

  lemma {:induction false} OversizeAfter(units: seq<bytes>, size: u16, more: bytes, sps: bytes, pps: bytes)
    requires H264Rtp.Fits16(units) && forall i :: 0 <= i < |units| ==> |units[i]| > 0
    requires 0 < size && |more| < size
    ensures StapParams(H264Rtp.Aggregate(units) + U16Bytes(size) + more, sps, pps) == ([], [])
    decreases |units|
  {
    var last := U16Bytes(size) + more;
    if |units| == 0 {
      assert H264Rtp.Aggregate(units) + U16Bytes(size) + more == last;
      assert U16At(last, 0) == size;
      assert last[2..] == more;
    } else {
      var u := units[0];
      var tail := H264Rtp.Aggregate(units[1..]) + last;
      var s := H264Rtp.Aggregate(units) + U16Bytes(size) + more;
      assert s == U16Bytes(|u|) + (u + tail);
      assert U16At(s, 0) == U16At(U16Bytes(|u|), 0) == |u|;
      assert s[2..] == u + tail;
      assert (u + tail)[..|u|] == u && (u + tail)[|u|..] == tail;
      assert H264Rtp.Fits16(units[1..]) by {
        forall i | 0 <= i < |units| - 1 ensures |units[1..][i]| < 0x1_0000 {
          assert units[1..][i] == units[i + 1];
        }
      }
      assert forall i :: 0 <= i < |units| - 1 ==> units[1..][i] == units[i + 1];
      var t := NalType(u[0]);
      assert tail == H264Rtp.Aggregate(units[1..]) + U16Bytes(size) + more;
      OversizeAfter(units[1..], size, more, if t == NalSps then u else sps, if t == NalPps then u else pps);
    }
  }
}
