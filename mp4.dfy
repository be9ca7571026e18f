/**
 * The AVC helpers of `parser/format/mp4.go`: the MP4 `avcC` extra data for an
 * SPS/PPS pair, its reader into an `ExtraData` value, a looser SPS/PPS
 * extractor, and the splitting of an AVCC access unit (4-byte big-endian
 * length prefixes) into NAL units with SEI, filler data and access unit
 * delimiters dropped.
 */
module Mp4Format {
  import opened Base
  import opened AvcRecord

  /** `ExtraDataForAVC`: nil without both parameter sets, else the record. An
      SPS of one to three bytes makes the byte reads panic. */
  function ExtraDataForAvc(sps: bytes, pps: bytes): (r: Exit<bytes>)
    ensures r == Normal([]) <==> |sps| == 0 || |pps| == 0
    ensures r.Panic? <==> 1 <= |sps| < 4 && |pps| >= 1
    ensures r.Normal? && r.value != [] ==>
      |r.value| == |sps| + |pps| + 11 && U16At(r.value, 6) == |sps| % 0x1_0000
      && U16At(r.value, 9 + |sps|) == |pps| % 0x1_0000
  {
    if |sps| < 1 || |pps| < 1 then Normal([])
    else if |sps| < 4 then Panic
    else
      RecordLayout(sps, pps);
      Normal(Record(sps, pps))
  }

  method ExtraDataForAvcBytes(sps: bytes, pps: bytes) returns (r: Exit<bytes>)
    ensures r == ExtraDataForAvc(sps, pps)
  {
    if |sps| < 1 || |pps| < 1 {
      return Normal([]);
    }
    if |sps| < 4 {
      return Panic;
    }
    var b := WriteRecord(sps, pps);
    return Normal(b[..]);
  }

  datatype FormatError = ErrShort | ErrInvalid | ErrNalu

  datatype Fields = Fields(profileId: int, profileComp: int, levelId: int, sps: bytes, pps: bytes)

  /** `ExtraData.Unmarshal`: the record's errors are reported, a zero SPS or
      PPS count is a silent nil, and the fields are set, profile,
      compatibility and level from body bytes 1 to 3, only on success. */
  function AfterUnmarshal(st: Fields, body: bytes): (r: (Exit<Option<FormatError>>, Fields))
    ensures r.1 != st ==>
      && r.0 == Normal(None) && |body| >= 11
      && r.1.profileId == body[1] && r.1.profileComp == body[2] && r.1.levelId == body[3]
    ensures |body| < 11 ==> r.0 == Normal(Some(ErrShort))
    ensures |body| >= 11 && body[0] != 1 ==> r.0 == Normal(Some(ErrInvalid))
  {
    match Parse(body)
    case Panic => (Panic, st)
    case Normal(ExtraDataShort) => (Normal(Some(ErrShort)), st)
    case Normal(ExtraDataInvalid) => (Normal(Some(ErrInvalid)), st)
    case Normal(ExtraDataNalu) => (Normal(Some(ErrNalu)), st)
    case Normal(NoSps) => (Normal(None), st)
    case Normal(NoPps) => (Normal(None), st)
    case Normal(Units(sps, pps)) => (Normal(None), Fields(body[1], body[2], body[3], sps, pps))
  }

  class ExtraData {
    var profileId: int
    var profileComp: int
    var levelId: int
    var sps: bytes
    var pps: bytes

    function State(): Fields
      reads this
    {
      Fields(profileId, profileComp, levelId, sps, pps)
    }

    constructor ()
      ensures State() == Fields(0, 0, 0, [], [])
    {
      profileId, profileComp, levelId, sps, pps := 0, 0, 0, [], [];
    }

    method Unmarshal(body: bytes) returns (r: Exit<Option<FormatError>>)
      modifies this
      ensures (r, State()) == AfterUnmarshal(old(State()), body)
    {
      var parsed := ReadRecord(body);
      match parsed
      case Panic => return Panic;
      case Normal(ExtraDataShort) => return Normal(Some(ErrShort));
      case Normal(ExtraDataInvalid) => return Normal(Some(ErrInvalid));
      case Normal(ExtraDataNalu) => return Normal(Some(ErrNalu));
      case Normal(NoSps) => return Normal(None);
      case Normal(NoPps) => return Normal(None);
      case Normal(Units(spsNalUnit, ppsNalUnit)) =>
        profileId := body[1];
        profileComp := body[2];
        levelId := body[3];
        sps := spsNalUnit;
        pps := ppsNalUnit;
        return Normal(None);
    }
  }

  /** The extra data of a pair reads back into that pair and its profile. */
  lemma UnmarshalExtraDataForAvc(st: Fields, sps: bytes, pps: bytes)
    requires 4 <= |sps| < 0x1_0000 && 1 <= |pps| < 0x1_0000
    ensures ExtraDataForAvc(sps, pps).Normal?
    ensures AfterUnmarshal(st, ExtraDataForAvc(sps, pps).value) ==
      (Normal(None), Fields(sps[1], sps[2], sps[3], sps, pps))
  {
    ParseRecord(sps, pps);
    RecordLayout(sps, pps);
  }

  /** `SPSPPSFromAVCCExtraData`: (nil, nil) for short data or a bad version;
      otherwise the counts are ignored and the two lengths are trusted, so a
      length that runs past the data panics. */
  function SpsPpsFromAvcc(data: bytes): (r: Exit<(bytes, bytes)>)
    ensures (|data| < 11 || data[0] != 1) ==> r == Normal(([], []))
    ensures r.Normal? && |data| >= 11 && data[0] == 1 ==>
      |r.value.0| + |r.value.1| + 11 <= |data| && data[8..8 + |r.value.0|] == r.value.0
  {
    if |data| < 11 || data[0] != 1 then Normal(([], []))
    else
      var spsLen := U16At(data, 6);
      if 11 + spsLen > |data| then Panic
      else
        var ppsLen := U16At(data, 9 + spsLen);
        if 11 + spsLen + ppsLen > |data| then Panic
        else Normal((data[8..8 + spsLen], data[11 + spsLen..11 + spsLen + ppsLen]))
  }

  /** Whenever the strict reader finds both units, the loose one finds the
      same two. */
  lemma SpsPpsAgreesWithParse(data: bytes)
    requires Parse(data).Normal? && Parse(data).value.Units?
    ensures SpsPpsFromAvcc(data) == Normal((Parse(data).value.sps, Parse(data).value.pps))
  {
  }

  lemma SpsPpsFromExtraDataForAvc(sps: bytes, pps: bytes)
    requires 4 <= |sps| < 0x1_0000 && 1 <= |pps| < 0x1_0000
    ensures SpsPpsFromAvcc(Record(sps, pps)) == Normal((sps, pps))
  {
    ParseRecord(sps, pps);
    SpsPpsAgreesWithParse(Record(sps, pps));
  }

  /** `DropNalUnit`: SEI, filler data and access unit delimiters. */
  predicate DropNalUnit(naluType: nat) {
    naluType == NalSei || naluType == NalFillerData || naluType == NalAccessUnitDelimiter
  }

  /** The NAL units of the AVCC data `rest` while more than four bytes remain:
      a length that runs past the data, or a zero length (whose first byte is
      then read), panics. */
  function AvccUnits(rest: bytes): Exit<seq<bytes>>
    decreases |rest|
  {
    if |rest| <= 4 then Normal([])
    else
      var auLength := U32At(rest, 0);
      if 4 + auLength > |rest| || auLength == 0 then Panic
      else
        var au := rest[4..4 + auLength];
        var more := AvccUnits(rest[4 + auLength..]);
        if DropNalUnit(NalType(au[0])) then more else PrependUnits([au], more)
  }

  /** Every unit returned is non-empty and of a type that is not dropped. */
  lemma {:induction false} AvccUnitsKept(rest: bytes)
    ensures var r := AvccUnits(rest);
      r.Normal? ==> forall i :: 0 <= i < |r.value| ==> |r.value[i]| > 0 && !DropNalUnit(NalType(r.value[i][0]))
    decreases |rest|
  {
    if |rest| > 4 {
      var auLength := U32At(rest, 0);
      if 4 + auLength <= |rest| && auLength > 0 {
        AvccUnitsKept(rest[4 + auLength..]);
      }
    }
  }

  /** `GetAUFromAVC`: empty input gives nil; one to three bytes make the first
      length read panic. */
  function AuFromAvc(payload: bytes): Exit<seq<bytes>> {
    if |payload| < 1 then Normal([])
    else if |payload| < 4 then Panic
    else AvccUnits(payload)
  }

  /** The source loop: a uint32 `offset`, the limit `uint32(len) - 4`, which
      wraps for inputs shorter than four bytes. */
  method GetAuFromAvc(payload: bytes) returns (r: Exit<seq<bytes>>)
    requires |payload| < 0x1_0000_0000
    ensures r == AuFromAvc(payload)
  {
    if |payload| < 1 {
      return Normal([]);
    }
    var aus: seq<bytes> := [];
    var limit := Sub32(|payload|, 4);
    var offset := 0;
    assert payload[offset..] == payload;
    PrependNothing(AvccUnits(payload));
    while offset < limit
      invariant offset <= |payload|
      invariant |payload| < 4 ==> offset == 0
      invariant |payload| >= 4 ==> PrependUnits(aus, AvccUnits(payload[offset..])) == AvccUnits(payload)
      decreases limit - offset
    {
      if offset + 4 > |payload| {
        return Panic;
      }
      ghost var start := offset;
      var auLength := U32At(payload, offset);
      offset := offset + 4;
      if auLength + offset > |payload| {
        AvccStep(payload, start, auLength + offset);
        return Panic;
      }
      var au := payload[offset..auLength + offset];
      offset := offset + auLength;
      if auLength == 0 {
        AvccStep(payload, start, offset);
        return Panic;
      }
      AvccStep(payload, start, offset);
      ghost var later := AvccUnits(payload[offset..]);
      assert AvccUnits(payload[start..]) == if DropNalUnit(NalType(au[0])) then later else PrependUnits([au], later) by {
        assert au == payload[start + 4..offset] && au[0] == payload[start + 4];
      }
      if DropNalUnit(NalType(au[0])) {
        continue;
      }
      assert PrependUnits(aus + [au], later) == AvccUnits(payload) by {
        PrependTwice(aus, [au], later);
      }
      aus := aus + [au];
    }
    assert aus + [] == aus;
    return Normal(aus);
  }

  /** One turn of the loop at `offset`, where the length field says the unit
      ends at `next`: the unit there, then the units after it. */
  lemma AvccStep(payload: bytes, offset: nat, next: nat)
    requires offset + 4 < |payload| && next == offset + 4 + U32At(payload, offset)
    ensures next > |payload| || next == offset + 4 ==> AvccUnits(payload[offset..]).Panic?
    ensures offset + 4 < next <= |payload| ==>
      AvccUnits(payload[offset..]) == if DropNalUnit(NalType(payload[offset + 4])) then AvccUnits(payload[next..])
        else PrependUnits([payload[offset + 4..next]], AvccUnits(payload[next..]))
  {
    var rest := payload[offset..];
    assert U32At(rest, 0) == U32At(payload, offset);
    if next <= |payload| {
      assert rest[4..next - offset] == payload[offset + 4..next];
      assert rest[next - offset..] == payload[next..];
    }
  }

  /** The inverse of `AvccUnits`: each unit behind its 4-byte length. */
  function Avcc(units: seq<bytes>): bytes
    requires forall i :: 0 <= i < |units| ==> |units[i]| < 0x1_0000_0000
  {
    if |units| == 0 then [] else U32Bytes(|units[0]|) + units[0] + Avcc(units[1..])
  }

  /** The units that survive the drop filter, in order. */
  function Kept(units: seq<bytes>): seq<bytes>
    requires forall i :: 0 <= i < |units| ==> |units[i]| > 0
  {
    if |units| == 0 then []
    else if DropNalUnit(NalType(units[0][0])) then Kept(units[1..])
    else [units[0]] + Kept(units[1..])
  }

  /** Framing non-empty units and splitting them again returns them in order,
      with the dropped types removed. */
  lemma {:induction false} AvccRoundTrip(units: seq<bytes>)
    requires forall i :: 0 <= i < |units| ==> 0 < |units[i]| < 0x1_0000_0000
    ensures AvccUnits(Avcc(units)) == Normal(Kept(units))
  {
    if |units| > 0 {
      var u := units[0];
      var tail := Avcc(units[1..]);
      var framed := Avcc(units);
      assert framed == U32Bytes(|u|) + u + tail;
      assert U32At(framed, 0) == |u|;
      assert framed[4..4 + |u|] == u;
      assert framed[4 + |u|..] == tail;
      AvccRoundTrip(units[1..]);
    }
  }

  lemma GetAuFromAvcRoundTrip(units: seq<bytes>)
    requires |units| > 0
    requires forall i :: 0 <= i < |units| ==> 0 < |units[i]| < 0x1_0000_0000
    ensures AuFromAvc(Avcc(units)) == Normal(Kept(units))
  {
    AvccRoundTrip(units);
    assert |Avcc(units)| >= 5;
  }
}
