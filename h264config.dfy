/**
 * The H.264 decoder configuration (`codecs/h264/config.go`): the SPS, the PPS
 * and the profile, compatibility and level bytes, set from an SPS/PPS pair
 * or from an AVCDecoderConfigurationRecord and written back as one. Decoding
 * the SPS itself is done by a library and is a parameter here
 * (`spsDecodes`).
 */
module H264Config {
  import opened Base
  import opened AvcRecord

  datatype ConfigError =
    | ErrInvalidSize          // errInvalidSize
    | ErrSpsUnmarshalFailed   // the library rejected the SPS
    | ErrExtraDataShort       // errExtraDataShort
    | ErrExtraDataInvalid     // errExtraDataInvalid
    | ErrExtraDataNalu        // errExtraDataNALU

  /** The fields of a `Config` the model keeps (width, height and pixel format
      come from the decoded SPS and are not modelled). */
  datatype Fields = Fields(sps: bytes, pps: bytes, profileId: int, profileComp: int, levelId: int)

  /** How a call that returns `error` ends: `Normal(None)` is a nil error. */
  type Outcome = Exit<Option<ConfigError>>

  /** `init`: an empty SPS or PPS is errInvalidSize, an SPS the library
      rejects is an error, and otherwise both are stored and the profile,
      compatibility and level are SPS bytes 1, 2 and 3; an SPS of fewer than
      four bytes that the library accepts makes the byte reads panic. On an
      error nothing changes. */
  function AfterInit(st: Fields, sps: bytes, pps: bytes, spsDecodes: bytes -> bool): (r: (Outcome, Fields))
    ensures r.0 == Normal(None) <==> |sps| >= 4 && |pps| >= 1 && spsDecodes(sps)
    ensures r.0 == Normal(None) ==> r.1 == Fields(sps, pps, sps[1], sps[2], sps[3])
    ensures r.0 == Normal(Some(ErrInvalidSize)) <==> |sps| == 0 || |pps| == 0
    ensures r.0.Normal? && r.0.value.Some? ==> r.1 == st
  {
    if |sps| == 0 || |pps| == 0 then (Normal(Some(ErrInvalidSize)), st)
    else if !spsDecodes(sps) then (Normal(Some(ErrSpsUnmarshalFailed)), st)
    else
      var stored := st.(sps := sps, pps := pps);
      if |sps| < 2 then (Panic, stored)
      else if |sps| < 3 then (Panic, stored.(profileId := sps[1]))
      else if |sps| < 4 then (Panic, stored.(profileId := sps[1], profileComp := sps[2]))
      else (Normal(None), Fields(sps, pps, sps[1], sps[2], sps[3]))
  }

  /** `UnmarshalFromExtraData`: read the record, then `init` with its first
      SPS and PPS. A zero SPS or PPS count returns nil and changes nothing. */
  function AfterUnmarshal(st: Fields, data: bytes, spsDecodes: bytes -> bool): (Outcome, Fields) {
    match Parse(data)
    case Panic => (Panic, st)
    case Normal(ExtraDataShort) => (Normal(Some(ErrExtraDataShort)), st)
    case Normal(ExtraDataInvalid) => (Normal(Some(ErrExtraDataInvalid)), st)
    case Normal(ExtraDataNalu) => (Normal(Some(ErrExtraDataNalu)), st)
    case Normal(NoSps) => (Normal(None), st)
    case Normal(NoPps) => (Normal(None), st)
    case Normal(Units(sps, pps)) => AfterInit(st, sps, pps, spsDecodes)
  }

  datatype Marshalled = ExtraData(data: bytes) | NeedSpsPps

  /** `MarshalToExtraData`: errNeedSPSPPS without both parameter sets, else
      the record; an SPS shorter than four bytes makes the byte reads panic. */
  function Marshal(st: Fields): (r: Exit<Marshalled>)
    ensures r == Normal(NeedSpsPps) <==> |st.sps| == 0 || |st.pps| == 0
    ensures r.Normal? && r.value.ExtraData? ==> |r.value.data| == |st.sps| + |st.pps| + 11
  {
    if |st.sps| == 0 || |st.pps| == 0 then Normal(NeedSpsPps)
    else if |st.sps| < 4 then Panic
    else
      RecordLayout(st.sps, st.pps);
      Normal(ExtraData(Record(st.sps, st.pps)))
  }

  /** Short data, a bad version byte and overlong lengths are reported, and
      none of them changes the configuration. */
  lemma UnmarshalErrorsKeepFields(st: Fields, data: bytes, spsDecodes: bytes -> bool)
    ensures |data| < 11 ==> AfterUnmarshal(st, data, spsDecodes) == (Normal(Some(ErrExtraDataShort)), st)
    ensures |data| >= 11 && data[0] != 1 ==>
      AfterUnmarshal(st, data, spsDecodes) == (Normal(Some(ErrExtraDataInvalid)), st)
    ensures |data| >= 11 && data[0] == 1 && data[5] % 32 == 0 ==>
      AfterUnmarshal(st, data, spsDecodes) == (Normal(None), st)
    ensures |data| >= 11 && data[0] == 1 && data[5] % 32 != 0 && |data| <= 8 + U16At(data, 6) ==>
      AfterUnmarshal(st, data, spsDecodes) == (Normal(Some(ErrExtraDataNalu)), st)
  {
  }

  /** Reading a written record is `init` with the same SPS and PPS. */
  lemma UnmarshalRecord(st: Fields, sps: bytes, pps: bytes, spsDecodes: bytes -> bool)
    requires 4 <= |sps| < 0x1_0000 && 1 <= |pps| < 0x1_0000
    ensures AfterUnmarshal(st, Record(sps, pps), spsDecodes) == AfterInit(st, sps, pps, spsDecodes)
  {
    ParseRecord(sps, pps);
  }

  /** A configuration set up by `init` survives the round trip through its
      own extra data, whatever configuration reads it. */
  lemma MarshalUnmarshal(st: Fields, reader: Fields, spsDecodes: bytes -> bool)
    requires |st.sps| < 0x1_0000 && |st.pps| < 0x1_0000
    requires AfterInit(reader, st.sps, st.pps, spsDecodes) == (Normal(None), st)
    ensures Marshal(st).Normal? && Marshal(st).value.ExtraData?
    ensures AfterUnmarshal(reader, Marshal(st).value.data, spsDecodes) == (Normal(None), st)
  {
    UnmarshalRecord(reader, st.sps, st.pps, spsDecodes);
  }

  class Config {
    var sps: bytes
    var pps: bytes
    var profileId: int
    var profileComp: int
    var levelId: int

    function State(): Fields
      reads this
    {
      Fields(sps, pps, profileId, profileComp, levelId)
    }

    constructor ()
      ensures State() == Fields([], [], 0, 0, 0)
    {
      sps := [];
      pps := [];
      profileId := 0;
      profileComp := 0;
      levelId := 0;
    }

    method Init(sps: bytes, pps: bytes, spsDecodes: bytes -> bool) returns (r: Outcome)
      modifies this
      ensures (r, State()) == AfterInit(old(State()), sps, pps, spsDecodes)
    {
      if |sps| == 0 || |pps| == 0 {
        return Normal(Some(ErrInvalidSize));
      }
      if !spsDecodes(sps) {
        return Normal(Some(ErrSpsUnmarshalFailed));
      }
      this.sps := sps;
      this.pps := pps;
      if |sps| < 2 {
        return Panic;
      }
      profileId := sps[1];
      if |sps| < 3 {
        return Panic;
      }
      profileComp := sps[2];
      if |sps| < 4 {
        return Panic;
      }
      levelId := sps[3];
      return Normal(None);
    }

    method UnmarshalFromSpsPps(sps: bytes, pps: bytes, spsDecodes: bytes -> bool) returns (r: Outcome)
      modifies this
      ensures (r, State()) == AfterInit(old(State()), sps, pps, spsDecodes)
    {
      r := Init(sps, pps, spsDecodes);
    }

    method UnmarshalFromExtraData(extraData: bytes, spsDecodes: bytes -> bool) returns (r: Outcome)
      modifies this
      ensures (r, State()) == AfterUnmarshal(old(State()), extraData, spsDecodes)
    {
      var parsed := ReadRecord(extraData);
      match parsed
      case Panic => return Panic;
      case Normal(ExtraDataShort) => return Normal(Some(ErrExtraDataShort));
      case Normal(ExtraDataInvalid) => return Normal(Some(ErrExtraDataInvalid));
      case Normal(ExtraDataNalu) => return Normal(Some(ErrExtraDataNalu));
      case Normal(NoSps) => return Normal(None);
      case Normal(NoPps) => return Normal(None);
      case Normal(Units(spsNalUnit, ppsNalUnit)) =>
        r := Init(spsNalUnit, ppsNalUnit, spsDecodes);
    }

    method MarshalToExtraData() returns (r: Exit<Marshalled>)
      ensures r == Marshal(State())
    {
      if |sps| == 0 || |pps| == 0 {
        return Normal(NeedSpsPps);
      }
      if |sps| < 4 {
        return Panic;
      }
      var b := WriteRecord(sps, pps);
      return Normal(ExtraData(b[..]));
    }
  }
}
