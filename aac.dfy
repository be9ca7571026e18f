/**
 * `AACConfig.ParseAACAudioSpecificConfig` of `parsers/format/aac.go`: the
 * first two bytes of an AudioSpecificConfig (ISO/IEC 14496-3 section
 * 1.6.2.1) hold a 5-bit profile index, a 4-bit sampling-frequency index and
 * a 4-bit channel configuration. Only the first four profiles and the
 * thirteen listed sampling rates are accepted.
 */
module Aac {
  import opened Base

  const SamplingRates: seq<nat> := [96000, 88200, 64000, 48000, 44100, 32000, 24000, 22050, 16000, 12000, 11025, 8000, 7350]

  const Profiles: seq<string> := ["AAC Main", "AAC LC (Low Complexity)", "AAC SSR (Scalable Sample Rate)", "AAC LTP (Long Term Prediction)"]

  datatype AacConfig = AacConfig(profile: string, samplingRate: nat, channel: nat)

  datatype AacError = ShortData | UnknownProfile(index: nat) | UnknownSamplingRate(index: nat)

  /** The top five bits of byte 0. */
  function ProfileIndex(b0: byte): nat {
    b0 / 8
  }

  /** Bits 2..0 of byte 0 followed by bit 7 of byte 1. */
  function SamplingIndex(b0: byte, b1: byte): nat {
    (b0 % 8) * 2 + b1 / 128
  }

  /** `(data[1] & 0x78) >> 3`. */
  function ChannelConfig(b1: byte): nat {
    (b1 % 128) / 8
  }

  /** The call on a configuration: the error, if any, and the configuration
      afterwards, which an error leaves as it was. */
  function ParseAudioSpecificConfig(st: AacConfig, data: bytes): (r: (Option<AacError>, AacConfig))
    ensures r.0.Some? ==> r.1 == st
    ensures r.0 == Some(ShortData) <==> |data| < 2
    ensures r.0.None? <==> |data| >= 2 && ProfileIndex(data[0]) < 4 && SamplingIndex(data[0], data[1]) < 13
    ensures r.0.None? ==> r.1 == AacConfig(Profiles[data[0] / 8], SamplingRates[SamplingIndex(data[0], data[1])], ChannelConfig(data[1]))
    ensures r.0.None? ==> r.1.channel < 16
  {
    if |data| < 2 then (Some(ShortData), st)
    else
      var profileIndex := ProfileIndex(data[0]);
      if profileIndex >= |Profiles| then (Some(UnknownProfile(profileIndex)), st)
      else
        var samplingIndex := SamplingIndex(data[0], data[1]);
        if samplingIndex >= |SamplingRates| then (Some(UnknownSamplingRate(samplingIndex)), st)
        else (None, AacConfig(Profiles[profileIndex], SamplingRates[samplingIndex], ChannelConfig(data[1])))
  }

  /** The two leading bytes of an AudioSpecificConfig with the given fields;
      `low` is what follows in the low three bits of byte 1. */
  function AscBytes(profileIndex: nat, samplingIndex: nat, channel: nat, low: nat): bytes
    requires profileIndex < 32 && samplingIndex < 16 && channel < 16 && low < 8
  {
    [profileIndex * 8 + samplingIndex / 2, (samplingIndex % 2) * 128 + channel * 8 + low]
  }

  /** The fields are read back from where the standard puts them. */
  lemma ParseAscBytes(st: AacConfig, profileIndex: nat, samplingIndex: nat, channel: nat, low: nat, rest: bytes)
    requires profileIndex < 4 && samplingIndex < 13 && channel < 16 && low < 8
    ensures ParseAudioSpecificConfig(st, AscBytes(profileIndex, samplingIndex, channel, low) + rest)
      == (None, AacConfig(Profiles[profileIndex], SamplingRates[samplingIndex], channel))
  {
    var d := AscBytes(profileIndex, samplingIndex, channel, low) + rest;
    assert d[0] == profileIndex * 8 + samplingIndex / 2 && d[1] == (samplingIndex % 2) * 128 + channel * 8 + low;
    assert ProfileIndex(d[0]) == profileIndex;
    assert SamplingIndex(d[0], d[1]) == samplingIndex;
    assert ChannelConfig(d[1]) == channel;
  }

  /** An out-of-range profile or sampling index is reported as such. */
  lemma ParseAscRejects(st: AacConfig, profileIndex: nat, samplingIndex: nat, channel: nat, low: nat)
    requires profileIndex < 32 && samplingIndex < 16 && channel < 16 && low < 8
    ensures var d := AscBytes(profileIndex, samplingIndex, channel, low);
      && (profileIndex >= 4 ==> ParseAudioSpecificConfig(st, d) == (Some(UnknownProfile(profileIndex)), st))
      && (profileIndex < 4 && samplingIndex >= 13 ==>
            ParseAudioSpecificConfig(st, d) == (Some(UnknownSamplingRate(samplingIndex)), st))
  {
    var d := AscBytes(profileIndex, samplingIndex, channel, low);
    assert ProfileIndex(d[0]) == profileIndex;
    assert SamplingIndex(d[0], d[1]) == samplingIndex;
  }
}
