/**
 * The adaptive layer selection of
 * `egress/sessions/whep/adaptivebitratestreaming.go`. A WHEP subscriber's
 * simulcast stream has spatial layers 0..2, named by the RTP stream id
 * ("rid") of each encoding, and temporal layers numbered by the codec's
 * temporal id. The handler learns the highest layers on offer, raises its
 * target one step at a time while the receiver reports no losses, and
 * forwards a packet only if it belongs to the current spatial layer (after
 * a switch that waits for a key frame) and to a temporal layer at or below
 * the target.
 */
module Abs {
  import opened Base
  import opened Types

  /** The spatial layer a rid names when it is offered: "1" and "2", and the
      base layer for anything else. */
  function RidLayer(rid: string): (l: int)
    ensures 0 <= l <= 2
    ensures l == 1 <==> rid == "1"
    ensures l == 2 <==> rid == "2"
  {
    if rid == "1" then 1 else if rid == "2" then 2 else 0
  }

  /** `isLayerMatch`: layer 0 is the rid "" or "0", layers 1 and 2 their own
      rid, and any other layer number matches every rid. */
  function IsLayerMatch(layer: int, rid: string): (b: bool)
    ensures layer == 0 ==> (b <==> rid == "" || rid == "0")
    ensures layer == 1 ==> (b <==> rid == "1")
    ensures layer == 2 ==> (b <==> rid == "2")
    ensures !(0 <= layer <= 2) ==> b
  {
    if layer == 0 then rid == "" || rid == "0"
    else if layer == 1 then rid == "1"
    else if layer == 2 then rid == "2"
    else true
  }

  /** Among the three layers a rid matches at most one, and it is the layer
      the rid names. */
  lemma MatchIsRidLayer(layer: int, rid: string)
    requires 0 <= layer <= 2 && IsLayerMatch(layer, rid)
    ensures RidLayer(rid) == layer
  {
  }

  /** `setCurrentSpatialLayer`: "1" is layer 1 and every other rid layer 2. */
  function SwitchLayer(rid: string): (l: int)
    ensures l == 1 <==> rid == "1"
    ensures l != 1 ==> l == 2
  {
    if rid == "1" then 1 else 2
  }

  /** The five layer counters. */
  datatype Layers = Layers(maxSpatial: int, targetSpatial: int, currentSpatial: int, maxTemporal: int, targetTemporal: int)

  const Initial := Layers(0, 0, 0, 0, 0)

  /** What the operations keep: each target within its maximum, the
      current spatial layer at most the target, and everything within the
      layers a rid or a `uint8` temporal id can name. */
  predicate Inv(l: Layers) {
    && 0 <= l.currentSpatial <= l.targetSpatial <= l.maxSpatial <= 2
    && 0 <= l.targetTemporal <= l.maxTemporal <= 255
  }

  /** `SetMaxSpatialLayer`: the maximum becomes the larger of itself and
      the layer the rid names. */
  function SetMaxSpatial(l: Layers, rid: string): (r: Layers)
    ensures r.maxSpatial >= l.maxSpatial && r.maxSpatial >= RidLayer(rid)
    ensures r.maxSpatial == l.maxSpatial || r.maxSpatial == RidLayer(rid)
    ensures r.(maxSpatial := l.maxSpatial) == l
    ensures Inv(l) ==> Inv(r)
  {
    var m := RidLayer(rid);
    if l.maxSpatial < m then l.(maxSpatial := m) else l
  }

  /** `SetMaxTemporalLayer`: likewise for the temporal maximum. */
  function SetMaxTemporal(l: Layers, tid: byte): (r: Layers)
    ensures r.maxTemporal >= l.maxTemporal && r.maxTemporal >= tid
    ensures r.maxTemporal == l.maxTemporal || r.maxTemporal == tid
    ensures r.(maxTemporal := l.maxTemporal) == l
    ensures Inv(l) ==> Inv(r)
  {
    if l.maxTemporal < tid then l.(maxTemporal := tid) else l
  }

  /** `upgradeLayer`: one temporal step if there is one; otherwise one
      spatial step, which starts the temporal layers again from 0;
      otherwise nothing. */
  function Upgrade(l: Layers): (r: Layers)
    ensures l.targetTemporal < l.maxTemporal ==> r == l.(targetTemporal := l.targetTemporal + 1)
    ensures l.targetTemporal >= l.maxTemporal && l.targetSpatial < l.maxSpatial ==>
      r == l.(targetSpatial := l.targetSpatial + 1, maxTemporal := 0, targetTemporal := 0)
    ensures l.targetTemporal >= l.maxTemporal && l.targetSpatial >= l.maxSpatial ==> r == l
    ensures Inv(l) ==> Inv(r)
  {
    if l.targetTemporal < l.maxTemporal then l.(targetTemporal := l.targetTemporal + 1)
    else if l.targetSpatial >= l.maxSpatial then l
    else l.(targetSpatial := l.targetSpatial + 1, maxTemporal := 0, targetTemporal := 0)
  }

  /** Every upgrade that changes anything raises the pair of targets in
      lexicographic order, spatial first; an upgrade changes nothing
      exactly when both targets are at their maximum. */
  lemma UpgradeProgress(l: Layers)
    requires Inv(l)
    ensures Upgrade(l) == l <==> l.targetTemporal == l.maxTemporal && l.targetSpatial == l.maxSpatial
    ensures Upgrade(l) != l ==>
      Upgrade(l).targetSpatial > l.targetSpatial
      || (Upgrade(l).targetSpatial == l.targetSpatial && Upgrade(l).targetTemporal > l.targetTemporal)
  {
  }

  /** `n` upgrades in a row. */
  function Upgrades(l: Layers, n: nat): (r: Layers)
    decreases n
  {
    if n == 0 then l else Upgrades(Upgrade(l), n - 1)
  }

  /** Upgrades never lower the spatial target and never touch the spatial
      maximum or the current layer. */
  lemma {:induction false} UpgradesMonotone(l: Layers, n: nat)
    requires Inv(l)
    ensures var r := Upgrades(l, n);
      && Inv(r) && r.targetSpatial >= l.targetSpatial
      && r.maxSpatial == l.maxSpatial && r.currentSpatial == l.currentSpatial
    decreases n
  {
    if n > 0 {
      UpgradesMonotone(Upgrade(l), n - 1);
    }
  }

  /** `CanSendSpatialLayer` for a unit of the encoding `rid`, with the
      unit's key-frame flag. */
  function CanSendSpatial(l: Layers, rid: string, flag: int): (r: (Layers, bool))
    ensures IsLayerMatch(l.currentSpatial, rid) ==> r == (l, true)
    ensures !IsLayerMatch(l.currentSpatial, rid) && !(IsLayerMatch(l.targetSpatial, rid) && flag == 1) ==> r == (l, false)
    ensures Inv(l) ==> Inv(r.0)
  {
    if IsLayerMatch(l.currentSpatial, rid) then (l, true)
    else if IsLayerMatch(l.targetSpatial, rid) && flag == 1 then
      (SetMaxTemporal(l, 0).(currentSpatial := SwitchLayer(rid)), true)
    else (l, false)
  }

  /** A switch happens only on a key frame of the target layer, and it
      makes the target the current layer. */
  lemma SwitchOnKeyFrame(l: Layers, rid: string, flag: int)
    requires Inv(l)
    ensures var r := CanSendSpatial(l, rid, flag);
      r.0.currentSpatial != l.currentSpatial ==>
        flag == 1 && r.1 && r.0.currentSpatial == l.targetSpatial && RidLayer(rid) == l.targetSpatial
  {
  }

  /** `isTragetTemporalLayer`. */
  function IsTargetTemporal(l: Layers, tid: byte): (b: bool)
    ensures b <==> tid <= l.targetTemporal
  {
    l.targetTemporal >= tid
  }

  /** What `header.Unmarshal` of the unit's payload gives, for AV1. */
  datatype Av1Header = Av1HeaderError | Av1Header(hasExtensionFlag: bool, temporalId: byte)

  /** `CanSendTemporalLayer` for a unit of `codec`. `vp8Tid` is the TID of
      the unit's VP8 payload descriptor, absent when the unit carries no
      VP8 descriptor; `av1` is the unit's parsed OBU header. */
  function CanSendTemporal(l: Layers, codec: CodecType, vp8Tid: Option<byte>, av1: Av1Header): (r: (Layers, bool))
    ensures codec == CodecTypeVP8 && vp8Tid.Some? ==> r == (SetMaxTemporal(l, vp8Tid.value), vp8Tid.value <= l.targetTemporal)
    ensures codec == CodecTypeAV1 && av1.Av1HeaderError? ==> r == (l, false)
    ensures codec == CodecTypeAV1 && av1.Av1Header? && av1.hasExtensionFlag ==>
      r == (SetMaxTemporal(l, av1.temporalId), av1.temporalId <= l.targetTemporal)
    ensures || (codec != CodecTypeVP8 && codec != CodecTypeAV1)
            || (codec == CodecTypeVP8 && vp8Tid.None?)
            || (codec == CodecTypeAV1 && av1.Av1Header? && !av1.hasExtensionFlag)
            ==> r == (l, true)
    ensures Inv(l) ==> Inv(r.0)
  {
    match codec
    case CodecTypeVP8 =>
      if vp8Tid.None? then (l, true)
      else
        var l' := SetMaxTemporal(l, vp8Tid.value);
        (l', IsTargetTemporal(l', vp8Tid.value))
    case CodecTypeAV1 =>
      if av1.Av1HeaderError? then (l, false)
      else if !av1.hasExtensionFlag then (l, true)
      else
        var l' := SetMaxTemporal(l, av1.temporalId);
        (l', IsTargetTemporal(l', av1.temporalId))
    case _ => (l, true)
  }

  /** The loop variables of `Run`. */
  datatype TickState = TickState(prevSendCount: u32, prevNackCount: u32, noNackDuration: int)

  const StartTick := TickState(0, 0, 0)

  /** One tick of `Run` with the sender's packet and NACK counters: it
      asks for an upgrade after more than five ticks in a row that sent
      packets and got no NACK. The counters are `uint32` and differences
      wrap, so "sent packets" is "the counter moved". */
  function Tick(t: TickState, sendCount: u32, nackCount: u32): (r: (TickState, bool))
    ensures r.0.prevSendCount == sendCount && r.0.prevNackCount == nackCount
    ensures var quiet := nackCount == t.prevNackCount && sendCount != t.prevSendCount;
      && (r.1 <==> quiet && t.noNackDuration >= 5)
      && r.0.noNackDuration == (if quiet && t.noNackDuration < 5 then t.noNackDuration + 1 else 0)
  {
    var sendCountPerInterval := Sub32(sendCount, t.prevSendCount);
    var nackCountPerInterval := Sub32(nackCount, t.prevNackCount);
    var noNackDuration := if nackCountPerInterval == 0 && sendCountPerInterval > 0 then t.noNackDuration + 1 else 0;
    if noNackDuration > 5 then (TickState(sendCount, nackCount, 0), true)
    else (TickState(sendCount, nackCount, noNackDuration), false)
  }

  /** A run of ticks over the counter samples: the layers and the loop
      variables afterwards. */
  function Ticks(l: Layers, t: TickState, samples: seq<(u32, u32)>): (Layers, TickState)
    decreases |samples|
  {
    if |samples| == 0 then (l, t)
    else
      var step := Tick(t, samples[0].0, samples[0].1);
      Ticks(if step.1 then Upgrade(l) else l, step.0, samples[1..])
  }

  /** How many ticks of the run ask for an upgrade. */
  function UpgradeCount(t: TickState, samples: seq<(u32, u32)>): nat
    decreases |samples|
  {
    if |samples| == 0 then 0
    else
      var step := Tick(t, samples[0].0, samples[0].1);
      (if step.1 then 1 else 0) + UpgradeCount(step.0, samples[1..])
  }

  /** A run changes the layers only by upgrading them, once per tick that
      asked. */
  lemma {:induction false} TicksUpgrade(l: Layers, t: TickState, samples: seq<(u32, u32)>)
    ensures Ticks(l, t, samples).0 == Upgrades(l, UpgradeCount(t, samples))
    decreases |samples|
  {
    if |samples| > 0 {
      var step := Tick(t, samples[0].0, samples[0].1);
      TicksUpgrade(if step.1 then Upgrade(l) else l, step.0, samples[1..]);
    }
  }

  /** Samples in which packets are sent at every tick and no NACK ever
      arrives after the counters `t` last saw. */
  predicate Quiet(t: TickState, samples: seq<(u32, u32)>)
    decreases |samples|
  {
    |samples| == 0
    || (samples[0].1 == t.prevNackCount && samples[0].0 != t.prevSendCount
        && Quiet(Tick(t, samples[0].0, samples[0].1).0, samples[1..]))
  }

  /** Over quiet ticks the handler upgrades once every six ticks. */
  lemma {:induction false} QuietUpgrades(t: TickState, samples: seq<(u32, u32)>)
    requires 0 <= t.noNackDuration <= 5 && Quiet(t, samples)
    ensures UpgradeCount(t, samples) == (t.noNackDuration + |samples|) / 6
    decreases |samples|
  {
    if |samples| > 0 {
      var step := Tick(t, samples[0].0, samples[0].1);
      QuietUpgrades(step.0, samples[1..]);
    }
  }

  class AbsHandler {
    var maxSpatialLayer: int
    var targetSpatialLayer: int
    var currentSpatialLayer: int
    var maxTemporalLayer: int
    var targetTemporalLayer: int

    function LayersOf(): Layers
      reads this
    {
      Layers(maxSpatialLayer, targetSpatialLayer, currentSpatialLayer, maxTemporalLayer, targetTemporalLayer)
    }

    ghost predicate Valid()
      reads this
    {
      Inv(LayersOf())
    }

    /** `NewABSHandler`: every counter at zero. */
    constructor ()
      ensures Valid() && LayersOf() == Initial
    {
      maxSpatialLayer, targetSpatialLayer, currentSpatialLayer := 0, 0, 0;
      maxTemporalLayer, targetTemporalLayer := 0, 0;
    }

    method SetMaxSpatialLayer(rid: string)
      requires Valid()
      modifies this
      ensures Valid() && LayersOf() == SetMaxSpatial(old(LayersOf()), rid)
    {
      var layer := 0;
      if rid == "1" {
        layer := 1;
      } else if rid == "2" {
        layer := 2;
      }
      if maxSpatialLayer < layer {
        maxSpatialLayer := layer;
      }
    }

    method SetMaxTemporalLayer(tid: byte)
      requires Valid()
      modifies this
      ensures Valid() && LayersOf() == SetMaxTemporal(old(LayersOf()), tid)
    {
      if maxTemporalLayer < tid {
        maxTemporalLayer := tid;
      }
    }

    method UpgradeLayer()
      requires Valid()
      modifies this
      ensures Valid() && LayersOf() == Upgrade(old(LayersOf()))
    {
      if targetTemporalLayer < maxTemporalLayer {
        targetTemporalLayer := targetTemporalLayer + 1;
        return;
      }
      if targetSpatialLayer >= maxSpatialLayer {
        return;
      }
      targetSpatialLayer := targetSpatialLayer + 1;
      maxTemporalLayer := 0;
      targetTemporalLayer := 0;
    }

    method CanSendSpatialLayer(rid: string, flag: int) returns (b: bool)
      requires Valid()
      modifies this
      ensures Valid() && (LayersOf(), b) == CanSendSpatial(old(LayersOf()), rid, flag)
    {
      if IsLayerMatch(currentSpatialLayer, rid) {
        return true;
      }
      if IsLayerMatch(targetSpatialLayer, rid) && flag == 1 {
        SetMaxTemporalLayer(0);
        currentSpatialLayer := SwitchLayer(rid);
        return true;
      }
      return false;
    }

    method CanSendTemporalLayer(codec: CodecType, vp8Tid: Option<byte>, av1: Av1Header) returns (b: bool)
      requires Valid()
      modifies this
      ensures Valid() && (LayersOf(), b) == CanSendTemporal(old(LayersOf()), codec, vp8Tid, av1)
    {
      match codec {
        case CodecTypeVP8 =>
          if vp8Tid.None? {
            return true;
          }
          SetMaxTemporalLayer(vp8Tid.value);
          return targetTemporalLayer >= vp8Tid.value;
        case CodecTypeAV1 =>
          if av1.Av1HeaderError? {
            return false;
          }
          if !av1.hasExtensionFlag {
            return true;
          }
          SetMaxTemporalLayer(av1.temporalId);
          return targetTemporalLayer >= av1.temporalId;
        case _ =>
          return true;
      }
    }

    /** `Run` over the successive readings of the sender's counters, one per
        tick. */
    method Run(samples: seq<(u32, u32)>)
      requires Valid()
      modifies this
      ensures Valid() && LayersOf() == Ticks(old(LayersOf()), StartTick, samples).0
    {
      var prevSendCount: u32 := 0;
      var prevNackCount: u32 := 0;
      var noNackDuration := 0;
      var i := 0;
      while i < |samples|
        invariant 0 <= i <= |samples| && Valid()
        invariant Ticks(LayersOf(), TickState(prevSendCount, prevNackCount, noNackDuration), samples[i..])
          == Ticks(old(LayersOf()), StartTick, samples)
      {
        var (sendCount, nackCount) := samples[i];
        var sendCountPerInterval := Sub32(sendCount, prevSendCount);
        var nackCountPerInterval := Sub32(nackCount, prevNackCount);
        prevSendCount := sendCount;
        prevNackCount := nackCount;
        if nackCountPerInterval == 0 && sendCountPerInterval > 0 {
          noNackDuration := noNackDuration + 1;
        } else {
          noNackDuration := 0;
        }
        if noNackDuration > 5 {
          UpgradeLayer();
          noNackDuration := 0;
        }
        assert samples[i..][1..] == samples[i + 1..];
        i := i + 1;
      }
    }
  }
}
