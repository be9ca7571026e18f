/**
 * The H.264 RTP depacketiser of `codecs/h264/rtpparser.go` (RFC 6184): a
 * payload carries a single NAL unit, a STAP-A aggregation of NAL units each
 * behind a 16-bit size (section 5.7.1), or one FU-A fragment of a NAL unit
 * (section 5.8). `Parse` then drops SEI, access unit delimiters and filler
 * data, holds SPS and PPS units back, and reports a new SPS/PPS pair to the
 * codec callback, which is an output of the model.
 */
module H264Rtp {
  import opened Base
  import H264Config

  // ---------------------------------------------------------------------
  // STAP-A

  /** How the STAP-A loop ends: with its units, on a declared size that runs
      past the payload (the source returns nil), or on a single byte where a
      size should be (`binary.BigEndian.Uint16` panics). */
  datatype Stap = StapUnits(units: seq<bytes>) | Overrun | ShortSize

  /** The STAP-A loop from offset `off`. */
  function StapFrom(p: bytes, off: nat): Stap
    requires off <= |p|
    decreases |p| - off
  {
    if off == |p| then StapUnits([])
    else if off + 2 > |p| then ShortSize
    else
      var n := U16At(p, off);
      if |p| < off + 2 + n then Overrun
      else StapPrepend([p[off + 2..off + 2 + n]], StapFrom(p, off + 2 + n))
  }

  function StapPrepend(xs: seq<bytes>, s: Stap): Stap {
    match s
    case StapUnits(us) => StapUnits(xs + us)
    case _ => s
  }

  lemma StapPrependTwice(xs: seq<bytes>, ys: seq<bytes>, s: Stap)
    ensures StapPrepend(xs, StapPrepend(ys, s)) == StapPrepend(xs + ys, s)
  {
    if s.StapUnits? {
      assert xs + (ys + s.units) == xs + ys + s.units;
    }
  }

  /** The aggregation the STAP-A loop reads: each unit behind its 16-bit
      big-endian size. */
  function Aggregate(units: seq<bytes>): bytes {
    if |units| == 0 then [] else U16Bytes(|units[0]|) + units[0] + Aggregate(units[1..])
  }

  predicate Fits16(units: seq<bytes>) {
    forall i :: 0 <= i < |units| ==> |units[i]| < 0x1_0000
  }

  /** The first unit of an aggregation and what follows it. */
  lemma AggregateHead(p: bytes, off: nat, units: seq<bytes>)
    requires off <= |p| && p[off..] == Aggregate(units) && |units| > 0 && |units[0]| < 0x1_0000
    ensures off + 2 + |units[0]| <= |p| && U16At(p, off) == |units[0]|
    ensures p[off + 2..off + 2 + |units[0]|] == units[0] && p[off + 2 + |units[0]|..] == Aggregate(units[1..])
  {
    var u := units[0];
    var n := |u|;
    var tail := p[off..];
    assert tail == U16Bytes(n) + (u + Aggregate(units[1..]));
    assert p[off] == tail[0] && p[off + 1] == tail[1];
    assert U16At(p, off) == U16At(U16Bytes(n), 0);
    assert p[off + 2..off + 2 + n] == tail[2..2 + n];
    assert p[off + 2 + n..] == tail[2 + n..];
  }

  /** Reading an aggregation gives back its units. */
  lemma {:induction false} StapAggregate(p: bytes, off: nat, units: seq<bytes>)
    requires off <= |p| && p[off..] == Aggregate(units) && Fits16(units)
    ensures StapFrom(p, off) == StapUnits(units)
    decreases |units|
  {
    if |units| == 0 {
      assert |p[off..]| == 0;
    } else {
      var n := |units[0]|;
      AggregateHead(p, off, units);
      assert Fits16(units[1..]) by {
        forall i | 0 <= i < |units| - 1 ensures |units[1..][i]| < 0x1_0000 {
          assert units[1..][i] == units[i + 1];
        }
      }
      StapAggregate(p, off + 2 + n, units[1..]);
      assert [units[0]] + units[1..] == units;
    }
  }

  /** Conversely, units read without error are consecutive size-prefixed
      slices covering the rest of the payload. */
  lemma {:induction false} StapCovers(p: bytes, off: nat)
    requires off <= |p| && StapFrom(p, off).StapUnits?
    ensures Aggregate(StapFrom(p, off).units) == p[off..] && Fits16(StapFrom(p, off).units)
    decreases |p| - off
  {
    if off < |p| {
      var n := U16At(p, off);
      var rest := StapFrom(p, off + 2 + n);
      StapCovers(p, off + 2 + n);
      assert StapFrom(p, off).units == [p[off + 2..off + 2 + n]] + rest.units;
      AggregateCons(p, off, rest.units);
    }
  }

  /** One more size-prefixed unit in front of an aggregation. */
  lemma AggregateCons(p: bytes, off: nat, rest: seq<bytes>)
    requires off + 2 <= |p| && off + 2 + U16At(p, off) <= |p|
    requires Aggregate(rest) == p[off + 2 + U16At(p, off)..] && Fits16(rest)
    ensures var units := [p[off + 2..off + 2 + U16At(p, off)]] + rest;
      Aggregate(units) == p[off..] && Fits16(units)
  {
    var n := U16At(p, off);
    var u := p[off + 2..off + 2 + n];
    var units := [u] + rest;
    assert units[1..] == rest;
    assert U16Bytes(n) == p[off..off + 2];
    assert p[off..] == p[off..off + 2] + u + p[off + 2 + n..];
    forall i | 0 <= i < |units| ensures |units[i]| < 0x1_0000 {
      if i > 0 {
        assert units[i] == rest[i - 1];
      }
    }
  }

  // ---------------------------------------------------------------------
  // FU-A

  /** One FU-A packet (`|p| >= 1`, type 28) against the fragments collected
      so far: the units it completes and the new fragments. A start packet
      rebuilds the NAL header from the indicator's F and NRI bits and the FU
      type and starts over; a middle or end packet appends only to a started
      unit; the end bit hands the unit out. The fragments are not cleared
      after the end. An FU of filler type is ignored. */
  function FuA(fragments: bytes, p: bytes): (r: (seq<bytes>, bytes))
    ensures |p| < 2 || p[1] % 32 == NalFillerData ==> r == ([], fragments)
    ensures |p| >= 2 && p[1] % 32 != NalFillerData && p[1] / 128 == 1 ==>
      r.1 == [(p[0] / 32) * 32 + p[1] % 32] + p[2..]
    ensures |p| >= 2 && p[1] / 128 == 0 && |fragments| == 0 ==> r == ([], [])
    ensures |r.0| <= 1 && (|r.0| == 1 <==> |p| >= 2 && p[1] % 32 != NalFillerData && (p[1] / 64) % 2 == 1 && |r.1| > 0)
    ensures |r.0| == 1 ==> r.0[0] == r.1
  {
    if |p| < 2 then ([], fragments)
    else
      var fuType := p[1] % 32;
      if fuType == NalFillerData then ([], fragments)
      else
        var frags :=
          if p[1] / 128 == 1 then [(p[0] / 32) * 32 + fuType] + p[2..]
          else if |fragments| > 0 then fragments + p[2..]
          else fragments;
        (if (p[1] / 64) % 2 == 1 && |frags| > 0 then [frags] else [], frags)
  }

  /** The FU-A packet carrying `chunk` of a NAL unit with header `h`. */
  function FuPacket(h: byte, chunk: bytes, start: bool, end: bool): (p: bytes)
    ensures |p| >= 2 && p[0] % 32 == NalFuA
  {
    [(h / 32) * 32 + NalFuA, (if start then 128 else 0) + (if end then 64 else 0) + h % 32] + chunk
  }

  /** A NAL unit `[h] + Flatten(chunks)` cut into FU-A packets: a start
      packet, middle packets and an end packet. */
  function FuPackets(h: byte, chunks: seq<bytes>): seq<bytes>
    requires |chunks| >= 2
  {
    [FuPacket(h, chunks[0], true, false)] + MiddleThenEnd(h, chunks[1..])
  }

  function MiddleThenEnd(h: byte, chunks: seq<bytes>): seq<bytes>
    requires |chunks| >= 1
  {
    if |chunks| == 1 then [FuPacket(h, chunks[0], false, true)]
    else [FuPacket(h, chunks[0], false, false)] + MiddleThenEnd(h, chunks[1..])
  }

  /** Feeding FU-A packets one by one: every unit handed out, and the final
      fragments. */
  function Reassemble(fragments: bytes, ps: seq<bytes>): (bytes, seq<bytes>)
    decreases |ps|
  {
    if |ps| == 0 then (fragments, [])
    else
      var (out, next) := FuA(fragments, ps[0]);
      var (last, more) := Reassemble(next, ps[1..]);
      (last, out + more)
  }

  lemma {:induction false} MiddleThenEndFeeds(fragments: bytes, h: byte, chunks: seq<bytes>)
    requires |fragments| > 0 && |chunks| >= 1 && h % 32 != NalFillerData
    ensures Reassemble(fragments, MiddleThenEnd(h, chunks)) == (fragments + Flatten(chunks), [fragments + Flatten(chunks)])
    decreases |chunks|
  {
    var c := chunks[0];
    var p := FuPacket(h, c, false, |chunks| == 1);
    assert p[2..] == c;
    assert FuA(fragments, p).1 == fragments + c;
    if |chunks| == 1 {
      assert Flatten(chunks) == c + Flatten([]);
      assert FuA(fragments, p) == ([fragments + c], fragments + c);
      assert MiddleThenEnd(h, chunks) == [p];
      var none: seq<bytes> := [];
      assert [p][1..] == none;
      assert Reassemble(fragments + c, none) == (fragments + c, none);
      assert Reassemble(fragments, [p]) == (fragments + c, [fragments + c] + none);
      assert [fragments + c] + none == [fragments + c];
      assert fragments + Flatten(chunks) == fragments + c;
    } else {
      var ps := MiddleThenEnd(h, chunks);
      assert ps[0] == p && ps[1..] == MiddleThenEnd(h, chunks[1..]);
      assert FuA(fragments, p) == ([], fragments + c);
      MiddleThenEndFeeds(fragments + c, h, chunks[1..]);
      var rest := Reassemble(fragments + c, ps[1..]);
      assert Reassemble(fragments, ps) == (rest.0, [] + rest.1);
      assert [] + rest.1 == rest.1;
      assert Flatten(chunks) == c + Flatten(chunks[1..]);
      assert rest.0 == fragments + c + Flatten(chunks[1..]);
      assert fragments + c + Flatten(chunks[1..]) == fragments + Flatten(chunks);
    }
  }

  /** FU-A round trip: whatever fragments were pending before, the packets of
      a NAL unit (not of filler type) hand out exactly that unit, once, at
      the end packet. */
  lemma FuRoundTrip(fragments: bytes, h: byte, chunks: seq<bytes>)
    requires |chunks| >= 2 && h % 32 != NalFillerData
    ensures Reassemble(fragments, FuPackets(h, chunks)).1 == [[h] + Flatten(chunks)]
  {
    var started := [h] + chunks[0];
    FuStart(fragments, h, chunks[0]);
    var ps := FuPackets(h, chunks);
    assert ps[1..] == MiddleThenEnd(h, chunks[1..]);
    MiddleThenEndFeeds(started, h, chunks[1..]);
    var rest := Reassemble(started, ps[1..]);
    assert Reassemble(fragments, ps).1 == [] + rest.1;
    assert Flatten(chunks) == chunks[0] + Flatten(chunks[1..]);
    assert started + Flatten(chunks[1..]) == [h] + Flatten(chunks);
  }

  /** A start packet drops whatever was pending and begins the unit. */
  lemma FuStart(fragments: bytes, h: byte, c: bytes)
    requires h % 32 != NalFillerData
    ensures FuA(fragments, FuPacket(h, c, true, false)) == ([], [h] + c)
  {
    var p := FuPacket(h, c, true, false);
    assert p[2..] == c;
    assert (p[0] / 32) * 32 + p[1] % 32 == h;
  }

  // ---------------------------------------------------------------------
  // parse

  /** `parse`: the NAL units of one RTP payload and the new fragments. An
      empty payload gives none; NAL types 0, 25-27 and 29-31 panic. */
  function Depacketize(fragments: bytes, p: bytes): (r: Exit<(seq<bytes>, bytes)>)
    ensures |p| == 0 ==> r == Normal(([], fragments))
    ensures |p| >= 1 && 1 <= p[0] % 32 <= 23 ==> r == Normal(([p], fragments))
    ensures |p| >= 1 && p[0] % 32 == NalStapA && StapFrom(p, 1).Overrun? ==> r == Normal(([], fragments))
    ensures |p| >= 1 && p[0] % 32 == NalFuA ==> r == Normal(FuA(fragments, p))
    ensures r.Panic? <==>
      |p| >= 1 && (p[0] % 32 == 0 || 25 <= p[0] % 32 <= 27 || p[0] % 32 >= 29
        || (p[0] % 32 == NalStapA && StapFrom(p, 1).ShortSize?))
  {
    if |p| == 0 then Normal(([], fragments))
    else
      var t := p[0] % 32;
      if 1 <= t <= 23 then Normal(([p], fragments))
      else if t == NalStapA then
        match StapFrom(p, 1)
        case StapUnits(us) => Normal((us, fragments))
        case Overrun => Normal(([], fragments))
        case ShortSize => Panic
      else if t == NalFuA then Normal(FuA(fragments, p))
      else Panic
  }

  /** A STAP-A packet of units that fit 16-bit sizes gives back the units. */
  lemma StapRoundTrip(header: byte, fragments: bytes, units: seq<bytes>)
    requires header % 32 == NalStapA && Fits16(units)
    ensures Depacketize(fragments, [header] + Aggregate(units)) == Normal((units, fragments))
  {
    var p := [header] + Aggregate(units);
    assert p[1..] == Aggregate(units);
    StapAggregate(p, 1, units);
  }

  // ---------------------------------------------------------------------
  // Parse

  /** What the loop of `Parse` keeps: the units passed on, the frame flag and
      the pending SPS and PPS. */
  datatype Latched = Latched(payloads: seq<bytes>, flag: nat, spsTemp: bytes, ppsTemp: bytes)

  /** SEI, access unit delimiters and filler data are dropped; an SPS becomes
      the pending SPS and clears the pending PPS; a PPS becomes the pending
      PPS; an IDR sets the flag; everything but those is passed on. An empty
      unit makes `payload[0]` panic. */
  function LatchUnit(l: Latched, u: bytes): (r: Exit<Latched>)
    ensures r.Panic? <==> |u| == 0
    ensures r.Normal? && NalType(u[0]) == NalSps ==> r.value.spsTemp == u && r.value.ppsTemp == []
    ensures r.Normal? && NalType(u[0]) == NalPps ==> r.value.spsTemp == l.spsTemp && r.value.ppsTemp == u
    ensures r.Normal? && NalType(u[0]) != NalSps && NalType(u[0]) != NalPps ==>
      r.value.spsTemp == l.spsTemp && r.value.ppsTemp == l.ppsTemp
    ensures r.Normal? ==> r.value.payloads == l.payloads + (if Forwarded(u) then [u] else [])
    ensures r.Normal? ==> r.value.flag == (if NalType(u[0]) == NalIdr then 1 else l.flag)
  {
    if |u| == 0 then Panic
    else
      var t := NalType(u[0]);
      if t == NalSei || t == NalAccessUnitDelimiter || t == NalFillerData then Normal(l)
      else if t == NalSps then Normal(l.(spsTemp := u, ppsTemp := []))
      else if t == NalPps then Normal(l.(ppsTemp := u))
      else if t == NalIdr then Normal(l.(flag := 1, payloads := l.payloads + [u]))
      else Normal(l.(payloads := l.payloads + [u]))
  }

  /** The units `Parse` passes on. */
  predicate Forwarded(u: bytes) {
    |u| > 0 &&
    var t := NalType(u[0]);
    t != NalSei && t != NalAccessUnitDelimiter && t != NalFillerData && t != NalSps && t != NalPps
  }

  /** The loop over the units, in order. */
  function Latch(l: Latched, us: seq<bytes>): Exit<Latched>
    decreases |us|
  {
    if |us| == 0 then Normal(l)
    else
      match Latch(l, us[..|us| - 1])
      case Panic => Panic
      case Normal(m) => LatchUnit(m, us[|us| - 1])
  }

  lemma LatchPrefix(l: Latched, us: seq<bytes>, i: nat)
    requires i < |us|
    ensures Latch(l, us[..i + 1]) ==
      match Latch(l, us[..i])
      case Panic => Panic
      case Normal(m) => LatchUnit(m, us[i])
  {
    assert us[..i + 1][..i] == us[..i];
  }

  /** The units of `us` that `Parse` passes on, in their order. */
  function ForwardedUnits(us: seq<bytes>): seq<bytes>
    decreases |us|
  {
    if |us| == 0 then []
    else ForwardedUnits(us[..|us| - 1]) + (if Forwarded(us[|us| - 1]) then [us[|us| - 1]] else [])
  }

  /** The forwarded units are the units of `us` that `Forwarded` accepts,
      and nothing else. */
  lemma {:induction false} ForwardedMembers(us: seq<bytes>, u: bytes)
    ensures u in ForwardedUnits(us) <==> u in us && Forwarded(u)
    decreases |us|
  {
    if |us| > 0 {
      var init := us[..|us| - 1];
      ForwardedMembers(init, u);
      assert us == init + [us[|us| - 1]];
    }
  }

  /** What the loop has done after the units `us`: exactly the forwarded
      ones are passed on, in order and each as often as it occurs, and the
      flag is set iff one of them is an IDR. */
  ghost predicate LatchedFrom(us: seq<bytes>, l: Latched) {
    && l.payloads == ForwardedUnits(us)
    && (l.flag == 1 <==> exists u :: u in l.payloads && |u| > 0 && NalType(u[0]) == NalIdr)
    && (l.flag == 0 || l.flag == 1)
  }

  lemma LatchedStep(us: seq<bytes>, m: Latched, u: bytes)
    requires LatchedFrom(us, m) && |u| > 0
    ensures LatchUnit(m, u).Normal? && LatchedFrom(us + [u], LatchUnit(m, u).value)
  {
    assert (us + [u])[..|us|] == us;
    var extra := if Forwarded(u) then [u] else [];
    forall x ensures x in m.payloads + extra <==> x in m.payloads || x in extra {
    }
  }

  /** Starting with nothing passed on and the flag clear, the loop panics iff
      some unit is empty, and otherwise ends as `LatchedFrom` says. */
  lemma {:induction false} LatchSpec(spsTemp: bytes, ppsTemp: bytes, us: seq<bytes>)
    ensures Latch(Latched([], 0, spsTemp, ppsTemp), us).Panic? <==> exists i :: 0 <= i < |us| && |us[i]| == 0
    ensures Latch(Latched([], 0, spsTemp, ppsTemp), us).Normal? ==>
      LatchedFrom(us, Latch(Latched([], 0, spsTemp, ppsTemp), us).value)
    decreases |us|
  {
    if |us| > 0 {
      var n := |us|;
      var init := us[..n - 1];
      LatchSpec(spsTemp, ppsTemp, init);
      assert forall i :: 0 <= i < n - 1 ==> init[i] == us[i];
      var m := Latch(Latched([], 0, spsTemp, ppsTemp), init);
      assert us == init + [us[n - 1]];
      if m.Normal? && |us[n - 1]| > 0 {
        LatchedStep(init, m.value, us[n - 1]);
      }
    }
  }

  /** The parser's fields: the FU-A fragments, the SPS and PPS last reported,
      and the pending SPS and PPS. */
  datatype ParserState = ParserState(fragments: bytes, sps: bytes, pps: bytes, spsTemp: bytes, ppsTemp: bytes)

  /** What `Parse` returns, with the configuration the codec callback
      receives, if it is called. */
  datatype ParseOutput = ParseOutput(payloads: seq<bytes>, flag: nat, codec: Option<H264Config.Fields>)

  /** The configuration `Config{}` starts from. */
  const EmptyConfig := H264Config.Fields([], [], 0, 0, 0)

  /** `Parse` on the parser's state. Nothing is passed on until both a
      pending SPS and a pending PPS exist; then the pending pair becomes the
      stored pair, and the callback gets the configuration built from it
      only when the pair differs from the stored one and `init` accepts it. */
  function ParseStep(st: ParserState, p: bytes, spsDecodes: bytes -> bool): (r: Exit<(ParseOutput, ParserState)>)
    ensures r.Normal? ==> Depacketize(st.fragments, p).Normal? && r.value.1.fragments == Depacketize(st.fragments, p).value.1
    ensures r.Normal? && (|r.value.1.spsTemp| == 0 || |r.value.1.ppsTemp| == 0) ==>
      r.value.0 == ParseOutput([], 0, None) && r.value.1.sps == st.sps && r.value.1.pps == st.pps
    ensures r.Normal? && |r.value.1.spsTemp| > 0 && |r.value.1.ppsTemp| > 0 ==>
      r.value.1.sps == r.value.1.spsTemp && r.value.1.pps == r.value.1.ppsTemp
    ensures r.Normal? && r.value.0.codec.Some? ==>
      && (r.value.1.sps != st.sps || r.value.1.pps != st.pps)
      && H264Config.AfterInit(EmptyConfig, r.value.1.sps, r.value.1.pps, spsDecodes) == (Normal(None), r.value.0.codec.value)
    ensures
      (&& r.Normal? && (r.value.1.sps != st.sps || r.value.1.pps != st.pps)
       && H264Config.AfterInit(EmptyConfig, r.value.1.sps, r.value.1.pps, spsDecodes).0 == Normal(None))
      ==> r.value.0.codec.Some?
    ensures r.Normal? ==>
      (&& Depacketize(st.fragments, p).Normal?
       && var l := Latch(Latched([], 0, st.spsTemp, st.ppsTemp), Depacketize(st.fragments, p).value.0);
          && l.Normal?
          && r.value.1.spsTemp == l.value.spsTemp && r.value.1.ppsTemp == l.value.ppsTemp
          && (|l.value.spsTemp| > 0 && |l.value.ppsTemp| > 0 ==>
                r.value.0.payloads == l.value.payloads && r.value.0.flag == l.value.flag))
  {
    match Depacketize(st.fragments, p)
    case Panic => Panic
    case Normal((units, frags)) =>
      match Latch(Latched([], 0, st.spsTemp, st.ppsTemp), units)
      case Panic => Panic
      case Normal(l) =>
        var waiting := st.(fragments := frags, spsTemp := l.spsTemp, ppsTemp := l.ppsTemp);
        if |l.spsTemp| == 0 || |l.ppsTemp| == 0 then Normal((ParseOutput([], 0, None), waiting))
        else if l.spsTemp == st.sps && l.ppsTemp == st.pps then Normal((ParseOutput(l.payloads, l.flag, None), waiting))
        else
          var stored := waiting.(sps := l.spsTemp, pps := l.ppsTemp);
          var (outcome, config) := H264Config.AfterInit(EmptyConfig, l.spsTemp, l.ppsTemp, spsDecodes);
          match outcome
          case Panic => Panic
          case Normal(None) => Normal((ParseOutput(l.payloads, l.flag, Some(config)), stored))
          case Normal(Some(_)) => Normal((ParseOutput(l.payloads, l.flag, None), stored))
  }

  /** Once an SPS and a PPS are both pending, `Parse` passes on exactly the
      forwarded units of the packet, in order, and sets the flag iff one of
      them is an IDR. */
  lemma ParseForwards(st: ParserState, p: bytes, spsDecodes: bytes -> bool)
    requires ParseStep(st, p, spsDecodes).Normal?
    requires |ParseStep(st, p, spsDecodes).value.1.spsTemp| > 0 && |ParseStep(st, p, spsDecodes).value.1.ppsTemp| > 0
    ensures Depacketize(st.fragments, p).Normal?
    ensures ParseStep(st, p, spsDecodes).value.0.payloads == ForwardedUnits(Depacketize(st.fragments, p).value.0)
    ensures var out := ParseStep(st, p, spsDecodes).value.0;
      (out.flag == 1 <==> exists u :: u in out.payloads && |u| > 0 && NalType(u[0]) == NalIdr) && (out.flag == 0 || out.flag == 1)
  {
    LatchSpec(st.spsTemp, st.ppsTemp, Depacketize(st.fragments, p).value.0);
  }

  /** A packet holding an SPS and no PPS leaves no PPS pending, so nothing
      is passed on. */
  lemma SpsAloneWaits(st: ParserState, sps: bytes, spsDecodes: bytes -> bool)
    requires |sps| >= 1 && NalType(sps[0]) == NalSps
    ensures ParseStep(st, sps, spsDecodes).Normal?
    ensures ParseStep(st, sps, spsDecodes).value.1.ppsTemp == []
    ensures ParseStep(st, sps, spsDecodes).value.0 == ParseOutput([], 0, None)
  {
    assert Depacketize(st.fragments, sps) == Normal(([sps], st.fragments));
    assert [sps][..0] == [];
    assert Latch(Latched([], 0, st.spsTemp, st.ppsTemp), [sps]) == LatchUnit(Latched([], 0, st.spsTemp, st.ppsTemp), sps);
  }

  /** The STAP-A loop of `parse`, which advances `currOffset` over the
      size-prefixed units after the STAP-A header byte. */
  method ReadStapA(rtpPayload: bytes) returns (r: Stap)
    requires |rtpPayload| >= 1
    ensures r == StapFrom(rtpPayload, 1)
  {
    var aus: seq<bytes> := [];
    var currOffset := 1;
    while currOffset < |rtpPayload|
      invariant 1 <= currOffset <= |rtpPayload|
      invariant StapFrom(rtpPayload, 1) == StapPrepend(aus, StapFrom(rtpPayload, currOffset))
      decreases |rtpPayload| - currOffset
    {
      if currOffset + 2 > |rtpPayload| {
        return ShortSize;
      }
      var naluSize := U16At(rtpPayload, currOffset);
      currOffset := currOffset + 2;
      if |rtpPayload| < currOffset + naluSize {
        return Overrun;
      }
      var au := rtpPayload[currOffset..currOffset + naluSize];
      StapPrependTwice(aus, [au], StapFrom(rtpPayload, currOffset + naluSize));
      currOffset := currOffset + naluSize;
      aus := aus + [au];
    }
    assert StapFrom(rtpPayload, currOffset) == StapUnits([]);
    assert aus + [] == aus;
    return StapUnits(aus);
  }

  /** The depacketiser object: its fields change across calls. */
  class RtpParser {
    var fragments: bytes
    var sps: bytes
    var pps: bytes
    var spsTemp: bytes
    var ppsTemp: bytes

    function State(): ParserState
      reads this
    {
      ParserState(fragments, sps, pps, spsTemp, ppsTemp)
    }

    /** `NewH264Parser`. */
    constructor ()
      ensures State() == ParserState([], [], [], [], [])
    {
      fragments := [];
      sps := [];
      pps := [];
      spsTemp := [];
      ppsTemp := [];
    }

    /** `parse`. */
    method ParsePayload(rtpPayload: bytes) returns (r: Exit<seq<bytes>>)
      modifies this
      ensures r.Panic? <==> Depacketize(old(fragments), rtpPayload).Panic?
      ensures r.Normal? ==> Depacketize(old(fragments), rtpPayload) == Normal((r.value, fragments))
      ensures sps == old(sps) && pps == old(pps) && spsTemp == old(spsTemp) && ppsTemp == old(ppsTemp)
    {
      if |rtpPayload| < 1 {
        return Normal([]);
      }
      var naluType := rtpPayload[0] % 32;
      if 1 <= naluType <= 23 {
        return Normal([rtpPayload]);
      } else if naluType == NalStapA {
        var stap := ReadStapA(rtpPayload);
        match stap
        case StapUnits(aus) => return Normal(aus);
        case Overrun => return Normal([]);
        case ShortSize => return Panic;
      } else if naluType == NalFuA {
        if |rtpPayload| < 2 {
          return Normal([]);
        }
        var fragmentNalu := rtpPayload[1] % 32;
        if fragmentNalu == NalFillerData {
          return Normal([]);
        }
        if rtpPayload[1] / 128 != 0 {
          var b := fragmentNalu + (rtpPayload[0] / 32) * 32;
          fragments := [b] + rtpPayload[2..];
        } else if |fragments| > 0 {
          fragments := fragments + rtpPayload[2..];
        }
        if (rtpPayload[1] / 64) % 2 != 0 && |fragments| > 0 {
          return Normal([fragments]);
        }
        return Normal([]);
      } else {
        return Panic;
      }
    }

    /** The loop of `Parse` over the units of one payload: the pending SPS
        and PPS are latched, and the units passed on and the IDR flag are
        returned. */
    method LatchUnits(us: seq<bytes>) returns (r: Exit<(seq<bytes>, nat)>)
      modifies this
      ensures r.Panic? <==> Latch(Latched([], 0, old(spsTemp), old(ppsTemp)), us).Panic?
      ensures r.Normal? ==> Latch(Latched([], 0, old(spsTemp), old(ppsTemp)), us) == Normal(Latched(r.value.0, r.value.1, spsTemp, ppsTemp))
      ensures fragments == old(fragments) && sps == old(sps) && pps == old(pps)
    {
      var start := Latched([], 0, spsTemp, ppsTemp);
      var payloads: seq<bytes> := [];
      var flag := 0;
      var i := 0;
      while i < |us|
        invariant 0 <= i <= |us|
        invariant fragments == old(fragments) && sps == old(sps) && pps == old(pps)
        invariant Latch(start, us[..i]) == Normal(Latched(payloads, flag, spsTemp, ppsTemp))
      {
        var u := us[i];
        LatchPrefix(start, us, i);
        if |u| == 0 {
          LatchSpec(start.spsTemp, start.ppsTemp, us);
          return Panic;
        }
        var nal := NalType(u[0]);
        if nal == NalSei || nal == NalAccessUnitDelimiter || nal == NalFillerData {
        } else if nal == NalSps {
          spsTemp := u;
          ppsTemp := [];
        } else if nal == NalPps {
          ppsTemp := u;
        } else if nal == NalIdr {
          flag := 1;
          payloads := payloads + [u];
        } else {
          payloads := payloads + [u];
        }
        i := i + 1;
      }
      assert us[..|us|] == us;
      return Normal((payloads, flag));
    }

    /** `Parse`; `codec` is what the codec callback receives, if it is
        called. */
    method Parse(payload: bytes, spsDecodes: bytes -> bool) returns (r: Exit<ParseOutput>)
      modifies this
      ensures r.Panic? <==> ParseStep(old(State()), payload, spsDecodes).Panic?
      ensures r.Normal? ==> ParseStep(old(State()), payload, spsDecodes) == Normal((r.value, State()))
    {
      var units := ParsePayload(payload);
      if units.Panic? {
        return Panic;
      }
      var latched := LatchUnits(units.value);
      if latched.Panic? {
        return Panic;
      }
      var (payloads, flag) := latched.value;
      if |spsTemp| == 0 || |ppsTemp| == 0 {
        return Normal(ParseOutput([], 0, None));
      }
      var codec: Option<H264Config.Fields> := None;
      if sps != spsTemp || pps != ppsTemp {
        sps := spsTemp;
        pps := ppsTemp;
        var config := new H264Config.Config();
        var err := config.UnmarshalFromSpsPps(sps, pps, spsDecodes);
        if err.Panic? {
          return Panic;
        }
        if err.value.None? {
          codec := Some(config.State());
        }
      }
      return Normal(ParseOutput(payloads, flag, codec));
    }
  }
}
