/**
 * The AV1 RTP depacketiser of `codecs/av1/rtpparser.go` (section 4.4 of the
 * AV1 RTP payload format): a payload is an aggregation header `Z Y W W N - -
 * -` followed by OBU elements. Every element carries a leb128 length except
 * the W-th when W > 0, which runs to the end of the payload. With Z = 1 the
 * first element continues the last OBU of the previous packet; with Y = 1 the
 * last element continues in the next packet, so nothing is returned yet. The
 * parser keeps the OBU fragments between packets. The sequence-header
 * library and the codec callback are a parameter and an output.
 */
module Av1Rtp {
  import opened Base
  import opened Leb128

  function ZBit(h: byte): nat { h / 128 }
  function YBit(h: byte): nat { (h / 64) % 2 }
  function WField(h: byte): nat { (h / 16) % 4 }
  function NBit(h: byte): nat { (h / 8) % 2 }

  /** Where the element loop ends: on a leb128 error (the source returns
      nil) or at the end of the payload, with the fragments and the sequence
      header handed to the callback, if any. */
  datatype Elements = Elements(lebError: bool, fragments: seq<bytes>, sequenceHeader: Option<bytes>)

  /** The next element's bounds, a leb128 length that does not decode, or a
      length that runs past the payload, where the slice panics. */
  datatype Element = Element(start: nat, length: nat) | LebError | Overrun

  /** Whether element `index` carries a leb128 length. */
  predicate HasLength(h: byte, index: nat) {
    WField(h) == 0 || index < WField(h) - 1
  }

  function NextElement(p: bytes, offset: nat, index: nat): (e: Element)
    requires 1 <= offset < |p|
    ensures e.Element? ==> offset <= e.start && offset < e.start + e.length <= |p|
  {
    if HasLength(p[0], index) then
      match Leb128.Leb128(p[offset..])
      case None => LebError
      case Some((length, read)) => if offset + read + length > |p| then Overrun else Element(offset + read, length)
    else Element(offset, |p| - offset)
  }

  /** The fragments after element `data`: a continuation joins it to the last
      one, anything else is appended. */
  function AddFragment(frags: seq<bytes>, data: bytes, continues: bool): seq<bytes>
    requires continues ==> |frags| > 0
  {
    if continues then frags[..|frags| - 1] + [frags[|frags| - 1] + data] else frags + [data]
  }

  /** The element loop from `offset`, at element `index`. A length that runs
      past the payload makes the slice panic, and so does a continuation
      (Z = 1) when no fragment is pending. */
  function ElementsFrom(p: bytes, offset: nat, index: nat, frags: seq<bytes>, seqHeader: Option<bytes>, decodes: bytes -> bool): (r: Exit<Elements>)
    requires 1 <= offset <= |p|
    decreases |p| - offset
  {
    if offset == |p| then Normal(Elements(false, frags, seqHeader))
    else
      match NextElement(p, offset, index)
      case LebError => Normal(Elements(true, frags, seqHeader))
      case Overrun => Panic
      case Element(start, length) =>
        var data := p[start..start + length];
        var continues := index == 0 && ZBit(p[0]) == 1;
        if continues && |frags| == 0 then Panic
        else
          var header := if !continues && NBit(p[0]) == 1 && index == 0 && decodes(data) then Some(data) else seqHeader;
          ElementsFrom(p, start + length, index + 1, AddFragment(frags, data, continues), header, decodes)
  }

  /** The loop stops at a leb128 length that does not decode, and panics at
      one that runs past the payload. */
  lemma ElementsStop(p: bytes, offset: nat, index: nat, frags: seq<bytes>, seqHeader: Option<bytes>, decodes: bytes -> bool)
    requires 1 <= offset < |p|
    ensures NextElement(p, offset, index).LebError? ==> ElementsFrom(p, offset, index, frags, seqHeader, decodes) == Normal(Elements(true, frags, seqHeader))
    ensures NextElement(p, offset, index).Overrun? ==> ElementsFrom(p, offset, index, frags, seqHeader, decodes).Panic?
  {
  }

  /** The first element of a continuation packet: it panics with nothing
      pending, and otherwise joins `data` to the last fragment. */
  lemma ElementsJoin(p: bytes, offset: nat, frags: seq<bytes>, seqHeader: Option<bytes>, decodes: bytes -> bool,
                     data: bytes, next: nat)
    requires 1 <= offset < |p| && ZBit(p[0]) == 1
    requires var e := NextElement(p, offset, 0);
      e.Element? && next == e.start + e.length && data == p[e.start..next]
    ensures next <= |p|
    ensures |frags| == 0 ==> ElementsFrom(p, offset, 0, frags, seqHeader, decodes).Panic?
    ensures |frags| > 0 ==>
      (ElementsFrom(p, offset, 0, frags, seqHeader, decodes)
       == ElementsFrom(p, next, 1, frags[..|frags| - 1] + [frags[|frags| - 1] + data], seqHeader, decodes))
  {
  }

  /** One element `data`, ending at `next`, that does not continue a
      fragment. */
  lemma ElementsStep(p: bytes, offset: nat, index: nat, frags: seq<bytes>, seqHeader: Option<bytes>, decodes: bytes -> bool,
                     data: bytes, next: nat, header: Option<bytes>)
    requires 1 <= offset < |p| && !(index == 0 && ZBit(p[0]) == 1)
    requires var e := NextElement(p, offset, index);
      e.Element? && next == e.start + e.length && data == p[e.start..next]
    requires header == if NBit(p[0]) == 1 && index == 0 && decodes(data) then Some(data) else seqHeader
    ensures next <= |p|
    ensures ElementsFrom(p, offset, index, frags, seqHeader, decodes) == ElementsFrom(p, next, index + 1, frags + [data], header, decodes)
  {
  }

  /** A length-prefixed element `o` at `offset`, followed by `tail`. */
  lemma NextPrefixed(p: bytes, offset: nat, index: nat, o: bytes, tail: bytes)
    requires 1 <= offset <= |p| && p[offset..] == LebBytes(|o|) + o + tail
    requires HasLength(p[0], index) && |o| < Pow128(8)
    ensures offset < |p|
    ensures var e := NextElement(p, offset, index);
      && e == Element(offset + |LebBytes(|o|)|, |o|)
      && p[e.start..e.start + e.length] == o && p[e.start + e.length..] == tail
  {
    var lb := LebBytes(|o|);
    assert p[offset..] == lb + (o + tail);
    LebRoundTrip(|o|, o + tail);
    var start := offset + |lb|;
    assert p[start..] == o + tail;
    assert p[start..start + |o|] == o;
    assert p[start + |o|..] == tail;
  }

  /** The W-th element, running to the end. */
  lemma NextRaw(p: bytes, offset: nat, index: nat, o: bytes)
    requires 1 <= offset <= |p| && p[offset..] == o && |o| > 0 && !HasLength(p[0], index)
    ensures offset < |p|
    ensures NextElement(p, offset, index) == Element(offset, |o|) && p[offset..offset + |o|] == o
  {
  }

  /** `Parse` on the pending fragments: what it returns, the new fragments and
      the sequence header the callback receives. An empty payload panics on
      `rtpPayload[0]`. */
  function Av1Parse(frags: seq<bytes>, p: bytes, decodes: bytes -> bool): (r: Exit<(seq<bytes>, seq<bytes>, Option<bytes>)>)
    ensures |p| == 0 ==> r.Panic?
    ensures r.Normal? && YBit(p[0]) == 1 ==> r.value.0 == []
    ensures r.Normal? ==> r.value.0 == [] || r.value.0 == r.value.1
  {
    if |p| == 0 then Panic
    else
      var pending := if ZBit(p[0]) == 0 then [] else frags;
      match ElementsFrom(p, 1, 0, pending, None, decodes)
      case Panic => Panic
      case Normal(e) =>
        if e.lebError || YBit(p[0]) == 1 then Normal(([], e.fragments, e.sequenceHeader))
        else Normal((e.fragments, e.fragments, e.sequenceHeader))
  }

  /** Z = 0 discards whatever fragments were pending. */
  lemma NewObuDiscardsFragments(frags: seq<bytes>, p: bytes, decodes: bytes -> bool)
    requires |p| >= 1 && ZBit(p[0]) == 0
    ensures Av1Parse(frags, p, decodes) == Av1Parse([], p, decodes)
  {
  }

  /** The elements of a payload: each behind its leb128 length, except the
      last when `rawLast`, which runs to the end. */
  function Body(obus: seq<bytes>, rawLast: bool): bytes {
    if |obus| == 0 then []
    else if rawLast && |obus| == 1 then obus[0]
    else LebBytes(|obus[0]|) + obus[0] + Body(obus[1..], rawLast)
  }

  predicate Encodable(obus: seq<bytes>) {
    forall i :: 0 <= i < |obus| ==> |obus[i]| < Pow128(8)
  }

  /** The elements after the first one are appended as fragments, one each. */
  lemma {:induction false} ElementsBody(p: bytes, offset: nat, index: nat, frags: seq<bytes>, seqHeader: Option<bytes>,
                                        decodes: bytes -> bool, obus: seq<bytes>, rawLast: bool)
    requires 1 <= offset <= |p| && p[offset..] == Body(obus, rawLast) && index >= 1 && Encodable(obus)
    requires var w := WField(p[0]);
      if rawLast then w > 0 && index + |obus| == w && (|obus| >= 1 ==> |obus[|obus| - 1]| > 0) else w == 0
    ensures ElementsFrom(p, offset, index, frags, seqHeader, decodes) == Normal(Elements(false, frags + obus, seqHeader))
    decreases |obus|
  {
    if |obus| == 0 {
      ElementsEnd(p, offset, index, frags, seqHeader, decodes, obus);
    } else {
      var o := obus[0];
      var next := BodyStep(p, offset, index, frags, seqHeader, decodes, obus, rawLast, seqHeader);
      ElementsBody(p, next, index + 1, frags + [o], seqHeader, decodes, obus[1..], rawLast);
      ConsSplit(frags, obus);
    }
  }

  /** An empty body ends the loop with the fragments as they are. */
  lemma ElementsEnd(p: bytes, offset: nat, index: nat, frags: seq<bytes>, seqHeader: Option<bytes>,
                    decodes: bytes -> bool, obus: seq<bytes>)
    requires 1 <= offset <= |p| && |p[offset..]| == 0 && |obus| == 0
    ensures ElementsFrom(p, offset, index, frags, seqHeader, decodes) == Normal(Elements(false, frags + obus, seqHeader))
  {
    assert frags + obus == frags;
  }

  /** The loop over the first element of a body. */
  lemma BodyStep(p: bytes, offset: nat, index: nat, frags: seq<bytes>, seqHeader: Option<bytes>, decodes: bytes -> bool,
                 obus: seq<bytes>, rawLast: bool, header: Option<bytes>) returns (next: nat)
    requires 1 <= offset <= |p| && p[offset..] == Body(obus, rawLast) && |obus| >= 1 && Encodable(obus)
    requires var w := WField(p[0]);
      if rawLast then w > 0 && index + |obus| == w && |obus[|obus| - 1]| > 0 else w == 0
    requires !(index == 0 && ZBit(p[0]) == 1)
    requires header == if NBit(p[0]) == 1 && index == 0 && decodes(obus[0]) then Some(obus[0]) else seqHeader
    ensures offset < next <= |p| && p[next..] == Body(obus[1..], rawLast) && Encodable(obus[1..])
    ensures var w := WField(p[0]);
      if rawLast then w > 0 && index + 1 + |obus[1..]| == w && (|obus[1..]| >= 1 ==> |obus[1..][|obus[1..]| - 1]| > 0) else w == 0
    ensures ElementsFrom(p, offset, index, frags, seqHeader, decodes) == ElementsFrom(p, next, index + 1, frags + [obus[0]], header, decodes)
  {
    Rest(obus, rawLast);
    FirstElement(p, offset, index, obus, rawLast);
    var e := NextElement(p, offset, index);
    next := e.start + e.length;
    ElementsStep(p, offset, index, frags, seqHeader, decodes, obus[0], next, header);
  }

  /** The first element of a body, at `offset`; what follows is the body of
      the others. */
  lemma FirstElement(p: bytes, offset: nat, index: nat, obus: seq<bytes>, rawLast: bool)
    requires 1 <= offset <= |p| && p[offset..] == Body(obus, rawLast) && |obus| >= 1 && Encodable(obus)
    requires var w := WField(p[0]);
      if rawLast then w > 0 && index + |obus| == w && |obus[|obus| - 1]| > 0 else w == 0
    ensures offset < |p|
    ensures var e := NextElement(p, offset, index);
      && e.Element? && e.length == |obus[0]|
      && p[e.start..e.start + e.length] == obus[0] && p[e.start + e.length..] == Body(obus[1..], rawLast)
  {
    var o := obus[0];
    assert |o| < Pow128(8);
    if rawLast && |obus| == 1 {
      NextRaw(p, offset, index, o);
    } else {
      NextPrefixed(p, offset, index, o, Body(obus[1..], rawLast));
    }
  }

  lemma Rest(obus: seq<bytes>, rawLast: bool)
    requires |obus| >= 1 && Encodable(obus)
    ensures Encodable(obus[1..])
    ensures |obus| >= 2 ==> obus[1..][|obus[1..]| - 1] == obus[|obus| - 1]
  {
    forall i | 0 <= i < |obus| - 1 ensures |obus[1..][i]| < Pow128(8) {
      assert obus[1..][i] == obus[i + 1];
    }
  }

  /** Round trip: a packet that starts a new OBU (Z = 0) and ends the last
      (Y = 0) returns exactly its elements, whether they all carry lengths
      (W = 0) or the W-th runs to the end; with N = 1 the callback receives
      the first element when the library accepts it as a sequence header. */
  lemma PacketRoundTrip(frags: seq<bytes>, h: byte, obus: seq<bytes>, decodes: bytes -> bool)
    requires ZBit(h) == 0 && YBit(h) == 0 && |obus| >= 1 && Encodable(obus)
    requires WField(h) == 0 || (|obus| == WField(h) && |obus[|obus| - 1]| > 0)
    ensures var seqHeader := if NBit(h) == 1 && decodes(obus[0]) then Some(obus[0]) else None;
      Av1Parse(frags, [h] + Body(obus, WField(h) > 0), decodes) == Normal((obus, obus, seqHeader))
  {
    var p := [h] + Body(obus, WField(h) > 0);
    assert p[0] == h && p[1..] == Body(obus, WField(h) > 0);
    PacketElements(p, obus, decodes);
  }

  /** The element loop over a whole packet body. */
  lemma PacketElements(p: bytes, obus: seq<bytes>, decodes: bytes -> bool)
    requires |p| >= 1 && ZBit(p[0]) == 0 && |obus| >= 1 && Encodable(obus)
    requires WField(p[0]) == 0 || (|obus| == WField(p[0]) && |obus[|obus| - 1]| > 0)
    requires p[1..] == Body(obus, WField(p[0]) > 0)
    ensures var seqHeader := if NBit(p[0]) == 1 && decodes(obus[0]) then Some(obus[0]) else None;
      ElementsFrom(p, 1, 0, [], None, decodes) == Normal(Elements(false, obus, seqHeader))
  {
    var seqHeader := if NBit(p[0]) == 1 && decodes(obus[0]) then Some(obus[0]) else None;
    FirstOfBody(p, 1, 0, [], None, decodes, obus, WField(p[0]) > 0, seqHeader);
  }

  /** The loop from the first element, with nothing pending. */
  lemma FirstOfBody(p: bytes, offset: nat, index: nat, none: seq<bytes>, start: Option<bytes>, decodes: bytes -> bool,
                    obus: seq<bytes>, rawLast: bool, seqHeader: Option<bytes>)
    requires 1 <= offset <= |p| && p[offset..] == Body(obus, rawLast) && |obus| >= 1 && Encodable(obus)
    requires index == 0 && none == [] && start == None && ZBit(p[0]) == 0
    requires var w := WField(p[0]);
      if rawLast then w > 0 && index + |obus| == w && |obus[|obus| - 1]| > 0 else w == 0
    requires seqHeader == if NBit(p[0]) == 1 && decodes(obus[0]) then Some(obus[0]) else None
    ensures ElementsFrom(p, offset, index, none, start, decodes) == Normal(Elements(false, obus, seqHeader))
  {
    var next := BodyStep(p, offset, index, none, start, decodes, obus, rawLast, seqHeader);
    var first := none + [obus[0]];
    ElementsBody(p, next, index + 1, first, seqHeader, decodes, obus[1..], rawLast);
    assert first + obus[1..] == obus by {
      ConsSplit(none, obus);
      assert none + obus == obus;
    }
  }

  /** A continuation (Z = 1) with a single element joins it to the last
      pending fragment. */
  lemma ContinuationJoins(frags: seq<bytes>, h: byte, b: bytes, decodes: bytes -> bool)
    requires |frags| > 0 && ZBit(h) == 1 && YBit(h) == 0 && WField(h) == 1 && |b| > 0
    ensures var joined := frags[..|frags| - 1] + [frags[|frags| - 1] + b];
      Av1Parse(frags, [h] + b, decodes) == Normal((joined, joined, None))
  {
    var p := [h] + b;
    assert p[1..] == b && p[1..1 + |b|] == b;
    var joined := frags[..|frags| - 1] + [frags[|frags| - 1] + b];
    assert ElementsFrom(p, 1 + |b|, 1, joined, None, decodes) == Normal(Elements(false, joined, None));
  }

  /** A fragment split over two packets (Y = 1, then Z = 1) comes out whole,
      after the second. */
  lemma FragmentedObu(h1: byte, h2: byte, a: bytes, b: bytes, pending: seq<bytes>, decodes: bytes -> bool)
    requires ZBit(h1) == 0 && YBit(h1) == 1 && WField(h1) == 1 && NBit(h1) == 0 && |a| > 0
    requires ZBit(h2) == 1 && YBit(h2) == 0 && WField(h2) == 1 && |b| > 0
    ensures Av1Parse(pending, [h1] + a, decodes) == Normal(([], [a], None))
    ensures Av1Parse([a], [h2] + b, decodes) == Normal(([a + b], [a + b], None))
  {
    var p := [h1] + a;
    assert p[1..] == a && p[1..1 + |a|] == a;
    assert [] + [a] == [a];
    assert ElementsFrom(p, 1 + |a|, 1, [a], None, decodes) == Normal(Elements(false, [a], None));
    ContinuationJoins([a], h2, b, decodes);
    assert [a][..0] + [[a][0] + b] == [a + b];
  }

  /** A continuation with nothing pending indexes `fragments[-1]` and panics. */
  lemma ContinuationWithoutFragmentPanics(h: byte, b: bytes, decodes: bytes -> bool)
    requires ZBit(h) == 1 && WField(h) == 1 && |b| > 0
    ensures Av1Parse([], [h] + b, decodes).Panic?
  {
    var p := [h] + b;
    assert p[1..] == b;
  }

  /** A leb128 length that does not end returns nil but keeps the fragments
      collected before it. */
  lemma LebErrorReturnsNil(frags: seq<bytes>, h: byte, b: bytes, decodes: bytes -> bool)
    requires ZBit(h) == 1 && WField(h) == 0 && 1 <= |b| < 8 && forall j :: 0 <= j < |b| ==> b[j] >= 128
    ensures Av1Parse(frags, [h] + b, decodes) == Normal(([], frags, None))
  {
    var p := [h] + b;
    assert p[1..] == b;
    LebUnterminated(b, 0);
  }

  /** The element loop of `Parse`, on the fragments it starts from. */
  method ReadElements(payload: bytes, pending: seq<bytes>, decodes: bytes -> bool) returns (r: Exit<Elements>)
    requires |payload| >= 1
    ensures r == ElementsFrom(payload, 1, 0, pending, None, decodes)
  {
    var frags := pending;
    var index: nat := 0;
    var offset: nat := 1;
    var seqHeader: Option<bytes> := None;
    while offset < |payload|
      invariant 1 <= offset <= |payload|
      invariant ElementsFrom(payload, 1, 0, pending, None, decodes) == ElementsFrom(payload, offset, index, frags, seqHeader, decodes)
      decreases |payload| - offset
    {
      var stop, next, newFrags, header := ReadElement(payload, offset, index, frags, seqHeader, decodes);
      if stop.Some? {
        return stop.value;
      }
      offset, index, frags, seqHeader := next, index + 1, newFrags, header;
    }
    return Normal(Elements(false, frags, seqHeader));
  }

  /** One turn of the element loop: where the loop stops, or the offset,
      fragments and sequence header it goes on with. */
  method ReadElement(payload: bytes, offset: nat, index: nat, frags: seq<bytes>, seqHeader: Option<bytes>, decodes: bytes -> bool)
    returns (stop: Option<Exit<Elements>>, next: nat, newFrags: seq<bytes>, header: Option<bytes>)
    requires 1 <= offset < |payload|
    ensures stop.Some? ==> stop.value == ElementsFrom(payload, offset, index, frags, seqHeader, decodes)
    ensures stop.None? ==>
      && offset < next <= |payload|
      && ElementsFrom(payload, offset, index, frags, seqHeader, decodes) == ElementsFrom(payload, next, index + 1, newFrags, header, decodes)
  {
    var h := payload[0];
    var z, w, n := ZBit(h), WField(h), NBit(h);
    ElementsStop(payload, offset, index, frags, seqHeader, decodes);
    next, newFrags, header := offset, frags, seqHeader;
    var start := offset;
    var length: nat := 0;
    if w == 0 || index < w - 1 {
      var lenRead := Leb128.Leb128(payload[offset..]);
      if lenRead.None? {
        return Some(Normal(Elements(true, frags, seqHeader))), next, newFrags, header;
      }
      length := lenRead.value.0;
      start := offset + lenRead.value.1;
    } else {
      length := |payload| - offset;
    }
    if start + length > |payload| {
      return Some(Panic), next, newFrags, header;
    }
    assert NextElement(payload, offset, index) == Element(start, length);
    var data := payload[start..start + length];
    next := start + length;
    if index == 0 && z == 1 {
      ElementsJoin(payload, offset, frags, seqHeader, decodes, data, next);
      if |frags| == 0 {
        return Some(Panic), next, newFrags, header;
      }
      newFrags := frags[..|frags| - 1] + [frags[|frags| - 1] + data];
    } else {
      if n == 1 && index == 0 && decodes(data) {
        header := Some(data);
      }
      ElementsStep(payload, offset, index, frags, seqHeader, decodes, data, next, header);
      newFrags := frags + [data];
    }
    stop := None;
  }

  /** The parser object; only the fragments persist between packets. */
  class Av1RtpParser {
    var fragments: seq<bytes>

    constructor ()
      ensures fragments == []
    {
      fragments := [];
    }

    /** `Parse`: the OBUs returned and the sequence header the callback
        receives, if any. */
    method Parse(payload: bytes, decodes: bytes -> bool) returns (r: Exit<(seq<bytes>, Option<bytes>)>)
      modifies this
      ensures r.Panic? <==> Av1Parse(old(fragments), payload, decodes).Panic?
      ensures r.Normal? ==> Av1Parse(old(fragments), payload, decodes) == Normal((r.value.0, fragments, r.value.1))
    {
      if |payload| == 0 {
        return Panic;
      }
      if ZBit(payload[0]) == 0 {
        fragments := [];
      }
      var e := ReadElements(payload, fragments, decodes);
      if e.Panic? {
        return Panic;
      }
      fragments := e.value.fragments;
      if e.value.lebError || YBit(payload[0]) == 1 {
        return Normal(([], e.value.sequenceHeader));
      }
      return Normal((fragments, e.value.sequenceHeader));
    }
  }
}
