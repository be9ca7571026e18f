/**
 * `OBUBitStreamFilter.Filter` of `codecs/av1/bsf.go`: a temporal unit in the
 * low-overhead bitstream format (section 5.2 of the AV1 bitstream
 * specification) split into its OBUs. Each OBU starts with a header byte
 * whose bit 2 says an extension byte follows and whose bit 1 says a leb128
 * size follows; an OBU without a size runs to the end of the data. A size
 * that does not decode makes the whole result nil.
 */
module Av1Bsf {
  import opened Base
  import opened Leb128

  predicate ExtensionFlag(b: byte) { (b / 4) % 2 == 1 }
  predicate HasSizeField(b: byte) { (b / 2) % 2 == 1 }

  /** Where the OBU at `offset` ends; a leb128 size that does not decode; or
      a slice out of range, which panics. */
  datatype Bounds = Piece(end: nat) | LebError | Overrun

  function NextObu(p: bytes, offset: nat): (r: Bounds)
    requires offset < |p|
    ensures r.Piece? ==> offset < r.end <= |p|
    ensures !HasSizeField(p[offset]) ==> r == Piece(|p|)
  {
    var b := p[offset];
    var sizeAt := offset + 1 + (if ExtensionFlag(b) then 1 else 0);
    if !HasSizeField(b) then Piece(|p|)
    else if sizeAt > |p| then Overrun
    else
      match Leb128.Leb128(p[sizeAt..])
      case None => LebError
      case Some((size, n)) => if sizeAt + n + size > |p| then Overrun else Piece(sizeAt + n + size)
  }

  /** Prepends an OBU to the rest of the split. */
  function PrependObu(x: bytes, e: Exit<Option<seq<bytes>>>): (r: Exit<Option<seq<bytes>>>)
    ensures e.Panic? <==> r.Panic?
    ensures e.Normal? ==> (e.value.None? <==> r.value.None?)
    ensures e.Normal? && e.value.Some? ==> r.value.value == [x] + e.value.value
  {
    match e
    case Panic => Panic
    case Normal(None) => Normal(None)
    case Normal(Some(v)) => Normal(Some([x] + v))
  }

  /** The loop from `offset`: the OBUs, `None` for a size that does not
      decode, or a panic. */
  function ObusFrom(p: bytes, offset: nat): (r: Exit<Option<seq<bytes>>>)
    requires offset <= |p|
    decreases |p| - offset
  {
    if offset == |p| then Normal(Some([]))
    else
      match NextObu(p, offset)
      case LebError => Normal(None)
      case Overrun => Panic
      case Piece(end) => PrependObu(p[offset..end], ObusFrom(p, end))
  }

  /** `Filter`, where nil is the empty sequence. */
  function Filter(p: bytes): (r: Exit<seq<bytes>>)
    ensures |p| == 0 ==> r == Normal([])
  {
    match ObusFrom(p, 0)
    case Panic => Panic
    case Normal(None) => Normal([])
    case Normal(Some(v)) => Normal(v)
  }

  /** The OBUs split off cover the data from `offset` to the end, in order,
      and none is empty. */
  lemma {:induction false} ObusCover(p: bytes, offset: nat)
    requires offset <= |p| && ObusFrom(p, offset).Normal? && ObusFrom(p, offset).value.Some?
    ensures var r := ObusFrom(p, offset).value.value;
      Flatten(r) == p[offset..] && forall i :: 0 <= i < |r| ==> |r[i]| > 0
    decreases |p| - offset
  {
    if offset == |p| {
      assert p[offset..] == [];
    } else {
      var end := NextObu(p, offset).end;
      ObusCover(p, end);
      var rest := ObusFrom(p, end).value.value;
      var r := ObusFrom(p, offset).value.value;
      assert r == [p[offset..end]] + rest;
      assert r[1..] == rest;
      SliceSplit(p, offset, end);
      assert forall i :: 1 <= i < |r| ==> r[i] == rest[i - 1];
    }
  }

  /** Unless a size fails to decode and the result is nil, the OBUs are the
      whole temporal unit, split into non-empty pieces. */
  lemma FilterCovers(p: bytes)
    requires Filter(p).Normal?
    ensures var r := Filter(p).value;
      r == [] || (Flatten(r) == p && forall i :: 0 <= i < |r| ==> |r[i]| > 0)
  {
    if ObusFrom(p, 0).value.Some? {
      ObusCover(p, 0);
      assert p[0..] == p;
    }
  }

  /** An OBU as written: header, extension byte when bit 2 is set, leb128
      size when bit 1 is set, payload. */
  datatype Obu = Obu(header: byte, extension: byte, data: bytes)

  function ObuBytes(o: Obu): bytes {
    [o.header] + (if ExtensionFlag(o.header) then [o.extension] else [])
      + (if HasSizeField(o.header) then LebBytes(|o.data|) else []) + o.data
  }

  function Encode(obus: seq<Obu>): bytes {
    if |obus| == 0 then [] else ObuBytes(obus[0]) + Encode(obus[1..])
  }

  function Pieces(obus: seq<Obu>): (r: seq<bytes>)
    ensures |r| == |obus|
  {
    if |obus| == 0 then [] else [ObuBytes(obus[0])] + Pieces(obus[1..])
  }

  /** Every OBU but the last carries its size, and sizes fit in eight
      leb128 bytes. */
  predicate Sized(obus: seq<Obu>) {
    forall i :: 0 <= i < |obus| ==> |obus[i].data| < Pow128(8) && (i < |obus| - 1 ==> HasSizeField(obus[i].header))
  }

  /** One written OBU followed by `tail`. */
  lemma ObuStep(p: bytes, offset: nat, o: Obu, tail: bytes)
    requires offset <= |p| && p[offset..] == ObuBytes(o) + tail
    requires |o.data| < Pow128(8) && (HasSizeField(o.header) || |tail| == 0)
    ensures offset < |p|
    ensures NextObu(p, offset) == Piece(offset + |ObuBytes(o)|)
    ensures p[offset..offset + |ObuBytes(o)|] == ObuBytes(o) && p[offset + |ObuBytes(o)|..] == tail
  {
    var n := |ObuBytes(o)|;
    assert p[offset..][..n] == ObuBytes(o) && p[offset..][n..] == tail;
    assert p[offset] == o.header;
    if HasSizeField(o.header) {
      SizedObuStep(p, offset, o, tail);
    }
  }

  lemma SizedObuStep(p: bytes, offset: nat, o: Obu, tail: bytes)
    requires offset <= |p| && p[offset..] == ObuBytes(o) + tail
    requires |o.data| < Pow128(8) && HasSizeField(o.header) && offset < |p| && p[offset] == o.header
    ensures NextObu(p, offset) == Piece(offset + |ObuBytes(o)|)
  {
    var ext: bytes := if ExtensionFlag(o.header) then [o.extension] else [];
    var sizeAt := offset + 1 + |ext|;
    var lb := LebBytes(|o.data|);
    assert p[sizeAt..] == lb + (o.data + tail) by {
      assert ObuBytes(o) + tail == [o.header] + ext + (lb + (o.data + tail));
      assert p[sizeAt..] == p[offset..][1 + |ext|..];
    }
    LebRoundTrip(|o.data|, o.data + tail);
  }

  /** An OBU without a size field is the last: it runs to the end. */
  lemma UnsizedObuRunsToEnd(p: bytes)
    requires |p| > 0 && !HasSizeField(p[0])
    ensures Filter(p) == Normal([p])
  {
    assert NextObu(p, 0) == Piece(|p|);
    assert ObusFrom(p, |p|) == Normal(Some([]));
    assert p[0..|p|] == p;
    assert ObusFrom(p, 0) == PrependObu(p, Normal(Some([])));
    assert [p] + [] == [p];
  }

  lemma {:induction false} ObusEncoded(p: bytes, offset: nat, obus: seq<Obu>)
    requires offset <= |p| && p[offset..] == Encode(obus) && Sized(obus)
    ensures ObusFrom(p, offset) == Normal(Some(Pieces(obus)))
    decreases |obus|
  {
    if |obus| == 0 {
      assert |p[offset..]| == 0;
    } else {
      var o := obus[0];
      assert |obus| > 1 ==> HasSizeField(o.header);
      assert |obus| == 1 ==> |Encode(obus[1..])| == 0;
      ObuStep(p, offset, o, Encode(obus[1..]));
      var end := offset + |ObuBytes(o)|;
      assert Sized(obus[1..]) by {
        forall i | 0 <= i < |obus| - 1
          ensures |obus[1..][i].data| < Pow128(8) && (i < |obus| - 2 ==> HasSizeField(obus[1..][i].header))
        {
          assert obus[1..][i] == obus[i + 1];
        }
      }
      ObusEncoded(p, end, obus[1..]);
      ObusStep(p, offset, end);
      assert Pieces(obus) == [ObuBytes(o)] + Pieces(obus[1..]);
    }
  }

  lemma ObusStep(p: bytes, offset: nat, end: nat)
    requires offset < |p| && NextObu(p, offset) == Piece(end)
    ensures ObusFrom(p, offset) == PrependObu(p[offset..end], ObusFrom(p, end))
  {
  }

  /** Round trip: OBUs written one after the other, each but the last with
      its size, are split back into exactly their own bytes. */
  lemma FilterRoundTrip(obus: seq<Obu>)
    requires Sized(obus)
    ensures Filter(Encode(obus)) == Normal(Pieces(obus))
  {
    var p := Encode(obus);
    assert p[0..] == p;
    ObusEncoded(p, 0, obus);
  }

  /** A size field that claims more than the data holds slices out of range. */
  lemma OversizedObuPanics(h: byte, size: nat, data: bytes)
    requires HasSizeField(h) && !ExtensionFlag(h) && size < Pow128(8) && |data| < size
    ensures Filter([h] + LebBytes(size) + data).Panic?
  {
    var p := [h] + LebBytes(size) + data;
    assert p[1..] == LebBytes(size) + data;
    LebRoundTrip(size, data);
  }

  /** A size field that does not decode, wherever it comes: after OBUs that
      all carry their sizes, an OBU header with bit 1 set, its extension
      byte if bit 2 is set, and bytes that are no leb128 number make the
      whole result nil. */
  lemma LebErrorGivesNil(obus: seq<Obu>, h: byte, ext: bytes, rest: bytes)
    requires forall i :: 0 <= i < |obus| ==> |obus[i].data| < Pow128(8) && HasSizeField(obus[i].header)
    requires HasSizeField(h) && |ext| == (if ExtensionFlag(h) then 1 else 0) && Leb128.Leb128(rest) == None
    ensures Filter(Encode(obus) + ([h] + ext + rest)) == Normal([])
  {
    var p := Encode(obus) + ([h] + ext + rest);
    assert p[0..] == p;
    ObusBeforeLebError(p, 0, obus, [h] + ext + rest);
  }

  lemma {:induction false} ObusBeforeLebError(p: bytes, offset: nat, obus: seq<Obu>, bad: bytes)
    requires offset <= |p| && p[offset..] == Encode(obus) + bad
    requires forall i :: 0 <= i < |obus| ==> |obus[i].data| < Pow128(8) && HasSizeField(obus[i].header)
    requires |bad| > 0 && HasSizeField(bad[0])
    requires var sizeAt := 1 + (if ExtensionFlag(bad[0]) then 1 else 0); sizeAt <= |bad| && Leb128.Leb128(bad[sizeAt..]) == None
    ensures ObusFrom(p, offset) == Normal(None)
    decreases |obus|
  {
    if |obus| == 0 {
      assert p[offset..] == bad;
      var sizeAt := 1 + (if ExtensionFlag(bad[0]) then 1 else 0);
      assert p[offset + sizeAt..] == bad[sizeAt..];
      assert NextObu(p, offset) == LebError;
    } else {
      var o := obus[0];
      var tail := Encode(obus[1..]) + bad;
      assert p[offset..] == ObuBytes(o) + tail;
      ObuStep(p, offset, o, tail);
      var end := offset + |ObuBytes(o)|;
      ObusBeforeLebError(p, end, obus[1..], bad);
      ObusStep(p, offset, end);
    }
  }

  /** `Filter`, appending to `result` as it goes. */
  method FilterObus(payload: bytes) returns (r: Exit<seq<bytes>>)
    ensures r == Filter(payload)
  {
    var result: seq<bytes> := [];
    var offset: nat := 0;
    PrependObusEmpty(ObusFrom(payload, 0));
    while offset < |payload|
      invariant offset <= |payload|
      invariant ObusFrom(payload, 0) == PrependObus(result, ObusFrom(payload, offset))
      decreases |payload| - offset
    {
      var pos := offset;
      var b := payload[offset];
      var extFlag := ExtensionFlag(b);
      var hasSize := HasSizeField(b);
      var sizeAt := offset + 1 + (if extFlag then 1 else 0);
      var end := |payload|;
      if hasSize {
        if sizeAt > |payload| {
          return Panic;
        }
        var sizeRead := Leb128.Leb128(payload[sizeAt..]);
        if sizeRead.None? {
          PrependObusNone(result);
          return Normal([]);
        }
        end := sizeAt + sizeRead.value.1 + sizeRead.value.0;
        if end > |payload| {
          PrependObusPanic(result);
          return Panic;
        }
      }
      assert NextObu(payload, pos) == Piece(end);
      PrependObusTwice(result, payload[pos..end], ObusFrom(payload, end));
      result := result + [payload[pos..end]];
      offset := end;
    }
    PrependObusEnd(result);
    return Normal(result);
  }

  /** Prepends the OBUs found so far. */
  function PrependObus(xs: seq<bytes>, e: Exit<Option<seq<bytes>>>): Exit<Option<seq<bytes>>> {
    match e
    case Panic => Panic
    case Normal(None) => Normal(None)
    case Normal(Some(v)) => Normal(Some(xs + v))
  }

  lemma PrependObusTwice(xs: seq<bytes>, x: bytes, e: Exit<Option<seq<bytes>>>)
    ensures PrependObus(xs, PrependObu(x, e)) == PrependObus(xs + [x], e)
  {
    if e.Normal? && e.value.Some? {
      assert xs + ([x] + e.value.value) == xs + [x] + e.value.value;
    }
  }

  lemma PrependObusEmpty(e: Exit<Option<seq<bytes>>>)
    ensures PrependObus([], e) == e
  {
    if e.Normal? && e.value.Some? {
      assert [] + e.value.value == e.value.value;
    }
  }

  lemma PrependObusNone(xs: seq<bytes>)
    ensures PrependObus(xs, Normal(None)) == Normal(None)
  {
  }

  lemma PrependObusPanic(xs: seq<bytes>)
    ensures PrependObus(xs, Panic) == Panic
  {
  }

  lemma PrependObusEnd(xs: seq<bytes>)
    ensures PrependObus(xs, Normal(Some([]))) == Normal(Some(xs))
  {
    assert xs + [] == xs;
  }
}
