/**
 * `RemoveAnnexB` of `codecs/h264/format.go`: splits an ITU-T H.264 Annex B
 * byte stream at its start codes (`00 00 01` and `00 00 00 01`). Each piece
 * starts just after a start code and runs up to and including the next start
 * code; the last piece runs to the end of the data.
 */
module AnnexB {
  import opened Base

  /** A three-byte start code `00 00 01` begins at `i`. */
  predicate StartCodeAt(d: bytes, i: nat) {
    i + 3 <= |d| && d[i] == 0 && d[i + 1] == 0 && d[i + 2] == 1
  }

  predicate EndsWithStartCode(p: bytes) {
    |p| >= 3 && p[|p| - 3] == 0 && p[|p| - 2] == 0 && p[|p| - 1] == 1
  }

  /** The shape of the output once a start code ending at `k` has been found:
      a non-empty list of pieces that concatenate to `d[k..]`, every piece but
      the last ending with a start code, and the last running to the end. */
  predicate Pieces(d: bytes, k: nat, ps: seq<bytes>)
    requires k <= |d|
  {
    && |ps| > 0
    && Flatten(ps) == d[k..]
    && (forall i :: 0 <= i < |ps| - 1 ==> EndsWithStartCode(ps[i]))
    && |ps[|ps| - 1]| <= |d| && ps[|ps| - 1] == d[|d| - |ps[|ps| - 1]|..]
  }

  /** The loop as written, from `index` with the piece in progress starting at
      `startIndex` (0 while no start code has been seen) and the pieces so far
      `result`. Reading `data[index+1]`, `data[index+2]` or `data[index+3]`
      past the end panics. */
  function ScanFrom(d: bytes, index: nat, startIndex: nat, result: seq<bytes>): Exit<seq<bytes>>
    requires startIndex <= index <= |d|
    decreases |d| - index
  {
    if index >= |d| then Normal(if startIndex != 0 then result + [d[startIndex..]] else result)
    else if d[index] != 0 then ScanFrom(d, index + 1, startIndex, result)
    else if index + 1 >= |d| then Panic
    else if d[index + 1] != 0 then ScanFrom(d, index + 2, startIndex, result)
    else if index + 2 >= |d| then Panic
    else if d[index + 2] == 1 then
      ScanFrom(d, index + 3, index + 3, if startIndex != 0 then result + [d[startIndex..index + 3]] else result)
    else if d[index + 2] != 0 then ScanFrom(d, index + 3, startIndex, result)
    else if index + 3 >= |d| then Panic
    else if d[index + 3] == 1 then
      ScanFrom(d, index + 4, index + 4, if startIndex != 0 then result + [d[startIndex..index + 4]] else result)
    else ScanFrom(d, index + 4, startIndex, result)
  }

  function SplitAnnexB(d: bytes): Exit<seq<bytes>> {
    ScanFrom(d, 0, 0, [])
  }

  /** `RemoveAnnexB` as the source writes it. */
  method RemoveAnnexB(data: bytes) returns (r: Exit<seq<bytes>>)
    ensures r == SplitAnnexB(data)
  {
    var result: seq<bytes> := [];
    var startIndex := 0;
    var index := 0;
    while index < |data|
      invariant startIndex <= index <= |data|
      invariant ScanFrom(data, index, startIndex, result) == SplitAnnexB(data)
      decreases |data| - index
    {
      if data[index] != 0x00 {
        index := index + 1;
        continue;
      }
      if index + 1 >= |data| {
        return Panic;
      }
      if data[index + 1] != 0x00 {
        index := index + 2;
        continue;
      }
      if index + 2 >= |data| {
        return Panic;
      }
      if data[index + 2] == 0x01 {
        index := index + 3;
        if startIndex != 0 {
          result := result + [data[startIndex..index]];
        }
        startIndex := index;
        continue;
      }
      if data[index + 2] != 0x00 {
        index := index + 3;
        continue;
      }
      if index + 3 >= |data| {
        return Panic;
      }
      if data[index + 3] == 0x01 {
        index := index + 4;
        if startIndex != 0 {
          result := result + [data[startIndex..index]];
        }
        startIndex := index;
        continue;
      }
      index := index + 4;
    }
    if startIndex != 0 {
      result := result + [data[startIndex..]];
    }
    return Normal(result);
  }

  /** The piece ending at a start code found at `index` (three bytes) or at
      `index + 1` (four bytes) ends with `00 00 01`. */
  lemma FoundPiece(d: bytes, s: nat, next: nat)
    requires s <= next <= |d| && next >= s + 3 && d[next - 3] == 0 && d[next - 2] == 0 && d[next - 1] == 1
    ensures EndsWithStartCode(d[s..next])
  {
  }

  /** Once a start code ending at `s` has been seen, the pieces still to come
      have the shape `Pieces(d, s, _)` and follow the pieces so far. */
  lemma {:induction false} ScanAfterFirst(d: bytes, index: nat, s: nat, result: seq<bytes>)
    requires 0 < s <= index <= |d|
    ensures var r := ScanFrom(d, index, s, result);
      r.Normal? ==> |r.value| > |result| && r.value[..|result|] == result && Pieces(d, s, r.value[|result|..])
    decreases |d| - index
  {
    var r := ScanFrom(d, index, s, result);
    if index >= |d| {
      if r.Normal? {
        assert r.value[|result|..] == [d[s..]];
        assert Flatten([d[s..]]) == d[s..] + Flatten([]);
      }
    } else if d[index] != 0 {
      ScanAfterFirst(d, index + 1, s, result);
    } else if index + 1 >= |d| {
    } else if d[index + 1] != 0 {
      ScanAfterFirst(d, index + 2, s, result);
    } else if index + 2 >= |d| {
    } else if d[index + 2] == 1 {
      ScanFound(d, s, index + 3, result);
    } else if d[index + 2] != 0 {
      ScanAfterFirst(d, index + 3, s, result);
    } else if index + 3 >= |d| {
    } else if d[index + 3] == 1 {
      ScanFound(d, s, index + 4, result);
    } else {
      ScanAfterFirst(d, index + 4, s, result);
    }
  }

  /** The step where the piece `d[s..next]` is appended. */
  lemma {:induction false} ScanFound(d: bytes, s: nat, next: nat, result: seq<bytes>)
    requires 0 < s <= next - 3 && next <= |d| && d[next - 3] == 0 && d[next - 2] == 0 && d[next - 1] == 1
    ensures var r := ScanFrom(d, next, next, result + [d[s..next]]);
      r.Normal? ==> |r.value| > |result| && r.value[..|result|] == result && Pieces(d, s, r.value[|result|..])
    decreases |d| - next + 1
  {
    var more := result + [d[s..next]];
    var r := ScanFrom(d, next, next, more);
    ScanAfterFirst(d, next, next, more);
    if r.Normal? {
      var ps := r.value[|result|..];
      var rest := r.value[|more|..];
      assert r.value[..|result|] == more[..|result|] == result;
      assert ps == [d[s..next]] + rest by {
        assert r.value[..|more|] == more;
      }
      assert ps[1..] == rest;
      FoundPiece(d, s, next);
      SliceSplit(d, s, next);
      assert Flatten(ps) == d[s..next] + Flatten(rest);
      forall i | 0 <= i < |ps| - 1 ensures EndsWithStartCode(ps[i]) {
        if i > 0 {
          assert ps[i] == rest[i - 1];
        }
      }
      assert ps[|ps| - 1] == rest[|rest| - 1];
    }
  }

  /** Before the first start code: once one is found at `k - 3`, the output
      has the shape `Pieces(d, k, _)`. */
  lemma {:induction false} ScanBeforeFirst(d: bytes, index: nat)
    requires index <= |d|
    ensures var r := ScanFrom(d, index, 0, []);
      r.Normal? && r.value != [] ==> exists k :: 3 <= k <= |d| && StartCodeAt(d, k - 3) && Pieces(d, k, r.value)
    decreases |d| - index
  {
    if index >= |d| {
    } else if d[index] != 0 {
      ScanBeforeFirst(d, index + 1);
    } else if index + 1 >= |d| {
    } else if d[index + 1] != 0 {
      ScanBeforeFirst(d, index + 2);
    } else if index + 2 >= |d| {
    } else if d[index + 2] == 1 {
      FirstFound(d, index + 3);
    } else if d[index + 2] != 0 {
      ScanBeforeFirst(d, index + 3);
    } else if index + 3 >= |d| {
    } else if d[index + 3] == 1 {
      FirstFound(d, index + 4);
    } else {
      ScanBeforeFirst(d, index + 4);
    }
  }

  lemma FirstFound(d: bytes, k: nat)
    requires 3 <= k <= |d| && StartCodeAt(d, k - 3)
    ensures var r := ScanFrom(d, k, k, []);
      r.Normal? && r.value != [] ==> exists k' :: 3 <= k' <= |d| && StartCodeAt(d, k' - 3) && Pieces(d, k', r.value)
  {
    var r := ScanFrom(d, k, k, []);
    ScanAfterFirst(d, k, k, []);
    if r.Normal? {
      assert r.value[0..] == r.value;
      assert Pieces(d, k, r.value);
    }
  }

  /** The properties of `RemoveAnnexB`'s output: empty unless a start code
      occurs, and otherwise the pieces concatenate to the data after the
      first start code the loop meets, each but the last ending with the next
      start code and the last running to the end of the data. */
  lemma RemoveAnnexBPieces(d: bytes)
    ensures var r := SplitAnnexB(d);
      r.Normal? && r.value != [] ==> exists k :: 3 <= k <= |d| && StartCodeAt(d, k - 3) && Pieces(d, k, r.value)
  {
    ScanBeforeFirst(d, 0);
  }

  lemma NoStartCodeNoPieces(d: bytes)
    requires forall i :: 0 <= i < |d| ==> !StartCodeAt(d, i)
    ensures SplitAnnexB(d).Normal? ==> SplitAnnexB(d).value == []
  {
    RemoveAnnexBPieces(d);
  }

  /** Both start codes are recognised: `00 00 01 65 00 00 00 01 41` gives the
      piece `65 00 00 00 01` (up to and including the four-byte start code)
      and the piece `41`. */
  lemma BothStartCodes()
    ensures SplitAnnexB([0, 0, 1, 0x65, 0, 0, 0, 1, 0x41]) == Normal([[0x65, 0, 0, 0, 1], [0x41]])
  {
    var d: bytes := [0, 0, 1, 0x65, 0, 0, 0, 1, 0x41];
    var p1, p2 := d[3..8], d[8..];
    assert p1 == [0x65, 0, 0, 0, 1] && p2 == [0x41];
    var r := ScanFrom(d, 8, 8, [p1]);
    assert r == Normal([p1] + [p2]);
    assert r.value == [[0x65, 0, 0, 0, 1], [0x41]];
    assert [] + [p1] == [p1];
    assert ScanFrom(d, 4, 3, []) == r;
    assert ScanFrom(d, 3, 3, []) == r;
    assert ScanFrom(d, 0, 0, []) == r;
  }

  // ---------------------------------------------------------------------
  // The loop as written reads past the end of the data and skips a start
  // code preceded by extra zero bytes; the corrected scanner below does
  // neither.

  /** `00 00 01 65 00`, a NAL unit followed by a trailing zero byte (allowed by
      section B.1 of ITU-T H.264), makes the loop read `data[5]` and panic. */
  lemma TrailingZeroPanics()
    ensures SplitAnnexB([0, 0, 1, 0x65, 0]).Panic?
    ensures FixedSplitAnnexB([0, 0, 1, 0x65, 0]) == [[0x65, 0]]
  {
    var d: bytes := [0, 0, 1, 0x65, 0];
    assert ScanFrom(d, 3, 3, []) == Panic;
    assert d[3..] == [0x65, 0];
    assert FixedFrom(d, 3, 3, []) == [] + [d[3..]];
  }

  /** In `00 00 00 00 01 65` the loop jumps from 0 to 4 over the start code
      at 2 and finds none; the corrected scanner finds it. */
  lemma ExtraZerosHideStartCode()
    ensures SplitAnnexB([0, 0, 0, 0, 1, 0x65]) == Normal([])
    ensures FixedSplitAnnexB([0, 0, 0, 0, 1, 0x65]) == [[0x65]]
  {
    var d: bytes := [0, 0, 0, 0, 1, 0x65];
    assert ScanFrom(d, 4, 0, []) == Normal([]);
    assert d[5..] == [0x65];
    assert FixedFrom(d, 5, 5, []) == [] + [d[5..]];
    assert FixedFrom(d, 2, 0, []) == FixedFrom(d, 5, 5, []);
  }

  /** The corrected loop: it stops when fewer than three bytes are left, and
      after `00 00 00 x` with `x` not 1 it moves on by two bytes, so that a
      start code beginning at the second zero is not skipped. */
  function FixedFrom(d: bytes, index: nat, startIndex: nat, result: seq<bytes>): seq<bytes>
    requires startIndex <= index <= |d|
    decreases |d| - index
  {
    if index + 3 > |d| then (if startIndex != 0 then result + [d[startIndex..]] else result)
    else match FixedMove(d, index)
      case Skip(n) => FixedFrom(d, index + n, startIndex, result)
      case Found(n) =>
        FixedFrom(d, index + n, index + n, if startIndex != 0 then result + [d[startIndex..index + n]] else result)
  }

  /** What the corrected loop does at `index`: move on by `n` bytes, or
      recognise a start code ending `n` bytes further on. */
  datatype Move = Skip(n: nat) | Found(n: nat)

  function FixedMove(d: bytes, index: nat): (m: Move)
    requires index + 3 <= |d|
    ensures 0 < m.n && index + m.n <= |d|
    ensures m.Found? <==> StartCodeAt(d, index) || (index + 4 <= |d| && StartCodeAt(d, index + 1) && d[index] == 0)
    ensures m.Found? ==> m.n >= 3 && StartCodeAt(d, index + m.n - 3)
    ensures m.Found? ==> forall i :: index <= i < index + m.n - 3 ==> !StartCodeAt(d, i)
    ensures m.Skip? ==> forall i :: index <= i < index + m.n ==> !StartCodeAt(d, i)
  {
    if d[index] != 0 then Skip(1)
    else if d[index + 1] != 0 then Skip(2)
    else if d[index + 2] == 1 then Found(3)
    else if d[index + 2] != 0 then Skip(3)
    else if index + 4 > |d| then Skip(1)
    else if d[index + 3] == 1 then Found(4)
    else Skip(2)
  }

  function FixedSplitAnnexB(d: bytes): seq<bytes> {
    FixedFrom(d, 0, 0, [])
  }

  /** The first start code at or after `from`. */
  function FirstStartCode(d: bytes, from: nat): (r: Option<nat>)
    ensures r.Some? ==> from <= r.value && StartCodeAt(d, r.value)
    decreases |d| - from
  {
    if from + 3 > |d| then None
    else if StartCodeAt(d, from) then Some(from)
    else FirstStartCode(d, from + 1)
  }

  /** `FirstStartCode` skips positions that hold no start code. */
  lemma {:induction false} FirstStartCodeSkip(d: bytes, from: nat, to: nat)
    requires from <= to
    requires forall i :: from <= i < to ==> !StartCodeAt(d, i)
    ensures FirstStartCode(d, from) == FirstStartCode(d, to)
    decreases |d| - from
  {
    if from < to && from + 3 <= |d| {
      FirstStartCodeSkip(d, from + 1, to);
    }
  }

  /** No start code anywhere from `from` on when `FirstStartCode` finds none. */
  lemma {:induction false} FirstStartCodeNone(d: bytes, from: nat, i: nat)
    requires FirstStartCode(d, from) == None && from <= i
    ensures !StartCodeAt(d, i)
    decreases |d| - from
  {
    if from < i && from + 3 <= |d| {
      FirstStartCodeNone(d, from + 1, i);
    }
  }

  /** No start code is missed: none begins inside a piece before the start
      code that ends it, and none occurs in the last piece. */
  predicate Maximal(ps: seq<bytes>) {
    && (forall i, j: nat :: 0 <= i < |ps| - 1 && j + 3 < |ps[i]| ==> !StartCodeAt(ps[i], j))
    && (|ps| > 0 ==> NoStartCodeIn(ps[|ps| - 1], 0, |ps[|ps| - 1]|))
  }

  /** No start code begins at a position from `lo` up to `hi`. */
  predicate NoStartCodeIn(d: bytes, lo: nat, hi: nat) {
    forall i :: lo <= i < hi ==> !StartCodeAt(d, i)
  }

  /** A start code in a slice is one in the data. */
  lemma SliceStartCode(d: bytes, lo: nat, hi: nat, j: nat)
    requires lo <= hi <= |d|
    ensures StartCodeAt(d[lo..hi], j) ==> StartCodeAt(d, lo + j)
  {
  }

  /** `r` extends the pieces `result` with maximal pieces of the shape
      `Pieces(d, s, _)`. */
  predicate Continues(d: bytes, s: nat, result: seq<bytes>, r: seq<bytes>)
    requires s <= |d|
  {
    |r| > |result| && r[..|result|] == result && Pieces(d, s, r[|result|..]) && Maximal(r[|result|..])
  }

  /** The corrected scanner after a start code ending at `s`: as for the
      loop as written, but without the possibility of a panic. */
  lemma {:induction false} FixedAfterFirst(d: bytes, index: nat, s: nat, result: seq<bytes>)
    requires 0 < s <= index <= |d| && NoStartCodeIn(d, s, index)
    ensures Continues(d, s, result, FixedFrom(d, index, s, result))
    decreases |d| - index
  {
    var r := FixedFrom(d, index, s, result);
    if index + 3 > |d| {
      assert r[|result|..] == [d[s..]];
      assert Flatten([d[s..]]) == d[s..] + Flatten([]);
      forall j | 0 <= j < |d[s..]| ensures !StartCodeAt(d[s..], j) {
        SliceStartCode(d, s, |d|, j);
      }
    } else {
      var m := FixedMove(d, index);
      if m.Skip? {
        assert r == FixedFrom(d, index + m.n, s, result);
        FixedAfterFirst(d, index + m.n, s, result);
      } else {
        assert r == FixedFrom(d, index + m.n, index + m.n, result + [d[s..index + m.n]]);
        FixedFound(d, s, index + m.n, result);
      }
    }
  }

  lemma {:induction false} FixedFound(d: bytes, s: nat, next: nat, result: seq<bytes>)
    requires 0 < s <= next - 3 && next <= |d| && d[next - 3] == 0 && d[next - 2] == 0 && d[next - 1] == 1
    requires NoStartCodeIn(d, s, next - 3)
    ensures Continues(d, s, result, FixedFrom(d, next, next, result + [d[s..next]]))
    decreases |d| - next + 1
  {
    var more := result + [d[s..next]];
    var r := FixedFrom(d, next, next, more);
    FixedAfterFirst(d, next, next, more);
    var ps := r[|result|..];
    var rest := r[|more|..];
    assert r[..|result|] == more[..|result|] == result;
    assert ps == [d[s..next]] + rest by {
      assert r[..|more|] == more;
    }
    assert ps[1..] == rest;
    FoundPiece(d, s, next);
    SliceSplit(d, s, next);
    assert Flatten(ps) == d[s..next] + Flatten(rest);
    forall i | 0 <= i < |ps| - 1 ensures EndsWithStartCode(ps[i]) {
      if i > 0 {
        assert ps[i] == rest[i - 1];
      }
    }
    forall i, j: nat | 0 <= i < |ps| - 1 && j + 3 < |ps[i]| ensures !StartCodeAt(ps[i], j) {
      if i == 0 {
        SliceStartCode(d, s, next, j);
      } else {
        assert ps[i] == rest[i - 1];
      }
    }
    assert ps[|ps| - 1] == rest[|rest| - 1];
  }

  /** `r` is empty when there is no start code `first`, and has the shape
      `Pieces(d, first + 3, _)`, with no start code missed, when there is. */
  predicate SplitsAtFirst(d: bytes, first: Option<nat>, r: seq<bytes>) {
    && (first.None? ==> r == [])
    && (first.Some? ==> first.value + 3 <= |d| && Pieces(d, first.value + 3, r) && Maximal(r))
  }

  /** The corrected scanner before its first start code: every position it
      moves past holds no start code, so it stops at the first one. */
  lemma {:induction false} FixedBeforeFirst(d: bytes, index: nat)
    requires index <= |d|
    ensures SplitsAtFirst(d, FirstStartCode(d, index), FixedFrom(d, index, 0, []))
    decreases |d| - index
  {
    var r := FixedFrom(d, index, 0, []);
    if index + 3 <= |d| {
      var m := FixedMove(d, index);
      if m.Skip? {
        assert r == FixedFrom(d, index + m.n, 0, []);
        FixedBeforeFirst(d, index + m.n);
        FirstStartCodeSkip(d, index, index + m.n);
      } else {
        if !StartCodeAt(d, index) {
          assert FirstStartCode(d, index) == FirstStartCode(d, index + 1);
        }
        assert r == FixedFrom(d, index + m.n, index + m.n, []);
        FixedFirstFound(d, index + m.n);
      }
    }
  }

  lemma FixedFirstFound(d: bytes, k: nat)
    requires 3 <= k <= |d| && StartCodeAt(d, k - 3)
    ensures Pieces(d, k, FixedFrom(d, k, k, [])) && Maximal(FixedFrom(d, k, k, []))
  {
    var r := FixedFrom(d, k, k, []);
    FixedAfterFirst(d, k, k, []);
    assert r[0..] == r;
  }

  /** The intended behaviour: no pieces when the data holds no start code,
      and otherwise pieces that concatenate to the data after the first start
      code, each but the last ending with the next start code, with no start
      code inside a piece before the one that ends it and none in the last. */
  lemma FixedSplitAnnexBPieces(d: bytes)
    ensures (forall i :: 0 <= i < |d| ==> !StartCodeAt(d, i)) <==> FixedSplitAnnexB(d) == []
    ensures FirstStartCode(d, 0).Some? ==> Pieces(d, FirstStartCode(d, 0).value + 3, FixedSplitAnnexB(d))
    ensures FirstStartCode(d, 0).Some? ==> Maximal(FixedSplitAnnexB(d))
  {
    FixedBeforeFirst(d, 0);
    if FirstStartCode(d, 0).None? {
      forall i | 0 <= i < |d| ensures !StartCodeAt(d, i) {
        FirstStartCodeNone(d, 0, i);
      }
    }
  }
}
