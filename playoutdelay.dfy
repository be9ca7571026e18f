/**
 * The playout-delay RTP header extension of
 * `egress/sessions/whep/playoutdelay/playoutdelay.go`: three bytes holding
 * a 12-bit minimum and a 12-bit maximum delay, in units of 10 ms. When the
 * handler is in use the minimum creeps up by one unit per update interval
 * until it reaches the target; the maximum is always the minimum plus the
 * capacity. The clock is a parameter, in nanoseconds.
 */
module PlayoutDelay {
  import opened Base

  const CapacityTime: int := 5
  const DefaultTargetMin: int := 60
  /** 300 ms. */
  const UpdateIntervalNs: int := 300_000_000
  const FieldModulus: nat := 0x1000

  /** `payload[0..3]` for a minimum and a maximum: `min >> 4`, then the low
      four bits of `min` above bits 11..8 of `max`, then the low byte of
      `max`. Shifting right by k and masking is Euclidean division and
      remainder by powers of two, negative values included. */
  function Encode(curMin: int, curMax: int): (r: bytes)
    ensures |r| == 3
  {
    [(curMin / 16) % 256, (curMin % 16) * 16 + (curMax / 256) % 16, curMax % 256]
  }

  /** The two 12-bit fields as a receiver reads them. */
  function DecodeMin(b: bytes): (m: nat)
    requires |b| == 3
    ensures m < FieldModulus
  {
    (b[0] as int) * 16 + b[1] / 16
  }

  function DecodeMax(b: bytes): (m: nat)
    requires |b| == 3
    ensures m < FieldModulus
  {
    (b[1] as int % 16) * 256 + b[2]
  }

  /** The encoding carries both values modulo 2^12. */
  lemma EncodeRoundTrip(curMin: int, curMax: int)
    ensures DecodeMin(Encode(curMin, curMax)) == curMin % FieldModulus
    ensures DecodeMax(Encode(curMin, curMax)) == curMax % FieldModulus
  {
    var b := Encode(curMin, curMax);
    assert b[1] / 16 == curMin % 16 && b[1] % 16 == (curMax / 256) % 16;
    SplitLow(curMin);
    SplitHigh(curMax);
  }

  /** x mod 2^12 from bits 11..4 and bits 3..0. */
  lemma SplitLow(x: int)
    ensures ((x / 16) % 256) * 16 + x % 16 == x % FieldModulus
  {
    var hi := x / FieldModulus;
    var lo := x % FieldModulus;
    assert x == (hi * 256 + lo / 16) * 16 + lo % 16;
    assert x / 16 == hi * 256 + lo / 16 && x % 16 == lo % 16;
  }

  /** x mod 2^12 from bits 11..8 and bits 7..0. */
  lemma SplitHigh(x: int)
    ensures ((x / 256) % 16) * 256 + x % 256 == x % FieldModulus
  {
    var hi := x / FieldModulus;
    var lo := x % FieldModulus;
    assert x == (hi * 16 + lo / 256) * 256 + lo % 256;
    assert x / 256 == hi * 16 + lo / 256 && x % 256 == lo % 256;
  }

  /** The minimum after one `GetPayload`: reset when not in use, otherwise
      one more while below the target once the interval has elapsed. */
  function NextMin(curMin: int, targetMin: int, use: bool, elapsed: bool): (r: int)
    ensures !use ==> r == 0
    ensures use ==> curMin <= r <= curMin + 1
    ensures use ==> (r == curMin + 1 <==> elapsed && curMin < targetMin)
  {
    if use then (if curMin < targetMin && elapsed then curMin + 1 else curMin) else 0
  }

  /** `n` updates in use, each after the interval. */
  function Updates(curMin: int, targetMin: int, n: nat): int
    decreases n
  {
    if n == 0 then curMin else Updates(NextMin(curMin, targetMin, true, true), targetMin, n - 1)
  }

  /** The minimum reaches the target one unit per update and then stays. */
  lemma {:induction false} UpdatesApproachTarget(curMin: int, targetMin: int, n: nat)
    requires curMin <= targetMin
    ensures Updates(curMin, targetMin, n) == if curMin + n < targetMin then curMin + n else targetMin
    decreases n
  {
    if n > 0 {
      UpdatesApproachTarget(NextMin(curMin, targetMin, true, true), targetMin, n - 1);
    }
  }

  class Handler {
    const id: int
    const use: bool
    var targetMin: int
    const payload: array<byte>
    const updateInterval: int
    var curMin: int
    var updateTime: int

    /** The payload is either still the zeroed buffer of a handler whose
        minimum never moved, or the encoding of the current minimum and
        maximum. */
    ghost predicate Valid()
      reads this, payload
    {
      && payload.Length == 3 && curMin >= 0
      && (payload[..] == Encode(curMin, curMin + CapacityTime) || (payload[..] == [0, 0, 0] && curMin == 0))
    }

    /** `NewHandler`, with the time of creation as a parameter. */
    constructor (id: int, use: bool, now: int)
      ensures Valid() && fresh(payload)
      ensures this.id == id && this.use == use && targetMin == DefaultTargetMin
      ensures curMin == 0 && updateTime == now && updateInterval == UpdateIntervalNs
    {
      this.id := id;
      this.use := use;
      targetMin := DefaultTargetMin;
      payload := new byte[3](_ => 0);
      updateInterval := UpdateIntervalNs;
      curMin := 0;
      updateTime := now;
      new;
      assert payload[..] == [0, 0, 0];
    }

    method SetTargetMin(min: int)
      modifies this
      ensures targetMin == min && curMin == old(curMin) && updateTime == old(updateTime)
    {
      targetMin := min;
    }

    /** `GetPayload` at time `now`: always the handler's id, its one payload
        buffer and true; the buffer is rewritten exactly when the minimum
        moves. */
    method GetPayload(now: int) returns (rid: int, r: array<byte>, ok: bool)
      requires Valid()
      modifies this, payload
      ensures Valid() && rid == id && r == payload && ok
      ensures targetMin == old(targetMin)
      ensures curMin == NextMin(old(curMin), targetMin, use, now - old(updateTime) > updateInterval)
      ensures curMin != old(curMin) ==> payload[..] == Encode(curMin, curMin + CapacityTime) && updateTime == now
      ensures curMin == old(curMin) ==> payload[..] == old(payload[..]) && updateTime == old(updateTime)
    {
      var prevMin := curMin;
      if use {
        if curMin < targetMin && now - updateTime > updateInterval {
          curMin := curMin + 1;
        }
      } else {
        curMin := 0;
      }
      var curMax := curMin + CapacityTime;
      if prevMin != curMin {
        updateTime := now;
        payload[0] := (curMin / 16) % 256;
        payload[1] := (curMin % 16) * 16 + (curMax / 256) % 16;
        payload[2] := curMax % 256;
        assert payload[..] == Encode(curMin, curMax);
      }
      return id, payload, true;
    }
  }
}
