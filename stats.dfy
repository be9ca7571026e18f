/**
 * The RTP receiver statistics of `ingress/sessions/rtpinbounder/stats.go`:
 * the sequence-number bookkeeping of appendix A.1 of RFC 3550 (base and
 * highest sequence number, wrap-around cycles), the expected and lost
 * counts of appendix A.3, and the delay since the last sender report of
 * section 6.4.1, in units of 1/65536 s. All counters are Go `uint32` or
 * `uint16` and wrap. Clock readings are parameters.
 */
module RtpStats {
  import opened Base

  const MaxSN: nat := 0x1_0000
  const Two32: nat := 0x1_0000_0000

  function Pow2(k: nat): (r: nat)
    ensures r >= 1
  {
    if k == 0 then 1 else 2 * Pow2(k - 1)
  }

  lemma Pow2Sixteen()
    ensures Pow2(16) == MaxSN
  {
    assert Pow2(4) == 16;
    assert Pow2(8) == 256;
    assert Pow2(12) == 4096;
  }

  /** Bitwise or of two naturals. */
  function BitOr(a: nat, b: nat): nat
    decreases a + b
  {
    if a == 0 then b
    else if b == 0 then a
    else (if a % 2 == 1 || b % 2 == 1 then 1 else 0) + 2 * BitOr(a / 2, b / 2)
  }

  /** Or-ing a value below 2^k into a multiple of 2^k adds it. */
  lemma {:induction false} OrDisjoint(hi: nat, m: nat, k: nat)
    requires m < Pow2(k)
    ensures BitOr(hi * Pow2(k), m) == hi * Pow2(k) + m
    decreases k
  {
    if k > 0 && hi > 0 && m > 0 {
      var p := Pow2(k - 1);
      assert hi * Pow2(k) == 2 * (hi * p);
      assert (hi * Pow2(k)) / 2 == hi * p && (hi * Pow2(k)) % 2 == 0;
      OrDisjoint(hi, m / 2, k - 1);
    }
  }

  /** The per-packet sequence state. */
  datatype SeqState = SeqState(packetCount: u32, totalBytes: u32, baseSeqNo: u16, maxSeqNo: u16, cycle: u32)

  const Fresh := SeqState(0, 0, 0, 0, 0)

  /** `(sn - maxSeqNo) & 0x8000 == 0` in 16-bit arithmetic: `sn` is at most
      half the sequence space ahead. */
  predicate Forward(sn: u16, max: u16) {
    (sn - max) % MaxSN < 0x8000
  }

  /** The low 16 bits of the cycle count are zero. */
  predicate CycleAligned(s: SeqState) {
    s.cycle % MaxSN == 0
  }

  /** The sequence part of `CalcRTPStats` for a packet of `n` bytes. */
  function Receive(s: SeqState, sn: u16, n: int): (r: SeqState)
    ensures CycleAligned(s) ==> CycleAligned(r)
    ensures r.packetCount == (s.packetCount + 1) % Two32 && r.totalBytes == (s.totalBytes + n) % Two32
    ensures s.packetCount == 0 ==> r.baseSeqNo == sn && r.maxSeqNo == sn && r.cycle == s.cycle
    ensures s.packetCount != 0 ==> r.baseSeqNo == s.baseSeqNo
    ensures s.packetCount != 0 && !Forward(sn, s.maxSeqNo) ==> r.maxSeqNo == s.maxSeqNo && r.cycle == s.cycle
    ensures s.packetCount != 0 && Forward(sn, s.maxSeqNo) ==>
      r.maxSeqNo == sn && r.cycle == (if sn < s.maxSeqNo then (s.cycle + MaxSN) % Two32 else s.cycle)
  {
    var count := (s.packetCount + 1) % Two32;
    var total := (s.totalBytes + n) % Two32;
    if s.packetCount == 0 then SeqState(count, total, sn, sn, s.cycle)
    else if Forward(sn, s.maxSeqNo) then
      var cycle := if sn < s.maxSeqNo then (s.cycle + MaxSN) % Two32 else s.cycle;
      SeqState(count, total, s.baseSeqNo, sn, cycle)
    else SeqState(count, total, s.baseSeqNo, s.maxSeqNo, s.cycle)
  }

  /** `extMaxSeqNo`: `cycle | maxSeqNo`, which is their sum. */
  function ExtMaxSeqNo(s: SeqState): (r: nat)
    requires CycleAligned(s)
    ensures r == s.cycle + s.maxSeqNo && r < Two32
  {
    Pow2Sixteen();
    OrDisjoint(s.cycle / MaxSN, s.maxSeqNo, 16);
    BitOr(s.cycle, s.maxSeqNo)
  }

  /** The counts of a receiver report: expected and lost in total, and over
      the interval since the previous report. */
  datatype Counts = Counts(expected: u32, lost: u32, expectedInterval: u32, lostInterval: u32)

  function ReportCounts(s: SeqState, prevExpect: u32, prevLost: u32): (r: Counts)
    requires CycleAligned(s)
    ensures r.expected == (ExtMaxSeqNo(s) - s.baseSeqNo + 1) % Two32
    ensures r.lost == (r.expected - s.packetCount) % Two32
    ensures r.expectedInterval == (r.expected - prevExpect) % Two32 && r.lostInterval == (r.lost - prevLost) % Two32
  {
    var expected := (ExtMaxSeqNo(s) - s.baseSeqNo + 1) % Two32;
    var lost := (expected - s.packetCount) % Two32;
    Counts(expected, lost, (expected - prevExpect) % Two32, (lost - prevLost) % Two32)
  }

  /** The packets of a stream, received in order. */
  function ReceiveAll(s: SeqState, sns: seq<u16>): SeqState
    decreases |sns|
  {
    if |sns| == 0 then s else ReceiveAll(Receive(s, sns[0], 0), sns[1..])
  }

  /** Extended sequence numbers that increase by less than half the
      sequence space at each step, and stay below 2^32. */
  predicate Ascending(es: seq<int>) {
    (forall i :: 0 <= i < |es| ==> 0 <= es[i] < Two32)
    && forall i :: 0 < i < |es| ==> es[i - 1] < es[i] < es[i - 1] + 0x8000
  }

  function Wire(es: seq<int>): (r: seq<u16>)
    ensures |r| == |es| && forall i :: 0 <= i < |es| ==> r[i] == es[i] % MaxSN
  {
    if |es| == 0 then [] else [es[0] % MaxSN] + Wire(es[1..])
  }

  /** While the extended sequence number `e` is tracked, a packet further
      ahead by `d` < 2^15 is counted forward, across a wrap if there is
      one. */
  lemma ForwardStep(s: SeqState, e: nat, d: nat)
    requires s.packetCount != 0 && CycleAligned(s) && s.cycle + s.maxSeqNo == e && s.maxSeqNo == e % MaxSN
    requires 0 < d < 0x8000 && e + d < Two32
    ensures var r := Receive(s, (e + d) % MaxSN, 0);
      r.cycle + r.maxSeqNo == e + d && r.maxSeqNo == (e + d) % MaxSN
  {
    var q := e / MaxSN;
    var m := e % MaxSN;
    assert e == q * MaxSN + m;
    if m + d < MaxSN {
      assert (e + d) % MaxSN == m + d by {
        DivModMaxSN(e + d, q, m + d);
      }
    } else {
      assert (e + d) % MaxSN == m + d - MaxSN by {
        DivModMaxSN(e + d, q + 1, m + d - MaxSN);
      }
    }
  }

  lemma DivModMaxSN(x: nat, q: int, r: int)
    requires 0 <= r < MaxSN && x == q * MaxSN + r
    ensures x / MaxSN == q && x % MaxSN == r
  {
  }

  lemma AscendingTail(es: seq<int>)
    requires |es| >= 1 && Ascending(es)
    ensures Ascending(es[1..])
  {
    assert forall i :: 0 < i < |es| - 1 ==> es[1..][i - 1] == es[i] && es[1..][i] == es[i + 1];
  }

  lemma ReceiveAllCons(s: SeqState, x: u16, w: seq<u16>)
    ensures ReceiveAll(s, [x] + w) == ReceiveAll(Receive(s, x, 0), w)
  {
    assert ([x] + w)[0] == x && ([x] + w)[1..] == w;
  }

  /** `s` has seen a packet and its highest extended number is `e`. */
  predicate Tracks(s: SeqState, e: int) {
    s.packetCount != 0 && CycleAligned(s) && s.cycle + s.maxSeqNo == e && s.maxSeqNo == e % MaxSN
  }

  /** One packet of an ascending run is counted and tracked. */
  lemma TrackStep(s: SeqState, e: int, next: int)
    requires Tracks(s, e) && s.packetCount + 1 < Two32
    requires 0 <= e < next < e + 0x8000 && next < Two32
    ensures var s1 := Receive(s, next % MaxSN, 0);
      Tracks(s1, next) && s1.packetCount == s.packetCount + 1 && s1.baseSeqNo == s.baseSeqNo
  {
    ForwardStep(s, e, next - e);
  }

  /** The state after an ascending run of packets has been received on top
      of a state that already tracks its first extended number. */
  lemma {:induction false} TracksAscending(s: SeqState, es: seq<int>)
    requires |es| >= 1 && Ascending(es) && Tracks(s, es[0]) && s.packetCount + |es| - 1 < Two32
    ensures var r := ReceiveAll(s, Wire(es[1..]));
      Tracks(r, es[|es| - 1]) && r.packetCount == s.packetCount + |es| - 1 && r.baseSeqNo == s.baseSeqNo
    decreases |es|
  {
    if |es| > 1 {
      var tail := es[1..];
      AscendingTail(es);
      TrackStep(s, es[0], tail[0]);
      var s1 := Receive(s, tail[0] % MaxSN, 0);
      assert Wire(tail) == [tail[0] % MaxSN] + Wire(tail[1..]);
      ReceiveAllCons(s, tail[0] % MaxSN, Wire(tail[1..]));
      TracksAscending(s1, tail);
      assert tail[|tail| - 1] == es[|es| - 1];
    }
  }

  /** A fresh receiver that sees an ascending run of packets starting in the
      first cycle expects exactly the span of the run and counts as lost
      exactly the numbers it never saw. */
  lemma ExpectedAndLost(es: seq<int>)
    requires |es| >= 1 && Ascending(es) && es[0] < MaxSN && es[|es| - 1] - es[0] + 1 < Two32
    ensures var r := ReceiveAll(Fresh, Wire(es));
      && CycleAligned(r)
      && ReportCounts(r, 0, 0).expected == es[|es| - 1] - es[0] + 1
      && ReportCounts(r, 0, 0).lost == es[|es| - 1] - es[0] + 1 - |es|
  {
    var first := es[0] % MaxSN;
    assert first == es[0];
    var s1 := Receive(Fresh, first, 0);
    assert s1 == SeqState(1, 0, first, first, 0);
    assert Wire(es) == [first] + Wire(es[1..]);
    ReceiveAllCons(Fresh, first, Wire(es[1..]));
    AscendingSpan(es);
    TracksAscending(s1, es);
    var r := ReceiveAll(s1, Wire(es[1..]));
    assert ReceiveAll(Fresh, Wire(es)) == r;
    assert ExtMaxSeqNo(r) == es[|es| - 1] && r.baseSeqNo == es[0] && r.packetCount == |es|;
    CountsOfSpan(r, es[|es| - 1] - es[0] + 1, |es|);
  }

  lemma CountsOfSpan(r: SeqState, span: int, n: int)
    requires CycleAligned(r) && ExtMaxSeqNo(r) - r.baseSeqNo + 1 == span
    requires r.packetCount == n && 0 <= n <= span < Two32
    ensures ReportCounts(r, 0, 0).expected == span && ReportCounts(r, 0, 0).lost == span - n
  {
    SmallMod(span);
    SmallMod(span - n);
  }

  lemma SmallMod(x: int)
    requires 0 <= x < Two32
    ensures x % Two32 == x
  {
  }

  /** An ascending run spans at least as many numbers as it has packets. */
  lemma {:induction false} AscendingSpan(es: seq<int>)
    requires |es| >= 1 && Ascending(es)
    ensures es[|es| - 1] - es[0] + 1 >= |es|
    decreases |es|
  {
    if |es| > 1 {
      AscendingTail(es);
      AscendingSpan(es[1..]);
    }
  }

  /** Go's `/` on `int`, which truncates toward zero. */
  function TruncDiv(a: int, b: nat): int
    requires b > 0
  {
    if a >= 0 then a / b else -((-a) / b)
  }

  /** Go's quotient rounds toward zero: the remainder has the sign of the
      dividend and is smaller than the divisor, and negating the dividend
      negates the quotient. */
  lemma TruncDivTowardZero(a: int, b: nat)
    requires b > 0
    ensures var r := a - TruncDiv(a, b) * b;
      -(b as int) < r < b && (a >= 0 ==> r >= 0) && (a <= 0 ==> r <= 0)
    ensures TruncDiv(-a, b) == -TruncDiv(a, b)
  {
  }

  /** The delay-since-last-SR field for an elapsed time in nanoseconds:
      whole milliseconds in a `uint32`, then seconds in the upper 16 bits
      or-ed with the milliseconds as 1/65536 s in the lower. */
  function DlsrOf(elapsedNs: int): (r: nat)
    ensures var delayMS := TruncDiv(elapsedNs, 1_000_000) % Two32;
      r == ((delayMS / 1000) * MaxSN) % Two32 + (delayMS % 1000) * MaxSN / 1000
  {
    var delayMS := TruncDiv(elapsedNs, 1_000_000) % Two32;
    var high := ((delayMS / 1000) * MaxSN) % Two32;
    var low := (delayMS % 1000) * MaxSN / 1000;
    HighIsAligned(delayMS / 1000);
    Pow2Sixteen();
    OrDisjoint(high / MaxSN, low, 16);
    BitOr(high, low)
  }

  /** A 16-bit shift in a `uint32` leaves the low 16 bits clear. */
  lemma HighIsAligned(q: nat)
    ensures ((q * MaxSN) % Two32) % MaxSN == 0
  {
    var k := (q * MaxSN) / Two32;
    assert q * MaxSN == k * Two32 + (q * MaxSN) % Two32;
    assert (q * MaxSN) % Two32 == (q - k * MaxSN) * MaxSN;
  }

  /** `GetReceiverReport` as written: the elapsed time is the nanosecond
      within the current second minus the Unix time, in nanoseconds, at
      which the last sender report arrived. */
  function DlsrAsWritten(nowNanosecondOfSecond: int, lastSRUnixNano: int): nat {
    if lastSRUnixNano != 0 then DlsrOf(nowNanosecondOfSecond - lastSRUnixNano) else 0
  }

  /** Evidently intended: the elapsed Unix time since the last sender report. */
  function Dlsr(nowUnixNano: int, lastSRUnixNano: int): nat {
    if lastSRUnixNano != 0 then DlsrOf(nowUnixNano - lastSRUnixNano) else 0
  }

  /** The corrected field is the delay in units of 1/65536 s, counted from
      whole milliseconds, for any delay under 65536 seconds. */
  lemma DlsrUnits(nowUnixNano: int, lastSRUnixNano: int)
    requires lastSRUnixNano != 0 && 0 <= nowUnixNano - lastSRUnixNano < 65536 * 1_000_000_000
    ensures Dlsr(nowUnixNano, lastSRUnixNano) == ((nowUnixNano - lastSRUnixNano) / 1_000_000) * MaxSN / 1000
  {
    var ms := (nowUnixNano - lastSRUnixNano) / 1_000_000;
    assert TruncDiv(nowUnixNano - lastSRUnixNano, 1_000_000) % Two32 == ms;
    MillisecondUnits(ms);
  }

  lemma MillisecondUnits(ms: nat)
    requires ms < 65536 * 1000
    ensures ((ms / 1000) * MaxSN) % Two32 + (ms % 1000) * MaxSN / 1000 == ms * MaxSN / 1000
  {
    var q := ms / 1000;
    var m := ms % 1000;
    assert ms == q * 1000 + m;
    assert q * MaxSN < Two32;
    assert ms * MaxSN == (q * MaxSN) * 1000 + m * MaxSN;
    DivSplit1000(q * MaxSN * 1000, m * MaxSN);
  }

  lemma DivSplit1000(a: nat, b: nat)
    requires a % 1000 == 0
    ensures (a + b) / 1000 == a / 1000 + b / 1000
  {
    var k := a / 1000;
    assert a == k * 1000;
    assert a + b == (k + b / 1000) * 1000 + b % 1000;
  }

  /** Half a second after a sender report that arrived at a whole second,
      the delay should read 0.5 s, which is 32768; as written it does not. */
  lemma DlsrAsWrittenWrong()
    ensures Dlsr(1_700_000_000_500_000_000, 1_700_000_000_000_000_000) == 32768
    ensures DlsrAsWritten(500_000_000, 1_700_000_000_000_000_000) != 32768
  {
    DlsrUnits(1_700_000_000_500_000_000, 1_700_000_000_000_000_000);
    var bad := TruncDiv(500_000_000 - 1_700_000_000_000_000_000, 1_000_000) % Two32;
    assert bad == 807049716;
    assert DlsrAsWritten(500_000_000, 1_700_000_000_000_000_000) == 1351155712 + 46923;
  }

  class Stats {
    const clockRate: u32
    const ssrc: u32
    var packetCount: u32
    var totalBytes: u32
    var baseSeqNo: u16
    var maxSeqNo: u16
    var cycle: u32
    var prevExpect: u32
    var prevPacketLost: u32
    var lastSRNTPTime: nat
    var lastSRTime: int

    function SeqOf(): SeqState
      reads this
    {
      SeqState(packetCount, totalBytes, baseSeqNo, maxSeqNo, cycle)
    }

    ghost predicate Valid()
      reads this
    {
      CycleAligned(SeqOf())
    }

    /** `NewStats`. */
    constructor (clockRate: u32, ssrc: u32)
      ensures Valid() && SeqOf() == Fresh && prevExpect == 0 && prevPacketLost == 0 && lastSRTime == 0
      ensures this.clockRate == clockRate && this.ssrc == ssrc
    {
      this.clockRate := clockRate;
      this.ssrc := ssrc;
      packetCount, totalBytes, baseSeqNo, maxSeqNo, cycle := 0, 0, 0, 0, 0;
      prevExpect, prevPacketLost := 0, 0;
      lastSRNTPTime, lastSRTime := 0, 0;
    }

    /** The sequence part of `CalcRTPStats`. */
    method CalcRTPStats(sn: u16, n: int)
      requires Valid()
      modifies this
      ensures Valid() && SeqOf() == Receive(old(SeqOf()), sn, n)
      ensures prevExpect == old(prevExpect) && prevPacketLost == old(prevPacketLost)
      ensures lastSRNTPTime == old(lastSRNTPTime) && lastSRTime == old(lastSRTime)
    {
      if packetCount == 0 {
        baseSeqNo := sn;
        maxSeqNo := sn;
      } else if (sn - maxSeqNo) % MaxSN < 0x8000 {
        if sn < maxSeqNo {
          cycle := (cycle + MaxSN) % Two32;
        }
        maxSeqNo := sn;
      }
      packetCount := (packetCount + 1) % Two32;
      totalBytes := (totalBytes + n) % Two32;
    }

    /** `UpdateSR`, with the arrival time as a parameter. */
    method UpdateSR(ntpTime: nat, nowUnixNano: int)
      modifies this
      ensures lastSRNTPTime == ntpTime && lastSRTime == nowUnixNano
      ensures SeqOf() == old(SeqOf()) && prevExpect == old(prevExpect) && prevPacketLost == old(prevPacketLost)
    {
      lastSRNTPTime := ntpTime;
      lastSRTime := nowUnixNano;
    }

    /** The counts, the highest sequence number, the middle 32 bits of the
        last sender report's NTP time and the delay since it; the counts
        become the previous ones. The delay is measured from the Unix time
        `nowUnixNano`, as `Dlsr` corrects `DlsrAsWritten`. */
    method GetReceiverReport(nowUnixNano: int) returns (counts: Counts, lastSequenceNumber: u32, lastSenderReport: u32, delay: nat)
      requires Valid()
      modifies this
      ensures var c := ReportCounts(old(SeqOf()), old(prevExpect), old(prevPacketLost));
        && counts == c && prevExpect == c.expected && prevPacketLost == c.lost
      ensures lastSequenceNumber == maxSeqNo && lastSenderReport == (lastSRNTPTime / MaxSN) % Two32
      ensures delay == Dlsr(nowUnixNano, lastSRTime)
      ensures Valid() && SeqOf() == old(SeqOf()) && lastSRNTPTime == old(lastSRNTPTime) && lastSRTime == old(lastSRTime)
    {
      var packetExpect := (ExtMaxSeqNo(SeqOf()) - baseSeqNo + 1) % Two32;
      var packetLost := (packetExpect - packetCount) % Two32;
      counts := Counts(packetExpect, packetLost, (packetExpect - prevExpect) % Two32, (packetLost - prevPacketLost) % Two32);
      lastSequenceNumber := maxSeqNo;
      lastSenderReport := (lastSRNTPTime / MaxSN) % Two32;
      delay := 0;
      if lastSRTime != 0 {
        delay := DlsrOf(nowUnixNano - lastSRTime);
      }
      prevExpect := packetExpect;
      prevPacketLost := packetLost;
    }
  }
}
