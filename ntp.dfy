/**
 * The 64-bit NTP timestamp of `utils/ntp/ntp.go` (section 6 of RFC 5905):
 * whole seconds since 1900-01-01 00:00 UTC in the upper 32 bits and the
 * fraction of a second, in units of 2^-32 s, in the lower 32. A point in
 * time is given as the `time.Duration` since that epoch, a signed 64-bit
 * count of nanoseconds; `Time` is the epoch plus `Duration`, so on that
 * representation it is `Duration` itself.
 */
module Ntp {
  const Nano: nat := 1_000_000_000
  const Two32: nat := 0x1_0000_0000

  type u64 = x: int | 0 <= x < 0x1_0000_0000_0000_0000

  /** `uint64` of a `time.Duration`: negative values wrap. */
  function AsUint64(d: int): (r: u64)
    requires -0x8000_0000_0000_0000 <= d < 0x8000_0000_0000_0000
    ensures d >= 0 ==> r == d
  {
    if d < 0 then d + 0x1_0000_0000_0000_0000 else d
  }

  /** The fraction for `rem` nanoseconds: rem * 2^32 / 10^9, rounded half
      up. */
  function FractionOf(rem: nat): (f: nat)
    requires rem < Nano
    ensures f < Two32
  {
    var scaled := rem * Two32;
    scaled / Nano + (if scaled % Nano >= Nano / 2 then 1 else 0)
  }

  /** `GetNTPTime`: the seconds, cut to 32 bits by the shift, above the
      fraction. */
  function GetNtpTime(d: int): (t: u64)
    requires -0x8000_0000_0000_0000 <= d < 0x8000_0000_0000_0000
    ensures t / Two32 == (AsUint64(d) / Nano) % Two32
    ensures t % Two32 == FractionOf(AsUint64(d) % Nano)
  {
    var nsec := AsUint64(d);
    var sec := nsec / Nano;
    ((sec % Two32) * Two32) + FractionOf(nsec - sec * Nano)
  }

  /** The nanoseconds for a fraction: f * 10^9 / 2^32, rounded half up. */
  function NanosOf(f: nat): (n: nat)
    requires f < Two32
    ensures n <= Nano
  {
    var scaled := f * Nano;
    scaled / Two32 + (if scaled % Two32 >= 0x8000_0000 then 1 else 0)
  }

  /** `NTPTime.Duration`: it fits a `time.Duration`. */
  function Duration(t: u64): (d: nat)
    ensures d < 0x8000_0000_0000_0000
  {
    (t / Two32) * Nano + NanosOf(t % Two32)
  }

  /** Converting back the fraction of `rem` nanoseconds gives `rem`: the
      fraction is within half a unit of 2^-32 s, which is well under half a
      nanosecond. */
  lemma FractionRoundTrip(rem: nat)
    requires rem < Nano
    ensures NanosOf(FractionOf(rem)) == rem
  {
    var scaled := rem * Two32;
    var q := scaled / Nano;
    var m := scaled % Nano;
    var f := FractionOf(rem);
    var up := m >= Nano / 2;
    assert scaled == q * Nano + m;
    var delta: int := if up then Nano - m else -m;
    assert f == (if up then q + 1 else q);
    assert f * Nano == scaled + delta;
    assert -(Nano / 2) < delta <= Nano / 2;
    var back := f * Nano;
    if delta >= 0 {
      DivModOf(back, rem, delta);
    } else {
      DivModOf(back, rem - 1, Two32 + delta);
    }
  }

  lemma DivModOf(x: nat, q: int, r: int)
    requires 0 <= r < Two32 && x == q * Two32 + r
    ensures x / Two32 == q && x % Two32 == r
  {
  }

  /** The two conversions are inverses on every instant from the epoch up to
      the end of NTP era 0 in 2036. */
  lemma NtpRoundTrip(d: int)
    requires 0 <= d < Two32 * Nano
    ensures Duration(GetNtpTime(d)) == d
  {
    var t := GetNtpTime(d);
    var sec := d / Nano;
    var rem := d % Nano;
    assert d == sec * Nano + rem;
    assert t / Two32 == sec && t % Two32 == FractionOf(rem);
    FractionRoundTrip(rem);
  }

  /** At and after 2036 the seconds wrap: one era later gives the same
      timestamp. */
  lemma NtpEraWraps(d: int)
    requires 0 <= d && d + Two32 * Nano < 0x8000_0000_0000_0000
    ensures GetNtpTime(d + Two32 * Nano) == GetNtpTime(d)
  {
    var sec := d / Nano;
    var rem := d % Nano;
    DivModNano(d + Two32 * Nano, sec + Two32, rem);
    DivModOf(sec + Two32, sec / Two32 + 1, sec % Two32);
  }

  lemma DivModNano(x: nat, q: int, r: int)
    requires 0 <= r < Nano && x == q * Nano + r
    ensures x / Nano == q && x % Nano == r
  {
  }
}
