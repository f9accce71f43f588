/** Time-to-live arithmetic between durations in nanoseconds and whole seconds
    (pd/client/gc_client.go), on Go's 64-bit integers. */
module GcDuration {

  const INT64_MAX: int := 0x7FFF_FFFF_FFFF_FFFF
  const INT64_MIN: int := -0x8000_0000_0000_0000
  const TWO_64: int := 0x1_0000_0000_0000_0000
  const SECOND: int := 1_000_000_000

  predicate Int64(x: int) { INT64_MIN <= x <= INT64_MAX }

  /** Go's division truncates toward zero; the remainder has the dividend's sign. */
  function GoDiv(a: int, b: int): int
    requires b > 0
  {
    if a >= 0 then a / b else -((-a) / b)
  }

  function GoRem(a: int, b: int): int
    requires b > 0
  {
    a - GoDiv(a, b) * b
  }

  function RoundUp(d: int): int {
    if d == INT64_MAX then INT64_MAX
    else GoDiv(d, SECOND) + if GoRem(d, SECOND) != 0 then 1 else 0
  }

  method RoundUpDurationToSeconds(d: int) returns (result: int)
    requires Int64(d)
    ensures result == RoundUp(d) && Int64(result)
  {
    if d == INT64_MAX {
      return INT64_MAX;
    }
    result := GoDiv(d, SECOND);
    if GoRem(d, SECOND) != 0 {
      result := result + 1;
    }
  }

  /** `bits.Mul64`: the high and low halves of the 128-bit product. */
  function Mul64(a: int, b: int): (int, int) {
    (a * b / TWO_64, a * b % TWO_64)
  }

  function Saturating(seconds: int): int {
    if seconds < 0 then 0
    else
      var (h, l) := Mul64(seconds, SECOND);
      if h != 0 || l > INT64_MAX then INT64_MAX else l
  }

  /** The smallest number of seconds not shorter than `d`. */
  ghost predicate IsCeiling(s: int, d: int) { (s - 1) * SECOND < d <= s * SECOND }

  /** Rounding up gives the ceiling of every duration but the sentinel exactly when
      the duration is not negative or is a whole number of seconds. */
  lemma RoundUpIsCeilingIff(d: int)
    requires Int64(d) && d != INT64_MAX
    ensures IsCeiling(RoundUp(d), d) <==> d >= 0 || GoRem(d, SECOND) == 0
  {
  }

  /** One nanosecond less than nothing rounds to a whole second. */
  lemma NegativeRoundsPastCeiling()
    ensures RoundUp(-1) == 1 && !IsCeiling(RoundUp(-1), -1) && IsCeiling(0, -1)
  {
  }

  /** The 128-bit test fires exactly when the product does not fit. */
  lemma SaturatingIsCappedProduct(s: int)
    requires Int64(s)
    ensures s < 0 ==> Saturating(s) == 0
    ensures s >= 0 ==> Saturating(s) == if s * SECOND > INT64_MAX then INT64_MAX else s * SECOND
  {
    if s >= 0 {
      var p := s * SECOND;
      assert p == p / TWO_64 * TWO_64 + p % TWO_64;
    }
  }

  /** Rounding up and saturating are adjoint on all non-negative values but one
      family: the sentinel against seconds that saturate to it. */
  lemma RoundUpSaturatingAdjoint(d: int, s: int)
    requires 0 <= d <= INT64_MAX && 0 <= s <= INT64_MAX
    ensures (RoundUp(d) <= s <==> d <= Saturating(s)) <==> !(d == INT64_MAX && 9_223_372_037 <= s < INT64_MAX)
  {
    SaturatingIsCappedProduct(s);
    if d != INT64_MAX {
      RoundUpIsCeilingIff(d);
      var c := RoundUp(d);
      assert c <= s ==> c * SECOND <= s * SECOND;
      assert c >= s + 1 ==> c * SECOND >= s * SECOND + SECOND;
    }
  }

  /** The time-to-live that arrives is positive, and so acceptable, for every positive
      one and also for negative ones of less than a second. */
  lemma ArrivesPositiveIff(ttl: int)
    requires Int64(ttl)
    ensures Saturating(RoundUp(ttl)) > 0 <==> ttl > 0 || -SECOND < ttl < 0
    ensures -SECOND < ttl < 0 ==> Saturating(RoundUp(ttl)) == SECOND
  {
    SaturatingIsCappedProduct(RoundUp(ttl));
  }

  /** A time-to-live that is sent as seconds and read back is not shorter, and less
      than a second longer; whole seconds and the "never" sentinel are unchanged. */
  lemma RoundTrip(d: int)
    requires 0 <= d <= INT64_MAX
    ensures d <= Saturating(RoundUp(d)) <= INT64_MAX
    ensures Saturating(RoundUp(d)) < d + SECOND
    ensures d % SECOND == 0 || d == INT64_MAX ==> Saturating(RoundUp(d)) == d
  {
    SaturatingIsCappedProduct(RoundUp(d));
    if d != INT64_MAX {
      RoundUpIsCeilingIff(d);
    }
  }
}
