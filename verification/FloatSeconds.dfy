/** The whole seconds of `math.Floor(d.Seconds())` (pd/server/gc_service.go):
    `Seconds()` is a 64-bit float, rounded to 53 bits.  For many seconds that can lift
    a fraction just below one to the next whole second before it is floored. */
module FloatSeconds {

  import opened Arithmetic
  import opened GcDuration

  const TWO_52: nat := 0x10_0000_0000_0000
  const TWO_53: nat := 0x20_0000_0000_0000

  /** The largest power of two that is at most `seconds`, or 1. */
  function TopBit(seconds: nat): (p: nat)
    ensures 1 <= p && (seconds >= 1 ==> p <= seconds)
  {
    if seconds < 2 then 1 else 2 * TopBit(seconds / 2)
  }

  /** How many nanoseconds below the next whole second are rounded up to it: half the
      distance of neighbouring floats. */
  function Slack(seconds: nat): nat { TopBit(seconds) * SECOND / TWO_53 }

  /** What rounding adds to the time left before it is floored. */
  function RoundedBy(left: nat): nat {
    var gap := SECOND - left % SECOND;
    if gap <= Slack(left / SECOND) then gap else 0
  }

  function FlooredSeconds(left: nat): nat { (left + RoundedBy(left)) / SECOND }

  lemma SlackIsSmall(left: nat)
    requires left <= INT64_MAX
    ensures Slack(left / SECOND) <= 1023 && RoundedBy(left) <= 1023
  {
    var sec := left / SECOND;
    assert TopBit(sec) <= 9_223_372_036;
    assert TopBit(sec) * SECOND <= 9_223_372_036 * SECOND;
  }

  lemma QuotientAtLeast(g: nat, x: nat, d: nat)
    requires d >= 1
    ensures g <= x / d <==> g * d <= x
  {
    QuotientBounds(x, d);
    if g <= x / d { MulMonotone(g, x / d, d); } else { MulMonotone(x / d + 1, g, d); }
  }

  lemma ScaledAtMost(a: nat, b: nat, p: nat)
    requires p >= 1
    ensures a * p <= b * p <==> a <= b
  {
    if a <= b { MulMonotone(a, b, p); } else { MulMonotone(b + 1, a, p); }
  }

  lemma Regrouped(gap: nat, grid: nat, p: nat)
    ensures 2 * (gap * grid) * p == gap * (2 * (p * grid))
  {
  }

  /** Whether the gap to the next second is at most half a grid step. */
  lemma SlackIff(seconds: nat, grid: nat, gap: nat)
    requires TopBit(seconds) * grid == TWO_52
    ensures gap <= Slack(seconds) <==> 2 * (gap * grid) <= SECOND
  {
    var p := TopBit(seconds);
    QuotientAtLeast(gap, p * SECOND, TWO_53);
    Regrouped(gap, grid, p);
    ScaledAtMost(2 * (gap * grid), SECOND, p);
  }

  /** Whole seconds have `grid` floats each, and `m` counts grid steps: the float
      nearest to the time left, computed with an additional error of `off` half-units,
      floors to `FlooredSeconds`.  The error of the fraction's own rounding is far
      below the distance of the threshold from any nanosecond. */
  lemma NearestFloatFloor(left: nat, grid: nat, m: nat, off: nat)
    requires TopBit(left / SECOND) * grid == TWO_52 && grid >= 1
    requires off < SECOND % (2 * grid) && off + SECOND % (2 * grid) < 2 * grid
    requires -SECOND - off <= 2 * (m * SECOND - left * grid) <= SECOND + off
    ensures m / grid == FlooredSeconds(left)
  {
    NearestSecond(left, grid, m, off);
    FlooredIs(left);
  }

  lemma NearestSecond(left: nat, grid: nat, m: nat, off: nat)
    requires TopBit(left / SECOND) * grid == TWO_52 && grid >= 1
    requires off < SECOND % (2 * grid) && off + SECOND % (2 * grid) < 2 * grid
    requires -SECOND - off <= 2 * (m * SECOND - left * grid) <= SECOND + off
    ensures m / grid == left / SECOND + if SECOND - left % SECOND <= Slack(left / SECOND) then 1 else 0
  {
    GridFacts(left, grid, off);
    NearestStep(left / SECOND, grid, left * grid, (SECOND - left % SECOND) * grid, m, off);
  }

  lemma GridFacts(left: nat, grid: nat, off: nat)
    requires TopBit(left / SECOND) * grid == TWO_52 && grid >= 1
    requires off < SECOND % (2 * grid) && off + SECOND % (2 * grid) < 2 * grid
    ensures var sec, gap := left / SECOND, SECOND - left % SECOND;
            && off < SECOND
            && (sec + 1) * grid * SECOND == left * grid + gap * grid
            && sec * grid * SECOND <= left * grid
            && (2 * (gap * grid) + off < SECOND || 2 * (gap * grid) > SECOND + off)
            && (gap <= Slack(sec) <==> 2 * (gap * grid) <= SECOND)
  {
    var sec, gap := left / SECOND, SECOND - left % SECOND;
    SlackIff(sec, grid, gap);
    GridPosition(left, grid, gap);
    WholeSecondsBelow(left, grid);
    Threshold(gap, grid, off);
  }

  lemma NearestStep(sec: nat, grid: nat, position: nat, x: nat, m: nat, off: nat)
    requires grid >= 1 && off < SECOND
    requires (sec + 1) * grid * SECOND == position + x && sec * grid * SECOND <= position
    requires 2 * x + off < SECOND || 2 * x > SECOND + off
    requires -SECOND - off <= 2 * (m * SECOND - position) <= SECOND + off
    ensures m / grid == sec + if 2 * x <= SECOND then 1 else 0
  {
    var top, base := (sec + 1) * grid, sec * grid;
    assert top == base + grid;
    if 2 * x <= SECOND {
      NearestIsTop(position, x, top, m, off);
      QuotientIs(m, grid, sec + 1);
    } else {
      NearestIsBelow(position, x, top, base, m, off);
      QuotientIs(m, grid, sec);
    }
  }

  lemma NearestIsTop(position: nat, x: nat, top: nat, m: nat, off: nat)
    requires top * SECOND == position + x && 2 * x + off < SECOND
    requires -SECOND - off <= 2 * (m * SECOND - position) <= SECOND + off
    ensures m == top
  {
  }

  lemma NearestIsBelow(position: nat, x: nat, top: nat, base: nat, m: nat, off: nat)
    requires top * SECOND == position + x && 2 * x > SECOND + off && base * SECOND <= position && off < SECOND
    requires -SECOND - off <= 2 * (m * SECOND - position) <= SECOND + off
    ensures base <= m < top
  {
  }

  lemma WholeSecondsBelow(left: nat, grid: nat)
    ensures left / SECOND * grid * SECOND <= left * grid
  {
    var whole := left / SECOND * SECOND;
    MulMonotone(whole, left, grid);
    assert left / SECOND * grid * SECOND == whole * grid;
  }

  lemma GridPosition(left: nat, grid: nat, gap: nat)
    requires gap == SECOND - left % SECOND
    ensures (left / SECOND + 1) * grid * SECOND == left * grid + gap * grid
  {
    var sec := left / SECOND;
    assert left + gap == (sec + 1) * SECOND;
    assert (left + gap) * grid == (sec + 1) * SECOND * grid;
  }

  lemma Threshold(gap: nat, grid: nat, off: nat)
    requires grid >= 1 && off < SECOND % (2 * grid) && off + SECOND % (2 * grid) < 2 * grid
    ensures off < SECOND
    ensures 2 * (gap * grid) + off < SECOND || 2 * (gap * grid) > SECOND + off
  {
    var step := 2 * grid;
    var q, r := SECOND / step, SECOND % step;
    assert SECOND == q * step + r;
    assert 2 * (gap * grid) == gap * step;
    if gap <= q {
      MulMonotone(gap, q, step);
    } else {
      MulMonotone(q + 1, gap, step);
      assert (q + 1) * step == q * step + step;
    }
  }

  lemma FlooredIs(left: nat)
    ensures FlooredSeconds(left) == left / SECOND + if RoundedBy(left) > 0 then 1 else 0
    ensures RoundedBy(left) > 0 ==> FlooredSeconds(left) * SECOND == left + RoundedBy(left)
  {
  }

  lemma {:induction false} TopBitDoubles(seconds: nat)
    requires seconds >= 1
    ensures TopBit(2 * seconds) == 2 * TopBit(seconds)
  {
    assert 2 * seconds / 2 == seconds;
  }

  function Pow2(n: nat): (p: nat)
    ensures p >= 1
  {
    if n == 0 then 1 else 2 * Pow2(n - 1)
  }

  lemma {:induction false} TopBitOfPower(n: nat)
    ensures TopBit(Pow2(n)) == Pow2(n)
  {
    if n > 0 {
      TopBitOfPower(n - 1);
      TopBitDoubles(Pow2(n - 1));
    }
  }

  lemma Pow2Of25()
    ensures Pow2(25) == 33_554_432
  {
    assert Pow2(5) == 32;
    assert Pow2(10) == 1_024;
    assert Pow2(15) == 32_768;
    assert Pow2(20) == 1_048_576;
  }

  lemma SlackOfPower(n: nat)
    ensures Slack(Pow2(n)) == Pow2(n) * SECOND / TWO_53
  {
    TopBitOfPower(n);
  }

  lemma RoundedUpByOne(sec: nat)
    requires Slack(sec) >= 1
    ensures var left := (sec + 1) * SECOND - 1;
            RoundedBy(left) == 1 && FlooredSeconds(left) == sec + 1
  {
    var left := (sec + 1) * SECOND - 1;
    assert left / SECOND == sec && left % SECOND == SECOND - 1;
    FlooredIs(left);
  }

  /** From 2^25 seconds on, more than a year, one nanosecond below the next second is
      rounded up to it. */
  lemma YearRoundsUp()
    ensures RoundedBy(33_554_433 * SECOND - 1) == 1 && FlooredSeconds(33_554_433 * SECOND - 1) == 33_554_433
  {
    Pow2Of25();
    SlackOfPower(25);
    assert Slack(Pow2(25)) == 3;
    RoundedUpByOne(Pow2(25));
  }
}
