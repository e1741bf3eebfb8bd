/** The token formula of goal accounting (`agent/goal/src/accounting.rs`, `goal_token_delta`). */
module TokenDelta {

  const U64_MAX := 0xFFFF_FFFF_FFFF_FFFF
  const I64_MAX := 0x7FFF_FFFF_FFFF_FFFF

  type u64 = n: int | 0 <= n <= U64_MAX

  /** Cumulative usage of one prompt. */
  datatype TokenTotals = TokenTotals(input: u64, output: u64, cached: u64)

  /** `TokenTotals::default()`. */
  const ZERO := TokenTotals(0, 0, 0)

  function SaturatingSub(a: u64, b: u64): u64 {
    if a < b then 0 else a - b
  }

  function SaturatingAdd(a: u64, b: u64): u64 {
    if a + b > U64_MAX then U64_MAX else a + b
  }

  /** Uncached input plus output since `last`, each step saturating, clamped to a signed 64-bit value. */
  function GoalTokenDelta(last: TokenTotals, current: TokenTotals): (d: int)
    ensures 0 <= d <= I64_MAX
  {
    var dInput := SaturatingSub(current.input, last.input);
    var dCached := SaturatingSub(current.cached, last.cached);
    var dOutput := SaturatingSub(current.output, last.output);
    var nonCachedInput := SaturatingSub(dInput, dCached);
    var sum := SaturatingAdd(nonCachedInput, dOutput);
    if sum > I64_MAX then I64_MAX else sum
  }

  /**
   `b` can be a later reading of the same prompt: nothing shrank, and no more input came from the cache than came in.
   */
  predicate Later(a: TokenTotals, b: TokenTotals) {
    && a.input <= b.input && a.output <= b.output && a.cached <= b.cached
    && a.input + b.cached <= b.input + a.cached
  }

  lemma LaterIsTransitive(a: TokenTotals, b: TokenTotals, c: TokenTotals)
    requires Later(a, b) && Later(b, c)
    ensures Later(a, c)
  {
  }

  /** The weight of a reading: what a goal would be charged for it if nothing saturated. */
  function Weight(t: TokenTotals): int {
    t.input - t.cached + t.output
  }

  /** Along one prompt the formula is the difference of weights, up to the signed 64-bit clamp. */
  lemma DeltaIsWeightDifference(a: TokenTotals, b: TokenTotals)
    requires Later(a, b)
    ensures 0 <= Weight(b) - Weight(a)
    ensures GoalTokenDelta(a, b) == if Weight(b) - Weight(a) > I64_MAX then I64_MAX else Weight(b) - Weight(a)
  {
  }

  /**
   Splitting a stretch of usage at `b` charges the same as charging it at once exactly when the whole stretch
   stays below the clamp, or one of the two parts is free.
   */
  lemma DeltaTelescopes(a: TokenTotals, b: TokenTotals, c: TokenTotals)
    requires Later(a, b) && Later(b, c)
    ensures GoalTokenDelta(a, b) + GoalTokenDelta(b, c) == GoalTokenDelta(a, c)
       <==> Weight(c) - Weight(a) <= I64_MAX || Weight(a) == Weight(b) || Weight(b) == Weight(c)
  {
    LaterIsTransitive(a, b, c);
    DeltaIsWeightDifference(a, b);
    DeltaIsWeightDifference(b, c);
    DeltaIsWeightDifference(a, c);
  }

  /**
   A total `b` that is reported late, after `a`, costs nothing itself and becomes the baseline all the same; the next
   reading then pays for the stretch again, unless that stretch was free.
   */
  lemma LateTotalIsPaidTwiceExactly(a: TokenTotals, b: TokenTotals, c: TokenTotals)
    requires Later(b, a) && Later(a, c) && Weight(c) - Weight(b) <= I64_MAX
    ensures GoalTokenDelta(a, b) == 0
    ensures GoalTokenDelta(a, b) + GoalTokenDelta(b, c) == GoalTokenDelta(a, c) + Weight(a) - Weight(b)
    ensures GoalTokenDelta(a, b) + GoalTokenDelta(b, c) == GoalTokenDelta(a, c) <==> Weight(a) == Weight(b)
  {
    LaterIsTransitive(b, a, c);
    DeltaIsWeightDifference(b, a);
    DeltaIsWeightDifference(b, c);
    DeltaIsWeightDifference(a, c);
  }

  /**
   For any two readings, in order or not: input that did not come from the cache plus output, neither of which is ever
   taken back, up to the clamp.
   */
  lemma DeltaOfAnyReadings(a: TokenTotals, b: TokenTotals)
    ensures var grown := (x: int) => if x < 0 then 0 else x;
            var delta := grown(grown(b.input - a.input) - grown(b.cached - a.cached)) + grown(b.output - a.output);
            GoalTokenDelta(a, b) == if delta > I64_MAX then I64_MAX else delta
  {
  }
}
