/**
 * The proportional reward of a redemption: `burn × remaining / supply`, with
 * the multiplication and the division done on `u128` and the quotient cast back
 * to `u64` with `as u64`, which keeps only its low 64 bits.
 */
module Reward {
  import opened Types

  /** `u128::checked_mul`: `None` when the product does not fit in 128 bits. */
  function CheckedMulU128(a: U128, b: U128): Option<U128> {
    if a * b < U128_LIMIT then Some(a * b) else None
  }

  /** `u128::checked_div`: `None` on a zero divisor. */
  function CheckedDivU128(a: U128, b: U128): Option<U128> {
    if b == 0 then None else Some(a / b)
  }

  /** `x as u64` on a `u128`: truncation to the low 64 bits. */
  function AsU64(x: U128): U64 {
    x % U64_LIMIT
  }

  /** Monotonicity of multiplication by a natural number. */
  lemma MulMonotone(a: nat, b: nat, c: nat)
    requires a <= b
    ensures a * c <= b * c
  {
  }

  /** Two `u64` operands widened to `u128` never overflow `checked_mul`. */
  lemma {:induction false} ProductFitsU128(a: U64, b: U64)
    ensures a * b < U128_LIMIT
    ensures CheckedMulU128(a, b) == Some(a * b)
  {
    MulMonotone(a, U64_LIMIT - 1, b);
    MulMonotone(b, U64_LIMIT - 1, U64_LIMIT - 1);
    assert a * b <= (U64_LIMIT - 1) * (U64_LIMIT - 1);
    assert (U64_LIMIT - 1) * (U64_LIMIT - 1) < U64_LIMIT * U64_LIMIT == U128_LIMIT;
  }

  /**
   * The reward for burning `burn` claim tokens from a pool holding `remaining`
   * against a declared supply of `supply`. The only failure is a zero supply,
   * reported as `RewardCalculationOverflow`; the multiplication cannot fail.
   */
  function ComputeReward(burn: U64, remaining: U64, supply: U64): (r: Result<U64>)
    ensures r.Err? <==> supply == 0
    ensures r.Err? ==> r.error == RewardCalculationOverflow
  {
    ProductFitsU128(burn, remaining);
    var quotient :=
      match CheckedMulU128(burn, remaining)
      case None => None
      case Some(product) => CheckedDivU128(product, supply);
    match quotient
    case None => Err(RewardCalculationOverflow)
    case Some(q) => Ok(AsU64(q))
  }

  /** A pro-rata share of the pool is at most the pool when the burn is at most the supply. */
  lemma {:induction false} ShareWithinPool(burn: nat, remaining: nat, supply: nat)
    requires 0 < supply && burn <= supply
    ensures burn * remaining / supply <= remaining
  {
    var q := burn * remaining / supply;
    assert q * supply <= burn * remaining;
    MulMonotone(burn, supply, remaining);
    if q > remaining {
      MulMonotone(remaining + 1, q, supply);
      assert false;
    }
  }

  /**
   * When no more tokens are burned than the declared supply, the reward is
   * exactly the floor of the proportional share of the remaining pool (no
   * truncation happens) and never exceeds the pool.
   */
  lemma {:induction false} RewardIsProportionalShare(burn: U64, remaining: U64, supply: U64)
    requires 0 < supply && burn <= supply
    ensures ComputeReward(burn, remaining, supply).Ok?
    ensures var v := ComputeReward(burn, remaining, supply).value;
      v <= remaining && v * supply <= burn * remaining < (v + 1) * supply
  {
    ProductFitsU128(burn, remaining);
    var q := burn * remaining / supply;
    ShareWithinPool(burn, remaining, supply);
    assert q < U64_LIMIT;
    assert AsU64(q) == q;
    assert ComputeReward(burn, remaining, supply) == Ok(q);
    assert q * supply + (burn * remaining) % supply == burn * remaining;
  }

  /**
   * For every burn, pool and non-zero supply the reward is the 128-bit floor
   * quotient `burn × pool / supply` reduced modulo 2^64, which is what `as u64`
   * keeps of it.
   */
  lemma {:induction false} RewardIsTruncatedQuotient(burn: U64, pool: U64, supply: U64)
    requires 0 < supply
    ensures ComputeReward(burn, pool, supply).Ok?
    ensures ComputeReward(burn, pool, supply).value == (burn * pool / supply) % U64_LIMIT
  {
    ProductFitsU128(burn, pool);
  }

  /**
   * The cast keeps the low 64 bits: with a declared supply of 1, a pool of 2 and
   * a burn of 2^63 + 1 the exact share is 2^64 + 2, yet the reward is 2, which
   * is within the pool and so passes the pool check that follows.
   */
  lemma TruncatedRewardFitsPool()
    ensures 0x8000_0000_0000_0001 * 2 / 1 == U64_LIMIT + 2
    ensures ComputeReward(0x8000_0000_0000_0001, 2, 1) == Ok(2)
  {
    ProductFitsU128(0x8000_0000_0000_0001, 2);
  }

  /** A truncated reward can only arise when more tokens are burned than the declared supply. */
  lemma {:induction false} TruncationNeedsOversizedBurn(burn: U64, remaining: U64, supply: U64)
    requires 0 < supply
    requires burn * remaining / supply >= U64_LIMIT
    ensures burn > supply
  {
    if burn <= supply {
      ShareWithinPool(burn, remaining, supply);
    }
  }
}
