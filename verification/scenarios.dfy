/**
 * The pool the constructor builds from its default arguments: two tiers of
 * liquidity 10000 with sqrt_gamma 0.9985 and 0.9997, both at √P = 1.
 */
module Scenarios {
  import opened Sums
  import opened PoolState
  import opened SwapEngine

  function DefaultPool(): (p: Pool)
  {
    NewPool([10000.0, 10000.0], [0.9985, 0.9997], 1.0)
  }

  /** The default pool is valid, has two tiers, and its combined price is 1. */
  lemma {:induction false} DefaultPoolValid()
    ensures Valid(DefaultPool()) && Size(DefaultPool()) == 2
    ensures Sum(DefaultPool().liquidity) > 0.0 && Price(DefaultPool()) == 1.0
  {
    NewPoolValid([10000.0, 10000.0], [0.9985, 0.9997], 1.0);
    PriceOfNewPool([10000.0, 10000.0], [0.9985, 0.9997], 1.0);
  }

  /**
   * The fee rates the default tiers charge, 1 - sqrt_gamma², in basis
   * points: 29.9775 and 5.9991.
   */
  lemma {:induction false} DefaultFeeRates()
    ensures Valid(DefaultPool())
    ensures FeeRateBps(DefaultPool(), 0) == 29.9775
    ensures FeeRateBps(DefaultPool(), 1) == 5.9991
  {
    DefaultPoolValid();
    assert Gamma(DefaultPool())[0] == 0.9985 * 0.9985;
    assert Gamma(DefaultPool())[1] == 0.9997 * 0.9997;
  }
}
