/**
 * Execution of an exact-input order (Pool.swap).
 *
 * The order's amount is routed across the tiers by the allocator.  Each tier
 * that receives an input keeps gamma of it, moves its √P along its curve by
 * that after-fee amount, pays out the change of its reserve of the other
 * token, and credits the fee to the fee growth of the sold token, per unit
 * of liquidity.
 */
module SwapEngine {
  import opened RealArith
  import opened Sums
  import opened PriceMath
  import opened PoolState
  import opened TierAllocator

  /** What one tier does with its share of the order. */
  datatype TierTrade = TierTrade(afterFee: real, sqrtP1: real, amtOut: real, fee: real)

  /** The dictionary that swap returns. */
  datatype SwapResult = SwapResult(
    amtIn: real,
    amtOut: real,
    feeAmt: real,
    feeBps: real,
    amtsIn: seq<real>,
    amtsOut: seq<real>,
    feeAmts: seq<real>)

  /** The pool after the order, together with the order's result. */
  datatype Swapped = Swapped(pool: Pool, result: SwapResult)

  /**
   * What a tier with price `sqrtP0`, liquidity `liquidity` and fee factor
   * gamma does with an input `amtIn`, as the trade `t`: the fee is the
   * (1 - gamma) share of the input; the tier's reserve of the sold token
   * grows by exactly the after-fee rest, its reserve of the other token
   * changes by the (non-positive) output, which is non-zero exactly when the
   * input is; the price moves against the sold token, and stays put for a
   * zero input.
   */
  predicate Traded(isToken0: bool, sqrtP0: real, liquidity: real, gamma: real, amtIn: real, t: TierTrade)
    requires sqrtP0 > 0.0
  {
    && t.fee == amtIn * (1.0 - gamma) && t.afterFee + t.fee == amtIn
    && 0.0 <= t.fee <= amtIn
    && t.sqrtP1 > 0.0
    && VirtualReserve(isToken0, t.sqrtP1, liquidity) == VirtualReserve(isToken0, sqrtP0, liquidity) + t.afterFee
    && VirtualReserve(!isToken0, t.sqrtP1, liquidity) == VirtualReserve(!isToken0, sqrtP0, liquidity) + t.amtOut
    && t.amtOut <= 0.0 && (t.amtOut < 0.0 <==> amtIn > 0.0)
    && (amtIn > 0.0 ==> if isToken0 then t.sqrtP1 < sqrtP0 else t.sqrtP1 > sqrtP0)
    && (amtIn == 0.0 ==> t.sqrtP1 == sqrtP0)
  }

  /**
   * One tier's part of the swap: the tier keeps gamma * amtIn, which moves
   * its price along its curve, and pays out the change of its reserve of
   * the other token.
   */
  function Trade(isToken0: bool, sqrtP0: real, liquidity: real, gamma: real, amtIn: real): (t: TierTrade)
    requires liquidity > 0.0 && sqrtP0 > 0.0 && 0.0 < gamma <= 1.0 && amtIn >= 0.0
    ensures Traded(isToken0, sqrtP0, liquidity, gamma, amtIn, t)
  {
    var afterFee := amtIn * gamma;
    FeeSplit(amtIn, gamma, afterFee);
    RoundTrip(isToken0, sqrtP0, liquidity, afterFee);
    var sqrtP1 := CalcSqrtPFromAmt(isToken0, sqrtP0, liquidity, afterFee);
    ProductPositive(sqrtP0, sqrtP1);
    var amtOut := CalcAmtFromSqrtP(!isToken0, sqrtP0, sqrtP1, liquidity);
    TierTrade(afterFee, sqrtP1, amtOut, amtIn - afterFee)
  }

  /** Charging a fee factor in (0, 1] leaves a non-negative part, positive for a positive input. */
  lemma FeeSplit(amtIn: real, gamma: real, afterFee: real)
    requires 0.0 < gamma <= 1.0 && amtIn >= 0.0 && afterFee == amtIn * gamma
    ensures 0.0 <= afterFee <= amtIn
    ensures amtIn - afterFee == amtIn * (1.0 - gamma)
    ensures afterFee > 0.0 <==> amtIn > 0.0
  {
    ProductNonNegative(amtIn, 1.0 - gamma);
    if amtIn > 0.0 {
      ProductPositive(amtIn, gamma);
    }
  }

  /** The fee-growth array of the given token. */
  function FeeGrowth(p: Pool, isToken0: bool): (growth: seq<real>)
  {
    if isToken0 then p.fee0Growth else p.fee1Growth
  }

  /** Every tier's fee rate, the share 1 - gamma of an input that it charges. */
  function FeeRates(p: Pool): (rates: seq<real>)
    requires Valid(p)
    ensures |rates| == Size(p)
    ensures forall i :: 0 <= i < Size(p) ==> 0.0 <= rates[i] < 1.0 && rates[i] + Gamma(p)[i] == 1.0
  {
    var gamma := Gamma(p);
    seq(Size(p), i requires 0 <= i < Size(p) => 1.0 - gamma[i])
  }

  /** A tier's fee rate in basis points. */
  function FeeRateBps(p: Pool, i: int): (bps: real)
    requires Valid(p) && 0 <= i < Size(p)
  {
    FeeRates(p)[i] * 10000.0
  }

  /** Arrays of an order's result that line up with the pool's tiers. */
  predicate Shaped(p: Pool, r: SwapResult)
  {
    |r.amtsIn| == Size(p) && |r.amtsOut| == Size(p) && |r.feeAmts| == Size(p)
  }

  /**
   * What an order does to tier i of pool p, leaving pool q: the tier traded
   * its input as Traded describes, ending at q's price; the sold token's fee
   * growth rises by the fee per unit of liquidity and the other token's fee
   * growth is untouched.
   */
  predicate Settled(p: Pool, q: Pool, r: SwapResult, isToken0: bool, i: int)
    requires Valid(p) && Valid(q) && Size(q) == Size(p) && Shaped(p, r) && 0 <= i < Size(p)
  {
    && Traded(isToken0, p.sqrtP[i], p.liquidity[i], Gamma(p)[i], r.amtsIn[i],
              TierTrade(r.amtsIn[i] - r.feeAmts[i], q.sqrtP[i], r.amtsOut[i], r.feeAmts[i]))
    && FeeGrowth(q, isToken0)[i] == FeeGrowth(p, isToken0)[i] + r.feeAmts[i] / p.liquidity[i]
    && FeeGrowth(q, !isToken0)[i] == FeeGrowth(p, !isToken0)[i]
  }

  /** Every tier is settled. */
  predicate SettledEverywhere(p: Pool, q: Pool, r: SwapResult, isToken0: bool)
    requires Valid(p) && Valid(q) && Size(q) == Size(p) && Shaped(p, r)
  {
    forall i :: 0 <= i < Size(p) ==> Settled(p, q, r, isToken0, i)
  }

  /** The allocator's output as swap uses it: aligned arrays, no negative amount, nothing outside the mask. */
  predicate Routable(p: Pool, alloc: Allocation)
  {
    && |alloc.amts| == Size(p) && |alloc.mask| == Size(p)
    && (forall i :: 0 <= i < Size(p) ==> alloc.amts[i] >= 0.0)
    && (forall i :: 0 <= i < Size(p) && !alloc.mask[i] ==> alloc.amts[i] == 0.0)
  }

  /**
   * Tier i's part of the swap: a tier of the mask trades its input,
   * any other tier does nothing (zero fee, zero output, price kept).  Either
   * way the tier has Traded its input.
   */
  function Leg(p: Pool, isToken0: bool, alloc: Allocation, i: int): (t: TierTrade)
    requires Valid(p) && Routable(p, alloc) && 0 <= i < Size(p)
    ensures Traded(isToken0, p.sqrtP[i], p.liquidity[i], Gamma(p)[i], alloc.amts[i], t)
  {
    if alloc.mask[i] then Trade(isToken0, p.sqrtP[i], p.liquidity[i], Gamma(p)[i], alloc.amts[i])
    else TierTrade(0.0, p.sqrtP[i], 0.0, 0.0)
  }

  /** The legs of all tiers. */
  function Legs(p: Pool, isToken0: bool, alloc: Allocation): (legs: seq<TierTrade>)
    requires Valid(p) && Routable(p, alloc)
    ensures |legs| == Size(p)
    ensures forall i :: 0 <= i < Size(p) ==> legs[i] == Leg(p, isToken0, alloc, i)
  {
    seq(Size(p), i requires 0 <= i < Size(p) => Leg(p, isToken0, alloc, i))
  }

  /**
   * The state update of the swap: active tiers take their new price and
   * credit their fee, per unit of liquidity, to the fee growth the pool
   * selects by comparing the sold token with the exact-input flag (token0's
   * array when they agree).  Liquidity, fee factors, the other
   * fee-growth array and every inactive tier are left as they were.
   */
  function Settle(p: Pool, isToken0: bool, isExactIn: bool, alloc: Allocation, legs: seq<TierTrade>): (q: Pool)
    requires Valid(p) && Routable(p, alloc) && |legs| == Size(p)
    ensures Size(q) == Size(p) && |q.sqrtP| == Size(p) && |q.fee0Growth| == Size(p) && |q.fee1Growth| == Size(p)
    ensures q.liquidity == p.liquidity && q.sqrtGamma == p.sqrtGamma
    ensures FeeGrowth(q, isToken0 != isExactIn) == FeeGrowth(p, isToken0 != isExactIn)
    ensures forall i :: 0 <= i < Size(p) && alloc.mask[i] ==>
              && q.sqrtP[i] == legs[i].sqrtP1
              && FeeGrowth(q, isToken0 == isExactIn)[i] == FeeGrowth(p, isToken0 == isExactIn)[i] + legs[i].fee / p.liquidity[i]
    ensures forall i :: 0 <= i < Size(p) && !alloc.mask[i] ==>
              q.sqrtP[i] == p.sqrtP[i] && FeeGrowth(q, isToken0 == isExactIn)[i] == FeeGrowth(p, isToken0 == isExactIn)[i]
  {
    var n := Size(p);
    var sqrtP := seq(n, i requires 0 <= i < n => if alloc.mask[i] then legs[i].sqrtP1 else p.sqrtP[i]);
    var growth := if isToken0 == isExactIn then p.fee0Growth else p.fee1Growth;
    var growth' := seq(n, i requires 0 <= i < n =>
                     if alloc.mask[i] then growth[i] + legs[i].fee / p.liquidity[i] else growth[i]);
    if isToken0 == isExactIn then p.(sqrtP := sqrtP, fee0Growth := growth')
    else p.(sqrtP := sqrtP, fee1Growth := growth')
  }

  /**
   * The dictionary swap returns: the per-tier arrays and their sums over the
   * mask.  Tiers outside the mask trade nothing, so every total is also the
   * plain sum of its array, and fee_bps is the total fee over the total
   * input in basis points.
   */
  function Report(p: Pool, alloc: Allocation, legs: seq<TierTrade>): (r: SwapResult)
    requires Routable(p, alloc) && |legs| == Size(p) && MaskedSum(alloc.amts, alloc.mask) != 0.0
    requires forall i :: 0 <= i < Size(p) && !alloc.mask[i] ==> legs[i].amtOut == 0.0 && legs[i].fee == 0.0
    ensures Shaped(p, r) && r.amtsIn == alloc.amts
    ensures forall i :: 0 <= i < Size(p) ==> r.amtsOut[i] == legs[i].amtOut && r.feeAmts[i] == legs[i].fee
    ensures r.amtIn == MaskedSum(r.amtsIn, alloc.mask)
    ensures r.amtOut == MaskedSum(r.amtsOut, alloc.mask)
    ensures r.feeAmt == MaskedSum(r.feeAmts, alloc.mask)
    ensures r.feeBps == r.feeAmt / r.amtIn * 10000.0
    ensures r.amtIn == Sum(r.amtsIn) && r.amtOut == Sum(r.amtsOut) && r.feeAmt == Sum(r.feeAmts)
    ensures r.feeBps == Sum(r.feeAmts) / Sum(r.amtsIn) * 10000.0
  {
    var n := Size(p);
    var amtsOut := seq(n, i requires 0 <= i < n => legs[i].amtOut);
    var feeAmts := seq(n, i requires 0 <= i < n => legs[i].fee);
    var r := SwapResult(
      MaskedSum(alloc.amts, alloc.mask),
      MaskedSum(amtsOut, alloc.mask),
      MaskedSum(feeAmts, alloc.mask),
      MaskedSum(feeAmts, alloc.mask) / MaskedSum(alloc.amts, alloc.mask) * 10000.0,
      alloc.amts, amtsOut, feeAmts);
    ReportTotals(p, alloc, r);
    r
  }

  /**
   * Settling keeps the pool valid and its liquidity and fee factors; every
   * tier ends at its leg's price, the sold token's fee growth rises by the
   * leg's fee per unit of liquidity, the other token's is untouched.
   */
  lemma {:induction false} SettleKeepsPool(p: Pool, isToken0: bool, alloc: Allocation, legs: seq<TierTrade>)
    requires Valid(p) && Routable(p, alloc) && legs == Legs(p, isToken0, alloc)
    ensures var q := Settle(p, isToken0, true, alloc, legs);
            && Valid(q) && Size(q) == Size(p)
            && q.liquidity == p.liquidity && q.sqrtGamma == p.sqrtGamma
            && (forall i :: 0 <= i < Size(p) ==> q.sqrtP[i] == legs[i].sqrtP1)
            && (forall i :: 0 <= i < Size(p) ==>
                  FeeGrowth(q, isToken0)[i] == FeeGrowth(p, isToken0)[i] + legs[i].fee / p.liquidity[i])
            && FeeGrowth(q, !isToken0) == FeeGrowth(p, !isToken0)
  {
    var q := Settle(p, isToken0, true, alloc, legs);
    forall i | 0 <= i < Size(p)
      ensures q.sqrtP[i] == legs[i].sqrtP1 && q.sqrtP[i] > 0.0
      ensures FeeGrowth(q, isToken0)[i] == FeeGrowth(p, isToken0)[i] + legs[i].fee / p.liquidity[i]
      ensures FeeGrowth(q, isToken0)[i] >= 0.0
    {
      QuotientNonNegative(legs[i].fee, p.liquidity[i]);
    }
  }

  /** Every tier of the settled pool and of the report is settled as its leg says. */
  lemma {:induction false} AllSettled(p: Pool, isToken0: bool, alloc: Allocation, legs: seq<TierTrade>, q: Pool, r: SwapResult)
    requires Valid(p) && Routable(p, alloc) && legs == Legs(p, isToken0, alloc)
    requires Valid(q) && Size(q) == Size(p) && q.liquidity == p.liquidity
    requires forall i :: 0 <= i < Size(p) ==> q.sqrtP[i] == legs[i].sqrtP1
    requires forall i :: 0 <= i < Size(p) ==>
               FeeGrowth(q, isToken0)[i] == FeeGrowth(p, isToken0)[i] + legs[i].fee / p.liquidity[i]
    requires FeeGrowth(q, !isToken0) == FeeGrowth(p, !isToken0)
    requires Shaped(p, r) && r.amtsIn == alloc.amts
    requires forall i :: 0 <= i < Size(p) ==> r.amtsOut[i] == legs[i].amtOut && r.feeAmts[i] == legs[i].fee
    ensures SettledEverywhere(p, q, r, isToken0)
  {
    forall i | 0 <= i < Size(p)
      ensures Settled(p, q, r, isToken0, i)
    {
      assert legs[i] == Leg(p, isToken0, alloc, i);
    }
  }

  /** A tier outside the mask receives nothing, so it pays no fee and gives no output. */
  lemma {:induction false} IdleLegs(p: Pool, isToken0: bool, alloc: Allocation, legs: seq<TierTrade>)
    requires Valid(p) && Routable(p, alloc) && legs == Legs(p, isToken0, alloc)
    ensures forall i :: 0 <= i < Size(p) && !alloc.mask[i] ==> legs[i].amtOut == 0.0 && legs[i].fee == 0.0
  {
    forall i | 0 <= i < Size(p) && !alloc.mask[i]
      ensures legs[i].amtOut == 0.0 && legs[i].fee == 0.0
    {
      assert legs[i] == Leg(p, isToken0, alloc, i);
    }
  }

  /** Tiers outside the mask report nothing, so the masked totals are the plain sums. */
  lemma {:induction false} ReportTotals(p: Pool, alloc: Allocation, r: SwapResult)
    requires Routable(p, alloc) && Shaped(p, r) && r.amtsIn == alloc.amts
    requires forall i :: 0 <= i < Size(p) && !alloc.mask[i] ==> r.amtsOut[i] == 0.0 && r.feeAmts[i] == 0.0
    ensures MaskedSum(r.amtsIn, alloc.mask) == Sum(r.amtsIn)
    ensures MaskedSum(r.amtsOut, alloc.mask) == Sum(r.amtsOut)
    ensures MaskedSum(r.feeAmts, alloc.mask) == Sum(r.feeAmts)
  {
    SumOfMasked(r.amtsIn, alloc.mask);
    SumOfMasked(r.amtsOut, alloc.mask);
    SumOfMasked(r.feeAmts, alloc.mask);
  }

  /** Each tier's fee is its input times its fee rate 1 - gamma, on a non-negative input. */
  predicate ChargedAtTierRates(p: Pool, r: SwapResult)
    requires Valid(p) && Shaped(p, r)
  {
    forall i :: 0 <= i < Size(p) ==> r.amtsIn[i] >= 0.0 && r.feeAmts[i] == FeeRates(p)[i] * r.amtsIn[i]
  }

  lemma {:induction false} SettledCharges(p: Pool, q: Pool, r: SwapResult, isToken0: bool)
    requires Valid(p) && Valid(q) && Size(q) == Size(p) && Shaped(p, r)
    requires SettledEverywhere(p, q, r, isToken0)
    requires forall i :: 0 <= i < Size(p) ==> r.amtsIn[i] >= 0.0
    ensures ChargedAtTierRates(p, r)
  {
    forall i | 0 <= i < Size(p)
      ensures r.feeAmts[i] == FeeRates(p)[i] * r.amtsIn[i]
    {
      assert Settled(p, q, r, isToken0, i);
    }
  }

  /**
   * The order's fee rate, fee_amt / amt_in in basis points, is the
   * input-weighted mean of the tier fee rates, so it lies between the rates
   * of two tiers that received input.
   */
  lemma {:induction false} FeeBpsBetween(p: Pool, r: SwapResult)
    requires Valid(p) && Shaped(p, r) && ChargedAtTierRates(p, r)
    requires Sum(r.amtsIn) > 0.0
    requires r.feeBps == Sum(r.feeAmts) / Sum(r.amtsIn) * 10000.0
    ensures exists i :: 0 <= i < Size(p) && r.amtsIn[i] > 0.0 && FeeRateBps(p, i) <= r.feeBps
    ensures exists j :: 0 <= j < Size(p) && r.amtsIn[j] > 0.0 && r.feeBps <= FeeRateBps(p, j)
  {
    WeightedMeanBetween(r.feeAmts, r.amtsIn, FeeRates(p));
    var i :| 0 <= i < Size(p) && r.amtsIn[i] > 0.0 && FeeRates(p)[i] <= Sum(r.feeAmts) / Sum(r.amtsIn);
    var j :| 0 <= j < Size(p) && r.amtsIn[j] > 0.0 && Sum(r.feeAmts) / Sum(r.amtsIn) <= FeeRates(p)[j];
    assert FeeRateBps(p, i) == FeeRates(p)[i] * 10000.0;
    assert FeeRateBps(p, j) == FeeRates(p)[j] * 10000.0;
  }

  /**
   * The body of swap for an amount that passed the exact-input test.  The pool
   * keeps its liquidity and fee factors and stays valid; the input is the
   * whole order, routed by the allocator; every tier is settled as Settled
   * describes; the reported totals are the sums of the per-tier arrays, and
   * the order's fee rate lies between the rates of the cheapest and the
   * dearest tier that took part.
   */
  function Execute(p: Pool, isToken0: bool, amount: real): (s: Swapped)
    requires Valid(p) && amount > 0.0
    ensures Valid(s.pool) && Size(s.pool) == Size(p) && Shaped(p, s.result)
    ensures s.pool.liquidity == p.liquidity && s.pool.sqrtGamma == p.sqrtGamma
    ensures s.result.amtsIn == TierSplit(p, isToken0, amount).amts
    ensures s.result.amtIn == amount
    ensures s.result.amtOut == Sum(s.result.amtsOut) && s.result.feeAmt == Sum(s.result.feeAmts)
    ensures SettledEverywhere(p, s.pool, s.result, isToken0)
    ensures exists i :: 0 <= i < Size(p) && s.result.amtsIn[i] > 0.0 && FeeRateBps(p, i) <= s.result.feeBps
    ensures exists j :: 0 <= j < Size(p) && s.result.amtsIn[j] > 0.0 && s.result.feeBps <= FeeRateBps(p, j)
  {
    var alloc := TierSplit(p, isToken0, amount);
    SumOfMasked(alloc.amts, alloc.mask);
    var legs := Legs(p, isToken0, alloc);
    IdleLegs(p, isToken0, alloc, legs);
    var q := Settle(p, isToken0, amount > 0.0, alloc, legs);
    var r := Report(p, alloc, legs);
    SettleKeepsPool(p, isToken0, alloc, legs);
    AllSettled(p, isToken0, alloc, legs, q, r);
    SettledCharges(p, q, r, isToken0);
    FeeBpsBetween(p, r);
    Swapped(q, r)
  }

  /**
   * The allocator's level as a price.  Selling token1 raises √P; after the
   * order every tier that took part sits at the same fee-adjusted price
   * √P / sqrt_gamma == level.  Selling token0 lowers √P; every tier that took
   * part ends at √P * sqrt_gamma == 1 / level.
   */
  predicate AtMarginalLevel(isToken0: bool, sqrtP: real, sqrtGamma: real, level: real)
  {
    if isToken0 then level * sqrtGamma * sqrtP == 1.0 else sqrtP == level * sqrtGamma
  }

  /** A tier already priced beyond the level, in the direction the order pushes prices. */
  predicate BeyondMarginalLevel(isToken0: bool, sqrtP: real, sqrtGamma: real, level: real)
  {
    if isToken0 then level * sqrtGamma * sqrtP < 1.0 else sqrtP > level * sqrtGamma
  }

  /**
   * After an order routed by the allocator on `mask`: every active tier of
   * q is at the level, and every tier outside the mask was already beyond it in p.
   */
  predicate MarginalPricesEqualized(p: Pool, q: Pool, isToken0: bool, level: real, mask: seq<bool>)
    requires Valid(p) && Valid(q) && Size(q) == Size(p) && |mask| == Size(p)
  {
    forall i :: 0 <= i < Size(p) ==>
      if mask[i] then AtMarginalLevel(isToken0, q.sqrtP[i], p.sqrtGamma[i], level)
      else BeyondMarginalLevel(isToken0, p.sqrtP[i], p.sqrtGamma[i], level)
  }

  /**
   * The Lagrange split equalizes the tiers' marginal prices: the tiers that
   * receive input all end at the allocator's final level, and the tiers it
   * leaves out were priced beyond that level before the order.
   */
  lemma {:induction false} TiersEqualized(p: Pool, isToken0: bool, amount: real)
    requires Valid(p) && amount > 0.0
    ensures var split := TierSplit(p, isToken0, amount);
            MarginalPricesEqualized(p, Execute(p, isToken0, amount).pool, isToken0,
                                    Level(Lsg(p), Res(p, isToken0), amount, split.mask), split.mask)
  {
    var split := TierSplit(p, isToken0, amount);
    var lsg, res := Lsg(p), Res(p, isToken0);
    var level := Level(lsg, res, amount, split.mask);
    var s := Execute(p, isToken0, amount);
    assert s.result.amtsIn == FillTo(lsg, res, level);
    forall i | 0 <= i < Size(p)
      ensures if split.mask[i] then AtMarginalLevel(isToken0, s.pool.sqrtP[i], p.sqrtGamma[i], level)
              else BeyondMarginalLevel(isToken0, p.sqrtP[i], p.sqrtGamma[i], level)
    {
      TierMarginal(p, s.pool, s.result, isToken0, lsg, res, level, split.mask, i);
    }
  }

  /** One tier of TiersEqualized. */
  lemma {:induction false} TierMarginal(p: Pool, q: Pool, r: SwapResult, isToken0: bool,
                                        lsg: seq<real>, res: seq<real>, level: real, mask: seq<bool>, i: int)
    requires Valid(p) && Valid(q) && Size(q) == Size(p) && Shaped(p, r) && 0 <= i < Size(p)
    requires SettledEverywhere(p, q, r, isToken0)
    requires lsg == Lsg(p) && res == Res(p, isToken0) && |mask| == Size(p)
    requires r.amtsIn == FillTo(lsg, res, level) && ActiveExactlyBelow(lsg, res, level, mask)
    ensures if mask[i] then AtMarginalLevel(isToken0, q.sqrtP[i], p.sqrtGamma[i], level)
            else BeyondMarginalLevel(isToken0, p.sqrtP[i], p.sqrtGamma[i], level)
  {
    assert Settled(p, q, r, isToken0, i);
    TierWeights(p, isToken0, lsg, res, i);
    FillAt(lsg, res, level, mask, r.amtsIn, i);
    TierOutcome(isToken0, p.sqrtP[i], q.sqrtP[i], p.liquidity[i], p.sqrtGamma[i], Gamma(p)[i],
                lsg[i], res[i], level, r.amtsIn[i], r.feeAmts[i], r.amtsOut[i], mask[i]);
  }

  /** Tier i of a water-filling allocation, and whether it is active. */
  lemma {:induction false} FillAt(lsg: seq<real>, res: seq<real>, level: real, mask: seq<bool>, amts: seq<real>, i: int)
    requires |res| == |lsg| && |mask| == |lsg| && 0 <= i < |lsg|
    requires amts == FillTo(lsg, res, level) && ActiveExactlyBelow(lsg, res, level, mask)
    ensures FillShare(lsg[i], res[i], level, amts[i], mask[i])
  {}

  /** A tier's water-filling share at the level, and whether the level reaches it. */
  predicate FillShare(lsg: real, res: real, level: real, a: real, active: bool)
  {
    && a == (if level * lsg > res then level * lsg - res else 0.0)
    && (active <==> res <= level * lsg)
  }

  /** The allocator's weights lsg = L / sqrt_gamma and res = reserve / gamma of one tier. */
  predicate TierWeighted(isToken0: bool, sp: real, L: real, sg: real, g: real, lsg: real, res: real)
  {
    && L > 0.0 && sg > 0.0 && sp > 0.0
    && g == sg * sg && lsg == L / sg
    && res * g == VirtualReserve(isToken0, sp, L)
  }

  /** The allocator's per-tier weights in terms of the tier's parameters. */
  lemma {:induction false} TierWeights(p: Pool, isToken0: bool, lsg: seq<real>, res: seq<real>, i: int)
    requires Valid(p) && lsg == Lsg(p) && res == Res(p, isToken0) && 0 <= i < Size(p)
    ensures TierWeighted(isToken0, p.sqrtP[i], p.liquidity[i], p.sqrtGamma[i], Gamma(p)[i], lsg[i], res[i])
  {}

  /** A tier given its water-filling share ends at the level, or was beyond it already. */
  lemma TierOutcome(isToken0: bool, sp: real, sq: real, L: real, sg: real, g: real,
                    lsg: real, res: real, level: real, a: real, fee: real, out: real,
                    active: bool)
    requires TierWeighted(isToken0, sp, L, sg, g, lsg, res)
    requires FillShare(lsg, res, level, a, active)
    requires Traded(isToken0, sp, L, g, a, TierTrade(a - fee, sq, out, fee))
    ensures if active then AtMarginalLevel(isToken0, sq, sg, level)
            else BeyondMarginalLevel(isToken0, sp, sg, level)
  {
    if active {
      assert a == level * lsg - res;
      assert a - fee == a * g by {
        Distribute(a, 1.0, -g);
      }
      ReachesLevel(isToken0, sp, sq, L, sg, g, lsg, res, level, a);
    } else {
      StaysBeyondLevel(isToken0, sp, L, sg, g, lsg, res, level);
    }
  }

  /**
   * A tier given level * lsg - res ends with the reserve of the sold token
   * at level * L * sqrt_gamma, which puts its price at the level.
   */
  lemma ReachesLevel(isToken0: bool, sp: real, sq: real, L: real, sg: real, g: real,
                     lsg: real, res: real, level: real, a: real)
    requires L > 0.0 && sg > 0.0 && sp > 0.0 && sq > 0.0
    requires g == sg * sg && lsg == L / sg
    requires res * g == VirtualReserve(isToken0, sp, L)
    requires a == level * lsg - res
    requires VirtualReserve(isToken0, sq, L) == VirtualReserve(isToken0, sp, L) + a * g
    ensures AtMarginalLevel(isToken0, sq, sg, level)
  {
    LevelReserve(L, sg, g, lsg, res, level, a);
    var target := level * (L * sg);
    assert VirtualReserve(isToken0, sq, L) == target;
    if isToken0 {
      assert L / sq == target;
      calc {
        L * 1.0;
        L;
        (L / sq) * sq;
        target * sq;
        L * (level * sg * sq);
      }
      CancelFactor(L, 1.0, level * sg * sq);
    } else {
      assert L * sq == L * (level * sg);
      CancelFactor(L, sq, level * sg);
    }
  }

  /** (level * lsg - res) * gamma == level * L * sqrt_gamma - res * gamma. */
  lemma LevelReserve(L: real, sg: real, g: real, lsg: real, res: real, level: real, a: real)
    requires L > 0.0 && sg > 0.0 && g == sg * sg && lsg == L / sg
    requires a == level * lsg - res
    ensures a * g == level * (L * sg) - res * g
  {
    assert lsg * sg == L;
    calc {
      a * g;
      (level * lsg - res) * g;
      level * (lsg * g) - res * g;
      { assert lsg * g == (lsg * sg) * sg; }
      level * (L * sg) - res * g;
    }
  }

  /** A tier dearer than the level, res > level * lsg, is priced beyond it. */
  lemma StaysBeyondLevel(isToken0: bool, sp: real, L: real, sg: real, g: real,
                         lsg: real, res: real, level: real)
    requires L > 0.0 && sg > 0.0 && sp > 0.0
    requires g == sg * sg && lsg == L / sg
    requires res * g == VirtualReserve(isToken0, sp, L)
    requires res > level * lsg
    ensures BeyondMarginalLevel(isToken0, sp, sg, level)
  {
    ProductPositive(sg, sg);
    ScaleBelow(level * lsg, res, g);
    LevelReserve(L, sg, g, lsg, 0.0, level, level * lsg);
    var target := level * (L * sg);
    assert VirtualReserve(isToken0, sp, L) > target;
    if isToken0 {
      assert L / sp > target;
      calc {
        L;
        (L / sp) * sp;
        > target * sp;
        L * (level * sg * sp);
      }
      if level * sg * sp >= 1.0 {
        ScaleBelow(1.0, level * sg * sp, L);
        assert false;
      }
    } else {
      assert L * sp > L * (level * sg);
      if sp <= level * sg {
        ScaleBelow(sp, level * sg, L);
        assert false;
      }
    }
  }

  /**
   * Pool.swap: an order that is not exact-input (amount <= 0) fails the
   * exact-input assertion; any other order is carried out.  A served order
   * leaves a valid pool that only moved forward (Evolved), takes in exactly
   * the requested amount and settles every tier.
   */
  function Swap(p: Pool, isToken0: bool, amtDesired: real): (r: Result<Swapped>)
    requires Valid(p)
    ensures r.Err? <==> amtDesired <= 0.0
    ensures r.Ok? ==> Evolved(p, r.value.pool) && Shaped(p, r.value.result)
    ensures r.Ok? ==> r.value.result.amtIn == amtDesired == Sum(r.value.result.amtsIn)
    ensures r.Ok? ==> SettledEverywhere(p, r.value.pool, r.value.result, isToken0)
  {
    var isExactIn := amtDesired > 0.0;
    if !isExactIn then Err(ExactInputOnly)
    else
      var s := Execute(p, isToken0, amtDesired);
      SettledGrowth(p, s.pool, s.result, isToken0);
      Ok(s)
  }

  /** Neither fee-growth array of q is below that of p, tier by tier. */
  predicate GrowthNotBelow(p: Pool, q: Pool)
    requires Valid(p) && Valid(q) && Size(q) == Size(p)
  {
    forall i :: 0 <= i < Size(p) ==> q.fee0Growth[i] >= p.fee0Growth[i] && q.fee1Growth[i] >= p.fee1Growth[i]
  }

  /**
   * q is a state orders can lead p to: still valid, the same tiers with the
   * same liquidity and fee factors, and no fee growth lowered.
   */
  predicate Evolved(p: Pool, q: Pool)
    requires Valid(p)
  {
    && Valid(q) && Size(q) == Size(p)
    && q.liquidity == p.liquidity && q.sqrtGamma == p.sqrtGamma
    && GrowthNotBelow(p, q)
  }

  lemma {:induction false} EvolvedTransitive(p: Pool, q: Pool, s: Pool)
    requires Valid(p) && Evolved(p, q) && Evolved(q, s)
    ensures Evolved(p, s)
  {}

  /** A settled order never lowers fee growth: fees are non-negative and liquidity positive. */
  lemma {:induction false} SettledGrowth(p: Pool, q: Pool, r: SwapResult, isToken0: bool)
    requires Valid(p) && Valid(q) && Size(q) == Size(p) && Shaped(p, r)
    requires SettledEverywhere(p, q, r, isToken0)
    ensures GrowthNotBelow(p, q)
  {
    forall i | 0 <= i < Size(p)
      ensures q.fee0Growth[i] >= p.fee0Growth[i] && q.fee1Growth[i] >= p.fee1Growth[i]
    {
      assert Settled(p, q, r, isToken0, i);
      QuotientNonNegative(r.feeAmts[i], p.liquidity[i]);
    }
  }

  /** An order of the sequence that Run executes. */
  datatype Order = Order(isToken0: bool, amtDesired: real)

  /** Some order of the sequence is not exact-input. */
  predicate HasNonExactInput(orders: seq<Order>)
  {
    exists k :: 0 <= k < |orders| && orders[k].amtDesired <= 0.0
  }

  /**
   * A sequence of orders against one pool, stopping at the first order that
   * fails.  The run fails exactly when some order is not exact-input; a
   * successful run leaves a pool that only moved forward: valid, with the
   * same liquidity and fee factors, and with no fee growth lowered.
   */
  function Run(p: Pool, orders: seq<Order>): (r: Result<Pool>)
    requires Valid(p)
    ensures r.Err? <==> HasNonExactInput(orders)
    ensures r.Ok? ==> Evolved(p, r.value)
    decreases |orders|
  {
    if |orders| == 0 then Ok(p)
    else
      match Swap(p, orders[0].isToken0, orders[0].amtDesired)
      case Err(e) => Err(e)
      case Ok(s) =>
        var rest := Run(s.pool, orders[1..]);
        RunSteps(p, orders, s.pool, rest);
        rest
  }

  /** Glue for Run's recursive case: the first order's effect composes with the rest's. */
  lemma {:induction false} RunSteps(p: Pool, orders: seq<Order>, q: Pool, rest: Result<Pool>)
    requires Valid(p) && Evolved(p, q) && |orders| > 0 && orders[0].amtDesired > 0.0
    requires rest.Err? <==> HasNonExactInput(orders[1..])
    requires rest.Ok? ==> Evolved(q, rest.value)
    ensures rest.Err? <==> HasNonExactInput(orders)
    ensures rest.Ok? ==> Evolved(p, rest.value)
  {
    if HasNonExactInput(orders) {
      var k :| 0 <= k < |orders| && orders[k].amtDesired <= 0.0;
      assert orders[1..][k - 1] == orders[k];
    }
    if HasNonExactInput(orders[1..]) {
      var k :| 0 <= k < |orders[1..]| && orders[1..][k].amtDesired <= 0.0;
      assert orders[k + 1].amtDesired <= 0.0;
    }
    if rest.Ok? {
      EvolvedTransitive(p, q, rest.value);
    }
  }

  /**
   * The pool's liquidity-weighted price moves against the seller: selling
   * token0 lowers it, selling token1 raises it.  Every tier's price moves
   * that way or stays, and a tier that received input moves strictly.
   */
  lemma {:induction false} PriceMovesAgainstSeller(p: Pool, isToken0: bool, amtDesired: real)
    requires Valid(p) && amtDesired > 0.0
    ensures Sum(p.liquidity) > 0.0
    ensures var q := Swap(p, isToken0, amtDesired).value.pool;
            if isToken0 then Price(q) < Price(p) else Price(q) > Price(p)
  {
    var s := Swap(p, isToken0, amtDesired).value;
    SettledPriceMove(p, s.pool, s.result, isToken0);
  }

  lemma {:induction false} SettledPriceMove(p: Pool, q: Pool, r: SwapResult, isToken0: bool)
    requires Valid(p) && Valid(q) && Size(q) == Size(p) && Shaped(p, r) && q.liquidity == p.liquidity
    requires SettledEverywhere(p, q, r, isToken0)
    requires Sum(r.amtsIn) > 0.0
    ensures Sum(p.liquidity) > 0.0
    ensures if isToken0 then Price(q) < Price(p) else Price(q) > Price(p)
  {
    PositiveSumHasPositive(r.amtsIn);
    var k :| 0 <= k < Size(p) && r.amtsIn[k] > 0.0;
    SettledPrices(p, q, r, isToken0, k);
    if isToken0 {
      PriceMonotone(q, p, k);
    } else {
      PriceMonotone(p, q, k);
    }
  }

  /** Settled tiers move their √P against the seller, strictly where input arrived. */
  lemma {:induction false} SettledPrices(p: Pool, q: Pool, r: SwapResult, isToken0: bool, k: int)
    requires Valid(p) && Valid(q) && Size(q) == Size(p) && Shaped(p, r)
    requires SettledEverywhere(p, q, r, isToken0)
    requires 0 <= k < Size(p) && r.amtsIn[k] > 0.0
    ensures isToken0 ==> (forall i :: 0 <= i < Size(p) ==> q.sqrtP[i] <= p.sqrtP[i]) && q.sqrtP[k] < p.sqrtP[k]
    ensures !isToken0 ==> (forall i :: 0 <= i < Size(p) ==> p.sqrtP[i] <= q.sqrtP[i]) && p.sqrtP[k] < q.sqrtP[k]
  {
    assert Settled(p, q, r, isToken0, k);
    forall i | 0 <= i < Size(p)
      ensures if isToken0 then q.sqrtP[i] <= p.sqrtP[i] else p.sqrtP[i] <= q.sqrtP[i]
    {
      assert Settled(p, q, r, isToken0, i);
    }
  }
}
