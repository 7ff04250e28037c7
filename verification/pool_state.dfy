/**
 * The state of a full-range, multi-tier pool and its read-only views.
 *
 * Every tier i has liquidity L[i], square-root price √P[i], fee factor
 * sqrt_gamma[i] (the tier keeps gamma = sqrt_gamma² of each input and charges
 * 1 - gamma as fee) and two fee-growth accumulators, one per token, holding
 * the fees collected per unit of liquidity.
 */
module PoolState {
  import opened RealArith
  import opened Sums

  datatype Pool = Pool(
    liquidity: seq<real>,
    sqrtP: seq<real>,
    sqrtGamma: seq<real>,
    fee0Growth: seq<real>,
    fee1Growth: seq<real>)

  /** Failure of an order: only exact-input orders with a positive amount are served. */
  datatype Error = ExactInputOnly

  datatype Result<T> = Ok(value: T) | Err(error: Error)

  /** Number of tiers. */
  function Size(p: Pool): (n: nat)
  {
    |p.liquidity|
  }

  /**
   * The invariant the constructor's callers are expected to establish and
   * every swap keeps: at least one tier, aligned arrays, positive liquidity
   * and price, a fee factor in (0, 1] and non-negative fee growth.
   */
  predicate Valid(p: Pool)
  {
    && |p.liquidity| > 0
    && |p.sqrtP| == |p.liquidity|
    && |p.sqrtGamma| == |p.liquidity|
    && |p.fee0Growth| == |p.liquidity|
    && |p.fee1Growth| == |p.liquidity|
    && (forall i :: 0 <= i < |p.liquidity| ==> p.liquidity[i] > 0.0)
    && (forall i :: 0 <= i < |p.sqrtGamma| ==> 0.0 < p.sqrtGamma[i] <= 1.0)
    && (forall i :: 0 <= i < |p.sqrtP| ==> p.sqrtP[i] > 0.0)
    && (forall i :: 0 <= i < |p.fee0Growth| ==> p.fee0Growth[i] >= 0.0)
    && (forall i :: 0 <= i < |p.fee1Growth| ==> p.fee1Growth[i] >= 0.0)
  }

  /**
   * Pool.__init__: one tier per liquidity entry, every tier at the same
   * starting √P, zero fee growth.  Nothing is validated here.
   */
  function NewPool(liquidity: seq<real>, sqrtGamma: seq<real>, sqrtP: real): (p: Pool)
    ensures Size(p) == |liquidity| && |p.sqrtP| == |p.fee0Growth| == |p.fee1Growth| == |liquidity|
    ensures p.liquidity == liquidity && p.sqrtGamma == sqrtGamma
    ensures forall i :: 0 <= i < |liquidity| ==> p.sqrtP[i] == sqrtP
    ensures forall i :: 0 <= i < |liquidity| ==> p.fee0Growth[i] == 0.0 && p.fee1Growth[i] == 0.0
  {
    Pool(
      liquidity,
      seq(|liquidity|, _ => sqrtP),
      sqrtGamma,
      seq(|liquidity|, _ => 0.0),
      seq(|liquidity|, _ => 0.0))
  }

  /**
   * A constructed pool is valid exactly when the arguments are sensible:
   * a non-empty liquidity list, a fee factor per tier in (0, 1], positive
   * liquidity and a positive starting price.
   */
  lemma {:induction false} NewPoolValid(liquidity: seq<real>, sqrtGamma: seq<real>, sqrtP: real)
    ensures Valid(NewPool(liquidity, sqrtGamma, sqrtP)) <==>
              && |liquidity| > 0
              && |sqrtGamma| == |liquidity|
              && (forall i :: 0 <= i < |liquidity| ==> liquidity[i] > 0.0)
              && (forall i :: 0 <= i < |sqrtGamma| ==> 0.0 < sqrtGamma[i] <= 1.0)
              && sqrtP > 0.0
  {
    var p := NewPool(liquidity, sqrtGamma, sqrtP);
    if Valid(p) {
      assert p.sqrtP[0] == sqrtP;
    }
  }

  /** gamma = sqrt_gamma², the fraction of an input that a tier keeps after its fee. */
  function Gamma(p: Pool): (gamma: seq<real>)
    requires Valid(p)
    ensures |gamma| == Size(p)
    ensures forall i :: 0 <= i < Size(p) ==> 0.0 < gamma[i] <= 1.0
  {
    var gamma := seq(Size(p), i requires 0 <= i < Size(p) => p.sqrtGamma[i] * p.sqrtGamma[i]);
    GammaInRange(p, gamma);
    gamma
  }

  lemma {:induction false} GammaInRange(p: Pool, gamma: seq<real>)
    requires Valid(p) && |gamma| == Size(p)
    requires forall i :: 0 <= i < Size(p) ==> gamma[i] == p.sqrtGamma[i] * p.sqrtGamma[i]
    ensures forall i :: 0 <= i < Size(p) ==> 0.0 < gamma[i] <= 1.0
  {
    forall i | 0 <= i < Size(p)
      ensures 0.0 < gamma[i] <= 1.0
    {
      FeeFactorInRange(p.sqrtGamma[i], gamma[i]);
    }
  }

  lemma FeeFactorInRange(sqrtGamma: real, gamma: real)
    requires 0.0 < sqrtGamma <= 1.0 && gamma == sqrtGamma * sqrtGamma
    ensures 0.0 < gamma <= sqrtGamma <= 1.0
  {
    ProductPositive(sqrtGamma, sqrtGamma);
    var rest := sqrtGamma * (1.0 - sqrtGamma);
    ProductNonNegative(sqrtGamma, 1.0 - sqrtGamma);
    calc {
      gamma;
      sqrtGamma * sqrtGamma;
      sqrtGamma - rest;
      <= sqrtGamma;
    }
    assert gamma > 0.0 by {
      calc { gamma; sqrtGamma * sqrtGamma; > 0.0; }
    }
  }

  /**
   * The `prices` property: each tier's price √P².  A price is never
   * negative, and it is positive wherever √P is non-zero.
   */
  function Prices(p: Pool): (prices: seq<real>)
    ensures |prices| == |p.sqrtP|
    ensures forall i :: 0 <= i < |prices| ==> prices[i] >= 0.0
    ensures forall i :: 0 <= i < |prices| && p.sqrtP[i] != 0.0 ==> prices[i] > 0.0
  {
    var prices := seq(|p.sqrtP|, i requires 0 <= i < |p.sqrtP| => p.sqrtP[i] * p.sqrtP[i]);
    SquaresSign(p.sqrtP, prices);
    prices
  }

  lemma {:induction false} SquaresSign(roots: seq<real>, squares: seq<real>)
    requires |squares| == |roots|
    requires forall i :: 0 <= i < |roots| ==> squares[i] == roots[i] * roots[i]
    ensures forall i :: 0 <= i < |roots| ==> squares[i] >= 0.0
    ensures forall i :: 0 <= i < |roots| && roots[i] != 0.0 ==> squares[i] > 0.0
  {
    forall i | 0 <= i < |roots|
      ensures squares[i] >= 0.0 && (roots[i] != 0.0 ==> squares[i] > 0.0)
    {
      var a := roots[i];
      SquareSign(a);
      calc { squares[i]; a * a; >= 0.0; }
      if a != 0.0 {
        calc { squares[i]; a * a; > 0.0; }
      }
    }
  }

  /** Squaring positive square-root prices keeps every tier positive and keeps their order. */
  lemma {:induction false} PricesOrdered(p: Pool, i: int, j: int)
    requires Valid(p)
    requires 0 <= i < Size(p) && 0 <= j < Size(p)
    ensures Prices(p)[i] > 0.0
    ensures p.sqrtP[i] < p.sqrtP[j] <==> Prices(p)[i] < Prices(p)[j]
    ensures p.sqrtP[i] == p.sqrtP[j] <==> Prices(p)[i] == Prices(p)[j]
  {
    var a, b := p.sqrtP[i], p.sqrtP[j];
    assert Prices(p)[i] == a * a && Prices(p)[j] == b * b;
    SquareMonotone(a, b);
    calc { Prices(p)[i]; a * a; > 0.0; }
  }

  lemma SquareMonotone(a: real, b: real)
    requires a > 0.0 && b > 0.0
    ensures a * a > 0.0
    ensures a < b <==> a * a < b * b
    ensures a == b <==> a * a == b * b
  {
    if a < b {
      SquareIncreasing(a, b);
    } else if b < a {
      SquareIncreasing(b, a);
    }
  }

  lemma SquareIncreasing(a: real, b: real)
    requires 0.0 < a < b
    ensures 0.0 < a * a < b * b
  {
    var d := (b - a) * (b + a);
    ProductPositive(b - a, b + a);
    ProductPositive(a, a);
    assert d == b * b - a * a;
  }

  /** Each tier's price weighted by its liquidity, the numerator of the combined price. */
  function WeightedPrices(p: Pool): (ys: seq<real>)
    requires |p.sqrtP| == |p.liquidity|
    ensures |ys| == |p.liquidity|
    ensures forall i :: 0 <= i < |ys| ==> ys[i] == Prices(p)[i] * p.liquidity[i]
  {
    seq(|p.liquidity|, i requires 0 <= i < |p.liquidity| => Prices(p)[i] * p.liquidity[i])
  }

  /**
   * The `price` property: the liquidity-weighted mean of the tier prices.  It
   * lies between the lowest and the highest tier price, both of which it can reach.
   */
  function Price(p: Pool): (price: real)
    requires |p.sqrtP| == |p.liquidity| && Sum(p.liquidity) != 0.0
    ensures Valid(p) ==> exists i :: 0 <= i < Size(p) && Prices(p)[i] <= price
    ensures Valid(p) ==> exists j :: 0 <= j < Size(p) && price <= Prices(p)[j]
  {
    var total, weight := Sum(WeightedPrices(p)), Sum(p.liquidity);
    PriceBetween(p, total, weight);
    total / weight
  }

  lemma {:induction false} PriceBetween(p: Pool, total: real, weight: real)
    requires |p.sqrtP| == |p.liquidity| && Sum(p.liquidity) != 0.0
    requires total == Sum(WeightedPrices(p)) && weight == Sum(p.liquidity)
    ensures Valid(p) ==> exists i :: 0 <= i < Size(p) && Prices(p)[i] <= total / weight
    ensures Valid(p) ==> exists j :: 0 <= j < Size(p) && total / weight <= Prices(p)[j]
  {
    if Valid(p) {
      SumOfPositives(p.liquidity);
      WeightedMeanBetween(WeightedPrices(p), p.liquidity, Prices(p));
    }
  }

  /** Right after construction every tier has the starting price, and so has the mean. */
  lemma {:induction false} PriceOfNewPool(liquidity: seq<real>, sqrtGamma: seq<real>, sqrtP: real)
    requires Valid(NewPool(liquidity, sqrtGamma, sqrtP))
    ensures Sum(liquidity) > 0.0
    ensures Price(NewPool(liquidity, sqrtGamma, sqrtP)) == sqrtP * sqrtP
  {
    var p := NewPool(liquidity, sqrtGamma, sqrtP);
    var square := sqrtP * sqrtP;
    NewPoolPrices(liquidity, sqrtGamma, sqrtP, square);
    SumOfPositives(liquidity);
    var price := Price(p);
    var i :| 0 <= i < Size(p) && Prices(p)[i] <= price;
    var j :| 0 <= j < Size(p) && price <= Prices(p)[j];
  }

  lemma {:induction false} NewPoolPrices(liquidity: seq<real>, sqrtGamma: seq<real>, sqrtP: real, square: real)
    requires square == sqrtP * sqrtP
    ensures forall i :: 0 <= i < |liquidity| ==> Prices(NewPool(liquidity, sqrtGamma, sqrtP))[i] == square
  {
    var p := NewPool(liquidity, sqrtGamma, sqrtP);
    forall i | 0 <= i < |liquidity|
      ensures Prices(p)[i] == square
    {
      assert p.sqrtP[i] == sqrtP;
    }
  }

  /**
   * The combined price is monotone in the tier prices: a pool whose tiers
   * (with the same liquidity) are all at most as dear, one of them strictly
   * cheaper, has a strictly lower price.
   */
  lemma {:induction false} PriceMonotone(a: Pool, b: Pool, k: int)
    requires Valid(a) && Valid(b) && a.liquidity == b.liquidity
    requires forall i :: 0 <= i < Size(a) ==> a.sqrtP[i] <= b.sqrtP[i]
    requires 0 <= k < Size(a) && a.sqrtP[k] < b.sqrtP[k]
    ensures Sum(a.liquidity) > 0.0
    ensures Price(a) < Price(b)
  {
    SumOfPositives(a.liquidity);
    WeightedSumsOrdered(a, b, k);
    QuotientOrder(Sum(WeightedPrices(a)), Sum(WeightedPrices(b)), Sum(a.liquidity));
  }

  lemma {:induction false} WeightedSumsOrdered(a: Pool, b: Pool, k: int)
    requires Valid(a) && Valid(b) && a.liquidity == b.liquidity
    requires forall i :: 0 <= i < Size(a) ==> a.sqrtP[i] <= b.sqrtP[i]
    requires 0 <= k < Size(a) && a.sqrtP[k] < b.sqrtP[k]
    ensures Sum(WeightedPrices(a)) < Sum(WeightedPrices(b))
  {
    var lo, hi := WeightedPrices(a), WeightedPrices(b);
    forall i | 0 <= i < Size(a)
      ensures lo[i] <= hi[i]
      ensures i == k ==> lo[i] < hi[i]
    {
      TierWeightedPriceOrder(a.sqrtP[i], b.sqrtP[i], a.liquidity[i], b.liquidity[i], Prices(a)[i], Prices(b)[i]);
    }
    SumStrictlyBelow(lo, hi, k);
  }

  /** A tier's liquidity-weighted price grows with its √P. */
  lemma TierWeightedPriceOrder(a: real, b: real, la: real, lb: real, pa: real, pb: real)
    requires 0.0 < a <= b && la > 0.0 && la == lb && pa == a * a && pb == b * b
    ensures pa * la <= pb * lb
    ensures a < b ==> pa * la < pb * lb
  {
    SquareMonotone(a, b);
    if a < b {
      ScaleBelow(pa, pb, la);
    }
  }
}
